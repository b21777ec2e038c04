/** What the report generator calls a secret, in the characters of the text themselves. */
module PlainText {
  /** The white space of Python's `\s`. */
  const WHITE: string := "\t\n\U{000B}\U{000C}\r\U{001C}\U{001D}\U{001E}\U{001F} \U{0085}\U{00A0}\U{1680}" +
                         "\U{2000}\U{2001}\U{2002}\U{2003}\U{2004}\U{2005}\U{2006}\U{2007}\U{2008}\U{2009}\U{200A}" +
                         "\U{2028}\U{2029}\U{202F}\U{205F}\U{3000}"

  /** A character of a key: itself, its capital, or a letter that case folding adds to i, s and k. */
  predicate SameLetter(x: char, c: char) {
    || x == c
    || ('a' <= c <= 'z' && 'A' <= x <= 'Z' && c as int == x as int + 32)
    || (c == 'i' && (x == '\U{0130}' || x == '\U{0131}'))
    || (c == 's' && x == '\U{017F}')
    || (c == 'k' && x == '\U{212A}')
  }

  /** A character of a secret: `[A-Za-z0-9_.-]` and the four letters that case folding adds. */
  predicate IsToken(x: char) {
    || 'a' <= x <= 'z' || 'A' <= x <= 'Z' || '0' <= x <= '9' || x == '_' || x == '-' || x == '.'
    || x == '\U{0130}' || x == '\U{0131}' || x == '\U{017F}' || x == '\U{212A}'
  }

  /** The word stands at `i`, in any spelling. */
  predicate Spelled(word: string, s: string, i: nat) {
    i + |word| <= |s| && forall k | 0 <= k < |word| :: SameLetter(s[i + k], word[k])
  }

  predicate WhiteFrom(s: string, i: nat, j: nat) {
    i <= j <= |s| && forall k | i <= k < j :: s[k] in WHITE
  }

  predicate TokensFrom(s: string, i: nat, j: nat) {
    i <= j <= |s| && forall k | i <= k < j :: IsToken(s[k])
  }

  /** A key at `i`, white space behind it if it asks for some, and `n` characters of a secret from `a` on. */
  predicate SecretAt(word: string, spaced: bool, n: nat, s: string, i: nat, a: nat) {
    && Spelled(word, s, i) && WhiteFrom(s, i + |word|, a) && (spaced <==> i + |word| < a)
    && TokensFrom(s, a, a + n)
  }

  /** `word` at `o`, with ten characters of a secret in front, from `i` on, and eight behind. */
  predicate AroundAt(word: string, s: string, i: nat, o: nat) {
    i + 10 <= o && TokensFrom(s, i, o) && Spelled(word, s, o) && TokensFrom(s, o + |word|, o + |word| + 8)
  }

  /** The kind of a key: capitals and spaces, at least one. */
  predicate IsKind(kind: string) {
    kind != "" && forall k | 0 <= k < |kind| :: 'A' <= kind[k] <= 'Z' || kind[k] == ' '
  }

  /** A private key at `i`: header, body and footer. */
  predicate KeyAt(s: string, i: nat, kind: string, body: string, kind': string) {
    && IsKind(kind) && body != "" && IsKind(kind') && i <= |s|
    && "-----BEGIN " + (kind + "PRIVATE KEY-----") + (body + ("-----END " + (kind' + "PRIVATE KEY-----"))) <= s[i..]
  }

  /** No secret that one of the six patterns asks for is left. */
  ghost predicate HoldsNoSecret(s: string) {
    && (forall i: nat, a: nat :: !SecretAt("bearer", true, 10, s, i, a))
    && (forall i: nat, a: nat :: !SecretAt("client_secret=", false, 8, s, i, a))
    && (forall i: nat, a: nat :: !SecretAt("token-val", true, 8, s, i, a))
    && (forall i: nat, a: nat :: !SecretAt("key-auth", true, 10, s, i, a))
    && (forall i: nat, o: nat :: !AroundAt(".auth-key-", s, i, o))
    && (forall i: nat, kind: string, body: string, kind': string :: !KeyAt(s, i, kind, body, kind'))
  }
}
