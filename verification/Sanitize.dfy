/** The report generator's `sanitize`: eight masking passes over one text. */
module Sanitize {
  import opened Prelude
  import opened Regex
  import opened Masking
  import opened PlainText

  /** Literal text under IGNORECASE. */
  function Folded(s: string): Pattern {
    seq(|s|, i requires 0 <= i < |s| => One(if 'a' <= s[i] <= 'z' then Fold(s[i]) else Exact(s[i])))
  }

  /** A literal under IGNORECASE matches its spellings. */
  lemma {:induction false} FoldedMatches(s: string, u: string)
    requires |s| == |u| && forall i | 0 <= i < |s| :: In(u[i], Folded(s)[i].cls)
    ensures Matches(Folded(s), u)
    decreases |s|
  {
    if s == "" {
      assert Splits(Folded(s), u, []);
    } else {
      assert Folded(s)[1..] == Folded(s[1..]);
      FoldedMatches(s[1..], u[1..]);
      MatchesItem(Folded(s)[0], u[..1]);
      MatchesJoin([Folded(s)[0]], Folded(s[1..]), u[..1], u[1..]);
      assert Folded(s) == [Folded(s)[0]] + Folded(s[1..]);
      assert u[..1] + u[1..] == u;
    }
  }

  /** Literal text. */
  function Literal(s: string): Pattern {
    seq(|s|, i requires 0 <= i < |s| => One(Exact(s[i])))
  }

  function Bearer(): Pattern { Folded("bearer") + [AtLeast(Space, 1), AtLeast(TokenChar, 10)] }

  function SecretParam(): Pattern { Folded("client_secret") + [One(Exact('=')), AtLeast(TokenChar, 8)] }

  function JsonField(name: string): Pattern {
    Folded("\"" + name + "\":") + [AtLeast(Space, 0), One(Exact('"')), AtLeast(NotQuote, 1), One(Exact('"'))]
  }

  function TokenVal(): Pattern { Folded("token-val") + [AtLeast(Space, 1), AtLeast(TokenChar, 8)] }

  function KeyAuth(): Pattern { Folded("key-auth") + [AtLeast(Space, 1), AtLeast(TokenChar, 10)] }

  function AuthKeyInfix(): Pattern {
    [AtLeast(TokenChar, 10)] + (Folded(".auth-key-") + [AtLeast(TokenChar, 8)])
  }

  function KeyFence(word: string): Pattern {
    Literal("-----" + word + " ") + ([AtLeast(UpperOrSpace, 1)] + Literal("PRIVATE KEY-----"))
  }

  function PrivateKey(): Pattern { KeyFence("BEGIN") + ([LazyPlus(AnyChar)] + KeyFence("END")) }

  /** The pattern table, in order. */
  function Rules(): seq<Rule> {
    [ Rule(Bearer(), 0, Some("Bearer "), "***MASKED_TOKEN***", 0),
      Rule(SecretParam(), 14, None, "***MASKED_SECRET***", 0),
      Rule(JsonField("client_secret"), 18, None, "***MASKED_SECRET***", 1),
      Rule(JsonField("access_token"), 17, None, "***MASKED_TOKEN***", 1),
      Rule(TokenVal(), 10, None, "***MASKED_TOKEN***", 0),
      Rule(KeyAuth(), 9, None, "***MASKED_KEY_AUTH***", 0),
      Rule(AuthKeyInfix(), 0, None, "***MASKED_KEY_AUTH***", 0),
      Rule(PrivateKey(), 0, None, "***MASKED_PRIVATE_KEY***", 0) ]
  }

  lemma RulesWellFormed()
    ensures forall i | 0 <= i < |Rules()| :: WellFormed(Rules()[i])
  {
  }

  /** The text after the first `n` passes. */
  ghost function Passes(text: string, n: nat): string
    requires n <= |Rules()|
  {
    if n == 0 then text else RulesWellFormed(); Sub(Rules()[n - 1], Passes(text, n - 1))
  }

  /** `sanitize(text)` */
  ghost function Sanitized(text: string): string {
    if text == "" then "" else Passes(text, 8)
  }

  /** The passes whose pattern must not occur in a sanitized text; 2 and 3 keep the quotes their patterns look for. */
  const CLEARED: set<nat> := {0, 1, 4, 5, 6, 7}

  // ---- The shapes of the patterns -----------------------------------------

  lemma BearerKeyed()
    ensures Keyed(Rules()[0], 6)
  {
    RulesWellFormed();
    BearerPattern();
    BearerLead();
  }

  lemma BearerPattern()
    ensures KeyedPattern(Bearer(), 6)
  {
    var p := Bearer();
    assert p[6] == AtLeast(Space, 1) && p[7] == AtLeast(TokenChar, 10);
  }

  /** "Bearer " stands for every spelling of the key. */
  lemma BearerLead()
    ensures LeadFits(Bearer(), 6, "Bearer ")
  {
    var p := Bearer();
    assert p[7] == AtLeast(TokenChar, 10) && p[6] == AtLeast(Space, 1);
    forall i, x: char | 0 <= i < 6 && In(x, p[i].cls)
      ensures Alike("Bearer "[i], x, p)
    {
      assert p[i].cls == Fold("bearer"[i]);
    }
  }

  lemma SecretParamKeyed()
    ensures Keyed(Rules()[1], 13)
  {
    RulesWellFormed();
    var p := SecretParam();
    assert p[13] == One(Exact('=')) && p[14] == AtLeast(TokenChar, 8);
  }

  lemma TokenValKeyed()
    ensures Keyed(Rules()[4], 9)
  {
    RulesWellFormed();
    var p := TokenVal();
    assert p[9] == AtLeast(Space, 1) && p[10] == AtLeast(TokenChar, 8);
  }

  lemma KeyAuthKeyed()
    ensures Keyed(Rules()[5], 8)
  {
    RulesWellFormed();
    var p := KeyAuth();
    assert p[8] == AtLeast(Space, 1) && p[9] == AtLeast(TokenChar, 10);
  }

  /** A fence begins with a dash and takes no star. */
  lemma FenceShape(word: string)
    requires '*' !in word
    ensures StarFree(KeyFence(word)) && KeyFence(word) != [] && KeyFence(word)[0] == One(Exact('-'))
  {
    LiteralStarFree("-----" + word + " ");
    LiteralStarFree("PRIVATE KEY-----");
    var head, tail := Literal("-----" + word + " "), Literal("PRIVATE KEY-----");
    assert KeyFence(word) == head + ([AtLeast(UpperOrSpace, 1)] + tail);
    assert head[0] == One(Exact('-'));
  }

  lemma LiteralStarFree(s: string)
    requires '*' !in s
    ensures StarFree(Literal(s))
  {
  }

  lemma PrivateKeyFenced()
    ensures Fenced(Rules()[7], KeyFence("BEGIN"), KeyFence("END"))
  {
    FenceShape("BEGIN");
    FenceShape("END");
    PrivateKeyRule();
  }

  lemma PrivateKeyRule()
    ensures var r := Rules()[7];
      && WellFormed(r) && r.pre == 0 && r.lead.None? && r.suf == 0 && '-' !in r.mask
      && r.pattern == PrivateKey()
  {
    RulesWellFormed();
  }

  /** An item that takes at least one character, and none that occurs in a mask. */
  function Telltale(k: nat): nat
    requires k in CLEARED
  {
    if k == 0 then 6 else if k == 1 then 13 else if k == 4 then 9
    else if k == 5 then 8 else if k == 6 then 1 else 0
  }

  lemma TelltaleItem(k: nat)
    requires k in CLEARED
    ensures var p := Rules()[k].pattern;
            Telltale(k) < |p| && p[Telltale(k)].min > 0
            && (p[Telltale(k)].cls == Space || p[Telltale(k)].cls in {Exact('='), Exact('.'), Exact('-')})
  {
    assert Bearer()[6] == AtLeast(Space, 1);
    assert SecretParam()[13] == One(Exact('='));
    assert TokenVal()[9] == AtLeast(Space, 1);
    assert KeyAuth()[8] == AtLeast(Space, 1);
    assert AuthKeyInfix()[1] == One(Exact(".auth-key-"[0]));
    assert PrivateKey()[0] == One(Exact("-----BEGIN "[0]));
  }

  /** Masks are made of capital letters, underscores and stars. */
  predicate MaskText(s: string) {
    forall i | 0 <= i < |s| :: 'A' <= s[i] <= 'Z' || s[i] == '_' || s[i] == '*'
  }

  lemma MasksAreMaskText(j: nat)
    requires j < |Rules()|
    ensures MaskText(Rules()[j].mask)
  {
    TokenMask();
    SecretMask();
    KeyAuthMask();
    PrivateKeyMask();
  }

  lemma TokenMask()
    ensures MaskText("***MASKED_TOKEN***")
  {
  }

  lemma SecretMask()
    ensures MaskText("***MASKED_SECRET***")
  {
  }

  lemma KeyAuthMask()
    ensures MaskText("***MASKED_KEY_AUTH***")
  {
  }

  lemma PrivateKeyMask()
    ensures MaskText("***MASKED_PRIVATE_KEY***")
  {
  }

  lemma MaskHoldsNoMatch(k: nat, j: nat)
    requires k in CLEARED && j < |Rules()|
    ensures !HasMatch(Rules()[k].pattern, Rules()[j].mask)
  {
    TelltaleItem(k);
    MasksAreMaskText(j);
    NoMatchWithout(Rules()[k].pattern, Rules()[j].mask, Telltale(k));
  }

  // ---- What a pass removes and what later passes keep away ----------------

  lemma KeyedPassClears(k: nat, n: nat, s: string)
    requires k in CLEARED && Keyed(Rules()[k], n)
    ensures !HasMatch(Rules()[k].pattern, Sub(Rules()[k], s))
  {
    MaskHoldsNoMatch(k, k);
    SubClears(Rules()[k], n, s);
  }

  lemma BearerPassClears(s: string)
    ensures WellFormed(Rules()[0]) && !HasMatch(Rules()[0].pattern, Sub(Rules()[0], s))
  {
    BearerKeyed();
    KeyedPassClears(0, 6, s);
  }

  lemma SecretParamPassClears(s: string)
    ensures WellFormed(Rules()[1]) && !HasMatch(Rules()[1].pattern, Sub(Rules()[1], s))
  {
    SecretParamKeyed();
    KeyedPassClears(1, 13, s);
  }

  lemma TokenValPassClears(s: string)
    ensures WellFormed(Rules()[4]) && !HasMatch(Rules()[4].pattern, Sub(Rules()[4], s))
  {
    TokenValKeyed();
    KeyedPassClears(4, 9, s);
  }

  lemma KeyAuthPassClears(s: string)
    ensures WellFormed(Rules()[5]) && !HasMatch(Rules()[5].pattern, Sub(Rules()[5], s))
  {
    KeyAuthKeyed();
    KeyedPassClears(5, 8, s);
  }

  lemma InfixRule()
    ensures var r := Rules()[6]; WellFormed(r) && r.pre == 0 && r.lead.None? && r.suf == 0 && StarFree(r.pattern)
  {
    RulesWellFormed();
  }

  lemma InfixPassClears(s: string)
    ensures WellFormed(Rules()[6]) && !HasMatch(Rules()[6].pattern, Sub(Rules()[6], s))
  {
    InfixRule();
    MaskHoldsNoMatch(6, 6);
    SubClearsWhole(Rules()[6], s);
  }

  lemma KeyPassClears(s: string)
    ensures WellFormed(Rules()[7]) && !HasMatch(Rules()[7].pattern, Sub(Rules()[7], s))
  {
    PrivateKeyFenced();
    SubClearsFenced(Rules()[7], KeyFence("BEGIN"), KeyFence("END"), s);
  }

  /** Each of the six passes removes every match of its own pattern. */
  lemma PassClears(k: nat, s: string)
    requires k in CLEARED
    ensures WellFormed(Rules()[k]) && !HasMatch(Rules()[k].pattern, Sub(Rules()[k], s))
  {
    if k == 0 {
      BearerPassClears(s);
    } else if k == 1 {
      SecretParamPassClears(s);
    } else if k == 4 {
      TokenValPassClears(s);
    } else if k == 5 {
      KeyAuthPassClears(s);
    } else if k == 6 {
      InfixPassClears(s);
    } else {
      KeyPassClears(s);
    }
  }

  lemma KeyPatternsStarFree(k: nat)
    requires k in CLEARED && k != 7
    ensures StarFree(Rules()[k].pattern) && Rules()[k].pattern[0].min > 0
  {
    RulesWellFormed();
    BearerKeyed();
    SecretParamKeyed();
    TokenValKeyed();
    KeyAuthKeyed();
  }

  /** A later pass re-creates no match that an earlier one removed. */
  lemma LaterPassKeepsClear(k: nat, j: nat, s: string)
    requires k in CLEARED && k < j < |Rules()| && !HasMatch(Rules()[k].pattern, s)
    ensures WellFormed(Rules()[j]) && !HasMatch(Rules()[k].pattern, Sub(Rules()[j], s))
  {
    RulesWellFormed();
    KeyPatternsStarFree(k);
    MaskHoldsNoMatch(k, j);
    SubCreatesNoMatch(Rules()[j], Rules()[k].pattern, s);
  }

  lemma {:induction false} ClearAfter(k: nat, text: string, n: nat)
    requires k in CLEARED && k < n <= |Rules()|
    ensures !HasMatch(Rules()[k].pattern, Passes(text, n))
    decreases n
  {
    RulesWellFormed();
    if n == k + 1 {
      PassClears(k, Passes(text, k));
    } else {
      ClearAfter(k, text, n - 1);
      LaterPassKeepsClear(k, n - 1, Passes(text, n - 1));
    }
  }

  /** For every input text, no match of the six patterns is left after the whole pipeline. */
  lemma SanitizedHoldsNoMatch(text: string, k: nat)
    requires k in CLEARED
    ensures !HasMatch(Rules()[k].pattern, Sanitized(text))
  {
    if text == "" {
      RulesWellFormed();
      if HasMatch(Rules()[k].pattern, "") {
        var x := HasMatchNeeds(Rules()[k].pattern, "", 0);
      }
    } else {
      ClearAfter(k, text, 8);
    }
  }

  /** Without a match a pass changes nothing, so clean text passes through unchanged. */
  lemma {:induction false} CleanTextUnchanged(text: string, n: nat)
    requires n <= |Rules()| && forall k | 0 <= k < n :: !HasMatch(Rules()[k].pattern, text)
    ensures Passes(text, n) == text
  {
    RulesWellFormed();
    if n > 0 {
      CleanTextUnchanged(text, n - 1);
      SubNothing(Rules()[n - 1], text);
    }
  }

  // ---- The patterns in plain text -----------------------------------------

  lemma WhiteIs(x: char)
    ensures In(x, Space) <==> x in WHITE
  {
    if IsSpace(x) {
      var n := x as int;
      assert n in {9, 10, 11, 12, 13, 28, 29, 30, 31, 32, 0x85, 0xA0, 0x1680, 0x2000, 0x2001, 0x2002, 0x2003, 0x2004,
                   0x2005, 0x2006, 0x2007, 0x2008, 0x2009, 0x200A, 0x2028, 0x2029, 0x202F, 0x205F, 0x3000};
    }
  }

  /** Key, white space if it asks for some, secret. */
  function SecretPattern(word: string, spaced: bool, n: nat): Pattern {
    Folded(word) + ((if spaced then [AtLeast(Space, 1)] else []) + [AtLeast(TokenChar, n)])
  }

  function AroundPattern(word: string): Pattern {
    [AtLeast(TokenChar, 10)] + (Folded(word) + [AtLeast(TokenChar, 8)])
  }

  lemma SecretPatterns()
    ensures Bearer() == SecretPattern("bearer", true, 10) && SecretParam() == SecretPattern("client_secret=", false, 8)
    ensures TokenVal() == SecretPattern("token-val", true, 8) && KeyAuth() == SecretPattern("key-auth", true, 10)
    ensures AuthKeyInfix() == AroundPattern(".auth-key-")
  {
    assert Folded("client_secret") + [One(Exact('='))] == Folded("client_secret=");
  }

  lemma TokensMatch(s: string, i: nat, j: nat, n: nat)
    requires TokensFrom(s, i, j) && i + n <= j
    ensures Matches([AtLeast(TokenChar, n)], s[i..j])
  {
    MatchesItem(AtLeast(TokenChar, n), s[i..j]);
  }

  lemma SpelledMatches(word: string, s: string, i: nat)
    requires Spelled(word, s, i)
    ensures Matches(Folded(word), s[i..i + |word|])
  {
    FoldedMatches(word, s[i..i + |word|]);
  }

  lemma WhiteMatches(s: string, i: nat, j: nat)
    requires WhiteFrom(s, i, j) && i < j
    ensures Matches([AtLeast(Space, 1)], s[i..j])
  {
    forall k | i <= k < j
      ensures In(s[k], Space)
    {
      WhiteIs(s[k]);
    }
    MatchesItem(AtLeast(Space, 1), s[i..j]);
  }

  lemma MatchesSpan(p: Pattern, q: Pattern, s: string, i: nat, a: nat, j: nat)
    requires i <= a <= j <= |s| && Matches(p, s[i..a]) && Matches(q, s[a..j])
    ensures Matches(p + q, s[i..j])
  {
    MatchesJoin(p, q, s[i..a], s[a..j]);
    assert s[i..a] + s[a..j] == s[i..j];
  }

  lemma SecretMatches(word: string, spaced: bool, n: nat, s: string, i: nat, a: nat, j: nat)
    requires SecretAt(word, spaced, n, s, i, a) && a + n <= j && TokensFrom(s, a, j)
    ensures Matches(SecretPattern(word, spaced, n), s[i..j])
  {
    var b, token := i + |word|, [AtLeast(TokenChar, n)];
    SpelledMatches(word, s, i);
    TokensMatch(s, a, j, n);
    if spaced {
      WhiteMatches(s, b, a);
      MatchesSpan([AtLeast(Space, 1)], token, s, b, a, j);
    } else {
      assert [] + token == token;
    }
    MatchesSpan(Folded(word), (if spaced then [AtLeast(Space, 1)] else []) + token, s, i, b, j);
  }

  lemma AroundMatches(word: string, s: string, i: nat, o: nat, j: nat)
    requires AroundAt(word, s, i, o) && o + |word| + 8 <= j && TokensFrom(s, o + |word|, j)
    ensures Matches(AroundPattern(word), s[i..j])
  {
    TokensMatch(s, i, o, 10);
    SpelledMatches(word, s, o);
    TokensMatch(s, o + |word|, j, 8);
    MatchesSpan(Folded(word), [AtLeast(TokenChar, 8)], s, o, o + |word|, j);
    MatchesSpan([AtLeast(TokenChar, 10)], Folded(word) + [AtLeast(TokenChar, 8)], s, i, o, j);
  }

  function Opening(word: string): string { "-----" + word + " " }

  const CLOSING: string := "PRIVATE KEY-----"

  /** Header or footer of a key, `kind` being what stands in front of `PRIVATE`, such as "RSA ". */
  function Fence(word: string, kind: string): string { Opening(word) + (kind + CLOSING) }

  /** A literal matches itself only. */
  lemma {:induction false} LiteralIs(s: string, u: string)
    ensures Matches(Literal(s), u) <==> u == s
    decreases |s|
  {
    if s == "" {
      assert Splits(Literal(s), "", []);
    } else {
      assert Literal(s) == [One(Exact(s[0]))] + Literal(s[1..]);
      if Matches(Literal(s), u) {
        var n := MatchesCut([One(Exact(s[0]))], Literal(s[1..]), u);
        MatchesItem(One(Exact(s[0])), u[..n]);
        LiteralIs(s[1..], u[n..]);
        assert u[..1][0] == s[0] && u == u[..1] + u[1..];
      }
      if u == s {
        LiteralIs(s[1..], u[1..]);
        MatchesItem(One(Exact(s[0])), u[..1]);
        MatchesJoin([One(Exact(s[0]))], Literal(s[1..]), u[..1], u[1..]);
        assert u[..1] + u[1..] == s;
      }
    }
  }

  lemma FenceMatches(word: string, kind: string)
    requires IsKind(kind)
    ensures Matches(KeyFence(word), Fence(word, kind))
  {
    LiteralIs(Opening(word), Opening(word));
    LiteralIs(CLOSING, CLOSING);
    MatchesItem(AtLeast(UpperOrSpace, 1), kind);
    MatchesJoin([AtLeast(UpperOrSpace, 1)], Literal(CLOSING), kind, CLOSING);
    MatchesJoin(Literal(Opening(word)), [AtLeast(UpperOrSpace, 1)] + Literal(CLOSING), Opening(word), kind + CLOSING);
  }

  lemma FencesAre(kind: string, kind': string)
    ensures Fence("BEGIN", kind) == "-----BEGIN " + (kind + "PRIVATE KEY-----")
    ensures Fence("END", kind') == "-----END " + (kind' + "PRIVATE KEY-----")
  {
    assert Opening("BEGIN") == "-----BEGIN " && Opening("END") == "-----END ";
  }

  lemma KeyMatches(p: Pattern, q: Pattern, h: string, body: string, f: string)
    requires Matches(p, h) && body != "" && Matches(q, f)
    ensures Matches(p + ([LazyPlus(AnyChar)] + q), h + (body + f))
  {
    MatchesItem(LazyPlus(AnyChar), body);
    MatchesJoin([LazyPlus(AnyChar)], q, body, f);
    MatchesJoin(p, [LazyPlus(AnyChar)] + q, h, body + f);
  }

  lemma KeyIsMatch(s: string, i: nat, kind: string, body: string, kind': string)
    requires KeyAt(s, i, kind, body, kind')
    ensures HasMatch(PrivateKey(), s)
  {
    var h, f := Fence("BEGIN", kind), Fence("END", kind');
    FenceMatches("BEGIN", kind);
    FenceMatches("END", kind');
    KeyMatches(KeyFence("BEGIN"), KeyFence("END"), h, body, f);
    FencesAre(kind, kind');
    PrefixIsSubstring(s, i, h + (body + f));
  }

  lemma PrefixIsSubstring(s: string, i: nat, t: string)
    requires i <= |s| && t <= s[i..]
    ensures SubstringOf(t, s)
  {
    assert t == s[i..i + |t|];
  }

  lemma SecretIsMatch(word: string, spaced: bool, n: nat, s: string, i: nat, a: nat)
    requires SecretAt(word, spaced, n, s, i, a)
    ensures HasMatch(SecretPattern(word, spaced, n), s)
  {
    SecretMatches(word, spaced, n, s, i, a, a + n);
    SliceIsSubstring(s, i, a + n);
  }

  lemma AroundIsMatch(word: string, s: string, i: nat, o: nat)
    requires AroundAt(word, s, i, o)
    ensures HasMatch(AroundPattern(word), s)
  {
    AroundMatches(word, s, i, o, o + |word| + 8);
    SliceIsSubstring(s, i, o + |word| + 8);
  }

  lemma NoMatchNoSecret(word: string, spaced: bool, n: nat, s: string)
    requires !HasMatch(SecretPattern(word, spaced, n), s)
    ensures forall i: nat, a: nat :: !SecretAt(word, spaced, n, s, i, a)
  {
    forall i: nat, a: nat
      ensures !SecretAt(word, spaced, n, s, i, a)
    {
      if SecretAt(word, spaced, n, s, i, a) {
        SecretIsMatch(word, spaced, n, s, i, a);
      }
    }
  }

  lemma NoMatchNotAround(word: string, s: string)
    requires !HasMatch(AroundPattern(word), s)
    ensures forall i: nat, o: nat :: !AroundAt(word, s, i, o)
  {
    forall i: nat, o: nat
      ensures !AroundAt(word, s, i, o)
    {
      if AroundAt(word, s, i, o) {
        AroundIsMatch(word, s, i, o);
      }
    }
  }

  lemma NoMatchNoKey(s: string)
    requires !HasMatch(PrivateKey(), s)
    ensures forall i: nat, kind: string, body: string, kind': string :: !KeyAt(s, i, kind, body, kind')
  {
    forall i: nat, kind: string, body: string, kind': string
      ensures !KeyAt(s, i, kind, body, kind')
    {
      if KeyAt(s, i, kind, body, kind') {
        KeyIsMatch(s, i, kind, body, kind');
      }
    }
  }

  /** For every input text no secret is left after the whole pipeline, in the characters of the text. */
  lemma SanitizedHoldsNoSecret(text: string)
    ensures HoldsNoSecret(Sanitized(text))
  {
    var s := Sanitized(text);
    SecretPatterns();
    forall k | k in CLEARED
      ensures !HasMatch(Rules()[k].pattern, s)
    {
      SanitizedHoldsNoMatch(text, k);
    }
    ClearHoldsNoSecret(s);
  }

  lemma ClearHoldsNoSecret(s: string)
    requires forall k | k in CLEARED :: !HasMatch(Rules()[k].pattern, s)
    ensures HoldsNoSecret(s)
  {
    SecretPatterns();
    assert !HasMatch(Rules()[0].pattern, s) && !HasMatch(Rules()[1].pattern, s) && !HasMatch(Rules()[4].pattern, s);
    assert !HasMatch(Rules()[5].pattern, s) && !HasMatch(Rules()[6].pattern, s) && !HasMatch(Rules()[7].pattern, s);
    NoMatchNoSecret("bearer", true, 10, s);
    NoMatchNoSecret("client_secret=", false, 8, s);
    NoMatchNoSecret("token-val", true, 8, s);
    NoMatchNoSecret("key-auth", true, 10, s);
    NoMatchNotAround(".auth-key-", s);
    NoMatchNoKey(s);
  }

  // ---- The loop -----------------------------------------------------------

  method Sanitize(text: string) returns (sanitized: string)
    ensures sanitized == Sanitized(text) && HoldsNoSecret(sanitized)
    ensures forall k | k in CLEARED :: !HasMatch(Rules()[k].pattern, sanitized)
    ensures (forall k | 0 <= k < |Rules()| :: !HasMatch(Rules()[k].pattern, text)) ==> sanitized == text
  {
    RulesWellFormed();
    forall k | k in CLEARED
      ensures !HasMatch(Rules()[k].pattern, Sanitized(text))
    {
      SanitizedHoldsNoMatch(text, k);
    }
    SanitizedHoldsNoSecret(text);
    if (forall k | 0 <= k < |Rules()| :: !HasMatch(Rules()[k].pattern, text)) {
      CleanTextUnchanged(text, 8);
    }
    if text == "" {
      return "";
    }
    sanitized := text;
    for i := 0 to |Rules()|
      invariant sanitized == Passes(text, i)
    {
      sanitized := Sub(Rules()[i], sanitized);
    }
  }
}
