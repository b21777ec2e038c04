/** Hexadecimal and base64 (sections 4, 5 and 8 of RFC 4648), and the two Authorization headers built on them. */
module Codec {
  import opened Prelude
  import opened Text

  type Byte = b: int | 0 <= b < 256
  type Sextet = d: int | 0 <= d < 64

  // ---- base64 -------------------------------------------------------------

  datatype Alphabet = Std | Url

  function Letter(a: Alphabet, d: Sextet): char {
    if d < 26 then ('A' as int + d) as char
    else if d < 52 then ('a' as int + d - 26) as char
    else if d < 62 then ('0' as int + d - 52) as char
    else if d == 62 then (if a == Std then '+' else '-')
    else (if a == Std then '/' else '_')
  }

  function Value(a: Alphabet, c: char): Option<Sextet> {
    if 'A' <= c <= 'Z' then Some(c as int - 'A' as int)
    else if 'a' <= c <= 'z' then Some(c as int - 'a' as int + 26)
    else if '0' <= c <= '9' then Some(c as int - '0' as int + 52)
    else if c == Letter(a, 62) then Some(62)
    else if c == Letter(a, 63) then Some(63)
    else None
  }

  function Group(b: seq<Byte>): (ds: seq<Sextet>)
    requires 1 <= |b| <= 3
  {
    var x: Byte := b[0];
    if |b| == 1 then [x / 4, x % 4 * 16] else
    var y: Byte := b[1];
    if |b| == 2 then [x / 4, x % 4 * 16 + y / 16, y % 16 * 4] else
    var z: Byte := b[2];
    [x / 4, x % 4 * 16 + y / 16, y % 16 * 4 + z / 64, z % 64]
  }

  function Ungroup(ds: seq<Sextet>): (b: seq<Byte>)
    requires 2 <= |ds| <= 4
  {
    var p: Sextet, q: Sextet := ds[0], ds[1];
    if |ds| == 2 then [p * 4 + q / 16] else
    var r: Sextet := ds[2];
    if |ds| == 3 then [p * 4 + q / 16, q % 16 * 16 + r / 4] else
    var s: Sextet := ds[3];
    [p * 4 + q / 16, q % 16 * 16 + r / 4, r % 4 * 64 + s]
  }

  function Letters(a: Alphabet, ds: seq<Sextet>): string {
    seq(|ds|, i requires 0 <= i < |ds| => Letter(a, ds[i]))
  }

  function Values(a: Alphabet, s: string): Option<seq<Sextet>> {
    if s == "" then Some([])
    else match (Value(a, s[0]), Values(a, s[1..]))
      case (Some(d), Some(ds)) => Some([d] + ds)
      case _ => None
  }

  /** `EncodeToString` without padding. */
  function Encode(a: Alphabet, b: seq<Byte>): string {
    if b == [] then ""
    else if |b| <= 3 then Letters(a, Group(b))
    else Letters(a, Group(b[..3])) + Encode(a, b[3..])
  }

  /** `DecodeString` without padding. */
  function Decode(a: Alphabet, s: string): Option<seq<Byte>> {
    if s == "" then Some([])
    else if |s| == 1 then None
    else if |s| <= 4 then
      (match Values(a, s) case None => None case Some(ds) => if |ds| == |s| then Some(Ungroup(ds)) else None)
    else match (Decode(a, s[..4]), Decode(a, s[4..]))
      case (Some(b), Some(rest)) => Some(b + rest)
      case _ => None
  }

  const UPPERCASE: string := "ABCDEFGHIJKLMNOPQRSTUVWXYZ"
  const LOWERCASE: string := "abcdefghijklmnopqrstuvwxyz"
  const DIGITS: string := "0123456789"

  /** Tables 1 and 2 of RFC 4648. */
  lemma LetterIsTable(d: Sextet)
    ensures Letter(Std, d) == (UPPERCASE + LOWERCASE + DIGITS + "+/")[d]
    ensures Letter(Url, d) == (UPPERCASE + LOWERCASE + DIGITS + "-_")[d]
  {
    assert |UPPERCASE| == |LOWERCASE| == 26 && |DIGITS| == 10;
    if d < 26 {
      assert ('A' as int + d) as char == UPPERCASE[d];
    } else if d < 52 {
      assert ('a' as int + d - 26) as char == LOWERCASE[d - 26];
    } else if d < 62 {
      assert ('0' as int + d - 52) as char == DIGITS[d - 52];
    }
  }

  /** A group of three bytes is the same number of 24 bits as its four sextets, most significant first. */
  lemma GroupIsBigEndian(b: seq<Byte>)
    requires |b| == 3
    ensures |Group(b)| == 4
    ensures (b[0] as int) * 65536 + (b[1] as int) * 256 + b[2] as int ==
              (Group(b)[0] as int) * 262144 + (Group(b)[1] as int) * 4096 + (Group(b)[2] as int) * 64
              + Group(b)[3] as int
  {
    var x: int, y: int, z: int := b[0], b[1], b[2];
    assert x == x / 4 * 4 + x % 4 && y == y / 16 * 16 + y % 16 && z == z / 64 * 64 + z % 64;
  }

  lemma LetterValue(a: Alphabet, d: Sextet)
    ensures Value(a, Letter(a, d)) == Some(d)
    ensures !IsSpace(Letter(a, d)) && Letter(a, d) != '=' && Letter(a, d) != ':' && Letter(a, d) as int < 128
  {
  }

  lemma {:induction false} LettersValues(a: Alphabet, ds: seq<Sextet>)
    ensures Values(a, Letters(a, ds)) == Some(ds)
    decreases |ds|
  {
    if ds != [] {
      LetterValue(a, ds[0]);
      LettersValues(a, ds[1..]);
      assert Letters(a, ds)[1..] == Letters(a, ds[1..]);
      assert [ds[0]] + ds[1..] == ds;
    }
  }

  lemma OneByte(x: Byte)
    ensures x / 4 * 4 + x % 4 * 16 / 16 == x
  {
  }

  /** The sextet that two bytes share. */
  lemma FirstShared(x: Byte, y: Byte)
    ensures var q := x % 4 * 16 + y / 16; q / 16 == x % 4 && q % 16 == y / 16
  {
  }

  lemma SecondShared(y: Byte, z: Byte)
    ensures var r := y % 16 * 4 + z / 64; r / 4 == y % 16 && r % 4 == z / 64
  {
  }

  lemma LastShared(y: Byte)
    ensures y % 16 * 4 / 4 == y % 16
  {
  }

  lemma GroupOne(b: seq<Byte>)
    requires |b| == 1
    ensures |Group(b)| == 2 && Ungroup(Group(b)) == b
  {
    OneByte(b[0]);
  }

  lemma GroupTwo(b: seq<Byte>)
    requires |b| == 2
    ensures |Group(b)| == 3 && Ungroup(Group(b)) == b
  {
    var x, y := b[0], b[1];
    FirstShared(x, y);
    LastShared(y);
    var ds := Group(b);
    assert ds == [x / 4, x % 4 * 16 + y / 16, y % 16 * 4];
    assert Ungroup(ds) == [x / 4 * 4 + x % 4, y / 16 * 16 + y % 16];
  }

  lemma GroupThree(b: seq<Byte>)
    requires |b| == 3
    ensures |Group(b)| == 4 && Ungroup(Group(b)) == b
  {
    var x, y, z := b[0], b[1], b[2];
    FirstShared(x, y);
    SecondShared(y, z);
    var ds := Group(b);
    assert ds == [x / 4, x % 4 * 16 + y / 16, y % 16 * 4 + z / 64, z % 64];
    assert Ungroup(ds) == [x / 4 * 4 + x % 4, y / 16 * 16 + y % 16, z / 64 * 64 + z % 64];
  }

  lemma GroupRoundTrip(b: seq<Byte>)
    requires 1 <= |b| <= 3
    ensures |Group(b)| == |b| + 1 && Ungroup(Group(b)) == b
  {
    if |b| == 1 {
      GroupOne(b);
    } else if |b| == 2 {
      GroupTwo(b);
    } else {
      GroupThree(b);
    }
  }

  lemma {:induction false} Base64RoundTrip(a: Alphabet, b: seq<Byte>)
    ensures Decode(a, Encode(a, b)) == Some(b)
    ensures |Encode(a, b)| == (4 * |b| + 2) / 3
    decreases |b|
  {
    if b == [] {
    } else if |b| <= 3 {
      GroupRoundTrip(b);
      LettersValues(a, Group(b));
    } else {
      var head, tail := Letters(a, Group(b[..3])), Encode(a, b[3..]);
      Base64RoundTrip(a, b[3..]);
      GroupRoundTrip(b[..3]);
      LettersValues(a, Group(b[..3]));
      assert Encode(a, b)[..4] == head && Encode(a, b)[4..] == tail;
      assert b[..3] + b[3..] == b;
    }
  }

  /** Only letters of the alphabet appear: no space, padding or colon, and nothing outside ASCII. */
  lemma {:induction false} Base64Letters(a: Alphabet, b: seq<Byte>)
    ensures forall c | c in Encode(a, b) :: !IsSpace(c) && c != '=' && c != ':' && c as int < 128
    decreases |b|
  {
    forall d: Sextet {:trigger Letter(a, d)}
      ensures !IsSpace(Letter(a, d)) && Letter(a, d) != '=' && Letter(a, d) != ':' && Letter(a, d) as int < 128
    {
      LetterValue(a, d);
    }
    if |b| > 3 {
      Base64Letters(a, b[3..]);
    }
  }

  // ---- hex ----------------------------------------------------------------

  function HexDigit(d: int): char
    requires 0 <= d < 16
  {
    if d < 10 then ('0' as int + d) as char else ('a' as int + d - 10) as char
  }

  function Hex(b: seq<Byte>): string {
    if b == [] then "" else [HexDigit(b[0] / 16), HexDigit(b[0] % 16)] + Hex(b[1..])
  }

  /** Two digits for each byte, in order, the higher half first. */
  lemma {:induction false} HexIsTable(b: seq<Byte>, i: nat)
    requires i < |b|
    ensures |Hex(b)| == 2 * |b|
    ensures Hex(b)[2 * i] == "0123456789abcdef"[b[i] / 16] && Hex(b)[2 * i + 1] == "0123456789abcdef"[b[i] % 16]
    decreases |b|
  {
    HexLetters(b);
    HexLetters(b[1..]);
    if i > 0 {
      HexIsTable(b[1..], i - 1);
      assert Hex(b)[2..] == Hex(b[1..]);
      assert Hex(b)[2 * i] == Hex(b[1..])[2 * (i - 1)] && Hex(b)[2 * i + 1] == Hex(b[1..])[2 * (i - 1) + 1];
    }
  }

  lemma {:induction false} HexLetters(b: seq<Byte>)
    ensures |Hex(b)| == 2 * |b|
    ensures forall c | c in Hex(b) :: c != ':' && c as int < 128
    decreases |b|
  {
    if b != [] {
      HexLetters(b[1..]);
    }
  }

  lemma {:induction false} HexInjective(b: seq<Byte>, c: seq<Byte>)
    requires Hex(b) == Hex(c)
    ensures b == c
    decreases |b|
  {
    HexLetters(b);
    HexLetters(c);
    if b != [] {
      assert Hex(b)[0] == HexDigit(b[0] / 16) && Hex(b)[1] == HexDigit(b[0] % 16);
      assert Hex(c)[0] == HexDigit(c[0] / 16) && Hex(c)[1] == HexDigit(c[0] % 16);
      assert Hex(b)[2..] == Hex(b[1..]) && Hex(c)[2..] == Hex(c[1..]);
      HexInjective(b[1..], c[1..]);
      assert b == [b[0]] + b[1..] && c == [c[0]] + c[1..];
    }
  }

  // ---- Opaque tokens and the Bearer header --------------------------------

  /** What `IssueToken` hands out for 32 random bytes. */
  function OpaqueToken(b: seq<Byte>): string { "opq_" + Encode(Url, b) }

  /** Distinct draws give distinct tokens, of 47 characters and without spaces. */
  lemma OpaqueTokenShape(b: seq<Byte>, c: seq<Byte>)
    requires |b| == 32
    ensures |OpaqueToken(b)| == 47 && NoSpace(OpaqueToken(b))
    ensures OpaqueToken(b) == OpaqueToken(c) ==> b == c
  {
    Base64RoundTrip(Url, b);
    Base64Letters(Url, b);
    PrefixNoSpace(Encode(Url, b));
    PrefixedInjective(b, c);
  }

  lemma PrefixNoSpace(code: string)
    requires forall c | c in code :: !IsSpace(c)
    ensures NoSpace("opq_" + code)
  {
    assert NoSpace("opq_");
  }

  lemma PrefixedInjective(b: seq<Byte>, c: seq<Byte>)
    ensures OpaqueToken(b) == OpaqueToken(c) ==> b == c
  {
    Base64RoundTrip(Url, b);
    Base64RoundTrip(Url, c);
    assert OpaqueToken(b)[4..] == Encode(Url, b) && OpaqueToken(c)[4..] == Encode(Url, c);
  }

  /** `RoundTrip` sets the header, `TokenAuthMiddleware` takes it apart. */
  function BearerHeader(token: string): string { "Bearer " + token }

  datatype AuthHeader = Missing | Malformed | Bearer(token: string)

  function ParseAuthorization(header: string): AuthHeader {
    if header == "" then Missing
    else
      var n := IndexOf(header, ' ');
      if n == |header| || !EqualFold(header[..n], "Bearer") || TrimSpace(header[n + 1..]) == "" then Malformed
      else Bearer(TrimSpace(header[n + 1..]))
  }

  /** Any scheme spelling and any white space around the token: the middleware reads back the token itself. */
  lemma BearerRoundTrip(scheme: string, before: string, token: string, after: string)
    requires EqualFold(scheme, "Bearer") && Trimmed(token) && token != "" && AllSpace(before) && AllSpace(after)
    ensures ParseAuthorization(scheme + " " + (before + token + after)) == Bearer(token)
  {
    assert forall i | 0 <= i < 6 :: Lower("Bearer"[i]) != Lower(' ');
    var rest := before + token + after;
    IndexOfAppend(scheme, ' ', rest);
    TrimPadding(before, token, after);
    var h := scheme + [' '] + rest;
    assert h == scheme + " " + rest;
    assert h[..|scheme|] == scheme && h[|scheme| + 1..] == rest;
  }

  /** The header is a scheme that spells "Bearer" in any case, a space, and the token with white space around it. */
  ghost predicate IsBearer(header: string, token: string) {
    && token != "" && Trimmed(token)
    && exists scheme, before, after ::
         && EqualFold(scheme, "Bearer") && AllSpace(before) && AllSpace(after)
         && header == scheme + " " + (before + token + after)
  }

  /** What the middleware takes for a token, and when it takes the header for missing. */
  lemma ParseAuthorizationIff(header: string, token: string)
    ensures ParseAuthorization(header) == Bearer(token) <==> IsBearer(header, token)
    ensures ParseAuthorization(header) == Missing <==> header == ""
  {
    if ParseAuthorization(header) == Bearer(token) {
      var n := IndexOf(header, ' ');
      var before, after := TrimCut(header[n + 1..]);
      assert header == header[..n] + " " + header[n + 1..];
    }
    if IsBearer(header, token) {
      var scheme, before, after :|
        && EqualFold(scheme, "Bearer") && AllSpace(before) && AllSpace(after)
        && header == scheme + " " + (before + token + after);
      BearerRoundTrip(scheme, before, token, after);
    }
  }

  /** So it does with the header that `RoundTrip` sets. */
  lemma HeaderRoundTrip(token: string)
    requires NoSpace(token) && token != ""
    ensures ParseAuthorization(BearerHeader(token)) == Bearer(token)
  {
    BearerRoundTrip("Bearer", "", token, "");
    assert BearerHeader(token) == "Bearer" + " " + ("" + token + "");
  }

  // ---- Basic credentials --------------------------------------------------

  /** A Go string is a sequence of bytes: one character for each, whatever text they encode. */
  predicate IsBytes(s: string) {
    forall i | 0 <= i < |s| :: s[i] as int < 256
  }

  function Code(c: char): Byte
    requires c as int < 256
  {
    c as int
  }

  function Bytes(s: string): seq<Byte>
    requires IsBytes(s)
  {
    seq(|s|, i requires 0 <= i < |s| => Code(s[i]))
  }

  function Chars(b: seq<Byte>): string {
    seq(|b|, i requires 0 <= i < |b| => b[i] as char)
  }

  function Padding(n: nat): string {
    if n % 3 == 1 then "==" else if n % 3 == 2 then "=" else ""
  }

  function StripPadding(s: string): string
    decreases |s|
  {
    if s != "" && s[|s| - 1] == '=' then StripPadding(s[..|s| - 1]) else s
  }

  /** `SetBasicAuth` */
  function BasicHeader(user: string, password: string): string
    requires IsBytes(user) && IsBytes(password)
  {
    var b := Bytes(user + ":" + password);
    "Basic " + Encode(Std, b) + Padding(|b|)
  }

  /** `Request.BasicAuth`: the pair before and after the first colon. */
  function ParseBasic(header: string): Option<(string, string)> {
    if |header| < 6 || !EqualFold(header[..6], "Basic ") then None
    else match DecodePadded(header[6..])
      case None => None
      case Some(b) =>
        var s := Chars(b);
        var n := IndexOf(s, ':');
        if n == |s| then None else Some((s[..n], s[n + 1..]))
  }

  /** `StdEncoding.DecodeString`: groups of four, at most two padding characters at the end. */
  function DecodePadded(s: string): Option<seq<Byte>> {
    var code := StripPadding(s);
    if |s| % 4 != 0 || |s| - |code| > 2 then None else Decode(Std, code)
  }

  lemma StripPads(s: string, n: nat)
    requires '=' !in s
    ensures StripPadding(s + Padding(n)) == s
  {
    var p := Padding(n);
    assert StripPadding(s) == s;
    if p == "=" {
      assert (s + p)[..|s|] == s;
    } else if p == "==" {
      assert (s + p)[..|s| + 1] == s + "=";
      assert (s + "=")[..|s|] == s;
      assert StripPadding(s + "=") == s;
    } else {
      assert s + p == s;
    }
  }

  lemma PaddedLength(n: nat)
    ensures ((4 * n + 2) / 3 + |Padding(n)|) % 4 == 0
  {
    var q := n / 3;
    if n % 3 == 0 {
      PadsFor(n, q, 0, 0);
    } else if n % 3 == 1 {
      PadsFor(n, q, 1, 2);
    } else {
      PadsFor(n, q, 2, 3);
    }
  }

  /** `q` whole groups and `m` letters for the rest. */
  lemma PadsFor(n: nat, q: nat, rest: nat, m: nat)
    requires n == 3 * q + rest && rest < 3 && m == (4 * rest + 2) / 3
    ensures (4 * n + 2) / 3 == 4 * q + m && |Padding(n)| == (4 - m) % 4
  {
    assert n % 3 == rest;
    assert 4 * n + 2 == 3 * (4 * q) + (4 * rest + 2);
  }

  lemma CutAtColon(user: string, password: string)
    requires ':' !in user
    ensures var s := user + ":" + password; var n := IndexOf(s, ':');
            n < |s| && s[..n] == user && s[n + 1..] == password
  {
    assert user + ":" + password == user + [':'] + password;
    IndexOfAppend(user, ':', password);
  }

  /** Credentials whose user has no colon come back as the same pair. */
  lemma BasicRoundTrip(user: string, password: string)
    requires IsBytes(user) && IsBytes(password) && ':' !in user
    ensures ParseBasic(BasicHeader(user, password)) == Some((user, password))
  {
    var b := Bytes(user + ":" + password);
    var h := BasicHeader(user, password);
    assert h == "Basic " + (Encode(Std, b) + Padding(|b|));
    assert h[..6] == "Basic " && h[6..] == Encode(Std, b) + Padding(|b|);
    PaddedRoundTrip(b);
    BytesRoundTrip(user + ":" + password);
    CutAtColon(user, password);
  }

  lemma PaddedRoundTrip(b: seq<Byte>)
    ensures DecodePadded(Encode(Std, b) + Padding(|b|)) == Some(b)
  {
    Base64RoundTrip(Std, b);
    Base64Letters(Std, b);
    PadThenDecode(Encode(Std, b), |b|);
  }

  lemma PadThenDecode(code: string, n: nat)
    requires '=' !in code && |code| == (4 * n + 2) / 3
    ensures DecodePadded(code + Padding(n)) == Decode(Std, code)
  {
    PadThenStrip(code, n);
    assert |code + Padding(n)| - |code| == |Padding(n)| <= 2;
  }

  lemma PadThenStrip(code: string, n: nat)
    requires '=' !in code && |code| == (4 * n + 2) / 3
    ensures |code + Padding(n)| % 4 == 0 && StripPadding(code + Padding(n)) == code
  {
    PaddedLength(n);
    StripPads(code, n);
  }

  lemma BytesRoundTrip(s: string)
    requires IsBytes(s)
    ensures Chars(Bytes(s)) == s
  {
    assert forall i | 0 <= i < |s| :: Bytes(s)[i] == s[i] as int;
  }

  /** Another scheme gives no credentials, and neither does a text without a colon. */
  lemma BasicRefused(header: string, text: string)
    ensures ParseBasic(header).Some? ==> |header| >= 6 && EqualFold(header[..6], "Basic ")
    ensures IsBytes(text) && ':' !in text ==>
              ParseBasic("Basic " + (Encode(Std, Bytes(text)) + Padding(|Bytes(text)|))) == None
  {
    if IsBytes(text) && ':' !in text {
      var b := Bytes(text);
      var h := "Basic " + (Encode(Std, b) + Padding(|b|));
      assert h[..6] == "Basic " && h[6..] == Encode(Std, b) + Padding(|b|);
      PaddedRoundTrip(b);
      BytesRoundTrip(text);
    }
  }

  /** Generated identifiers and secrets qualify. */
  lemma GeneratedCredentials(id: seq<Byte>, secret: seq<Byte>)
    ensures var user, password := Hex(id), Encode(Url, secret);
            IsBytes(user) && IsBytes(password)
            && ParseBasic(BasicHeader(user, password)) == Some((user, password))
  {
    HexLetters(id);
    Base64Letters(Url, secret);
    assert forall i | 0 <= i < |Hex(id)| :: Hex(id)[i] in Hex(id);
    assert forall i | 0 <= i < |Encode(Url, secret)| :: Encode(Url, secret)[i] in Encode(Url, secret);
    BasicRoundTrip(Hex(id), Encode(Url, secret));
  }
}
