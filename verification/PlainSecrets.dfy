/**
 The five passes over keys and tokens, in the characters of the text: what
 each writes for a key with a secret behind it, and how long the secret must
 be.
 */
module PlainSecrets {
  import opened Prelude
  import opened Regex
  import opened Masking
  import opened PlainText
  import opened Sanitize
  import Segments
  import JsonFields
  import JsonMasking
  import Codec

  // ---- A greedy end -------------------------------------------------------

  /** The last item takes as many characters as there are. */
  ghost predicate EndsGreedy(p: Pattern) {
    p != [] && p[|p| - 1].many && !p[|p| - 1].lazy
  }

  /** No character that the last item accepts follows. */
  ghost predicate EndsAtLast(p: Pattern, s: string, ks: seq<nat>)
    requires p != []
  {
    Sum(ks) <= |s| && (Sum(ks) < |s| ==> !In(s[Sum(ks)], p[|p| - 1].cls))
  }

  lemma {:induction false} ExecEndsGreedy(p: Pattern, s: string)
    requires EndsGreedy(p)
    ensures Exec(p, s).Some? ==> EndsAtLast(p, s, Exec(p, s).value)
    decreases |p|, 1, 0
  {
    var run := Run(p[0].cls, s);
    var hi := if p[0].many || run < p[0].min then run else p[0].min;
    if p[0].min <= hi {
      if p[0].lazy {
        TryUpEndsGreedy(p, s, p[0].min, hi);
      } else if |p| == 1 {
        LastTakesAll(p, s);
      } else {
        TryDownEndsGreedy(p, s, hi);
      }
    }
  }

  lemma LastTakesAll(p: Pattern, s: string)
    requires |p| == 1 && EndsGreedy(p) && p[0].min <= Run(p[0].cls, s)
    ensures Exec(p, s).Some? && EndsAtLast(p, s, Exec(p, s).value)
  {
    var run := Run(p[0].cls, s);
    assert Exec(p[1..], s[run..]) == Some([]);
    assert Exec(p, s) == Some([run] + []) && ([run] + [])[1..] == [];
  }

  lemma OneMoreItem(p: Pattern, s: string, k: nat, ks: seq<nat>)
    requires |p| > 1 && k <= |s| && EndsAtLast(p[1..], s[k..], ks)
    ensures EndsAtLast(p, s, [k] + ks)
  {
    assert ([k] + ks)[1..] == ks;
  }

  lemma {:induction false} TryDownEndsGreedy(p: Pattern, s: string, k: nat)
    requires |p| > 1 && EndsGreedy(p) && k <= |s|
    ensures TryDown(p, s, k).Some? ==> EndsAtLast(p, s, TryDown(p, s, k).value)
    decreases |p|, 0, k
  {
    ExecEndsGreedy(p[1..], s[k..]);
    match Exec(p[1..], s[k..])
    case Some(ks) => OneMoreItem(p, s, k, ks);
    case None => if k > 0 { TryDownEndsGreedy(p, s, k - 1); }
  }

  lemma {:induction false} TryUpEndsGreedy(p: Pattern, s: string, k: nat, hi: nat)
    requires p != [] && p[0].lazy && EndsGreedy(p) && k <= hi <= |s|
    ensures TryUp(p, s, k, hi).Some? ==> EndsAtLast(p, s, TryUp(p, s, k, hi).value)
    decreases |p|, 0, hi - k
  {
    ExecEndsGreedy(p[1..], s[k..]);
    match Exec(p[1..], s[k..])
    case Some(ks) => OneMoreItem(p, s, k, ks);
    case None => if k < hi { TryUpEndsGreedy(p, s, k + 1, hi); }
  }

  lemma FoundEndsGreedy(r: Rule, s: string, f: Found)
    requires WellFormed(r) && EndsGreedy(r.pattern) && First(r, s) == Some(f)
    ensures f.End() <= |s| && (f.End() < |s| ==> !In(s[f.End()], r.pattern[|r.pattern| - 1].cls))
  {
    Segments.FoundFrom(r, s, f);
    ExecEndsGreedy(r.pattern, s[f.at..]);
  }

  // ---- Matches of a key with its secret -----------------------------------

  /** A rule of the table for this key; the key is kept, unless the rule has a text that stands for it. */
  ghost predicate SecretRule(r: Rule, word: string, spaced: bool, n: nat) {
    && WellFormed(r) && r.pattern == SecretPattern(word, spaced, n) && word != "" && n > 0
    && r.suf == 0 && (r.lead.None? ==> r.pre == Prefix(word, spaced))
  }

  /** What stands in front of the mask for a key. */
  function Kept(r: Rule, key: string): string { if r.lead.Some? then r.lead.value else key }

  /** The items in front of the secret. */
  function Prefix(word: string, spaced: bool): nat { |word| + if spaced then 1 else 0 }

  /** The tokens from `a` on that end at `e`. */
  predicate TokensEnd(s: string, a: nat, e: nat) {
    TokensFrom(s, a, e) && (e < |s| ==> !IsToken(s[e]))
  }

  lemma PatternParts(word: string, spaced: bool, n: nat)
    ensures var p := SecretPattern(word, spaced, n);
      && Singles(p, |word|) && EndsGreedy(p) && p[|p| - 1] == AtLeast(TokenChar, n)
      && p[|word|..] == (if spaced then [AtLeast(Space, 1)] else []) + [AtLeast(TokenChar, n)]
      && forall i | 0 <= i < |word| :: p[i] == Folded(word)[i]
  {
  }

  lemma LetterIs(x: char, c: char)
    ensures SameLetter(x, c) <==> In(x, if 'a' <= c <= 'z' then Fold(c) else Exact(c))
  {
  }

  /** How key, white space and secret share out a match. */
  lemma MatchParts(word: string, spaced: bool, n: nat, u: string, ks: seq<nat>)
    requires Splits(SecretPattern(word, spaced, n), u, ks)
    ensures |ks| == Prefix(word, spaced) + 1 && SecretAt(word, spaced, n, u, 0, Sum(ks[..Prefix(word, spaced)]))
    ensures TokensFrom(u, Sum(ks[..Prefix(word, spaced)]), |u|)
  {
    var p := SecretPattern(word, spaced, n);
    PatternParts(word, spaced, n);
    DropSingles(p, u, ks, |word|);
    KeyIsSpelled(word, p, u, ks);
    if spaced {
      PairShape(p[|word|..], u[|word|..], ks[|word|..]);
      PrefixSum(ks, |word|);
      WhiteThenTokens(u, |word|, ks[|word|], n);
    } else {
      assert p[|word|..] == [AtLeast(TokenChar, n)];
      LoneItem(AtLeast(TokenChar, n), u[|word|..], ks[|word|..]);
      TokensBehind(u, |word|);
    }
  }

  lemma KeyIsSpelled(word: string, p: Pattern, u: string, ks: seq<nat>)
    requires Splits(p, u, ks) && Singles(p, |word|) && |word| <= |u|
    requires forall i | 0 <= i < |word| :: p[i] == Folded(word)[i]
    ensures Spelled(word, u, 0)
  {
    forall i | 0 <= i < |word|
      ensures SameLetter(u[0 + i], word[i])
    {
      SinglesAccept(p, u, ks, |word|, i);
      LetterIs(u[i], word[i]);
    }
  }

  lemma LoneItem(it: Item, w: string, ks: seq<nat>)
    requires Splits([it], w, ks)
    ensures |ks| == 1 && ItemOk(it, w)
  {
    MatchesItem(it, w);
  }

  lemma WhiteThenTokens(u: string, b: nat, k: nat, n: nat)
    requires b + k <= |u| && ItemOk(AtLeast(Space, 1), u[b..][..k]) && ItemOk(AtLeast(TokenChar, n), u[b..][k..])
    ensures 0 < k && WhiteFrom(u, b, b + k) && TokensFrom(u, b + k, |u|) && b + k + n <= |u|
  {
    forall x | b <= x < b + k
      ensures u[x] in WHITE
    {
      assert u[b..][..k][x - b] == u[x];
      WhiteIs(u[x]);
    }
    assert u[b..][k..] == u[b + k..];
    TokensBehind(u, b + k);
  }

  lemma TokensBehind(u: string, b: nat)
    requires b <= |u| && forall k | 0 <= k < |u| - b :: In(u[b..][k], TokenChar)
    ensures TokensFrom(u, b, |u|)
  {
    forall x | b <= x < |u|
      ensures IsToken(u[x])
    {
      assert u[b..][x - b] == u[x];
    }
  }

  lemma SecretInSlice(word: string, spaced: bool, n: nat, s: string, i: nat, j: nat, a: nat)
    requires i <= j <= |s| && SecretAt(word, spaced, n, s[i..j], 0, a) && TokensFrom(s[i..j], a, j - i)
    ensures SecretAt(word, spaced, n, s, i, i + a) && i + a + n <= j && TokensFrom(s, i + a, j)
  {
    var u := s[i..j];
    assert forall k | i <= k < j :: s[k] == u[k - i];
  }

  /** What the engine finds is a secret, with all the characters that follow. */
  lemma FoundIsSecret(r: Rule, word: string, spaced: bool, n: nat, s: string, f: Found) returns (a: nat)
    requires SecretRule(r, word, spaced, n) && First(r, s) == Some(f)
    ensures SecretAt(word, spaced, n, s, f.at, a) && a + n <= f.End() && TokensEnd(s, a, f.End())
    ensures |f.ks| >= Prefix(word, spaced) && a == f.at + Sum(f.ks[..Prefix(word, spaced)])
  {
    FirstIsLeftmost(r, s);
    MatchParts(word, spaced, n, s[f.at..f.End()], f.ks);
    var b := Sum(f.ks[..Prefix(word, spaced)]);
    SecretInSlice(word, spaced, n, s, f.at, f.End(), b);
    PatternParts(word, spaced, n);
    FoundEndsGreedy(r, s, f);
    a := f.at + b;
  }

  lemma TokenIsNotWhite(x: char)
    requires IsToken(x)
    ensures x !in WHITE
  {
    WhiteIs(x);
  }

  /** A key has one secret. */
  lemma OneSecret(word: string, spaced: bool, n: nat, s: string, i: nat, a: nat, b: nat)
    requires n > 0 && SecretAt(word, spaced, n, s, i, a) && SecretAt(word, spaced, n, s, i, b)
    ensures a == b
  {
    if a < b {
      TokenIsNotWhite(s[a]);
    } else if b < a {
      TokenIsNotWhite(s[b]);
    }
  }

  /** No secret begins in front of `e`. */
  ghost predicate NoneBefore(word: string, spaced: bool, n: nat, s: string, e: nat) {
    forall i: nat, a: nat | i < e :: !SecretAt(word, spaced, n, s, i, a)
  }

  // ---- What a pass writes -------------------------------------------------

  /** For the first secret, wherever it is: the key or the text that stands for it, the mask, and the pass goes on. */
  lemma FirstIsMasked(r: Rule, word: string, spaced: bool, n: nat, s: string, i: nat, a: nat, e: nat)
    requires SecretRule(r, word, spaced, n) && SecretAt(word, spaced, n, s, i, a)
    requires NoneBefore(word, spaced, n, s, i) && a + n <= e && TokensEnd(s, a, e)
    ensures Sub(r, s) == s[..i] + Kept(r, s[i..a]) + r.mask + Sub(r, s[e..])
  {
    SecretMatches(word, spaced, n, s, i, a, e);
    FirstIsLeftmost(r, s);
    var f := First(r, s).value;
    var b := FoundIsSecret(r, word, spaced, n, s, f);
    OneSecret(word, spaced, n, s, i, a, b);
    WholeIs(r, s, f, i, a, e);
  }

  lemma WholeIs(r: Rule, s: string, f: Found, i: nat, a: nat, e: nat)
    requires WellFormed(r) && r.suf == 0 && First(r, s) == Some(f) && f.at == i <= a <= |s| && f.End() == e
    requires r.lead.None? ==> a == i + Sum(f.ks[..r.pre])
    ensures Sub(r, s) == s[..i] + Kept(r, s[i..a]) + r.mask + Sub(r, s[e..])
  {
    NoSuffix(r, s, f);
    SubIs(r, s, f, s[..i] + Kept(r, s[i..a]), "", s[e..]);
    assert "" + Sub(r, s[e..]) == Sub(r, s[e..]);
  }

  /** Where no secret begins the text stays as it is. */
  lemma NoneIsKept(r: Rule, word: string, spaced: bool, n: nat, s: string, e: nat)
    requires SecretRule(r, word, spaced, n) && e <= |s| && NoneBefore(word, spaced, n, s, e)
    ensures Sub(r, s) == s[..e] + Sub(r, s[e..])
  {
    forall x | 0 <= x < e
      ensures !Segments.Hits(r.pattern, s)[x]
    {
      NoHit(r, word, spaced, n, s, x);
    }
    Segments.SubSkips(r, s, s[e..], e);
  }

  lemma NoHit(r: Rule, word: string, spaced: bool, n: nat, s: string, x: nat)
    requires SecretRule(r, word, spaced, n) && x <= |s| && forall a: nat :: !SecretAt(word, spaced, n, s, x, a)
    ensures Exec(r.pattern, s[x..]).None?
  {
    ExecSound(r.pattern, s[x..]);
    if Exec(r.pattern, s[x..]).Some? {
      var ks := Exec(r.pattern, s[x..]).value;
      HitIsSecret(word, spaced, n, s, x, ks);
    }
  }

  lemma HitIsSecret(word: string, spaced: bool, n: nat, s: string, x: nat, ks: seq<nat>)
    requires x <= |s| && Sum(ks) <= |s[x..]| && Splits(SecretPattern(word, spaced, n), s[x..][..Sum(ks)], ks)
    ensures exists a: nat :: SecretAt(word, spaced, n, s, x, a)
  {
    var j := x + Sum(ks);
    assert s[x..][..Sum(ks)] == s[x..j];
    MatchParts(word, spaced, n, s[x..j], ks);
    SecretInSlice(word, spaced, n, s, x, j, Sum(ks[..Prefix(word, spaced)]));
  }

  // ---- Key, white space, secret, and what follows -------------------------

  /** `key` spells the word, white space behind it if it asks for some, then token characters and something else. */
  predicate Laid(word: string, spaced: bool, key: string, sep: string, v: string, post: string) {
    && |key| == |word| && Spelled(word, key, 0)
    && (forall k | 0 <= k < |sep| :: sep[k] in WHITE) && (spaced <==> sep != "") && (spaced ==> v != "")
    && TokensFrom(v, 0, |v|) && (post != "" ==> !IsToken(post[0]))
  }

  lemma Positions(pre: string, key: string, sep: string, v: string, post: string, s: string, a: nat, e: nat)
    requires s == pre + (key + (sep + (v + post))) && a == |pre| + |key| + |sep| && e == a + |v|
    ensures |s| == e + |post|
    ensures forall k | 0 <= k < |pre| :: s[k] == pre[k]
    ensures forall k | 0 <= k < |key| :: s[|pre| + k] == key[k]
    ensures forall k | 0 <= k < |sep| :: s[|pre| + |key| + k] == sep[k]
    ensures forall k | 0 <= k < |v| :: s[a + k] == v[k]
    ensures forall k | 0 <= k < |post| :: s[e + k] == post[k]
    ensures s[..|pre|] == pre && s[|pre|..a] == key + sep && s[..e] == pre + (key + (sep + v)) && s[e..] == post
  {
  }

  /** There the key has white space and tokens behind it up to `e`. */
  lemma LaidOut(word: string, spaced: bool, pre: string, key: string, sep: string, v: string, post: string,
                s: string, a: nat, e: nat)
    requires Laid(word, spaced, key, sep, v, post)
    requires s == pre + (key + (sep + (v + post))) && a == |pre| + |key| + |sep| && e == a + |v|
    ensures Spelled(word, s, |pre|) && WhiteFrom(s, |pre| + |word|, a) && (spaced <==> |pre| + |word| < a)
    ensures TokensEnd(s, a, e) && (spaced ==> a < e)
  {
    Positions(pre, key, sep, v, post, s, a, e);
    forall k | |pre| + |word| <= k < a
      ensures s[k] in WHITE
    {
      assert s[k] == sep[k - |pre| - |word|];
    }
    forall k | a <= k < e
      ensures IsToken(s[k])
    {
      assert s[k] == v[k - a];
    }
    assert e < |s| ==> s[e] == post[0];
  }

  /** A key with `n` tokens behind it has a secret, one with fewer has none. */
  lemma SecretIff(word: string, spaced: bool, n: nat, s: string, i: nat, a: nat, e: nat)
    requires Spelled(word, s, i) && WhiteFrom(s, i + |word|, a) && (spaced <==> i + |word| < a)
    requires TokensEnd(s, a, e) && (spaced ==> a < e) && n > 0
    ensures e - a >= n ==> SecretAt(word, spaced, n, s, i, a)
    ensures e - a < n ==> forall b: nat :: !SecretAt(word, spaced, n, s, i, b)
  {
    forall b: nat | SecretAt(word, spaced, n, s, i, b)
      ensures e - a >= n
    {
      if a < b {
        TokenIsNotWhite(s[a]);
      } else if b < a {
        TokenIsNotWhite(s[b]);
      }
    }
  }

  /** No letter of the word is white space; without white space behind it the word ends in `=`, which it has once. */
  ghost predicate KeyWord(word: string, spaced: bool) {
    && word != ""
    && (spaced ==> forall k, x: char | 0 <= k < |word| && SameLetter(x, word[k]) :: x !in WHITE)
    && (!spaced ==> forall k | 0 <= k < |word| :: word[k] == '=' <==> k == |word| - 1)
  }

  /** The key does not begin inside itself or behind itself in front of its tokens. */
  lemma NoneInKey(word: string, spaced: bool, s: string, i: nat, a: nat, x: nat)
    requires Spelled(word, s, i) && WhiteFrom(s, i + |word|, a) && (spaced <==> i + |word| < a)
    requires KeyWord(word, spaced) && i < x < a
    ensures !Spelled(word, s, x)
  {
    if x + |word| <= |s| {
      if spaced {
        var k := if x < i + |word| then i + |word| - x else 0;
        assert s[x + k] in WHITE;
        assert !SameLetter(s[x + k], word[k]);
      } else {
        var last := |word| - 1;
        var k := i + last - x;
        assert SameLetter(s[i + last], word[last]);
        assert !SameLetter(s[x + k], word[k]);
      }
    }
  }

  /** The pass on a key with its secret: it is masked from `n` characters on, a shorter one stays. */
  lemma PassOnKey(r: Rule, word: string, spaced: bool, n: nat,
                  pre: string, key: string, sep: string, v: string, post: string, s: string)
    requires SecretRule(r, word, spaced, n) && KeyWord(word, spaced) && Laid(word, spaced, key, sep, v, post)
    requires s == pre + (key + (sep + (v + post))) && NoneBefore(word, spaced, n, s, |pre|)
    ensures |v| >= n ==> Sub(r, s) == pre + Kept(r, key + sep) + r.mask + Sub(r, post)
    ensures |v| < n && NoneInside(word, spaced, n, s, |pre + key + sep|, |pre + key + sep + v|) ==>
              Sub(r, s) == pre + (key + (sep + v)) + Sub(r, post)
  {
    var i, a, e := |pre|, |pre| + |key| + |sep|, |pre| + |key| + |sep| + |v|;
    Positions(pre, key, sep, v, post, s, a, e);
    LaidOut(word, spaced, pre, key, sep, v, post, s, a, e);
    SecretIff(word, spaced, n, s, i, a, e);
    if |v| >= n {
      FirstIsMasked(r, word, spaced, n, s, i, a, e);
    } else if NoneInside(word, spaced, n, s, a, e) {
      forall x: nat, b: nat | x < e
        ensures !SecretAt(word, spaced, n, s, x, b)
      {
        if i < x < a {
          NoneInKey(word, spaced, s, i, a, x);
        }
      }
      NoneIsKept(r, word, spaced, n, s, e);
    }
  }

  /** No secret begins from `a` up to `e`. */
  ghost predicate NoneInside(word: string, spaced: bool, n: nat, s: string, a: nat, e: nat) {
    forall x: nat, b: nat | a <= x < e :: !SecretAt(word, spaced, n, s, x, b)
  }

  /** Fewer tokens than the word has letters, all tokens, cannot begin one. */
  lemma NoneInShort(word: string, spaced: bool, n: nat, s: string, a: nat, e: nat)
    requires TokensEnd(s, a, e) && e - a < n <= |word|
    requires forall k, x: char | 0 <= k < n && SameLetter(x, word[k]) :: IsToken(x)
    ensures NoneInside(word, spaced, n, s, a, e)
  {
    forall x: nat, b: nat | a <= x < e
      ensures !SecretAt(word, spaced, n, s, x, b)
    {
      if x + |word| <= |s| {
        assert !IsToken(s[e]);
        assert !SameLetter(s[x + (e - x)], word[e - x]);
      }
    }
  }

  // ---- The passes ---------------------------------------------------------

  predicate KeyLetter(c: char) { 'a' <= c <= 'z' || c == '-' || c == '_' }

  lemma LetterIsToken(x: char, c: char)
    requires KeyLetter(c) && SameLetter(x, c)
    ensures IsToken(x) && x !in WHITE
  {
    TokenIsNotWhite(x);
  }

  lemma SpacedWord(word: string)
    requires word != "" && forall k | 0 <= k < |word| :: KeyLetter(word[k])
    ensures KeyWord(word, true)
  {
    forall k, x: char | 0 <= k < |word| && SameLetter(x, word[k])
      ensures x !in WHITE
    {
      LetterIsToken(x, word[k]);
    }
  }

  lemma TokenWord(word: string, n: nat)
    requires n <= |word| && forall k | 0 <= k < n :: KeyLetter(word[k])
    ensures forall k, x: char | 0 <= k < n && SameLetter(x, word[k]) :: IsToken(x)
  {
    forall k, x: char | 0 <= k < n && SameLetter(x, word[k])
      ensures IsToken(x)
    {
      LetterIsToken(x, word[k]);
    }
  }

  lemma BearerRule()
    ensures SecretRule(Rules()[0], "bearer", true, 10)
    ensures Rules()[0].lead == Some("Bearer ") && Rules()[0].mask == "***MASKED_TOKEN***"
  {
    RulesWellFormed();
    SecretPatterns();
  }

  lemma SecretParamRule()
    ensures SecretRule(Rules()[1], "client_secret=", false, 8)
    ensures Rules()[1].lead.None? && Rules()[1].mask == "***MASKED_SECRET***"
  {
    RulesWellFormed();
    SecretPatterns();
  }

  lemma TokenValRule()
    ensures SecretRule(Rules()[4], "token-val", true, 8)
    ensures Rules()[4].lead.None? && Rules()[4].mask == "***MASKED_TOKEN***"
  {
    RulesWellFormed();
    SecretPatterns();
  }

  lemma KeyAuthRule()
    ensures SecretRule(Rules()[5], "key-auth", true, 10)
    ensures Rules()[5].lead.None? && Rules()[5].mask == "***MASKED_KEY_AUTH***"
  {
    RulesWellFormed();
    SecretPatterns();
  }

  /** Pass 1: every spelling of the key, with its white space, becomes "Bearer ", and ten characters make a token. */
  lemma BearerIsMasked(pre: string, key: string, sep: string, v: string, post: string, s: string)
    requires Laid("bearer", true, key, sep, v, post) && s == pre + (key + (sep + (v + post)))
    requires NoneBefore("bearer", true, 10, s, |pre|)
    ensures WellFormed(Rules()[0])
    ensures |v| >= 10 ==> Sub(Rules()[0], s) == pre + "Bearer " + "***MASKED_TOKEN***" + Sub(Rules()[0], post)
    ensures |v| < 10 && NoneInside("bearer", true, 10, s, |pre + key + sep|, |pre + key + sep + v|) ==>
              Sub(Rules()[0], s) == pre + (key + (sep + v)) + Sub(Rules()[0], post)
  {
    BearerRule();
    SpacedWord("bearer");
    PassOnKey(Rules()[0], "bearer", true, 10, pre, key, sep, v, post, s);
  }

  /** Pass 2: the key is kept, eight characters make a secret. */
  lemma SecretParamIsMasked(pre: string, key: string, v: string, post: string, s: string)
    requires Laid("client_secret=", false, key, "", v, post) && s == pre + (key + (v + post))
    requires NoneBefore("client_secret=", false, 8, s, |pre|)
    ensures WellFormed(Rules()[1])
    ensures |v| >= 8 ==> Sub(Rules()[1], s) == pre + key + "***MASKED_SECRET***" + Sub(Rules()[1], post)
    ensures |v| < 8 ==> Sub(Rules()[1], s) == pre + (key + v) + Sub(Rules()[1], post)
  {
    SecretParamRule();
    TokenWord("client_secret=", 8);
    ShortPass(Rules()[1], "client_secret=", false, 8, pre, key, "", v, post, s);
    assert key + "" == key && "" + v == v && "" + (v + post) == v + post;
  }

  /** Pass 5: the key is kept, eight characters make a token. */
  lemma TokenValIsMasked(pre: string, key: string, sep: string, v: string, post: string, s: string)
    requires Laid("token-val", true, key, sep, v, post) && s == pre + (key + (sep + (v + post)))
    requires NoneBefore("token-val", true, 8, s, |pre|)
    ensures WellFormed(Rules()[4])
    ensures |v| >= 8 ==> Sub(Rules()[4], s) == pre + (key + sep) + "***MASKED_TOKEN***" + Sub(Rules()[4], post)
    ensures |v| < 8 ==> Sub(Rules()[4], s) == pre + (key + (sep + v)) + Sub(Rules()[4], post)
  {
    TokenValRule();
    SpacedWord("token-val");
    TokenWord("token-val", 8);
    ShortPass(Rules()[4], "token-val", true, 8, pre, key, sep, v, post, s);
  }

  /** Pass 6: the key is kept, ten characters make a key authorization. */
  lemma KeyAuthIsMasked(pre: string, key: string, sep: string, v: string, post: string, s: string)
    requires Laid("key-auth", true, key, sep, v, post) && s == pre + (key + (sep + (v + post)))
    requires NoneBefore("key-auth", true, 10, s, |pre|)
    ensures WellFormed(Rules()[5])
    ensures |v| >= 10 ==> Sub(Rules()[5], s) == pre + (key + sep) + "***MASKED_KEY_AUTH***" + Sub(Rules()[5], post)
    ensures |v| < 10 && NoneInside("key-auth", true, 10, s, |pre + key + sep|, |pre + key + sep + v|) ==>
              Sub(Rules()[5], s) == pre + (key + (sep + v)) + Sub(Rules()[5], post)
  {
    KeyAuthRule();
    SpacedWord("key-auth");
    PassOnKey(Rules()[5], "key-auth", true, 10, pre, key, sep, v, post, s);
  }

  /** Where the word is as long as the least secret, none can begin in a shorter text of tokens. */
  lemma ShortPass(r: Rule, word: string, spaced: bool, n: nat,
                  pre: string, key: string, sep: string, v: string, post: string, s: string)
    requires SecretRule(r, word, spaced, n) && KeyWord(word, spaced) && Laid(word, spaced, key, sep, v, post)
    requires s == pre + (key + (sep + (v + post))) && NoneBefore(word, spaced, n, s, |pre|)
    requires n <= |word| && forall k, x: char | 0 <= k < n && SameLetter(x, word[k]) :: IsToken(x)
    ensures |v| >= n ==> Sub(r, s) == pre + Kept(r, key + sep) + r.mask + Sub(r, post)
    ensures |v| < n ==> Sub(r, s) == pre + (key + (sep + v)) + Sub(r, post)
  {
    PassOnKey(r, word, spaced, n, pre, key, sep, v, post, s);
    if |v| < n {
      var a := |pre| + |key| + |sep|;
      LaidOut(word, spaced, pre, key, sep, v, post, s, a, a + |v|);
      NoneInShort(word, spaced, n, s, a, a + |v|);
    }
  }

  // ---- Two secrets around a word ------------------------------------------

  /** Every letter of the word, in any spelling, is a token character. */
  ghost predicate TokenLetters(word: string) {
    forall k, x: char | 0 <= k < |word| && SameLetter(x, word[k]) :: IsToken(x)
  }

  ghost predicate AroundRule(r: Rule, word: string) {
    && WellFormed(r) && r.pattern == AroundPattern(word) && r.pre == 0 && r.lead.None? && r.suf == 0
    && TokenLetters(word)
  }

  lemma SpanCut(p: Pattern, q: Pattern, s: string, i: nat, j: nat) returns (a: nat)
    requires i <= j <= |s| && Matches(p + q, s[i..j])
    ensures i <= a <= j && Matches(p, s[i..a]) && Matches(q, s[a..j])
  {
    var n := MatchesCut(p, q, s[i..j]);
    a := i + n;
    assert s[i..j][..n] == s[i..a] && s[i..j][n..] == s[a..j];
  }

  lemma TokensIn(s: string, i: nat, j: nat, n: nat)
    requires i <= j <= |s| && Matches([AtLeast(TokenChar, n)], s[i..j])
    ensures TokensFrom(s, i, j) && i + n <= j
  {
    MatchesItem(AtLeast(TokenChar, n), s[i..j]);
    forall k | i <= k < j
      ensures IsToken(s[k])
    {
      assert s[i..j][k - i] == s[k];
    }
  }

  lemma SpelledIn(word: string, s: string, i: nat, j: nat)
    requires i <= j <= |s| && Matches(Folded(word), s[i..j])
    ensures j == i + |word| && Spelled(word, s, i)
  {
    var u := s[i..j];
    FoldedIs(word, u);
    forall k | 0 <= k < |word|
      ensures SameLetter(s[i + k], word[k])
    {
      assert SameLetter(u[0 + k], word[k]);
    }
  }

  /** All of a match is tokens, with the word ten or more characters from the front and eight from the end. */
  lemma AroundParts(word: string, s: string, i: nat, j: nat) returns (o: nat)
    requires i <= j <= |s| && Matches(AroundPattern(word), s[i..j])
    ensures AroundAt(word, s, i, o) && o + |word| + 8 <= j && TokensFrom(s, o + |word|, j)
  {
    o := SpanCut([AtLeast(TokenChar, 10)], Folded(word) + [AtLeast(TokenChar, 8)], s, i, j);
    var z := SpanCut(Folded(word), [AtLeast(TokenChar, 8)], s, o, j);
    TokensIn(s, i, o, 10);
    SpelledIn(word, s, o, z);
    TokensIn(s, z, j, 8);
  }

  lemma FoldedIs(word: string, u: string)
    requires Matches(Folded(word), u)
    ensures |u| == |word| && Spelled(word, u, 0)
  {
    var ks :| Splits(Folded(word), u, ks);
    DropSingles(Folded(word), u, ks, |word|);
    KeyIsSpelled(word, Folded(word), u, ks);
    assert Folded(word)[|word|..] == [];
  }

  /** All of the word is tokens. */
  lemma WordIsTokens(word: string, s: string, i: nat, o: nat)
    requires AroundAt(word, s, i, o)
    requires TokenLetters(word)
    ensures TokensFrom(s, i, o + |word| + 8)
  {
    forall k | o <= k < o + |word|
      ensures IsToken(s[k])
    {
      assert SameLetter(s[o + (k - o)], word[k - o]);
    }
  }

  /** No match begins in front of `e`. */
  ghost predicate NotAroundBefore(word: string, s: string, e: nat) {
    forall i: nat, o: nat | i < e :: !AroundAt(word, s, i, o)
  }

  lemma FirstAround(r: Rule, word: string, s: string, i: nat, o: nat, e: nat)
    requires AroundRule(r, word) && AroundAt(word, s, i, o) && NotAroundBefore(word, s, i) && TokensEnd(s, i, e)
    ensures Sub(r, s) == s[..i] + r.mask + Sub(r, s[e..])
  {
    WordIsTokens(word, s, i, o);
    TokensReach(s, i, o + |word| + 8, e);
    AroundMatches(word, s, i, o, e);
    FoundAround(r, word, s, i, e);
    var f := First(r, s).value;
    NoPrefix(r, s, f);
    NoSuffix(r, s, f);
    SubIs(r, s, f, s[..i], "", s[e..]);
    assert "" + Sub(r, s[e..]) == Sub(r, s[e..]);
  }

  lemma FoundAround(r: Rule, word: string, s: string, i: nat, e: nat)
    requires AroundRule(r, word) && i <= e <= |s| && Matches(r.pattern, s[i..e])
    requires NotAroundBefore(word, s, i) && TokensEnd(s, i, e)
    ensures First(r, s).Some? && First(r, s).value.at == i && First(r, s).value.End() == e
  {
    FirstIsLeftmost(r, s);
    var f := First(r, s).value;
    FirstIsMatch(r, s);
    var y := AroundParts(word, s, f.at, f.End());
    WordIsTokens(word, s, f.at, y);
    FoundEndsGreedy(r, s, f);
    LastOfAround(word);
    EndsAgree(s, i, y + |word|, f.End(), e);
  }

  lemma LastOfAround(word: string)
    ensures var p := AroundPattern(word); EndsGreedy(p) && p[|p| - 1].cls == TokenChar
  {
  }

  lemma EndsAgree(s: string, i: nat, z: nat, j: nat, e: nat)
    requires TokensFrom(s, i, z) && TokensEnd(s, z, j) && TokensEnd(s, i, e)
    ensures j == e
  {
  }

  lemma TokensReach(s: string, i: nat, j: nat, e: nat)
    requires TokensFrom(s, i, j) && TokensEnd(s, i, e)
    ensures j <= e
  {
  }

  lemma NotAroundIsKept(r: Rule, word: string, s: string, e: nat)
    requires AroundRule(r, word) && e <= |s| && NotAroundBefore(word, s, e)
    ensures Sub(r, s) == s[..e] + Sub(r, s[e..])
  {
    forall x | 0 <= x < e
      ensures !Segments.Hits(r.pattern, s)[x]
    {
      NoAroundHit(r, word, s, x);
    }
    Segments.SubSkips(r, s, s[e..], e);
  }

  lemma NoAroundHit(r: Rule, word: string, s: string, x: nat)
    requires AroundRule(r, word) && x <= |s| && forall o: nat :: !AroundAt(word, s, x, o)
    ensures Exec(r.pattern, s[x..]).None?
  {
    ExecSound(r.pattern, s[x..]);
    if Exec(r.pattern, s[x..]).Some? {
      var ks := Exec(r.pattern, s[x..]).value;
      AroundHit(word, s, x, ks);
    }
  }

  lemma AroundHit(word: string, s: string, x: nat, ks: seq<nat>)
    requires x <= |s| && Sum(ks) <= |s[x..]| && Splits(AroundPattern(word), s[x..][..Sum(ks)], ks)
    ensures exists o: nat :: AroundAt(word, s, x, o)
  {
    assert s[x..][..Sum(ks)] == s[x..x + Sum(ks)];
    var o := AroundParts(word, s, x, x + Sum(ks));
  }

  /** Somewhere in `t` the word has ten characters in front of it and eight behind. */
  ghost predicate HoldsAround(word: string, t: string) {
    exists o: nat :: 10 <= o && o + |word| + 8 <= |t| && Spelled(word, t, o)
  }

  /** A stretch of tokens goes as a whole, if it holds the word so; otherwise it stays. */
  lemma PassOnTokens(r: Rule, word: string, pre: string, t: string, post: string, s: string)
    requires AroundRule(r, word) && TokensFrom(t, 0, |t|) && (post != "" ==> !IsToken(post[0]))
    requires s == pre + (t + post) && NotAroundBefore(word, s, |pre|)
    ensures Sub(r, s) == pre + (if HoldsAround(word, t) then r.mask else t) + Sub(r, post)
  {
    var i, e := |pre|, |pre + t|;
    Stretch(pre, t, post, s, i, e);
    if HoldsAround(word, t) {
      PassOnAround(r, word, t, s, i, e);
    } else {
      PassOnOther(r, word, t, s, i, e);
    }
  }

  lemma PassOnOther(r: Rule, word: string, t: string, s: string, i: nat, e: nat)
    requires AroundRule(r, word) && NotAroundBefore(word, s, i) && !HoldsAround(word, t)
    requires Stands(t, s, i, e) && TokensEnd(s, i, e)
    ensures Sub(r, s) == s[..e] + Sub(r, s[e..])
  {
    NoneAroundUpTo(word, t, s, i, e);
    NotAroundIsKept(r, word, s, e);
  }

  lemma PassOnAround(r: Rule, word: string, t: string, s: string, i: nat, e: nat)
    requires AroundRule(r, word) && NotAroundBefore(word, s, i) && HoldsAround(word, t)
    requires Stands(t, s, i, e) && TokensEnd(s, i, e)
    ensures Sub(r, s) == s[..i] + r.mask + Sub(r, s[e..])
  {
    var o := WhereAround(word, t, s, i, e);
    FirstAround(r, word, s, i, o, e);
  }

  /** `t` stands from `i` up to `e`. */
  predicate Stands(t: string, s: string, i: nat, e: nat) {
    i <= e <= |s| && s[i..e] == t
  }

  lemma WhereAround(word: string, t: string, s: string, i: nat, e: nat) returns (o: nat)
    requires HoldsAround(word, t) && Stands(t, s, i, e) && TokensEnd(s, i, e)
    ensures AroundAt(word, s, i, o)
  {
    var k: nat :| 10 <= k && k + |word| + 8 <= |t| && Spelled(word, t, k);
    AroundInside(word, t, s, i, e, k);
    o := i + k;
  }

  lemma AroundInside(word: string, t: string, s: string, i: nat, e: nat, o: nat)
    requires Stands(t, s, i, e) && TokensEnd(s, i, e)
    requires 10 <= o && o + |word| + 8 <= |t| && Spelled(word, t, o)
    ensures AroundAt(word, s, i, i + o)
  {
    forall k | 0 <= k < |word|
      ensures SameLetter(s[i + o + k], word[k])
    {
      assert s[i..e][o + k] == s[i + o + k];
    }
  }

  lemma NoneAroundUpTo(word: string, t: string, s: string, i: nat, e: nat)
    requires Stands(t, s, i, e) && TokensEnd(s, i, e)
    requires NotAroundBefore(word, s, i) && !HoldsAround(word, t) && TokenLetters(word)
    ensures NotAroundBefore(word, s, e)
  {
    forall x: nat, o: nat | x < e
      ensures !AroundAt(word, s, x, o)
    {
      if i <= x {
        NotAroundIn(word, t, s, i, e, x, o);
      }
    }
  }

  lemma Stretch(pre: string, t: string, post: string, s: string, i: nat, e: nat)
    requires TokensFrom(t, 0, |t|) && (post != "" ==> !IsToken(post[0]))
    requires s == pre + (t + post) && i == |pre| && e == |pre + t|
    ensures Stands(t, s, i, e) && TokensEnd(s, i, e)
    ensures s[..i] == pre && s[..e] == pre + t && s[e..] == post
  {
    assert s[i..e] == t;
    forall k | i <= k < e
      ensures IsToken(s[k])
    {
      assert s[k] == t[k - i];
    }
    assert e < |s| ==> s[e] == post[0];
  }

  lemma NotAroundIn(word: string, t: string, s: string, i: nat, e: nat, x: nat, o: nat)
    requires Stands(t, s, i, e) && TokensEnd(s, i, e) && i <= x < e
    requires !HoldsAround(word, t) && TokenLetters(word)
    ensures !AroundAt(word, s, x, o)
  {
    if AroundAt(word, s, x, o) {
      WordIsTokens(word, s, x, o);
      TokensReach(s, x, o + |word| + 8, e);
      forall k | 0 <= k < |word|
        ensures SameLetter(t[o - i + k], word[k])
      {
        assert s[i..e][o - i + k] == s[o + k];
      }
      assert Spelled(word, t, o - i);
    }
  }

  lemma AuthKeyRule()
    ensures AroundRule(Rules()[6], ".auth-key-") && Rules()[6].mask == "***MASKED_KEY_AUTH***"
  {
    RulesWellFormed();
    SecretPatterns();
    var word := ".auth-key-";
    forall k, x: char | 0 <= k < |word| && SameLetter(x, word[k])
      ensures IsToken(x)
    {
      if k > 0 {
        LetterIsToken(x, word[k]);
      }
    }
  }

  /** Pass 7: the stretch of tokens goes as a whole if ten are in front of the infix and eight behind. */
  lemma AuthKeyIsMasked(pre: string, t: string, post: string, s: string)
    requires TokensFrom(t, 0, |t|) && (post != "" ==> !IsToken(post[0]))
    requires s == pre + (t + post) && NotAroundBefore(".auth-key-", s, |pre|)
    ensures WellFormed(Rules()[6])
    ensures Sub(Rules()[6], s) ==
            pre + (if HoldsAround(".auth-key-", t) then "***MASKED_KEY_AUTH***" else t) + Sub(Rules()[6], post)
  {
    AuthKeyRule();
    PassOnTokens(Rules()[6], ".auth-key-", pre, t, post, s);
  }

  /** With the infix in one place only, ten characters on one side and eight on the other are what it takes. */
  lemma BothSides(a: string, infix: string, b: string)
    requires |infix| == 10 && Spelled(".auth-key-", infix, 0)
    requires forall o: nat | Spelled(".auth-key-", a + infix + b, o) :: o == |a|
    ensures HoldsAround(".auth-key-", a + infix + b) <==> |a| >= 10 && |b| >= 8
  {
    var t := a + infix + b;
    forall k | 0 <= k < 10
      ensures SameLetter(t[|a| + k], ".auth-key-"[k])
    {
      assert t[|a| + k] == infix[0 + k];
    }
    assert Spelled(".auth-key-", t, |a|);
  }

  // ---- The fields of JSON -------------------------------------------------

  lemma JsonRules()
    ensures JsonMasking.JsonRule(Rules()[2], "client_secret") && Rules()[2].mask == "***MASKED_SECRET***"
    ensures JsonMasking.JsonRule(Rules()[3], "access_token") && Rules()[3].mask == "***MASKED_TOKEN***"
  {
    JsonMasking.TableRules();
  }

  lemma FieldPass(r: Rule, name: string, head: string, value: string, more: string)
    requires JsonMasking.JsonRule(r, name) && value != "" && '"' !in value && head == JsonFields.Label(name)
    ensures Sub(r, head + ("\"" + value + "\"") + more) == head + "\"" + r.mask + ("\"" + Sub(r, more))
  {
    JsonMasking.PlainIsMasked(r, name, value, more);
  }

  /** Passes 3 and 4 on a field at the front: quotes and label are kept, the value is masked. */
  lemma JsonFieldsAreMasked(value: string, more: string)
    requires value != "" && '"' !in value
    ensures WellFormed(Rules()[2]) && Sub(Rules()[2], "\"client_secret\":" + ("\"" + value + "\"") + more) ==
      "\"client_secret\":" + "\"" + "***MASKED_SECRET***" + ("\"" + Sub(Rules()[2], more))
    ensures WellFormed(Rules()[3]) && Sub(Rules()[3], "\"access_token\":" + ("\"" + value + "\"") + more) ==
      "\"access_token\":" + "\"" + "***MASKED_TOKEN***" + ("\"" + Sub(Rules()[3], more))
  {
    JsonRules();
    assert JsonFields.Label("client_secret") == "\"client_secret\":";
    assert JsonFields.Label("access_token") == "\"access_token\":";
    FieldPass(Rules()[2], "client_secret", "\"client_secret\":", value, more);
    FieldPass(Rules()[3], "access_token", "\"access_token\":", value, more);
  }

  // ---- What the server generates ------------------------------------------

  lemma {:induction false} EncodedIsTokens(b: seq<Codec.Byte>)
    ensures var code := Codec.Encode(Codec.Url, b); TokensFrom(code, 0, |code|)
    decreases |b|
  {
    forall d: Codec.Sextet {:trigger Codec.Letter(Codec.Url, d)}
      ensures IsToken(Codec.Letter(Codec.Url, d))
    {
    }
    if |b| > 3 {
      EncodedIsTokens(b[3..]);
    }
  }

  lemma GeneratedAreTokens(b: seq<Codec.Byte>)
    requires |b| == 32
    ensures var token := Codec.OpaqueToken(b); |token| == 47 && TokensFrom(token, 0, |token|)
    ensures var secret := Codec.Encode(Codec.Url, b); |secret| == 43 && TokensFrom(secret, 0, |secret|)
  {
    var code := Codec.Encode(Codec.Url, b);
    EncodedIsTokens(b);
    Codec.OpaqueTokenShape(b, b);
    PrefixedTokens(code);
  }

  lemma PrefixedTokens(code: string)
    requires TokensFrom(code, 0, |code|)
    ensures TokensFrom("opq_" + code, 0, |code| + 4)
  {
    forall k | 0 <= k < |code| + 4
      ensures IsToken(("opq_" + code)[k])
    {
      if 4 <= k {
        assert ("opq_" + code)[k] == code[k - 4];
      }
    }
  }

  /** A generated access token in its header, and a generated client secret in a form, are masked whatever follows. */
  lemma GeneratedAreMasked(b: seq<Codec.Byte>, post: string)
    requires |b| == 32 && (post != "" ==> !IsToken(post[0]))
    ensures WellFormed(Rules()[0]) && WellFormed(Rules()[1])
    ensures Sub(Rules()[0], Codec.BearerHeader(Codec.OpaqueToken(b)) + post) ==
            "Bearer " + "***MASKED_TOKEN***" + Sub(Rules()[0], post)
    ensures Sub(Rules()[1], "client_secret=" + Codec.Encode(Codec.Url, b) + post) ==
            "client_secret=" + "***MASKED_SECRET***" + Sub(Rules()[1], post)
  {
    GeneratedAreTokens(b);
    HeaderIsMasked(Codec.OpaqueToken(b), post);
    FormIsMasked(Codec.Encode(Codec.Url, b), post);
  }

  lemma HeaderIsMasked(token: string, post: string)
    requires TokensFrom(token, 0, |token|) && |token| >= 10 && (post != "" ==> !IsToken(post[0]))
    ensures WellFormed(Rules()[0])
    ensures Sub(Rules()[0], Codec.BearerHeader(token) + post) ==
            "Bearer " + "***MASKED_TOKEN***" + Sub(Rules()[0], post)
  {
    var s := "" + ("Bearer" + (" " + (token + post)));
    assert s == Codec.BearerHeader(token) + post;
    BearerIsMasked("", "Bearer", " ", token, post, s);
    assert "" + "Bearer " == "Bearer ";
  }

  lemma FormIsMasked(secret: string, post: string)
    requires TokensFrom(secret, 0, |secret|) && |secret| >= 8 && (post != "" ==> !IsToken(post[0]))
    ensures WellFormed(Rules()[1])
    ensures Sub(Rules()[1], "client_secret=" + secret + post) ==
            "client_secret=" + "***MASKED_SECRET***" + Sub(Rules()[1], post)
  {
    var s := "" + ("client_secret=" + (secret + post));
    assert s == "client_secret=" + secret + post;
    SecretParamIsMasked("", "client_secret=", secret, post, s);
    assert "" + "client_secret=" == "client_secret=";
  }
}
