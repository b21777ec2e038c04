/** Which private keys the last pass takes: those whose header and footer both name a kind of key in capitals. */
module KeyBlocks {
  import opened Prelude
  import opened Regex
  import opened Masking
  import opened PlainText
  import opened Sanitize

  // ---- Fences -------------------------------------------------------------

  /** Every match of a fence is one. */
  lemma MatchIsFence(word: string, w: string) returns (kind: string)
    requires Matches(KeyFence(word), w)
    ensures IsKind(kind) && w == Fence(word, kind)
  {
    var n := MatchesCut(Literal(Opening(word)), [AtLeast(UpperOrSpace, 1)] + Literal(CLOSING), w);
    var m := MatchesCut([AtLeast(UpperOrSpace, 1)], Literal(CLOSING), w[n..]);
    kind := w[n..][..m];
    LiteralIs(Opening(word), w[..n]);
    LiteralIs(CLOSING, w[n..][m..]);
    MatchesItem(AtLeast(UpperOrSpace, 1), kind);
    assert w[n..] == kind + w[n..][m..] && w == w[..n] + w[n..];
  }

  /** The pattern takes a header or footer if and only if the kind is not empty and all capitals and spaces. */
  lemma FenceIff(word: string, kind: string)
    ensures Matches(KeyFence(word), Fence(word, kind)) <==> IsKind(kind)
  {
    if IsKind(kind) {
      FenceMatches(word, kind);
    }
    if Matches(KeyFence(word), Fence(word, kind)) {
      var k := MatchIsFence(word, Fence(word, kind));
      FenceInjective(word, kind, k);
    }
  }

  lemma FenceInjective(word: string, kind: string, k: string)
    requires Fence(word, kind) == Fence(word, k)
    ensures kind == k
  {
    var n, m := |Opening(word)|, |Opening(word)| + |kind|;
    assert Fence(word, kind)[n..m] == kind;
    assert Fence(word, k)[n..m] == k;
  }

  // ---- Dashes -------------------------------------------------------------

  /** A fence has five dashes at either end and none in between. */
  predicate Fenced(w: string) {
    |w| > 10 && forall k | 0 <= k < |w| :: w[k] == '-' <==> k < 5 || |w| - 5 <= k
  }

  lemma FenceDashes(word: string, kind: string)
    requires '-' !in word && '-' !in kind
    ensures Fenced(Fence(word, kind))
  {
    var w, inner := Fence(word, kind), word + (" " + (kind + "PRIVATE KEY"));
    assert CLOSING == "PRIVATE KEY" + "-----";
    assert w == "-----" + (inner + "-----");
    assert '-' !in inner;
    assert forall k | 0 <= k < |inner| :: w[5 + k] == inner[k];
    assert forall k | 5 <= k < |w| - 5 :: w[k] == inner[k - 5];
  }

  lemma MatchIsFenced(word: string, w: string)
    requires '-' !in word && Matches(KeyFence(word), w)
    ensures Fenced(w)
  {
    var kind := MatchIsFence(word, w);
    FenceDashes(word, kind);
  }

  /** A text with four runs of five dashes, at 0, `a`, `b` and at its end. */
  predicate Rails(s: string, a: nat, b: nat) {
    && 5 < a && a + 5 < b && b + 10 < |s|
    && forall k | 0 <= k < |s| :: s[k] == '-' <==> k < 5 || a <= k < a + 5 || b <= k < b + 5 || |s| - 5 <= k
  }

  /** In such a text a fence reaches from one run to the next. */
  lemma FenceRun(s: string, a: nat, b: nat, i: nat, x: nat)
    requires Rails(s, a, b) && i <= x <= |s| && Fenced(s[i..x])
    ensures (i == 0 && x == a + 5) || (i == a && x == b + 5) || (i == b && x == |s|)
  {
    assert forall k | i <= k < x :: s[k] == s[i..x][k - i];
    assert s[i] == '-' && s[i + 4] == '-' && s[i + 5] != '-' && s[x - 6] != '-' && s[x - 5] == '-' && s[x - 1] == '-';
    assert s[5] != '-' && s[a + 5] != '-' && s[b + 5] != '-';
    assert s[a] == '-' && s[b] == '-' && s[|s| - 5] == '-';
  }

  // ---- Whole blocks -------------------------------------------------------

  /** A key as it is printed: header, body, footer. */
  function Block(kind: string, body: string, kind': string): string {
    Fence("BEGIN", kind) + (body + Fence("END", kind'))
  }

  predicate DashFree(s: string) { '-' !in s }

  lemma BlockParts(h: string, body: string, f: string)
    ensures var s := h + (body + f);
      && s[..|h|] == h && s[|h|..|h| + |body|] == body && s[|h| + |body|..] == f
      && (forall k | 0 <= k < |h| :: s[k] == h[k])
      && (forall k | 0 <= k < |body| :: s[|h| + k] == body[k])
      && (forall k | 0 <= k < |f| :: s[|h| + |body| + k] == f[k])
  {
  }

  lemma RailsAround(h: string, body: string, f: string)
    requires Fenced(h) && Fenced(f) && DashFree(body) && body != ""
    ensures Rails(h + (body + f), |h| - 5, |h| + |body|)
  {
    var s := h + (body + f);
    BlockParts(h, body, f);
    forall k | 0 <= k < |s|
      ensures s[k] == '-' <==> k < 5 || |h| - 5 <= k < |h| || |h| + |body| <= k < |h| + |body| + 5 || |s| - 5 <= k
    {
      if k < |h| {
        assert s[k] == h[k];
      } else if k < |h| + |body| {
        assert s[|h| + (k - |h|)] == body[k - |h|];
      } else {
        assert s[|h| + |body| + (k - |h| - |body|)] == f[k - |h| - |body|];
      }
    }
  }

  ghost predicate TakesFences(p: Pattern) {
    forall w | Matches(p, w) :: Fenced(w)
  }

  lemma KeyFencesAreFenced(word: string)
    requires '-' !in word
    ensures TakesFences(KeyFence(word))
  {
    forall w | Matches(KeyFence(word), w)
      ensures Fenced(w)
    {
      MatchIsFenced(word, w);
    }
  }

  /** A match between fences in a text with four runs of dashes is the whole text. */
  lemma MatchIsWhole(p: Pattern, q: Pattern, s: string, a: nat, b: nat, i: nat, j: nat)
    requires TakesFences(p) && TakesFences(q) && Rails(s, a, b)
    requires i <= j <= |s| && Matches(Body(p, q), s[i..j])
    ensures i == 0 && j == |s| && Matches(p, s[0..a + 5]) && Matches(q, s[b..|s|])
  {
    var x, y := BodyCut(p, q, s, i, j);
    FencesAreEnds(s, a, b, i, x, y, j);
  }

  /** So a match in a block is the whole block. */
  lemma BlockMatchIsWhole(p: Pattern, q: Pattern, h: string, body: string, f: string, i: nat, j: nat)
    requires TakesFences(p) && TakesFences(q) && Fenced(h) && Fenced(f) && DashFree(body) && body != ""
    requires i <= j <= |h + (body + f)| && Matches(Body(p, q), (h + (body + f))[i..j])
    ensures i == 0 && j == |h + (body + f)| && Matches(p, h) && Matches(q, f)
  {
    RailsAround(h, body, f);
    MatchIsWhole(p, q, h + (body + f), |h| - 5, |h| + |body|, i, j);
    EndsOfBlock(h, body, f);
  }

  lemma PrivateKeyBody()
    ensures PrivateKey() == Body(KeyFence("BEGIN"), KeyFence("END"))
  {
  }

  lemma FencesAreEnds(s: string, a: nat, b: nat, i: nat, x: nat, y: nat, j: nat)
    requires Rails(s, a, b) && i <= x < y <= j <= |s| && Fenced(s[i..x]) && Fenced(s[y..j])
    ensures i == 0 && x == a + 5 && y == b && j == |s|
  {
    FenceRun(s, a, b, i, x);
    FenceRun(s, a, b, y, j);
  }

  lemma EndsOfBlock(h: string, body: string, f: string)
    ensures var s := h + (body + f); s[0..|h|] == h && s[|h| + |body|..|s|] == f
  {
    BlockParts(h, body, f);
  }

  lemma BlockMatches(p: Pattern, q: Pattern, h: string, body: string, f: string)
    requires Matches(p, h) && Matches(q, f) && body != ""
    ensures Matches(Body(p, q), h + (body + f))
  {
    MatchesItem(LazyPlus(AnyChar), body);
    MatchesJoin([LazyPlus(AnyChar)], q, body, f);
    MatchesJoin(p, [LazyPlus(AnyChar)] + q, h, body + f);
  }

  lemma WholeIsMasked(r: Rule, s: string)
    requires WellFormed(r) && r.pre == 0 && r.lead.None? && r.suf == 0
    requires First(r, s).Some? && First(r, s).value.at == 0 && First(r, s).value.End() == |s|
    ensures Sub(r, s) == r.mask
  {
    var f := First(r, s).value;
    NoPrefix(r, s, f);
    NoSuffix(r, s, f);
    assert s[|s|..] == "" && s[..0] == "";
    EmptyIsKept(r);
    assert "" + r.mask + ("" + "") == r.mask;
  }

  lemma EmptyIsKept(r: Rule)
    requires WellFormed(r)
    ensures Sub(r, "") == ""
  {
    NoMatchWithout(r.pattern, "", 0);
    SubNothing(r, "");
  }

  /** A rule that replaces all of header, body and footer. */
  ghost predicate KeyRule(r: Rule, p: Pattern, q: Pattern) {
    && WellFormed(r) && r.pre == 0 && r.lead.None? && r.suf == 0
    && r.pattern == Body(p, q) && TakesFences(p) && TakesFences(q)
  }

  lemma LastRule()
    ensures KeyRule(Rules()[7], KeyFence("BEGIN"), KeyFence("END")) && Rules()[7].mask == "***MASKED_PRIVATE_KEY***"
  {
    PrivateKeyRule();
    PrivateKeyBody();
    KeyFencesAreFenced("BEGIN");
    KeyFencesAreFenced("END");
  }

  lemma MatchedBlock(r: Rule, p: Pattern, q: Pattern, h: string, body: string, f: string)
    requires KeyRule(r, p, q) && Fenced(h) && Fenced(f) && DashFree(body) && body != ""
    requires Matches(p, h) && Matches(q, f)
    ensures Sub(r, h + (body + f)) == r.mask
  {
    var s := h + (body + f);
    BlockMatches(p, q, h, body, f);
    assert s[0..|s|] == s;
    FirstIsLeftmost(r, s);
    FirstIsMatch(r, s);
    BlockMatchIsWhole(p, q, h, body, f, First(r, s).value.at, First(r, s).value.End());
    WholeIsMasked(r, s);
  }

  lemma UnmatchedBlock(r: Rule, p: Pattern, q: Pattern, h: string, body: string, f: string)
    requires KeyRule(r, p, q) && Fenced(h) && Fenced(f) && DashFree(body) && body != ""
    requires !Matches(p, h) || !Matches(q, f)
    ensures !HasMatch(r.pattern, h + (body + f)) && Sub(r, h + (body + f)) == h + (body + f)
  {
    var s := h + (body + f);
    forall u | SubstringOf(u, s)
      ensures !Matches(r.pattern, u)
    {
      if Matches(r.pattern, u) {
        var i, j :| 0 <= i <= j <= |s| && u == s[i..j];
        BlockMatchIsWhole(p, q, h, body, f, i, j);
      }
    }
    SubNothing(r, s);
  }

  function Outcome(kind: string, body: string, kind': string): string {
    if IsKind(kind) && IsKind(kind') then "***MASKED_PRIVATE_KEY***" else Block(kind, body, kind')
  }

  /**
   The last pass masks a whole key if and only if header and footer name a
   kind of key in capitals and spaces; otherwise the key comes through as it is.
   */
  lemma BlockIsMaskedIff(kind: string, body: string, kind': string)
    requires DashFree(kind) && DashFree(body) && DashFree(kind') && body != ""
    ensures WellFormed(Rules()[7]) && Sub(Rules()[7], Block(kind, body, kind')) == Outcome(kind, body, kind')
    ensures Sub(Rules()[7], Block(kind, body, kind')) == "***MASKED_PRIVATE_KEY***" <==> IsKind(kind) && IsKind(kind')
  {
    var r, p, q := Rules()[7], KeyFence("BEGIN"), KeyFence("END");
    var h, f := Fence("BEGIN", kind), Fence("END", kind');
    LastRule();
    FenceDashes("BEGIN", kind);
    FenceDashes("END", kind');
    FenceIff("BEGIN", kind);
    FenceIff("END", kind');
    if IsKind(kind) && IsKind(kind') {
      MatchedBlock(r, p, q, h, body, f);
    } else {
      UnmatchedBlock(r, p, q, h, body, f);
      assert h[0] == '-';
    }
  }

  /** So the whole pipeline does, if no earlier pattern matches in the block. */
  lemma SanitizedBlock(kind: string, body: string, kind': string)
    requires DashFree(kind) && DashFree(body) && DashFree(kind') && body != ""
    requires forall k | 0 <= k < 7 :: !HasMatch(Rules()[k].pattern, Block(kind, body, kind'))
    ensures Sanitized(Block(kind, body, kind')) == Outcome(kind, body, kind')
  {
    RulesWellFormed();
    var s := Block(kind, body, kind');
    CleanTextUnchanged(s, 7);
    BlockIsMaskedIff(kind, body, kind');
    assert Passes(s, 8) == Sub(Rules()[7], Passes(s, 7));
  }

  /** A match begins and ends with a dash, so dash-free text around a text adds none. */
  lemma DashFreeAround(p: Pattern, q: Pattern, x: string, b: string, y: string)
    requires TakesFences(p) && TakesFences(q) && DashFree(x) && DashFree(y) && !HasMatch(Body(p, q), b)
    ensures !HasMatch(Body(p, q), x + (b + y))
  {
    var s := x + (b + y);
    BlockParts(x, b, y);
    forall u | SubstringOf(u, s)
      ensures !Matches(Body(p, q), u)
    {
      if Matches(Body(p, q), u) {
        var i, j :| 0 <= i <= j <= |s| && u == s[i..j];
        MatchBetweenDashes(p, q, s, i, j);
        InMiddle(x, b, y, i, j);
      }
    }
  }

  lemma MatchBetweenDashes(p: Pattern, q: Pattern, s: string, i: nat, j: nat)
    requires TakesFences(p) && TakesFences(q) && i <= j <= |s| && Matches(Body(p, q), s[i..j])
    ensures i < j && s[i] == '-' && s[j - 1] == '-'
  {
    var a, b := BodyCut(p, q, s, i, j);
    assert s[i..a][0] == s[i] && s[b..j][j - b - 1] == s[j - 1];
  }

  lemma InMiddle(x: string, b: string, y: string, i: nat, j: nat)
    requires DashFree(x) && DashFree(y) && i < j <= |x + (b + y)|
    requires (x + (b + y))[i] == '-' && (x + (b + y))[j - 1] == '-'
    ensures SubstringOf((x + (b + y))[i..j], b)
  {
    var s := x + (b + y);
    MiddleDash(x, b, y, i);
    MiddleDash(x, b, y, j - 1);
    BlockParts(x, b, y);
    SliceOfSlice(s, |x|, |x| + |b|, i - |x|, j - |x|);
    SliceIsSubstring(b, i - |x|, j - |x|);
  }

  lemma MiddleDash(x: string, b: string, y: string, k: nat)
    requires DashFree(x) && DashFree(y) && k < |x + (b + y)| && (x + (b + y))[k] == '-'
    ensures |x| <= k < |x| + |b|
  {
  }

  // ---- PKCS #8 ------------------------------------------------------------

  predicate Base64Char(c: char) {
    || 'A' <= c <= 'Z' || 'a' <= c <= 'z' || '0' <= c <= '9'
    || c == '+' || c == '/' || c == '=' || c == '\n' || c == '\r'
  }

  predicate Base64Text(s: string) { forall k | 0 <= k < |s| :: Base64Char(s[k]) }

  /** A match of such a pattern holds a dash with none beside it. */
  lemma LoneDash(p: Pattern, n: nat, s: string, i: nat, j: nat)
    requires i <= j <= |s| && Matches(p, s[i..j]) && 0 < n && Singles(p, n + 2)
    ensures i + n + 1 < j
    ensures In(s[i + n - 1], p[n - 1].cls) && In(s[i + n], p[n].cls) && In(s[i + n + 1], p[n + 1].cls)
  {
    var ks :| Splits(p, s[i..j], ks);
    SinglesAccept(p, s[i..j], ks, n + 2, n - 1);
    SinglesAccept(p, s[i..j], ks, n + 2, n);
    SinglesAccept(p, s[i..j], ks, n + 2, n + 1);
    ThreeChars(s, i, j, n);
  }

  lemma ThreeChars(s: string, i: nat, j: nat, n: nat)
    requires 0 < n && i + n + 1 < j <= |s|
    ensures s[i..j][n - 1] == s[i + n - 1] && s[i..j][n] == s[i + n] && s[i..j][n + 1] == s[i + n + 1]
  {
  }

  lemma NoLoneDash(p: Pattern, n: nat, s: string, a: nat, b: nat)
    requires Rails(s, a, b) && 0 < n && Singles(p, n + 2) && p[n].cls == Exact('-')
    requires !In('-', p[n - 1].cls) && !In('-', p[n + 1].cls)
    ensures !HasMatch(p, s)
  {
    forall i, j | 0 <= i <= j <= |s|
      ensures !Matches(p, s[i..j])
    {
      if Matches(p, s[i..j]) {
        LoneDash(p, n, s, i, j);
      }
    }
  }

  lemma DashedKeys()
    ensures Singles(TokenVal(), 7) && TokenVal()[4].cls == Fold('n') && TokenVal()[5].cls == Exact('-')
            && TokenVal()[6].cls == Fold('v')
    ensures Singles(KeyAuth(), 5) && KeyAuth()[2].cls == Fold('y') && KeyAuth()[3].cls == Exact('-')
            && KeyAuth()[4].cls == Fold('a')
  {
    var p, q := Folded("token-val"), Folded("key-auth");
    assert p[4] == One(Fold("token-val"[4])) && p[5] == One(Exact("token-val"[5])) && p[6] == One(Fold("token-val"[6]));
    assert q[2] == One(Fold("key-auth"[2])) && q[3] == One(Exact("key-auth"[3])) && q[4] == One(Fold("key-auth"[4]));
  }

  /** An item that no character of a PKCS #8 block fits. */
  function Foreign(k: nat): nat { if k == 1 then 6 else if k == 6 then 1 else 0 }

  lemma ForeignItem(k: nat)
    requires k in {1, 2, 3, 6}
    ensures var p := Rules()[k].pattern;
            Foreign(k) < |p| && p[Foreign(k)].min > 0 && p[Foreign(k)].cls in {Exact('_'), Exact('"'), Exact('.')}
  {
    assert SecretParam()[6] == One(Exact("client_secret"[6]));
    assert JsonField("client_secret")[0] == One(Exact('"')) && JsonField("access_token")[0] == One(Exact('"'));
    assert AuthKeyInfix()[1] == One(Exact(".auth-key-"[0]));
  }

  lemma BlockChars(body: string)
    requires Base64Text(body)
    ensures forall k | 0 <= k < |Block("", body, "")| ::
              var c := Block("", body, "")[k]; Base64Char(c) || c == '-' || c == ' '
  {
    var h, f := Fence("BEGIN", ""), Fence("END", "");
    FenceChars();
    BlockParts(h, body, f);
    var s := Block("", body, "");
    forall k | 0 <= k < |s|
      ensures Base64Char(s[k]) || s[k] == '-' || s[k] == ' '
    {
      if |h| <= k < |h| + |body| {
        assert s[|h| + (k - |h|)] == body[k - |h|];
      } else if |h| + |body| <= k {
        assert s[|h| + |body| + (k - |h| - |body|)] == f[k - |h| - |body|];
      }
    }
  }

  lemma FenceChars()
    ensures forall k | 0 <= k < |Fence("BEGIN", "")| ::
              Base64Char(Fence("BEGIN", "")[k]) || Fence("BEGIN", "")[k] in "- "
    ensures forall k | 0 <= k < |Fence("END", "")| :: Base64Char(Fence("END", "")[k]) || Fence("END", "")[k] in "- "
  {
  }

  /**
   A PKCS #8 key names no kind, so the pipeline lets all of it through, unless
   the first pass takes a line that ends in "bearer" for a header.
   */
  lemma Pkcs8Survives(body: string)
    requires Base64Text(body) && body != ""
    ensures Sanitized(Block("", body, "")) == Block("", body, "") <==> !HasMatch(Bearer(), Block("", body, ""))
  {
    var s := Block("", body, "");
    if !HasMatch(Bearer(), s) {
      forall k | 0 <= k < 7
        ensures !HasMatch(Rules()[k].pattern, s)
      {
        if 0 < k {
          Pkcs8Lacks(k, body);
        }
      }
      SanitizedBlock("", body, "");
    } else {
      SanitizedHoldsNoMatch(s, 0);
    }
  }

  lemma Pkcs8Lacks(k: nat, body: string)
    requires 0 < k < 7 && Base64Text(body) && body != ""
    ensures !HasMatch(Rules()[k].pattern, Block("", body, ""))
  {
    var s := Block("", body, "");
    if k == 4 || k == 5 {
      var h, f := Fence("BEGIN", ""), Fence("END", "");
      FenceDashes("BEGIN", "");
      FenceDashes("END", "");
      RailsAround(h, body, f);
      DashedKeys();
      NoLoneDash(Rules()[k].pattern, if k == 4 then 5 else 3, s, |h| - 5, |h| + |body|);
    } else {
      BlockChars(body);
      ForeignItem(k);
      NoMatchWithout(Rules()[k].pattern, s, Foreign(k));
    }
  }
}
