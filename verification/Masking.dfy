/**
 What a masking substitution can and cannot leave behind.  A mask begins and
 ends with `*`, a character no key pattern can match, so every match in the
 rewritten text lies in kept text or inside one mask.
 */
module Masking {
  import opened Prelude
  import opened Regex

  ghost predicate StarFree(p: Pattern) {
    forall i | 0 <= i < |p| :: !In('*', p[i].cls)
  }

  ghost predicate Disjoint(k: Class, l: Class) {
    forall x: char :: !(In(x, k) && In(x, l))
  }

  // ---- Matches ------------------------------------------------------------

  /** A character that no item accepts is in no match. */
  lemma {:induction false} MatchAvoids(p: Pattern, u: string, ks: seq<nat>, c: char)
    requires Splits(p, u, ks) && forall i | 0 <= i < |p| :: !In(c, p[i].cls)
    ensures c !in u
    decreases |p|
  {
    if p != [] {
      MatchAvoids(p[1..], u[ks[0]..], ks[1..], c);
      assert u == u[..ks[0]] + u[ks[0]..];
    }
  }

  lemma StarFreeMatch(p: Pattern, u: string)
    requires StarFree(p) && Matches(p, u)
    ensures '*' !in u
  {
    var ks :| Splits(p, u, ks);
    MatchAvoids(p, u, ks, '*');
  }

  lemma {:induction false} SplitsJoin(p: Pattern, q: Pattern, u: string, v: string, ks: seq<nat>, ls: seq<nat>)
    requires Splits(p, u, ks) && Splits(q, v, ls)
    ensures Splits(p + q, u + v, ks + ls)
    decreases |p|
  {
    if p == [] {
      assert p + q == q && u + v == v && ks + ls == ls;
    } else {
      SplitsJoin(p[1..], q, u[ks[0]..], v, ks[1..], ls);
      assert (p + q)[1..] == p[1..] + q;
      assert (ks + ls)[1..] == ks[1..] + ls;
      assert (u + v)[..ks[0]] == u[..ks[0]];
      assert (u + v)[ks[0]..] == u[ks[0]..] + v;
    }
  }

  lemma {:induction false} SplitsCut(p: Pattern, q: Pattern, u: string, ks: seq<nat>)
    requires Splits(p + q, u, ks)
    ensures |ks| == |p| + |q| && Sum(ks[..|p|]) <= |u|
    ensures Splits(p, u[..Sum(ks[..|p|])], ks[..|p|])
    ensures Splits(q, u[Sum(ks[..|p|])..], ks[|p|..])
    decreases |p|
  {
    if p == [] {
      assert p + q == q && ks[..0] == [] && ks[0..] == ks && u[0..] == u;
    } else {
      assert (p + q)[1..] == p[1..] + q;
      SplitsCut(p[1..], q, u[ks[0]..], ks[1..]);
      var n := Sum(ks[..|p|]);
      assert ks[1..][..|p| - 1] == ks[..|p|][1..];
      assert ks[1..][|p| - 1..] == ks[|p|..];
      assert u[..n][..ks[0]] == u[..ks[0]];
      assert u[..n][ks[0]..] == u[ks[0]..][..n - ks[0]];
      assert u[n..] == u[ks[0]..][n - ks[0]..];
    }
  }

  lemma MatchesCut(p: Pattern, q: Pattern, u: string) returns (n: nat)
    requires Matches(p + q, u)
    ensures n <= |u| && Matches(p, u[..n]) && Matches(q, u[n..])
  {
    var ks :| Splits(p + q, u, ks);
    SplitsCut(p, q, u, ks);
    n := Sum(ks[..|p|]);
  }

  lemma MatchesJoin(p: Pattern, q: Pattern, u: string, v: string)
    requires Matches(p, u) && Matches(q, v)
    ensures Matches(p + q, u + v)
  {
    var ks :| Splits(p, u, ks);
    var ls :| Splits(q, v, ls);
    SplitsJoin(p, q, u, v, ks, ls);
  }

  /** A single item. */
  lemma MatchesItem(it: Item, w: string)
    ensures Matches([it], w) <==> ItemOk(it, w)
  {
    assert [it][1..] == [];
    if Matches([it], w) {
      var ks :| Splits([it], w, ks);
      assert Splits([it][1..], w[ks[0]..], ks[1..]);
      assert w[..ks[0]] == w;
    }
    if ItemOk(it, w) {
      assert w[..|w|] == w;
      assert Splits([it], w, [|w|]);
    }
  }

  /** Every item that must take a character finds one in the match. */
  lemma MatchNeeds(p: Pattern, u: string, n: nat) returns (x: nat)
    requires Matches(p, u) && n < |p| && p[n].min > 0
    ensures x < |u| && In(u[x], p[n].cls)
  {
    assert p == p[..n] + ([p[n]] + p[n + 1..]);
    x := MatchesCut(p[..n], [p[n]] + p[n + 1..], u);
    var b := MatchesCut([p[n]], p[n + 1..], u[x..]);
    MatchesItem(p[n], u[x..][..b]);
    assert u[x..][..b][0] == u[x];
  }

  lemma HasMatchNeeds(p: Pattern, s: string, n: nat) returns (x: nat)
    requires HasMatch(p, s) && n < |p| && p[n].min > 0
    ensures x < |s| && In(s[x], p[n].cls)
  {
    var u :| SubstringOf(u, s) && Matches(p, u);
    var i, j :| 0 <= i <= j <= |s| && u == s[i..j];
    x := MatchNeeds(p, u, n);
    x := i + x;
  }

  lemma NoMatchWithout(p: Pattern, s: string, n: nat)
    requires n < |p| && p[n].min > 0 && forall i | 0 <= i < |s| :: !In(s[i], p[n].cls)
    ensures !HasMatch(p, s)
  {
    if HasMatch(p, s) {
      var x := HasMatchNeeds(p, s, n);
    }
  }

  ghost predicate Alike(x: char, y: char, p: Pattern) {
    forall i | 0 <= i < |p| :: In(x, p[i].cls) <==> In(y, p[i].cls)
  }

  /** Characters that every item treats alike can be exchanged. */
  lemma {:induction false} SplitsAlike(p: Pattern, u: string, v: string, ks: seq<nat>)
    requires Splits(p, u, ks) && |u| == |v|
    requires forall i | 0 <= i < |u| :: Alike(u[i], v[i], p)
    ensures Splits(p, v, ks)
    decreases |p|
  {
    if p != [] {
      var k := ks[0];
      forall i | 0 <= i < |u| - k
        ensures Alike(u[k..][i], v[k..][i], p[1..])
      {
        assert Alike(u[k + i], v[k + i], p);
      }
      SplitsAlike(p[1..], u[k..], v[k..], ks[1..]);
      forall i | 0 <= i < k
        ensures In(v[..k][i], p[0].cls)
      {
        assert Alike(u[i], v[i], p);
        assert In(u[..k][i], p[0].cls);
      }
    }
  }

  /** Header, anything, footer. */
  function Body(h: Pattern, t: Pattern): Pattern { h + ([LazyPlus(AnyChar)] + t) }

  lemma BodyCut(h: Pattern, t: Pattern, s: string, i: nat, j: nat) returns (x: nat, y: nat)
    requires i <= j <= |s| && Matches(Body(h, t), s[i..j])
    ensures i <= x < y <= j && Matches(h, s[i..x]) && Matches(t, s[y..j])
  {
    var u := s[i..j];
    var a := MatchesCut(h, [LazyPlus(AnyChar)] + t, u);
    var c := MatchesCut([LazyPlus(AnyChar)], t, u[a..]);
    MatchesItem(LazyPlus(AnyChar), u[a..][..c]);
    x, y := i + a, i + a + c;
    assert u[..a] == s[i..x] && u[a..][c..] == s[y..j];
  }

  lemma BodyJoin(h: Pattern, t: Pattern, s: string, i: nat, x: nat, y: nat, j: nat)
    requires i <= x < y <= j <= |s| && Matches(h, s[i..x]) && Matches(t, s[y..j])
    ensures Matches(Body(h, t), s[i..j])
  {
    MatchesItem(LazyPlus(AnyChar), s[x..y]);
    MatchesJoin([LazyPlus(AnyChar)], t, s[x..y], s[y..j]);
    MatchesJoin(h, [LazyPlus(AnyChar)] + t, s[i..x], s[x..y] + s[y..j]);
    assert s[i..x] + (s[x..y] + s[y..j]) == s[i..j];
  }

  // ---- Star-free text around a mask ---------------------------------------

  lemma SpanHolds(t: string, i: nat, k: nat, j: nat)
    requires i <= k < j <= |t|
    ensures t[k] in t[i..j]
  {
    assert t[i..j][k - i] == t[k];
  }

  lemma SliceOfSlice(s: string, k: nat, l: nat, i: nat, j: nat)
    requires k <= l <= |s| && i <= j <= l - k
    ensures s[k..l][i..j] == s[k + i..k + j]
  {
    forall x | 0 <= x < j - i
      ensures s[k..l][i..j][x] == s[k + i..k + j][x]
    {
      assert s[k..l][i..j][x] == s[k..l][i + x];
    }
  }

  lemma SubstringChars(u: string, s: string)
    ensures SubstringOf(u, s) ==> forall c | c in u :: c in s
  {
    if SubstringOf(u, s) {
      var i, j :| 0 <= i <= j <= |s| && u == s[i..j];
    }
  }

  lemma SubstringAround(u: string, a: string, v: string, b: string)
    requires SubstringOf(u, v)
    ensures SubstringOf(u, a + v + b)
  {
    var t := a + v + b;
    assert v == t[|a|..|a| + |v|];
    SliceIsSubstring(t, |a|, |a| + |v|);
    SubstringTrans(u, v, t);
  }

  lemma SubstringTrans(u: string, v: string, s: string)
    requires SubstringOf(u, v) && SubstringOf(v, s)
    ensures SubstringOf(u, s)
  {
    var i, j :| 0 <= i <= j <= |v| && u == v[i..j];
    var k, l :| 0 <= k <= l <= |s| && v == s[k..l];
    SliceOfSlice(s, k, l, i, j);
  }

  lemma SliceIsSubstring(s: string, i: nat, j: nat)
    requires i <= j <= |s|
    ensures SubstringOf(s[i..j], s)
  {
  }

  ghost predicate IsMask(mask: string) {
    |mask| >= 2 && mask[0] == '*' && mask[|mask| - 1] == '*'
  }

  /** A star-free span of `a + mask + b` lies in one of the three parts. */
  lemma StarFreeSpan(a: string, mask: string, b: string, i: nat, j: nat)
    requires IsMask(mask)
    requires i < j <= |a + mask + b| && '*' !in (a + mask + b)[i..j]
    ensures j <= |a| || (|a| <= i && j <= |a| + |mask|) || |a| + |mask| <= i
  {
    var t := a + mask + b;
    assert t[|a|] == '*' && t[|a| + |mask| - 1] == '*';
    if i <= |a| < j {
      SpanHolds(t, i, |a|, j);
    }
    if i <= |a| + |mask| - 1 < j {
      SpanHolds(t, i, |a| + |mask| - 1, j);
    }
  }

  lemma StarFreeLocate(a: string, mask: string, b: string, u: string)
    requires IsMask(mask) && u != "" && '*' !in u && SubstringOf(u, a + mask + b)
    ensures SubstringOf(u, a) || SubstringOf(u, mask) || SubstringOf(u, b)
  {
    var t := a + mask + b;
    var i, j :| 0 <= i <= j <= |t| && u == t[i..j];
    StarFreeSpan(a, mask, b, i, j);
    if j <= |a| {
      assert u == a[i..j];
    } else if j <= |a| + |mask| {
      assert u == mask[i - |a|..j - |a|];
    } else {
      assert u == b[i - |a| - |mask|..j - |a| - |mask|];
    }
  }

  /** The text in front of the mask is a prefix of the input, unless the key is replaced. */
  lemma BeforeIsPrefix(r: Rule, s: string, f: Found)
    requires Inside(r, s, f) && r.lead.None?
    ensures Before(r, s, f) == s[..f.at + Sum(f.ks[..r.pre])]
  {
  }

  lemma Regroup(x: string, a: string, m: string, b: string)
    ensures x + (a + m + b) == (x + a) + m + b
  {
  }

  lemma KeptPrefix(u: string, x: string, s: string, n: nat)
    requires n <= |s| && SubstringOf(u, x + s[..n])
    ensures SubstringOf(u, x + s)
  {
    assert "" + (x + s[..n]) + s[n..] == x + s;
    SubstringAround(u, "", x + s[..n], s[n..]);
  }

  lemma KeptSuffix(u: string, x: string, s: string, o: nat, e: nat)
    requires o <= e <= |s| && SubstringOf(u, s[o..e] + s[e..])
    ensures SubstringOf(u, x + s)
  {
    assert (x + s[..o]) + (s[o..e] + s[e..]) + "" == x + s;
    SubstringAround(u, x + s[..o], s[o..e] + s[e..], "");
  }

  /** Star-free text of a rewritten string: from before the mask, from the mask, or from what follows. */
  lemma StarFreeOrigin(r: Rule, x: string, s: string, f: Found, out: string, u: string)
    requires Inside(r, s, f) && r.lead.None? && IsMask(r.mask)
    requires u != "" && '*' !in u && SubstringOf(u, x + (Before(r, s, f) + r.mask + out))
    ensures SubstringOf(u, x + s) || SubstringOf(u, r.mask) || SubstringOf(u, out)
  {
    Regroup(x, Before(r, s, f), r.mask, out);
    StarFreeLocate(x + Before(r, s, f), r.mask, out, u);
    if SubstringOf(u, x + Before(r, s, f)) {
      BeforeIsPrefix(r, s, f);
      KeptPrefix(u, x, s, |Before(r, s, f)|);
    }
  }

  /**
   Substitution invents no star-free text: whatever star-free text the result
   holds, also when text `x` is put in front of it, was there before or is
   part of the mask.
   */
  lemma {:induction false} SubKeepsStarFree(r: Rule, x: string, s: string, u: string)
    requires WellFormed(r) && r.lead.None?
    requires u != "" && '*' !in u && SubstringOf(u, x + Sub(r, s))
    ensures SubstringOf(u, x + s) || SubstringOf(u, r.mask)
    decreases |s|
  {
    match First(r, s)
    case None =>
    case Some(f) =>
      var after, rest := After(r, s, f), s[f.End()..];
      StarFreeOrigin(r, x, s, f, after + Sub(r, rest), u);
      if SubstringOf(u, after + Sub(r, rest)) {
        SubKeepsStarFree(r, after, rest, u);
        if SubstringOf(u, after + rest) {
          KeptSuffix(u, x, s, f.End() - |after|, f.End());
        }
      }
  }

  /** What a pass makes of a text whose first match is known. */
  lemma SubIs(r: Rule, s: string, f: Found, before: string, after: string, rest: string)
    requires WellFormed(r) && First(r, s) == Some(f)
    requires before == Before(r, s, f) && after == After(r, s, f) && rest == s[f.End()..]
    ensures Sub(r, s) == before + r.mask + (after + Sub(r, rest))
  {
  }

  /** Without a match there is nothing to replace. */
  lemma SubNothing(r: Rule, s: string)
    requires WellFormed(r) && !HasMatch(r.pattern, s)
    ensures Sub(r, s) == s
  {
    if First(r, s).Some? {
      var f := First(r, s).value;
      FirstIsMatch(r, s);
      SliceIsSubstring(s, f.at, f.End());
    }
  }

  lemma FirstIsMatch(r: Rule, s: string)
    requires WellFormed(r) && First(r, s).Some?
    ensures var f := First(r, s).value; f.at <= f.End() <= |s| && Matches(r.pattern, s[f.at..f.End()])
  {
    FirstIsLeftmost(r, s);
  }

  /** A pass creates no match of another key pattern. */
  lemma SubCreatesNoMatch(r: Rule, q: Pattern, s: string)
    requires WellFormed(r) && r.lead.None?
    requires StarFree(q) && q != [] && q[0].min > 0
    requires !HasMatch(q, r.mask) && !HasMatch(q, s)
    ensures !HasMatch(q, Sub(r, s))
  {
    assert "" + Sub(r, s) == Sub(r, s) && "" + s == s;
    if HasMatch(q, Sub(r, s)) {
      var u :| SubstringOf(u, Sub(r, s)) && Matches(q, u);
      StarFreeMatch(q, u);
      var x := MatchNeeds(q, u, 0);
      SubKeepsStarFree(r, "", s, u);
    }
  }

  // ---- Rules of the shape key, separator, secret --------------------------

  /** `n` single characters, a separator, then the secret; separator and secret share no character. */
  ghost predicate KeyedPattern(p: Pattern, n: nat) {
    && |p| == n + 2
    && StarFree(p)
    && (forall i | 0 <= i < n :: p[i].min == 1 && !p[i].many)
    && p[n].min > 0 && p[n + 1].min > 0 && Disjoint(p[n].cls, p[n + 1].cls)
  }

  ghost predicate Singles(p: Pattern, n: nat) {
    n <= |p| && forall i | 0 <= i < n :: p[i].min == 1 && !p[i].many
  }

  /** What is left for the rest of a pattern whose first `n` items take single characters. */
  lemma {:induction false} DropSingles(p: Pattern, u: string, ks: seq<nat>, n: nat)
    requires Splits(p, u, ks) && Singles(p, n)
    ensures n <= |u| && |ks| == |p| && Splits(p[n..], u[n..], ks[n..]) && Sum(ks[..n]) == n
    decreases n
  {
    if n == 0 {
      assert p[0..] == p && u[0..] == u && ks[0..] == ks && ks[..0] == [];
    } else {
      assert ks[0] == 1;
      DropSingles(p[1..], u[1..], ks[1..], n - 1);
      assert p[1..][n - 1..] == p[n..] && u[1..][n - 1..] == u[n..] && ks[1..][n - 1..] == ks[n..];
      assert ks[..n][1..] == ks[1..][..n - 1];
    }
  }

  lemma {:induction false} SinglesAccept(p: Pattern, u: string, ks: seq<nat>, n: nat, i: nat)
    requires Splits(p, u, ks) && Singles(p, n) && i < n
    ensures i < |u| && In(u[i], p[i].cls)
    decreases n
  {
    assert ks[0] == 1 && u[..1][0] == u[0];
    if i > 0 {
      SinglesAccept(p[1..], u[1..], ks[1..], n - 1, i - 1);
    }
  }

  /** Where the key, the separator and the secret of a match lie. */
  lemma KeyedParts(p: Pattern, n: nat, u: string, ks: seq<nat>)
    requires KeyedPattern(p, n) && Splits(p, u, ks)
    ensures |ks| == n + 2 && n < Sum(ks[..n + 1]) < |u|
    ensures forall i | 0 <= i < n :: In(u[i], p[i].cls)
    ensures ItemOk(p[n], u[n..Sum(ks[..n + 1])])
    ensures ItemOk(p[n + 1], u[Sum(ks[..n + 1])..])
  {
    KeyLetters(p, n, u, ks);
    DropSingles(p, u, ks, n);
    PairShape(p[n..], u[n..], ks[n..]);
    PrefixSum(ks, n);
    DropCut(u, n, ks[n]);
  }

  lemma KeyLetters(p: Pattern, n: nat, u: string, ks: seq<nat>)
    requires KeyedPattern(p, n) && Splits(p, u, ks)
    ensures n <= |u| && forall i | 0 <= i < n :: In(u[i], p[i].cls)
  {
    DropSingles(p, u, ks, n);
    forall i | 0 <= i < n
      ensures In(u[i], p[i].cls)
    {
      SinglesAccept(p, u, ks, n, i);
    }
  }

  lemma DropCut(u: string, n: nat, k: nat)
    requires n + k <= |u|
    ensures u[n..][..k] == u[n..n + k] && u[n..][k..] == u[n + k..]
  {
  }

  lemma PrefixSum(ks: seq<nat>, n: nat)
    requires n < |ks| && Sum(ks[..n]) == n
    ensures Sum(ks[..n + 1]) == n + ks[n]
  {
    SumSplit(ks[..n + 1], n);
    assert ks[..n + 1][..n] == ks[..n] && ks[..n + 1][n..] == [ks[n]] && [ks[n]][1..] == [];
  }

  /** Two items share a text. */
  lemma PairShape(p: Pattern, w: string, ks: seq<nat>)
    requires |p| == 2 && Splits(p, w, ks)
    ensures |ks| == 2 && ks[0] <= |w| && ItemOk(p[0], w[..ks[0]]) && ItemOk(p[1], w[ks[0]..])
  {
    var q, v, ls := p[1..], w[ks[0]..], ks[1..];
    assert Splits(q, v, ls);
    assert q[1..] == [] && Splits(q[1..], v[ls[0]..], ls[1..]);
    assert v[..ls[0]] == v;
  }

  /** A match inside a match reaches into the secret: key and separator alone hold none. */
  lemma MatchReachesSecret(p: Pattern, n: nat, m: string, ks: seq<nat>, i: nat, j: nat)
    requires KeyedPattern(p, n) && Splits(p, m, ks)
    requires i <= j <= |m| && Matches(p, m[i..j])
    ensures |ks| == n + 2 && Sum(ks[..n + 1]) < j
  {
    KeyedParts(p, n, m, ks);
    var ls :| Splits(p, m[i..j], ls);
    KeyedParts(p, n, m[i..j], ls);
    var e, d := Sum(ks[..n + 1]), Sum(ls[..n + 1]);
    assert m[i..j][d..][j - i - d - 1] == m[j - 1];
    SliceHolds(p[n], m, n, e);
  }

  lemma SliceHolds(it: Item, m: string, n: nat, e: nat)
    requires n <= e <= |m| && ItemOk(it, m[n..e])
    ensures forall x | n <= x < e :: In(m[x], it.cls)
  {
    forall x | n <= x < e
      ensures In(m[x], it.cls)
    {
      assert m[n..e][x - n] == m[x];
    }
  }

  /** The fixed text that replaces a key is, letter for letter, as good a key as any. */
  ghost predicate LeadFits(p: Pattern, n: nat, lead: string)
    requires |p| == n + 2
  {
    && |lead| == n + 1
    && !In(lead[n], p[n + 1].cls)
    && forall i, x: char | 0 <= i < n && In(x, p[i].cls) :: Alike(lead[i], x, p)
  }

  ghost predicate Keyed(r: Rule, n: nat) {
    && WellFormed(r) && KeyedPattern(r.pattern, n)
    && r.suf == 0
    && match r.lead
       case None => r.pre == n + 1
       case Some(lead) => LeadFits(r.pattern, n, lead)
  }

  /** A match of `q` in `s` starts before position `p`. */
  ghost predicate MatchBefore(q: Pattern, s: string, p: nat) {
    exists i, j :: 0 <= i < p && i <= j <= |s| && Matches(q, s[i..j])
  }

  /** A match that ends in kept text before the secret was there before, and earlier. */
  lemma MatchInKept(p: Pattern, n: nat, a: string, m: string, ks: seq<nat>, i: nat, j: nat)
    requires KeyedPattern(p, n) && Splits(p, m, ks) && n + 1 <= |ks|
    requires i <= j <= |a + m| && j <= |a| + Sum(ks[..n + 1]) && Matches(p, (a + m)[i..j])
    ensures MatchBefore(p, a + m, |a|)
  {
    if i >= |a| {
      SuffixSlice(a, m, i, j);
      MatchReachesSecret(p, n, m, ks, i - |a|, j - |a|);
    }
  }

  lemma SuffixSlice(a: string, m: string, i: nat, j: nat)
    requires |a| <= i <= j <= |a + m|
    ensures (a + m)[i..j] == m[i - |a|..j - |a|]
  {
  }

  lemma KeptKeyIsHarmless(p: Pattern, n: nat, a: string, m: string, ks: seq<nat>, u: string)
    requires KeyedPattern(p, n) && Splits(p, m, ks)
    requires |ks| == n + 2 && Sum(ks[..n + 1]) <= |m|
    requires SubstringOf(u, a + m[..Sum(ks[..n + 1])]) && Matches(p, u)
    ensures MatchBefore(p, a + m, |a|)
  {
    var h := m[..Sum(ks[..n + 1])];
    var i, j :| 0 <= i <= j <= |a + h| && u == (a + h)[i..j];
    PrefixSlice(a, m, |h|, i, j);
    MatchInKept(p, n, a, m, ks, i, j);
  }

  lemma PrefixSlice(a: string, m: string, n: nat, i: nat, j: nat)
    requires n <= |m| && i <= j <= |a| + n
    ensures (a + m[..n])[i..j] == (a + m)[i..j]
  {
  }

  lemma LeadKeyIsHarmless(p: Pattern, n: nat, h: string, a: string, m: string, ks: seq<nat>, u: string)
    requires KeyedPattern(p, n) && LeadFits(p, n, h) && Splits(p, m, ks)
    requires |ks| == n + 2 && n < Sum(ks[..n + 1]) <= |m|
    requires SubstringOf(u, a + h) && Matches(p, u)
    ensures MatchBefore(p, a + m, |a|)
  {
    var i, j :| 0 <= i <= j <= |a + h| && u == (a + h)[i..j];
    var ls :| Splits(p, u, ls);
    LeadHoldsEnd(p, n, h, a, u, ls, i, j);
    LeadAlike(p, n, h, m, ks);
    SpanAlike(p, n, h, a, m, i, j);
    SplitsAlike(p, u, (a + m)[i..j], ls);
    MatchInKept(p, n, a, m, ks, i, j);
  }

  /** The lead's last character is no secret, so a match ends before it. */
  lemma LeadHoldsEnd(p: Pattern, n: nat, h: string, a: string, u: string, ls: seq<nat>, i: nat, j: nat)
    requires KeyedPattern(p, n) && LeadFits(p, n, h) && Splits(p, u, ls)
    requires i <= j <= |a + h| && u == (a + h)[i..j]
    ensures j <= |a| + n
  {
    MatchEndsBeforeLeadEnd(p, n, u, ls, a + h, i, j);
    assert (a + h)[|a| + n] == h[n];
  }

  /** In front of the lead's last character the two texts are alike. */
  lemma SpanAlike(p: Pattern, n: nat, h: string, a: string, m: string, i: nat, j: nat)
    requires n <= |h| && n <= |m| && i <= j <= |a| + n
    requires forall k | 0 <= k < n :: Alike(h[k], m[k], p)
    ensures |(a + h)[i..j]| == |(a + m)[i..j]|
    ensures forall k | 0 <= k < j - i :: Alike((a + h)[i..j][k], (a + m)[i..j][k], p)
  {
    forall k | 0 <= k < j - i
      ensures Alike((a + h)[i..j][k], (a + m)[i..j][k], p)
    {
      assert (a + h)[i..j][k] == (a + h)[i + k] && (a + m)[i..j][k] == (a + m)[i + k];
      assert i + k < |a| || Alike(h[i + k - |a|], m[i + k - |a|], p);
    }
  }

  lemma MatchEndsBeforeLeadEnd(p: Pattern, n: nat, u: string, ls: seq<nat>, t: string, i: nat, j: nat)
    requires KeyedPattern(p, n) && i <= j <= |t| && u == t[i..j] && Splits(p, u, ls)
    ensures i < j && In(t[j - 1], p[n + 1].cls)
  {
    KeyedParts(p, n, u, ls);
    var d := Sum(ls[..n + 1]);
    SliceHolds(p[n + 1], u, d, |u|);
    assert u[d..|u|] == u[d..];
    assert u[|u| - 1] == t[j - 1];
  }

  lemma LeadAlike(p: Pattern, n: nat, lead: string, m: string, ks: seq<nat>)
    requires KeyedPattern(p, n) && LeadFits(p, n, lead) && Splits(p, m, ks)
    ensures n < |m| && forall i | 0 <= i < n :: Alike(lead[i], m[i], p)
  {
    KeyedParts(p, n, m, ks);
  }

  /** The leftmost match is leftmost. */
  lemma NothingBeforeFirst(r: Rule, s: string, e: nat)
    requires WellFormed(r) && First(r, s).Some? && First(r, s).value.at <= e <= |s|
    ensures !MatchBefore(r.pattern, s[..e], First(r, s).value.at)
    ensures !HasMatch(r.pattern, s[..First(r, s).value.at])
  {
    FirstIsLeftmost(r, s);
    var p := First(r, s).value.at;
    forall i, j | 0 <= i <= j <= e && i < p
      ensures !Matches(r.pattern, s[..e][i..j])
    {
      assert s[..e][i..j] == s[i..j];
    }
    forall u | SubstringOf(u, s[..p])
      ensures !Matches(r.pattern, u)
    {
      var i, j :| 0 <= i <= j <= p && u == s[..p][i..j];
      assert u == s[i..j];
      if i == p {
        assert u == [];
        assert r.pattern[0].min > 0;
      }
    }
  }

  /** No match in the kept text, in the mask or in the rest is no match at all. */
  lemma NoMatchAround(q: Pattern, a: string, mask: string, after: string, b: string)
    requires IsMask(mask) && StarFree(q) && q != [] && q[0].min > 0
    requires !HasMatch(q, a) && !HasMatch(q, mask) && !HasMatch(q, b)
    requires after == ""
    ensures !HasMatch(q, a + mask + (after + b))
  {
    assert after + b == b;
    forall u | SubstringOf(u, a + mask + b)
      ensures !Matches(q, u)
    {
      if Matches(q, u) {
        StarFreeMatch(q, u);
        var x := MatchNeeds(q, u, 0);
        StarFreeLocate(a, mask, b, u);
      }
    }
  }

  /** The text kept before the first mask holds no match: the leftmost match would have started there. */
  lemma KeyedHeadClear(r: Rule, n: nat, s: string)
    requires Keyed(r, n) && First(r, s).Some?
    ensures !HasMatch(r.pattern, Before(r, s, First(r, s).value))
  {
    var f := First(r, s).value;
    FirstIsLeftmost(r, s);
    NothingBeforeFirst(r, s, f.End());
    forall u | SubstringOf(u, Before(r, s, f))
      ensures !Matches(r.pattern, u)
    {
      if Matches(r.pattern, u) {
        KeyIsHarmless(r, n, s, f, u);
      }
    }
  }

  lemma KeyIsHarmless(r: Rule, n: nat, s: string, f: Found, u: string)
    requires Keyed(r, n) && Inside(r, s, f) && Splits(r.pattern, s[f.at..f.End()], f.ks)
    requires SubstringOf(u, Before(r, s, f)) && Matches(r.pattern, u)
    ensures MatchBefore(r.pattern, s[..f.End()], f.at)
  {
    var a, m := s[..f.at], s[f.at..f.End()];
    KeyedParts(r.pattern, n, m, f.ks);
    assert a + m == s[..f.End()];
    match r.lead
    case None =>
      SliceOfSlice(s, f.at, f.End(), 0, Sum(f.ks[..n + 1]));
      assert m[..Sum(f.ks[..n + 1])] == m[0..Sum(f.ks[..n + 1])];
      KeptKeyIsHarmless(r.pattern, n, a, m, f.ks, u);
    case Some(lead) =>
      LeadKeyIsHarmless(r.pattern, n, lead, a, m, f.ks, u);
  }

  /** A keyed pass removes every match of its own pattern. */
  lemma {:induction false} SubClears(r: Rule, n: nat, s: string)
    requires Keyed(r, n) && !HasMatch(r.pattern, r.mask)
    ensures !HasMatch(r.pattern, Sub(r, s))
    decreases |s|
  {
    match First(r, s)
    case None => FirstIsLeftmost(r, s);
    case Some(f) =>
      SubClears(r, n, s[f.End()..]);
      KeyedHeadClear(r, n, s);
      NoSuffix(r, s, f);
      NoMatchAround(r.pattern, Before(r, s, f), r.mask, After(r, s, f), Sub(r, s[f.End()..]));
  }

  lemma NoSuffix(r: Rule, s: string, f: Found)
    requires Inside(r, s, f) && r.suf == 0
    ensures After(r, s, f) == ""
  {
    assert f.ks[|f.ks|..] == [];
  }

  lemma NoPrefix(r: Rule, s: string, f: Found)
    requires Inside(r, s, f) && r.pre == 0 && r.lead.None?
    ensures Before(r, s, f) == s[..f.at]
  {
    assert f.ks[..0] == [];
  }

  /** The same for a rule that replaces the whole match by the mask. */
  lemma {:induction false} SubClearsWhole(r: Rule, s: string)
    requires WellFormed(r) && r.pre == 0 && r.lead.None? && r.suf == 0 && StarFree(r.pattern)
    requires !HasMatch(r.pattern, r.mask)
    ensures !HasMatch(r.pattern, Sub(r, s))
    decreases |s|
  {
    match First(r, s)
    case None => FirstIsLeftmost(r, s);
    case Some(f) =>
      SubClearsWhole(r, s[f.End()..]);
      NothingBeforeFirst(r, s, |s|);
      NoPrefix(r, s, f);
      NoSuffix(r, s, f);
      NoMatchAround(r.pattern, Before(r, s, f), r.mask, After(r, s, f), Sub(r, s[f.End()..]));
  }

  // ---- Rules of the shape header, anything, footer ------------------------

  /** Header and footer begin with a dash, which the mask does not contain. */
  ghost predicate Fenced(r: Rule, h: Pattern, t: Pattern) {
    && WellFormed(r) && r.pre == 0 && r.lead.None? && r.suf == 0
    && StarFree(h) && StarFree(t) && h != [] && t != []
    && h[0] == One(Exact('-')) && t[0] == One(Exact('-'))
    && '-' !in r.mask
    && r.pattern == h + ([LazyPlus(AnyChar)] + t)
  }

  /** Where the header, the body and the footer of a match lie. */
  lemma FencedParts(r: Rule, h: Pattern, t: Pattern, u: string) returns (a: nat, b: nat)
    requires Fenced(r, h, t) && Matches(r.pattern, u)
    ensures 0 < a < b < |u|
    ensures Matches(h, u[..a]) && Matches(t, u[b..])
  {
    a := MatchesCut(h, [LazyPlus(AnyChar)] + t, u);
    var c := MatchesCut([LazyPlus(AnyChar)], t, u[a..]);
    b := a + c;
    MatchesItem(LazyPlus(AnyChar), u[a..][..c]);
    assert u[a..][c..] == u[b..];
    var x := MatchNeeds(h, u[..a], 0);
    var y := MatchNeeds(t, u[b..], 0);
  }

  lemma FencedJoin(r: Rule, h: Pattern, t: Pattern, s: string, i: nat, a: nat, b: nat, j: nat)
    requires Fenced(r, h, t) && i <= a < b <= j <= |s|
    requires Matches(h, s[i..a]) && Matches(t, s[b..j])
    ensures Matches(r.pattern, s[i..j])
  {
    MatchesItem(LazyPlus(AnyChar), s[a..b]);
    MatchesJoin([LazyPlus(AnyChar)], t, s[a..b], s[b..j]);
    MatchesJoin(h, [LazyPlus(AnyChar)] + t, s[i..a], s[a..b] + s[b..j]);
    assert s[i..a] + (s[a..b] + s[b..j]) == s[i..j];
  }

  /** A fence is star-free, holds a dash and so is not inside the mask. */
  lemma FenceFacts(q: Pattern, u: string, mask: string)
    requires StarFree(q) && q != [] && q[0] == One(Exact('-')) && Matches(q, u) && '-' !in mask
    ensures '*' !in u && u != "" && !SubstringOf(u, mask)
  {
    StarFreeMatch(q, u);
    var x := MatchNeeds(q, u, 0);
    SubstringChars(u, mask);
  }

  /** A footer that survives in the rewritten rest was in the rest. */
  lemma FooterWasThere(r: Rule, h: Pattern, t: Pattern, s: string, foot: string) returns (k: nat, l: nat)
    requires Fenced(r, h, t) && Matches(t, foot) && SubstringOf(foot, Sub(r, s))
    ensures k <= l <= |s| && foot == s[k..l]
  {
    FenceFacts(t, foot, r.mask);
    assert "" + Sub(r, s) == Sub(r, s) && "" + s == s;
    SubKeepsStarFree(r, "", s, foot);
    k, l :| 0 <= k <= l <= |s| && foot == s[k..l];
  }

  /** Header kept in front, footer surviving in the rest: the input had a match that starts before `p`. */
  lemma FencedAcross(r: Rule, h: Pattern, t: Pattern, s: string, p: nat, e: nat, i: nat, a: nat, foot: string)
    requires Fenced(r, h, t) && i < a <= p < e <= |s| && Matches(h, s[i..a])
    requires Matches(t, foot) && SubstringOf(foot, Sub(r, s[e..]))
    ensures MatchBefore(r.pattern, s, p)
  {
    var k, l := FooterWasThere(r, h, t, s[e..], foot);
    SliceOfSlice(s, e, |s|, k, l);
    assert s[e..] == s[e..|s|];
    FencedJoin(r, h, t, s, i, a, e + k, e + l);
  }

  /** A span of the concatenation that stays in one part is a substring of that part. */
  lemma SpanInPart(a: string, mask: string, b: string, i: nat, j: nat)
    requires i <= j <= |a + mask + b|
    ensures j <= |a| ==> (a + mask + b)[i..j] == a[i..j]
    ensures |a| <= i && j <= |a| + |mask| ==> SubstringOf((a + mask + b)[i..j], mask)
    ensures |a| + |mask| <= i ==> SubstringOf((a + mask + b)[i..j], b)
  {
    if |a| <= i && j <= |a| + |mask| {
      assert (a + mask + b)[i..j] == mask[i - |a|..j - |a|];
    }
    if |a| + |mask| <= i {
      SpanInLast(a + mask, b, i, j);
    }
  }

  lemma SpanInLast(a: string, b: string, i: nat, j: nat)
    requires |a| <= i <= j <= |a + b|
    ensures SubstringOf((a + b)[i..j], b)
  {
    assert (a + b)[i..j] == b[i - |a|..j - |a|];
  }

  /** Where header and footer of a match of `a + mask + b` lie: all in `a`, all in `b`, or one in each. */
  lemma FencedWhere(r: Rule, h: Pattern, t: Pattern, a: string, b: string, i: nat, j: nat)
    returns (x: nat, y: nat)
    requires Fenced(r, h, t) && i <= j <= |a + r.mask + b|
    requires Matches(r.pattern, (a + r.mask + b)[i..j])
    ensures i < x < y < j
    ensures Matches(h, (a + r.mask + b)[i..x]) && Matches(t, (a + r.mask + b)[y..j])
    ensures (x <= |a| || |a| + |r.mask| <= i) && (j <= |a| || |a| + |r.mask| <= y)
  {
    var out := a + r.mask + b;
    var u := out[i..j];
    var c, d := FencedParts(r, h, t, u);
    x, y := i + c, i + d;
    assert u[..c] == out[i..x] && u[d..] == out[y..j];
    FenceFacts(h, out[i..x], r.mask);
    FenceFacts(t, out[y..j], r.mask);
    StarFreeSpan(a, r.mask, b, i, x);
    StarFreeSpan(a, r.mask, b, y, j);
    SpanInPart(a, r.mask, b, i, x);
    SpanInPart(a, r.mask, b, y, j);
  }

  lemma KeptSlice(s: string, p: nat, mask: string, rest: string, out: string, i: nat, j: nat)
    requires i <= j <= p <= |s| && out == s[..p] + mask + rest
    ensures out[i..j] == s[i..j]
  {
  }

  /** A match of `s[..p] + mask + Sub(s[e..])` lies in the rest, or the input had one that starts before `p`. */
  lemma FencedOrigin(r: Rule, h: Pattern, t: Pattern, s: string, p: nat, e: nat, u: string)
    requires Fenced(r, h, t) && p < e <= |s|
    requires SubstringOf(u, s[..p] + r.mask + Sub(r, s[e..])) && Matches(r.pattern, u)
    ensures MatchBefore(r.pattern, s, p) || SubstringOf(u, Sub(r, s[e..]))
  {
    var kept, rest := s[..p], Sub(r, s[e..]);
    FencedIn(r, h, t, s, p, e, kept, rest, u);
  }

  lemma FencedIn(r: Rule, h: Pattern, t: Pattern, s: string, p: nat, e: nat, kept: string, rest: string, u: string)
    requires Fenced(r, h, t) && p < e <= |s| && kept == s[..p] && rest == Sub(r, s[e..])
    requires SubstringOf(u, kept + r.mask + rest) && Matches(r.pattern, u)
    ensures MatchBefore(r.pattern, s, p) || SubstringOf(u, rest)
  {
    var out := kept + r.mask + rest;
    var i, j :| 0 <= i <= j <= |out| && u == out[i..j];
    var x, y := FencedWhere(r, h, t, kept, rest, i, j);
    SpanInPart(kept, r.mask, rest, i, x);
    SpanInPart(kept, r.mask, rest, y, j);
    SpanInPart(kept, r.mask, rest, i, j);
    if j <= p {
      KeptSlice(s, p, r.mask, rest, out, i, j);
    } else if x <= p {
      KeptSlice(s, p, r.mask, rest, out, i, x);
      FencedAcross(r, h, t, s, p, e, i, x, out[y..j]);
    }
  }

  /** A fenced pass removes every match, although its pattern may match across masks. */
  lemma {:induction false} SubClearsFenced(r: Rule, h: Pattern, t: Pattern, s: string)
    requires Fenced(r, h, t)
    ensures !HasMatch(r.pattern, Sub(r, s))
    decreases |s|
  {
    match First(r, s)
    case None => FirstIsLeftmost(r, s);
    case Some(f) =>
      var rest := s[f.End()..];
      SubClearsFenced(r, h, t, rest);
      NothingBeforeFirst(r, s, |s|);
      assert s[..|s|] == s;
      NoPrefix(r, s, f);
      NoSuffix(r, s, f);
      assert After(r, s, f) + Sub(r, rest) == Sub(r, rest);
      forall u | SubstringOf(u, Sub(r, s))
        ensures !Matches(r.pattern, u)
      {
        if Matches(r.pattern, u) {
          FencedOrigin(r, h, t, s, f.at, f.End(), u);
        }
      }
  }
}
