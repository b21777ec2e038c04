/**
 A text cut at its quotes.  A pass whose pattern takes no quote works on each
 segment by itself.
 */
module Segments {
  import opened Prelude
  import opened Regex
  import opened Masking

  /** The stretches between the quotes. */
  function Segs(s: string): (segs: seq<string>)
    ensures segs != []
  {
    if s == "" then [""]
    else
      var rest := Segs(s[1..]);
      if s[0] == '"' then [""] + rest else [[s[0]] + rest[0]] + rest[1..]
  }

  function Glue(segs: seq<string>): string
    requires segs != []
  {
    if |segs| == 1 then segs[0] else segs[0] + ("\"" + Glue(segs[1..]))
  }

  ghost predicate Segmented(segs: seq<string>) {
    segs != [] && forall j | 0 <= j < |segs| :: '"' !in segs[j]
  }

  lemma {:induction false} SegsGlue(s: string)
    ensures Segmented(Segs(s)) && Glue(Segs(s)) == s
    decreases |s|
  {
    if s != "" {
      var rest := Segs(s[1..]);
      SegsGlue(s[1..]);
      assert s == [s[0]] + s[1..];
      if s[0] == '"' {
        assert ([""] + rest)[1..] == rest;
      } else {
        PutInFront(s[0], rest);
      }
    }
  }

  lemma PutInFront(c: char, segs: seq<string>)
    requires segs != []
    ensures Glue([[c] + segs[0]] + segs[1..]) == [c] + Glue(segs)
  {
    var longer := [[c] + segs[0]] + segs[1..];
    if |segs| > 1 {
      assert longer[1..] == segs[1..];
      assert [c] + segs[0] + ("\"" + Glue(segs[1..])) == [c] + (segs[0] + ("\"" + Glue(segs[1..])));
    }
  }

  /** A text has one such cut. */
  lemma {:induction false} GlueSegs(segs: seq<string>)
    requires Segmented(segs)
    ensures Segs(Glue(segs)) == segs
    decreases |segs|, |segs[0]|
  {
    var s := Glue(segs);
    if segs[0] != "" {
      var shorter := [segs[0][1..]] + segs[1..];
      GlueSegs(shorter);
      PutInFront(segs[0][0], shorter);
      assert [segs[0][0]] + segs[0][1..] == segs[0];
      assert shorter[1..] == segs[1..] && [segs[0]] + segs[1..] == segs;
      assert s[1..] == Glue(shorter);
    } else if |segs| > 1 {
      GlueSegs(segs[1..]);
      assert s[1..] == Glue(segs[1..]) && [""] + segs[1..] == segs;
    }
  }

  // ---- The matcher stops at a quote ---------------------------------------

  ghost predicate TakesNoQuote(p: Pattern) {
    forall i | 0 <= i < |p| :: !In('"', p[i].cls)
  }

  /** A text, a quote, and more. */
  function Quote(a: string, b: string): string { a + ("\"" + b) }

  lemma QuoteDrop(a: string, b: string, k: nat)
    requires k <= |a|
    ensures |Quote(a, b)| == |a| + 1 + |b| && Quote(a, b)[k..] == Quote(a[k..], b)
  {
  }

  lemma {:induction false} RunStops(k: Class, a: string, b: string)
    requires !In('"', k)
    ensures Regex.Run(k, Quote(a, b)) == Regex.Run(k, a)
    decreases |a|
  {
    if a != "" {
      QuoteDrop(a, b, 1);
      RunStops(k, a[1..], b);
    }
  }

  lemma {:induction false} ExecStops(p: Pattern, a: string, b: string)
    requires TakesNoQuote(p)
    ensures Exec(p, Quote(a, b)) == Exec(p, a)
    decreases |p|, 1, 0
  {
    if p != [] {
      RunStops(p[0].cls, a, b);
      var run := Regex.Run(p[0].cls, a);
      var hi := if p[0].many || run < p[0].min then run else p[0].min;
      if p[0].min <= hi {
        if p[0].lazy {
          TryUpStops(p, a, b, p[0].min, hi);
        } else {
          TryDownStops(p, a, b, hi);
        }
      }
    }
  }

  lemma {:induction false} TryDownStops(p: Pattern, a: string, b: string, k: nat)
    requires TakesNoQuote(p) && p != [] && k <= |a|
    ensures TryDown(p, Quote(a, b), k) == TryDown(p, a, k)
    decreases |p|, 0, k
  {
    QuoteDrop(a, b, k);
    ExecStops(p[1..], a[k..], b);
    if k > 0 {
      TryDownStops(p, a, b, k - 1);
    }
  }

  lemma {:induction false} TryUpStops(p: Pattern, a: string, b: string, k: nat, hi: nat)
    requires TakesNoQuote(p) && p != [] && k <= hi <= |a|
    ensures TryUp(p, Quote(a, b), k, hi) == TryUp(p, a, k, hi)
    decreases |p|, 0, hi - k
  {
    QuoteDrop(a, b, k);
    ExecStops(p[1..], a[k..], b);
    if k < hi {
      TryUpStops(p, a, b, k + 1, hi);
    }
  }

  // ---- Searching a suffix -------------------------------------------------

  /** Where the matcher succeeds. */
  function Hits(p: Pattern, s: string): (h: seq<bool>)
    ensures |h| == |s| + 1
  {
    seq(|s| + 1, i requires 0 <= i <= |s| => Exec(p, s[i..]).Some?)
  }

  function FirstHit(h: seq<bool>, i: nat): Option<nat>
    requires i < |h|
    decreases |h| - i
  {
    if h[i] then Some(i) else if i + 1 == |h| then None else FirstHit(h, i + 1)
  }

  lemma {:induction false} SearchIsFirstHit(p: Pattern, s: string, i: nat)
    requires i <= |s|
    ensures Search(p, s, i) == FirstHit(Hits(p, s), i)
    decreases |s| - i
  {
    if i < |s| {
      SearchIsFirstHit(p, s, i + 1);
    }
  }

  lemma DropDropped(s: string, k: nat, n: nat)
    requires k + n <= |s|
    ensures s[k..][n..] == s[k + n..]
  {
  }

  lemma HitsShift(p: Pattern, s: string, k: nat)
    requires k <= |s|
    ensures Hits(p, s[k..]) == Hits(p, s)[k..]
  {
    forall i | 0 <= i <= |s| - k
      ensures Hits(p, s[k..])[i] == Hits(p, s)[k + i]
    {
      DropDropped(s, k, i);
    }
  }

  lemma {:induction false} FirstHitSkips(h: seq<bool>, k: nat, i: nat)
    requires i <= k < |h| && forall x | 0 <= x < k :: !h[x]
    ensures FirstHit(h, i) == FirstHit(h, k)
    decreases k - i
  {
    if i < k {
      FirstHitSkips(h, k, i + 1);
    }
  }

  lemma {:induction false} FirstHitShift(h: seq<bool>, g: seq<bool>, k: nat, i: nat)
    requires k <= |h| && g == h[k..] && i < |g|
    ensures FirstHit(h, k + i) == match FirstHit(g, i) case None => None case Some(x) => Some(k + x)
    decreases |g| - i
  {
    if i + 1 < |g| {
      FirstHitShift(h, g, k, i + 1);
    }
  }

  /** The matcher fails everywhere before `k`. */
  ghost predicate NoneBefore(p: Pattern, s: string, k: nat)
    requires k <= |s|
  {
    forall x | 0 <= x < k :: !Hits(p, s)[x]
  }

  lemma SearchIs(p: Pattern, s: string, h: seq<bool>)
    requires h == Hits(p, s)
    ensures Search(p, s, 0) == FirstHit(h, 0)
  {
    SearchIsFirstHit(p, s, 0);
  }

  lemma HitsAre(p: Pattern, s: string, t: string, k: nat, h: seq<bool>, g: seq<bool>)
    requires k <= |s| && t == s[k..] && NoneBefore(p, s, k) && h == Hits(p, s) && g == Hits(p, t)
    ensures k < |h| && g == h[k..] && forall x | 0 <= x < k :: !h[x]
  {
    HitsShift(p, s, k);
  }

  lemma SearchSuffix(p: Pattern, s: string, t: string, k: nat)
    requires k <= |s| && t == s[k..] && NoneBefore(p, s, k)
    ensures Search(p, s, 0) == match Search(p, t, 0) case None => None case Some(x) => Some(k + x)
  {
    var h, g := Hits(p, s), Hits(p, t);
    HitsAre(p, s, t, k, h, g);
    SearchHits(p, s, t, k, h, g);
  }

  lemma SearchHits(p: Pattern, s: string, t: string, k: nat, h: seq<bool>, g: seq<bool>)
    requires h == Hits(p, s) && g == Hits(p, t)
    requires k < |h| && g == h[k..] && forall x | 0 <= x < k :: !h[x]
    ensures Search(p, s, 0) == match Search(p, t, 0) case None => None case Some(x) => Some(k + x)
  {
    SkipsThenShifts(h, g, k);
    SearchIs(p, s, h);
    SearchIs(p, t, g);
  }

  lemma SkipsThenShifts(h: seq<bool>, g: seq<bool>, k: nat)
    requires k < |h| && g == h[k..] && forall x | 0 <= x < k :: !h[x]
    ensures FirstHit(h, 0) == match FirstHit(g, 0) case None => None case Some(x) => Some(k + x)
  {
    FirstHitSkips(h, k, 0);
    FirstHitShift(h, g, k, 0);
  }

  /** What the first match is, given where the search stops, and the other way round. */
  lemma FoundAt(r: Rule, s: string, x: nat, rest: string, ks: seq<nat>)
    requires WellFormed(r) && Search(r.pattern, s, 0) == Some(x) && x <= |s| && rest == s[x..]
    requires Exec(r.pattern, rest) == Some(ks)
    ensures First(r, s) == Some(Found(x, ks))
  {
  }

  lemma FoundFrom(r: Rule, s: string, f: Found)
    requires WellFormed(r) && First(r, s) == Some(f)
    ensures Search(r.pattern, s, 0) == Some(f.at) && f.at <= |s| && Exec(r.pattern, s[f.at..]) == Some(f.ks)
  {
    SearchFinds(r.pattern, s, 0);
  }

  lemma SameFound(r: Rule, s: string, t: string, x: nat, f: Found)
    requires WellFormed(r) && First(r, t) == Some(f) && f.at <= |t| && x <= |s| && t[f.at..] == s[x..]
    requires Search(r.pattern, s, 0) == Some(x)
    ensures First(r, s) == Some(Found(x, f.ks))
  {
    FoundFrom(r, t, f);
    FoundAt(r, s, x, t[f.at..], f.ks);
  }

  lemma FirstSkips(r: Rule, s: string, t: string, k: nat)
    requires WellFormed(r) && k <= |s| && t == s[k..] && NoneBefore(r.pattern, s, k)
    ensures match First(r, t)
            case None => First(r, s).None?
            case Some(f) => First(r, s) == Some(Found(k + f.at, f.ks))
  {
    SearchSuffix(r.pattern, s, t, k);
    match First(r, t)
    case None =>
    case Some(f) =>
      DropDropped(s, k, f.at);
      SameFound(r, s, t, k + f.at, f);
  }

  /** Where nothing matches nothing is replaced. */
  lemma SubSkips(r: Rule, s: string, t: string, k: nat)
    requires WellFormed(r) && k <= |s| && NoneBefore(r.pattern, s, k) && t == s[k..]
    ensures Sub(r, s) == s[..k] + Sub(r, t)
  {
    FirstSkips(r, s, t, k);
    match First(r, t)
    case None => NothingFound(r, s, t, k);
    case Some(f) => ShiftFound(r, s, t, k, f);
  }

  lemma NothingFound(r: Rule, s: string, t: string, k: nat)
    requires WellFormed(r) && k <= |s| && t == s[k..] && First(r, s).None? && First(r, t).None?
    ensures Sub(r, s) == s[..k] + Sub(r, t)
  {
  }

  lemma ShiftFound(r: Rule, s: string, t: string, k: nat, f: Found)
    requires WellFormed(r) && k <= |s| && t == s[k..]
    requires First(r, t) == Some(f) && First(r, s) == Some(Found(k + f.at, f.ks))
    ensures Sub(r, s) == s[..k] + Sub(r, t)
  {
    var g := Found(k + f.at, f.ks);
    var before, after, rest := Before(r, t, f), After(r, t, f), t[f.End()..];
    ShiftParts(r, s, t, k, f, g);
    SubIs(r, s, g, s[..k] + before, after, rest);
    SubIs(r, t, f, before, after, rest);
    MoveFront(s[..k], before, r.mask, after + Sub(r, rest));
  }

  lemma ShiftParts(r: Rule, s: string, t: string, k: nat, f: Found, g: Found)
    requires k <= |s| && t == s[k..] && g == Found(k + f.at, f.ks) && Inside(r, t, f) && Inside(r, s, g)
    ensures Before(r, s, g) == s[..k] + Before(r, t, f) && After(r, s, g) == After(r, t, f)
    ensures s[g.End()..] == t[f.End()..]
  {
    DropSlice(s, k, f.End() - Sum(f.ks[|f.ks| - r.suf..]), f.End());
    ShiftHead(r, s, t, k, f, g);
    TakeThenTake(s, k, f.at);
    Join3(s[..k], t[..f.at], Head(r, t, f));
  }

  lemma ShiftHead(r: Rule, s: string, t: string, k: nat, f: Found, g: Found)
    requires k <= |s| && t == s[k..] && g == Found(k + f.at, f.ks) && Inside(r, t, f) && Inside(r, s, g)
    ensures Head(r, s, g) == Head(r, t, f)
  {
    DropSlice(s, k, f.at, f.at + Sum(f.ks[..r.pre]));
  }

  lemma TakeThenTake(s: string, k: nat, n: nat)
    requires k <= |s| && n <= |s| - k
    ensures s[..k + n] == s[..k] + s[k..][..n]
  {
  }

  lemma DropSlice(s: string, k: nat, i: nat, j: nat)
    requires k <= |s| && i <= j <= |s| - k
    ensures s[k..][i..j] == s[k + i..k + j]
  {
  }

  lemma Join3(a: string, b: string, c: string)
    ensures (a + b) + c == a + (b + c)
  {
  }

  lemma MoveFront(x: string, a: string, m: string, b: string)
    ensures (x + a) + m + b == x + (a + m + b)
  {
  }

  // ---- Substitution by segment --------------------------------------------

  lemma FirstStops(r: Rule, a: string, b: string)
    requires WellFormed(r) && TakesNoQuote(r.pattern)
    ensures First(r, a).Some? ==> First(r, Quote(a, b)) == First(r, a)
    ensures First(r, a).None? ==> forall x | 0 <= x <= |a| :: Exec(r.pattern, Quote(a, b)[x..]).None?
  {
    var p, s := r.pattern, Quote(a, b);
    forall x | 0 <= x <= |a|
      ensures Exec(p, s[x..]) == Exec(p, a[x..])
    {
      QuoteDrop(a, b, x);
      ExecStops(p, a[x..], b);
    }
    match First(r, a)
    case None =>
      forall x | 0 <= x <= |a|
        ensures Exec(p, a[x..]).None?
      {
        if Exec(p, a[x..]).Some? {
          SearchIsLeftmost(p, a, 0, x);
        }
      }
    case Some(f) => SameSearch(p, s, a, 0, f.at);
  }

  /** Two searches that see the same up to the first success. */
  lemma {:induction false} SameSearch(p: Pattern, s: string, a: string, i: nat, at: nat)
    requires i <= |a| <= |s| && Search(p, a, i) == Some(at)
    requires forall x | 0 <= x <= |a| :: Exec(p, s[x..]) == Exec(p, a[x..])
    ensures at <= |a| && Search(p, s, i) == Some(at)
    decreases |a| - i
  {
    assert Exec(p, s[i..]) == Exec(p, a[i..]);
    if Exec(p, a[i..]).None? {
      SameSearch(p, s, a, i + 1, at);
    }
  }

  /** A pass that takes no quote works on both sides of a quote by itself. */
  lemma {:induction false} SubStops(r: Rule, a: string, b: string)
    requires WellFormed(r) && TakesNoQuote(r.pattern)
    ensures Sub(r, Quote(a, b)) == Quote(Sub(r, a), Sub(r, b))
    decreases |a|
  {
    FirstStops(r, a, b);
    match First(r, a)
    case None => NoneStops(r, a, b, Quote(a, b));
    case Some(f) =>
      SubStops(r, a[f.End()..], b);
      StopFound(r, a, b, Quote(a, b), f);
  }

  lemma NoneStops(r: Rule, a: string, b: string, s: string)
    requires WellFormed(r) && First(r, a).None? && s == Quote(a, b)
    requires forall x | 0 <= x <= |a| :: Exec(r.pattern, s[x..]).None?
    ensures Sub(r, s) == Quote(Sub(r, a), Sub(r, b))
  {
    QuoteParts(a, b);
    SubSkips(r, s, b, |a| + 1);
    Join3(a, "\"", Sub(r, b));
  }

  lemma QuoteParts(a: string, b: string)
    ensures Quote(a, b)[..|a| + 1] == a + "\"" && Quote(a, b)[|a| + 1..] == b
  {
  }

  lemma StopFound(r: Rule, a: string, b: string, s: string, f: Found)
    requires WellFormed(r) && s == Quote(a, b) && First(r, a) == Some(f) && First(r, s) == Some(f)
    requires Sub(r, Quote(a[f.End()..], b)) == Quote(Sub(r, a[f.End()..]), Sub(r, b))
    ensures Sub(r, s) == Quote(Sub(r, a), Sub(r, b))
  {
    var before, after, rest := Before(r, a, f), After(r, a, f), a[f.End()..];
    StopParts(r, a, b, s, f);
    SubIs(r, s, f, before, after, Quote(rest, b));
    SubIs(r, a, f, before, after, rest);
    Nested(before + r.mask, after, Sub(r, rest), Sub(r, b));
  }

  lemma StopParts(r: Rule, a: string, b: string, s: string, f: Found)
    requires s == Quote(a, b) && Inside(r, a, f) && Inside(r, s, f)
    ensures Before(r, s, f) == Before(r, a, f) && After(r, s, f) == After(r, a, f)
    ensures s[f.End()..] == Quote(a[f.End()..], b)
  {
    QuoteDrop(a, b, f.End());
    SliceStops(a, b, 0, f.at);
    SliceStops(a, b, f.at, f.at + Sum(f.ks[..r.pre]));
    SliceStops(a, b, f.End() - Sum(f.ks[|f.ks| - r.suf..]), f.End());
    assert s[..f.at] == s[0..f.at] && a[..f.at] == a[0..f.at];
  }

  lemma SliceStops(a: string, b: string, i: nat, j: nat)
    requires i <= j <= |a|
    ensures Quote(a, b)[i..j] == a[i..j]
  {
  }

  lemma Nested(x: string, y: string, z: string, b: string)
    ensures x + (y + Quote(z, b)) == Quote(x + (y + z), b)
  {
  }

  lemma {:induction false} SubKeepsQuoteFree(r: Rule, a: string)
    requires WellFormed(r) && '"' !in a && '"' !in r.mask && (r.lead.Some? ==> '"' !in r.lead.value)
    ensures '"' !in Sub(r, a)
    decreases |a|
  {
    match First(r, a)
    case None =>
    case Some(f) => SubKeepsQuoteFree(r, a[f.End()..]);
  }

  ghost predicate PlainRule(r: Rule) {
    WellFormed(r) && TakesNoQuote(r.pattern) && '"' !in r.mask && (r.lead.Some? ==> '"' !in r.lead.value)
  }

  ghost function Each(r: Rule, segs: seq<string>): (t: seq<string>)
    requires WellFormed(r)
    ensures |t| == |segs|
  {
    seq(|segs|, j requires 0 <= j < |segs| => Sub(r, segs[j]))
  }

  /** So it does on every segment. */
  lemma {:induction false} SubIsEach(r: Rule, segs: seq<string>)
    requires PlainRule(r) && Segmented(segs)
    ensures Segmented(Each(r, segs)) && Sub(r, Glue(segs)) == Glue(Each(r, segs))
    decreases |segs|
  {
    forall j | 0 <= j < |segs|
      ensures '"' !in Each(r, segs)[j]
    {
      SubKeepsQuoteFree(r, segs[j]);
    }
    if |segs| > 1 {
      SubIsEach(r, segs[1..]);
      SubStops(r, segs[0], Glue(segs[1..]));
      assert Each(r, segs)[1..] == Each(r, segs[1..]);
    }
  }
}
