/**
 The fragment of Python's `re` that the report generator uses: a pattern is a
 concatenation of items, an item is a character class repeated a fixed number
 of times or at least `min` times, greedily or lazily.  `Exec` is the
 backtracking matcher, `Search` the leftmost search and `Sub` the `sub`
 method of a compiled pattern; `Splits` is the declarative meaning they are
 proved against.
 */
module Regex {
  import opened Prelude

  datatype Class =
    | Exact(c: char)   // one character
    | Fold(c: char)    // one lower-case letter under IGNORECASE
    | Space            // \s on text
    | TokenChar        // [A-Za-z0-9_\-\.] under IGNORECASE
    | NotQuote         // [^"]
    | UpperOrSpace     // [A-Z ]
    | AnyChar          // [\s\S]

  /** The letters that Unicode case folding adds to i, s and k. */
  predicate ExtraFold(x: char, c: char) {
    || (c == 'i' && (x == '\U{0130}' || x == '\U{0131}'))
    || (c == 's' && x == '\U{017F}')
    || (c == 'k' && x == '\U{212A}')
  }

  predicate Upper(x: char, c: char) {
    'a' <= c <= 'z' && 'A' <= x <= 'Z' && x as int - 'A' as int == c as int - 'a' as int
  }

  predicate IsSpace(x: char) {
    || '\t' <= x <= '\r' || '\U{001C}' <= x <= ' ' || x == '\U{0085}' || x == '\U{00A0}'
    || x == '\U{1680}' || '\U{2000}' <= x <= '\U{200A}' || x == '\U{2028}' || x == '\U{2029}'
    || x == '\U{202F}' || x == '\U{205F}' || x == '\U{3000}'
  }

  predicate In(x: char, k: Class) {
    match k
    case Exact(c) => x == c
    case Fold(c) => x == c || Upper(x, c) || ExtraFold(x, c)
    case Space => IsSpace(x)
    case TokenChar =>
      || 'a' <= x <= 'z' || 'A' <= x <= 'Z' || '0' <= x <= '9' || x == '_' || x == '-' || x == '.'
      || x == '\U{0130}' || x == '\U{0131}' || x == '\U{017F}' || x == '\U{212A}'
    case NotQuote => x != '"'
    case UpperOrSpace => 'A' <= x <= 'Z' || x == ' '
    case AnyChar => true
  }

  datatype Item = Item(cls: Class, min: nat, many: bool, lazy: bool)

  type Pattern = seq<Item>

  function One(k: Class): Item { Item(k, 1, false, false) }

  /** `k{n,}` */
  function AtLeast(k: Class, n: nat): Item { Item(k, n, true, false) }

  /** `k+?` */
  function LazyPlus(k: Class): Item { Item(k, 1, true, true) }

  predicate ItemOk(it: Item, w: string) {
    && it.min <= |w|
    && (it.many || |w| == it.min)
    && forall i | 0 <= i < |w| :: In(w[i], it.cls)
  }

  /** `u` is matched by `p`, the items taking `ks` characters each. */
  ghost predicate Splits(p: Pattern, u: string, ks: seq<nat>)
    decreases |p|
  {
    && |ks| == |p|
    && if p == [] then u == []
       else ks[0] <= |u| && ItemOk(p[0], u[..ks[0]]) && Splits(p[1..], u[ks[0]..], ks[1..])
  }

  ghost predicate Matches(p: Pattern, u: string) {
    exists ks :: Splits(p, u, ks)
  }

  ghost predicate SubstringOf(u: string, s: string) {
    exists i, j :: 0 <= i <= j <= |s| && u == s[i..j]
  }

  /** Some substring of `s` is matched by `p`. */
  ghost predicate HasMatch(p: Pattern, s: string) {
    exists u :: SubstringOf(u, s) && Matches(p, u)
  }

  function Sum(ks: seq<nat>): nat {
    if ks == [] then 0 else ks[0] + Sum(ks[1..])
  }

  // ---- The backtracking matcher -------------------------------------------

  /** Length of the longest prefix of `s` inside class `k`. */
  function Run(k: Class, s: string): (n: nat)
    ensures n <= |s|
    ensures forall i | 0 <= i < n :: In(s[i], k)
    ensures n < |s| ==> !In(s[n], k)
  {
    if s == [] || !In(s[0], k) then 0 else 1 + Run(k, s[1..])
  }

  /** The engine at the start of `s`: the number of characters each item took. */
  function Exec(p: Pattern, s: string): Option<seq<nat>>
    decreases |p|, 1, 0
  {
    if p == [] then Some([])
    else
      var run := Run(p[0].cls, s);
      var hi := if p[0].many || run < p[0].min then run else p[0].min;
      if hi < p[0].min then None
      else if p[0].lazy then TryUp(p, s, p[0].min, hi)
      else TryDown(p, s, hi)
  }

  /** Greedy: give characters back one at a time. */
  function TryDown(p: Pattern, s: string, k: nat): Option<seq<nat>>
    requires p != [] && k <= |s|
    decreases |p|, 0, k
  {
    if k < p[0].min then None
    else match Exec(p[1..], s[k..])
      case Some(ks) => Some([k] + ks)
      case None => if k == 0 then None else TryDown(p, s, k - 1)
  }

  /** Lazy: take characters one at a time. */
  function TryUp(p: Pattern, s: string, k: nat, hi: nat): Option<seq<nat>>
    requires p != [] && k <= hi <= |s|
    decreases |p|, 0, hi - k
  {
    match Exec(p[1..], s[k..])
    case Some(ks) => Some([k] + ks)
    case None => if k == hi then None else TryUp(p, s, k + 1, hi)
  }

  lemma {:induction false} SplitsLength(p: Pattern, u: string, ks: seq<nat>)
    requires Splits(p, u, ks)
    ensures Sum(ks) == |u|
    decreases |p|
  {
    if p != [] {
      SplitsLength(p[1..], u[ks[0]..], ks[1..]);
    }
  }

  /** Putting one item in front of a match of the rest. */
  lemma SplitsCons(p: Pattern, s: string, k: nat, ks: seq<nat>)
    requires p != [] && k <= |s| && ItemOk(p[0], s[..k])
    requires Sum(ks) <= |s| - k && Splits(p[1..], s[k..][..Sum(ks)], ks)
    ensures Sum([k] + ks) <= |s| && Splits(p, s[..Sum([k] + ks)], [k] + ks)
  {
    var u := s[..k + Sum(ks)];
    assert ([k] + ks)[1..] == ks;
    assert u[..k] == s[..k];
    assert u[k..] == s[k..][..Sum(ks)];
  }

  /** What the engine reports is a match. */
  lemma {:induction false} ExecSound(p: Pattern, s: string)
    ensures Exec(p, s).Some? ==>
              var ks := Exec(p, s).value;
              Sum(ks) <= |s| && Splits(p, s[..Sum(ks)], ks)
    decreases |p|, 1, 0
  {
    if p != [] {
      var run := Run(p[0].cls, s);
      var hi := if p[0].many || run < p[0].min then run else p[0].min;
      if p[0].min <= hi {
        if p[0].lazy {
          TryUpSound(p, s, p[0].min, hi);
        } else {
          TryDownSound(p, s, hi);
        }
      }
    }
  }

  lemma {:induction false} TryDownSound(p: Pattern, s: string, k: nat)
    requires p != [] && k <= Run(p[0].cls, s) && (p[0].many || k <= p[0].min)
    ensures TryDown(p, s, k).Some? ==>
              var ks := TryDown(p, s, k).value;
              Sum(ks) <= |s| && Splits(p, s[..Sum(ks)], ks)
    decreases |p|, 0, k
  {
    if p[0].min <= k {
      ExecSound(p[1..], s[k..]);
      match Exec(p[1..], s[k..])
      case Some(ks) => SplitsCons(p, s, k, ks);
      case None => if k > 0 { TryDownSound(p, s, k - 1); }
    }
  }

  lemma {:induction false} TryUpSound(p: Pattern, s: string, k: nat, hi: nat)
    requires p != [] && p[0].min <= k <= hi <= Run(p[0].cls, s) && (p[0].many || hi <= p[0].min)
    ensures TryUp(p, s, k, hi).Some? ==>
              var ks := TryUp(p, s, k, hi).value;
              Sum(ks) <= |s| && Splits(p, s[..Sum(ks)], ks)
    decreases |p|, 0, hi - k
  {
    ExecSound(p[1..], s[k..]);
    match Exec(p[1..], s[k..])
    case Some(ks) => SplitsCons(p, s, k, ks);
    case None => if k < hi { TryUpSound(p, s, k + 1, hi); }
  }

  /** When some prefix of `s` is a match, the engine finds one. */
  lemma {:induction false} ExecComplete(p: Pattern, s: string, e: nat, ks: seq<nat>)
    requires e <= |s| && Splits(p, s[..e], ks)
    ensures Exec(p, s).Some?
    decreases |p|, 1, 0
  {
    if p != [] {
      var run := Run(p[0].cls, s);
      var hi := if p[0].many || run < p[0].min then run else p[0].min;
      var k := ks[0];
      assert s[..e][..k] == s[..k];
      assert k <= run;
      assert s[..e][k..] == s[k..][..e - k];
      if p[0].lazy {
        TryUpComplete(p, s, p[0].min, hi, k, e, ks[1..]);
      } else {
        TryDownComplete(p, s, hi, k, e, ks[1..]);
      }
    }
  }

  lemma {:induction false} TryDownComplete(p: Pattern, s: string, top: nat, k: nat, e: nat, ks: seq<nat>)
    requires p != [] && p[0].min <= k <= top <= |s| && k <= e <= |s|
    requires Splits(p[1..], s[k..][..e - k], ks)
    ensures TryDown(p, s, top).Some?
    decreases |p|, 0, top
  {
    if top == k {
      ExecComplete(p[1..], s[k..], e - k, ks);
    } else {
      TryDownComplete(p, s, top - 1, k, e, ks);
    }
  }

  lemma {:induction false} TryUpComplete(p: Pattern, s: string, low: nat, hi: nat, k: nat, e: nat, ks: seq<nat>)
    requires p != [] && low <= k <= hi <= |s| && k <= e <= |s|
    requires Splits(p[1..], s[k..][..e - k], ks)
    ensures TryUp(p, s, low, hi).Some?
    decreases |p|, 0, hi - low
  {
    if low == k {
      ExecComplete(p[1..], s[k..], e - k, ks);
    } else {
      TryUpComplete(p, s, low + 1, hi, k, e, ks);
    }
  }

  // ---- Leftmost search ----------------------------------------------------

  /** First position at or after `i` where the engine succeeds. */
  function Search(p: Pattern, s: string, i: nat): Option<nat>
    requires i <= |s|
    decreases |s| - i
  {
    if Exec(p, s[i..]).Some? then Some(i)
    else if i == |s| then None
    else Search(p, s, i + 1)
  }

  lemma {:induction false} SearchFinds(p: Pattern, s: string, i: nat)
    requires i <= |s|
    ensures var r := Search(p, s, i); r.Some? ==> i <= r.value <= |s| && Exec(p, s[r.value..]).Some?
    decreases |s| - i
  {
    if Exec(p, s[i..]).None? && i < |s| {
      SearchFinds(p, s, i + 1);
    }
  }

  lemma {:induction false} SearchIsLeftmost(p: Pattern, s: string, i: nat, q: nat)
    requires i <= q <= |s| && Exec(p, s[q..]).Some?
    ensures Search(p, s, i).Some? && Search(p, s, i).value <= q
    decreases q - i
  {
    if Exec(p, s[i..]).None? {
      SearchIsLeftmost(p, s, i + 1, q);
    }
  }

  /** A match that starts before the position found by the search is impossible. */
  lemma LeftmostIsFirst(p: Pattern, s: string, i: nat, j: nat)
    requires i <= j <= |s| && Matches(p, s[i..j])
    ensures Search(p, s, 0).Some? && Search(p, s, 0).value <= i
  {
    var ks :| Splits(p, s[i..j], ks);
    assert s[i..][..j - i] == s[i..j];
    ExecComplete(p, s[i..], j - i, ks);
    SearchIsLeftmost(p, s, 0, i);
  }

  // ---- Substitution -------------------------------------------------------

  /**
   A pattern with its replacement: the text of the first `pre` items (group 1)
   or the fixed text `lead`, the mask, then the text of the last `suf` items
   (group 3).
   */
  datatype Rule = Rule(pattern: Pattern, pre: nat, lead: Option<string>, mask: string, suf: nat)

  /** Every pattern of the table consumes at least one character. */
  ghost predicate WellFormed(r: Rule) {
    && r.pattern != [] && r.pattern[0].min > 0
    && r.pre + r.suf <= |r.pattern|
    && |r.mask| >= 2 && r.mask[0] == '*' && r.mask[|r.mask| - 1] == '*'
  }

  lemma {:induction false} SumSplit(ks: seq<nat>, n: nat)
    requires n <= |ks|
    ensures Sum(ks[..n]) + Sum(ks[n..]) == Sum(ks)
  {
    if n > 0 {
      assert ks[1..][..n - 1] == ks[..n][1..];
      assert ks[1..][n - 1..] == ks[n..];
      SumSplit(ks[1..], n - 1);
    }
  }

  lemma SumParts(ks: seq<nat>, n: nat)
    requires n <= |ks|
    ensures Sum(ks[..n]) <= Sum(ks) && Sum(ks[n..]) <= Sum(ks)
  {
    SumSplit(ks, n);
  }

  /** A leftmost match of `r` in `s`: where it starts and how it splits. */
  datatype Found = Found(at: nat, ks: seq<nat>) {
    function End(): nat { at + Sum(ks) }
  }

  /** The match lies inside `s` and has the groups that the replacement names. */
  ghost predicate Inside(r: Rule, s: string, f: Found) {
    && r.pre + r.suf <= |f.ks| == |r.pattern|
    && f.at < f.End() <= |s|
    && Sum(f.ks[..r.pre]) <= Sum(f.ks) && Sum(f.ks[|f.ks| - r.suf..]) <= Sum(f.ks)
  }

  /** Group 1, or the text that stands for it. */
  function Head(r: Rule, s: string, f: Found): string
    requires Inside(r, s, f)
  {
    if r.lead.Some? then r.lead.value else s[f.at..f.at + Sum(f.ks[..r.pre])]
  }

  /** Everything in front of the mask. */
  function Before(r: Rule, s: string, f: Found): string
    requires Inside(r, s, f)
  {
    s[..f.at] + Head(r, s, f)
  }

  /** Group 3. */
  function After(r: Rule, s: string, f: Found): string
    requires Inside(r, s, f)
  {
    s[f.End() - Sum(f.ks[|f.ks| - r.suf..])..f.End()]
  }

  function First(r: Rule, s: string): (f: Option<Found>)
    requires WellFormed(r)
    ensures f.Some? ==> Inside(r, s, f.value)
  {
    var at := Search(r.pattern, s, 0);
    if at.None? then None
    else
      assert FoundOk(r, s, at.value) by { FoundIsMatch(r, s); }
      Some(Found(at.value, Exec(r.pattern, s[at.value..]).value))
  }

  ghost predicate FoundOk(r: Rule, s: string, at: nat)
    requires WellFormed(r)
  {
    && at <= |s| && Exec(r.pattern, s[at..]).Some?
    && var ks := Exec(r.pattern, s[at..]).value;
    && 0 < Sum(ks) <= |s| - at
    && Splits(r.pattern, s[at..at + Sum(ks)], ks)
    && Sum(ks[..r.pre]) <= Sum(ks) && Sum(ks[|r.pattern| - r.suf..]) <= Sum(ks)
  }

  lemma FoundIsMatch(r: Rule, s: string)
    requires WellFormed(r)
    ensures Search(r.pattern, s, 0).Some? ==> FoundOk(r, s, Search(r.pattern, s, 0).value)
  {
    var at := Search(r.pattern, s, 0);
    if at.Some? {
      SearchFinds(r.pattern, s, 0);
      var ks := Exec(r.pattern, s[at.value..]).value;
      ExecParts(r, s[at.value..], ks);
      assert s[at.value..][..Sum(ks)] == s[at.value..at.value + Sum(ks)];
    }
  }

  lemma ExecParts(r: Rule, t: string, ks: seq<nat>)
    requires WellFormed(r) && Exec(r.pattern, t) == Some(ks)
    ensures 0 < Sum(ks) <= |t| && Splits(r.pattern, t[..Sum(ks)], ks)
    ensures Sum(ks[..r.pre]) <= Sum(ks) && Sum(ks[|r.pattern| - r.suf..]) <= Sum(ks)
  {
    ExecSound(r.pattern, t);
    SumParts(ks, r.pre);
    SumParts(ks, |r.pattern| - r.suf);
  }

  /** The first match is a match, and no match starts earlier. */
  lemma FirstIsLeftmost(r: Rule, s: string)
    requires WellFormed(r)
    ensures First(r, s).Some? ==>
      && var f := First(r, s).value;
      && Splits(r.pattern, s[f.at..f.End()], f.ks)
      && forall i, j | 0 <= i <= j <= |s| && Matches(r.pattern, s[i..j]) :: f.at <= i
    ensures First(r, s).None? ==> forall i, j | 0 <= i <= j <= |s| :: !Matches(r.pattern, s[i..j])
  {
    FoundIsMatch(r, s);
    forall i, j | 0 <= i <= j <= |s| && Matches(r.pattern, s[i..j])
      ensures First(r, s).Some? && First(r, s).value.at <= i
    {
      LeftmostIsFirst(r.pattern, s, i, j);
    }
  }

  /** `pattern.sub(replacement, s)` */
  function Sub(r: Rule, s: string): string
    requires WellFormed(r)
    decreases |s|
  {
    match First(r, s)
    case None => s
    case Some(f) => Before(r, s, f) + r.mask + (After(r, s, f) + Sub(r, s[f.End()..]))
  }
}
