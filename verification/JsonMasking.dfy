/** Which JSON values the two passes mask: exactly those whose field does not begin inside a consumed one. */
module JsonMasking {
  import opened Prelude
  import opened Regex
  import opened Masking
  import opened Sanitize
  import opened JsonFields

  /** A rule of the table for fields of this name. */
  ghost predicate JsonRule(r: Rule, name: string) {
    && IsName(name) && WellFormed(r) && r.pattern == Key(name) + Tail()
    && r.pre == |name| + 5 && r.suf == 1 && r.lead.None?
  }

  lemma TableRules()
    ensures JsonRule(Rules()[2], "client_secret") && JsonRule(Rules()[3], "access_token")
  {
    RulesWellFormed();
  }

  /** The fields of a text are its matches. */
  lemma FieldsAreMatches(name: string, s: string, i: nat, j: nat)
    requires i <= j <= |s|
    ensures Matches(Key(name) + Tail(), s[i..j]) <==> exists f :: IsField(name, s, f) && f.start == i && f.end == j
  {
    if Matches(Key(name) + Tail(), s[i..j]) {
      var ks :| Splits(Key(name) + Tail(), s[i..j], ks);
      MatchIsField(name, s, i, j, ks);
    }
    if exists f :: IsField(name, s, f) && f.start == i && f.end == j {
      var f :| IsField(name, s, f) && f.start == i && f.end == j;
      FieldIsMatch(name, s, f);
    }
  }

  // ---- Two fields of one text ---------------------------------------------

  /** `m` begins inside `c`. */
  predicate BeginsInside(c: Field, m: Field) { c.start < m.start < c.end }

  lemma SameStart(name: string, s: string, a: Field, b: Field)
    requires IsName(name) && IsField(name, s, a) && IsField(name, s, b) && a.start == b.start
    ensures a == b
  {
    assert a.from == b.from;
    assert a.to == b.to;
  }

  /** Two fields whose values share a character are one. */
  lemma SameValue(name: string, s: string, a: Field, b: Field, k: nat)
    requires IsName(name) && IsField(name, s, a) && IsField(name, s, b)
    ensures a.from <= k < a.to && b.from <= k < b.to ==> a == b
  {
    LabelChars(name, s, a.start);
    LabelChars(name, s, b.start);
    if a.from <= k < a.to && b.from <= k < b.to {
      assert a.from == b.from && a.to == b.to;
      ColonBefore(name, s, a, b);
      ColonBefore(name, s, b, a);
    }
  }

  /** The colon is the last character before the opening quote that is no white space. */
  lemma ColonBefore(name: string, s: string, a: Field, b: Field)
    requires IsField(name, s, a) && IsField(name, s, b) && a.from == b.from
    requires s[b.start + |name| + 2] == ':'
    ensures b.start <= a.start
  {
    assert !IsSpace(':');
  }

  /**
   A field that begins inside another one begins at its closing quote, or at
   its opening quote with a value that spells the name.  Either way its value
   lies behind the other's end.
   */
  lemma InsideShapes(name: string, s: string, c: Field, m: Field)
    requires IsName(name) && IsField(name, s, c) && IsField(name, s, m) && BeginsInside(c, m)
    ensures m.start == c.to || (m.start == c.from - 1 && c.to == c.from + |name|)
    ensures c.end < m.from
  {
    LabelChars(name, s, c.start);
    LabelChars(name, s, m.start);
    StartsAtQuote(name, s, c, m);
    if m.start == c.from - 1 {
      assert m.start + |name| + 1 == c.to;
    }
  }

  /** The quotes of `c`, and which of them can begin a label. */
  lemma StartsAtQuote(name: string, s: string, c: Field, m: Field)
    requires IsName(name) && IsField(name, s, c) && IsField(name, s, m) && BeginsInside(c, m)
    ensures m.start == c.to || m.start == c.from - 1
  {
    LabelChars(name, s, c.start);
    LabelChars(name, s, m.start);
    var n := |name| + 3;
    assert s[m.start] == '"';
    assert m.start != c.start + |name| + 1 by {
      assert s[m.start + 1] != ':';
      assert s[c.start + |name| + 1 + 1] == ':';
    }
    assert m.start != c.start + |name| + 2;
    assert m.start >= c.start + n;
    assert !IsSpace('"');
  }

  // ---- What the pass consumes ---------------------------------------------

  /** The first field that the pass finds from `o` on. */
  function NextField(r: Rule, s: string, o: nat): (f: Option<Field>)
    requires WellFormed(r) && o <= |s|
    ensures f.Some? ==> o <= f.value.start && o < f.value.end <= |s|
  {
    match First(r, s[o..])
    case None => None
    case Some(f) =>
      Some(Field(o + f.at, o + f.at + Sum(f.ks[..r.pre]), o + f.End() - Sum(f.ks[|f.ks| - r.suf..]), o + f.End()))
  }

  /** The fields that the pass consumes from `o` on. */
  function Consumed(r: Rule, s: string, o: nat): seq<Field>
    requires WellFormed(r) && o <= |s|
    decreases |s| - o
  {
    match NextField(r, s, o)
    case None => []
    case Some(f) => [f] + Consumed(r, s, f.end)
  }

  lemma ShiftedSlice(s: string, o: nat, i: nat, j: nat)
    requires o <= |s| && i <= j <= |s| - o
    ensures s[o..][i..j] == s[o + i..o + j]
  {
  }

  lemma NextIsField(r: Rule, name: string, s: string, o: nat)
    requires WellFormed(r) && r.pattern == Key(name) + Tail() && r.pre == |name| + 5 && r.suf == 1 && o <= |s|
    ensures NextField(r, s, o).Some? ==> IsField(name, s, NextField(r, s, o).value)
  {
    match First(r, s[o..])
    case None =>
    case Some(f) =>
      FoundField(r, name, s, o, f);
      NextIs(r, name, s, o, f);
  }

  lemma FoundField(r: Rule, name: string, s: string, o: nat, f: Found)
    requires WellFormed(r) && r.pattern == Key(name) + Tail() && o <= |s| && First(r, s[o..]) == Some(f)
    ensures |f.ks| == |name| + 7 && o + f.at < o + f.End() <= |s|
            && IsField(name, s, FieldOf(name, o + f.at, o + f.End(), f.ks))
    ensures Sum(f.ks[..|name| + 5]) == FieldOf(name, o + f.at, o + f.End(), f.ks).from - (o + f.at)
    ensures Sum(f.ks[|name| + 6..]) == 1 <= Sum(f.ks) && Sum(f.ks[..|name| + 5]) <= Sum(f.ks)
  {
    FoundSplits(r, s, o, f);
    MatchIsField(name, s, o + f.at, o + f.End(), f.ks);
  }

  lemma NextIs(r: Rule, name: string, s: string, o: nat, f: Found)
    requires WellFormed(r) && r.pre == |name| + 5 && r.suf == 1 && o <= |s| && First(r, s[o..]) == Some(f)
    requires |f.ks| == |name| + 7 && o + f.at < o + f.End() && Sum(f.ks[|name| + 6..]) == 1
    requires Sum(f.ks[..|name| + 5]) == FieldOf(name, o + f.at, o + f.End(), f.ks).from - (o + f.at)
    ensures NextField(r, s, o) == Some(FieldOf(name, o + f.at, o + f.End(), f.ks))
  {
  }

  lemma FoundSplits(r: Rule, s: string, o: nat, f: Found)
    requires WellFormed(r) && o <= |s| && First(r, s[o..]) == Some(f)
    ensures o + f.at <= o + f.End() <= |s| && Splits(r.pattern, s[o + f.at..o + f.End()], f.ks)
  {
    FirstSplits(r, s[o..]);
    ShiftedSlice(s, o, f.at, f.End());
  }

  lemma FirstSplits(r: Rule, u: string)
    requires WellFormed(r)
    ensures First(r, u).Some? ==>
              var f := First(r, u).value; f.at <= f.End() <= |u| && Splits(r.pattern, u[f.at..f.End()], f.ks)
  {
    FirstIsLeftmost(r, u);
  }

  /** What is found is a field, and none begins earlier. */
  lemma NextIsLeftmost(r: Rule, name: string, s: string, o: nat)
    requires JsonRule(r, name) && o <= |s|
    ensures NextField(r, s, o).Some? ==> IsField(name, s, NextField(r, s, o).value)
    ensures forall m | IsField(name, s, m) && o <= m.start ::
              NextField(r, s, o).Some? && NextField(r, s, o).value.start <= m.start
  {
    NextIsField(r, name, s, o);
    forall m | IsField(name, s, m) && o <= m.start
      ensures NextField(r, s, o).Some? && NextField(r, s, o).value.start <= m.start
    {
      NoneBefore(r, name, s, o, m);
    }
  }

  lemma NoneBefore(r: Rule, name: string, s: string, o: nat, m: Field)
    requires JsonRule(r, name) && o <= |s| && IsField(name, s, m) && o <= m.start
    ensures NextField(r, s, o).Some? && NextField(r, s, o).value.start <= m.start
  {
    FieldIsMatch(name, s, m);
    ShiftedSlice(s, o, m.start - o, m.end - o);
    MatchIsFound(r, s[o..], m.start - o, m.end - o);
  }

  lemma MatchIsFound(r: Rule, u: string, i: nat, j: nat)
    requires WellFormed(r) && i <= j <= |u| && Matches(r.pattern, u[i..j])
    ensures First(r, u).Some? && First(r, u).value.at <= i
  {
    FirstIsLeftmost(r, u);
  }

  /** Fields of the text from `o` on, in order and apart. */
  ghost predicate InOrder(name: string, s: string, o: nat, fs: seq<Field>) {
    && (forall x | 0 <= x < |fs| :: IsField(name, s, fs[x]) && o <= fs[x].start)
    && forall x, y | 0 <= x < y < |fs| :: fs[x].end <= fs[y].start
  }

  lemma {:induction false} ConsumedInOrder(r: Rule, name: string, s: string, o: nat)
    requires JsonRule(r, name) && o <= |s|
    ensures InOrder(name, s, o, Consumed(r, s, o))
    decreases |s| - o
  {
    NextIsField(r, name, s, o);
    match NextField(r, s, o)
    case None =>
    case Some(f) =>
      ConsumedInOrder(r, name, s, f.end);
      OneMore(name, s, o, f, Consumed(r, s, f.end));
  }

  lemma OneMore(name: string, s: string, o: nat, f: Field, fs: seq<Field>)
    requires IsField(name, s, f) && o <= f.start && InOrder(name, s, f.end, fs)
    ensures InOrder(name, s, o, [f] + fs)
  {
  }

  /** Every field is consumed, or begins inside a consumed one. */
  lemma {:induction false} ConsumedOrHidden(r: Rule, name: string, s: string, o: nat, m: Field) returns (c: Field)
    requires JsonRule(r, name) && o <= |s| && IsField(name, s, m) && o <= m.start
    ensures c in Consumed(r, s, o) && (c == m || BeginsInside(c, m))
    decreases |s| - o
  {
    NextIsLeftmost(r, name, s, o);
    var f := NextField(r, s, o).value;
    if m.start < f.end {
      c := f;
      if m.start == f.start {
        SameStart(name, s, f, m);
      }
    } else {
      c := ConsumedOrHidden(r, name, s, f.end, m);
    }
  }

  // ---- What the pass writes -----------------------------------------------

  /** The text from `o` on with the values of `fs` replaced by the mask. */
  function Splice(s: string, o: nat, fs: seq<Field>, mask: string): string
    requires o <= |s|
    decreases |fs|
  {
    if fs == [] then s[o..]
    else if o <= fs[0].from <= fs[0].to <= |s| then s[o..fs[0].from] + mask + Splice(s, fs[0].to, fs[1..], mask)
    else ""
  }

  lemma SpliceFrom(name: string, s: string, o: nat, e: nat, fs: seq<Field>, mask: string)
    requires o <= e <= |s| && InOrder(name, s, e, fs)
    ensures Splice(s, o, fs, mask) == s[o..e] + Splice(s, e, fs, mask)
  {
    if fs == [] {
      assert s[o..] == s[o..e] + s[e..];
    } else {
      var a, b := s[o..e], s[e..fs[0].from];
      assert s[o..fs[0].from] == a + b;
      Regroup(a, b, mask, Splice(s, fs[0].to, fs[1..], mask));
    }
  }

  /** The pass replaces the values of the fields it consumes, and nothing else. */
  lemma {:induction false} SubIsSplice(r: Rule, name: string, s: string, o: nat)
    requires JsonRule(r, name) && o <= |s|
    ensures Sub(r, s[o..]) == Splice(s, o, Consumed(r, s, o), r.mask)
    decreases |s| - o
  {
    NextIsLeftmost(r, name, s, o);
    match First(r, s[o..])
    case None =>
    case Some(f) =>
      var c := NextField(r, s, o).value;
      SubIsSplice(r, name, s, c.end);
      ConsumedInOrder(r, name, s, c.end);
      SpliceFrom(name, s, c.to, c.end, Consumed(r, s, c.end), r.mask);
      OneSubstitution(r, s, o, f, c);
  }

  lemma OneSubstitution(r: Rule, s: string, o: nat, f: Found, c: Field)
    requires WellFormed(r) && r.lead.None? && o <= |s| && First(r, s[o..]) == Some(f) && NextField(r, s, o) == Some(c)
    ensures o <= c.from <= c.end && c.to <= c.end <= |s|
    ensures Sub(r, s[o..]) == s[o..c.from] + r.mask + (s[c.to..c.end] + Sub(r, s[c.end..]))
  {
    NextParts(r, s, o, f, c);
    SliceParts(s, o, c.from, c.to, c.end);
    SubUnfolds(r, s[o..], f, s[o..c.from], s[c.to..c.end], s[c.end..]);
  }

  lemma NextParts(r: Rule, s: string, o: nat, f: Found, c: Field)
    requires WellFormed(r) && o <= |s| && First(r, s[o..]) == Some(f) && NextField(r, s, o) == Some(c)
    ensures f.at + Sum(f.ks[..r.pre]) == c.from - o && f.End() == c.end - o
    ensures f.End() - Sum(f.ks[|f.ks| - r.suf..]) == c.to - o
    ensures o <= c.from <= c.end && o <= c.to <= c.end <= |s|
  {
    assert Regex.Inside(r, s[o..], f);
  }

  lemma SliceParts(s: string, o: nat, a: nat, b: nat, e: nat)
    requires o <= a <= e <= |s| && o <= b <= e
    ensures s[o..][0..a - o] == s[o..a] && s[o..][b - o..e - o] == s[b..e] && s[o..][e - o..] == s[e..]
  {
    ShiftedSlice(s, o, 0, a - o);
    ShiftedSlice(s, o, b - o, e - o);
    DropDrop(s, o, e - o);
  }

  lemma SubUnfolds(r: Rule, u: string, f: Found, head: string, tail: string, rest: string)
    requires WellFormed(r) && r.lead.None? && First(r, u) == Some(f)
    requires head == u[0..f.at + Sum(f.ks[..r.pre])] && tail == u[f.End() - Sum(f.ks[|f.ks| - r.suf..])..f.End()]
    requires rest == u[f.End()..]
    ensures Sub(r, u) == head + r.mask + (tail + Sub(r, rest))
  {
    BeforeAt(r, u, f);
    AfterAt(r, u, f);
    SubIs(r, u, f, head, tail, rest);
  }

  lemma BeforeAt(r: Rule, u: string, f: Found)
    requires Regex.Inside(r, u, f) && r.lead.None?
    ensures Before(r, u, f) == u[0..f.at + Sum(f.ks[..r.pre])]
  {
  }

  lemma AfterAt(r: Rule, u: string, f: Found)
    requires Regex.Inside(r, u, f)
    ensures After(r, u, f) == u[f.End() - Sum(f.ks[|f.ks| - r.suf..])..f.End()]
  {
  }

  lemma DropDrop(s: string, o: nat, e: nat)
    requires o <= |s| && e <= |s| - o
    ensures s[o..][e..] == s[o + e..]
  {
  }

  // ---- Which values are masked --------------------------------------------

  /** Position `k` of the text is in a value that the pass replaces. */
  ghost predicate Replaced(r: Rule, s: string, k: nat)
    requires WellFormed(r)
  {
    exists c :: c in Consumed(r, s, 0) && c.from <= k < c.to
  }

  /** All of a field's value is replaced. */
  ghost predicate Masked(r: Rule, s: string, m: Field)
    requires WellFormed(r)
  {
    forall k: nat | m.from <= k < m.to :: Replaced(r, s, k)
  }

  ghost predicate Hidden(r: Rule, s: string, m: Field)
    requires WellFormed(r)
  {
    exists c :: c in Consumed(r, s, 0) && BeginsInside(c, m)
  }

  lemma ApartInOrder(name: string, s: string, o: nat, fs: seq<Field>, c: Field, d: Field)
    requires InOrder(name, s, o, fs) && c in fs && d in fs
    ensures IsField(name, s, d) && !BeginsInside(c, d)
  {
    var x :| 0 <= x < |fs| && fs[x] == c;
    var y :| 0 <= y < |fs| && fs[y] == d;
    assert x < y || y < x || x == y;
  }

  /** A field that is hidden inside a consumed one keeps every character of its value. */
  lemma HiddenSurvives(r: Rule, name: string, s: string, m: Field, k: nat)
    requires JsonRule(r, name) && IsField(name, s, m) && Hidden(r, s, m) && m.from <= k < m.to
    ensures !Replaced(r, s, k)
  {
    var fs := Consumed(r, s, 0);
    ConsumedInOrder(r, name, s, 0);
    var c :| c in fs && BeginsInside(c, m);
    forall d | d in fs
      ensures !(d.from <= k < d.to)
    {
      ApartInOrder(name, s, 0, fs, c, d);
      SameValue(name, s, d, m, k);
    }
  }

  /**
   A value is masked if and only if its field does not begin inside an earlier
   match that the pass consumed; otherwise every character of it survives.
   */
  lemma ValueMaskedIff(r: Rule, name: string, s: string, m: Field)
    requires JsonRule(r, name) && IsField(name, s, m)
    ensures Masked(r, s, m) <==> !Hidden(r, s, m)
    ensures !Masked(r, s, m) ==> forall k: nat | m.from <= k < m.to :: !Replaced(r, s, k)
  {
    if Hidden(r, s, m) {
      HiddenSurvives(r, name, s, m, m.from);
      forall k: nat | m.from <= k < m.to
        ensures !Replaced(r, s, k)
      {
        HiddenSurvives(r, name, s, m, k);
      }
    } else {
      var c := ConsumedOrHidden(r, name, s, 0, m);
      assert c == m;
    }
  }

  ghost predicate NoOverlap(name: string, s: string) {
    forall c, m | IsField(name, s, c) && IsField(name, s, m) :: !BeginsInside(c, m)
  }

  ghost predicate NoneHidden(r: Rule, name: string, s: string)
    requires WellFormed(r)
  {
    forall m | IsField(name, s, m) :: !Hidden(r, s, m)
  }

  /**
   The pass masks the value of every match of its pattern if and only if no
   match begins inside an earlier match that it consumed, which is so if and
   only if no two matches overlap.
   */
  lemma AllMaskedIff(r: Rule, name: string, s: string)
    requires JsonRule(r, name)
    ensures (forall m | IsField(name, s, m) :: Masked(r, s, m)) <==> NoneHidden(r, name, s)
    ensures NoneHidden(r, name, s) <==> NoOverlap(name, s)
  {
    forall m | IsField(name, s, m)
      ensures Masked(r, s, m) <==> !Hidden(r, s, m)
    {
      ValueMaskedIff(r, name, s, m);
    }
    ConsumedInOrder(r, name, s, 0);
    if NoneHidden(r, name, s) {
      forall c, m | IsField(name, s, c) && IsField(name, s, m)
        ensures !BeginsInside(c, m)
      {
        var d := ConsumedOrHidden(r, name, s, 0, c);
        assert d == c;
      }
    }
  }

  /** What a pass does to a text, and when it masks everything it should. */
  ghost predicate MasksIff(r: Rule, name: string, s: string) {
    && JsonRule(r, name)
    && Sub(r, s) == Splice(s, 0, Consumed(r, s, 0), r.mask)
    && ((forall m | IsField(name, s, m) :: Masked(r, s, m)) <==> NoneHidden(r, name, s))
    && (NoneHidden(r, name, s) <==> NoOverlap(name, s))
  }

  /** So it is for both JSON passes of the table. */
  lemma JsonPassesMaskIff(s: string)
    ensures MasksIff(Rules()[2], "client_secret", s)
    ensures MasksIff(Rules()[3], "access_token", s)
  {
    TableRules();
    RuleMasksIff(Rules()[2], "client_secret", s);
    RuleMasksIff(Rules()[3], "access_token", s);
  }

  lemma RuleMasksIff(r: Rule, name: string, s: string)
    requires JsonRule(r, name)
    ensures MasksIff(r, name, s)
  {
    AllMaskedIff(r, name, s);
    SubIsSplice(r, name, s, 0);
    assert s[0..] == s;
  }

  // ---- The two shapes of an overlap ---------------------------------------

  function Quoted(value: string): string { "\"" + value + "\"" }

  function FieldText(name: string, value: string): string { Label(name) + Quoted(value) }

  predicate IsValue(value: string) { value != "" && '"' !in value }

  function PlainAt(name: string, value: string): Field {
    var n := |name| + 3;
    Field(0, n + 1, n + 1 + |value|, n + 2 + |value|)
  }

  lemma PlainField(name: string, value: string, more: string)
    requires IsValue(value)
    ensures IsField(name, FieldText(name, value) + more, PlainAt(name, value))
  {
    var s, n := FieldText(name, value) + more, |name| + 3;
    assert |Label(name)| == n;
    assert s[n] == '"' && s[n + 1 + |value|] == '"';
    forall k | n + 1 <= k < n + 1 + |value|
      ensures s[k] != '"'
    {
      assert s[k] == value[k - n - 1];
    }
    assert forall k | 0 <= k < n :: s[0 + k] == Label(name)[k];
  }

  /** A field at the beginning is masked, and the pass goes on behind it. */
  lemma FieldIsMasked(r: Rule, name: string, s: string, f: Field)
    requires JsonRule(r, name) && IsField(name, s, f) && f.start == 0
    ensures Sub(r, s) == s[..f.from] + r.mask + (s[f.to..f.end] + Sub(r, s[f.end..]))
  {
    assert s[0..] == s && s[0..f.from] == s[..f.from];
    NextIsLeftmost(r, name, s, 0);
    SameStart(name, s, NextField(r, s, 0).value, f);
    OneSubstitution(r, s, 0, First(r, s[0..]).value, f);
  }

  /** A field has four quotes. */
  lemma FewQuotes(name: string, s: string, a: nat, b: nat, c: nat)
    requires IsName(name) && forall i | 0 <= i < |s| && s[i] == '"' :: i == a || i == b || i == c
    ensures forall f :: !IsField(name, s, f)
  {
    forall f
      ensures !IsField(name, s, f)
    {
      if IsField(name, s, f) {
        LabelChars(name, s, f.start);
      }
    }
  }

  lemma NothingToMask(r: Rule, name: string, s: string)
    requires JsonRule(r, name) && forall f :: !IsField(name, s, f)
    ensures Sub(r, s) == s
  {
    forall u | SubstringOf(u, s)
      ensures !Matches(r.pattern, u)
    {
      var i, j :| 0 <= i <= j <= |s| && u == s[i..j];
      FieldsAreMatches(name, s, i, j);
    }
    SubNothing(r, s);
  }

  lemma PlainIsMasked(r: Rule, name: string, value: string, more: string)
    requires JsonRule(r, name) && IsValue(value)
    ensures Sub(r, FieldText(name, value) + more) == Label(name) + "\"" + r.mask + ("\"" + Sub(r, more))
  {
    var s, f := FieldText(name, value) + more, PlainAt(name, value);
    PlainField(name, value, more);
    FieldIsMasked(r, name, s, f);
    assert |Label(name)| == |name| + 3;
    assert s[..f.from] == Label(name) + "\"" && s[f.to..f.end] == "\"" && s[f.end..] == more;
  }

  /** Begun at the closing quote: of two fields with nothing between them, the second comes through as it is. */
  lemma SecondFieldSurvives(r: Rule, name: string, a: string, b: string)
    requires JsonRule(r, name) && IsValue(a) && IsValue(b)
    ensures Sub(r, Label(name) + "\"" + a + FieldText(name, b)) == Label(name) + "\"" + r.mask + FieldText(name, b)
  {
    var more := FieldText(name, b)[1..];
    assert FieldText(name, b) == "\"" + more;
    assert Label(name) + "\"" + a + FieldText(name, b) == FieldText(name, a) + more;
    PlainIsMasked(r, name, a, more);
    HeadlessQuotes(name, b);
    FewQuotes(name, more, |name|, |name| + 2, |name| + 3 + |b|);
    NothingToMask(r, name, more);
  }

  lemma HeadlessQuotes(name: string, b: string)
    requires IsName(name) && IsValue(b)
    ensures var more := FieldText(name, b)[1..];
      forall i | 0 <= i < |more| && more[i] == '"' :: i == |name| || i == |name| + 2 || i == |name| + 3 + |b|
  {
    var more := FieldText(name, b)[1..];
    assert more == name + ("\":\"" + (b + "\""));
    assert forall k | 0 <= k < |name| :: more[k] == name[k];
    assert forall k | 0 <= k < |b| :: more[|name| + 3 + k] == b[k];
    assert forall i | |name| + 3 <= i < |name| + 3 + |b| :: more[i] == b[i - |name| - 3];
  }

  /** Begun at the opening quote: a value that spells the name, with a colon and another value behind it. */
  lemma LastValueSurvives(r: Rule, name: string, b: string)
    requires JsonRule(r, name) && IsValue(b)
    ensures Sub(r, Label(name) + FieldText(name, b)) == Label(name) + "\"" + r.mask + "\":" + Quoted(b)
  {
    var more := ":" + Quoted(b);
    assert '"' !in name;
    NamedValue(name, b, more);
    PlainIsMasked(r, name, name, more);
    TwoQuotes(b, more);
    FewQuotes(name, more, 1, |b| + 2, |b| + 2);
    NothingToMask(r, name, more);
    Assembled(Label(name) + "\"", r.mask, Quoted(b));
  }

  lemma NamedValue(name: string, b: string, more: string)
    requires more == ":" + Quoted(b)
    ensures Label(name) + FieldText(name, b) == FieldText(name, name) + more
  {
    assert FieldText(name, name) == Label(name) + ("\"" + name + "\"");
    assert Label(name) == "\"" + name + "\"" + ":";
    Assoc(Label(name), "\"" + name + "\"", ":", Quoted(b));
  }

  lemma Assoc(a: string, b: string, c: string, d: string)
    ensures a + ((b + c) + d) == (a + b) + (c + d)
  {
  }

  lemma TwoQuotes(b: string, more: string)
    requires IsValue(b) && more == ":" + Quoted(b)
    ensures forall i | 0 <= i < |more| && more[i] == '"' :: i == 1 || i == |b| + 2
  {
    assert forall k | 0 <= k < |b| :: more[k + 2] == b[k];
    assert forall i | 2 <= i < |b| + 2 :: more[i] == b[i - 2];
  }

  lemma Assembled(head: string, mask: string, last: string)
    ensures head + mask + ("\"" + (":" + last)) == head + mask + "\":" + last
  {
    assert "\"" + (":" + last) == "\":" + last;
    Assoc(head, mask, "\":", last);
  }
}
