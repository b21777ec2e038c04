/**
 The JSON fields of a text by its segments: name, colon with white space,
 value.  A JSON pass is one scan over the segments.
 */
module JsonSegments {
  import opened Prelude
  import opened Regex
  import opened Masking
  import opened Sanitize
  import opened Segments
  import opened JsonFields
  import opened JsonMasking

  // ---- Where segments lie -------------------------------------------------

  /** Where segment `i` begins; one past the end of the text is where the next would begin. */
  function Pos(segs: seq<string>, i: nat): nat
    requires i <= |segs|
  {
    if i == 0 then 0 else Pos(segs, i - 1) + |segs[i - 1]| + 1
  }

  lemma {:induction false} PosMonotone(segs: seq<string>, i: nat, j: nat)
    requires i < j <= |segs|
    ensures Pos(segs, i) + |segs[i]| < Pos(segs, j) && (i + 1 < j ==> Pos(segs, i + 1) + |segs[i + 1]| < Pos(segs, j))
    decreases j
  {
    if i + 1 < j {
      PosMonotone(segs, i, j - 1);
    }
  }

  lemma {:induction false} GlueFrom(segs: seq<string>, i: nat)
    requires i < |segs|
    ensures Pos(segs, i) <= |Glue(segs)| && Glue(segs)[Pos(segs, i)..] == Glue(segs[i..])
    ensures i > 0 ==> Glue(segs)[Pos(segs, i) - 1] == '"'
    decreases i
  {
    if i > 0 {
      var s, o := Glue(segs), Pos(segs, i - 1);
      GlueFrom(segs, i - 1);
      OneSegment(segs[i - 1..], s[o..]);
      assert segs[i - 1..][1..] == segs[i..];
      assert s[o..][|segs[i - 1]| + 1..] == s[Pos(segs, i)..];
      assert s[o..][|segs[i - 1]|] == s[Pos(segs, i) - 1];
    }
  }

  lemma OneSegment(segs: seq<string>, t: string)
    requires |segs| > 1 && t == Glue(segs)
    ensures |t| > |segs[0]| && t[|segs[0]|] == '"' && t[..|segs[0]|] == segs[0]
    ensures t[|segs[0]| + 1..] == Glue(segs[1..])
  {
  }

  /** A segment in the text, and the quote behind it. */
  lemma SegmentAt(segs: seq<string>, i: nat)
    requires i < |segs|
    ensures Pos(segs, i) + |segs[i]| <= |Glue(segs)|
    ensures i + 1 == |segs| ==> Pos(segs, i) + |segs[i]| == |Glue(segs)|
    ensures i + 1 < |segs| ==> Pos(segs, i + 1) <= |Glue(segs)| && Glue(segs)[Pos(segs, i + 1) - 1] == '"'
    ensures Glue(segs)[Pos(segs, i)..Pos(segs, i) + |segs[i]|] == segs[i]
    ensures forall k | 0 <= k < |segs[i]| :: Glue(segs)[Pos(segs, i) + k] == segs[i][k]
  {
    var s, o, w := Glue(segs), Pos(segs, i), segs[i];
    GlueFrom(segs, i);
    FirstOf(segs, i, w, s[o..]);
    BeginsWith(s, o, w);
    if i + 1 < |segs| {
      GlueFrom(segs, i + 1);
    }
  }

  lemma FirstOf(segs: seq<string>, i: nat, w: string, t: string)
    requires i < |segs| && w == segs[i] && t == Glue(segs[i..])
    ensures w <= t && (i + 1 == |segs| ==> t == w)
  {
    FirstSegment(segs[i..]);
  }

  lemma FirstSegment(segs: seq<string>)
    requires segs != []
    ensures segs[0] <= Glue(segs) && (|segs| == 1 ==> Glue(segs) == segs[0])
  {
  }

  lemma BeginsWith(s: string, o: nat, w: string)
    requires o <= |s| && w <= s[o..]
    ensures o + |w| <= |s| && s[o..o + |w|] == w && forall k | 0 <= k < |w| :: s[o + k] == w[k]
  {
    forall k | 0 <= k < |w|
      ensures s[o + k] == w[k]
    {
      assert s[o..][k] == s[o + k];
    }
  }

  /** Every quote of the text stands in front of a segment. */
  lemma {:induction false} QuoteIsBoundary(segs: seq<string>, k: nat, n: nat) returns (i: nat)
    requires Segmented(segs) && n < |segs| && Pos(segs, n) <= k < |Glue(segs)| && Glue(segs)[k] == '"'
    ensures n < i < |segs| && Pos(segs, i) - 1 == k
    decreases |segs| - n
  {
    SegmentAt(segs, n);
    if k < Pos(segs, n) + |segs[n]| {
      NoQuoteInside(segs, n, k);
      assert false;
    } else if k == Pos(segs, n) + |segs[n]| {
      i := n + 1;
    } else {
      i := QuoteIsBoundary(segs, k, n + 1);
    }
  }

  lemma NoQuoteInside(segs: seq<string>, n: nat, k: nat)
    requires Segmented(segs) && n < |segs| && Pos(segs, n) <= k < Pos(segs, n) + |segs[n]|
    ensures k < |Glue(segs)| && Glue(segs)[k] != '"'
  {
    SegmentAt(segs, n);
    assert Glue(segs)[Pos(segs, n) + (k - Pos(segs, n))] == segs[n][k - Pos(segs, n)];
  }

  /** The next quote from the beginning of a segment on ends it. */
  lemma NextBoundary(segs: seq<string>, i: nat, k: nat)
    requires Segmented(segs) && i < |segs| && Pos(segs, i) <= k < |Glue(segs)| && Glue(segs)[k] == '"'
    requires forall x | Pos(segs, i) <= x < k :: Glue(segs)[x] != '"'
    ensures i + 1 < |segs| && Pos(segs, i + 1) - 1 == k
  {
    var j := QuoteIsBoundary(segs, k, i);
    if i + 1 < j {
      SegmentAt(segs, i);
      PosMonotone(segs, i, j);
    }
  }

  // ---- Fields by segment --------------------------------------------------

  predicate Spells(name: string, w: string) {
    |w| == |name| && forall k | 0 <= k < |name| :: In(w[k], Folded(name)[k].cls)
  }

  predicate IsColon(w: string) {
    w != "" && w[0] == ':' && forall k | 1 <= k < |w| :: IsSpace(w[k])
  }

  /** Segments `i`, `i + 1` and `i + 2` are name, colon and value of a field, each behind a quote and before one. */
  predicate FieldAt(name: string, segs: seq<string>, i: nat) {
    1 <= i && i + 3 < |segs| && Spells(name, segs[i]) && IsColon(segs[i + 1]) && segs[i + 2] != ""
  }

  function At(segs: seq<string>, i: nat): Field
    requires 1 <= i && i + 3 < |segs|
  {
    Field(Pos(segs, i) - 1, Pos(segs, i + 2), Pos(segs, i + 3) - 1, Pos(segs, i + 3))
  }

  /** The items of a label: quote, name, quote, colon. */
  lemma LabelItems(name: string)
    ensures |Key(name)| == |name| + 3
    ensures Key(name)[0].cls == Exact('"') && Key(name)[|name| + 1].cls == Exact('"')
            && Key(name)[|name| + 2].cls == Exact(':')
    ensures forall k | 0 <= k < |name| :: Key(name)[k + 1] == Folded(name)[k]
  {
    var l := Label(name);
    assert |l| == |name| + 3 && l[0] == '"' && l[|name| + 1] == '"' && l[|name| + 2] == ':';
    assert forall k | 0 <= k < |name| :: l[k + 1] == name[k];
  }

  /** A label, character by character: the name between two quotes, and the colon. */
  predicate Labelled(name: string, s: string, start: nat) {
    && start + |name| + 3 <= |s|
    && s[start] == '"' && Spells(name, s[start + 1..start + 1 + |name|])
    && s[start + |name| + 1] == '"' && s[start + |name| + 2] == ':'
  }

  lemma LabelledAt(name: string, s: string, start: nat)
    requires Labelled(name, s, start)
    ensures LabelAt(name, s, start)
  {
    var w := s[start + 1..start + 1 + |name|];
    LabelItems(name);
    forall k | 0 <= k < |name| + 3
      ensures In(s[start + k], Key(name)[k].cls)
    {
      if 1 <= k <= |name| {
        assert s[start + k] == w[k - 1] && Key(name)[k - 1 + 1] == Folded(name)[k - 1];
      }
    }
  }

  lemma AtIsLabelled(name: string, s: string, start: nat)
    requires LabelAt(name, s, start)
    ensures Labelled(name, s, start)
  {
    var w := s[start + 1..start + 1 + |name|];
    LabelItems(name);
    assert In(s[start + 0], Key(name)[0].cls) && In(s[start + (|name| + 1)], Key(name)[|name| + 1].cls);
    assert In(s[start + (|name| + 2)], Key(name)[|name| + 2].cls);
    forall k | 0 <= k < |name|
      ensures In(w[k], Folded(name)[k].cls)
    {
      assert w[k] == s[start + (k + 1)] && In(s[start + (k + 1)], Key(name)[k + 1].cls);
    }
  }

  /** What a colon segment looks like in the text. */
  lemma ColonIs(segs: seq<string>, i: nat)
    requires i + 1 < |segs|
    ensures Pos(segs, i + 1) <= |Glue(segs)|
    ensures IsColon(segs[i]) <==>
      && Pos(segs, i) + 1 < Pos(segs, i + 1) && Glue(segs)[Pos(segs, i)] == ':'
      && forall k | Pos(segs, i) + 1 <= k < Pos(segs, i + 1) - 1 :: IsSpace(Glue(segs)[k])
  {
    var s, o := Glue(segs), Pos(segs, i);
    SegmentAt(segs, i);
    if IsColon(segs[i]) {
      assert s[o + 0] == segs[i][0];
      forall k | o + 1 <= k < Pos(segs, i + 1) - 1
        ensures IsSpace(s[k])
      {
        assert s[o + (k - o)] == segs[i][k - o];
      }
    }
    if o + 1 < Pos(segs, i + 1) && s[o] == ':' && forall k | o + 1 <= k < Pos(segs, i + 1) - 1 :: IsSpace(s[k]) {
      assert s[o + 0] == segs[i][0];
      forall k | 1 <= k < |segs[i]|
        ensures IsSpace(segs[i][k])
      {
        assert s[o + k] == segs[i][k];
      }
    }
  }

  lemma LabelOfSegment(name: string, segs: seq<string>, i: nat)
    requires 1 <= i && i + 2 < |segs| && Spells(name, segs[i]) && IsColon(segs[i + 1])
    ensures Pos(segs, i + 1) == Pos(segs, i) + |name| + 1 && LabelAt(name, Glue(segs), Pos(segs, i) - 1)
  {
    GlueFrom(segs, i);
    SegmentAt(segs, i);
    ColonIs(segs, i + 1);
    LabelledAt(name, Glue(segs), Pos(segs, i) - 1);
  }

  lemma ValueOfSegment(segs: seq<string>, i: nat)
    requires Segmented(segs) && i + 1 < |segs|
    ensures Pos(segs, i + 1) == Pos(segs, i) + |segs[i]| + 1 <= |Glue(segs)| && Glue(segs)[Pos(segs, i + 1) - 1] == '"'
    ensures forall k | Pos(segs, i) <= k < Pos(segs, i + 1) - 1 :: Glue(segs)[k] != '"'
  {
    SegmentAt(segs, i);
    forall k | Pos(segs, i) <= k < Pos(segs, i + 1) - 1
      ensures Glue(segs)[k] != '"'
    {
      NoQuoteInside(segs, i, k);
    }
  }

  /** A field of the segments is one of the text. */
  lemma SegmentsAreField(name: string, segs: seq<string>, i: nat)
    requires Segmented(segs) && FieldAt(name, segs, i)
    ensures IsField(name, Glue(segs), At(segs, i))
  {
    LabelOfSegment(name, segs, i);
    ColonIs(segs, i + 1);
    ValueOfSegment(segs, i + 1);
    ValueOfSegment(segs, i + 2);
  }

  /** The quotes of a field are the boundaries of its segments. */
  lemma FieldBounds(name: string, segs: seq<string>, f: Field) returns (i: nat)
    requires IsName(name) && Segmented(segs) && IsField(name, Glue(segs), f)
    ensures 1 <= i && i + 3 < |segs| && f == At(segs, i) && Pos(segs, i + 1) == Pos(segs, i) + |name| + 1
  {
    var s := Glue(segs);
    LabelChars(name, s, f.start);
    i := QuoteIsBoundary(segs, f.start, 0);
    NextBoundary(segs, i, f.start + |name| + 1);
    assert !IsSpace('"');
    NextBoundary(segs, i + 1, f.from - 1);
    NextBoundary(segs, i + 2, f.to);
  }

  /** And there are no others. */
  lemma FieldIndex(name: string, segs: seq<string>, f: Field) returns (i: nat)
    requires IsName(name) && Segmented(segs) && IsField(name, Glue(segs), f)
    ensures FieldAt(name, segs, i) && f == At(segs, i)
  {
    i := FieldBounds(name, segs, f);
    NameInSegment(name, segs, i);
    ColonInSegment(name, segs, i);
  }

  lemma NameInSegment(name: string, segs: seq<string>, i: nat)
    requires 1 <= i && i + 1 < |segs| && Pos(segs, i + 1) == Pos(segs, i) + |name| + 1
    requires LabelAt(name, Glue(segs), Pos(segs, i) - 1)
    ensures Spells(name, segs[i])
  {
    AtIsLabelled(name, Glue(segs), Pos(segs, i) - 1);
    SegmentAt(segs, i);
  }

  lemma ColonInSegment(name: string, segs: seq<string>, i: nat)
    requires 1 <= i && i + 3 < |segs| && IsField(name, Glue(segs), At(segs, i))
    requires Pos(segs, i + 1) == Pos(segs, i) + |name| + 1
    ensures IsColon(segs[i + 1])
  {
    AtIsLabelled(name, Glue(segs), Pos(segs, i) - 1);
    ColonIs(segs, i + 1);
  }

  lemma FieldAtIff(name: string, segs: seq<string>, i: nat)
    requires IsName(name) && Segmented(segs) && 1 <= i && i + 3 < |segs|
    ensures FieldAt(name, segs, i) <==> IsField(name, Glue(segs), At(segs, i))
  {
    if FieldAt(name, segs, i) {
      SegmentsAreField(name, segs, i);
    }
    if IsField(name, Glue(segs), At(segs, i)) {
      var j := FieldIndex(name, segs, At(segs, i));
      SameIndex(segs, i, j);
    }
  }

  lemma SameIndex(segs: seq<string>, i: nat, j: nat)
    requires i < |segs| && j < |segs| && Pos(segs, i) == Pos(segs, j)
    ensures i == j
  {
    if i < j {
      PosMonotone(segs, i, j);
    } else if j < i {
      PosMonotone(segs, j, i);
    }
  }

  /** A field begins inside another if and only if its name is at most three segments further on. */
  lemma InsideIff(segs: seq<string>, i: nat, j: nat)
    requires 1 <= i && i + 3 < |segs| && 1 <= j && j + 3 < |segs|
    ensures BeginsInside(At(segs, i), At(segs, j)) <==> i < j <= i + 3
    ensures At(segs, j).start == At(segs, i).from - 1 <==> j == i + 2
  {
    if j < i {
      PosMonotone(segs, j, i);
      PosMonotone(segs, j, i + 2);
    } else if i < j {
      PosMonotone(segs, i, j);
      if j < i + 2 {
        PosMonotone(segs, j, i + 2);
      } else if i + 2 < j {
        PosMonotone(segs, i + 2, j);
      }
      if i + 3 < j {
        PosMonotone(segs, i + 3, j);
      } else if j < i + 3 {
        PosMonotone(segs, j, i + 3);
      }
    } else {
      PosMonotone(segs, i, i + 2);
    }
  }

  // ---- A JSON pass as one scan --------------------------------------------

  /**
   The segments that a pass replaces, scanning from segment `n` on: behind a
   field it goes on past its closing quote.
   */
  function Marks(name: string, segs: seq<string>, n: nat): set<nat>
    decreases |segs| - n
  {
    if n + 4 >= |segs| then {}
    else if FieldAt(name, segs, n + 1) then {n + 3} + Marks(name, segs, n + 4)
    else Marks(name, segs, n + 1)
  }

  function Written(segs: seq<string>, marks: set<nat>, mask: string): (t: seq<string>)
    ensures |t| == |segs|
  {
    seq(|segs|, j requires 0 <= j < |segs| => if j in marks then mask else segs[j])
  }

  lemma {:induction false} MarksAreValues(name: string, segs: seq<string>, n: nat)
    ensures forall j | j in Marks(name, segs, n) :: n + 3 <= j < |segs| - 1 && FieldAt(name, segs, j - 2)
    decreases |segs| - n
  {
    if n + 4 < |segs| {
      if FieldAt(name, segs, n + 1) {
        MarksAreValues(name, segs, n + 4);
      } else {
        MarksAreValues(name, segs, n + 1);
      }
    }
  }

  lemma IndexFrom(name: string, segs: seq<string>, f: Field, n: nat) returns (i: nat)
    requires IsName(name) && Segmented(segs) && n < |segs| && IsField(name, Glue(segs), f) && Pos(segs, n) <= f.start
    ensures n < i && FieldAt(name, segs, i) && f == At(segs, i)
  {
    i := FieldIndex(name, segs, f);
    if i < n {
      PosMonotone(segs, i, n);
    }
  }

  /** The pass finds the field whose name is the next segment. */
  lemma NextIsHere(r: Rule, name: string, segs: seq<string>, n: nat)
    requires JsonRule(r, name) && Segmented(segs) && FieldAt(name, segs, n + 1)
    ensures Pos(segs, n) <= |Glue(segs)| && NextField(r, Glue(segs), Pos(segs, n)) == Some(At(segs, n + 1))
  {
    var s, o := Glue(segs), Pos(segs, n);
    GlueFrom(segs, n);
    SegmentsAreField(name, segs, n + 1);
    NextIsLeftmost(r, name, s, o);
    var f := NextField(r, s, o).value;
    var i := IndexFrom(name, segs, f, n);
    if n + 1 < i {
      PosMonotone(segs, n + 1, i);
    }
  }

  /** If that is no name, it goes on with the segment. */
  lemma NextIsLater(r: Rule, name: string, segs: seq<string>, n: nat)
    requires JsonRule(r, name) && Segmented(segs) && n + 1 < |segs| && !FieldAt(name, segs, n + 1)
    ensures Pos(segs, n) <= Pos(segs, n + 1) <= |Glue(segs)|
    ensures NextField(r, Glue(segs), Pos(segs, n)) == NextField(r, Glue(segs), Pos(segs, n + 1))
  {
    var s, o, e := Glue(segs), Pos(segs, n), Pos(segs, n + 1);
    GlueFrom(segs, n);
    GlueFrom(segs, n + 1);
    forall f | IsField(name, s, f) && o <= f.start
      ensures e <= f.start
    {
      FieldIsLater(name, segs, f, n);
    }
    SameNext(r, name, s, o, e);
  }

  lemma FieldIsLater(name: string, segs: seq<string>, f: Field, n: nat)
    requires IsName(name) && Segmented(segs) && n + 1 < |segs| && !FieldAt(name, segs, n + 1)
    requires IsField(name, Glue(segs), f) && Pos(segs, n) <= f.start
    ensures Pos(segs, n + 1) <= f.start
  {
    var i := IndexFrom(name, segs, f, n);
    PosMonotone(segs, n + 1, i);
  }

  /** Without a field in between the pass finds the same from both places. */
  lemma SameNext(r: Rule, name: string, s: string, o: nat, e: nat)
    requires JsonRule(r, name) && o <= e <= |s| && forall f | IsField(name, s, f) && o <= f.start :: e <= f.start
    ensures NextField(r, s, o) == NextField(r, s, e)
  {
    NextIsLeftmost(r, name, s, o);
    NextIsLeftmost(r, name, s, e);
    if NextField(r, s, o).Some? {
      SameStart(name, s, NextField(r, s, o).value, NextField(r, s, e).value);
    }
  }

  lemma NoneLeft(r: Rule, name: string, segs: seq<string>, n: nat)
    requires JsonRule(r, name) && Segmented(segs) && n < |segs| <= n + 4
    ensures Pos(segs, n) <= |Glue(segs)| && NextField(r, Glue(segs), Pos(segs, n)).None?
  {
    GlueFrom(segs, n);
    NextIsLeftmost(r, name, Glue(segs), Pos(segs, n));
    if NextField(r, Glue(segs), Pos(segs, n)).Some? {
      var i := IndexFrom(name, segs, NextField(r, Glue(segs), Pos(segs, n)).value, n);
    }
  }

  /** Field `i` is consumed from segment `n` on. */
  ghost predicate Takes(r: Rule, segs: seq<string>, n: nat, i: nat)
    requires WellFormed(r) && n < |segs| && 1 <= i && i + 3 < |segs|
  {
    Pos(segs, n) <= |Glue(segs)| && At(segs, i) in Consumed(r, Glue(segs), Pos(segs, n))
  }

  /** What the pass consumes is what the scan marks. */
  lemma {:induction false} ConsumedAreMarks(r: Rule, name: string, segs: seq<string>, n: nat, i: nat)
    requires JsonRule(r, name) && Segmented(segs) && n < |segs| && FieldAt(name, segs, i)
    ensures Takes(r, segs, n, i) <==> i + 2 in Marks(name, segs, n)
    decreases |segs| - n
  {
    if n + 4 >= |segs| {
      NoneLeft(r, name, segs, n);
    } else if FieldAt(name, segs, n + 1) {
      ConsumedAreMarks(r, name, segs, n + 4, i);
      TakesHere(r, name, segs, n, i);
    } else {
      ConsumedAreMarks(r, name, segs, n + 1, i);
      TakesLater(r, name, segs, n, i);
    }
  }

  lemma TakesHere(r: Rule, name: string, segs: seq<string>, n: nat, i: nat)
    requires JsonRule(r, name) && Segmented(segs) && n + 4 < |segs| && FieldAt(name, segs, n + 1)
    requires 1 <= i && i + 3 < |segs|
    ensures Takes(r, segs, n, i) <==> i == n + 1 || Takes(r, segs, n + 4, i)
  {
    ConsumedHere(r, name, segs, n);
    InFront(At(segs, i), At(segs, n + 1), Consumed(r, Glue(segs), Pos(segs, n + 4)));
    SameField(segs, i, n + 1);
  }

  lemma TakesLater(r: Rule, name: string, segs: seq<string>, n: nat, i: nat)
    requires JsonRule(r, name) && Segmented(segs) && n + 1 < |segs| && !FieldAt(name, segs, n + 1)
    requires 1 <= i && i + 3 < |segs|
    ensures Takes(r, segs, n, i) <==> Takes(r, segs, n + 1, i)
  {
    ConsumedLater(r, name, segs, n);
  }

  lemma InFront(x: Field, a: Field, rest: seq<Field>)
    ensures x in [a] + rest <==> x == a || x in rest
  {
  }

  lemma SameField(segs: seq<string>, i: nat, j: nat)
    requires 1 <= i && i + 3 < |segs| && 1 <= j && j + 3 < |segs|
    ensures At(segs, i) == At(segs, j) <==> i == j
  {
    if At(segs, i) == At(segs, j) {
      SameIndex(segs, i, j);
    }
  }

  lemma ConsumedHere(r: Rule, name: string, segs: seq<string>, n: nat)
    requires JsonRule(r, name) && Segmented(segs) && n + 4 < |segs| && FieldAt(name, segs, n + 1)
    ensures Pos(segs, n) <= |Glue(segs)| && Pos(segs, n + 4) <= |Glue(segs)|
    ensures Consumed(r, Glue(segs), Pos(segs, n)) == [At(segs, n + 1)] + Consumed(r, Glue(segs), Pos(segs, n + 4))
  {
    NextIsHere(r, name, segs, n);
  }

  lemma ConsumedLater(r: Rule, name: string, segs: seq<string>, n: nat)
    requires JsonRule(r, name) && Segmented(segs) && n + 1 < |segs| && !FieldAt(name, segs, n + 1)
    ensures Pos(segs, n) <= |Glue(segs)| && Pos(segs, n + 1) <= |Glue(segs)|
    ensures Consumed(r, Glue(segs), Pos(segs, n)) == Consumed(r, Glue(segs), Pos(segs, n + 1))
  {
    NextIsLater(r, name, segs, n);
  }

  /** And the scan writes what the pass writes. */
  lemma {:induction false} SubIsWritten(r: Rule, name: string, segs: seq<string>, n: nat)
    requires JsonRule(r, name) && Segmented(segs) && n < |segs|
    ensures Pos(segs, n) <= |Glue(segs)|
    ensures Sub(r, Glue(segs)[Pos(segs, n)..]) == Glue(Written(segs, Marks(name, segs, n), r.mask)[n..])
    decreases |segs| - n
  {
    if n + 4 >= |segs| {
      NoneLeft(r, name, segs, n);
      GlueFrom(segs, n);
      assert Written(segs, {}, r.mask) == segs;
    } else if FieldAt(name, segs, n + 1) {
      SubIsWritten(r, name, segs, n + 4);
      WriteField(r, name, segs, n);
    } else {
      SubIsWritten(r, name, segs, n + 1);
      WriteNothing(r, name, segs, n);
    }
  }

  lemma WriteNothing(r: Rule, name: string, segs: seq<string>, n: nat)
    requires JsonRule(r, name) && Segmented(segs) && n + 4 < |segs| && !FieldAt(name, segs, n + 1)
    requires Pos(segs, n + 1) <= |Glue(segs)|
    requires Sub(r, Glue(segs)[Pos(segs, n + 1)..]) == Glue(Written(segs, Marks(name, segs, n + 1), r.mask)[n + 1..])
    ensures Pos(segs, n) <= |Glue(segs)|
    ensures Sub(r, Glue(segs)[Pos(segs, n)..]) == Glue(Written(segs, Marks(name, segs, n), r.mask)[n..])
  {
    var s, o, e := Glue(segs), Pos(segs, n), Pos(segs, n + 1);
    var w := Written(segs, Marks(name, segs, n), r.mask);
    NextIsLater(r, name, segs, n);
    SubIsSplice(r, name, s, o);
    SubIsSplice(r, name, s, e);
    ConsumedInOrder(r, name, s, e);
    SpliceFrom(name, s, o, e, Consumed(r, s, e), r.mask);
    MarksAreValues(name, segs, n + 1);
    ValueSlice(segs, n);
    assert w[n..][0] == segs[n] && w[n..][1..] == w[n + 1..];
    Join3(segs[n], "\"", Glue(w[n + 1..]));
  }

  /** A segment with the quote behind it. */
  lemma ValueSlice(segs: seq<string>, n: nat)
    requires n + 1 < |segs|
    ensures Pos(segs, n) <= Pos(segs, n + 1) <= |Glue(segs)|
    ensures Glue(segs)[Pos(segs, n)..Pos(segs, n + 1)] == segs[n] + "\""
  {
    SegmentAt(segs, n);
    var s, o, e := Glue(segs), Pos(segs, n), Pos(segs, n + 1);
    assert s[o..e] == s[o..e - 1] + [s[e - 1]];
  }

  lemma WriteField(r: Rule, name: string, segs: seq<string>, n: nat)
    requires JsonRule(r, name) && Segmented(segs) && n + 4 < |segs| && FieldAt(name, segs, n + 1)
    requires Pos(segs, n + 4) <= |Glue(segs)|
    requires Sub(r, Glue(segs)[Pos(segs, n + 4)..]) == Glue(Written(segs, Marks(name, segs, n + 4), r.mask)[n + 4..])
    ensures Pos(segs, n) <= |Glue(segs)|
    ensures Sub(r, Glue(segs)[Pos(segs, n)..]) == Glue(Written(segs, Marks(name, segs, n), r.mask)[n..])
  {
    var w := Written(segs, Marks(name, segs, n), r.mask);
    SubOfField(r, name, segs, n);
    WrittenField(r, name, segs, n);
    GlueFour(w, n);
    FourTexts(segs[n], segs[n + 1], segs[n + 2], r.mask, Glue(w[n + 4..]));
  }

  lemma SubOfField(r: Rule, name: string, segs: seq<string>, n: nat)
    requires JsonRule(r, name) && Segmented(segs) && n + 4 < |segs| && FieldAt(name, segs, n + 1)
    ensures Pos(segs, n) <= |Glue(segs)| && Pos(segs, n + 4) <= |Glue(segs)|
    ensures Sub(r, Glue(segs)[Pos(segs, n)..]) ==
              Three(segs[n], segs[n + 1], segs[n + 2]) + r.mask + ("\"" + Sub(r, Glue(segs)[Pos(segs, n + 4)..]))
  {
    HeadOfField(segs, n);
    ClosingQuote(segs, n + 3);
    NextIsHere(r, name, segs, n);
    SubAtNext(r, Glue(segs), Pos(segs, n), At(segs, n + 1), Three(segs[n], segs[n + 1], segs[n + 2]), "\"");
  }

  lemma SubAtNext(r: Rule, s: string, o: nat, c: Field, head: string, tail: string)
    requires WellFormed(r) && r.lead.None? && o <= |s| && NextField(r, s, o) == Some(c)
    requires o <= c.from <= |s| && c.to <= c.end && head == s[o..c.from] && tail == s[c.to..c.end]
    ensures Sub(r, s[o..]) == head + r.mask + (tail + Sub(r, s[c.end..]))
  {
    OneSubstitution(r, s, o, First(r, s[o..]).value, c);
  }

  lemma WrittenField(r: Rule, name: string, segs: seq<string>, n: nat)
    requires n + 4 < |segs| && FieldAt(name, segs, n + 1)
    ensures var w := Written(segs, Marks(name, segs, n), r.mask);
      && w[n + 4..] == Written(segs, Marks(name, segs, n + 4), r.mask)[n + 4..]
      && w[n] == segs[n] && w[n + 1] == segs[n + 1] && w[n + 2] == segs[n + 2] && w[n + 3] == r.mask
  {
    MarksAreValues(name, segs, n + 4);
  }

  lemma ClosingQuote(segs: seq<string>, n: nat)
    requires n + 1 < |segs|
    ensures 0 < Pos(segs, n + 1) <= |Glue(segs)|
    ensures Glue(segs)[Pos(segs, n + 1) - 1..Pos(segs, n + 1)] == "\""
  {
    SegmentAt(segs, n);
  }

  /** From a segment to the value of the field behind it. */
  lemma HeadOfField(segs: seq<string>, n: nat)
    requires n + 4 < |segs|
    ensures Pos(segs, n) <= Pos(segs, n + 3) <= |Glue(segs)|
    ensures Glue(segs)[Pos(segs, n)..Pos(segs, n + 3)] == Three(segs[n], segs[n + 1], segs[n + 2])
  {
    var s, a, b, c, d := Glue(segs), Pos(segs, n), Pos(segs, n + 1), Pos(segs, n + 2), Pos(segs, n + 3);
    ValueSlice(segs, n);
    ValueSlice(segs, n + 1);
    ValueSlice(segs, n + 2);
    JsonFields.Cut(s, a, b, c);
    JsonFields.Cut(s, a, c, d);
  }

  function Three(a: string, b: string, c: string): string { ((a + "\"") + (b + "\"")) + (c + "\"") }

  lemma GlueTail(w: seq<string>, n: nat)
    requires n + 1 < |w|
    ensures Glue(w[n..]) == Quote(w[n], Glue(w[n + 1..]))
  {
    assert w[n..][0] == w[n] && w[n..][1..] == w[n + 1..];
  }

  lemma GlueFour(w: seq<string>, n: nat)
    requires n + 4 < |w|
    ensures Glue(w[n..]) == Quote(w[n], Quote(w[n + 1], Quote(w[n + 2], Quote(w[n + 3], Glue(w[n + 4..])))))
  {
    GlueTail(w, n);
    GlueTail(w, n + 1);
    GlueTail(w, n + 2);
    GlueTail(w, n + 3);
  }

  lemma FourTexts(a: string, b: string, c: string, d: string, rest: string)
    ensures Three(a, b, c) + d + ("\"" + rest) == Quote(a, Quote(b, Quote(c, Quote(d, rest))))
  {
    var x := Quote(d, rest);
    var y := Quote(c, x);
    var z := Quote(b, y);
    calc {
      Three(a, b, c) + d + ("\"" + rest);
      { Join3(Three(a, b, c), d, "\"" + rest); }
      Three(a, b, c) + x;
      { Join3((a + "\"") + (b + "\""), c + "\"", x); Join3(c, "\"", x); }
      ((a + "\"") + (b + "\"")) + y;
      { Join3(a + "\"", b + "\"", y); Join3(b, "\"", y); }
      (a + "\"") + z;
      { Join3(a, "\"", z); }
      Quote(a, z);
    }
    assert Quote(a, z) == Quote(a, Quote(b, y));
    assert Quote(a, z) == Quote(a, Quote(b, Quote(c, x)));
    assert Quote(a, z) == Quote(a, Quote(b, Quote(c, Quote(d, rest))));
  }
}
