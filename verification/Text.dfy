/** The text helpers of Go's `strings` package that the service and its middleware rely on. */
module Text {

  /** `unicode.IsSpace` */
  predicate IsSpace(c: char) {
    || '\t' <= c <= '\r' || c == ' ' || c == '\U{0085}' || c == '\U{00A0}'
    || c == '\U{1680}' || '\U{2000}' <= c <= '\U{200A}' || c == '\U{2028}' || c == '\U{2029}'
    || c == '\U{202F}' || c == '\U{205F}' || c == '\U{3000}'
  }

  predicate AllSpace(s: string) {
    forall i | 0 <= i < |s| :: IsSpace(s[i])
  }

  predicate NoSpace(s: string) {
    forall i | 0 <= i < |s| :: !IsSpace(s[i])
  }

  // ---- strings.Fields -----------------------------------------------------

  /** Length of the word at the start of `s`. */
  function WordLength(s: string): (n: nat)
    ensures n <= |s| && forall k | 0 <= k < n :: !IsSpace(s[k])
    ensures n < |s| ==> IsSpace(s[n])
  {
    if s == "" || IsSpace(s[0]) then 0 else 1 + WordLength(s[1..])
  }

  /** `strings.Fields(s)` */
  function Fields(s: string): seq<string> {
    if s == "" then []
    else if IsSpace(s[0]) then Fields(s[1..])
    else [s[..WordLength(s)]] + Fields(s[WordLength(s)..])
  }

  /** `s[i..j]` is a longest run of non-space characters. */
  predicate IsWordAt(s: string, i: int, j: int) {
    && 0 <= i < j <= |s| && (forall k | i <= k < j :: !IsSpace(s[k]))
    && (i == 0 || IsSpace(s[i - 1])) && (j == |s| || IsSpace(s[j]))
  }

  ghost predicate IsWord(s: string, w: string) {
    exists i, j :: IsWordAt(s, i, j) && w == s[i..j]
  }

  /** The fields of a text are exactly its longest space-free runs. */
  lemma {:induction false} FieldsAreWords(s: string, w: string)
    ensures w in Fields(s) <==> IsWord(s, w)
    decreases |s|
  {
    if s == "" {
    } else if IsSpace(s[0]) {
      FieldsAreWords(s[1..], w);
      WordsAfter(s, 1, w);
      if IsWord(s, w) {
        var i, j :| IsWordAt(s, i, j) && w == s[i..j];
      }
    } else {
      var n := WordLength(s);
      assert IsWordAt(s, 0, n) && s[0..n] == s[..n];
      assert n > 0;
      FieldsAreWords(s[n..], w);
      if n < |s| {
        FirstWord(s, n, w);
      } else if IsWord(s, w) {
        var i, j :| IsWordAt(s, i, j) && w == s[i..j];
        FirstWordOnly(s, n, i, j);
      }
    }
  }

  /** Behind a space, the words of the rest are the words that start there. */
  lemma WordsAfter(s: string, n: nat, w: string)
    requires 0 < n <= |s| && IsSpace(s[n - 1])
    ensures IsWord(s[n..], w) <==> exists i, j :: n <= i && IsWordAt(s, i, j) && w == s[i..j]
  {
    if IsWord(s[n..], w) {
      var i, j :| IsWordAt(s[n..], i, j) && w == s[n..][i..j];
      WordShift(s, n, i, j);
      assert n <= n + i && IsWordAt(s, n + i, n + j);
    }
    if exists i, j :: n <= i && IsWordAt(s, i, j) && w == s[i..j] {
      var i, j :| n <= i && IsWordAt(s, i, j) && w == s[i..j];
      WordInTail(s, n, i, j);
    }
  }

  lemma WordShift(s: string, n: nat, i: nat, j: nat)
    requires 0 < n <= |s| && IsSpace(s[n - 1]) && IsWordAt(s[n..], i, j)
    ensures IsWordAt(s, n + i, n + j) && s[n..][i..j] == s[n + i..n + j]
  {
    assert forall k | i <= k < j :: s[n..][k] == s[n + k];
    assert forall k | n + i <= k < n + j :: s[k] == s[n..][k - n];
  }

  /** A word that starts before the end of the first word is the first word. */
  lemma FirstWordOnly(s: string, n: nat, i: nat, j: nat)
    requires n <= |s| && IsWordAt(s, 0, n) && IsWordAt(s, i, j) && i < n
    ensures i == 0 && j == n
  {
  }

  lemma WordInTail(s: string, n: nat, i: nat, j: nat)
    requires 0 < n <= i && IsWordAt(s, i, j)
    ensures IsWord(s[n..], s[i..j])
  {
    var t := s[n..];
    assert s[i..j] == t[i - n..j - n];
    assert IsWordAt(t, i - n, j - n);
  }

  lemma WordOfTail(s: string, n: nat, i: nat, j: nat)
    requires 0 < n < |s| && IsSpace(s[n]) && IsWordAt(s[n..], i, j)
    ensures IsWord(s, s[n..][i..j])
  {
    var t := s[n..];
    assert t[0] == s[n] && t[i..j] == s[n + i..n + j];
    assert IsWordAt(s, n + i, n + j);
  }

  lemma FirstWord(s: string, n: nat, w: string)
    requires 0 < n < |s| && IsWordAt(s, 0, n)
    ensures IsWord(s, w) <==> w == s[..n] || IsWord(s[n..], w)
  {
    var t := s[n..];
    assert s[..n] == s[0..n];
    if IsWord(s, w) {
      var i, j :| IsWordAt(s, i, j) && w == s[i..j];
      if i < n {
        FirstWordOnly(s, n, i, j);
      } else {
        WordInTail(s, n, i, j);
      }
    }
    if IsWord(t, w) {
      var i, j :| IsWordAt(t, i, j) && w == t[i..j];
      WordOfTail(s, n, i, j);
    }
  }

  // ---- Order and multiplicity ---------------------------------------------

  /** Where the fields of `s` lie, the text before `o` being done with. */
  function Spans(s: string, o: nat): seq<(nat, nat)>
    requires o <= |s|
    decreases |s| - o
  {
    if o == |s| then []
    else if IsSpace(s[o]) then Spans(s, o + 1)
    else [(o, o + WordLength(s[o..]))] + Spans(s, o + WordLength(s[o..]))
  }

  predicate Ascending(spans: seq<(nat, nat)>) {
    forall x, y | 0 <= x < y < |spans| :: spans[x].1 < spans[y].0
  }

  lemma {:induction false} SpansGiveFields(s: string, o: nat)
    requires o <= |s|
    ensures |Spans(s, o)| == |Fields(s[o..])|
    ensures forall x | 0 <= x < |Spans(s, o)| ::
              var (i, j) := Spans(s, o)[x]; i <= j <= |s| && Fields(s[o..])[x] == s[i..j]
    decreases |s| - o
  {
    if o == |s| {
    } else if IsSpace(s[o]) {
      assert s[o..][1..] == s[o + 1..];
      SpansGiveFields(s, o + 1);
    } else {
      var end := o + WordLength(s[o..]);
      FieldAt(s, o, end);
      SpansGiveFields(s, end);
    }
  }

  /** Words, in order, and all the words from `o` on. */
  ghost predicate WordsFrom(s: string, o: nat, spans: seq<(nat, nat)>) {
    && (forall x | 0 <= x < |spans| :: o <= spans[x].0 && IsWordAt(s, spans[x].0, spans[x].1))
    && Ascending(spans)
    && (forall i: nat, j: nat | o <= i && IsWordAt(s, i, j) :: (i, j) in spans)
  }

  predicate Boundary(s: string, o: nat) {
    o <= |s| && (o == 0 || o == |s| || IsSpace(s[o - 1]) || IsSpace(s[o]))
  }

  lemma {:induction false} SpansAreWords(s: string, o: nat)
    requires Boundary(s, o)
    ensures WordsFrom(s, o, Spans(s, o))
    decreases |s| - o
  {
    var spans := Spans(s, o);
    if o == |s| {
      NoWordsAtEnd(s);
    } else if IsSpace(s[o]) {
      assert Boundary(s, o + 1);
      SpansAreWords(s, o + 1);
      SkipSpace(s, o, spans);
    } else {
      var end := o + WordLength(s[o..]);
      WordHere(s, o, end);
      assert Boundary(s, end);
      SpansAreWords(s, end);
      SpansStep(s, o, end, Spans(s, end));
    }
  }

  lemma NoWordsAtEnd(s: string)
    ensures WordsFrom(s, |s|, [])
  {
  }

  lemma SkipSpace(s: string, o: nat, spans: seq<(nat, nat)>)
    requires o < |s| && IsSpace(s[o]) && WordsFrom(s, o + 1, spans)
    ensures WordsFrom(s, o, spans)
  {
  }

  lemma WordHere(s: string, o: nat, end: nat)
    requires o < |s| && !IsSpace(s[o]) && (o == 0 || IsSpace(s[o - 1])) && end == o + WordLength(s[o..])
    ensures o < end && IsWordAt(s, o, end) && (end == |s| || IsSpace(s[end]))
  {
    var t := s[o..];
    assert forall k | o <= k < end :: s[k] == t[k - o];
    assert end < |s| ==> s[end] == t[end - o];
  }

  lemma SpansStep(s: string, o: nat, end: nat, spans: seq<(nat, nat)>)
    requires IsWordAt(s, o, end) && WordsFrom(s, end, spans)
    ensures WordsFrom(s, o, [(o, end)] + spans)
  {
    var all := [(o, end)] + spans;
    forall i: nat, j: nat | o <= i && IsWordAt(s, i, j)
      ensures (i, j) in all
    {
      if i < end {
        assert all[0] == (i, j);
      } else {
        var x :| 0 <= x < |spans| && spans[x] == (i, j);
        assert all[x + 1] == (i, j);
      }
    }
  }

  /** The fields of a text are its longest space-free runs, each once for each place, from left to right. */
  lemma FieldsInOrder(s: string)
    ensures |Spans(s, 0)| == |Fields(s)| && Ascending(Spans(s, 0))
    ensures forall x | 0 <= x < |Fields(s)| ::
              var (i, j) := Spans(s, 0)[x]; IsWordAt(s, i, j) && Fields(s)[x] == s[i..j]
    ensures forall i: nat, j: nat | IsWordAt(s, i, j) :: (i, j) in Spans(s, 0)
  {
    assert s[0..] == s;
    SpansGiveFields(s, 0);
    SpansAreWords(s, 0);
  }

  /** Scans to the end of the field that begins at `start`. */
  method ScanField(s: string, start: nat) returns (i: nat)
    requires start <= |s|
    ensures i == start + WordLength(s[start..])
  {
    i := start;
    ghost var n := WordLength(s[start..]);
    while i < |s| && !IsSpace(s[i])
      invariant start <= i <= start + n <= |s|
      invariant i < |s| ==> s[i] == s[start..][i - start]
    {
      i := i + 1;
    }
  }

  /** The tokenizer: one pass, remembering where the current field began. */
  method SplitFields(s: string) returns (fields: seq<string>)
    ensures fields == Fields(s)
  {
    fields := [];
    var i := 0;
    while i < |s|
      invariant i <= |s|
      invariant fields + Fields(s[i..]) == Fields(s)
      decreases |s| - i
    {
      if IsSpace(s[i]) {
        assert s[i..][1..] == s[i + 1..];
        i := i + 1;
      } else {
        var end := ScanField(s, i);
        FieldAt(s, i, end);
        fields := fields + [s[i..end]];
        i := end;
      }
    }
  }

  lemma FieldAt(s: string, i: nat, end: nat)
    requires i < |s| && !IsSpace(s[i]) && end == i + WordLength(s[i..])
    ensures i < end <= |s| && Fields(s[i..]) == [s[i..end]] + Fields(s[end..])
  {
    assert s[i..][..end - i] == s[i..end] && s[i..][end - i..] == s[end..];
  }

  // ---- strings.TrimSpace, SplitN, EqualFold -------------------------------

  function TrimLeft(s: string): string {
    if s != "" && IsSpace(s[0]) then TrimLeft(s[1..]) else s
  }

  function TrimRight(s: string): string {
    if s != "" && IsSpace(s[|s| - 1]) then TrimRight(s[..|s| - 1]) else s
  }

  function TrimSpace(s: string): string { TrimRight(TrimLeft(s)) }

  /** No space at either end. */
  predicate Trimmed(t: string) {
    t != "" ==> !IsSpace(t[0]) && !IsSpace(t[|t| - 1])
  }

  lemma {:induction false} TrimLeftCut(s: string) returns (before: string)
    ensures s == before + TrimLeft(s) && AllSpace(before) && (TrimLeft(s) != "" ==> !IsSpace(TrimLeft(s)[0]))
    decreases |s|
  {
    if s != "" && IsSpace(s[0]) {
      var rest := TrimLeftCut(s[1..]);
      before := [s[0]] + rest;
      assert s == [s[0]] + s[1..];
    } else {
      before := "";
    }
  }

  lemma {:induction false} TrimRightCut(s: string) returns (after: string)
    ensures s == TrimRight(s) + after && AllSpace(after)
    ensures TrimRight(s) != "" ==> !IsSpace(TrimRight(s)[|TrimRight(s)| - 1])
    decreases |s|
  {
    if s != "" && IsSpace(s[|s| - 1]) {
      var rest := TrimRightCut(s[..|s| - 1]);
      after := rest + [s[|s| - 1]];
      assert s == s[..|s| - 1] + [s[|s| - 1]];
    } else {
      after := "";
    }
  }

  /** Trimming takes white space off both ends, and all of it. */
  lemma TrimCut(s: string) returns (before: string, after: string)
    ensures s == before + TrimSpace(s) + after && AllSpace(before) && AllSpace(after) && Trimmed(TrimSpace(s))
  {
    before := TrimLeftCut(s);
    after := TrimRightCut(TrimLeft(s));
    var t := TrimSpace(s);
    assert before + (t + after) == before + t + after;
    if t != "" {
      assert TrimLeft(s)[0] == t[0];
    }
  }

  /** Nothing is left exactly of white space. */
  lemma TrimmedAway(s: string)
    ensures TrimSpace(s) == "" <==> AllSpace(s)
  {
    var before, after := TrimCut(s);
    if TrimSpace(s) != "" {
      assert s[|before|] == TrimSpace(s)[0];
    }
  }

  /** Position of the first `c` in `s`, or the length of `s`. */
  function IndexOf(s: string, c: char): (n: nat)
    ensures n <= |s| && forall k | 0 <= k < n :: s[k] != c
    ensures n < |s| ==> s[n] == c
  {
    if s == "" || s[0] == c then 0 else 1 + IndexOf(s[1..], c)
  }

  lemma {:induction false} IndexOfAppend(a: string, c: char, b: string)
    requires c !in a
    ensures IndexOf(a + [c] + b, c) == |a|
  {
    assert (a + [c] + b)[|a|] == c;
  }

  function Lower(c: char): char {
    if 'A' <= c <= 'Z' then (c as int - 'A' as int + 'a' as int) as char else c
  }

  /** `strings.EqualFold(s, t)` for a `t` such as "Bearer", whose letters fold only within ASCII. */
  predicate EqualFold(s: string, t: string) {
    |s| == |t| && forall i | 0 <= i < |s| :: Lower(s[i]) == Lower(t[i])
  }

  lemma {:induction false} TrimLeftPadding(pad: string, s: string)
    requires AllSpace(pad) && s != "" && !IsSpace(s[0])
    ensures TrimLeft(pad + s) == s
    decreases |pad|
  {
    if pad == "" {
      assert pad + s == s;
    } else {
      assert (pad + s)[1..] == pad[1..] + s;
      TrimLeftPadding(pad[1..], s);
    }
  }

  lemma {:induction false} TrimRightPadding(s: string, pad: string)
    requires AllSpace(pad) && s != "" && !IsSpace(s[|s| - 1])
    ensures TrimRight(s + pad) == s
    decreases |pad|
  {
    if pad == "" {
      assert s + pad == s;
    } else {
      assert (s + pad)[..|s + pad| - 1] == s + pad[..|pad| - 1];
      TrimRightPadding(s, pad[..|pad| - 1]);
    }
  }

  /** Trimming takes exactly the white space around a text that begins and ends without any. */
  lemma TrimPadding(before: string, s: string, after: string)
    requires AllSpace(before) && Trimmed(s) && s != "" && AllSpace(after)
    ensures TrimSpace(before + s + after) == s
  {
    assert before + s + after == before + (s + after);
    TrimLeftPadding(before, s + after);
    TrimRightPadding(s, after);
  }
}
