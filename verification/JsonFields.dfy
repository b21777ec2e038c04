/**
 The two JSON passes.  A match is a field: quoted name, colon, white space,
 quoted value.  Matches may overlap, the pass consumes some of them, and a
 value is masked exactly if its field does not begin inside a consumed one.
 */
module JsonFields {
  import opened Prelude
  import opened Regex
  import opened Masking
  import opened Sanitize

  // ---- Fields -------------------------------------------------------------

  /** Lower-case letters and underscores. */
  predicate IsName(name: string) {
    |name| >= 2 && forall i | 0 <= i < |name| :: 'a' <= name[i] <= 'z' || name[i] == '_'
  }

  /** The name with its quotes and its colon. */
  function Label(name: string): string { "\"" + name + "\":" }

  function Key(name: string): Pattern { Folded(Label(name)) }

  function Tail(): Pattern { [AtLeast(Space, 0), One(Exact('"')), AtLeast(NotQuote, 1), One(Exact('"'))] }

  /** The value is `s[from..to]`, between its quotes; the field is `s[start..end]`. */
  datatype Field = Field(start: nat, from: nat, to: nat, end: nat)

  predicate LabelAt(name: string, s: string, start: nat) {
    start + |name| + 3 <= |s| && forall k | 0 <= k < |name| + 3 :: In(s[start + k], Key(name)[k].cls)
  }

  /** A field of any spelling of `name`, with any white space behind the colon. */
  predicate IsField(name: string, s: string, f: Field) {
    && f.start + |name| + 3 < f.from < f.to < |s| && f.end == f.to + 1
    && LabelAt(name, s, f.start)
    && (forall k | f.start + |name| + 3 <= k < f.from - 1 :: IsSpace(s[k]))
    && s[f.from - 1] == '"' && s[f.to] == '"'
    && (forall k | f.from <= k < f.to :: s[k] != '"')
  }

  /** The characters of a label: quotes first and before the colon, none of these in between. */
  lemma LabelChars(name: string, s: string, start: nat)
    requires IsName(name) && LabelAt(name, s, start)
    ensures s[start] == '"' && s[start + |name| + 1] == '"' && s[start + |name| + 2] == ':'
    ensures forall k | start < k <= start + |name| :: s[k] != '"' && s[k] != ':'
  {
    LabelChar(name, s, start, 0);
    LabelChar(name, s, start, |name| + 1);
    LabelChar(name, s, start, |name| + 2);
    forall k | start < k <= start + |name|
      ensures s[k] != '"' && s[k] != ':'
    {
      LabelChar(name, s, start, k - start);
    }
  }

  lemma LabelChar(name: string, s: string, start: nat, k: nat)
    requires IsName(name) && LabelAt(name, s, start) && k < |name| + 3
    ensures k == 0 || k == |name| + 1 ==> s[start + k] == '"'
    ensures k == |name| + 2 ==> s[start + k] == ':'
    ensures 0 < k <= |name| ==> s[start + k] != '"' && s[start + k] != ':'
  {
    var l := Label(name);
    assert In(s[start + k], Key(name)[k].cls);
    assert 0 < k <= |name| ==> l[k] == name[k - 1];
  }

  // ---- Matches are fields -------------------------------------------------

  lemma KeyIsSingles(name: string)
    ensures Singles(Key(name) + Tail(), |name| + 3) && (Key(name) + Tail())[|name| + 3..] == Tail()
    ensures |Key(name)| == |name| + 3 && forall k | 0 <= k < |name| + 3 :: (Key(name) + Tail())[k] == Key(name)[k]
  {
    var n := |name| + 3;
    assert |Label(name)| == n;
  }

  /** How white space, quote, value and quote share out the rest of a match. */
  lemma TailShape(w: string, ks: seq<nat>)
    requires Splits(Tail(), w, ks)
    ensures |ks| == 4 && ks[1] == 1 && ks[3] == 1 && ks[2] >= 1 && |w| == ks[0] + ks[2] + 2
    ensures forall k | 0 <= k < ks[0] :: IsSpace(w[k])
    ensures w[ks[0]] == '"' && w[|w| - 1] == '"' && forall k | ks[0] < k < |w| - 1 :: w[k] != '"'
  {
    var a := ks[0];
    assert Tail()[1..] == [One(Exact('"')), AtLeast(NotQuote, 1), One(Exact('"'))];
    forall k | 0 <= k < a
      ensures IsSpace(w[k])
    {
      assert w[..a][k] == w[k];
    }
    QuotedShape(w[a..], ks[1..]);
    assert forall k | 0 <= k < |w| - a :: w[a..][k] == w[a + k];
    assert w[a..][0] == w[a] && w[a..][|w[a..]| - 1] == w[|w| - 1];
    forall k | a < k < |w| - 1
      ensures w[k] != '"'
    {
      assert w[k] == w[a..][k - a];
    }
  }

  lemma QuotedShape(w: string, ks: seq<nat>)
    requires Splits([One(Exact('"')), AtLeast(NotQuote, 1), One(Exact('"'))], w, ks)
    ensures |ks| == 3 && ks[0] == 1 && ks[2] == 1 && ks[1] >= 1 && |w| == ks[1] + 2
    ensures w[0] == '"' && w[|w| - 1] == '"' && forall k | 0 < k < |w| - 1 :: w[k] != '"'
  {
    var p := [One(Exact('"')), AtLeast(NotQuote, 1), One(Exact('"'))];
    assert p[1..] == [AtLeast(NotQuote, 1), One(Exact('"'))];
    assert ks[0] == 1 && w[..1][0] == w[0];
    ValueShape(w[1..], ks[1..]);
    assert w[1..][|w| - 2] == w[|w| - 1];
    forall k | 0 < k < |w| - 1
      ensures w[k] != '"'
    {
      assert w[k] == w[1..][k - 1];
    }
  }

  lemma ValueShape(w: string, ks: seq<nat>)
    requires Splits([AtLeast(NotQuote, 1), One(Exact('"'))], w, ks)
    ensures |ks| == 2 && ks[1] == 1 && ks[0] >= 1 && |w| == ks[0] + 1
    ensures w[|w| - 1] == '"' && forall k | 0 <= k < |w| - 1 :: w[k] != '"'
  {
    var p := [AtLeast(NotQuote, 1), One(Exact('"'))];
    assert p[1..] == [One(Exact('"'))] && p[1..][1..] == [];
    var v, ls := w[ks[0]..], ks[1..];
    assert Splits(p[1..], v, ls);
    assert Splits(p[1..][1..], v[ls[0]..], ls[1..]);
    assert ls[0] == 1 && |v| == 1 && v[..1][0] == v[0] == w[ks[0]];
    forall k | 0 <= k < ks[0]
      ensures w[k] != '"'
    {
      assert w[..ks[0]][k] == w[k];
    }
  }

  /** Where a match has its value. */
  function FieldOf(name: string, i: nat, j: nat, ks: seq<nat>): Field
    requires |ks| == |name| + 7 && j > 0
  {
    Field(i, i + |name| + 3 + ks[|name| + 3] + 1, j - 1, j)
  }

  lemma MatchIsField(name: string, s: string, i: nat, j: nat, ks: seq<nat>)
    requires i <= j <= |s| && Splits(Key(name) + Tail(), s[i..j], ks)
    ensures |ks| == |name| + 7 && j > 0 && IsField(name, s, FieldOf(name, i, j, ks))
    ensures Sum(ks) == j - i && Sum(ks[..|name| + 5]) == FieldOf(name, i, j, ks).from - i && Sum(ks[|name| + 6..]) == 1
  {
    MatchParts(name, s[i..j], ks);
    TailSums(ks, |name| + 3);
    PartsAreField(name, s, i, j, ks);
  }

  /** How a match shares out its text. */
  ghost predicate Parts(name: string, u: string, ks: seq<nat>) {
    var n := |name| + 3;
    && |ks| == n + 4 && Sum(ks) == |u| && Sum(ks[..n]) == n && ks[n + 1] == 1 && ks[n + 3] == 1 && ks[n + 2] >= 1
    && |u| == n + ks[n] + ks[n + 2] + 2 && LabelAt(name, u, 0)
    && (forall k | 0 <= k < ks[n] :: IsSpace(u[n..][k]))
    && u[n..][ks[n]] == '"' && u[n..][|u| - n - 1] == '"' && (forall k | ks[n] < k < |u| - n - 1 :: u[n..][k] != '"')
  }

  lemma MatchParts(name: string, u: string, ks: seq<nat>)
    requires Splits(Key(name) + Tail(), u, ks)
    ensures Parts(name, u, ks)
  {
    var p, n := Key(name) + Tail(), |name| + 3;
    KeyIsSingles(name);
    DropSingles(p, u, ks, n);
    SplitsLength(p, u, ks);
    TailShape(u[n..], ks[n..]);
    assert ks[n..][0] == ks[n] && ks[n..][1] == ks[n + 1] && ks[n..][2] == ks[n + 2] && ks[n..][3] == ks[n + 3];
    LabelOf(name, u, ks);
  }

  lemma PartsAreField(name: string, s: string, i: nat, j: nat, ks: seq<nat>)
    requires i <= j <= |s| && Parts(name, s[i..j], ks)
    ensures |ks| == |name| + 7 && j > 0 && IsField(name, s, FieldOf(name, i, j, ks))
  {
    var n := |name| + 3;
    assert |s[i..j]| == j - i && |s[i..j][n..]| == j - i - n;
    RestOfField(s, i, j, n, ks[n]);
    LabelShift(name, s, i, j);
  }

  lemma LabelShift(name: string, s: string, i: nat, j: nat)
    requires i <= j <= |s| && LabelAt(name, s[i..j], 0)
    ensures LabelAt(name, s, i)
  {
    forall k | 0 <= k < |name| + 3
      ensures In(s[i + k], Key(name)[k].cls)
    {
      assert s[i..j][0 + k] == s[i + k];
    }
  }

  lemma LabelOf(name: string, u: string, ks: seq<nat>)
    requires Splits(Key(name) + Tail(), u, ks) && |name| + 3 <= |u|
    ensures LabelAt(name, u, 0)
  {
    KeyIsSingles(name);
    forall k | 0 <= k < |name| + 3
      ensures In(u[0 + k], Key(name)[k].cls)
    {
      SinglesAccept(Key(name) + Tail(), u, ks, |name| + 3, k);
    }
  }

  /** The facts about the rest of the match, read in the text. */
  lemma RestOfField(s: string, i: nat, j: nat, n: nat, a: nat)
    requires i + n <= j <= |s|
    requires var w := s[i..j][n..];
      && a + 3 <= |w| && (forall k | 0 <= k < a :: IsSpace(w[k]))
      && w[a] == '"' && w[|w| - 1] == '"' && forall k | a < k < |w| - 1 :: w[k] != '"'
    ensures i + n + a + 1 < j - 1
    ensures forall k | i + n <= k < i + n + a :: IsSpace(s[k])
    ensures s[i + n + a] == '"' && s[j - 1] == '"' && forall k | i + n + a < k < j - 1 :: s[k] != '"'
  {
    var w := s[i..j][n..];
    assert |w| == j - i - n;
    assert forall k | 0 <= k < |w| :: w[k] == s[i + n + k];
    forall k | i + n <= k < i + n + a
      ensures IsSpace(s[k])
    {
      assert s[k] == w[k - i - n];
    }
    forall k | i + n + a < k < j - 1
      ensures s[k] != '"'
    {
      assert s[k] == w[k - i - n];
    }
  }

  lemma TailSums(ks: seq<nat>, n: nat)
    requires |ks| == n + 4 && Sum(ks[..n]) == n && ks[n + 1] == 1 && ks[n + 3] == 1
    ensures Sum(ks[..n + 2]) == n + ks[n] + 1 && Sum(ks[n + 3..]) == 1
  {
    SumSplit(ks[..n + 2], n);
    var pair := ks[..n + 2][n..];
    assert ks[..n + 2][..n] == ks[..n] && pair == [ks[n], ks[n + 1]];
    assert pair[1..] == [ks[n + 1]] && pair[1..][1..] == [];
    assert Sum(pair[1..]) == 1 && Sum(pair) == ks[n] + 1;
    var last := ks[n + 3..];
    assert last == [ks[n + 3]] && last[1..] == [];
  }

  lemma FieldIsMatch(name: string, s: string, f: Field)
    requires IsField(name, s, f)
    ensures f.end <= |s| && Matches(Key(name) + Tail(), s[f.start..f.end])
  {
    var n := |name| + 3;
    LabelMatches(name, s, f.start);
    RestMatches(s, f.start + n, f.from, f.to);
    SpanMatches(Key(name), Tail(), s, f.start, f.start + n, f.end);
  }

  lemma SpanMatches(p: Pattern, q: Pattern, s: string, a: nat, b: nat, z: nat)
    requires a <= b <= z <= |s| && Matches(p, s[a..b]) && Matches(q, s[b..z])
    ensures Matches(p + q, s[a..z])
  {
    MatchesJoin(p, q, s[a..b], s[b..z]);
    Cut(s, a, b, z);
  }

  lemma RestMatches(s: string, a: nat, from: nat, to: nat)
    requires a < from < to < |s| && (forall k | a <= k < from - 1 :: IsSpace(s[k]))
    requires s[from - 1] == '"' && s[to] == '"' && forall k | from <= k < to :: s[k] != '"'
    ensures Matches(Tail(), s[a..to + 1])
  {
    var space, value := s[a..from - 1], s[from..to];
    assert forall k | 0 <= k < |value| :: value[k] == s[from + k] && value[k] != '"';
    assert forall k | 0 <= k < |space| :: space[k] == s[a + k];
    TailMatches(space, value);
    assert s[from - 1..from] == "\"" && s[to..to + 1] == "\"";
    Pieces(s, a, from - 1, from, to, to + 1);
  }

  lemma LabelMatches(name: string, s: string, start: nat)
    requires LabelAt(name, s, start)
    ensures Matches(Key(name), s[start..start + |name| + 3])
  {
    var key := s[start..start + |name| + 3];
    forall k | 0 <= k < |name| + 3
      ensures In(key[k], Key(name)[k].cls)
    {
      assert key[k] == s[start + k];
    }
    assert |Label(name)| == |name| + 3;
    FoldedMatches(Label(name), key);
  }

  lemma Pieces(s: string, b: nat, c: nat, d: nat, e: nat, z: nat)
    requires b <= c <= d <= e <= z <= |s|
    ensures s[b..z] == s[b..c] + (s[c..d] + (s[d..e] + s[e..z]))
  {
    Cut(s, b, c, z);
    Cut(s, c, d, z);
    Cut(s, d, e, z);
  }

  lemma Cut(s: string, a: nat, b: nat, z: nat)
    requires a <= b <= z <= |s|
    ensures s[a..z] == s[a..b] + s[b..z]
  {
  }

  lemma TailMatches(space: string, value: string)
    requires value != "" && (forall k | 0 <= k < |space| :: IsSpace(space[k])) && '"' !in value
    ensures Matches(Tail(), space + ("\"" + (value + "\"")))
  {
    MatchesItem(One(Exact('"')), "\"");
    MatchesItem(AtLeast(NotQuote, 1), value);
    MatchesItem(AtLeast(Space, 0), space);
    MatchesJoin([AtLeast(NotQuote, 1)], [One(Exact('"'))], value, "\"");
    MatchesJoin([One(Exact('"'))], [AtLeast(NotQuote, 1)] + [One(Exact('"'))], "\"", value + "\"");
    MatchesJoin([AtLeast(Space, 0)], [One(Exact('"'))] + ([AtLeast(NotQuote, 1)] + [One(Exact('"'))]), space,
                "\"" + (value + "\""));
    assert [AtLeast(Space, 0)] + ([One(Exact('"'))] + ([AtLeast(NotQuote, 1)] + [One(Exact('"'))])) == Tail();
  }
}
