/**
 Chunks of test output are masked one by one and then joined.  When every
 chunk but the last ends a line, each pattern has an exact condition on the
 chunks under which the join holds no match.
 */
module JoinedOutput {
  import opened Prelude
  import opened Regex
  import opened Masking
  import opened Sanitize
  import opened TestReport

  // ---- Chunks in their join -----------------------------------------------

  predicate EndsLine(s: string) { s != "" && s[|s| - 1] == '\n' }

  /** Every chunk but the last ends a line. */
  predicate Lines(chunks: seq<string>) {
    forall x | 0 <= x < |chunks| - 1 :: EndsLine(chunks[x])
  }

  /** Where chunk `x` begins in the join. */
  function Offset(chunks: seq<string>, x: nat): nat
    requires x <= |chunks|
  {
    |Join(chunks[..x])|
  }

  lemma ChunkAt(chunks: seq<string>, x: nat)
    requires x < |chunks|
    ensures Offset(chunks, x + 1) == Offset(chunks, x) + |chunks[x]| <= |Join(chunks)|
    ensures Join(chunks)[Offset(chunks, x)..Offset(chunks, x + 1)] == chunks[x]
  {
    var before, upTo, after := chunks[..x], chunks[..x + 1], chunks[x + 1..];
    JoinOne(before, chunks[x], upTo);
    JoinAppend(upTo, after);
    assert upTo + after == chunks;
    PrefixSlice(Join(before), chunks[x], Join(chunks));
  }

  lemma JoinOne(before: seq<string>, chunk: string, all: seq<string>)
    requires all == before + [chunk]
    ensures Join(all) == Join(before) + chunk
  {
    assert all[..|all| - 1] == before;
  }

  lemma PrefixSlice(a: string, b: string, s: string)
    requires a + b <= s
    ensures s[|a|..|a| + |b|] == b
  {
    assert s[..|a + b|] == a + b;
    assert s[|a|..|a| + |b|] == (a + b)[|a|..];
  }

  lemma {:induction false} OffsetMonotone(chunks: seq<string>, x: nat, y: nat)
    requires x <= y <= |chunks|
    ensures Offset(chunks, x) <= Offset(chunks, y) <= |Join(chunks)|
    decreases y
  {
    if x < y {
      OffsetMonotone(chunks, x, y - 1);
      ChunkAt(chunks, y - 1);
    } else {
      JoinAppend(chunks[..y], chunks[y..]);
      assert chunks[..y] + chunks[y..] == chunks;
    }
  }

  /** The chunk that holds a position. */
  lemma {:induction false} ChunkOf(chunks: seq<string>, pos: nat, y: nat) returns (x: nat)
    requires y <= |chunks| && pos < Offset(chunks, y)
    ensures x < y && Offset(chunks, x) <= pos < Offset(chunks, x + 1)
    decreases y
  {
    if y == 0 {
      assert false;
    }
    ChunkAt(chunks, y - 1);
    if pos < Offset(chunks, y - 1) {
      x := ChunkOf(chunks, pos, y - 1);
    } else {
      x := y - 1;
    }
  }

  /** Text without a newline lies in one chunk. */
  lemma InOneChunk(chunks: seq<string>, i: nat, j: nat) returns (x: nat)
    requires Lines(chunks) && i < j <= |Join(chunks)| && '\n' !in Join(chunks)[i..j]
    ensures x < |chunks| && Offset(chunks, x) <= i
            && j <= Offset(chunks, x + 1) == Offset(chunks, x) + |chunks[x]| <= |Join(chunks)|
    ensures Join(chunks)[i..j] == chunks[x][i - Offset(chunks, x)..j - Offset(chunks, x)]
    ensures x < |chunks| - 1 ==> j < Offset(chunks, x + 1)
  {
    assert chunks[..|chunks|] == chunks;
    x := ChunkOf(chunks, i, |chunks|);
    ChunkAt(chunks, x);
    var s, o, e := Join(chunks), Offset(chunks, x), Offset(chunks, x + 1);
    if x < |chunks| - 1 {
      EndOfSlice(s, o, e);
      NotPast(s, i, j, e - 1);
    }
    SliceOfSlice(s, o, e, i - o, j - o);
  }

  lemma EndOfSlice(s: string, o: nat, e: nat)
    requires o < e <= |s|
    ensures s[o..e][|s[o..e]| - 1] == s[e - 1]
  {
  }

  lemma NotPast(s: string, i: nat, j: nat, k: nat)
    requires i < j <= |s| && k < |s| && i <= k && '\n' !in s[i..j] && s[k] == '\n'
    ensures j <= k
  {
    if k < j {
      SpanHolds(s, i, k, j);
    }
  }

  lemma ChunkInJoin(chunks: seq<string>, x: nat, i: nat, j: nat)
    requires x < |chunks| && i <= j <= |chunks[x]|
    ensures Offset(chunks, x) + j <= |Join(chunks)|
    ensures Join(chunks)[Offset(chunks, x) + i..Offset(chunks, x) + j] == chunks[x][i..j]
  {
    ChunkAt(chunks, x);
    SliceOfSlice(Join(chunks), Offset(chunks, x), Offset(chunks, x + 1), i, j);
  }

  // ---- Patterns without newlines ------------------------------------------

  ghost predicate NewlineFree(p: Pattern) {
    p != [] && p[0].min > 0 && forall i | 0 <= i < |p| :: !In('\n', p[i].cls)
  }

  lemma NewlineFreeMatch(p: Pattern, u: string)
    requires NewlineFree(p) && Matches(p, u)
    ensures u != "" && '\n' !in u
  {
    var ks :| Splits(p, u, ks);
    MatchAvoids(p, u, ks, '\n');
    var x := MatchNeeds(p, u, 0);
  }

  /** Such a pattern matches in the join if and only if it matches in a chunk. */
  lemma JoinMatchesIff(p: Pattern, chunks: seq<string>)
    requires Lines(chunks) && NewlineFree(p)
    ensures HasMatch(p, Join(chunks)) <==> exists x :: 0 <= x < |chunks| && HasMatch(p, chunks[x])
  {
    if HasMatch(p, Join(chunks)) {
      var x := ChunkWithMatch(p, chunks);
    }
    if exists x :: 0 <= x < |chunks| && HasMatch(p, chunks[x]) {
      var x :| 0 <= x < |chunks| && HasMatch(p, chunks[x]);
      MatchInChunk(p, chunks, x);
    }
  }

  lemma ChunkWithMatch(p: Pattern, chunks: seq<string>) returns (x: nat)
    requires Lines(chunks) && NewlineFree(p) && HasMatch(p, Join(chunks))
    ensures x < |chunks| && HasMatch(p, chunks[x])
  {
    var u :| SubstringOf(u, Join(chunks)) && Matches(p, u);
    var i, j :| 0 <= i <= j <= |Join(chunks)| && u == Join(chunks)[i..j];
    x := FoundInChunk(p, chunks, i, j);
  }

  lemma MatchInChunk(p: Pattern, chunks: seq<string>, x: nat)
    requires x < |chunks| && HasMatch(p, chunks[x])
    ensures HasMatch(p, Join(chunks))
  {
    var u :| SubstringOf(u, chunks[x]) && Matches(p, u);
    var i, j :| 0 <= i <= j <= |chunks[x]| && u == chunks[x][i..j];
    ChunkInJoin(chunks, x, i, j);
    SliceIsSubstring(Join(chunks), Offset(chunks, x) + i, Offset(chunks, x) + j);
  }

  // ---- Header, anything, footer -------------------------------------------

  ghost predicate Clean(p: Pattern, chunks: seq<string>) {
    forall x | 0 <= x < |chunks| :: !HasMatch(p, chunks[x])
  }

  /** A header in one chunk and a footer in a later one. */
  ghost predicate Enclosed(h: Pattern, t: Pattern, chunks: seq<string>, a: nat, b: nat) {
    a < b < |chunks| && HasMatch(h, chunks[a]) && HasMatch(t, chunks[b])
  }

  /** With clean chunks, the join holds a match if and only if a header is followed by a footer in a later chunk. */
  lemma BodyMatchesIff(h: Pattern, t: Pattern, chunks: seq<string>)
    requires Lines(chunks) && NewlineFree(h) && NewlineFree(t) && Clean(Body(h, t), chunks)
    ensures HasMatch(Body(h, t), Join(chunks)) <==> exists a, b :: Enclosed(h, t, chunks, a, b)
  {
    if HasMatch(Body(h, t), Join(chunks)) {
      var u :| SubstringOf(u, Join(chunks)) && Matches(Body(h, t), u);
      var i, j :| 0 <= i <= j <= |Join(chunks)| && u == Join(chunks)[i..j];
      var a, b := EnclosedFrom(h, t, chunks, i, j);
    }
    if exists a, b :: Enclosed(h, t, chunks, a, b) {
      var a, b :| Enclosed(h, t, chunks, a, b);
      EnclosedMatches(h, t, chunks, a, b);
    }
  }

  lemma EnclosedFrom(h: Pattern, t: Pattern, chunks: seq<string>, i: nat, j: nat) returns (a: nat, b: nat)
    requires Lines(chunks) && NewlineFree(h) && NewlineFree(t) && Clean(Body(h, t), chunks)
    requires i <= j <= |Join(chunks)| && Matches(Body(h, t), Join(chunks)[i..j])
    ensures Enclosed(h, t, chunks, a, b)
  {
    var x, y := BodyCut(h, t, Join(chunks), i, j);
    a := FoundInChunk(h, chunks, i, x);
    b := FoundInChunk(t, chunks, y, j);
    NotOneChunk(Body(h, t), chunks, a, i, j);
    if b < a {
      OffsetMonotone(chunks, b + 1, a);
    }
  }

  /** A match without newlines lies in a chunk, which holds it. */
  lemma FoundInChunk(p: Pattern, chunks: seq<string>, i: nat, j: nat) returns (x: nat)
    requires Lines(chunks) && NewlineFree(p) && i <= j <= |Join(chunks)| && Matches(p, Join(chunks)[i..j])
    ensures x < |chunks| && Offset(chunks, x) <= i < j <= Offset(chunks, x + 1) && HasMatch(p, chunks[x])
  {
    NewlineFreeMatch(p, Join(chunks)[i..j]);
    x := InOneChunk(chunks, i, j);
    SliceIsSubstring(chunks[x], i - Offset(chunks, x), j - Offset(chunks, x));
  }

  /** A match of a pattern that no chunk holds does not lie in one. */
  lemma NotOneChunk(p: Pattern, chunks: seq<string>, a: nat, i: nat, j: nat)
    requires Clean(p, chunks) && a < |chunks| && i <= j <= |Join(chunks)| && Matches(p, Join(chunks)[i..j])
    ensures Offset(chunks, a) <= i ==> Offset(chunks, a + 1) < j
  {
    ChunkAt(chunks, a);
    var o, e := Offset(chunks, a), Offset(chunks, a + 1);
    if o <= i && j <= e {
      SliceOfSlice(Join(chunks), o, e, i - o, j - o);
      SliceIsSubstring(chunks[a], i - o, j - o);
    }
  }

  lemma EnclosedMatches(h: Pattern, t: Pattern, chunks: seq<string>, a: nat, b: nat)
    requires Lines(chunks) && NewlineFree(h) && Enclosed(h, t, chunks, a, b)
    ensures HasMatch(Body(h, t), Join(chunks))
  {
    var u :| SubstringOf(u, chunks[a]) && Matches(h, u);
    var i, x :| 0 <= i <= x <= |chunks[a]| && u == chunks[a][i..x];
    var v :| SubstringOf(v, chunks[b]) && Matches(t, v);
    var y, j :| 0 <= y <= j <= |chunks[b]| && v == chunks[b][y..j];
    NewlineFreeMatch(h, u);
    NotPast(chunks[a], i, x, |chunks[a]| - 1);
    EnclosedAt(h, t, chunks, a, b, i, x, y, j);
  }

  lemma EnclosedAt(h: Pattern, t: Pattern, chunks: seq<string>, a: nat, b: nat, i: nat, x: nat, y: nat, j: nat)
    requires a < b < |chunks| && i <= x < |chunks[a]| && Matches(h, chunks[a][i..x])
    requires y <= j <= |chunks[b]| && Matches(t, chunks[b][y..j])
    ensures HasMatch(Body(h, t), Join(chunks))
  {
    var s := Join(chunks);
    ChunkAt(chunks, a);
    OffsetMonotone(chunks, a + 1, b);
    ChunkInJoin(chunks, a, i, x);
    ChunkInJoin(chunks, b, y, j);
    BodyJoin(h, t, s, Offset(chunks, a) + i, Offset(chunks, a) + x, Offset(chunks, b) + y, Offset(chunks, b) + j);
    SliceIsSubstring(s, Offset(chunks, a) + i, Offset(chunks, b) + j);
  }

  // ---- Key, white space, secret -------------------------------------------

  function Spaced(key: Pattern, m: nat): Pattern { key + [AtLeast(Space, 1), AtLeast(TokenChar, m)] }

  predicate Blank(s: string) { forall k | 0 <= k < |s| :: IsSpace(s[k]) }

  predicate Tokens(s: string) { forall k | 0 <= k < |s| :: In(s[k], TokenChar) }

  /** The chunk ends in the key and white space. */
  ghost predicate EndsInKey(key: Pattern, s: string) {
    exists x, y :: 0 <= x <= y < |s| && Matches(key, s[x..y]) && Blank(s[y..])
  }

  /** After any white space the chunk begins with at least `m` characters of a secret. */
  ghost predicate BeginsSecret(m: nat, s: string) {
    exists y :: 0 <= y <= |s| - m && Blank(s[..y]) && Tokens(s[y..y + m])
  }

  /** A chunk ends in the key, and the next one that is not blank begins with a secret. */
  ghost predicate Straddled(key: Pattern, m: nat, chunks: seq<string>, a: nat, b: nat) {
    && a < b < |chunks| && EndsInKey(key, chunks[a]) && BeginsSecret(m, chunks[b])
    && forall c | a < c < b :: Blank(chunks[c])
  }

  lemma SpacedCut(key: Pattern, m: nat, s: string, i: nat, j: nat) returns (x: nat, y: nat)
    requires i <= j <= |s| && Matches(Spaced(key, m), s[i..j])
    ensures i <= x < y <= j && y + m <= j && Matches(key, s[i..x]) && Blank(s[x..y]) && Tokens(s[y..j])
  {
    var u := s[i..j];
    var a := MatchesCut(key, [AtLeast(Space, 1), AtLeast(TokenChar, m)], u);
    var c := SpaceThenSecret(m, u[a..]);
    x, y := i + a, i + a + c;
    ThreeParts(s, i, j, a, c);
  }

  lemma ThreeParts(s: string, i: nat, j: nat, a: nat, c: nat)
    requires i + a + c <= j <= |s|
    ensures s[i..j][..a] == s[i..i + a] && s[i..j][a..][..c] == s[i + a..i + a + c]
    ensures s[i..j][a..][c..] == s[i + a + c..j]
  {
    assert s[i..j][a..] == s[i + a..j];
  }

  lemma SpaceThenSecret(m: nat, w: string) returns (c: nat)
    requires Matches([AtLeast(Space, 1), AtLeast(TokenChar, m)], w)
    ensures 0 < c <= |w| - m && Blank(w[..c]) && Tokens(w[c..])
  {
    assert [AtLeast(Space, 1), AtLeast(TokenChar, m)] == [AtLeast(Space, 1)] + [AtLeast(TokenChar, m)];
    c := MatchesCut([AtLeast(Space, 1)], [AtLeast(TokenChar, m)], w);
    MatchesItem(AtLeast(Space, 1), w[..c]);
    MatchesItem(AtLeast(TokenChar, m), w[c..]);
  }

  lemma SpacedJoin(key: Pattern, m: nat, s: string, i: nat, x: nat, y: nat, j: nat)
    requires i <= x < y <= j <= |s| && y + m <= j && Matches(key, s[i..x]) && Blank(s[x..y]) && Tokens(s[y..j])
    ensures Matches(Spaced(key, m), s[i..j])
  {
    MatchesItem(AtLeast(Space, 1), s[x..y]);
    MatchesItem(AtLeast(TokenChar, m), s[y..j]);
    MatchesJoin([AtLeast(Space, 1)], [AtLeast(TokenChar, m)], s[x..y], s[y..j]);
    MatchesJoin(key, [AtLeast(Space, 1)] + [AtLeast(TokenChar, m)], s[i..x], s[x..y] + s[y..j]);
    assert [AtLeast(Space, 1)] + [AtLeast(TokenChar, m)] == [AtLeast(Space, 1), AtLeast(TokenChar, m)];
    assert s[i..x] + (s[x..y] + s[y..j]) == s[i..j];
  }

  lemma BlankSlice(s: string, i: nat, j: nat)
    requires i <= j <= |s|
    ensures Blank(s[i..j]) <==> forall k | i <= k < j :: IsSpace(s[k])
  {
    assert forall k | i <= k < j :: s[k] == s[i..j][k - i];
  }

  lemma TokensSlice(s: string, i: nat, j: nat)
    requires i <= j <= |s|
    ensures Tokens(s[i..j]) <==> forall k | i <= k < j :: In(s[k], TokenChar)
  {
    assert forall k | i <= k < j :: s[k] == s[i..j][k - i];
  }

  lemma TokensNoNewline(s: string)
    requires Tokens(s)
    ensures '\n' !in s
  {
  }

  /**
   With clean chunks, the join holds a match if and only if a chunk ends in
   the key and white space and the next chunk that is not blank begins with
   the secret.
   */
  lemma SpacedMatchesIff(key: Pattern, m: nat, chunks: seq<string>)
    requires Lines(chunks) && NewlineFree(key) && m > 0 && Clean(Spaced(key, m), chunks)
    ensures HasMatch(Spaced(key, m), Join(chunks)) <==> exists a, b :: Straddled(key, m, chunks, a, b)
  {
    if HasMatch(Spaced(key, m), Join(chunks)) {
      var u :| SubstringOf(u, Join(chunks)) && Matches(Spaced(key, m), u);
      var i, j :| 0 <= i <= j <= |Join(chunks)| && u == Join(chunks)[i..j];
      var a, b := StraddledFrom(key, m, chunks, i, j);
    }
    if exists a, b :: Straddled(key, m, chunks, a, b) {
      var a, b :| Straddled(key, m, chunks, a, b);
      StraddledMatches(key, m, chunks, a, b);
    }
  }

  lemma StraddledFrom(key: Pattern, m: nat, chunks: seq<string>, i: nat, j: nat) returns (a: nat, b: nat)
    requires Lines(chunks) && NewlineFree(key) && m > 0 && Clean(Spaced(key, m), chunks)
    requires i <= j <= |Join(chunks)| && Matches(Spaced(key, m), Join(chunks)[i..j])
    ensures Straddled(key, m, chunks, a, b)
  {
    var s := Join(chunks);
    var x, y := SpacedCut(key, m, s, i, j);
    NewlineFreeMatch(key, s[i..x]);
    TokensNoNewline(s[y..j]);
    a := InOneChunk(chunks, i, x);
    b := InOneChunk(chunks, y, j);
    NotOneChunk(Spaced(key, m), chunks, a, i, j);
    if b < a {
      OffsetMonotone(chunks, b + 1, a);
    }
    OffsetMonotone(chunks, a + 1, b);
    BlankSlice(s, x, y);
    TokensSlice(s, y, j);
    KeyAtEnd(key, chunks, a, i, x, y);
    SecretAtStart(m, chunks, b, x, y, j);
    MiddleBlank(chunks, a, b, x, y);
  }

  lemma MiddleBlank(chunks: seq<string>, a: nat, b: nat, x: nat, y: nat)
    requires a < b < |chunks| && x <= Offset(chunks, a + 1) && Offset(chunks, b) <= y <= |Join(chunks)|
    requires forall k | x <= k < y :: IsSpace(Join(chunks)[k])
    ensures forall c | a < c < b :: Blank(chunks[c])
  {
    forall c | a < c < b
      ensures Blank(chunks[c])
    {
      OffsetMonotone(chunks, a + 1, c);
      OffsetMonotone(chunks, c + 1, b);
      ChunkAt(chunks, c);
      BlankSlice(Join(chunks), Offset(chunks, c), Offset(chunks, c + 1));
    }
  }

  lemma KeyAtEnd(key: Pattern, chunks: seq<string>, a: nat, i: nat, x: nat, y: nat)
    requires a < |chunks| && Offset(chunks, a) <= i <= x < Offset(chunks, a + 1) <= y <= |Join(chunks)|
    requires Matches(key, Join(chunks)[i..x]) && forall k | x <= k < y :: IsSpace(Join(chunks)[k])
    ensures EndsInKey(key, chunks[a])
  {
    ChunkAt(chunks, a);
    KeyEndsSlice(key, Join(chunks), Offset(chunks, a), Offset(chunks, a + 1), i, x);
  }

  lemma KeyEndsSlice(key: Pattern, s: string, o: nat, e: nat, i: nat, x: nat)
    requires o <= i <= x < e <= |s| && Matches(key, s[i..x]) && forall k | x <= k < e :: IsSpace(s[k])
    ensures EndsInKey(key, s[o..e])
  {
    SliceOfSlice(s, o, e, i - o, x - o);
    SliceOfSlice(s, o, e, x - o, e - o);
    BlankSlice(s, x, e);
    assert s[o..e][x - o..] == s[o..e][x - o..e - o];
  }

  lemma SecretAtStart(m: nat, chunks: seq<string>, b: nat, x: nat, y: nat, j: nat)
    requires b < |chunks| && x <= Offset(chunks, b) <= y && y + m <= j <= Offset(chunks, b + 1)
    requires Offset(chunks, b + 1) <= |Join(chunks)|
    requires forall k | x <= k < y :: IsSpace(Join(chunks)[k])
    requires forall k | y <= k < j :: In(Join(chunks)[k], TokenChar)
    ensures BeginsSecret(m, chunks[b])
  {
    var o := Offset(chunks, b);
    ChunkAt(chunks, b);
    ChunkInJoin(chunks, b, 0, y - o);
    ChunkInJoin(chunks, b, y - o, y - o + m);
    SecretInChunk(m, Join(chunks), chunks[b], o, y);
  }

  lemma SecretInChunk(m: nat, s: string, chunk: string, o: nat, y: nat)
    requires o <= y && y - o + m <= |chunk| && o + |chunk| <= |s|
    requires s[o..y] == chunk[0..y - o] && s[y..y + m] == chunk[y - o..y - o + m]
    requires (forall k | o <= k < y :: IsSpace(s[k])) && forall k | y <= k < y + m :: In(s[k], TokenChar)
    ensures BeginsSecret(m, chunk)
  {
    BlankSlice(s, o, y);
    TokensSlice(s, y, y + m);
    assert chunk[..y - o] == chunk[0..y - o];
  }

  lemma StraddledMatches(key: Pattern, m: nat, chunks: seq<string>, a: nat, b: nat)
    requires Straddled(key, m, chunks, a, b)
    ensures HasMatch(Spaced(key, m), Join(chunks))
  {
    var i, x :| 0 <= i <= x < |chunks[a]| && Matches(key, chunks[a][i..x]) && Blank(chunks[a][x..]);
    var y :| 0 <= y <= |chunks[b]| - m && Blank(chunks[b][..y]) && Tokens(chunks[b][y..y + m]);
    StraddledAt(key, m, chunks, a, b, i, x, y);
  }

  lemma StraddledAt(key: Pattern, m: nat, chunks: seq<string>, a: nat, b: nat, i: nat, x: nat, y: nat)
    requires a < b < |chunks| && forall c | a < c < b :: Blank(chunks[c])
    requires i <= x < |chunks[a]| && Matches(key, chunks[a][i..x]) && Blank(chunks[a][x..])
    requires y <= |chunks[b]| - m && Blank(chunks[b][..y]) && Tokens(chunks[b][y..y + m])
    ensures HasMatch(Spaced(key, m), Join(chunks))
  {
    var s := Join(chunks);
    var o, e := Offset(chunks, a), Offset(chunks, b);
    ChunkAt(chunks, a);
    OffsetMonotone(chunks, a + 1, b);
    ChunkInJoin(chunks, a, i, x);
    ChunkInJoin(chunks, b, y, y + m);
    BlankBetween(chunks, a, b, x, y);
    BlankSlice(s, o + x, e + y);
    SpacedJoin(key, m, s, o + i, o + x, e + y, e + y + m);
    SliceIsSubstring(s, o + i, e + y + m);
  }

  /** From the end of the key to the beginning of the secret there is white space only. */
  lemma BlankBetween(chunks: seq<string>, a: nat, b: nat, x: nat, y: nat)
    requires a < b < |chunks| && x <= |chunks[a]| && y <= |chunks[b]|
    requires Blank(chunks[a][x..]) && Blank(chunks[b][..y]) && forall c | a < c < b :: Blank(chunks[c])
    ensures Offset(chunks, b) + y <= |Join(chunks)|
    ensures forall k | Offset(chunks, a) + x <= k < Offset(chunks, b) + y :: IsSpace(Join(chunks)[k])
  {
    ChunkAt(chunks, b);
    forall k | Offset(chunks, a) + x <= k < Offset(chunks, b) + y
      ensures IsSpace(Join(chunks)[k])
    {
      assert chunks[..b + 1] == chunks[..b + 1];
      var c := ChunkOf(chunks, k, b + 1);
      OneBlank(chunks, a, b, x, y, c, k);
    }
  }

  lemma OneBlank(chunks: seq<string>, a: nat, b: nat, x: nat, y: nat, c: nat, k: nat)
    requires a < b < |chunks| && x <= |chunks[a]| && y <= |chunks[b]| && c <= b
    requires Blank(chunks[a][x..]) && Blank(chunks[b][..y]) && forall c | a < c < b :: Blank(chunks[c])
    requires Offset(chunks, a) + x <= k < Offset(chunks, b) + y && Offset(chunks, c) <= k < Offset(chunks, c + 1)
    ensures k < |Join(chunks)| && IsSpace(Join(chunks)[k])
  {
    ChunkAt(chunks, c);
    ChunkAt(chunks, a);
    var s, o := Join(chunks), Offset(chunks, c);
    assert s[o..Offset(chunks, c + 1)][k - o] == s[k];
    if c < a {
      OffsetMonotone(chunks, c + 1, a);
    } else if c == a {
      assert chunks[a][x..][k - o - x] == chunks[a][k - o];
    } else if c == b {
      assert chunks[b][..y][k - o] == chunks[b][k - o];
    }
  }
}
