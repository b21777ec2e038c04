/**
 Which JSON values the whole pipeline masks.  The passes that take no quote
 work segment by segment and keep the fields, so the two JSON passes see the
 fields of the input, save that the third pass may write over a name that the
 fourth would look for.
 */
module SanitizedJson {
  import opened Prelude
  import opened Regex
  import opened Masking
  import opened Sanitize
  import opened Segments
  import opened JsonFields
  import opened JsonMasking
  import opened JsonSegments
  import KeyBlocks

  // ---- Passes without quotes ----------------------------------------------

  /** The passes before the last that are not for JSON. */
  const PLAIN: set<nat> := {0, 1, 4, 5, 6}

  lemma FoldedTakesNoQuote(s: string)
    requires '"' !in s
    ensures TakesNoQuote(Folded(s))
  {
  }

  lemma JoinTakesNoQuote(p: Pattern, q: Pattern)
    requires TakesNoQuote(p) && TakesNoQuote(q)
    ensures TakesNoQuote(p + q)
  {
  }

  lemma TableIsPlain(k: nat)
    requires k in PLAIN
    ensures PlainRule(Rules()[k])
  {
    RulesWellFormed();
    MasksAreMaskText(k);
    TableTakesNoQuote(k);
  }

  lemma TableTakesNoQuote(k: nat)
    requires k in PLAIN
    ensures TakesNoQuote(Rules()[k].pattern)
  {
    FoldedTakesNoQuote("bearer");
    FoldedTakesNoQuote("client_secret");
    FoldedTakesNoQuote("token-val");
    FoldedTakesNoQuote("key-auth");
    FoldedTakesNoQuote(".auth-key-");
    JoinTakesNoQuote(Folded(".auth-key-"), [AtLeast(TokenChar, 8)]);
    JoinTakesNoQuote([AtLeast(TokenChar, 10)], Folded(".auth-key-") + [AtLeast(TokenChar, 8)]);
    JoinTakesNoQuote(Folded("bearer"), [AtLeast(Space, 1), AtLeast(TokenChar, 10)]);
    JoinTakesNoQuote(Folded("client_secret"), [One(Exact('=')), AtLeast(TokenChar, 8)]);
    JoinTakesNoQuote(Folded("token-val"), [AtLeast(Space, 1), AtLeast(TokenChar, 8)]);
    JoinTakesNoQuote(Folded("key-auth"), [AtLeast(Space, 1), AtLeast(TokenChar, 10)]);
  }

  /** A pass leaves a text as it is, or leaves a star in it. */
  lemma SubChanges(r: Rule, w: string)
    requires WellFormed(r)
    ensures Sub(r, w) == w || ('*' in Sub(r, w) && w != "")
  {
    match First(r, w)
    case None =>
    case Some(f) =>
      assert (Before(r, w, f) + r.mask + (After(r, w, f) + Sub(r, w[f.End()..])))[|Before(r, w, f)|] == '*';
  }

  /** A name holds none of the characters that every plain pattern needs. */
  lemma NameIsClean(k: nat, name: string, w: string)
    requires k in PLAIN && IsName(name) && Spells(name, w)
    ensures !HasMatch(Rules()[k].pattern, w)
  {
    TelltaleItem(k);
    forall i | 0 <= i < |w|
      ensures !In(w[i], Rules()[k].pattern[Telltale(k)].cls)
    {
      assert In(w[i], Folded(name)[i].cls);
    }
    NoMatchWithout(Rules()[k].pattern, w, Telltale(k));
  }

  lemma LastItem(k: nat)
    requires k in PLAIN
    ensures var p := Rules()[k].pattern; p != [] && p[|p| - 1].cls == TokenChar && p[|p| - 1].min > 0
  {
  }

  lemma ColonIsClean(k: nat, w: string)
    requires k in PLAIN && IsColon(w)
    ensures !HasMatch(Rules()[k].pattern, w)
  {
    LastItem(k);
    NoMatchWithout(Rules()[k].pattern, w, |Rules()[k].pattern| - 1);
  }

  /** A pass that leaves names and colons alone. */
  ghost predicate SparesLabels(r: Rule) {
    && WellFormed(r)
    && (forall name, w | IsName(name) && Spells(name, w) :: !HasMatch(r.pattern, w))
    && (forall w | IsColon(w) :: !HasMatch(r.pattern, w))
  }

  lemma TableSparesLabels(k: nat)
    requires k in PLAIN
    ensures SparesLabels(Rules()[k])
  {
    RulesWellFormed();
    forall name, w | IsName(name) && Spells(name, w)
      ensures !HasMatch(Rules()[k].pattern, w)
    {
      NameIsClean(k, name, w);
    }
    forall w | IsColon(w)
      ensures !HasMatch(Rules()[k].pattern, w)
    {
      ColonIsClean(k, w);
    }
  }

  lemma NameKept(r: Rule, name: string, w: string)
    requires SparesLabels(r) && IsName(name)
    ensures Spells(name, Sub(r, w)) <==> Spells(name, w)
  {
    SubChanges(r, w);
    if Spells(name, w) {
      SubNothing(r, w);
    }
    NoStarInName(name, Sub(r, w));
  }

  lemma NoStarInName(name: string, w: string)
    requires IsName(name)
    ensures Spells(name, w) ==> '*' !in w
  {
    if Spells(name, w) {
      StarFreeName(name, w);
    }
  }

  lemma StarFreeName(name: string, w: string)
    requires IsName(name) && Spells(name, w)
    ensures '*' !in w
  {
    forall i | 0 <= i < |w|
      ensures w[i] != '*'
    {
      assert In(w[i], Folded(name)[i].cls);
    }
  }

  lemma ColonKept(r: Rule, w: string)
    requires SparesLabels(r)
    ensures IsColon(Sub(r, w)) <==> IsColon(w)
  {
    SubChanges(r, w);
    if IsColon(w) {
      SubNothing(r, w);
    }
  }

  /** Such a pass keeps the fields. */
  lemma FieldKept(r: Rule, name: string, segs: seq<string>, segs': seq<string>, i: nat)
    requires SparesLabels(r) && IsName(name) && |segs| == |segs'|
    requires forall j | 0 <= j < |segs| :: segs'[j] == Sub(r, segs[j])
    ensures FieldAt(name, segs, i) <==> FieldAt(name, segs', i)
  {
    if 1 <= i && i + 3 < |segs| {
      NameKept(r, name, segs[i]);
      ColonKept(r, segs[i + 1]);
      EmptyKept(r, segs[i + 2]);
      SameField(name, segs, segs', i);
    }
  }

  lemma EmptyKept(r: Rule, w: string)
    requires WellFormed(r)
    ensures Sub(r, w) == "" <==> w == ""
  {
    SubChanges(r, w);
  }

  lemma SameField(name: string, segs: seq<string>, segs': seq<string>, i: nat)
    requires |segs| == |segs'| && i + 2 < |segs|
    requires Spells(name, segs[i]) <==> Spells(name, segs'[i])
    requires IsColon(segs[i + 1]) <==> IsColon(segs'[i + 1])
    requires segs[i + 2] == "" <==> segs'[i + 2] == ""
    ensures FieldAt(name, segs', i) <==> FieldAt(name, segs, i)
  {
  }

  /** The scan sees fields only. */
  lemma {:induction false} MarksSame(name: string, segs: seq<string>, segs': seq<string>, n: nat)
    requires |segs| == |segs'| && forall i: nat :: FieldAt(name, segs, i) <==> FieldAt(name, segs', i)
    ensures Marks(name, segs, n) == Marks(name, segs', n)
    decreases |segs| - n
  {
    if n + 4 < |segs| {
      MarksSame(name, segs, segs', n + 1);
      MarksSame(name, segs, segs', n + 4);
    }
  }

  // ---- The two JSON passes ------------------------------------------------

  const SECRET_MASK: string := "***MASKED_SECRET***"
  const TOKEN_MASK: string := "***MASKED_TOKEN***"

  function Secrets(segs: seq<string>): set<nat> { Marks("client_secret", segs, 0) }

  function AfterSecrets(segs: seq<string>): seq<string> { Written(segs, Secrets(segs), SECRET_MASK) }

  /** The fourth pass looks at what the third one left. */
  function Tokens(segs: seq<string>): set<nat> { Marks("access_token", AfterSecrets(segs), 0) }

  function AfterTokens(segs: seq<string>): seq<string> { Written(AfterSecrets(segs), Tokens(segs), TOKEN_MASK) }

  lemma CleanSub(k: nat, w: string)
    requires k in PLAIN && !HasMatch(Rules()[k].pattern, w)
    ensures WellFormed(Rules()[k]) && Sub(Rules()[k], w) == w
  {
    RulesWellFormed();
    SubNothing(Rules()[k], w);
  }

  lemma JsonMasks()
    ensures Rules()[2].mask == SECRET_MASK && Rules()[3].mask == TOKEN_MASK
  {
  }

  lemma MaskKept(k: nat, mask: string)
    requires k in PLAIN && mask in {SECRET_MASK, TOKEN_MASK}
    ensures WellFormed(Rules()[k]) && Sub(Rules()[k], mask) == mask
  {
    JsonMasks();
    MaskHoldsNoMatch(k, 2);
    MaskHoldsNoMatch(k, 3);
    CleanSub(k, mask);
  }

  /** Such a pass may as well come after a JSON pass. */
  lemma PlainCommutes(r: Rule, name: string, segs: seq<string>, mask: string)
    requires SparesLabels(r) && IsName(name) && Sub(r, mask) == mask
    ensures Written(Each(r, segs), Marks(name, Each(r, segs), 0), mask) ==
            Each(r, Written(segs, Marks(name, segs, 0), mask))
  {
    forall i: nat
      ensures FieldAt(name, segs, i) <==> FieldAt(name, Each(r, segs), i)
    {
      FieldKept(r, name, segs, Each(r, segs), i);
    }
    MarksSame(name, segs, Each(r, segs), 0);
  }

  lemma FieldNames()
    ensures IsName("client_secret") && IsName("access_token")
  {
  }

  lemma PlainBeforeSecrets(r: Rule, segs: seq<string>)
    requires SparesLabels(r) && Sub(r, SECRET_MASK) == SECRET_MASK
    ensures AfterSecrets(Each(r, segs)) == Each(r, AfterSecrets(segs))
  {
    FieldNames();
    PlainCommutes(r, "client_secret", segs, SECRET_MASK);
  }

  lemma PlainBeforeTokens(r: Rule, segs: seq<string>, after: seq<string>)
    requires SparesLabels(r) && Sub(r, TOKEN_MASK) == TOKEN_MASK
    requires after == AfterSecrets(segs) && AfterSecrets(Each(r, segs)) == Each(r, after)
    ensures AfterTokens(Each(r, segs)) == Each(r, AfterTokens(segs))
  {
    FieldNames();
    PlainCommutes(r, "access_token", after, TOKEN_MASK);
  }

  lemma PlainBeforeJson(r: Rule, k: nat, segs: seq<string>)
    requires k in PLAIN && r == Rules()[k]
    ensures WellFormed(r) && AfterTokens(Each(r, segs)) == Each(r, AfterTokens(segs))
  {
    TableSparesLabels(k);
    MaskKept(k, SECRET_MASK);
    MaskKept(k, TOKEN_MASK);
    PlainBeforeSecrets(r, segs);
    PlainBeforeTokens(r, segs, AfterSecrets(segs));
  }

  lemma JsonPass(r: Rule, name: string, segs: seq<string>)
    requires JsonRule(r, name) && Segmented(segs) && '"' !in r.mask
    ensures Sub(r, Glue(segs)) == Glue(Written(segs, Marks(name, segs, 0), r.mask))
    ensures Segmented(Written(segs, Marks(name, segs, 0), r.mask))
  {
    var w := Written(segs, Marks(name, segs, 0), r.mask);
    SubIsWritten(r, name, segs, 0);
    assert Glue(segs)[0..] == Glue(segs) && w[0..] == w;
  }

  lemma JsonPasses(segs: seq<string>)
    requires Segmented(segs)
    ensures WellFormed(Rules()[2]) && WellFormed(Rules()[3])
    ensures Segmented(AfterSecrets(segs)) && Sub(Rules()[2], Glue(segs)) == Glue(AfterSecrets(segs))
    ensures Segmented(AfterTokens(segs)) && Sub(Rules()[3], Sub(Rules()[2], Glue(segs))) == Glue(AfterTokens(segs))
  {
    TableRules();
    JsonPass(Rules()[2], "client_secret", segs);
    JsonPass(Rules()[3], "access_token", AfterSecrets(segs));
  }

  // ---- The pipeline by segments -------------------------------------------

  /** What the plain passes make of a segment. */
  ghost function Kept(w: string): string {
    RulesWellFormed();
    Sub(Rules()[6], Sub(Rules()[5], Sub(Rules()[4], Sub(Rules()[1], Sub(Rules()[0], w)))))
  }

  ghost function EachKept(segs: seq<string>): (t: seq<string>)
    ensures |t| == |segs|
  {
    seq(|segs|, j requires 0 <= j < |segs| => Kept(segs[j]))
  }

  lemma OnePlainPass(k: nat, segs: seq<string>)
    requires k in PLAIN && Segmented(segs)
    ensures WellFormed(Rules()[k]) && Segmented(Each(Rules()[k], segs))
    ensures Sub(Rules()[k], Glue(segs)) == Glue(Each(Rules()[k], segs))
  {
    TableIsPlain(k);
    SubIsEach(Rules()[k], segs);
  }

  /**
   Up to the last pass, every segment is by itself: JSON passes on the input's
   own fields, plain passes on what is left.
   */
  lemma PassesBySegment(s: string)
    ensures Segmented(EachKept(AfterTokens(Segs(s)))) && Passes(s, 7) == Glue(EachKept(AfterTokens(Segs(s))))
  {
    RulesWellFormed();
    var segs := Segs(s);
    var a := Each(Rules()[0], segs);
    var b := Each(Rules()[1], a);
    SegsGlue(s);
    OnePlainPass(0, segs);
    OnePlainPass(1, a);
    FirstPasses(s, b);
    JsonPasses(b);
    PlainBeforeJson(Rules()[0], 0, segs);
    PlainBeforeJson(Rules()[1], 1, a);
    var c := AfterTokens(b);
    var d := Each(Rules()[4], c);
    var e := Each(Rules()[5], d);
    OnePlainPass(4, c);
    OnePlainPass(5, d);
    OnePlainPass(6, e);
    LastPasses(s, c, d, e);
    assert Each(Rules()[6], e) == EachKept(AfterTokens(segs));
  }

  lemma FirstPasses(s: string, b: seq<string>)
    requires b != [] && WellFormed(Rules()[0]) && WellFormed(Rules()[1])
    requires Sub(Rules()[1], Sub(Rules()[0], s)) == Glue(b)
    ensures Passes(s, 2) == Glue(b)
  {
    RulesWellFormed();
    assert Passes(s, 0) == s;
    assert Passes(s, 1) == Sub(Rules()[0], s);
  }

  lemma LastPasses(s: string, c: seq<string>, d: seq<string>, e: seq<string>)
    requires forall k | 2 <= k < 7 :: WellFormed(Rules()[k])
    requires c != [] && d != [] && e != [] && Sub(Rules()[3], Sub(Rules()[2], Passes(s, 2))) == Glue(c)
    requires Sub(Rules()[4], Glue(c)) == Glue(d) && Sub(Rules()[5], Glue(d)) == Glue(e)
    ensures Passes(s, 7) == Sub(Rules()[6], Glue(e))
  {
    RulesWellFormed();
    assert Passes(s, 3) == Sub(Rules()[2], Passes(s, 2));
    assert Passes(s, 4) == Sub(Rules()[3], Passes(s, 3));
    assert Passes(s, 5) == Sub(Rules()[4], Passes(s, 4));
    assert Passes(s, 6) == Sub(Rules()[5], Passes(s, 5));
  }

  // ---- What becomes of a text ---------------------------------------------

  lemma {:induction false} EmptyIsKept(n: nat)
    requires n <= |Rules()|
    ensures Passes("", n) == ""
  {
    RulesWellFormed();
    forall k | 0 <= k < n
      ensures !HasMatch(Rules()[k].pattern, "")
    {
      NoMatchWithout(Rules()[k].pattern, "", 0);
    }
    CleanTextUnchanged("", n);
  }

  lemma KeptMask(mask: string)
    requires mask in {SECRET_MASK, TOKEN_MASK}
    ensures Kept(mask) == mask
  {
    MaskKept(0, mask);
    MaskKept(1, mask);
    MaskKept(4, mask);
    MaskKept(5, mask);
    MaskKept(6, mask);
  }

  /** Segment `j` of what the last pass is given. */
  ghost predicate OutcomeOk(segs: seq<string>, out: seq<string>, j: nat)
    requires j < |segs| == |out|
  {
    out[j] == if j in Tokens(segs) then TOKEN_MASK else if j in Secrets(segs) then SECRET_MASK else Kept(segs[j])
  }

  /** The pipeline makes `out` of the segments of `s` before the last pass runs over the whole. */
  ghost predicate BecomesAll(s: string, out: seq<string>) {
    && |out| == |Segs(s)| && (forall j | 0 <= j < |out| :: OutcomeOk(Segs(s), out, j))
    && Segmented(out) && WellFormed(Rules()[7]) && Sanitized(s) == Sub(Rules()[7], Glue(out))
  }

  /**
   What the pipeline makes of any text: the masked values are masks, every
   other segment is what the five plain passes make of it alone, and then the
   private-key pass runs over the whole.
   */
  lemma SanitizedBySegment(s: string) returns (out: seq<string>)
    ensures BecomesAll(s, out)
  {
    var segs := Segs(s);
    out := EachKept(AfterTokens(segs));
    PassesBySegment(s);
    LastPass(s);
    forall j | 0 <= j < |out|
      ensures OutcomeOk(segs, out, j)
    {
      OutcomeIs(segs, out, j);
    }
  }

  lemma OutcomeIs(segs: seq<string>, out: seq<string>, j: nat)
    requires out == EachKept(AfterTokens(segs)) && j < |segs|
    ensures OutcomeOk(segs, out, j)
  {
    KeptMask(SECRET_MASK);
    KeptMask(TOKEN_MASK);
    assert out[j] == Kept(AfterTokens(segs)[j]);
  }

  lemma LastPass(s: string)
    ensures WellFormed(Rules()[7]) && Sanitized(s) == Sub(Rules()[7], Passes(s, 7))
  {
    RulesWellFormed();
    EmptyIsKept(8);
    assert Passes(s, 8) == Sub(Rules()[7], Passes(s, 7));
  }

  // ---- Which values are masked --------------------------------------------

  function Masked(segs: seq<string>): set<nat> { Secrets(segs) + Tokens(segs) }

  /** A JSON pass puts its mask in the place of the value. */
  ghost predicate ValueMasked(s: string, m: Field) {
    exists j :: j in Masked(Segs(s)) && j < |Segs(s)| && Pos(Segs(s), j) == m.from
  }

  lemma NamesDiffer(segs: seq<string>, i: nat)
    ensures !(FieldAt("client_secret", segs, i) && FieldAt("access_token", segs, i))
  {
  }

  lemma MaskIsNoLabel(name: string, mask: string)
    requires IsName(name) && mask in {SECRET_MASK, TOKEN_MASK}
    ensures !Spells(name, mask) && !IsColon(mask)
  {
    NoStarInName(name, mask);
  }

  /** The fourth pass finds the fields whose name the third has not written over. */
  lemma Survives(segs: seq<string>, i: nat)
    ensures FieldAt("access_token", AfterSecrets(segs), i) <==> FieldAt("access_token", segs, i) && i !in Secrets(segs)
  {
    MarksAreValues("client_secret", segs, 0);
    MaskIsNoLabel("access_token", SECRET_MASK);
    var w := AfterSecrets(segs);
    if 1 <= i && i + 3 < |segs| {
      assert FieldAt("access_token", segs, i) ==> !FieldAt("client_secret", segs, i - 1);
    }
  }

  /** A value is masked if and only if its own segment is. */
  lemma ValueIs(segs: seq<string>, i: nat)
    requires i + 2 < |segs|
    ensures i + 2 in Masked(segs) <==> exists j :: j in Masked(segs) && j < |segs| && Pos(segs, j) == Pos(segs, i + 2)
  {
    forall j: nat | j < |segs| && Pos(segs, j) == Pos(segs, i + 2)
      ensures j == i + 2
    {
      SameIndex(segs, j, i + 2);
    }
  }

  lemma SecretSegment(segs: seq<string>, i: nat)
    requires FieldAt("client_secret", segs, i)
    ensures i + 2 in Masked(segs) <==> i + 2 in Secrets(segs)
  {
    MarksAreValues("access_token", AfterSecrets(segs), 0);
    Survives(segs, i);
    NamesDiffer(segs, i);
  }

  lemma TokenSegment(segs: seq<string>, i: nat)
    requires FieldAt("access_token", segs, i)
    ensures i + 2 in Masked(segs) <==> i + 2 in Tokens(segs)
    ensures i + 2 in Tokens(segs) ==> i !in Secrets(segs)
  {
    MarksAreValues("client_secret", segs, 0);
    MarksAreValues("access_token", AfterSecrets(segs), 0);
    Survives(segs, i);
    NamesDiffer(segs, i);
  }

  /**
   A client secret is masked if and only if its field does not begin inside
   one that the third pass, on the input, consumes.
   */
  lemma SecretMaskedIff(s: string, m: Field)
    requires IsField("client_secret", s, m)
    ensures WellFormed(Rules()[2]) && (ValueMasked(s, m) <==> !Hidden(Rules()[2], s, m))
  {
    var segs := Segs(s);
    SegsGlue(s);
    TableRules();
    var i := FieldIndex("client_secret", segs, m);
    SecretSegment(segs, i);
    ValueIs(segs, i);
    ScannedIff(Rules()[2], "client_secret", segs, i);
  }

  lemma ScannedIff(r: Rule, name: string, segs: seq<string>, i: nat)
    requires JsonRule(r, name) && Segmented(segs) && FieldAt(name, segs, i)
    ensures i + 2 in Marks(name, segs, 0) <==> !Hidden(r, Glue(segs), At(segs, i))
  {
    var s, m := Glue(segs), At(segs, i);
    SegmentsAreField(name, segs, i);
    ConsumedAreMarks(r, name, segs, 0, i);
    ConsumedInOrder(r, name, s, 0);
    if m in Consumed(r, s, 0) {
      forall c | c in Consumed(r, s, 0)
        ensures !BeginsInside(c, m)
      {
        ApartInOrder(name, s, 0, Consumed(r, s, 0), c, m);
      }
    } else {
      var c := ConsumedOrHidden(r, name, s, 0, m);
    }
  }

  /**
   An access token is masked if and only if the third pass has not written
   over its name and its field, where that pass has left it, does not begin
   inside one that the fourth consumes.
   */
  lemma TokenMaskedIff(s: string, i: nat)
    requires FieldAt("access_token", Segs(s), i)
    ensures WellFormed(Rules()[2]) && WellFormed(Rules()[3])
    ensures Sub(Rules()[2], s) == Glue(AfterSecrets(Segs(s)))
    ensures ValueMasked(s, At(Segs(s), i)) <==>
              i !in Secrets(Segs(s)) && !Hidden(Rules()[3], Sub(Rules()[2], s), At(AfterSecrets(Segs(s)), i))
  {
    var segs := Segs(s);
    SegsGlue(s);
    TableRules();
    JsonPasses(segs);
    TokenSegment(segs, i);
    ValueIs(segs, i);
    Survives(segs, i);
    if i !in Secrets(segs) {
      ScannedIff(Rules()[3], "access_token", AfterSecrets(segs), i);
    }
  }

  // ---- When all of them are -----------------------------------------------

  /** Every value of a client_secret or access_token field is masked. */
  ghost predicate AllMasked(s: string) {
    forall m | IsField("client_secret", s, m) || IsField("access_token", s, m) :: ValueMasked(s, m)
  }

  /** No client_secret field has a value that is the name of an access_token field. */
  ghost predicate NoClash(s: string) {
    forall c, m | IsField("client_secret", s, c) && IsField("access_token", s, m) :: m.start != c.from - 1
  }

  /** All the scan finds in the segments is marked. */
  ghost predicate AllMarked(name: string, segs: seq<string>) {
    forall i: nat | FieldAt(name, segs, i) :: i + 2 in Marks(name, segs, 0)
  }

  /** One pass by segments: all marked if and only if no two fields of the text overlap. */
  lemma AllMarkedIff(r: Rule, name: string, segs: seq<string>)
    requires JsonRule(r, name) && Segmented(segs)
    ensures AllMarked(name, segs) <==> NoOverlap(name, Glue(segs))
  {
    var s := Glue(segs);
    AllMaskedIff(r, name, s);
    if AllMarked(name, segs) {
      forall m | IsField(name, s, m)
        ensures !Hidden(r, s, m)
      {
        var i := FieldIndex(name, segs, m);
        ScannedIff(r, name, segs, i);
      }
    }
    if NoneHidden(r, name, s) {
      forall i: nat | FieldAt(name, segs, i)
        ensures i + 2 in Marks(name, segs, 0)
      {
        SegmentsAreField(name, segs, i);
        ScannedIff(r, name, segs, i);
      }
    }
  }

  /** No name is written over, by segments. */
  ghost predicate NamesLeft(segs: seq<string>) {
    forall i: nat | FieldAt("client_secret", segs, i) :: !FieldAt("access_token", segs, i + 2)
  }

  lemma NoClashIff(segs: seq<string>)
    requires Segmented(segs)
    ensures NoClash(Glue(segs)) <==> NamesLeft(segs)
  {
    var s := Glue(segs);
    FieldNames();
    if NamesLeft(segs) {
      forall c, m | IsField("client_secret", s, c) && IsField("access_token", s, m)
        ensures m.start != c.from - 1
      {
        var i := FieldIndex("client_secret", segs, c);
        var j := FieldIndex("access_token", segs, m);
        InsideIff(segs, i, j);
      }
    }
    if NoClash(s) {
      forall i: nat | FieldAt("client_secret", segs, i)
        ensures !FieldAt("access_token", segs, i + 2)
      {
        if FieldAt("access_token", segs, i + 2) {
          ClashInText(segs, i);
        }
      }
    }
  }

  lemma ClashInText(segs: seq<string>, i: nat)
    requires Segmented(segs) && FieldAt("client_secret", segs, i) && FieldAt("access_token", segs, i + 2)
    ensures !NoClash(Glue(segs))
  {
    SegmentsAreField("client_secret", segs, i);
    SegmentsAreField("access_token", segs, i + 2);
    InsideIff(segs, i, i + 2);
  }

  /** With the names left alone, overlaps are the same before and after the third pass. */
  lemma OverlapKept(segs: seq<string>, segs': seq<string>, name: string)
    requires IsName(name) && Segmented(segs) && Segmented(segs') && |segs| == |segs'|
    requires forall i: nat :: FieldAt(name, segs, i) <==> FieldAt(name, segs', i)
    ensures NoOverlap(name, Glue(segs)) ==> NoOverlap(name, Glue(segs'))
  {
    if NoOverlap(name, Glue(segs)) {
      forall c, m | IsField(name, Glue(segs'), c) && IsField(name, Glue(segs'), m)
        ensures !BeginsInside(c, m)
      {
        var i := FieldIndex(name, segs', c);
        var j := FieldIndex(name, segs', m);
        SegmentsAreField(name, segs, i);
        SegmentsAreField(name, segs, j);
        InsideIff(segs, i, j);
        InsideIff(segs', i, j);
      }
    }
  }

  /** All values are masked if and only if each pass marks all its fields and the third leaves the names alone. */
  lemma AllMaskedBySegment(s: string)
    ensures AllMasked(s) <==> forall i: nat ::
      && (FieldAt("client_secret", Segs(s), i) ==> i + 2 in Secrets(Segs(s)))
      && (FieldAt("access_token", Segs(s), i) ==> i + 2 in Tokens(Segs(s)))
  {
    var segs := Segs(s);
    SegsGlue(s);
    FieldNames();
    forall i: nat
      ensures FieldAt("client_secret", segs, i) ==> (ValueMasked(s, At(segs, i)) <==> i + 2 in Secrets(segs))
      ensures FieldAt("access_token", segs, i) ==> (ValueMasked(s, At(segs, i)) <==> i + 2 in Tokens(segs))
    {
      OneValue(s, segs, i);
    }
    if AllMasked(s) {
      forall i: nat
        ensures FieldAt("client_secret", segs, i) ==> i + 2 in Secrets(segs)
        ensures FieldAt("access_token", segs, i) ==> i + 2 in Tokens(segs)
      {
        FieldsInText(s, segs, i);
      }
    } else {
      var m :| (IsField("client_secret", s, m) || IsField("access_token", s, m)) && !ValueMasked(s, m);
      if IsField("client_secret", s, m) {
        var i := FieldIndex("client_secret", segs, m);
      } else {
        var i := FieldIndex("access_token", segs, m);
      }
    }
  }

  lemma OneValue(s: string, segs: seq<string>, i: nat)
    requires segs == Segs(s)
    ensures FieldAt("client_secret", segs, i) ==> (ValueMasked(s, At(segs, i)) <==> i + 2 in Secrets(segs))
    ensures FieldAt("access_token", segs, i) ==> (ValueMasked(s, At(segs, i)) <==> i + 2 in Tokens(segs))
  {
    if FieldAt("client_secret", segs, i) {
      ValueIs(segs, i);
      SecretSegment(segs, i);
    }
    if FieldAt("access_token", segs, i) {
      ValueIs(segs, i);
      TokenSegment(segs, i);
    }
  }

  lemma FieldsInText(s: string, segs: seq<string>, i: nat)
    requires Segmented(segs) && s == Glue(segs)
    ensures FieldAt("client_secret", segs, i) ==> IsField("client_secret", s, At(segs, i))
    ensures FieldAt("access_token", segs, i) ==> IsField("access_token", s, At(segs, i))
  {
    if FieldAt("client_secret", segs, i) {
      SegmentsAreField("client_secret", segs, i);
    }
    if FieldAt("access_token", segs, i) {
      SegmentsAreField("access_token", segs, i);
    }
  }

  /**
   The pipeline masks every client secret and every access token of a text if
   and only if no two fields of one name overlap and no client_secret field
   has a value that is the name of an access_token field.
   */
  lemma SanitizedMasksAllIff(s: string) returns (out: seq<string>)
    ensures BecomesAll(s, out)
    ensures AllMasked(s) <==> NoOverlap("client_secret", s) && NoOverlap("access_token", s) && NoClash(s)
  {
    out := SanitizedBySegment(s);
    AllMaskedIffApart(s, Segs(s));
  }

  lemma AllMaskedIffApart(s: string, segs: seq<string>)
    requires segs == Segs(s)
    ensures AllMasked(s) <==> NoOverlap("client_secret", s) && NoOverlap("access_token", s) && NoClash(s)
  {
    SegsGlue(s);
    TableRules();
    JsonPasses(segs);
    AllMaskedBySegment(s);
    AllMarkedIff(Rules()[2], "client_secret", segs);
    AllMarkedIff(Rules()[3], "access_token", AfterSecrets(segs));
    NoClashIff(segs);
    if AllMasked(s) {
      AllImpliesApart(s, segs);
    }
    if NoOverlap("client_secret", s) && NoOverlap("access_token", s) && NoClash(s) {
      ApartImpliesAll(s, segs);
    }
  }

  lemma AllImpliesApart(s: string, segs: seq<string>)
    requires Segmented(segs) && Segmented(AfterSecrets(segs)) && s == Glue(segs)
    requires AllMarked("client_secret", segs) <==> NoOverlap("client_secret", s)
    requires AllMarked("access_token", AfterSecrets(segs)) <==> NoOverlap("access_token", Glue(AfterSecrets(segs)))
    requires forall i: nat :: FieldAt("client_secret", segs, i) ==> i + 2 in Secrets(segs)
    requires forall i: nat :: FieldAt("access_token", segs, i) ==> i + 2 in Tokens(segs)
    ensures NoOverlap("client_secret", s) && NoOverlap("access_token", s) && NamesLeft(segs)
  {
    FieldNames();
    forall i: nat
      ensures FieldAt("access_token", segs, i) <==> FieldAt("access_token", AfterSecrets(segs), i)
      ensures FieldAt("access_token", segs, i) ==> i !in Secrets(segs)
    {
      Survives(segs, i);
      if FieldAt("access_token", segs, i) {
        TokenSegment(segs, i);
      }
    }
    OverlapKept(AfterSecrets(segs), segs, "access_token");
  }

  lemma ApartImpliesAll(s: string, segs: seq<string>)
    requires Segmented(segs) && Segmented(AfterSecrets(segs)) && s == Glue(segs)
    requires AllMarked("client_secret", segs) <==> NoOverlap("client_secret", s)
    requires AllMarked("access_token", AfterSecrets(segs)) <==> NoOverlap("access_token", Glue(AfterSecrets(segs)))
    requires NoOverlap("client_secret", s) && NoOverlap("access_token", s) && NamesLeft(segs)
    ensures forall i: nat :: FieldAt("client_secret", segs, i) ==> i + 2 in Secrets(segs)
    ensures forall i: nat :: FieldAt("access_token", segs, i) ==> i + 2 in Tokens(segs)
  {
    FieldNames();
    MarksAreValues("client_secret", segs, 0);
    forall i: nat
      ensures FieldAt("access_token", segs, i) <==> FieldAt("access_token", AfterSecrets(segs), i)
    {
      Survives(segs, i);
      if i in Secrets(segs) {
        assert FieldAt("client_secret", segs, i - 2);
      }
    }
    OverlapKept(segs, AfterSecrets(segs), "access_token");
  }

  // ---- A name written over ------------------------------------------------

  /** Two labels that share a segment: its value is the second one's name. */
  function Nested(name: string, w: string, b: string): seq<string> { ["", name, ":", w, ":", b, ""] }

  const NAME: string := "client_secret"
  const INNER: string := "access_token"

  function NestedText(b: string): string { Label(NAME) + FieldText(INNER, b) }

  function NestedResult(b: string): string { Label(NAME) + "\"" + SECRET_MASK + "\":" + JsonMasking.Quoted(b) }

  lemma NestedGlue(name: string, w: string, b: string)
    ensures Glue(Nested(name, w, b)) == Label(name) + ("\"" + w + "\":" + JsonMasking.Quoted(b))
  {
    var segs := Nested(name, w, b);
    GlueTail(segs, 0);
    GlueTail(segs, 1);
    GlueTail(segs, 2);
    GlueTail(segs, 3);
    GlueTail(segs, 4);
    GlueTail(segs, 5);
    assert segs[0..] == segs && segs[6..] == [""];
    Unquoted(name, w, b);
  }

  lemma Unquoted(name: string, w: string, b: string)
    ensures Quote("", Quote(name, Quote(":", Quote(w, Quote(":", Quote(b, ""))))))
         == Label(name) + ("\"" + w + "\":" + JsonMasking.Quoted(b))
  {
    LastLabel(w, b);
    FirstLabel(name, Quote(w, Quote(":", Quote(b, ""))));
  }

  lemma LastLabel(w: string, b: string)
    ensures "\"" + Quote(w, Quote(":", Quote(b, ""))) == "\"" + w + "\":" + JsonMasking.Quoted(b)
  {
    var rest := JsonMasking.Quoted(b);
    assert Quote(":", Quote(b, "")) == ":" + rest;
    assert "\"" + (":" + rest) == "\":" + rest;
    Join3("\"", w, "\":" + rest);
    Join3("\"" + w, "\":", rest);
  }

  lemma FirstLabel(name: string, rest: string)
    ensures Quote("", Quote(name, Quote(":", rest))) == Label(name) + ("\"" + rest)
  {
  }

  lemma NestedIs(b: string)
    ensures NestedText(b) == Glue(Nested(NAME, INNER, b)) && NestedResult(b) == Glue(Nested(NAME, SECRET_MASK, b))
  {
    NestedGlue(NAME, INNER, b);
    NestedGlue(NAME, SECRET_MASK, b);
    LabelOfName(INNER);
    Join3(Label(NAME), Label(INNER), JsonMasking.Quoted(b));
    Join3(Label(NAME), "\"" + SECRET_MASK + "\":", JsonMasking.Quoted(b));
    Join3(Label(NAME), "\"" + SECRET_MASK, "\":");
    Join3(Label(NAME), "\"", SECRET_MASK);
  }

  lemma LabelOfName(name: string)
    ensures "\"" + name + "\":" == Label(name)
  {
  }

  lemma SpellsItself(name: string)
    requires IsName(name)
    ensures Spells(name, name)
  {
  }

  lemma NestedSecrets(segs: seq<string>, b: string)
    requires IsValue(b) && segs == Nested(NAME, INNER, b)
    ensures Segmented(segs) && FieldAt(NAME, segs, 1) && FieldAt(INNER, segs, 3) && Secrets(segs) == {3}
  {
    FieldNames();
    SpellsItself(NAME);
    SpellsItself(INNER);
    assert Marks(NAME, segs, 4) == {};
  }

  lemma NestedTokens(segs: seq<string>, b: string)
    requires IsValue(b) && segs == Nested(NAME, INNER, b) && Secrets(segs) == {3}
    ensures AfterSecrets(segs) == Nested(NAME, SECRET_MASK, b) && Tokens(segs) == {}
  {
    var w := AfterSecrets(segs);
    FieldNames();
    MaskIsNoLabel(INNER, SECRET_MASK);
    assert w == segs[3 := SECRET_MASK];
    assert !FieldAt(INNER, w, 1) && !FieldAt(INNER, w, 2) && !FieldAt(INNER, w, 3);
    assert Marks(INNER, w, 3) == {};
    assert Marks(INNER, w, 2) == {};
    assert Marks(INNER, w, 1) == {};
  }

  /** No pattern of the six matches in the text. */
  ghost predicate HoldsNone(b: string) {
    forall k | k in CLEARED :: !HasMatch(Rules()[k].pattern, b)
  }

  lemma CleanIsKept(w: string)
    requires forall k | k in PLAIN :: !HasMatch(Rules()[k].pattern, w)
    ensures Kept(w) == w
  {
    CleanSub(0, w);
    CleanSub(1, w);
    CleanSub(4, w);
    CleanSub(5, w);
    CleanSub(6, w);
  }

  lemma LabelsAreKept(name: string)
    requires IsName(name)
    ensures Kept("") == "" && Kept(":") == ":" && Kept(name) == name
  {
    SpellsItself(name);
    forall k | k in PLAIN
      ensures !HasMatch(Rules()[k].pattern, "") && !HasMatch(Rules()[k].pattern, ":")
      ensures !HasMatch(Rules()[k].pattern, name)
    {
      LabelsAreClean(k, name);
    }
    CleanIsKept("");
    CleanIsKept(":");
    CleanIsKept(name);
  }

  lemma LabelsAreClean(k: nat, name: string)
    requires k in PLAIN && IsName(name) && Spells(name, name)
    ensures !HasMatch(Rules()[k].pattern, "") && !HasMatch(Rules()[k].pattern, ":")
    ensures !HasMatch(Rules()[k].pattern, name)
  {
    RulesWellFormed();
    NoMatchWithout(Rules()[k].pattern, "", 0);
    ColonIsClean(k, ":");
    NameIsClean(k, name, name);
  }

  /** Of seven segments the fourth is masked and the others stay. */
  lemma FourthIsMasked(segs: seq<string>, out: seq<string>)
    requires |segs| == |out| == 7 && Secrets(segs) == {3} && Tokens(segs) == {}
    requires forall j | 0 <= j < 7 :: OutcomeOk(segs, out, j)
    requires forall j | 0 <= j < 7 && j != 3 :: Kept(segs[j]) == segs[j]
    ensures out == segs[3 := SECRET_MASK]
  {
    forall j | 0 <= j < 7
      ensures out[j] == segs[3 := SECRET_MASK][j]
    {
      assert OutcomeOk(segs, out, j);
    }
  }

  lemma OthersAreKept(name: string, w: string, b: string, segs: seq<string>)
    requires segs == Nested(name, w, b)
    requires Kept("") == "" && Kept(":") == ":" && Kept(name) == name && Kept(b) == b
    ensures forall j | 0 <= j < 7 && j != 3 :: Kept(segs[j]) == segs[j]
  {
    assert segs[0] == "" && segs[1] == name && segs[2] == ":" && segs[4] == ":" && segs[5] == b && segs[6] == "";
    forall j | 0 <= j < 7 && j != 3
      ensures Kept(segs[j]) == segs[j]
    {
      assert j == 0 || j == 1 || j == 2 || j == 4 || j == 5 || j == 6;
    }
  }

  lemma NestedUpdate(name: string, w: string, v: string, b: string)
    ensures Nested(name, w, b)[3 := v] == Nested(name, v, b)
  {
  }

  lemma NoKeyInResult(b: string)
    requires HoldsNone(b)
    ensures WellFormed(Rules()[7]) && Sub(Rules()[7], NestedResult(b)) == NestedResult(b)
  {
    var x := Label(NAME) + "\"" + SECRET_MASK + "\":";
    KeyBlocks.LastRule();
    assert KeyBlocks.DashFree(x + "\"");
    KeyBlocks.DashFreeAround(KeyFence("BEGIN"), KeyFence("END"), x + "\"", b, "\"");
    Join3(x, "\"", b + "\"");
    QuotedIs(b);
    SubNothing(Rules()[7], NestedResult(b));
  }

  lemma QuotedIs(b: string)
    ensures JsonMasking.Quoted(b) == "\"" + (b + "\"")
  {
  }

  /**
   A client_secret field whose value is the name of an access_token field: no
   two fields of one name overlap, and yet the token comes through.
   */
  lemma NestedTokenSurvives(b: string)
    requires IsValue(b) && HoldsNone(b)
    ensures Sanitized(NestedText(b)) == NestedResult(b)
    ensures NoOverlap(NAME, NestedText(b)) && NoOverlap(INNER, NestedText(b)) && !NoClash(NestedText(b))
  {
    var segs := Nested(NAME, INNER, b);
    FieldNames();
    NestedIs(b);
    NestedSecrets(segs, b);
    NestedApart(segs);
    ClashInText(segs, 1);
    NestedSanitized(segs, b);
  }

  lemma NestedSanitized(segs: seq<string>, b: string)
    requires IsValue(b) && HoldsNone(b) && segs == Nested(NAME, INNER, b) && Segmented(segs) && Secrets(segs) == {3}
    requires NestedText(b) == Glue(segs) && NestedResult(b) == Glue(Nested(NAME, SECRET_MASK, b))
    ensures Sanitized(NestedText(b)) == NestedResult(b)
  {
    FieldNames();
    NestedTokens(segs, b);
    GlueSegs(segs);
    var out := SanitizedBySegment(NestedText(b));
    LabelsAreKept(NAME);
    CleanIsKept(b);
    OthersAreKept(NAME, INNER, b, segs);
    FourthIsMasked(segs, out);
    NestedUpdate(NAME, INNER, SECRET_MASK, b);
    NoKeyInResult(b);
  }

  /** Seven segments have room for one field of a name that stands at most at one place. */
  lemma NestedApart(segs: seq<string>)
    requires Segmented(segs) && |segs| == 7 && FieldAt(NAME, segs, 1) && FieldAt(INNER, segs, 3)
    ensures NoOverlap(NAME, Glue(segs)) && NoOverlap(INNER, Glue(segs))
  {
    FieldNames();
    OnlyAt(NAME, segs, 1);
    OnlyAt(INNER, segs, 3);
  }

  lemma OnlyAt(name: string, segs: seq<string>, n: nat)
    requires IsName(name) && Segmented(segs) && forall i: nat | FieldAt(name, segs, i) :: i == n
    ensures NoOverlap(name, Glue(segs))
  {
    forall c, m | IsField(name, Glue(segs), c) && IsField(name, Glue(segs), m)
      ensures !BeginsInside(c, m)
    {
      var i := FieldIndex(name, segs, c);
      var j := FieldIndex(name, segs, m);
    }
  }
}
