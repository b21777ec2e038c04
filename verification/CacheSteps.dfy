/**
 The client's token cache under concurrency.  Any number of goroutines run
 `GetToken` and `Revoke`; every lock operation, map access, network answer and
 sweep iteration is one step, in any order the RW lock permits.
 */
module CacheSteps {
  import opened Prelude
  import opened Types

  // ---- Instants and lifetimes ---------------------------------------------

  const MAX_DURATION: int := 0x7FFF_FFFF_FFFF_FFFF
  const MIN_DURATION: int := -0x8000_0000_0000_0000

  /** `t.Sub(u)` saturates. */
  function Since(t: Time, u: Time): Duration {
    if t - u > MAX_DURATION then MAX_DURATION else if t - u < MIN_DURATION then MIN_DURATION else t - u
  }

  /** `time.Duration(seconds) * time.Second` wraps around at 64 bits. */
  function Seconds(seconds: int): Duration {
    (seconds * SECOND - MIN_DURATION) % 0x1_0000_0000_0000_0000 + MIN_DURATION
  }

  datatype Entry = Entry(token: string, expiresAt: Time)

  type Cache = map<string, Entry>

  /** The test both lookups make: `cached.expiresAt.Sub(now) > c.expiryBuffer`. */
  predicate Fresh(e: Entry, now: Time, buffer: Duration) {
    Since(e.expiresAt, now) > buffer
  }

  predicate Hit(cache: Cache, key: string, now: Time, buffer: Duration) {
    key in cache && Fresh(cache[key], now, buffer)
  }

  /** The cache without the entries that hold `token`. */
  function Without(cache: Cache, token: string): Cache {
    map k | k in cache && cache[k].token != token :: cache[k]
  }

  // ---- Goroutines ---------------------------------------------------------

  type Tid = nat

  /** What a `GetToken` returns; `cached` tells a cache hit from a fetch. */
  datatype Outcome = Got(token: string, cached: bool) | Failed

  datatype Pc =
    | Called(key: string, now: Time)                       // clock read
    | Reading(key: string, now: Time)                      // holds the read lock
    | ReadHit(key: string, now: Time, token: string)       // hit, still holds the read lock
    | ReadMiss(key: string, now: Time)                     // missed, still holds the read lock
    | Gap(key: string, now: Time)                          // between the two locks
    | Rechecking(key: string, now: Time)                   // holds the write lock
    | Fetching(key: string, now: Time)                     // request under way, holds the write lock
    | Leaving(key: string, now: Time, outcome: Outcome)    // decided, deferred unlock to come
    | Returned(key: string, now: Time, outcome: Outcome)
    | Revoking(token: string)                              // request to the server under way
    | Sweeper(token: string)                               // server said yes, waits for the write lock
    | Sweeping(token: string, todo: set<string>)           // ranges over the map, holds the write lock
    | Swept(token: string)
    | RevokeFailed(token: string)

  predicate HoldsRead(pc: Pc) { pc.Reading? || pc.ReadHit? || pc.ReadMiss? }

  predicate HoldsWrite(pc: Pc) { pc.Rechecking? || pc.Fetching? || pc.Leaving? || pc.Sweeping? }

  datatype Event =
    | Fetched(key: string, now: Time, token: string, life: Duration)
    | Evicted(key: string, token: string)

  datatype State = State(cache: Cache, readers: set<Tid>, writer: Option<Tid>, pcs: map<Tid, Pc>, log: seq<Event>)

  datatype Step =
    | Call(t: Tid, key: string, now: Time)
    | RLock(t: Tid)
    | Read(t: Tid)
    | RUnlock(t: Tid)
    | Lock(t: Tid)
    | Recheck(t: Tid)
    | FetchOk(t: Tid, token: string, expiresIn: int)
    | FetchErr(t: Tid)
    | Unlock(t: Tid)
    | CallRevoke(t: Tid, token: string)
    | RevokeReply(t: Tid, ok: bool)
    | SweepOne(t: Tid, key: string)

  function PcOf(s: State, t: Tid): Option<Pc> {
    if t in s.pcs then Some(s.pcs[t]) else None
  }

  predicate Enabled(s: State, step: Step) {
    var pc := PcOf(s, step.t);
    match step
    case Call(_, _, _) => pc.None?
    case RLock(_) => pc.Some? && pc.value.Called? && s.writer.None?
    case Read(_) => pc.Some? && pc.value.Reading?
    case RUnlock(_) => pc.Some? && (pc.value.ReadHit? || pc.value.ReadMiss?)
    case Lock(_) => pc.Some? && (pc.value.Gap? || pc.value.Sweeper?) && s.writer.None? && s.readers == {}
    case Recheck(_) => pc.Some? && pc.value.Rechecking?
    case FetchOk(_, _, _) => pc.Some? && pc.value.Fetching?
    case FetchErr(_) => pc.Some? && pc.value.Fetching?
    case Unlock(_) => pc.Some? && (pc.value.Leaving? || (pc.value.Sweeping? && pc.value.todo == {}))
    case CallRevoke(_, _) => pc.None?
    case RevokeReply(_, _) => pc.Some? && pc.value.Revoking?
    case SweepOne(_, key) => pc.Some? && pc.value.Sweeping? && key in pc.value.todo
  }

  /** The program counter of the stepping goroutine afterwards. */
  function Next(buffer: Duration, s: State, step: Step): Pc
    requires Enabled(s, step)
  {
    match step
    case Call(_, key, now) => Called(key, now)
    case RLock(t) => Reading(s.pcs[t].key, s.pcs[t].now)
    case Read(t) =>
      var pc := s.pcs[t];
      if Hit(s.cache, pc.key, pc.now, buffer) then ReadHit(pc.key, pc.now, s.cache[pc.key].token)
      else ReadMiss(pc.key, pc.now)
    case RUnlock(t) =>
      var pc := s.pcs[t];
      if pc.ReadHit? then Returned(pc.key, pc.now, Got(pc.token, true)) else Gap(pc.key, pc.now)
    case Lock(t) =>
      var pc := s.pcs[t];
      if pc.Gap? then Rechecking(pc.key, pc.now) else Sweeping(pc.token, s.cache.Keys)
    case Recheck(t) =>
      var pc := s.pcs[t];
      if Hit(s.cache, pc.key, pc.now, buffer) then Leaving(pc.key, pc.now, Got(s.cache[pc.key].token, true))
      else Fetching(pc.key, pc.now)
    case FetchOk(t, token, _) => Leaving(s.pcs[t].key, s.pcs[t].now, Got(token, false))
    case FetchErr(t) => Leaving(s.pcs[t].key, s.pcs[t].now, Failed)
    case Unlock(t) =>
      var pc := s.pcs[t];
      if pc.Leaving? then Returned(pc.key, pc.now, pc.outcome) else Swept(pc.token)
    case CallRevoke(_, token) => Revoking(token)
    case RevokeReply(t, ok) => if ok then Sweeper(s.pcs[t].token) else RevokeFailed(s.pcs[t].token)
    case SweepOne(t, key) => Sweeping(s.pcs[t].token, s.pcs[t].todo - {key})
  }

  /** The cache and what is recorded about it; only a fetched answer and the sweep write the map. */
  function CacheAfter(s: State, step: Step): (Cache, seq<Event>)
    requires Enabled(s, step)
  {
    match step
    case FetchOk(t, token, expiresIn) =>
      var pc := s.pcs[t];
      (s.cache[pc.key := Entry(token, pc.now + Seconds(expiresIn))],
       s.log + [Fetched(pc.key, pc.now, token, Seconds(expiresIn))])
    case SweepOne(t, key) =>
      if key in s.cache && s.cache[key].token == s.pcs[t].token
      then (s.cache - {key}, s.log + [Evicted(key, s.pcs[t].token)])
      else (s.cache, s.log)
    case _ => (s.cache, s.log)
  }

  function Apply(buffer: Duration, s: State, step: Step): State
    requires Enabled(s, step)
  {
    var t := step.t;
    var pc := Next(buffer, s, step);
    State(CacheAfter(s, step).0,
          if HoldsRead(pc) then s.readers + {t} else s.readers - {t},
          if HoldsWrite(pc) then Some(t) else if s.writer == Some(t) then None else s.writer,
          s.pcs[t := pc],
          CacheAfter(s, step).1)
  }

  const START: State := State(map[], {}, None, map[], [])

  // ---- What every step keeps ----------------------------------------------

  /** The lock is what the program counters say it is: many readers or one writer. */
  ghost predicate LockOk(s: State) {
    && (forall t | t in s.readers :: t in s.pcs)
    && (forall t | t in s.pcs :: t in s.readers <==> HoldsRead(s.pcs[t]))
    && (forall t | t in s.pcs :: s.writer == Some(t) <==> HoldsWrite(s.pcs[t]))
    && (s.writer.Some? ==> s.writer.value in s.pcs && s.readers == {})
  }

  /** Whoever fetches has found nothing fresh, and the write lock keeps it so. */
  ghost predicate FetchersMissed(buffer: Duration, s: State) {
    forall t | t in s.pcs && s.pcs[t].Fetching? :: !Hit(s.cache, s.pcs[t].key, s.pcs[t].now, buffer)
  }

  /** During a sweep, only keys still to be visited can hold the swept token. */
  ghost predicate SweepOk(s: State) {
    forall t | t in s.pcs && s.pcs[t].Sweeping? ::
      forall k | k in s.cache && s.cache[k].token == s.pcs[t].token :: k in s.pcs[t].todo
  }

  ghost predicate Inv(buffer: Duration, s: State) {
    LockOk(s) && FetchersMissed(buffer, s) && SweepOk(s)
  }

  lemma StepKeepsLock(buffer: Duration, s: State, step: Step)
    requires LockOk(s) && Enabled(s, step)
    ensures LockOk(Apply(buffer, s, step))
  {
  }

  lemma StepKeepsInv(buffer: Duration, s: State, step: Step)
    requires Inv(buffer, s) && Enabled(s, step)
    ensures Inv(buffer, Apply(buffer, s, step))
  {
    StepKeepsLock(buffer, s, step);
  }

  // ---- The log ------------------------------------------------------------

  /** The entry that the latest event about `key` left behind. */
  function CachedBy(log: seq<Event>, key: string): Option<Entry> {
    if log == [] then None
    else
      var e := log[|log| - 1];
      if e.key != key then CachedBy(log[..|log| - 1], key)
      else if e.Fetched? then Some(Entry(e.token, e.now + e.life))
      else None
  }

  /** No fetch happened while the previous entry for its key was fresh at its clock reading. */
  ghost predicate Spaced(buffer: Duration, log: seq<Event>) {
    log == [] ||
    var before, e := log[..|log| - 1], log[|log| - 1];
    && Spaced(buffer, before)
    && (e.Fetched? && CachedBy(before, e.key).Some? ==> !Fresh(CachedBy(before, e.key).value, e.now, buffer))
  }

  function Lookup(cache: Cache, key: string): Option<Entry> {
    if key in cache then Some(cache[key]) else None
  }

  ghost predicate LogOk(buffer: Duration, s: State) {
    && (forall k :: Lookup(s.cache, k) == CachedBy(s.log, k))
    && Spaced(buffer, s.log)
  }

  lemma LogStep(buffer: Duration, log: seq<Event>, e: Event)
    requires Spaced(buffer, log)
    requires e.Fetched? && CachedBy(log, e.key).Some? ==> !Fresh(CachedBy(log, e.key).value, e.now, buffer)
    ensures Spaced(buffer, log + [e])
    ensures forall k :: CachedBy(log + [e], k) ==
              if k != e.key then CachedBy(log, k) else if e.Fetched? then Some(Entry(e.token, e.now + e.life)) else None
  {
    assert (log + [e])[..|log|] == log;
  }

  lemma StepKeepsLog(buffer: Duration, s: State, step: Step)
    requires Inv(buffer, s) && LogOk(buffer, s) && Enabled(s, step)
    ensures LogOk(buffer, Apply(buffer, s, step))
  {
    var s' := Apply(buffer, s, step);
    if s'.log != s.log {
      var e := s'.log[|s.log|];
      assert s'.log == s.log + [e];
      assert Lookup(s.cache, e.key) == CachedBy(s.log, e.key);
      LogStep(buffer, s.log, e);
    }
  }

  // ---- Runs ---------------------------------------------------------------

  /** The state after the first `n` steps. */
  ghost function At(buffer: Duration, steps: seq<Step>, n: nat): State
    requires n <= |steps|
  {
    if n == 0 then START
    else
      var s := At(buffer, steps, n - 1);
      if Enabled(s, steps[n - 1]) then Apply(buffer, s, steps[n - 1]) else s
  }

  ghost predicate Taken(buffer: Duration, steps: seq<Step>, n: nat)
    requires n < |steps|
  {
    Enabled(At(buffer, steps, n), steps[n])
  }

  /** Any schedule of any number of goroutines. */
  ghost predicate Run(buffer: Duration, steps: seq<Step>) {
    forall n | 0 <= n < |steps| :: Taken(buffer, steps, n)
  }

  lemma {:induction false} RunKeepsInv(buffer: Duration, steps: seq<Step>, n: nat)
    requires Run(buffer, steps) && n <= |steps|
    ensures Inv(buffer, At(buffer, steps, n)) && LogOk(buffer, At(buffer, steps, n))
  {
    if n > 0 {
      RunKeepsInv(buffer, steps, n - 1);
      assert Taken(buffer, steps, n - 1);
      StepKeepsInv(buffer, At(buffer, steps, n - 1), steps[n - 1]);
      StepKeepsLog(buffer, At(buffer, steps, n - 1), steps[n - 1]);
    }
  }

  lemma {:induction false} AtPrefix(buffer: Duration, steps: seq<Step>, more: seq<Step>, n: nat)
    requires n <= |steps|
    ensures At(buffer, steps + more, n) == At(buffer, steps, n)
  {
    if n > 0 {
      AtPrefix(buffer, steps, more, n - 1);
    }
  }

  lemma RunExtends(buffer: Duration, steps: seq<Step>, step: Step)
    requires Run(buffer, steps) && Enabled(At(buffer, steps, |steps|), step)
    ensures Run(buffer, steps + [step])
    ensures At(buffer, steps + [step], |steps| + 1) == Apply(buffer, At(buffer, steps, |steps|), step)
  {
    AtPrefix(buffer, steps, [step], |steps|);
    forall n | 0 <= n <= |steps|
      ensures Taken(buffer, steps + [step], n)
    {
      AtPrefix(buffer, steps, [step], n);
      assert n < |steps| ==> Taken(buffer, steps, n);
    }
  }

  // ---- Every call comes to an end -----------------------------------------

  predicate Finished(pc: Pc) { pc.Returned? || pc.Swept? || pc.RevokeFailed? }

  predicate NewCall(step: Step) { step.Call? || step.CallRevoke? }

  /** The step by which the holder of a lock goes on. */
  function HolderStep(t: Tid, pc: Pc, key: string): Step {
    match pc
    case Reading(_, _) => Read(t)
    case Rechecking(_, _) => Recheck(t)
    case Fetching(_, _) => FetchErr(t)
    case Sweeping(_, todo) => if key in todo then SweepOne(t, key) else Unlock(t)
    case Leaving(_, _, _) => Unlock(t)
    case _ => RUnlock(t)
  }

  lemma HolderCanStep(s: State, t: Tid) returns (step: Step)
    requires t in s.pcs && (HoldsRead(s.pcs[t]) || HoldsWrite(s.pcs[t]))
    ensures Enabled(s, step) && !NewCall(step) && !step.RLock?
  {
    var pc := s.pcs[t];
    if pc.Sweeping? && pc.todo != {} {
      var key :| key in pc.todo;
      step := HolderStep(t, pc, key);
    } else {
      step := HolderStep(t, pc, "");
    }
  }

  /** Waits for the write lock. */
  predicate WantsWrite(pc: Pc) { pc.Gap? || pc.Sweeper? }

  /**
   Nobody waits in vain: while a call is unfinished, it or somebody it waits
   for can take a step, even where no reader is let in before a writer.
   */
  lemma SomeoneCanStep(s: State, t: Tid) returns (step: Step)
    requires LockOk(s) && t in s.pcs && !Finished(s.pcs[t])
    ensures Enabled(s, step) && !NewCall(step)
    ensures step.RLock? ==> forall u | u in s.pcs :: !WantsWrite(s.pcs[u])
  {
    var pc := s.pcs[t];
    if HoldsRead(pc) || HoldsWrite(pc) {
      step := HolderCanStep(s, t);
    } else if pc.Revoking? {
      step := RevokeReply(t, false);
    } else if s.writer.Some? {
      step := HolderCanStep(s, s.writer.value);
    } else if s.readers != {} {
      var r :| r in s.readers;
      step := HolderCanStep(s, r);
    } else if u :| u in s.pcs && WantsWrite(s.pcs[u]) {
      step := Lock(u);
    } else {
      step := RLock(t);
    }
  }

  /** So no schedule gets stuck before every call is finished. */
  lemma NeverStuck(buffer: Duration, steps: seq<Step>, n: nat, t: Tid) returns (step: Step)
    requires Run(buffer, steps) && n <= |steps|
    requires t in At(buffer, steps, n).pcs && !Finished(At(buffer, steps, n).pcs[t])
    ensures Enabled(At(buffer, steps, n), step) && !NewCall(step)
    ensures step.RLock? ==> forall u | u in At(buffer, steps, n).pcs :: !WantsWrite(At(buffer, steps, n).pcs[u])
  {
    RunKeepsInv(buffer, steps, n);
    step := SomeoneCanStep(At(buffer, steps, n), t);
  }

  /** How far a call still has to go, a sweep counting as one stretch. */
  function Rank(pc: Pc): nat {
    match pc
    case Called(_, _) => 8
    case Reading(_, _) => 7
    case ReadHit(_, _, _) => 6
    case ReadMiss(_, _) => 6
    case Gap(_, _) => 5
    case Rechecking(_, _) => 4
    case Fetching(_, _) => 3
    case Leaving(_, _, _) => 2
    case Revoking(_) => 3
    case Sweeper(_) => 2
    case Sweeping(_, _) => 1
    case _ => 0
  }

  ghost function Work(pcs: map<Tid, Pc>): nat
    decreases |pcs|
  {
    if pcs == map[] then 0
    else
      var t :| t in pcs;
      Rank(pcs[t]) + Work(pcs - {t})
  }

  lemma {:induction false} WorkWithout(pcs: map<Tid, Pc>, t: Tid)
    requires t in pcs
    ensures Work(pcs) == Rank(pcs[t]) + Work(pcs - {t})
    decreases |pcs|
  {
    var u :| u in pcs && Work(pcs) == Rank(pcs[u]) + Work(pcs - {u});
    if u != t {
      WorkWithout(pcs - {u}, t);
      WorkWithout(pcs - {t}, u);
      assert pcs - {u} - {t} == pcs - {t} - {u};
    }
  }

  lemma WorkAfter(pcs: map<Tid, Pc>, t: Tid, pc: Pc)
    requires t in pcs
    ensures Work(pcs[t := pc]) == Work(pcs) - Rank(pcs[t]) + Rank(pc)
  {
    WorkWithout(pcs, t);
    WorkWithout(pcs[t := pc], t);
    assert pcs[t := pc] - {t} == pcs - {t};
  }

  /** The keys that a sweep under way has still to visit. */
  function Unvisited(s: State): nat {
    if s.writer.Some? && s.writer.value in s.pcs && s.pcs[s.writer.value].Sweeping?
    then |s.pcs[s.writer.value].todo| else 0
  }

  /** Every step that begins no call brings some call nearer to its end, so without new calls all come to an end. */
  lemma StepsRunOut(buffer: Duration, s: State, step: Step)
    requires LockOk(s) && Enabled(s, step) && !NewCall(step)
    ensures var s' := Apply(buffer, s, step);
      || Work(s'.pcs) < Work(s.pcs)
      || (Work(s'.pcs) == Work(s.pcs) && Unvisited(s') < Unvisited(s))
  {
    WorkAfter(s.pcs, step.t, Next(buffer, s, step));
    RankFalls(buffer, s, step);
    if step.SweepOne? {
      VisitedIsGone(buffer, s, step.t, step.key);
    }
  }

  lemma RankFalls(buffer: Duration, s: State, step: Step)
    requires Enabled(s, step) && !NewCall(step)
    ensures var before, after := Rank(s.pcs[step.t]), Rank(Next(buffer, s, step));
      if step.SweepOne? then after == before else after < before
  {
  }

  lemma VisitedIsGone(buffer: Duration, s: State, t: Tid, key: string)
    requires LockOk(s) && Enabled(s, SweepOne(t, key))
    ensures Unvisited(Apply(buffer, s, SweepOne(t, key))) < Unvisited(s)
  {
    assert s.writer == Some(t);
    assert |s.pcs[t].todo - {key}| < |s.pcs[t].todo|;
  }

  // ---- How often the client fetches ---------------------------------------

  lemma {:induction false} LastFetchCounts(log: seq<Event>, i: nat, j: nat)
    requires i < j <= |log| && log[i].Fetched?
    requires forall m | i < m < j :: log[m].key != log[i].key
    ensures CachedBy(log[..j], log[i].key) == Some(Entry(log[i].token, log[i].now + log[i].life))
    decreases j
  {
    assert log[..j][..j - 1] == log[..j - 1];
    if i + 1 < j {
      LastFetchCounts(log, i, j - 1);
    }
  }

  lemma {:induction false} SpacedPrefix(buffer: Duration, log: seq<Event>, n: nat)
    requires Spaced(buffer, log) && n <= |log|
    ensures Spaced(buffer, log[..n])
    decreases |log|
  {
    if n < |log| {
      SpacedPrefix(buffer, log[..|log| - 1], n);
      assert log[..|log| - 1][..n] == log[..n];
    } else {
      assert log[..n] == log;
    }
  }

  /**
   Two consecutive fetches for one resource without an eviction in between
   have clock readings at least the first lifetime minus the buffer apart,
   whatever the clock did, and the later one raises the expiry.  Only the
   largest buffer of all is an exception: no saturated difference exceeds it,
   so nothing is ever fresh.
   */
  lemma FetchesAreSpaced(buffer: Duration, steps: seq<Step>, n: nat, i: nat, j: nat)
    requires Run(buffer, steps) && n <= |steps|
    requires var log := At(buffer, steps, n).log;
      && i < j < |log| && log[i].Fetched? && log[j].Fetched? && log[i].key == log[j].key
      && forall m | i < m < j :: log[m].key != log[i].key
    ensures var log := At(buffer, steps, n).log;
      if buffer == MAX_DURATION then forall e, now :: !Fresh(e, now, buffer)
      else
        && log[j].now - log[i].now >= log[i].life - buffer
        && (log[j].life > buffer ==> log[j].now + log[j].life > log[i].now + log[i].life)
  {
    var log := At(buffer, steps, n).log;
    RunKeepsInv(buffer, steps, n);
    SpacedPrefix(buffer, log, j + 1);
    assert log[..j + 1][..j] == log[..j];
    LastFetchCounts(log, i, j);
  }

  /** A fetch for `key` with its clock reading in the window. */
  predicate InWindow(e: Event, key: string, from: Time, width: nat) {
    e.Fetched? && e.key == key && from <= e.now <= from + width
  }

  /** How many such fetches are among the events `a..b` of the log. */
  function Fetches(log: seq<Event>, key: string, from: Time, width: nat, a: nat, b: nat): nat
    requires b <= |log|
  {
    if b <= a then 0
    else Fetches(log, key, from, width, a, b - 1) + if InWindow(log[b - 1], key, from, width) then 1 else 0
  }

  /** A stretch of the log without an eviction of `key`, in which every fetch for it brings at least `life`. */
  predicate Undisturbed(log: seq<Event>, key: string, a: nat, b: nat, life: Duration)
    requires a <= b <= |log|
  {
    forall m | a <= m < b && log[m].key == key :: log[m].Fetched? && life <= log[m].life
  }

  lemma ProductBound(n: nat, d: int, w: int)
    requires 0 < d && 0 <= w && n * d <= w
    ensures n <= w / d
  {
    var q := w / d;
    assert w - q * d < d;
    assert (n - q) * d < d by { Distribute(n, q, d); }
    SmallProduct(n - q, d);
  }

  lemma Distribute(n: int, q: int, d: int)
    ensures (n - q) * d == n * d - q * d
  {
  }

  lemma SmallProduct(k: int, d: int)
    requires 0 < d
    ensures k * d < d ==> k <= 0
  {
  }

  lemma AddOne(n: nat, d: int)
    ensures n * d + d == (n + 1) * d
  {
  }

  /** `n` fetches in a window push the expiry up `n - 1` times; fetches outside it only push further. */
  lemma {:induction false} FetchesPushExpiry(buffer: Duration, log: seq<Event>, key: string, a: nat, b: nat,
                                             life: Duration, from: Time, width: nat)
    requires Spaced(buffer, log) && a <= b <= |log| && buffer < life && Undisturbed(log, key, a, b, life)
    ensures var n := Fetches(log, key, from, width, a, b);
      n > 0 ==>
        && CachedBy(log[..b], key).Some?
        && CachedBy(log[..b], key).value.expiresAt >= from + (n - 1) * (life - buffer) + life
        && (n - 1) * (life - buffer) <= width
    decreases b
  {
    if a < b {
      var e := log[b - 1];
      assert log[..b][..b - 1] == log[..b - 1];
      FetchesPushExpiry(buffer, log, key, a, b - 1, life, from, width);
      if e.key == key {
        SpacedPrefix(buffer, log, b);
        if Fetches(log, key, from, width, a, b - 1) > 0 {
          AddOne(Fetches(log, key, from, width, a, b - 1) - 1, life - buffer);
        }
      }
    }
  }

  lemma FetchesInLog(buffer: Duration, log: seq<Event>, key: string, a: nat, b: nat, life: Duration, from: Time,
                     width: nat)
    requires Spaced(buffer, log) && a <= b <= |log| && buffer < life && Undisturbed(log, key, a, b, life)
    ensures Fetches(log, key, from, width, a, b) <= 1 + width / (life - buffer)
  {
    FetchesPushExpiry(buffer, log, key, a, b, life, from, width);
    CountBound(Fetches(log, key, from, width, a, b), life - buffer, width);
  }

  lemma CountBound(n: nat, d: int, width: nat)
    requires 0 < d && (n > 0 ==> (n - 1) * d <= width)
    ensures n <= 1 + width / d
  {
    if n > 0 {
      ProductBound(n - 1, d, width);
    }
  }

  /**
   In any stretch without an eviction of `key` whose fetches bring lifetimes
   above the buffer, at most 1 + width / (life - buffer) fetches have their
   clock readings in a window of length `width`, however the clock moves in
   and out of it: one for callers at the same instant.
   */
  lemma FetchesInWindow(buffer: Duration, steps: seq<Step>, n: nat, key: string, a: nat, b: nat,
                        life: Duration, from: Time, width: nat)
    requires Run(buffer, steps) && n <= |steps| && buffer < life
    requires a <= b <= |At(buffer, steps, n).log| && Undisturbed(At(buffer, steps, n).log, key, a, b, life)
    ensures Fetches(At(buffer, steps, n).log, key, from, width, a, b) <= 1 + width / (life - buffer)
  {
    RunKeepsInv(buffer, steps, n);
    FetchesInLog(buffer, At(buffer, steps, n).log, key, a, b, life, from, width);
  }
}
