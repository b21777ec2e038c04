/**
 Two-phase `GetToken` under interleaving refines one atomic step: return the
 live entry for the key at the caller's clock reading, else fetch and store.
 Eviction likewise happens at one point.
 */
module CacheLinearizable {
  import opened Prelude
  import opened Types
  import opened CacheSteps

  // ---- The atomic specification -------------------------------------------

  datatype AtomicCall =
    | Pending(key: string, now: Time)
    | Answered(key: string, now: Time, outcome: Outcome)
    | RevokePending(token: string)
    | RevokeDone(token: string)
    | RevokeGaveUp(token: string)

  datatype Atomic = Atomic(cache: Cache, calls: map<Tid, AtomicCall>)

  datatype Op =
    | Invoke(t: Tid, key: string, now: Time)
    | Get(t: Tid, answer: Option<(string, Duration)>)   // what the server would answer, should it be asked
    | InvokeRevoke(t: Tid, token: string)
    | Evict(t: Tid)
    | GiveUp(t: Tid)

  predicate Ready(a: Atomic, op: Op) {
    match op
    case Invoke(t, _, _) => t !in a.calls
    case InvokeRevoke(t, _) => t !in a.calls
    case Get(t, _) => t in a.calls && a.calls[t].Pending?
    case Evict(t) => t in a.calls && a.calls[t].RevokePending?
    case GiveUp(t) => t in a.calls && a.calls[t].RevokePending?
  }

  /** `GetToken` as one step on the cache. */
  function AtomicGet(buffer: Duration, cache: Cache, key: string, now: Time,
                     answer: Option<(string, Duration)>): (Cache, Outcome) {
    if Hit(cache, key, now, buffer) then (cache, Got(cache[key].token, true))
    else match answer
      case None => (cache, Failed)
      case Some((token, life)) => (cache[key := Entry(token, now + life)], Got(token, false))
  }

  function Do(buffer: Duration, a: Atomic, op: Op): Atomic
    requires Ready(a, op)
  {
    match op
    case Invoke(t, key, now) => a.(calls := a.calls[t := Pending(key, now)])
    case InvokeRevoke(t, token) => a.(calls := a.calls[t := RevokePending(token)])
    case Get(t, answer) =>
      var c := a.calls[t];
      var (cache, outcome) := AtomicGet(buffer, a.cache, c.key, c.now, answer);
      Atomic(cache, a.calls[t := Answered(c.key, c.now, outcome)])
    case Evict(t) => Atomic(Without(a.cache, a.calls[t].token), a.calls[t := RevokeDone(a.calls[t].token)])
    case GiveUp(t) => a.(calls := a.calls[t := RevokeGaveUp(a.calls[t].token)])
  }

  // ---- The abstraction ----------------------------------------------------

  function CallOf(pc: Pc): AtomicCall {
    match pc
    case Called(key, now) => Pending(key, now)
    case Reading(key, now) => Pending(key, now)
    case ReadHit(key, now, token) => Answered(key, now, Got(token, true))
    case ReadMiss(key, now) => Pending(key, now)
    case Gap(key, now) => Pending(key, now)
    case Rechecking(key, now) => Pending(key, now)
    case Fetching(key, now) => Pending(key, now)
    case Leaving(key, now, outcome) => Answered(key, now, outcome)
    case Returned(key, now, outcome) => Answered(key, now, outcome)
    case Revoking(token) => RevokePending(token)
    case Sweeper(token) => RevokePending(token)
    case Sweeping(token, _) => RevokeDone(token)
    case Swept(token) => RevokeDone(token)
    case RevokeFailed(token) => RevokeGaveUp(token)
  }

  /** A sweep in progress counts as done: nobody else can look before it is. */
  function CacheOf(s: State): Cache {
    if s.writer.Some? && s.writer.value in s.pcs && s.pcs[s.writer.value].Sweeping?
    then Without(s.cache, s.pcs[s.writer.value].token) else s.cache
  }

  function AtomicOf(s: State): Atomic {
    Atomic(CacheOf(s), map t | t in s.pcs :: CallOf(s.pcs[t]))
  }

  /** The atomic step that a concrete step performs, if any: the linearization points. */
  function Effect(buffer: Duration, s: State, step: Step): Option<Op>
    requires Enabled(s, step)
  {
    match step
    case Call(t, key, now) => Some(Invoke(t, key, now))
    case CallRevoke(t, token) => Some(InvokeRevoke(t, token))
    case Read(t) => if Hit(s.cache, s.pcs[t].key, s.pcs[t].now, buffer) then Some(Get(t, None)) else None
    case Recheck(t) => if Hit(s.cache, s.pcs[t].key, s.pcs[t].now, buffer) then Some(Get(t, None)) else None
    case FetchOk(t, token, expiresIn) => Some(Get(t, Some((token, Seconds(expiresIn)))))
    case FetchErr(t) => Some(Get(t, None))
    case Lock(t) => if s.pcs[t].Sweeper? then Some(Evict(t)) else None
    case RevokeReply(t, ok) => if ok then None else Some(GiveUp(t))
    case _ => None
  }

  // ---- Refinement ---------------------------------------------------------

  lemma CallsAfter(buffer: Duration, s: State, step: Step)
    requires Enabled(s, step)
    ensures AtomicOf(Apply(buffer, s, step)).calls == AtomicOf(s).calls[step.t := CallOf(Next(buffer, s, step))]
  {
  }

  /** With the lock in order, a sweep is the only thing that hides entries. */
  lemma CacheOfFacts(s: State, t: Tid)
    requires LockOk(s) && t in s.pcs
    ensures HoldsRead(s.pcs[t]) ==> CacheOf(s) == s.cache
    ensures HoldsWrite(s.pcs[t]) && !s.pcs[t].Sweeping? ==> CacheOf(s) == s.cache
    ensures s.pcs[t].Sweeping? ==> CacheOf(s) == Without(s.cache, s.pcs[t].token)
    ensures s.writer.None? ==> CacheOf(s) == s.cache
  {
  }

  /** A step that leaves the lock and the cache to others leaves the abstract cache alone. */
  lemma CacheOfAfter(buffer: Duration, s: State, step: Step)
    requires LockOk(s) && SweepOk(s) && Enabled(s, step)
    ensures CacheOf(Apply(buffer, s, step)) ==
      match step
      case FetchOk(t, token, expiresIn) => s.cache[s.pcs[t].key := Entry(token, s.pcs[t].now + Seconds(expiresIn))]
      case Lock(t) => if s.pcs[t].Sweeper? then Without(s.cache, s.pcs[t].token) else CacheOf(s)
      case _ => CacheOf(s)
  {
    var s' := Apply(buffer, s, step);
    StepKeepsLock(buffer, s, step);
    CacheOfFacts(s', step.t);
    if step.t in s.pcs {
      CacheOfFacts(s, step.t);
    }
    match step
    case SweepOne(t, key) => assert Without(s'.cache, s.pcs[t].token) == Without(s.cache, s.pcs[t].token);
    case Unlock(t) =>
      if s.pcs[t].Sweeping? {
        assert Without(s.cache, s.pcs[t].token) == s.cache;
      }
    case _ =>
  }

  /** Every step of every schedule is one atomic step or none. */
  lemma StepRefines(buffer: Duration, s: State, step: Step)
    requires Inv(buffer, s) && Enabled(s, step)
    ensures match Effect(buffer, s, step)
            case None => AtomicOf(Apply(buffer, s, step)) == AtomicOf(s)
            case Some(op) => Ready(AtomicOf(s), op) && Do(buffer, AtomicOf(s), op) == AtomicOf(Apply(buffer, s, step))
  {
    match Effect(buffer, s, step)
    case None => StepIsSilent(buffer, s, step);
    case Some(_) => StepActs(buffer, s, step);
  }

  lemma StepIsSilent(buffer: Duration, s: State, step: Step)
    requires LockOk(s) && SweepOk(s) && FetchersMissed(buffer, s) && Enabled(s, step) && Effect(buffer, s, step).None?
    ensures AtomicOf(Apply(buffer, s, step)) == AtomicOf(s)
  {
    CallsAfter(buffer, s, step);
    CacheOfAfter(buffer, s, step);
    CallOfPc(s, step.t);
    SameCall(AtomicOf(s).calls, step.t);
  }

  lemma StepActs(buffer: Duration, s: State, step: Step)
    requires LockOk(s) && SweepOk(s) && FetchersMissed(buffer, s) && Enabled(s, step) && Effect(buffer, s, step).Some?
    ensures var op := Effect(buffer, s, step).value;
            Ready(AtomicOf(s), op) && Do(buffer, AtomicOf(s), op) == AtomicOf(Apply(buffer, s, step))
  {
    CallsAfter(buffer, s, step);
    CacheOfAfter(buffer, s, step);
    if step.t in s.pcs {
      CallOfPc(s, step.t);
      CacheOfFacts(s, step.t);
    }
  }

  lemma CallOfPc(s: State, t: Tid)
    requires t in s.pcs
    ensures t in AtomicOf(s).calls && AtomicOf(s).calls[t] == CallOf(s.pcs[t])
  {
  }

  lemma SameCall(calls: map<Tid, AtomicCall>, t: Tid)
    requires t in calls
    ensures calls[t := calls[t]] == calls
  {
  }

  // ---- Runs ---------------------------------------------------------------

  /** The atomic steps of a schedule, in the order in which they take effect: each between its call and its return. */
  ghost function Trace(buffer: Duration, steps: seq<Step>, n: nat): seq<Op>
    requires Run(buffer, steps) && n <= |steps|
  {
    if n == 0 then []
    else
      assert Taken(buffer, steps, n - 1);
      match Effect(buffer, At(buffer, steps, n - 1), steps[n - 1])
      case None => Trace(buffer, steps, n - 1)
      case Some(op) => Trace(buffer, steps, n - 1) + [op]
  }

  /** What has taken effect stays as it is: an operation that returned before another was called comes before it. */
  lemma {:induction false} TraceGrows(buffer: Duration, steps: seq<Step>, n: nat, m: nat)
    requires Run(buffer, steps) && n <= m <= |steps|
    ensures Trace(buffer, steps, n) <= Trace(buffer, steps, m)
    decreases m
  {
    if n < m {
      TraceGrows(buffer, steps, n, m - 1);
    }
  }

  /** The atomic system run over `ops`, if each is ready in turn. */
  function Replay(buffer: Duration, ops: seq<Op>): Option<Atomic> {
    if ops == [] then Some(Atomic(map[], map[]))
    else match Replay(buffer, ops[..|ops| - 1])
      case None => None
      case Some(a) => if Ready(a, ops[|ops| - 1]) then Some(Do(buffer, a, ops[|ops| - 1])) else None
  }

  /** Every schedule of the real steps is a run of atomic ones with the same cache and the same answers. */
  lemma {:induction false} RunLinearizes(buffer: Duration, steps: seq<Step>, n: nat)
    requires Run(buffer, steps) && n <= |steps|
    ensures Replay(buffer, Trace(buffer, steps, n)) == Some(AtomicOf(At(buffer, steps, n)))
  {
    if n == 0 {
      assert AtomicOf(START) == Atomic(map[], map[]);
    } else {
      var s := At(buffer, steps, n - 1);
      RunLinearizes(buffer, steps, n - 1);
      RunKeepsInv(buffer, steps, n - 1);
      assert Taken(buffer, steps, n - 1);
      StepRefines(buffer, s, steps[n - 1]);
      var before := Trace(buffer, steps, n - 1);
      match Effect(buffer, s, steps[n - 1])
      case None =>
      case Some(op) => assert (before + [op])[..|before|] == before;
    }
  }

  /** So an answer that was returned is the answer of one atomic `GetToken` in that run. */
  lemma ReturnedIsAnswered(buffer: Duration, steps: seq<Step>, n: nat, t: Tid)
    requires Run(buffer, steps) && n <= |steps|
    requires t in At(buffer, steps, n).pcs && At(buffer, steps, n).pcs[t].Returned?
    ensures var pc := At(buffer, steps, n).pcs[t];
      && Replay(buffer, Trace(buffer, steps, n)).Some?
      && var a := Replay(buffer, Trace(buffer, steps, n)).value;
      && t in a.calls && a.calls[t] == Answered(pc.key, pc.now, pc.outcome)
  {
    RunLinearizes(buffer, steps, n);
  }

  /** The operation that ends a call in this way. */
  predicate EndsAs(op: Op, c: AtomicCall) {
    match c
    case Answered(_, _, _) => op.Get?
    case RevokeDone(_) => op.Evict?
    case RevokeGaveUp(_) => op.GiveUp?
    case _ => false
  }

  /** What has ended in a replayed run was ended by one of its operations. */
  lemma {:induction false} EndedByOp(buffer: Duration, ops: seq<Op>, t: Tid) returns (i: nat)
    requires Replay(buffer, ops).Some? && t in Replay(buffer, ops).value.calls
    requires var c := Replay(buffer, ops).value.calls[t]; c.Answered? || c.RevokeDone? || c.RevokeGaveUp?
    ensures i < |ops| && ops[i].t == t && EndsAs(ops[i], Replay(buffer, ops).value.calls[t])
    decreases |ops|
  {
    var before, op := ops[..|ops| - 1], ops[|ops| - 1];
    if op.t == t {
      i := |ops| - 1;
    } else {
      i := EndedByOp(buffer, before, t);
    }
  }

  /** The atomic step of a new call. */
  function Invocation(step: Step): Op
    requires NewCall(step)
  {
    match step
    case Call(t, key, now) => Invoke(t, key, now)
    case CallRevoke(t, token) => InvokeRevoke(t, token)
  }

  /**
   The atomic order respects real time.  When the call of `t1`, be it a
   `GetToken` or a `Revoke`, is finished before `t2` begins one, the operation
   that ended the first comes before the second's invocation and everything
   that `t2` does after it; a sweep that is over, before any later `GetToken`.
   */
  lemma RealTimeOrder(buffer: Duration, steps: seq<Step>, n: nat, m: nat, t1: Tid) returns (i: nat, j: nat)
    requires Run(buffer, steps) && n <= m < |steps| && NewCall(steps[m])
    requires t1 in At(buffer, steps, n).pcs && Finished(At(buffer, steps, n).pcs[t1])
    ensures var trace := Trace(buffer, steps, |steps|);
      && i < j < |trace|
      && trace[i].t == t1 && EndsAs(trace[i], CallOf(At(buffer, steps, n).pcs[t1]))
      && trace[j] == Invocation(steps[m])
      && (forall k | 0 <= k < |trace| && trace[k].t == steps[m].t :: j <= k)
  {
    RunLinearizes(buffer, steps, n);
    CallOfPc(At(buffer, steps, n), t1);
    i := EndedByOp(buffer, Trace(buffer, steps, n), t1);
    TraceGrows(buffer, steps, n, m);
    TraceGrows(buffer, steps, n, |steps|);
    j := CallInTrace(buffer, steps, m);
    RunLinearizes(buffer, steps, |steps|);
    OpsFollowInvocation(buffer, Trace(buffer, steps, |steps|), steps[m].t, j);
  }

  /** A call takes its place behind everything that took effect before it. */
  lemma CallInTrace(buffer: Duration, steps: seq<Step>, m: nat) returns (j: nat)
    requires Run(buffer, steps) && m < |steps| && NewCall(steps[m])
    ensures j == |Trace(buffer, steps, m)| < |Trace(buffer, steps, |steps|)|
    ensures Trace(buffer, steps, |steps|)[j] == Invocation(steps[m])
  {
    j := |Trace(buffer, steps, m)|;
    CallTakesEffect(buffer, steps, m);
    TraceGrows(buffer, steps, m + 1, |steps|);
  }

  lemma CallTakesEffect(buffer: Duration, steps: seq<Step>, m: nat)
    requires Run(buffer, steps) && m < |steps| && NewCall(steps[m])
    ensures Trace(buffer, steps, m + 1) == Trace(buffer, steps, m) + [Invocation(steps[m])]
  {
    assert Taken(buffer, steps, m);
  }

  /** Before its call a goroutine has no entry, so it does nothing. */
  lemma {:induction false} OpsFollowInvocation(buffer: Duration, ops: seq<Op>, t: Tid, j: nat)
    requires Replay(buffer, ops).Some? && j < |ops| && (ops[j].Invoke? || ops[j].InvokeRevoke?) && ops[j].t == t
    ensures forall k | 0 <= k < |ops| && ops[k].t == t :: j <= k
    decreases |ops|
  {
    var before := ops[..|ops| - 1];
    if j < |before| {
      OpsFollowInvocation(buffer, before, t, j);
    } else {
      NothingBeforeCall(buffer, before, t);
    }
  }

  lemma {:induction false} NothingBeforeCall(buffer: Duration, ops: seq<Op>, t: Tid)
    requires Replay(buffer, ops).Some? && t !in Replay(buffer, ops).value.calls
    ensures forall k | 0 <= k < |ops| :: ops[k].t != t
    decreases |ops|
  {
    if ops != [] {
      NothingBeforeCall(buffer, ops[..|ops| - 1], t);
    }
  }
}
