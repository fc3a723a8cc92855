/* The deferred-callback queue of src/core/util/next-tick.js.  Callbacks
   collected by `nextTick` run together in one later turn; the first callback
   of a batch asks the host for that turn, as a microtask or, inside a
   `withMacroTask` wrapper or without native promises, as a macrotask.  The
   host's timers are recorded as requests: a request is honoured by a call
   of `FlushCallbacks`. */

/** What a wrapper pushed by `nextTick` calls: a user function, or the
    scheduler's `flushSchedulerQueue`. */
datatype Callback = UserFn(fn: nat) | FlushSchedulerQueue

/** The wrapper `nextTick` pushes: call `cb` with `ctx`, resolve the promise
    it returned, or nothing (no callback and no promise support). */
datatype TickJob = Call(cb: Callback, ctx: Value) | Resolve(promise: nat, ctx: Value) | Nothing

datatype TimerKind = MacroTask | MicroTask

datatype TickState = TickState(callbacks: seq<TickJob>, pending: bool, useMacroTask: bool, timers: seq<TimerKind>)

/** The number of scheduler flushes among `jobs`. */
function FlushJobs(jobs: seq<TickJob>): nat {
  if jobs == [] then 0
  else (if jobs[0].Call? && jobs[0].cb.FlushSchedulerQueue? then 1 else 0) + FlushJobs(jobs[1..])
}

/** The wrapper is the scheduler's `flushSchedulerQueue`. */
predicate IsFlush(job: TickJob) {
  job.Call? && job.cb.FlushSchedulerQueue?
}

/** The position of the first scheduler flush in `jobs`. */
function FirstFlush(jobs: seq<TickJob>): (k: nat)
  requires FlushJobs(jobs) != 0
  ensures k < |jobs| && IsFlush(jobs[k]) && forall i | 0 <= i < k :: !IsFlush(jobs[i])
{
  if IsFlush(jobs[0]) then 0 else 1 + FirstFlush(jobs[1..])
}

/** The timer a new batch asks for: a microtask falls back to a macrotask
    when the platform has no native promise. */
function TimerFor(useMacroTask: bool, hasPromise: bool): TimerKind {
  if useMacroTask || !hasPromise then MacroTask else MicroTask
}

/** The queue after `nextTick` pushes `job`. */
function AfterNextTick(s: TickState, job: TickJob, hasPromise: bool): TickState {
  TickState(s.callbacks + [job], true, s.useMacroTask,
    if s.pending then s.timers else s.timers + [TimerFor(s.useMacroTask, hasPromise)])
}

/** The queue after `nextTick` pushes each of `jobs` in turn. */
function AfterNextTicks(s: TickState, jobs: seq<TickJob>, hasPromise: bool): TickState
  decreases |jobs|
{
  if jobs == [] then s else AfterNextTicks(AfterNextTick(s, jobs[0], hasPromise), jobs[1..], hasPromise)
}

/** However many callbacks a turn collects, they run in the order given and
    the host is asked for at most one flush, and only when none was pending. */
lemma {:induction false} OneTimerPerBatch(s: TickState, jobs: seq<TickJob>, hasPromise: bool)
  ensures var r := AfterNextTicks(s, jobs, hasPromise);
    r.callbacks == s.callbacks + jobs && r.useMacroTask == s.useMacroTask
    && r.pending == (s.pending || jobs != [])
    && r.timers == if s.pending || jobs == [] then s.timers else s.timers + [TimerFor(s.useMacroTask, hasPromise)]
  decreases |jobs|
{
  if jobs != [] {
    var s1 := AfterNextTick(s, jobs[0], hasPromise);
    OneTimerPerBatch(s1, jobs[1..], hasPromise);
    assert s.callbacks + jobs == s1.callbacks + jobs[1..];
  }
}

/** The effects of running `jobs` that are not scheduler flushes: a user
    callback is called, and reported to the error handler when it throws. */
function TickEffects(jobs: seq<TickJob>, throwing: set<nat>): seq<Effect> {
  if jobs == [] then [] else JobEffects(jobs[0], throwing) + TickEffects(jobs[1..], throwing)
}

/** The effects of one job that is not a scheduler flush. */
function JobEffects(job: TickJob, throwing: set<nat>): seq<Effect> {
  match job
  case Call(UserFn(f), _) => [TickCallback(f)] + (if f in throwing then [TickError(f)] else [])
  case Call(FlushSchedulerQueue, _) => []
  case Resolve(p, _) => [PromiseResolved(p)]
  case Nothing => []
}

class TickQueue {
  /** Whether the platform has a native `Promise`. */
  const hasPromise: bool
  var callbacks: seq<TickJob>
  var pending: bool
  var useMacroTask: bool
  /** The flushes requested from the host so far, in order. */
  var timers: seq<TimerKind>
  /** The promise a call without callback returns next. */
  var promiseUid: nat
  /** `fn._withTask`: the wrapper `withMacroTask` made for each function so far. */
  var withTask: map<nat, nat>
  /** The wrapper a function not wrapped yet gets next. */
  var wrapperUid: nat

  constructor (hasPromise: bool)
    ensures this.hasPromise == hasPromise && State() == TickState([], false, false, [])
    ensures withTask == map[] && WrappersDistinct()
  {
    this.hasPromise := hasPromise;
    callbacks, pending, useMacroTask, timers := [], false, false, [];
    promiseUid := 0;
    withTask, wrapperUid := map[], 0;
  }

  /** Every wrapper made so far is older than the next one, so no two
      functions share a wrapper. */
  ghost predicate WrappersDistinct()
    reads this
  {
    forall f :: f in withTask ==> withTask[f] < wrapperUid
  }

  function State(): TickState
    reads this
  {
    TickState(callbacks, pending, useMacroTask, timers)
  }

  /** Queues `cb` for the next flush, requesting one when none is pending.
      Without a callback it returns a promise, where the platform has them,
      that the flush resolves with `ctx`. */
  method NextTick(cb: Option<Callback>, ctx: Value) returns (promise: Option<nat>)
    modifies this`callbacks, this`pending, this`timers, this`promiseUid
    ensures cb.Some? ==> State() == AfterNextTick(old(State()), Call(cb.value, ctx), hasPromise) && promise.None?
    ensures cb.None? && hasPromise ==>
      promise == Some(old(promiseUid))
      && State() == AfterNextTick(old(State()), Resolve(old(promiseUid), ctx), hasPromise)
    ensures cb.None? && !hasPromise ==> State() == AfterNextTick(old(State()), Nothing, hasPromise) && promise.None?
    ensures promiseUid == old(promiseUid) + (if promise.Some? then 1 else 0)
  {
    var job := if cb.Some? then Call(cb.value, ctx) else if hasPromise then Resolve(promiseUid, ctx) else Nothing;
    callbacks := callbacks + [job];
    if !pending {
      pending := true;
      timers := timers + [TimerFor(useMacroTask, hasPromise)];
    }
    if cb.None? && hasPromise {
      promise := Some(promiseUid);
      promiseUid := promiseUid + 1;
    } else {
      promise := None;
    }
  }

  /** `withMacroTask(fn)` for the function `f`: the wrapper cached on `f`,
      or a new one, cached, when `f` has none yet. */
  method WithMacroTask(f: nat) returns (w: nat)
    requires WrappersDistinct()
    modifies this`withTask, this`wrapperUid
    ensures WrappersDistinct() && f in withTask && withTask[f] == w
    ensures f in old(withTask) ==> w == old(withTask[f]) && withTask == old(withTask) && wrapperUid == old(wrapperUid)
    ensures f !in old(withTask) ==>
              withTask == old(withTask)[f := w] && wrapperUid == old(wrapperUid) + 1
              && forall g :: g in old(withTask) ==> old(withTask[g]) != w
  {
    if f in withTask {
      return withTask[f];
    }
    w := wrapperUid;
    withTask := withTask[f := w];
    wrapperUid := wrapperUid + 1;
  }

  /** A call of the wrapper: runs the wrapped function with macrotask
      deferral on; the function is given by the callbacks it passes to
      `nextTick`, in order. */
  method CallWrapper(fn: seq<Callback>, ctx: Value)
    modifies this`callbacks, this`pending, this`timers, this`useMacroTask, this`promiseUid
    ensures !useMacroTask && promiseUid == old(promiseUid)
    ensures State() == var s := old(State()); var r := AfterNextTicks(TickState(s.callbacks, s.pending, true, s.timers), CallsOf(fn, ctx), hasPromise);
      TickState(r.callbacks, r.pending, false, r.timers)
    ensures !old(pending) && fn != [] ==> timers == old(timers) + [MacroTask]
  {
    useMacroTask := true;
    var i := 0;
    while i < |fn|
      invariant i <= |fn| && useMacroTask && promiseUid == old(promiseUid)
      invariant State() == AfterNextTicks(TickState(old(callbacks), old(pending), true, old(timers)), CallsOf(fn[..i], ctx), hasPromise)
    {
      assert CallsOf(fn[..i + 1], ctx) == CallsOf(fn[..i], ctx) + [Call(fn[i], ctx)] by {
        assert fn[..i + 1] == fn[..i] + [fn[i]];
        CallsOfConcat(fn[..i], [fn[i]], ctx);
      }
      AfterNextTicksConcat(TickState(old(callbacks), old(pending), true, old(timers)), CallsOf(fn[..i], ctx), [Call(fn[i], ctx)], hasPromise);
      var _ := NextTick(Some(fn[i]), ctx);
      i := i + 1;
    }
    assert fn[..i] == fn;
    useMacroTask := false;
    OneTimerPerBatch(TickState(old(callbacks), old(pending), true, old(timers)), CallsOf(fn, ctx), hasPromise);
  }

  /** The flush the host runs for a requested timer: takes the current batch
      and runs it in order; `throwing` names the user callbacks that throw.
      The scheduler's job flushes the scheduler. */
  method FlushCallbacks(sched: Scheduler, t: Tracking, host: Host, throwing: set<nat>) returns (ghost flushed: seq<Effect>)
    requires sched.ticks == this && sched.Sys(t, host) && VmsClosed(t)
    modifies sched.World(t, host), t`target, t`targetStack, t.vms`inactive, t.vms`directInactive
    ensures sched.Sys(t, host)
    ensures callbacks == [] && !pending && useMacroTask == old(useMacroTask) && timers == old(timers)
    ensures FlushJobs(old(callbacks)) == 0 ==>
      host.effects == old(host.effects) + TickEffects(old(callbacks), throwing)
      && sched.State() == old(sched.State()).(ticks := State())
    ensures FlushJobs(old(callbacks)) != 0 ==> sched.Reset() && FlushedAt(old(callbacks), throwing, old(host.effects), flushed, host.effects)
  {
    pending := false;
    var copies := callbacks;
    callbacks := [];
    flushed := RunJobs(copies, sched, t, host, throwing);
  }

  /** The loop of `flushCallbacks` over the copied batch. */
  method RunJobs(jobs: seq<TickJob>, sched: Scheduler, t: Tracking, host: Host, throwing: set<nat>) returns (ghost flushed: seq<Effect>)
    requires sched.ticks == this && sched.Sys(t, host) && VmsClosed(t) && callbacks == [] && !pending
    requires FlushJobs(jobs) == 0 || (FlushJobs(jobs) == 1 && sched.waiting)
    modifies sched.World(t, host), t`target, t`targetStack, t.vms`inactive, t.vms`directInactive
    decreases |jobs|, 1
    ensures sched.Sys(t, host)
    ensures callbacks == [] && !pending && useMacroTask == old(useMacroTask) && timers == old(timers)
    ensures FlushJobs(jobs) == 0 ==>
      host.effects == old(host.effects) + TickEffects(jobs, throwing) && sched.State() == old(sched.State())
    ensures FlushJobs(jobs) != 0 ==> sched.Reset() && FlushedAt(jobs, throwing, old(host.effects), flushed, host.effects)
  {
    flushed := [];
    if jobs != [] {
      if IsFlush(jobs[0]) {
        flushed := FlushThenRest(jobs, sched, t, host, throwing);
      } else {
        flushed := OtherThenRest(jobs, sched, t, host, throwing);
      }
    }
  }

  /** A turn of the loop on the scheduler's job, then the rest of the batch. */
  method FlushThenRest(jobs: seq<TickJob>, sched: Scheduler, t: Tracking, host: Host, throwing: set<nat>) returns (ghost flushed: seq<Effect>)
    requires sched.ticks == this && sched.Sys(t, host) && VmsClosed(t) && callbacks == [] && !pending
    requires jobs != [] && IsFlush(jobs[0])
    requires FlushJobs(jobs) == 1 && sched.waiting
    modifies sched.World(t, host), t`target, t`targetStack, t.vms`inactive, t.vms`directInactive
    decreases |jobs|, 0
    ensures sched.Sys(t, host)
    ensures callbacks == [] && !pending && useMacroTask == old(useMacroTask) && timers == old(timers)
    ensures sched.Reset() && FlushedAt(jobs, throwing, old(host.effects), flushed, host.effects)
  {
    sched.Flush(t, host);
    ghost var s1, e1 := sched.State(), host.effects;
    flushed := e1[|old(host.effects)|..];
    var _ := RunJobs(jobs[1..], sched, t, host, throwing);
    assert sched.State() == s1;
    FlushFirst(jobs, throwing, old(host.effects), flushed, e1, host.effects);
  }

  /** A turn of the loop on any other job, then the rest of the batch. */
  method OtherThenRest(jobs: seq<TickJob>, sched: Scheduler, t: Tracking, host: Host, throwing: set<nat>) returns (ghost flushed: seq<Effect>)
    requires sched.ticks == this && sched.Sys(t, host) && VmsClosed(t) && callbacks == [] && !pending
    requires jobs != [] && !IsFlush(jobs[0])
    requires FlushJobs(jobs) == 0 || (FlushJobs(jobs) == 1 && sched.waiting)
    modifies sched.World(t, host), t`target, t`targetStack, t.vms`inactive, t.vms`directInactive
    decreases |jobs|, 0
    ensures sched.Sys(t, host)
    ensures callbacks == [] && !pending && useMacroTask == old(useMacroTask) && timers == old(timers)
    ensures FlushJobs(jobs) == 0 ==>
      flushed == [] && host.effects == old(host.effects) + TickEffects(jobs, throwing) && sched.State() == old(sched.State())
    ensures FlushJobs(jobs) != 0 ==> sched.Reset() && FlushedAt(jobs, throwing, old(host.effects), flushed, host.effects)
  {
    ghost var e0 := host.effects;
    RunOtherJob(jobs[0], host, throwing);
    ghost var e1 := host.effects;
    flushed := RunJobs(jobs[1..], sched, t, host, throwing);
    if FlushJobs(jobs) == 0 {
      EffectsStep(jobs, throwing, e0, e1, host.effects);
      flushed := [];
    } else {
      FlushLater(jobs, throwing, e0, e1, flushed, host.effects);
    }
  }

  /** A wrapper other than the scheduler's: a user callback, which may throw
      (the error is reported and the loop goes on), or a promise resolution. */
  method RunOtherJob(job: TickJob, host: Host, throwing: set<nat>)
    requires !(job.Call? && job.cb.FlushSchedulerQueue?)
    modifies host`effects
    ensures host.effects == old(host.effects) + JobEffects(job, throwing)
  {
    match job {
      case Call(UserFn(f), _) =>
        host.Emit(TickCallback(f));
        if f in throwing {
          host.Emit(TickError(f));
        }
      case Resolve(p, _) =>
        host.Emit(PromiseResolved(p));
      case Nothing =>
    }
  }
}

/** The effects of a batch are those of its first job, then the rest's. */
lemma EffectsStep(jobs: seq<TickJob>, throwing: set<nat>, e0: seq<Effect>, e1: seq<Effect>, e2: seq<Effect>)
  requires jobs != []
  requires e1 == e0 + JobEffects(jobs[0], throwing) && e2 == e1 + TickEffects(jobs[1..], throwing)
  ensures e2 == e0 + TickEffects(jobs, throwing)
{
}

/** `e1` is `e0` after a batch holding one scheduler flush: the effects of
    the jobs before the flush, in order, then `flushed`, the effects of the
    flush itself, then those of the jobs after it, in order. */
ghost predicate FlushedAt(jobs: seq<TickJob>, throwing: set<nat>, e0: seq<Effect>, flushed: seq<Effect>, e1: seq<Effect>)
  requires FlushJobs(jobs) != 0
{
  var k := FirstFlush(jobs);
  e1 == e0 + TickEffects(jobs[..k], throwing) + flushed + TickEffects(jobs[k + 1..], throwing)
}

/** A batch that starts with the scheduler flush. */
lemma FlushFirst(jobs: seq<TickJob>, throwing: set<nat>, e0: seq<Effect>, flushed: seq<Effect>, e1: seq<Effect>, e2: seq<Effect>)
  requires jobs != [] && IsFlush(jobs[0]) && e0 <= e1 && flushed == e1[|e0|..]
  requires e2 == e1 + TickEffects(jobs[1..], throwing)
  ensures FlushJobs(jobs) != 0 && FlushedAt(jobs, throwing, e0, flushed, e2)
{
  assert FirstFlush(jobs) == 0;
  assert jobs[..0] == [];
  assert e1 == e0 + flushed;
}

/** A batch whose scheduler flush comes after its first job. */
lemma FlushLater(jobs: seq<TickJob>, throwing: set<nat>, e0: seq<Effect>, e1: seq<Effect>, flushed: seq<Effect>, e2: seq<Effect>)
  requires jobs != [] && !IsFlush(jobs[0]) && FlushJobs(jobs[1..]) != 0
  requires e1 == e0 + JobEffects(jobs[0], throwing) && FlushedAt(jobs[1..], throwing, e1, flushed, e2)
  ensures FlushJobs(jobs) != 0 && FlushedAt(jobs, throwing, e0, flushed, e2)
{
  var k := FirstFlush(jobs[1..]);
  FirstFlushCons(jobs);
  TickEffectsCons(jobs, k, throwing);
  assert jobs[k + 2..] == jobs[1..][k + 1..];
  Regroup(e0, e1, e2, JobEffects(jobs[0], throwing), TickEffects(jobs[1..][..k], throwing), flushed,
          TickEffects(jobs[1..][k + 1..], throwing), TickEffects(jobs[..k + 1], throwing));
}

/** Regrouping the effect logs of a job followed by a batch. */
lemma Regroup(e0: seq<Effect>, e1: seq<Effect>, e2: seq<Effect>, a: seq<Effect>, b: seq<Effect>, flushed: seq<Effect>,
              c: seq<Effect>, ab: seq<Effect>)
  requires e1 == e0 + a && e2 == e1 + b + flushed + c && ab == a + b
  ensures e2 == e0 + ab + flushed + c
{
}

/** The first flush of a batch that starts with another job is one further
    on than the first flush of the rest. */
lemma FirstFlushCons(jobs: seq<TickJob>)
  requires jobs != [] && !IsFlush(jobs[0]) && FlushJobs(jobs[1..]) != 0
  ensures FlushJobs(jobs) != 0 && FirstFlush(jobs) == FirstFlush(jobs[1..]) + 1
{
}

/** The effects of the first `k + 1` jobs are those of the first job, then
    those of the next `k`. */
lemma TickEffectsCons(jobs: seq<TickJob>, k: nat, throwing: set<nat>)
  requires k < |jobs|
  ensures TickEffects(jobs[..k + 1], throwing) == JobEffects(jobs[0], throwing) + TickEffects(jobs[1..][..k], throwing)
{
  assert jobs[..k + 1][1..] == jobs[1..][..k];
}

/** Counting flush jobs across the split point of a loop over `jobs`. */
lemma {:induction false} FlushJobsConcat(a: seq<TickJob>, b: seq<TickJob>)
  ensures FlushJobs(a + b) == FlushJobs(a) + FlushJobs(b)
  decreases |a|
{
  if a == [] {
    assert a + b == b;
  } else {
    assert (a + b)[0] == a[0] && (a + b)[1..] == a[1..] + b;
    FlushJobsConcat(a[1..], b);
  }
}

/** The jobs `nextTick(cb, ctx)` pushes for each of `fns`. */
function CallsOf(fns: seq<Callback>, ctx: Value): (r: seq<TickJob>)
  ensures |r| == |fns|
{
  if fns == [] then [] else [Call(fns[0], ctx)] + CallsOf(fns[1..], ctx)
}

lemma {:induction false} CallsOfConcat(a: seq<Callback>, b: seq<Callback>, ctx: Value)
  ensures CallsOf(a + b, ctx) == CallsOf(a, ctx) + CallsOf(b, ctx)
  decreases |a|
{
  if a == [] {
    assert a + b == b;
  } else {
    assert (a + b)[0] == a[0] && (a + b)[1..] == a[1..] + b;
    CallsOfConcat(a[1..], b, ctx);
  }
}

lemma {:induction false} AfterNextTicksConcat(s: TickState, a: seq<TickJob>, b: seq<TickJob>, hasPromise: bool)
  ensures AfterNextTicks(s, a + b, hasPromise) == AfterNextTicks(AfterNextTicks(s, a, hasPromise), b, hasPromise)
  decreases |a|
{
  if a == [] {
    assert a + b == b;
  } else {
    assert (a + b)[0] == a[0] && (a + b)[1..] == a[1..] + b;
    AfterNextTicksConcat(AfterNextTick(s, a[0], hasPromise), a[1..], b, hasPromise);
  }
}

lemma {:induction false} TickEffectsConcat(a: seq<TickJob>, b: seq<TickJob>, throwing: set<nat>)
  ensures TickEffects(a + b, throwing) == TickEffects(a, throwing) + TickEffects(b, throwing)
  decreases |a|
{
  if a == [] {
    assert a + b == b;
  } else {
    assert (a + b)[0] == a[0] && (a + b)[1..] == a[1..] + b;
    TickEffectsConcat(a[1..], b, throwing);
  }
}
