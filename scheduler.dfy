/* The update scheduler of src/core/observer/scheduler.js: a queue of watchers
   deduplicated by id through `has`, flushed once per tick in ascending id
   order, with a per-id count of re-entries that stops a flush caught in an
   update loop.  The model is of the development build, where `circular` is
   kept. */

const MAX_UPDATE_COUNT: nat := 100

/** The ids of a list of watchers. */
function WatcherIds(ws: seq<Watcher>): set<nat> {
  set w | w in ws :: w.id
}

/** The entries from position `i` on are in ascending id order. */
predicate SortedFrom(q: seq<Watcher>, i: nat) {
  forall j, k | i <= j < k < |q| :: q[j].id <= q[k].id
}

/** Inserts `w` after the entries of `s` whose id is at most its own. */
function InsertById(s: seq<Watcher>, w: Watcher): (r: seq<Watcher>)
  requires SortedFrom(s, 0)
  ensures multiset(r) == multiset(s) + multiset{w} && SortedFrom(r, 0)
  decreases |s|
{
  if s == [] then [w]
  else if s[0].id <= w.id then
    assert SortedFrom(s[1..], 0) by {
      forall j, k | 0 <= j < k < |s[1..]| ensures s[1..][j].id <= s[1..][k].id {
        assert s[1..][j] == s[j + 1] && s[1..][k] == s[k + 1];
      }
    }
    var rest := InsertById(s[1..], w);
    SortedCons(s, rest, w);
    assert s == [s[0]] + s[1..];
    [s[0]] + rest
  else
    assert SortedFrom([w] + s, 0) by {
      forall j, k | 0 <= j < k < |s| + 1 ensures ([w] + s)[j].id <= ([w] + s)[k].id {
        if j == 0 { assert s[0].id <= s[k - 1].id; }
      }
    }
    [w] + s
}

/** A head no larger than anything after it keeps a sorted list sorted. */
lemma SortedCons(s: seq<Watcher>, rest: seq<Watcher>, w: Watcher)
  requires s != [] && SortedFrom(s, 0) && SortedFrom(rest, 0)
  requires multiset(rest) == multiset(s[1..]) + multiset{w} && s[0].id <= w.id
  ensures SortedFrom([s[0]] + rest, 0)
{
  var r := [s[0]] + rest;
  forall j, k | 0 <= j < k < |r| ensures r[j].id <= r[k].id {
    if j == 0 {
      assert r[k] == rest[k - 1] && rest[k - 1] in multiset(rest);
      if r[k] != w {
        assert r[k] in multiset(s[1..]);
        var m :| 0 <= m < |s[1..]| && s[1..][m] == r[k];
        assert s[m + 1] == r[k];
      }
    } else {
      assert r[j] == rest[j - 1] && r[k] == rest[k - 1];
    }
  }
}

/** `queue.sort((a, b) => a.id - b.id)`: the same watchers, by ascending id. */
function SortById(q: seq<Watcher>): (r: seq<Watcher>)
  ensures multiset(r) == multiset(q) && SortedFrom(r, 0)
{
  if q == [] then []
  else
    assert q == q[..|q| - 1] + [q[|q| - 1]];
    InsertById(SortById(q[..|q| - 1]), q[|q| - 1])
}

/** The scan of `queueWatcher` during a flush, from candidate position `k`
    down: step left past entries after `index` whose id exceeds `id`. */
function ScanFrom(q: seq<Watcher>, index: nat, id: nat, k: nat): (p: nat)
  requires k <= |q|
  ensures p <= k && (index < k ==> index < p)
  ensures forall j | p <= j < k :: q[j].id > id
  ensures index + 1 < p ==> q[p - 1].id <= id
  decreases k
{
  if k > index + 1 && q[k - 1].id > id then ScanFrom(q, index, id, k - 1) else k
}

/** Where a watcher with id `id` is spliced into the queue during a flush:
    after the current position, and after the last entry whose id is at most
    its own, or right after the current position when every later entry has a
    larger id. */
function InsertPos(q: seq<Watcher>, index: nat, id: nat): (p: nat)
  ensures p <= |q| && (index < |q| ==> index < p)
  ensures forall j | p <= j < |q| :: q[j].id > id
  ensures index + 1 < p ==> q[p - 1].id <= id
{
  ScanFrom(q, index, id, |q|)
}

/** The queue after `queueWatcher(w)`, given `has`, `flushing` and `index`. */
function Enqueued(q: seq<Watcher>, has: set<nat>, flushing: bool, index: nat, w: Watcher): (r: seq<Watcher>)
  ensures forall x | x in r :: x in q || x == w
{
  if w.id in has then q
  else if !flushing then q + [w]
  else
    var p := InsertPos(q, index, w.id);
    assert forall x | x in q[..p] + q[p..] :: x in q;
    q[..p] + [w] + q[p..]
}

/** The queue after `queueWatcher` on each of `ws` in turn. */
function EnqueuedAll(q: seq<Watcher>, has: set<nat>, flushing: bool, index: nat, ws: seq<Watcher>): seq<Watcher>
  decreases |ws|
{
  if ws == [] then q
  else EnqueuedAll(Enqueued(q, has, flushing, index, ws[0]), has + {ws[0].id}, flushing, index, ws[1..])
}

/** The flush-time splice keeps the waiting part of the queue in id order. */
lemma EnqueuedSorted(q: seq<Watcher>, has: set<nat>, index: nat, w: Watcher)
  requires SortedFrom(q, index + 1)
  ensures SortedFrom(Enqueued(q, has, true, index, w), index + 1)
{
  var q1 := Enqueued(q, has, true, index, w);
  if w.id !in has {
    var p := InsertPos(q, index, w.id);
    assert q1 == q[..p] + [w] + q[p..];
    forall j, k | index + 1 <= j < k < |q1| ensures q1[j].id <= q1[k].id {
      if k < p {
      } else if k == p {
        assert q1[k] == w;
        if j < p { assert q1[j] == q[j]; assert j == p - 1 || q[j].id <= q[p - 1].id; }
      } else if j == p {
        assert q1[k] == q[k - 1];
      } else if j < p {
        assert q1[j] == q[j] && q1[k] == q[k - 1];
      } else {
        assert q1[j] == q[j - 1] && q1[k] == q[k - 1];
      }
    }
  }
}

/** One `queueWatcher` adds at most the one watcher, drops nothing, and
    leaves the entries up to the current one where they were. */
lemma EnqueuedKeeps(q: seq<Watcher>, has: set<nat>, flushing: bool, index: nat, w: Watcher)
  ensures var q1 := Enqueued(q, has, flushing, index, w);
    |q| <= |q1| <= |q| + 1 && multiset(q) <= multiset(q1)
    && (flushing && index < |q| ==> q1[..index + 1] == q[..index + 1])
    && (!flushing ==> q1[..|q|] == q)
{
  if w.id !in has {
    if flushing {
      var p := InsertPos(q, index, w.id);
      assert q == q[..p] + q[p..];
      var q1 := q[..p] + [w] + q[p..];
      if index < |q| {
        assert q1[..index + 1] == q[..index + 1];
      }
    } else {
      assert (q + [w])[..|q|] == q;
    }
  }
}

/** Queueing during a flush never disturbs the entries up to the current
    one, keeps the waiting part in id order, adds at most one entry per
    request, and adds only requested watchers. */
lemma {:induction false} EnqueuedAllKeeps(q: seq<Watcher>, has: set<nat>, flushing: bool, index: nat, ws: seq<Watcher>)
  ensures var r := EnqueuedAll(q, has, flushing, index, ws);
    |q| <= |r| <= |q| + |ws| && multiset(q) <= multiset(r)
    && (forall x | x in r :: x in q || x in ws)
    && (flushing && index < |q| ==> r[..index + 1] == q[..index + 1])
    && (flushing && SortedFrom(q, index + 1) ==> SortedFrom(r, index + 1))
    && (!flushing ==> r[..|q|] == q)
  decreases |ws|
{
  if ws != [] {
    var w := ws[0];
    var q1 := Enqueued(q, has, flushing, index, w);
    EnqueuedKeeps(q, has, flushing, index, w);
    if flushing && SortedFrom(q, index + 1) {
      EnqueuedSorted(q, has, index, w);
    }
    EnqueuedAllKeeps(q1, has + {w.id}, flushing, index, ws[1..]);
    var r := EnqueuedAll(q1, has + {w.id}, flushing, index, ws[1..]);
    if !flushing {
      assert r[..|q|] == r[..|q1|][..|q|];
    }
    if flushing && index < |q| {
      assert r[..index + 1] == r[..index + 1][..index + 1];
    }
    forall x | x in r ensures x in q || x in ws {
      assert x in q1 || x in ws[1..];
    }
  }
}

/** The scheduler's state after `queueWatcher` on each of `ws`, with no
    synchronous flush: the queue as `EnqueuedAll` gives it, the ids marked,
    and one flush scheduled through `nextTick` if the batch opened a cycle. */
function AfterQueue(s: SchedState, ws: seq<Watcher>, hasPromise: bool): SchedState {
  var opens := !(WatcherIds(ws) <= s.has);
  s.(queue := EnqueuedAll(s.queue, s.has, s.flushing, s.index, ws), has := s.has + WatcherIds(ws),
     waiting := s.waiting || opens,
     ticks := if !s.waiting && opens then AfterNextTick(s.ticks, Call(FlushSchedulerQueue, Undefined), hasPromise) else s.ticks)
}

/** One `queueWatcher`: nothing happens for a watcher already in `has`;
    otherwise it is enqueued, and a flush is scheduled unless one is awaited. */
lemma AfterQueueOne(s: SchedState, w: Watcher, hasPromise: bool)
  ensures w.id in s.has ==> AfterQueue(s, [w], hasPromise) == s
  ensures w.id !in s.has ==>
    AfterQueue(s, [w], hasPromise) == s.(queue := Enqueued(s.queue, s.has, s.flushing, s.index, w), has := s.has + {w.id}, waiting := true,
          ticks := if s.waiting then s.ticks else AfterNextTick(s.ticks, Call(FlushSchedulerQueue, Undefined), hasPromise))
{
  assert WatcherIds([w]) == {w.id};
  assert [w][1..] == [];
  assert EnqueuedAll(s.queue, s.has, s.flushing, s.index, [w]) == Enqueued(s.queue, s.has, s.flushing, s.index, w);
  if w.id in s.has {
    assert s.has + {w.id} == s.has;
  }
}

/** Queueing a batch and then one more watcher is queueing the longer batch. */
lemma AfterQueueSnoc(s: SchedState, ws: seq<Watcher>, w: Watcher, hasPromise: bool)
  ensures AfterQueue(AfterQueue(s, ws, hasPromise), [w], hasPromise) == AfterQueue(s, ws + [w], hasPromise)
{
  EnqueuedAllSnoc(s.queue, s.has, s.flushing, s.index, ws, w);
  assert WatcherIds(ws + [w]) == WatcherIds(ws) + {w.id};
  assert WatcherIds([w]) == {w.id};
}

lemma AfterQueueCons(s: SchedState, ws: seq<Watcher>, hasPromise: bool)
  requires ws != []
  ensures AfterQueue(AfterQueue(s, [ws[0]], hasPromise), ws[1..], hasPromise) == AfterQueue(s, ws, hasPromise)
{
  var w := ws[0];
  assert WatcherIds(ws) == {w.id} + WatcherIds(ws[1..]) by { assert ws == [w] + ws[1..]; }
  assert WatcherIds([w]) == {w.id};
  assert [w][1..] == [];
  assert EnqueuedAll(s.queue, s.has, s.flushing, s.index, [w]) == Enqueued(s.queue, s.has, s.flushing, s.index, w);
  assert s.has + {w.id} + WatcherIds(ws[1..]) == s.has + WatcherIds(ws);
}

lemma {:induction false} EnqueuedAllSnoc(q: seq<Watcher>, has: set<nat>, flushing: bool, index: nat, ws: seq<Watcher>, w: Watcher)
  ensures EnqueuedAll(q, has, flushing, index, ws + [w])
    == EnqueuedAll(EnqueuedAll(q, has, flushing, index, ws), has + WatcherIds(ws), flushing, index, [w])
  decreases |ws|
{
  if ws == [] {
    assert ws + [w] == [w];
    assert WatcherIds(ws) == {};
    assert has + {} == has;
  } else {
    assert (ws + [w])[0] == ws[0] && (ws + [w])[1..] == ws[1..] + [w];
    EnqueuedAllSnoc(Enqueued(q, has, flushing, index, ws[0]), has + {ws[0].id}, flushing, index, ws[1..], w);
    assert WatcherIds(ws) == {ws[0].id} + WatcherIds(ws[1..]) by {
      assert ws == [ws[0]] + ws[1..];
    }
    assert has + {ws[0].id} + WatcherIds(ws[1..]) == has + WatcherIds(ws);
  }
}

/** `s1` is `s` during a flush with entries spliced in behind the current
    one: the flags, the position, the counts and the tick queue stay, and
    the queue keeps its entries up to the current one and its waiting part
    in id order. */
ghost predicate Spliced(s: SchedState, s1: SchedState) {
  && s1.waiting && s1.flushing && s1.ticks == s.ticks && s1.index == s.index
  && s1.circular == s.circular && s1.lastRun == s.lastRun
  && multiset(s.queue) <= multiset(s1.queue) && |s.queue| <= |s1.queue|
  && s.index < |s.queue| && s1.queue[..s.index + 1] == s.queue[..s.index + 1] && SortedFrom(s1.queue, s.index + 1)
}

/** The effect log `e1` is `e0` with effects appended. */
ghost predicate Appended(e0: seq<Effect>, e1: seq<Effect>) {
  e0 <= e1
}

/** An effect log that grew twice has grown. */
lemma AppendedTrans(e0: seq<Effect>, e1: seq<Effect>, e2: seq<Effect>)
  requires Appended(e0, e1) && Appended(e1, e2)
  ensures Appended(e0, e2)
{
}

/** One pass of the flush loop on values: the entry at `index` was run
    (`s1`), then recorded in `lastRun` and, unless the flush broke off,
    stepped past (`s2`). */
lemma RanNext(s0: SchedState, s1: SchedState, s2: SchedState, w: Watcher, broke: bool)
  requires s0.index < |s0.queue| && w == s0.queue[s0.index] && s0.lastRun == s0.queue[..s0.index]
  requires Spliced(s0, s1)
  requires s2.queue == s1.queue && s2.lastRun == s1.lastRun + [w] && s2.index == (if broke then s1.index else s1.index + 1)
  ensures multiset(s0.queue) <= multiset(s2.queue) && |s0.queue| <= |s2.queue|
  ensures s2.queue[..s0.index + 1] == s0.queue[..s0.index + 1] && s2.lastRun == s2.queue[..s0.index + 1]
  ensures !broke ==> s2.index == s0.index + 1 && SortedFrom(s2.queue, s2.index)
  ensures broke ==> SortedFrom(s2.queue, |s2.lastRun|)
{
  assert s0.queue[..s0.index + 1] == s0.lastRun + [w];
}

/** `Spliced` does not look at the `has` set. */
lemma SplicedIgnoresHas(s: SchedState, h: set<nat>, s1: SchedState)
  ensures Spliced(s.(has := h), s1) == Spliced(s, s1)
{
}

/** A batch queued while a flush runs the entry at `index` is spliced in
    behind it, adding at most one entry per queued watcher. */
lemma QueuedDuringFlush(s: SchedState, s1: SchedState, ws: seq<Watcher>, hasPromise: bool)
  requires s.waiting && s.flushing && s.index < |s.queue| && SortedFrom(s.queue, s.index)
  requires s1 == AfterQueue(s, ws, hasPromise)
  ensures Spliced(s, s1) && s1.activated == s.activated && |s1.queue| <= |s.queue| + |ws|
{
  EnqueuedAllKeeps(s.queue, s.has, true, s.index, ws);
}

/** The scheduler's state as one value. */
datatype SchedState = SchedState(
  queue: seq<Watcher>, has: set<nat>, waiting: bool, flushing: bool, index: nat,
  circular: map<nat, nat>, activated: seq<Vm>, ticks: TickState, lastRun: seq<Watcher>)

class Scheduler {
  /** `config.async`: when false, the first queued watcher flushes at once. */
  const async: bool
  const ticks: TickQueue
  var queue: seq<Watcher>
  var activatedChildren: seq<Vm>
  var has: set<nat>
  var circular: map<nat, nat>
  var waiting: bool
  var flushing: bool
  var index: nat
  /** The queue as the last flush left it, and the watchers it ran. */
  ghost var lastQueue: seq<Watcher>
  ghost var lastRun: seq<Watcher>

  constructor (async: bool, ticks: TickQueue)
    ensures this.async == async && this.ticks == ticks
    ensures queue == [] && activatedChildren == [] && has == {} && circular == map[]
    ensures !waiting && !flushing && index == 0
  {
    this.async, this.ticks := async, ticks;
    queue, activatedChildren, has, circular := [], [], {}, map[];
    waiting, flushing, index := false, false, 0;
    lastQueue, lastRun := [], [];
  }

  ghost function State(): SchedState
    reads this, ticks
  {
    SchedState(queue, has, waiting, flushing, index, circular, activatedChildren, ticks.State(), lastRun)
  }

  /** Everything a watcher run may reach. */
  ghost function World(t: Tracking, host: Host): set<object>
    reads t`deps, t`watchers
  {
    {this, ticks, host} + t.deps + t.watchers
  }

  /** Queueing a watcher now cannot start a synchronous flush. */
  predicate NoSyncFlush()
    reads this`waiting
  {
    waiting || async
  }

  /** The scheduler flush job is pending in the tick queue at most once, and
      only while a flush is awaited. */
  ghost predicate TickAgreement()
    reads this`waiting, ticks`callbacks
  {
    var n := FlushJobs(ticks.callbacks);
    n == 0 || (n == 1 && waiting && async)
  }

  /** The whole runtime refers only to objects it knows about. */
  ghost predicate Sys(t: Tracking, host: Host)
    reads this`queue, this`activatedChildren, this`waiting, ticks`callbacks, host`readings
    reads t`deps, t`depUid, t`watchers, t`vms, t`watcherUid, t`target, t`targetStack
    reads t.deps`subs, t.watchers`deps, t.watchers`depIds, t.watchers`newDeps, t.watchers`newDepIds
  {
    t.Closed()
    && TouchesWithin(host.readings, t.deps) && QueuesWithin(host.readings, t.watchers)
    && (forall w | w in queue :: w in t.watchers)
    && (forall v | v in activatedChildren :: v in t.vms)
    && TickAgreement()
  }

  /** The state after `queueWatcher` on each of `ws` from `s`, when no
      synchronous flush intervenes. */
  ghost predicate Settled(s: SchedState, ws: seq<Watcher>)
    reads this, ticks
  {
    State() == AfterQueue(s, ws, ticks.hasPromise)
  }

  /** The search of `queueWatcher` for the splice position during a flush. */
  method InsertPosition(q: seq<Watcher>, index: nat, id: nat) returns (p: nat)
    ensures p == InsertPos(q, index, id)
  {
    var i: int := |q| - 1;
    while i > index && q[i].id > id
      invariant -1 <= i < |q|
      invariant ScanFrom(q, index, id, i + 1) == InsertPos(q, index, id)
    {
      i := i - 1;
    }
    p := i + 1;
  }

  method QueueWatcher(w: Watcher, t: Tracking, host: Host)
    requires Sys(t, host) && VmsClosed(t) && w in t.watchers
    modifies World(t, host), t`target, t`targetStack, t.vms`inactive, t.vms`directInactive
    decreases if waiting then 0 else 1, 1
    ensures Sys(t, host) && VmsClosed(t)
    ensures old(NoSyncFlush()) ==> Settled(old(State()), [w]) && host.effects == old(host.effects) && host.readings == old(host.readings)
    ensures !old(NoSyncFlush()) && w.id !in old(has) ==> Reset()
  {
    AfterQueueOne(State(), w, ticks.hasPromise);
    if w.id !in has {
      Enqueue(w);
      if !waiting {
        OpenCycle(t, host);
      }
    }
  }

  /** The first queued watcher of a cycle: a flush is scheduled with
      `nextTick`, or run at once when `config.async` is off. */
  method OpenCycle(t: Tracking, host: Host)
    requires Sys(t, host) && VmsClosed(t) && !waiting
    modifies World(t, host), t`target, t`targetStack, t.vms`inactive, t.vms`directInactive
    decreases 1, 0
    ensures Sys(t, host) && VmsClosed(t)
    ensures async ==>
      State() == old(State()).(waiting := true, ticks := AfterNextTick(old(ticks.State()), Call(FlushSchedulerQueue, Undefined), ticks.hasPromise))
      && host.effects == old(host.effects) && host.readings == old(host.readings)
    ensures !async ==> Reset()
  {
    waiting := true;
    if !async {
      Flush(t, host);
      return;
    }
    ScheduleFlush(t, host);
  }

  /** `nextTick(flushSchedulerQueue)`. */
  method ScheduleFlush(t: Tracking, host: Host)
    requires Sys(t, host) && VmsClosed(t) && waiting && async && FlushJobs(ticks.callbacks) == 0
    modifies ticks`callbacks, ticks`pending, ticks`timers, ticks`promiseUid
    ensures Sys(t, host) && VmsClosed(t)
    ensures State() == old(State()).(ticks := AfterNextTick(old(ticks.State()), Call(FlushSchedulerQueue, Undefined), ticks.hasPromise))
  {
    FlushJobsConcat(ticks.callbacks, [Call(FlushSchedulerQueue, Undefined)]);
    var _ := ticks.NextTick(Some(FlushSchedulerQueue), Undefined);
  }

  /** The queue update of `queueWatcher` for a watcher not yet in `has`. */
  method Enqueue(w: Watcher)
    requires w.id !in has
    modifies this`has, this`queue
    ensures queue == Enqueued(old(queue), old(has), flushing, index, w) && has == old(has) + {w.id}
  {
    has := has + {w.id};
    if !flushing {
      queue := queue + [w];
    } else {
      var p := InsertPosition(queue, index, w.id);
      queue := queue[..p] + [w] + queue[p..];
    }
  }

  /** `queueWatcher` on each watcher a callback's writes reach. */
  method QueueAll(ws: seq<Watcher>, t: Tracking, host: Host)
    requires Sys(t, host) && VmsClosed(t) && forall w | w in ws :: w in t.watchers
    modifies World(t, host), t`target, t`targetStack, t.vms`inactive, t.vms`directInactive
    decreases if waiting then 0 else 1, 2, |ws|
    ensures Sys(t, host) && VmsClosed(t)
    ensures old(NoSyncFlush()) ==> Settled(old(State()), ws) && host.effects == old(host.effects) && host.readings == old(host.readings)
  {
    if ws != [] {
      QueueWatcher(ws[0], t, host);
      QueueAll(ws[1..], t, host);
      AfterQueueCons(old(State()), ws, ticks.hasPromise);
    }
  }

  predicate Reset()
    reads this
  {
    queue == [] && activatedChildren == [] && has == {} && circular == map[]
    && !waiting && !flushing && index == 0
  }

  method ResetSchedulerState()
    modifies this`queue, this`activatedChildren, this`has, this`circular, this`waiting, this`flushing, this`index
    ensures Reset()
  {
    index := 0;
    queue, activatedChildren := [], [];
    has := {};
    circular := map[];
    waiting, flushing := false, false;
  }

  /** `flushSchedulerQueue`: sorts the queue by id, runs the queued
      watchers in order, including those queued while it runs, unless one of
      them re-enters more than `MAX_UPDATE_COUNT` times; then resets and
      calls the activated and updated hooks. */
  method Flush(t: Tracking, host: Host)
    requires Sys(t, host) && VmsClosed(t) && waiting && FlushJobs(ticks.callbacks) == 0
    modifies World(t, host), t`target, t`targetStack, t.vms`inactive, t.vms`directInactive
    decreases 0, 12
    ensures Sys(t, host) && VmsClosed(t) && Reset()
    ensures ticks.State() == old(ticks.State())
    ensures multiset(old(queue)) <= multiset(lastQueue) && SortedFrom(lastQueue, |lastRun|)
    ensures |lastRun| <= |lastQueue| && lastRun == lastQueue[..|lastRun|]
    ensures |lastRun| < |lastQueue| ==> lastRun != [] && InfiniteUpdateLoop(lastRun[|lastRun| - 1].id) in host.effects
    ensures Appended(old(host.effects), host.effects)
  {
    BeginFlush(t, host);
    RunAndReset(t, host);
  }

  /** The loop of `flushSchedulerQueue` from its start, then its end. */
  method RunAndReset(t: Tracking, host: Host)
    requires Sys(t, host) && VmsClosed(t) && waiting && flushing && FlushJobs(ticks.callbacks) == 0
    requires index == 0 && lastRun == [] && SortedFrom(queue, 0)
    modifies World(t, host), t`target, t`targetStack, t.vms`inactive, t.vms`directInactive
    decreases 0, 11
    ensures Sys(t, host) && VmsClosed(t) && Reset()
    ensures ticks.State() == old(ticks.State())
    ensures multiset(old(queue)) <= multiset(lastQueue) && SortedFrom(lastQueue, |lastRun|)
    ensures |lastRun| <= |lastQueue| && lastRun == lastQueue[..|lastRun|]
    ensures |lastRun| < |lastQueue| ==> lastRun != [] && InfiniteUpdateLoop(lastRun[|lastRun| - 1].id) in host.effects
    ensures Appended(old(host.effects), host.effects)
  {
    RunQueue(t, host);
    EndFlush(t, host);
  }

  /** The start of `flushSchedulerQueue`: `flushing = true` and the sort. */
  method BeginFlush(t: Tracking, host: Host)
    requires Sys(t, host)
    modifies this`flushing, this`queue, this`index, this`lastRun
    ensures Sys(t, host) && flushing && index == 0 && lastRun == []
    ensures queue == SortById(old(queue))
  {
    var sorted := SortById(queue);
    forall w | w in sorted ensures w in queue {
      assert w in multiset(sorted);
    }
    flushing := true;
    queue := sorted;
    index := 0;
    lastRun := [];
  }

  /** The end of `flushSchedulerQueue`: the reset, then the activated and
      updated hooks on copies of the two queues. */
  method EndFlush(t: Tracking, host: Host)
    requires Sys(t, host) && VmsClosed(t) && FlushJobs(ticks.callbacks) == 0
    modifies this`lastQueue, this`queue, this`activatedChildren, this`has, this`circular, this`waiting, this`flushing, this`index
    modifies t.vms`inactive, t.vms`directInactive, host`effects
    ensures Sys(t, host) && VmsClosed(t) && Reset() && lastQueue == old(queue)
    ensures old(host.effects) <= host.effects
  {
    lastQueue := queue;
    var activatedQueue := activatedChildren;
    var updatedQueue := queue;
    ResetSchedulerState();
    HooksAfterFlush(activatedQueue, updatedQueue, t, host);
  }

  /** `callActivatedHooks` and `callUpdatedHooks` on the copies of the two
      queues, which leave the scheduler's own state alone. */
  method HooksAfterFlush(activated: seq<Vm>, updated: seq<Watcher>, t: Tracking, host: Host)
    requires Sys(t, host) && VmsClosed(t) && forall v | v in activated :: v in t.vms
    modifies t.vms`inactive, t.vms`directInactive, host`effects
    ensures Sys(t, host) && VmsClosed(t)
    ensures forall v | v in activated :: !v.directInactive
    ensures old(host.effects) <= host.effects
  {
    CallActivatedHooks(activated, t, host);
    CallUpdatedHooks(updated, host);
  }

  /** The measure of a flush: entries still to run, plus the queue requests
      the remaining getter calls can still make. */
  function FlushMeasure(host: Host): int
    reads this`queue, this`index, host`readings
  {
    |queue| - index + QueueBudget(host.readings)
  }

  /** The `for` loop of `flushSchedulerQueue` from the current `index`. */
  method RunQueue(t: Tracking, host: Host)
    requires Sys(t, host) && VmsClosed(t) && waiting && flushing && FlushJobs(ticks.callbacks) == 0
    requires index <= |queue| && lastRun == queue[..index] && SortedFrom(queue, index)
    modifies World(t, host), t`target, t`targetStack, t.vms`inactive, t.vms`directInactive
    decreases 0, 10, FlushMeasure(host)
    ensures Sys(t, host) && VmsClosed(t) && waiting && ticks.State() == old(ticks.State())
    ensures multiset(old(queue)) <= multiset(queue) && SortedFrom(queue, |lastRun|)
    ensures |lastRun| <= |queue| && lastRun == queue[..|lastRun|]
    ensures |lastRun| < |queue| ==> lastRun != [] && InfiniteUpdateLoop(lastRun[|lastRun| - 1].id) in host.effects
    ensures Appended(old(host.effects), host.effects)
  {
    if index < |queue| {
      ghost var q0 := queue;
      var broke := RunNext(t, host);
      if !broke {
        ghost var q1, e1 := queue, host.effects;
        RunQueue(t, host);
        AppendedTrans(old(host.effects), e1, host.effects);
        assert multiset(q0) <= multiset(q1) <= multiset(queue);
      } else {
        assert |lastRun| == old(index) + 1;
      }
    }
  }

  /** One pass of the loop: `before`, `has[id] = null`, `run`, and the
      circular-update check, which may end the flush. */
  method RunNext(t: Tracking, host: Host) returns (broke: bool)
    requires Sys(t, host) && VmsClosed(t) && waiting && flushing && FlushJobs(ticks.callbacks) == 0
    requires index < |queue| && lastRun == queue[..index] && SortedFrom(queue, index)
    modifies World(t, host), t`target, t`targetStack, t.vms`inactive, t.vms`directInactive
    decreases 0, 9, 1
    ensures Sys(t, host) && VmsClosed(t) && waiting && flushing && ticks.State() == old(ticks.State())
    ensures multiset(old(queue)) <= multiset(queue) && |old(queue)| <= |queue| && queue[..old(index) + 1] == old(queue)[..old(index) + 1]
    ensures lastRun == queue[..old(index) + 1]
    ensures !broke ==> index == old(index) + 1 && SortedFrom(queue, index) && FlushMeasure(host) < old(FlushMeasure(host))
    ensures broke ==> SortedFrom(queue, |lastRun|) && InfiniteUpdateLoop(lastRun[|lastRun| - 1].id) in host.effects
    ensures Appended(old(host.effects), host.effects)
  {
    var w := queue[index];
    ghost var s0 := State();
    ghost var mid;
    broke, mid := RunChecked(w, t, host);
    RanNext(s0, mid, State(), w, broke);
  }

  /** `RunEntry`, then the circular-update check; `mid` is the scheduler
      state between the two. */
  method RunChecked(w: Watcher, t: Tracking, host: Host) returns (broke: bool, ghost mid: SchedState)
    requires Sys(t, host) && VmsClosed(t) && waiting && flushing && FlushJobs(ticks.callbacks) == 0
    requires index < |queue| && w == queue[index] && SortedFrom(queue, index)
    modifies World(t, host), t`target, t`targetStack, t.vms`inactive, t.vms`directInactive
    decreases 0, 9, 0
    ensures Sys(t, host) && VmsClosed(t) && Spliced(old(State()), mid)
    ensures queue == mid.queue && waiting == mid.waiting && flushing == mid.flushing && ticks.State() == mid.ticks
    ensures lastRun == mid.lastRun + [w] && index == (if broke then mid.index else mid.index + 1)
    ensures !broke ==> FlushMeasure(host) < old(FlushMeasure(host))
    ensures broke ==> InfiniteUpdateLoop(w.id) in host.effects
    ensures Appended(old(host.effects), host.effects)
  {
    RunEntry(w, t, host);
    mid := State();
    ghost var e1 := host.effects;
    broke := AfterRun(w, t, host);
    AppendedTrans(old(host.effects), e1, host.effects);
  }

  /** The loop body up to the circular-update check: `watcher.before()`,
      `has[id] = null` and `watcher.run()`. */
  method RunEntry(w: Watcher, t: Tracking, host: Host)
    requires Sys(t, host) && VmsClosed(t) && waiting && flushing && FlushJobs(ticks.callbacks) == 0
    requires index < |queue| && w == queue[index] && SortedFrom(queue, index)
    modifies World(t, host), t`target, t`targetStack, t.vms`inactive, t.vms`directInactive
    decreases 0, 8
    ensures Sys(t, host) && VmsClosed(t) && Spliced(old(State()), State())
    ensures |queue| - index + QueueBudget(host.readings) <= old(|queue| - index + QueueBudget(host.readings))
    ensures Appended(old(host.effects), host.effects)
  {
    ghost var s0 := State();
    PrepareRun(w, t, host);
    ghost var h := has;
    assert State() == s0.(has := h);
    RunQueued(w, t, host);
    SplicedIgnoresHas(s0, h, State());
  }

  /** `watcher.before()`, then `has[id] = null`. */
  method PrepareRun(w: Watcher, t: Tracking, host: Host)
    requires Sys(t, host) && VmsClosed(t)
    modifies this`has, host`effects
    ensures Sys(t, host) && VmsClosed(t)
    ensures has == old(has) - {w.id}
    ensures host.effects == old(host.effects) + (if w.hasBefore then [BeforeRun(w.id)] else [])
  {
    if w.hasBefore {
      host.Emit(BeforeRun(w.id));
    }
    has := has - {w.id};
  }

  /** `watcher.run()` during a flush: whatever it queues is spliced in
      behind the current entry. */
  method RunQueued(w: Watcher, t: Tracking, host: Host)
    requires Sys(t, host) && VmsClosed(t) && waiting && flushing && FlushJobs(ticks.callbacks) == 0
    requires index < |queue| && w == queue[index] && SortedFrom(queue, index)
    modifies World(t, host), t`target, t`targetStack, t.vms`inactive, t.vms`directInactive
    decreases 0, 7
    ensures Sys(t, host) && VmsClosed(t) && Spliced(old(State()), State())
    ensures |queue| - index + QueueBudget(host.readings) <= old(|queue| - index + QueueBudget(host.readings))
    ensures old(host.effects) <= host.effects
  {
    ghost var s0, ws := State(), w.RunQueues(host.readings);
    ghost var r0, r1 := host.readings, w.RunReadings(host.readings);
    QueueBudgetStep(r0);
    assert |ws| + QueueBudget(r1) <= QueueBudget(r0);
    w.Run(this, t, host);
    ghost var s1 := State();
    QueuedDuringFlush(s0, s1, ws, ticks.hasPromise);
    assert host.readings == r1;
  }

  /** The circular-update check of the development build. */
  method AfterRun(w: Watcher, t: Tracking, host: Host) returns (broke: bool)
    requires Sys(t, host) && VmsClosed(t)
    modifies this`lastRun, this`circular, this`index, host`effects
    ensures Sys(t, host) && VmsClosed(t)
    ensures lastRun == old(lastRun) + [w]
    ensures circular == if w.id in has then old(circular)[w.id := CircularCount(old(circular), w.id) + 1] else old(circular)
    ensures broke == (w.id in has && CircularCount(old(circular), w.id) + 1 > MAX_UPDATE_COUNT)
    ensures host.effects == old(host.effects) + (if broke then [InfiniteUpdateLoop(w.id)] else [])
    ensures index == if broke then old(index) else old(index) + 1
  {
    lastRun := lastRun + [w];
    broke := false;
    if w.id in has {
      var n := CircularCount(circular, w.id) + 1;
      circular := circular[w.id := n];
      if n > MAX_UPDATE_COUNT {
        host.Emit(InfiniteUpdateLoop(w.id));
        broke := true;
      }
    }
    if !broke {
      index := index + 1;
    }
  }

  /** `callUpdatedHooks`: from the end of the flushed queue backwards, the
      `updated` hook of each component whose render watcher it is, once
      mounted and while not destroyed. */
  method CallUpdatedHooks(q: seq<Watcher>, host: Host)
    modifies host`effects
    ensures host.effects == old(host.effects) + UpdatedHooks(q)
  {
    var i := |q|;
    while i > 0
      invariant 0 <= i <= |q| && host.effects == old(host.effects) + UpdatedHooks(q[i..])
    {
      i := i - 1;
      var w := q[i];
      var vm := w.vm;
      assert q[i..][1..] == q[i + 1..];
      if vm.watcher == Some(w) && vm.isMounted && !vm.isDestroyed {
        CallHook(vm, Updated, host);
      }
    }
  }

  /** `queueActivatedComponent`: marks the component active at once and
      keeps it for the `activated` hooks after the flush. */
  method QueueActivatedComponent(vm: Vm)
    modifies this`activatedChildren, vm`inactive
    ensures vm.inactive == Some(false) && activatedChildren == old(activatedChildren) + [vm]
  {
    vm.inactive := Some(false);
    activatedChildren := activatedChildren + [vm];
  }

  /** `callActivatedHooks`: each kept-alive component is marked inactive and
      activated directly, in queue order. */
  method CallActivatedHooks(q: seq<Vm>, t: Tracking, host: Host)
    requires VmsClosed(t) && forall v | v in q :: v in t.vms
    modifies t.vms`inactive, t.vms`directInactive, host`effects
    ensures VmsClosed(t)
    ensures forall v | v in q :: !v.directInactive
    ensures forall u | u in t.vms && u !in q :: u.directInactive == old(u.directInactive)
    ensures old(host.effects) <= host.effects
  {
    var i := 0;
    while i < |q|
      invariant i <= |q| && VmsClosed(t)
      invariant forall j | 0 <= j < i :: !q[j].directInactive
      invariant forall u | u in t.vms && u !in q[..i] :: u.directInactive == old(u.directInactive)
      invariant old(host.effects) <= host.effects
    {
      assert q[..i + 1] == q[..i] + [q[i]];
      ActivateQueued(q[i], t, host);
      i := i + 1;
    }
    assert q[..i] == q;
  }

  /** One entry of `callActivatedHooks`: `_inactive = true`, then a direct
      `activateChildComponent`. */
  method ActivateQueued(vm: Vm, t: Tracking, host: Host)
    requires VmsClosed(t) && vm in t.vms
    modifies t.vms`inactive, t.vms`directInactive, host`effects
    ensures !vm.directInactive
    ensures forall u | u in t.vms && u != vm :: u.directInactive == old(u.directInactive)
    ensures old(host.effects) <= host.effects
  {
    vm.inactive := Some(true);
    ActivateChildComponent(vm, true, t, host);
  }
}

/** `circular[id] || 0`. */
function CircularCount(circular: map<nat, nat>, id: nat): nat {
  if id in circular then circular[id] else 0
}

/** The `updated` hooks `callUpdatedHooks` fires for `q`, last entry first. */
function UpdatedHooks(q: seq<Watcher>): seq<Effect>
  reads set w | w in q :: w.vm
{
  if q == [] then []
  else
    var vm := q[0].vm;
    UpdatedHooks(q[1..]) + (if vm.watcher == Some(q[0]) && vm.isMounted && !vm.isDestroyed then [Hook(vm.uid, Updated)] else [])
}
