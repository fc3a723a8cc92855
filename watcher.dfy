/* The watchers of src/core/observer/watcher.js.  A watcher evaluates its
   getter with itself as `Dep.target`, so that every dep the getter touches
   subscribes it; `deps`/`depIds` hold the deps of the last evaluation and
   `newDeps`/`newDepIds` those being collected by the current one.  The
   getter and the callback are user code: a getter call is answered by the
   host's script, and the callback is recorded as an effect. */

/** `options` of the constructor; an absent object reads as all flags false. */
datatype WatcherOptions = WatcherOptions(deep: bool, user: bool, computed: bool, sync: bool, before: bool)

/** The callback `getAndInvoke` runs: the watcher's own `cb` (from `run`), or
    the closure of `update` that notifies a computed watcher's subscribers. */
datatype Invocation = OwnCallback | NotifySubscribers

/** `getAndInvoke` fires when the value is not `===` the old one, when it is an
    object (which may have been mutated in place) or when the watcher is deep. */
predicate Fires(newValue: Value, oldValue: Value, deep: bool) {
  !StrictEquals(newValue, oldValue) || IsObject(newValue) || deep
}

/** The deps an evaluation collects from the deps its getter touched, in
    order: the first dep with each id, as `addDep` keeps them. */
/** One more dependency read: the prefix grows by that dependency. */
lemma CollectedStep(touched: seq<Dep>, n: nat)
  requires 0 < n <= |touched|
  ensures var d := touched[n - 1];
    IdsOf(touched[..n]) == IdsOf(touched[..n - 1]) + {d.id}
    && Collected(touched[..n]) == if d.id in IdsOf(touched[..n - 1]) then Collected(touched[..n - 1]) else Collected(touched[..n - 1]) + [d]
{
  assert touched[..n] == touched[..n - 1] + [touched[n - 1]];
  assert touched[..n][..n - 1] == touched[..n - 1];
}

function Collected(touched: seq<Dep>): (r: seq<Dep>)
  ensures IdsOf(r) == IdsOf(touched) && DistinctIds(r)
  ensures forall d | d in r :: d in touched
{
  if touched == [] then []
  else
    var p := Collected(touched[..|touched| - 1]);
    var d := touched[|touched| - 1];
    assert touched == touched[..|touched| - 1] + [d];
    assert IdsOf(touched) == IdsOf(touched[..|touched| - 1]) + {d.id};
    if d.id in IdsOf(p) then p
    else
      assert IdsOf(p + [d]) == IdsOf(p) + {d.id};
      assert forall i | 0 <= i < |p| :: p[i].id in IdsOf(p);
      p + [d]
}

/** The subscriber list of the dep with id `id` after watcher `w` has been
    re-evaluated: subscribed when it became a dependency, unsubscribed (first
    occurrence) when it stopped being one, and unchanged otherwise. */
function SubsAfter(s: seq<Watcher>, id: nat, w: Watcher, oldIds: set<nat>, newIds: set<nat>): seq<Watcher> {
  if id in newIds && id !in oldIds then s + [w]
  else if id in oldIds && id !in newIds then RemoveFirst(s, w)
  else s
}

/** If `w` was subscribed to a dep once when it depended on it and not at all
    otherwise, the same holds after a re-evaluation, for the new dependencies;
    other subscribers are untouched. */
lemma SubscribedOnce(s: seq<Watcher>, id: nat, w: Watcher, oldIds: set<nat>, newIds: set<nat>, x: Watcher)
  requires Count(s, w) == (if id in oldIds then 1 else 0)
  ensures Count(SubsAfter(s, id, w, oldIds, newIds), w) == (if id in newIds then 1 else 0)
  ensures x != w ==> Count(SubsAfter(s, id, w, oldIds, newIds), x) == Count(s, x)
{
  CountConcat(s, [w], w);
  CountConcat(s, [w], x);
  RemoveFirstCount(s, w, x);
  CountZero(s, w);
  assert [w][1..] == [];
}

class Watcher {
  const vm: Vm
  const id: nat
  const deep: bool
  const user: bool
  const computed: bool
  const sync: bool
  /** Whether `options.before` was given. */
  const hasBefore: bool
  /** The dep of a computed watcher, through which others depend on it. */
  const dep: Option<Dep>
  var active: bool
  var dirty: bool
  var value: Value
  var deps: seq<Dep>
  var newDeps: seq<Dep>
  var depIds: set<nat>
  var newDepIds: set<nat>

  /** Between evaluations: the id sets mirror the lists and nothing is being collected. */
  ghost predicate Idle()
    reads this`deps, this`depIds, this`newDeps, this`newDepIds
  {
    depIds == IdsOf(deps) && DistinctIds(deps) && newDeps == [] && newDepIds == {}
  }

  /** The constructor up to the first evaluation: the flags, a fresh id from
      the counter, and registration with its component.  A computed watcher
      also gets its own dep. */
  constructor (t: Tracking, vm: Vm, options: Option<WatcherOptions>, isRenderWatcher: bool)
    modifies t`watcherUid, t`watchers, t`depUid, t`deps, vm`watcher, vm`watchers
    ensures this.vm == vm && id == old(t.watcherUid) + 1 && t.watcherUid == id
    ensures options.Some? ==>
      deep == options.value.deep && user == options.value.user
      && computed == options.value.computed && sync == options.value.sync && hasBefore == options.value.before
    ensures options.None? ==> !deep && !user && !computed && !sync && !hasBefore
    ensures active && dirty == computed && value == Undefined && Idle() && deps == []
    ensures computed ==>
      dep.Some? && fresh(dep.value) && dep.value.subs == [] && dep.value.id == old(t.depUid)
      && t.deps == old(t.deps) + {dep.value} && t.depUid == old(t.depUid) + 1
    ensures !computed ==> dep.None? && t.deps == old(t.deps) && t.depUid == old(t.depUid)
    ensures t.watchers == old(t.watchers) + {this}
    ensures vm.watchers == old(vm.watchers) + [this]
    ensures vm.watcher == if isRenderWatcher then Some(this) else old(vm.watcher)
  {
    this.vm := vm;
    var o := options.GetOr(WatcherOptions(false, false, false, false, false));
    deep, user, computed, sync, hasBefore := o.deep, o.user, o.computed, o.sync, o.before;
    id := t.watcherUid + 1;
    active, dirty, value := true, o.computed, Undefined;
    deps, newDeps, depIds, newDepIds := [], [], {}, {};
    if o.computed {
      var d := new Dep(t);
      dep := Some(d);
    } else {
      dep := None;
    }
    new;
    if isRenderWatcher {
      vm.watcher := Some(this);
    }
    vm.watchers := vm.watchers + [this];
    t.watcherUid := id;
    t.watchers := t.watchers + {this};
  }

  /** Records `d` in this evaluation, at most once per id, and subscribes to it
      unless the previous evaluation already had. */
  method AddDep(d: Dep)
    modifies this`newDeps, this`newDepIds, d`subs
    ensures d.id in old(newDepIds) ==> newDeps == old(newDeps) && newDepIds == old(newDepIds) && d.subs == old(d.subs)
    ensures d.id !in old(newDepIds) ==>
      newDeps == old(newDeps) + [d] && newDepIds == old(newDepIds) + {d.id}
      && d.subs == (if d.id in depIds then old(d.subs) else old(d.subs) + [this])
  {
    if d.id !in newDepIds {
      newDepIds := newDepIds + {d.id};
      newDeps := newDeps + [d];
      if d.id !in depIds {
        d.AddSub(this);
      }
    }
  }

  /** Unsubscribes from every old dep this evaluation did not touch, then
      makes the collected deps the current ones. */
  method CleanupDeps()
    requires DistinctIds(deps)
    modifies this`deps, this`newDeps, this`depIds, this`newDepIds, (set d | d in deps)`subs
    ensures deps == old(newDeps) && depIds == old(newDepIds) && newDeps == [] && newDepIds == {}
    ensures forall d | d in old(deps) ::
      d.subs == if d.id in old(newDepIds) then old(d.subs) else RemoveFirst(old(d.subs), this)
  {
    var i := |deps|;
    while i > 0
      invariant 0 <= i <= |deps| && deps == old(deps) && newDeps == old(newDeps) && newDepIds == old(newDepIds)
      invariant forall j | 0 <= j < |deps| ::
        deps[j].subs == if i <= j && deps[j].id !in newDepIds then RemoveFirst(old(deps[j].subs), this) else old(deps[j].subs)
    {
      i := i - 1;
      var d := deps[i];
      if d.id !in newDepIds {
        d.RemoveSub(this);
      }
    }
    depIds, newDepIds := newDepIds, {};
    deps, newDeps := newDeps, [];
  }

  /** Evaluates the getter with this watcher as the target and re-collects
      its deps. */
  method Get(t: Tracking, host: Host) returns (v: Value)
    requires t.Closed() && this in t.watchers && TouchesWithin(host.readings, t.deps)
    modifies this`deps, this`newDeps, this`depIds, this`newDepIds, t`target, t`targetStack, host`readings, t.deps`subs
    ensures Idle()
    ensures var r := NextReading(old(host.readings));
      v == r.value && deps == Collected(r.touched) && depIds == IdsOf(r.touched)
      && forall d | d in t.deps :: d.subs == SubsAfter(old(d.subs), d.id, this, old(depIds), depIds)
    ensures host.readings == RestReadings(old(host.readings))
    ensures t.Targets() == Popped(Pushed(old(t.Targets()), Some(this)))
    ensures t.Closed() && TouchesWithin(host.readings, t.deps)
    ensures QueuesWithin(old(host.readings), t.watchers) ==> QueuesWithin(host.readings, t.watchers)
  {
    v := TrackedGet(t, host);
    forall x | x in t.watchers
      ensures x.Idle() && forall d | d in x.deps :: d in t.deps
    {
      if x != this {
        assert old(x.Idle());
      }
    }
    assert t.WatchersKnown();
  }

  /** `get` without the bookkeeping of `Closed`. */
  method TrackedGet(t: Tracking, host: Host) returns (v: Value)
    requires t.Closed() && this in t.watchers && TouchesWithin(host.readings, t.deps)
    modifies this`deps, this`newDeps, this`depIds, this`newDepIds, t`target, t`targetStack, host`readings, t.deps`subs
    ensures Idle() && (forall d | d in deps :: d in t.deps) && t.SubsKnown()
    ensures var r := NextReading(old(host.readings));
      v == r.value && deps == Collected(r.touched) && depIds == IdsOf(r.touched)
      && forall d | d in t.deps :: d.subs == SubsAfter(old(d.subs), d.id, this, old(depIds), depIds)
    ensures host.readings == RestReadings(old(host.readings))
    ensures t.Targets() == Popped(Pushed(old(t.Targets()), Some(this)))
    ensures t.deps == old(t.deps) && t.depUid == old(t.depUid) && t.watchers == old(t.watchers)
    ensures t.vms == old(t.vms) && t.watcherUid == old(t.watcherUid)
    ensures TouchesWithin(host.readings, t.deps)
    ensures QueuesWithin(old(host.readings), t.watchers) ==> QueuesWithin(host.readings, t.watchers)
  {
    var r;
    ghost var before;
    r, before := CollectWithTarget(t, host);
    FinishCollection(t, before);
    v := r.value;
  }

  /** The getter call of `get` between `pushTarget(this)` and `popTarget()`,
      with the `depend()` calls it makes.  `before` holds the subscriber
      lists as they were. */
  method CollectWithTarget(t: Tracking, host: Host) returns (r: Reading, ghost before: map<Dep, seq<Watcher>>)
    requires t.Closed() && this in t.watchers && TouchesWithin(host.readings, t.deps)
    modifies this`newDeps, this`newDepIds, t`target, t`targetStack, host`readings, t.deps`subs
    ensures r == NextReading(old(host.readings)) && host.readings == RestReadings(old(host.readings))
    ensures t.Targets() == Popped(Pushed(old(t.Targets()), Some(this)))
    ensures newDeps == Collected(r.touched) && newDepIds == IdsOf(r.touched)
    ensures forall d | d in t.deps ::
      d in before && before[d] == old(d.subs) &&
      d.subs == if d.id in newDepIds && d.id !in depIds then before[d] + [this] else before[d]
    ensures forall d, w | d in t.deps && w in before[d] :: w in t.watchers
    ensures (forall d | d in newDeps :: d in t.deps) && DistinctIds(newDeps)
    ensures unchanged(t`deps, t`depUid, t`watchers, t`vms, t`watcherUid)
    ensures TouchesWithin(host.readings, t.deps)
    ensures QueuesWithin(old(host.readings), t.watchers) ==> QueuesWithin(host.readings, t.watchers)
  {
    ghost var known := (t.deps, t.depUid, t.watchers, t.vms, t.watcherUid);
    t.PushTarget(Some(this));
    r := host.CallGetter();
    assert (t.deps, t.depUid, t.watchers, t.vms, t.watcherUid) == known;
    before := map d | d in t.deps :: d.subs;
    assert forall d, w | d in t.deps && w in before[d] :: w in t.watchers;
    CollectDeps(r.touched, t);
    t.PopTarget();
  }

  /** The end of `get`: `cleanupDeps` after the getter's `depend()` calls,
      which left the subscriber lists as `before` plus this watcher on the
      deps it newly depends on. */
  method FinishCollection(t: Tracking, ghost before: map<Dep, seq<Watcher>>)
    requires depIds == IdsOf(deps) && DistinctIds(deps) && t.DepIdsFresh() && this in t.watchers
    requires (forall d | d in deps :: d in t.deps) && (forall d | d in newDeps :: d in t.deps)
    requires newDepIds == IdsOf(newDeps) && DistinctIds(newDeps)
    requires forall d | d in t.deps ::
      d in before && d.subs == if d.id in newDepIds && d.id !in depIds then before[d] + [this] else before[d]
    requires forall d, w | d in t.deps && w in before[d] :: w in t.watchers
    modifies this`deps, this`newDeps, this`depIds, this`newDepIds, t.deps`subs
    ensures deps == old(newDeps) && depIds == old(newDepIds) && Idle()
    ensures forall d | d in t.deps :: d.subs == SubsAfter(before[d], d.id, this, old(depIds), depIds)
    ensures forall d, w | d in t.deps && w in d.subs :: w in t.watchers
    ensures unchanged(t`deps, t`depUid, t`watchers, t`vms, t`watcherUid)
  {
    ghost var newIds := newDepIds;
    CleanupDeps();
    forall d | d in t.deps
      ensures d.subs == SubsAfter(before[d], d.id, this, old(depIds), newIds)
    {
      assert d in old(deps) <==> d.id in old(depIds);
    }
    forall d, w | d in t.deps && w in d.subs ensures w in t.watchers {
      if w != this && d.id in old(depIds) && d.id !in newIds {
        RemoveFirstSubset(before[d], this, w);
      }
    }
  }

  /** The `depend()` calls of one getter run, with this watcher as the target. */
  method CollectDeps(touched: seq<Dep>, t: Tracking)
    requires t.target == Some(this) && newDeps == [] && newDepIds == {} && t.DepIdsFresh()
    requires forall d | d in touched :: d in t.deps
    modifies this`newDeps, this`newDepIds, t.deps`subs
    ensures newDeps == Collected(touched) && newDepIds == IdsOf(touched)
    ensures forall d | d in t.deps ::
      d.subs == if d.id in IdsOf(touched) && d.id !in depIds then old(d.subs) + [this] else old(d.subs)
    ensures unchanged(t`deps, t`depUid, t`watchers, t`vms, t`watcherUid)
  {
    ghost var before := map d | d in t.deps :: d.subs;
    for i := 0 to |touched|
      invariant newDeps == Collected(touched[..i]) && newDepIds == IdsOf(touched[..i])
      invariant forall d | d in t.deps ::
        d.subs == if d.id in IdsOf(touched[..i]) && d.id !in depIds then before[d] + [this] else before[d]
    {
      CollectNext(touched, i + 1, t, before);
    }
    assert touched[..|touched|] == touched;
  }

  /** The `i`-th read of the getter: `touched[i].depend()`. */
  method CollectNext(touched: seq<Dep>, n: nat, t: Tracking, ghost before: map<Dep, seq<Watcher>>)
    requires 0 < n <= |touched| && touched[n - 1] in t.deps && t.target == Some(this) && t.DepIdsFresh()
    requires forall d | d in t.deps :: d in before
    requires newDeps == Collected(touched[..n - 1]) && newDepIds == IdsOf(touched[..n - 1])
    requires forall d | d in t.deps ::
      d.subs == if d.id in IdsOf(touched[..n - 1]) && d.id !in depIds then before[d] + [this] else before[d]
    modifies this`newDeps, this`newDepIds, {touched[n - 1]}`subs
    ensures newDeps == Collected(touched[..n]) && newDepIds == IdsOf(touched[..n])
    ensures forall d | d in t.deps ::
      d.subs == if d.id in IdsOf(touched[..n]) && d.id !in depIds then before[d] + [this] else before[d]
  {
    CollectedStep(touched, n);
    touched[n - 1].Depend(t);
  }

  /** Re-evaluates and, when the result `Fires`, stores it, clears `dirty` and
      invokes the callback.  The callback's writes queue the watchers the
      script names for it. */
  method GetAndInvoke(cb: Invocation, sched: Scheduler, t: Tracking, host: Host) returns (fired: bool)
    requires sched.Sys(t, host) && VmsClosed(t) && this in t.watchers
    modifies sched.World(t, host), t`target, t`targetStack, t.vms`inactive, t.vms`directInactive
    decreases if sched.waiting then 0 else 1, 5
    ensures sched.Sys(t, host) && VmsClosed(t)
    ensures var r := NextReading(old(host.readings));
      fired == Fires(r.value, old(value), deep)
      && (!(fired && cb == OwnCallback) ==>
        deps == Collected(r.touched) && sched.State() == old(sched.State())
        && value == (if fired then r.value else old(value)) && dirty == (!fired && old(dirty))
        && host.effects == old(host.effects) + (if fired then [ComputedChanged(id)] else [])
        && host.readings == RestReadings(old(host.readings)))
      && (fired && cb == OwnCallback && old(sched.NoSyncFlush()) ==>
        sched.Settled(old(sched.State()), r.queued)
        && host.effects == old(host.effects) + [WatcherCallback(id, r.value, old(value))]
        && host.readings == RestReadings(old(host.readings)))
  {
    var queued := NextReading(host.readings).queued;
    var v := SysGet(sched, t, host);
    fired := Invoke(cb, v, queued, sched, t, host);
  }

  /** `get` within the running system: it keeps `Sys` and leaves the
      scheduler alone. */
  method SysGet(sched: Scheduler, t: Tracking, host: Host) returns (v: Value)
    requires sched.Sys(t, host) && VmsClosed(t) && this in t.watchers
    modifies this`deps, this`newDeps, this`depIds, this`newDepIds, t`target, t`targetStack, host`readings, t.deps`subs
    ensures sched.Sys(t, host) && VmsClosed(t) && sched.State() == old(sched.State()) && host.effects == old(host.effects)
    ensures var r := NextReading(old(host.readings));
      v == r.value && deps == Collected(r.touched) && host.readings == RestReadings(old(host.readings))
      && forall w | w in r.queued :: w in t.watchers
  {
    assert host.readings != [] ==> NextReading(host.readings) in host.readings;
    v := Get(t, host);
  }

  /** The part of `run` after `get`: the comparison with the stored value and
      the callback, whose writes queue `queued`. */
  method Invoke(cb: Invocation, v: Value, queued: seq<Watcher>, sched: Scheduler, t: Tracking, host: Host)
    returns (fired: bool)
    requires sched.Sys(t, host) && VmsClosed(t) && this in t.watchers && forall w | w in queued :: w in t.watchers
    modifies sched.World(t, host), t`target, t`targetStack, t.vms`inactive, t.vms`directInactive
    decreases if sched.waiting then 0 else 1, 4
    ensures sched.Sys(t, host) && VmsClosed(t)
    ensures fired == Fires(v, old(value), deep)
    ensures !(fired && cb == OwnCallback) ==>
      deps == old(deps) && sched.State() == old(sched.State())
      && value == (if fired then v else old(value)) && dirty == (!fired && old(dirty))
      && host.effects == old(host.effects) + (if fired then [ComputedChanged(id)] else [])
      && host.readings == old(host.readings)
    ensures fired && cb == OwnCallback && old(sched.NoSyncFlush()) ==>
      sched.Settled(old(sched.State()), queued) && host.effects == old(host.effects) + [WatcherCallback(id, v, old(value))]
      && host.readings == old(host.readings)
  {
    fired := Fires(v, value, deep);
    if fired {
      var e := if cb == OwnCallback then WatcherCallback(id, v, value) else ComputedChanged(id);
      Store(v, e, sched, t, host);
      if cb == OwnCallback {
        Notified(queued, sched, t, host);
      }
    }
  }

  /** The writes made by a user callback: they queue `queued`. */
  method Notified(queued: seq<Watcher>, sched: Scheduler, t: Tracking, host: Host)
    requires sched.Sys(t, host) && VmsClosed(t) && this in t.watchers && forall w | w in queued :: w in t.watchers
    modifies sched.World(t, host), t`target, t`targetStack, t.vms`inactive, t.vms`directInactive
    decreases if sched.waiting then 0 else 1, 3
    ensures sched.Sys(t, host) && VmsClosed(t)
    ensures old(sched.NoSyncFlush()) ==>
      sched.Settled(old(sched.State()), queued) && host.effects == old(host.effects) && host.readings == old(host.readings)
  {
    sched.QueueAll(queued, t, host);
  }

  /** Stores a value that fired and calls back. */
  method Store(v: Value, e: Effect, sched: Scheduler, t: Tracking, host: Host)
    requires sched.Sys(t, host) && VmsClosed(t)
    modifies this`value, this`dirty, host`effects
    ensures value == v && !dirty && host.effects == old(host.effects) + [e]
    ensures sched.Sys(t, host) && VmsClosed(t)
  {
    value, dirty := v, false;
    host.Emit(e);
  }

  /** What `run` queues when it reads from `script`: the watchers the
      callback's writes reach, when the watcher is active and its new value
      fires. */
  ghost function RunQueues(script: seq<Reading>): seq<Watcher>
    reads this`active, this`value
  {
    var r := NextReading(script);
    if active && Fires(r.value, value, deep) then r.queued else []
  }

  /** The effects of `run` reading from `script`: its callback, if it fires. */
  ghost function RunEffects(script: seq<Reading>): seq<Effect>
    reads this`active, this`value
  {
    var r := NextReading(script);
    if active && Fires(r.value, value, deep) then [WatcherCallback(id, r.value, value)] else []
  }

  /** The readings left after `run`: one is spent when the watcher is active. */
  ghost function RunReadings(script: seq<Reading>): seq<Reading>
    reads this`active
  {
    if active then RestReadings(script) else script
  }

  /** The scheduler's job: re-evaluate and call back, unless torn down. */
  method Run(sched: Scheduler, t: Tracking, host: Host)
    requires sched.Sys(t, host) && VmsClosed(t) && this in t.watchers
    modifies sched.World(t, host), t`target, t`targetStack, t.vms`inactive, t.vms`directInactive
    decreases if sched.waiting then 0 else 1, 6
    ensures sched.Sys(t, host) && VmsClosed(t)
    ensures !old(active) ==>
      host.readings == old(host.readings) && host.effects == old(host.effects)
      && sched.State() == old(sched.State()) && value == old(value)
    ensures old(sched.NoSyncFlush()) ==>
      sched.Settled(old(sched.State()), old(RunQueues(host.readings)))
      && host.effects == old(host.effects) + old(RunEffects(host.readings))
      && host.readings == old(RunReadings(host.readings))
  {
    if active {
      var _ := GetAndInvoke(OwnCallback, sched, t, host);
    }
  }

  /** `update`, the subscriber interface.  A computed watcher re-evaluates
      or is marked dirty; any other runs at once or is queued. */
  method Update(sched: Scheduler, t: Tracking, host: Host)
    requires sched.Sys(t, host) && VmsClosed(t) && this in t.watchers
    modifies sched.World(t, host), t`target, t`targetStack, t`updates, t.vms`inactive, t.vms`directInactive
    decreases if sched.waiting then 0 else 1, 13
    ensures sched.Sys(t, host) && VmsClosed(t) && t.updates == old(t.updates) + [this]
    ensures old(sched.waiting) ==> sched.waiting
    ensures computed ==> ComputedUpdated(old(sched.State()), old(host.effects), old(host.readings), old(value), old(dirty), old(dep.value.subs), sched, host)
    ensures !computed && old(sched.NoSyncFlush()) ==>
      if sync then
        sched.Settled(old(sched.State()), old(RunQueues(host.readings)))
        && host.effects == old(host.effects) + old(RunEffects(host.readings))
        && host.readings == old(RunReadings(host.readings))
      else
        sched.Settled(old(sched.State()), [this]) && host.effects == old(host.effects) && host.readings == old(host.readings)
  {
    Dispatch(sched, t, host);
    t.updates := t.updates + [this];
  }

  /** The two branches of `update`. */
  method Dispatch(sched: Scheduler, t: Tracking, host: Host)
    requires sched.Sys(t, host) && VmsClosed(t) && this in t.watchers
    modifies sched.World(t, host), t`target, t`targetStack, t.vms`inactive, t.vms`directInactive
    decreases if sched.waiting then 0 else 1, 12
    ensures sched.Sys(t, host) && VmsClosed(t)
    ensures old(sched.waiting) ==> sched.waiting
    ensures computed ==> ComputedUpdated(old(sched.State()), old(host.effects), old(host.readings), old(value), old(dirty), old(dep.value.subs), sched, host)
    ensures !computed && old(sched.NoSyncFlush()) ==>
      if sync then
        sched.Settled(old(sched.State()), old(RunQueues(host.readings)))
        && host.effects == old(host.effects) + old(RunEffects(host.readings))
        && host.readings == old(RunReadings(host.readings))
      else
        sched.Settled(old(sched.State()), [this]) && host.effects == old(host.effects) && host.readings == old(host.readings)
  {
    if computed {
      Recompute(sched, t, host);
    } else {
      Schedule(sched, t, host);
    }
  }

  /** The branch of `update` for a watcher that is not computed. */
  method Schedule(sched: Scheduler, t: Tracking, host: Host)
    requires sched.Sys(t, host) && VmsClosed(t) && this in t.watchers
    modifies sched.World(t, host), t`target, t`targetStack, t.vms`inactive, t.vms`directInactive
    decreases if sched.waiting then 0 else 1, 11
    ensures sched.Sys(t, host) && VmsClosed(t)
    ensures old(sched.waiting) ==> sched.waiting
    ensures old(sched.NoSyncFlush()) ==>
      if sync then
        sched.Settled(old(sched.State()), old(RunQueues(host.readings)))
        && host.effects == old(host.effects) + old(RunEffects(host.readings))
        && host.readings == old(RunReadings(host.readings))
      else
        sched.Settled(old(sched.State()), [this]) && host.effects == old(host.effects) && host.readings == old(host.readings)
  {
    if sync {
      Run(sched, t, host);
    } else {
      sched.QueueWatcher(this, t, host);
    }
  }

  /** What `update` does to a computed watcher that had value `v0`, flag
      `dirty0` and subscribers `subs0`: with no subscriber it is only marked
      dirty; otherwise it re-evaluates and, when the value changed, tells its
      subscribers. */
  ghost predicate ComputedUpdated(s0: SchedState, effects0: seq<Effect>, script: seq<Reading>, v0: Value, dirty0: bool,
                                  subs0: seq<Watcher>, sched: Scheduler, host: Host)
    reads this`value, this`dirty, sched, sched.ticks, host`effects, host`readings
  {
    sched.State() == s0
    && if subs0 == [] then
      dirty && value == v0 && host.effects == effects0 && host.readings == script
    else
      var r := NextReading(script);
      var fired := Fires(r.value, v0, deep);
      value == (if fired then r.value else v0) && dirty == (!fired && dirty0)
      && host.readings == RestReadings(script)
      && host.effects == effects0 + (if fired then [ComputedChanged(id)] else [])
  }

  /** The computed branch of `update`. */
  method Recompute(sched: Scheduler, t: Tracking, host: Host)
    requires sched.Sys(t, host) && VmsClosed(t) && this in t.watchers && computed
    modifies sched.World(t, host), t`target, t`targetStack, t.vms`inactive, t.vms`directInactive
    decreases if sched.waiting then 0 else 1, 11
    ensures sched.Sys(t, host) && VmsClosed(t)
    ensures ComputedUpdated(old(sched.State()), old(host.effects), old(host.readings), old(value), old(dirty), old(dep.value.subs), sched, host)
  {
    if dep.value.subs == [] {
      dirty := true;
    } else {
      var _ := GetAndInvoke(NotifySubscribers, sched, t, host);
    }
  }

  /** `evaluate`, for computed watchers: the getter runs only when the
      watcher is dirty; otherwise the cached value is returned. */
  method Evaluate(t: Tracking, host: Host) returns (v: Value)
    requires t.Closed() && this in t.watchers && TouchesWithin(host.readings, t.deps)
    modifies this`deps, this`newDeps, this`depIds, this`newDepIds, this`value, this`dirty
    modifies t`target, t`targetStack, host`readings, t.deps`subs
    ensures v == value && !dirty && t.Closed() && TouchesWithin(host.readings, t.deps)
    ensures old(dirty) ==> var r := NextReading(old(host.readings));
      v == r.value && deps == Collected(r.touched) && host.readings == RestReadings(old(host.readings))
    ensures !old(dirty) ==>
      v == old(value) && deps == old(deps) && host.readings == old(host.readings)
      && t.Targets() == old(t.Targets()) && forall d | d in t.deps :: d.subs == old(d.subs)
  {
    if dirty {
      var x := Get(t, host);
      value, dirty := x, false;
    }
    v := value;
  }

  /** `depend`, for computed watchers: the watcher being evaluated comes to
      depend on this one's dep. */
  method Depend(t: Tracking)
    modifies (if dep.Some? then {dep.value} else {})`subs, t.TargetSet()`newDeps, t.TargetSet()`newDepIds
    ensures dep.Some? && t.target.None? ==> dep.value.subs == old(dep.value.subs)
    ensures dep.Some? && t.target.Some? ==> var w, d := t.target.value, dep.value;
      if d.id in old(w.newDepIds) then
        w.newDeps == old(w.newDeps) && w.newDepIds == old(w.newDepIds) && d.subs == old(d.subs)
      else
        w.newDeps == old(w.newDeps) + [d] && w.newDepIds == old(w.newDepIds) + {d.id}
        && d.subs == (if d.id in w.depIds then old(d.subs) else old(d.subs) + [w])
  {
    if dep.Some? && t.target.Some? {
      dep.value.Depend(t);
    }
  }

  /** `teardown`: leaves the component's watcher list (skipped while the
      component is being destroyed, which drops the whole list), leaves the
      subscriber list of each dep, the last first, and deactivates.  A
      second call does nothing. */
  method Teardown(t: Tracking)
    requires DistinctIds(deps)
    modifies this`active, vm`watchers, (set d | d in deps)`subs
    ensures !active
    ensures !old(active) ==> vm.watchers == old(vm.watchers) && forall d | d in deps :: d.subs == old(d.subs)
    ensures old(active) ==>
      vm.watchers == (if old(vm.isBeingDestroyed) then old(vm.watchers) else RemoveFirst(old(vm.watchers), this))
      && forall d | d in deps :: d.subs == RemoveFirst(old(d.subs), this)
    ensures old(active) && old(SubscribedExactly(this, t.deps)) ==> forall d | d in t.deps :: this !in d.subs
  {
    if active {
      if !vm.isBeingDestroyed {
        vm.watchers := RemoveFirst(vm.watchers, this);
      }
      ghost var exact, kept := SubscribedExactly(this, t.deps), vm.watchers;
      var i := |deps|;
      while i > 0
        invariant 0 <= i <= |deps| && vm.watchers == kept
        invariant forall j | 0 <= j < |deps| ::
          deps[j].subs == if i <= j then RemoveFirst(old(deps[j].subs), this) else old(deps[j].subs)
      {
        i := i - 1;
        deps[i].RemoveSub(this);
      }
      active := false;
      if exact {
        forall d | d in t.deps ensures this !in d.subs {
          if d in deps {
            RemoveFirstCount(old(d.subs), this, this);
          } else {
            CountZero(d.subs, this);
          }
        }
      }
    }
  }
}

/** `w` is subscribed to each of `ds` exactly when it depends on it, and
    then once: what `get` keeps up (see `SubscribedOnce`). */
ghost predicate SubscribedExactly(w: Watcher, ds: set<Dep>)
  reads ds`subs, w`deps
{
  forall d | d in ds :: Count(d.subs, w) == if d in w.deps then 1 else 0
}

/** `w` is in none of the subscriber lists of `ds`. */
ghost predicate Detached(w: Watcher, ds: set<Dep>)
  reads ds`subs
{
  forall d | d in ds :: w !in d.subs
}

/** `new Watcher(vm, expOrFn, cb, options, isRenderWatcher)` in full: the
    constructor, then the first evaluation, which a computed watcher
    postpones until it is read. */
method NewWatcher(t: Tracking, host: Host, vm: Vm, options: Option<WatcherOptions>, isRenderWatcher: bool) returns (w: Watcher)
  requires t.Closed() && vm in t.vms && TouchesWithin(host.readings, t.deps)
  modifies t`watcherUid, t`watchers, t`depUid, t`deps, vm`watcher, vm`watchers, t`target, t`targetStack, host`readings, t.deps`subs
  ensures fresh(w) && w in t.watchers && t.Closed() && TouchesWithin(host.readings, t.deps)
  ensures w.active && w.id == old(t.watcherUid) + 1 && t.watcherUid == w.id && w.vm == vm
  ensures w.computed ==> w.dirty && w.value == Undefined && w.deps == [] && host.readings == old(host.readings)
  ensures !w.computed ==> var r := NextReading(old(host.readings));
    w.value == r.value && w.deps == Collected(r.touched) && host.readings == RestReadings(old(host.readings))
{
  w := Register(t, vm, options, isRenderWatcher);
  if !w.computed {
    var v := w.Get(t, host);
    w.value := v;
  }
}

/** The constructor call of `NewWatcher`: the new watcher and, for a
    computed one, its dep join the known objects without breaking closure. */
method Register(t: Tracking, vm: Vm, options: Option<WatcherOptions>, isRenderWatcher: bool) returns (w: Watcher)
  requires t.Closed() && vm in t.vms
  modifies t`watcherUid, t`watchers, t`depUid, t`deps, vm`watcher, vm`watchers
  ensures fresh(w) && w in t.watchers && t.Closed() && t.deps >= old(t.deps)
  ensures !w.computed ==> t.deps == old(t.deps)
  ensures w.active && w.id == old(t.watcherUid) + 1 && t.watcherUid == w.id && w.vm == vm
  ensures w.dirty == w.computed && w.value == Undefined && w.deps == []
{
  w := new Watcher(t, vm, options, isRenderWatcher);
  assert t.DepIdsFresh();
  assert t.SubsKnown();
  assert t.WatchersKnown();
}
