/* The dependency nodes of src/core/observer/dep.js.  A `Dep` keeps the
   watchers subscribed to one reactive value.  The file's shared state (the
   id counter, `Dep.target` and `targetStack`) lives in one `Tracking`
   object, which also records, as ghost state, every dep, watcher and
   component created so far, so that an operation which may reach any of
   them can name them in its frame.

   dep.js, watcher.js, scheduler.js, lifecycle.js and observer/index.js call
   one another in a cycle, so their models share the default module, one
   file per source file. */

import opened Common

/** `Dep.target` together with `targetStack`. */
datatype TargetState = TargetState(target: Option<Watcher>, stack: seq<Watcher>)

/** `pushTarget(t)`: the current target is saved only when it is set. */
function Pushed(s: TargetState, t: Option<Watcher>): TargetState {
  TargetState(t, if s.target.Some? then s.stack + [s.target.value] else s.stack)
}

/** `popTarget()`: the target becomes the popped top, or `undefined` on an empty stack. */
function Popped(s: TargetState): TargetState {
  if s.stack == [] then TargetState(None, [])
  else TargetState(Some(s.stack[|s.stack| - 1]), s.stack[..|s.stack| - 1])
}

/** A push followed by a pop restores the state exactly when a target was set
    before the push. */
lemma PushPopRestores(s: TargetState, t: Option<Watcher>)
  ensures Popped(Pushed(s, t)) == s <==> s.target.Some? || s.stack == []
{
  if s.target.None? && s.stack != [] {
    assert Popped(Pushed(s, t)).target.Some?;
  }
}

/** With no target set, a push and a pop hand the target role to the watcher
    on top of the stack and shorten the stack: the pair is not neutral. */
lemma PushPopPromotesTop(s: TargetState, t: Option<Watcher>)
  requires s.target.None? && s.stack != []
  ensures Popped(Pushed(s, t)).target == Some(s.stack[|s.stack| - 1])
  ensures |Popped(Pushed(s, t)).stack| == |s.stack| - 1
{
}

/** The ids of a list of deps. */
function IdsOf(ds: seq<Dep>): set<nat> {
  set d | d in ds :: d.id
}

/** No two entries of `ds` share an id. */
predicate DistinctIds(ds: seq<Dep>) {
  forall i, j | 0 <= i < j < |ds| :: ds[i].id != ds[j].id
}

class Tracking {
  /** The `uid` counter of dep.js. */
  var depUid: nat
  /** The `uid` counter of watcher.js. */
  var watcherUid: nat
  var target: Option<Watcher>
  var targetStack: seq<Watcher>
  ghost var deps: set<Dep>
  ghost var watchers: set<Watcher>
  ghost var vms: set<Vm>
  /** Above the depth of every known component. */
  ghost var vmDepthBound: nat
  /** The watchers whose `update` has been called, in order. */
  ghost var updates: seq<Watcher>

  constructor ()
    ensures depUid == 0 && watcherUid == 0 && target == None && targetStack == []
    ensures deps == {} && watchers == {} && vms == {} && updates == []
  {
    depUid, watcherUid, target, targetStack := 0, 0, None, [];
    deps, watchers, vms := {}, {}, {};
    vmDepthBound, updates := 0, [];
  }

  function Targets(): TargetState
    reads this`target, this`targetStack
  {
    TargetState(target, targetStack)
  }

  /** The current target, if any: what `Dep.depend` may change. */
  function TargetSet(): set<Watcher>
    reads this`target
  {
    if target.Some? then {target.value} else {}
  }

  /** Every dep has an id below the counter, and ids identify deps. */
  ghost predicate DepIdsFresh()
    reads this`deps, this`depUid
  {
    (forall d | d in deps :: d.id < depUid)
    && (forall d1, d2 | d1 in deps && d2 in deps && d1.id == d2.id :: d1 == d2)
  }

  /** Every subscriber of a known dep is a known watcher. */
  ghost predicate SubsKnown()
    reads this`deps, this`watchers, deps`subs
  {
    forall d, w | d in deps && w in d.subs :: w in watchers
  }

  /** Every known watcher is between evaluations, lists only known deps, and
      owns a dep exactly when it is computed. */
  ghost predicate WatchersKnown()
    reads this`watchers, this`deps, this`vms, this`watcherUid
    reads watchers`deps, watchers`depIds, watchers`newDeps, watchers`newDepIds
  {
    forall w | w in watchers ::
      w.Idle() && (forall d | d in w.deps :: d in deps)
      && w.computed == w.dep.Some? && (w.dep.Some? ==> w.dep.value in deps)
      && w.vm in vms && w.id <= watcherUid
  }

  /** The objects the runtime knows about refer only to one another. */
  ghost predicate Closed()
    reads this`deps, this`depUid, this`watchers, this`vms, this`watcherUid, this`target, this`targetStack
    reads deps`subs, watchers`deps, watchers`depIds, watchers`newDeps, watchers`newDepIds
  {
    DepIdsFresh() && SubsKnown() && WatchersKnown()
    && (target.Some? ==> target.value in watchers)
    && (forall w | w in targetStack :: w in watchers)
  }

  method PushTarget(t: Option<Watcher>)
    modifies this`target, this`targetStack
    ensures Targets() == Pushed(old(Targets()), t)
  {
    if target.Some? {
      targetStack := targetStack + [target.value];
    }
    target := t;
  }

  method PopTarget()
    modifies this`target, this`targetStack
    ensures Targets() == Popped(old(Targets()))
  {
    if targetStack == [] {
      target := None;
    } else {
      target := Some(targetStack[|targetStack| - 1]);
      targetStack := targetStack[..|targetStack| - 1];
    }
  }
}

class Dep {
  const id: nat
  var subs: seq<Watcher>

  constructor (t: Tracking)
    modifies t`depUid, t`deps
    ensures id == old(t.depUid) && t.depUid == id + 1 && subs == []
    ensures t.deps == old(t.deps) + {this}
  {
    id := t.depUid;
    subs := [];
    new;
    t.depUid := t.depUid + 1;
    t.deps := t.deps + {this};
  }

  /** Appends without checking for an earlier subscription. */
  method AddSub(sub: Watcher)
    modifies this`subs
    ensures subs == old(subs) + [sub]
  {
    subs := subs + [sub];
  }

  method RemoveSub(sub: Watcher)
    modifies this`subs
    ensures subs == RemoveFirst(old(subs), sub)
  {
    subs := RemoveFirst(subs, sub);
  }

  /** Registers this dep with the watcher being evaluated, if there is one. */
  method Depend(t: Tracking)
    modifies this`subs, t.TargetSet()`newDeps, t.TargetSet()`newDepIds
    ensures t.target.None? ==> subs == old(subs)
    ensures t.target.Some? ==> var w := t.target.value;
      if id in old(w.newDepIds) then
        w.newDeps == old(w.newDeps) && w.newDepIds == old(w.newDepIds) && subs == old(subs)
      else
        w.newDeps == old(w.newDeps) + [this] && w.newDepIds == old(w.newDepIds) + {id}
        && subs == (if id in w.depIds then old(subs) else old(subs) + [w])
  {
    if t.target.Some? {
      t.target.value.AddDep(this);
    }
  }

  /** `notify`: calls `update` on a copy of the subscriber list taken on
      entry, so that subscribers added or removed meanwhile do not change
      who is told.  When every subscriber is a plain (not computed, not
      sync) watcher, the net effect is that of queueing them in order. */
  method Notify(sched: Scheduler, t: Tracking, host: Host)
    requires sched.Sys(t, host) && VmsClosed(t) && this in t.deps
    modifies sched.World(t, host), t`target, t`targetStack, t`updates, t.vms`inactive, t.vms`directInactive
    decreases if sched.waiting then 0 else 1, 15
    ensures sched.Sys(t, host) && VmsClosed(t) && t.updates == old(t.updates) + old(subs)
    ensures old(sched.waiting) ==> sched.waiting
    ensures Plain(old(subs)) && old(sched.NoSyncFlush()) ==>
      sched.Settled(old(sched.State()), old(subs)) && host.effects == old(host.effects) && host.readings == old(host.readings)
  {
    NotifyFrom(subs, 0, sched, t, host);
  }

  /** The loop of `notify` from position `i` of the copied list `ss`. */
  static method NotifyFrom(ss: seq<Watcher>, i: nat, sched: Scheduler, t: Tracking, host: Host)
    requires i <= |ss| && sched.Sys(t, host) && VmsClosed(t) && forall w | w in ss :: w in t.watchers
    modifies sched.World(t, host), t`target, t`targetStack, t`updates, t.vms`inactive, t.vms`directInactive
    decreases if sched.waiting then 0 else 1, 14, 2 * (|ss| - i)
    ensures sched.Sys(t, host) && VmsClosed(t) && t.updates == old(t.updates) + ss[i..]
    ensures old(sched.waiting) ==> sched.waiting
    ensures Plain(ss[i..]) && old(sched.NoSyncFlush()) ==>
      sched.Settled(old(sched.State()), ss[i..]) && host.effects == old(host.effects) && host.readings == old(host.readings)
  {
    if i < |ss| {
      ss[i].Update(sched, t, host);
      NotifyNext(ss, i, old(sched.State()), old(t.updates), old(host.effects), old(host.readings), sched, t, host);
    }
  }

  /** The rest of `NotifyFrom` once `ss[i]` has been told: the state before
      was `s0`, the trace `u0`, the effects `e0` and the script `r0`. */
  static method NotifyNext(ss: seq<Watcher>, i: nat, ghost s0: SchedState, ghost u0: seq<Watcher>,
                           ghost e0: seq<Effect>, ghost r0: seq<Reading>,
                           sched: Scheduler, t: Tracking, host: Host)
    requires i < |ss| && sched.Sys(t, host) && VmsClosed(t) && forall w | w in ss :: w in t.watchers
    requires t.updates == u0 + [ss[i]] && (s0.waiting ==> sched.waiting)
    requires Plain([ss[i]]) && (s0.waiting || sched.async) ==> sched.Settled(s0, [ss[i]]) && host.effects == e0 && host.readings == r0
    modifies sched.World(t, host), t`target, t`targetStack, t`updates, t.vms`inactive, t.vms`directInactive
    decreases if sched.waiting then 0 else 1, 14, 2 * (|ss| - i) - 1
    ensures sched.Sys(t, host) && VmsClosed(t) && t.updates == u0 + ss[i..]
    ensures s0.waiting ==> sched.waiting
    ensures Plain(ss[i..]) && (s0.waiting || sched.async) ==> sched.Settled(s0, ss[i..]) && host.effects == e0 && host.readings == r0
  {
    ghost var go := Plain(ss[i..]) && (s0.waiting || sched.async);
    SuffixStep(ss, i, u0);
    if go {
      assert ss[i] in ss[i..];
      assert Plain([ss[i]]) && sched.NoSyncFlush();
    }
    NotifyFrom(ss, i + 1, sched, t, host);
    if go {
      assert Plain(ss[i + 1..]);
      AfterQueueCons(s0, ss[i..], sched.ticks.hasPromise);
    }
  }
}

/** None of `ws` is computed or sync, so `update` queues each. */
predicate Plain(ws: seq<Watcher>) {
  forall w | w in ws :: !w.computed && !w.sync
}

/** `newDeps` after `depend()` on each of `ds` in order, from `newDeps` with
    ids `ids`: a dep is appended the first time its id is seen. */
function AddedDeps(newDeps: seq<Dep>, ids: set<nat>, ds: seq<Dep>): seq<Dep>
  decreases |ds|
{
  if ds == [] then newDeps
  else if ds[0].id in ids then AddedDeps(newDeps, ids, ds[1..])
  else AddedDeps(newDeps + [ds[0]], ids + {ds[0].id}, ds[1..])
}

/** Depending on `a` and then on `b` is depending on `a + b`. */
lemma {:induction false} AddedDepsConcat(newDeps: seq<Dep>, ids: set<nat>, a: seq<Dep>, b: seq<Dep>)
  ensures AddedDeps(newDeps, ids, a + b) == AddedDeps(AddedDeps(newDeps, ids, a), ids + IdsOf(a), b)
  decreases |a|
{
  if a == [] {
    assert a + b == b;
    assert IdsOf(a) == {};
    assert ids + IdsOf(a) == ids;
  } else {
    assert (a + b)[0] == a[0] && (a + b)[1..] == a[1..] + b;
    assert IdsOf(a) == {a[0].id} + IdsOf(a[1..]) by {
      assert forall d | d in a :: d == a[0] || d in a[1..];
      assert forall d | d in a[1..] :: d in a;
    }
    if a[0].id in ids {
      AddedDepsConcat(newDeps, ids, a[1..], b);
      assert ids + IdsOf(a[1..]) == ids + IdsOf(a);
    } else {
      AddedDepsConcat(newDeps + [a[0]], ids + {a[0].id}, a[1..], b);
      assert ids + {a[0].id} + IdsOf(a[1..]) == ids + IdsOf(a);
    }
  }
}

/** Appending deps to the collected list leaves no id twice: `AddedDeps` keeps
    the collected list free of repeated ids when its id set is accurate. */
lemma {:induction false} AddedDepsIds(newDeps: seq<Dep>, ids: set<nat>, ds: seq<Dep>)
  requires IdsOf(newDeps) == ids
  ensures IdsOf(AddedDeps(newDeps, ids, ds)) == ids + IdsOf(ds)
  decreases |ds|
{
  if ds != [] {
    assert IdsOf(ds) == {ds[0].id} + IdsOf(ds[1..]) by {
      assert forall d | d in ds :: d == ds[0] || d in ds[1..];
      assert forall d | d in ds[1..] :: d in ds;
    }
    if ds[0].id in ids {
      AddedDepsIds(newDeps, ids, ds[1..]);
    } else {
      assert IdsOf(newDeps + [ds[0]]) == ids + {ds[0].id} by {
        assert forall d | d in newDeps + [ds[0]] :: d in newDeps || d == ds[0];
      }
      AddedDepsIds(newDeps + [ds[0]], ids + {ds[0].id}, ds[1..]);
    }
  }
}

/** The subscriber lists, by dep. */
ghost function SubsMap(t: Tracking): map<Dep, seq<Watcher>>
  reads t`deps, t.deps`subs
{
  map d | d in t.deps :: d.subs
}

/** `subs1` is `subs0` after `depend()` on each of `ds` with `w` as the
    target, which had collected `ids0` in this evaluation and `depIds` in the
    previous one: each dep whose id is new to both is subscribed to once. */
ghost predicate SubsDepended(subs0: map<Dep, seq<Watcher>>, subs1: map<Dep, seq<Watcher>>, w: Watcher,
                             depIds: set<nat>, ids0: set<nat>, ds: seq<Dep>)
{
  subs1.Keys == subs0.Keys
  && forall d | d in subs0 ::
    subs1[d] == if d.id in IdsOf(ds) && d.id !in ids0 && d.id !in depIds then subs0[d] + [w] else subs0[d]
}

lemma SubsDependedConcat(s0: map<Dep, seq<Watcher>>, s1: map<Dep, seq<Watcher>>, s2: map<Dep, seq<Watcher>>,
                         w: Watcher, depIds: set<nat>, ids0: set<nat>, a: seq<Dep>, b: seq<Dep>)
  requires SubsDepended(s0, s1, w, depIds, ids0, a) && SubsDepended(s1, s2, w, depIds, ids0 + IdsOf(a), b)
  ensures SubsDepended(s0, s2, w, depIds, ids0, a + b)
{
  assert IdsOf(a + b) == IdsOf(a) + IdsOf(b) by {
    assert forall d | d in a + b :: d in a || d in b;
    assert forall d | d in a :: d in a + b;
    assert forall d | d in b :: d in a + b;
  }
}

/** The dependency-collection state `depend()` changes: the target's
    collected deps and their ids, and every known dep's subscriber list. */
datatype Collection = Collection(newDeps: seq<Dep>, newDepIds: set<nat>, subs: map<Dep, seq<Watcher>>)

ghost function Snapshot(t: Tracking, w: Watcher): Collection
  reads t`deps, t.deps`subs, w`newDeps, w`newDepIds
{
  Collection(w.newDeps, w.newDepIds, SubsMap(t))
}

/** `c1` is `c0` after `depend()` on each of `ds` in order with `w` as the
    target, which collected `depIds` in its previous evaluation. */
ghost predicate Depended(c0: Collection, c1: Collection, w: Watcher, depIds: set<nat>, ds: seq<Dep>)
{
  c1.newDeps == AddedDeps(c0.newDeps, c0.newDepIds, ds) && c1.newDepIds == c0.newDepIds + IdsOf(ds)
  && SubsDepended(c0.subs, c1.subs, w, depIds, c0.newDepIds, ds)
}

/** `dep.depend()` with a target set, stated over the whole collection state. */
method DependOne(d: Dep, t: Tracking)
  requires t.DepIdsFresh() && d in t.deps && t.target.Some?
  modifies d`subs, t.TargetSet()`newDeps, t.TargetSet()`newDepIds
  ensures Depended(old(Snapshot(t, t.target.value)), Snapshot(t, t.target.value), t.target.value, t.target.value.depIds, [d])
{
  ghost var w := t.target.value;
  d.Depend(t);
  assert IdsOf([d]) == {d.id};
  assert AddedDeps(old(w.newDeps) + [d], old(w.newDepIds) + {d.id}, []) == old(w.newDeps) + [d];
}

/** Depending on nothing changes nothing. */
lemma DependedNone(c: Collection, w: Watcher, depIds: set<nat>)
  ensures Depended(c, c, w, depIds, [])
{
  assert IdsOf([]) == {};
}

/** Depending on `a` and then on `b` is depending on `a + b`. */
lemma DependedConcat(c0: Collection, c1: Collection, c2: Collection, w: Watcher, depIds: set<nat>, a: seq<Dep>, b: seq<Dep>)
  requires Depended(c0, c1, w, depIds, a) && Depended(c1, c2, w, depIds, b)
  ensures Depended(c0, c2, w, depIds, a + b)
{
  AddedDepsConcat(c0.newDeps, c0.newDepIds, a, b);
  SubsDependedConcat(c0.subs, c1.subs, c2.subs, w, depIds, c0.newDepIds, a, b);
  assert IdsOf(a + b) == IdsOf(a) + IdsOf(b) by {
    assert forall d | d in a + b :: d in a || d in b;
    assert forall d | d in a :: d in a + b;
    assert forall d | d in b :: d in a + b;
  }
}
