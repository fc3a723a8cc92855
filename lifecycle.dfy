/* The component-tree state of src/core/instance/lifecycle.js: the parent and
   root links set up by `initLifecycle`, the `_inactive`/`_directInactive`
   flags of kept-alive components, and `$destroy`.  A component's lifecycle
   hook is user code and is recorded as an effect. */

/** `$parent`, `$options.abstract` and `depth` never change after
    `initLifecycle`: the parent chain of a component is finite. */
ghost predicate Chain(v: Vm)
  decreases v.depth
{
  v.parent.Some? ==> v.parent.value.depth < v.depth && Chain(v.parent.value)
}

/** The proper ancestors of `v`. */
ghost function AncestorSet(v: Vm): set<Vm>
  requires Chain(v)
  decreases v.depth
{
  if v.parent.None? then {} else {v.parent.value} + AncestorSet(v.parent.value)
}

lemma {:induction false} AncestorsAbove(v: Vm, a: Vm)
  requires Chain(v) && a in AncestorSet(v)
  ensures Chain(a) && a.depth < v.depth && AncestorSet(a) <= AncestorSet(v)
  decreases v.depth
{
  var p := v.parent.value;
  if a != p {
    AncestorsAbove(p, a);
  }
}

/** The first ancestor-or-self of `v` that is not abstract, or the topmost. */
ghost function FirstNonAbstract(v: Vm): (r: Vm)
  requires Chain(v)
  ensures Chain(r) && (r == v || r in AncestorSet(v))
  ensures !r.isAbstract || r.parent.None?
  decreases v.depth
{
  if v.isAbstract && v.parent.Some? then FirstNonAbstract(v.parent.value) else v
}

/** The known components form a tree: parents are known, `$root` is the
    parent's root, and every entry of `$children` is a known component whose
    `$parent` is the owner. */
ghost predicate VmsClosed(t: Tracking)
  reads t`vms, t`vmDepthBound, t.vms`children
{
  forall v | v in t.vms ::
    Chain(v) && v.depth < t.vmDepthBound
    && (v.parent.Some? ==> v.parent.value in t.vms)
    && v.rootOf == (if v.parent.Some? then Some(v.parent.value.Root()) else None)
    && forall c | c in v.children :: c in t.vms && c.parent == Some(v)
}

/** The known components in the subtree of `w`, by ancestry. */
ghost function Subtree(w: Vm, t: Tracking): set<Vm>
  reads t`vms
{
  set u | u in t.vms && Chain(u) && (u == w || w in AncestorSet(u))
}

/** The root reached from any known component has no parent. */
lemma {:induction false} RootIsTop(t: Tracking, v: Vm)
  requires VmsClosed(t) && v in t.vms
  ensures v.Root().parent.None? && v.Root() in t.vms
  decreases v.depth
{
  if v.parent.Some? {
    RootIsTop(t, v.parent.value);
  }
}

/** `isInInactiveTree`: some proper ancestor has a truthy `_inactive`. */
ghost predicate InInactiveTree(v: Vm)
  requires Chain(v)
  reads AncestorSet(v)
{
  exists a | a in AncestorSet(v) :: a.inactive == Some(true)
}

class Vm {
  const uid: nat
  /** `$parent`: the first non-abstract ancestor of `options.parent`, or
      `options.parent` itself for an abstract component. */
  const parent: Option<Vm>
  const isAbstract: bool
  /** `$root`, when it is not the component itself. */
  const rootOf: Option<Vm>
  ghost const depth: nat
  /** `_data.__ob__`, the observer of the root data, if the data was observed. */
  const dataOb: Option<Observer>
  var children: seq<Vm>
  /** `_watcher`, the render watcher. */
  var watcher: Option<Watcher>
  /** `_watchers`. */
  var watchers: seq<Watcher>
  /** `_inactive`: null (`None`) until first activated or deactivated. */
  var inactive: Option<bool>
  var directInactive: bool
  var isMounted: bool
  var isDestroyed: bool
  var isBeingDestroyed: bool

  function Root(): Vm {
    if rootOf.Some? then rootOf.value else this
  }

  /** `initLifecycle`. */
  constructor (t: Tracking, uid: nat, optionsParent: Option<Vm>, isAbstract: bool, dataOb: Option<Observer>)
    requires VmsClosed(t) && (optionsParent.Some? ==> optionsParent.value in t.vms)
    modifies t`vms, t`vmDepthBound, t.vms`children
    ensures VmsClosed(t) && t.vms == old(t.vms) + {this}
    ensures this.uid == uid && this.isAbstract == isAbstract && this.dataOb == dataOb
    ensures parent == if optionsParent.Some? && !isAbstract then Some(FirstNonAbstract(optionsParent.value)) else optionsParent
    ensures Root() == if parent.Some? then parent.value.Root() else this
    ensures forall v | v in old(t.vms) ::
      v.children == if Some(v) == parent && !isAbstract then old(v.children) + [this] else old(v.children)
    ensures children == [] && watcher.None? && watchers == [] && inactive.None? && !directInactive
    ensures !isMounted && !isDestroyed && !isBeingDestroyed
  {
    var p := optionsParent;
    if p.Some? && !isAbstract {
      AncestorsKnown(t, p.value);
      var top := ClimbAbstract(p.value);
      p := Some(top);
    }
    assert p.Some? ==> p.value in t.vms && Chain(p.value) && p.value.depth < t.vmDepthBound;
    this.uid, this.isAbstract, this.dataOb := uid, isAbstract, dataOb;
    parent := p;
    rootOf := if p.Some? then Some(p.value.Root()) else None;
    depth := if p.Some? then p.value.depth + 1 else 0;
    children, watcher, watchers := [], None, [];
    inactive, directInactive := None, false;
    isMounted, isDestroyed, isBeingDestroyed := false, false, false;
    new;
    Attach(t);
  }

  /** The part of `initLifecycle` that links a new component into the tree:
      `$parent.$children.push(vm)` for a non-abstract component. */
  method Attach(t: Tracking)
    requires VmsClosed(t) && this !in t.vms && children == []
    requires parent.Some? ==> parent.value in t.vms && parent.value.depth < depth && Chain(parent.value)
    requires rootOf == if parent.Some? then Some(parent.value.Root()) else None
    modifies t`vms, t`vmDepthBound, (if parent.Some? && !isAbstract then {parent.value} else {})`children
    ensures VmsClosed(t) && t.vms == old(t.vms) + {this}
    ensures forall v | v in old(t.vms) ::
      v.children == if Some(v) == parent && !isAbstract then old(v.children) + [this] else old(v.children)
  {
    if parent.Some? && !isAbstract {
      parent.value.children := parent.value.children + [this];
    }
    t.vms := t.vms + {this};
    if t.vmDepthBound <= depth {
      t.vmDepthBound := depth + 1;
    }
  }

  /** The render watcher together with `_watchers`. */
  function WatcherSet(): set<Watcher>
    reads this`watcher, this`watchers
  {
    (set w | w in watchers) + (if watcher.Some? then {watcher.value} else {})
  }

  /** The component's active watchers that are subscribed exactly to their deps. */
  ghost function ExactlySubscribed(t: Tracking): set<Watcher>
    reads this`watcher, this`watchers, WatcherSet()`active, WatcherSet()`deps, t`deps, t.deps`subs
  {
    set w | w in WatcherSet() && w.active && SubscribedExactly(w, t.deps)
  }

  function ParentSet(): set<Vm> {
    if parent.Some? then {parent.value} else {}
  }

  function ObserverSet(): set<Observer> {
    if dataOb.Some? then {dataOb.value} else {}
  }

  /** `$forceUpdate`: the render watcher, if there is one, is told to update. */
  method ForceUpdate(sched: Scheduler, t: Tracking, host: Host)
    requires sched.Sys(t, host) && VmsClosed(t) && (watcher.Some? ==> watcher.value in t.watchers)
    modifies sched.World(t, host), t`target, t`targetStack, t`updates, t.vms`inactive, t.vms`directInactive
    ensures sched.Sys(t, host) && VmsClosed(t)
    ensures t.updates == old(t.updates) + if watcher.Some? then [watcher.value] else []
    ensures watcher.None? ==>
      sched.State() == old(sched.State()) && host.effects == old(host.effects) && host.readings == old(host.readings)
    ensures watcher.Some? && Plain([watcher.value]) && old(sched.NoSyncFlush()) ==>
      sched.Settled(old(sched.State()), [watcher.value]) && host.effects == old(host.effects) && host.readings == old(host.readings)
  {
    if watcher.Some? {
      watcher.value.Update(sched, t, host);
    }
  }

  /** `$destroy`.  A second call returns at once.  The first fires
      `beforeDestroy`, leaves the parent's `$children` (unless the parent is
      itself being destroyed or this component is abstract), tears down the
      render watcher and then `_watchers` from the last, releases the root
      data's observer, patches the rendered tree to nothing, fires
      `destroyed` and turns the listeners off.  Every watcher that was
      subscribed exactly to its deps ends up in no subscriber list. */
  method Destroy(t: Tracking, host: Host)
    requires forall w | w in WatcherSet() :: Owned(w, this, t)
    modifies this`isBeingDestroyed, this`isDestroyed, this`watchers, ParentSet()`children
    modifies WatcherSet()`active, t.deps`subs, ObserverSet()`vmCount, host`effects
    ensures isBeingDestroyed && watchers == old(watchers) && watcher == old(watcher)
    ensures old(isBeingDestroyed) ==>
      unchanged(this, host) && unchanged(WatcherSet(), ParentSet(), ObserverSet()) && forall d | d in t.deps :: d.subs == old(d.subs)
    ensures !old(isBeingDestroyed) ==>
      isDestroyed
      && host.effects == old(host.effects) + [Hook(uid, BeforeDestroy), PatchToNull(uid), Hook(uid, Destroyed), ListenersOff(uid)]
      && (forall w | w in WatcherSet() :: !w.active)
      && (dataOb.Some? ==> dataOb.value.vmCount == old(dataOb.value.vmCount) - 1)
      && (forall w | w in old(ExactlySubscribed(t)) :: Detached(w, t.deps))
    ensures !old(isBeingDestroyed) && parent.Some? && parent.value != this ==>
      parent.value.children ==
        if old(parent.value.isBeingDestroyed) || isAbstract then old(parent.value.children)
        else RemoveFirst(old(parent.value.children), this)
  {
    if isBeingDestroyed {
      return;
    }
    DestroyOnce(t, host);
  }

  /** The first `$destroy`. */
  method DestroyOnce(t: Tracking, host: Host)
    requires !isBeingDestroyed && forall w | w in WatcherSet() :: Owned(w, this, t)
    modifies this`isBeingDestroyed, this`isDestroyed, this`watchers, ParentSet()`children
    modifies WatcherSet()`active, t.deps`subs, ObserverSet()`vmCount, host`effects
    ensures isBeingDestroyed && watchers == old(watchers) && isDestroyed
    ensures host.effects == old(host.effects) + [Hook(uid, BeforeDestroy), PatchToNull(uid), Hook(uid, Destroyed), ListenersOff(uid)]
    ensures forall w | w in WatcherSet() :: !w.active
    ensures dataOb.Some? ==> dataOb.value.vmCount == old(dataOb.value.vmCount) - 1
    ensures forall w | w in old(ExactlySubscribed(t)) :: Detached(w, t.deps)
    ensures parent.Some? && parent.value != this ==>
      parent.value.children ==
        if old(parent.value.isBeingDestroyed) || isAbstract then old(parent.value.children)
        else RemoveFirst(old(parent.value.children), this)
  {
    ghost var g := ExactlySubscribed(t);
    CallHook(this, BeforeDestroy, host);
    Detach();
    TeardownAll(g, t);
    Release(host);
  }

  /** `$destroy` raises `_isBeingDestroyed` and leaves the parent's
      `$children`, unless the parent is itself being destroyed or this
      component is abstract. */
  method Detach()
    modifies this`isBeingDestroyed, ParentSet()`children
    ensures isBeingDestroyed
    ensures parent.Some? && parent.value != this ==>
      parent.value.children ==
        if old(parent.value.isBeingDestroyed) || isAbstract then old(parent.value.children)
        else RemoveFirst(old(parent.value.children), this)
  {
    isBeingDestroyed := true;
    if parent.Some? && !parent.value.isBeingDestroyed && !isAbstract {
      parent.value.children := RemoveFirst(parent.value.children, this);
    }
  }

  /** The end of `$destroy`, after the teardown. */
  method Release(host: Host)
    modifies ObserverSet()`vmCount, this`isDestroyed, host`effects
    ensures isDestroyed && host.effects == old(host.effects) + [PatchToNull(uid), Hook(uid, Destroyed), ListenersOff(uid)]
    ensures dataOb.Some? ==> dataOb.value.vmCount == old(dataOb.value.vmCount) - 1
  {
    if dataOb.Some? {
      dataOb.value.vmCount := dataOb.value.vmCount - 1;
    }
    isDestroyed := true;
    host.Emit(PatchToNull(uid));
    CallHook(this, Destroyed, host);
    host.Emit(ListenersOff(uid));
  }

  /** The teardown part of `$destroy`: the render watcher first, then
      `_watchers` from the last. */
  method TeardownAll(ghost g: set<Watcher>, t: Tracking)
    requires isBeingDestroyed && (forall w | w in WatcherSet() :: Owned(w, this, t)) && Kept(g, t)
    requires forall w | w in g :: w.active && w in WatcherSet()
    modifies this`watchers, WatcherSet()`active, t.deps`subs
    ensures watchers == old(watchers) && forall w | w in WatcherSet() :: !w.active
    ensures forall w | w in g :: Detached(w, t.deps)
  {
    if watcher.Some? {
      TeardownOne(watcher.value, g, t);
    }
    assert forall w | w in watchers :: w in WatcherSet();
    var i := |watchers|;
    while i > 0
      invariant 0 <= i <= |watchers| && watchers == old(watchers) && Kept(g, t)
      invariant forall w | w in watchers :: w in old(WatcherSet()) && Owned(w, this, t)
      invariant forall j | i <= j < |watchers| :: !watchers[j].active
      invariant watcher.Some? ==> !watcher.value.active
    {
      i := i - 1;
      assert watchers[i] in watchers;
      TeardownOne(watchers[i], g, t);
    }
  }
}

/** `w` belongs to `vm`, its dep ids are distinct and its deps are known. */
ghost predicate Owned(w: Watcher, vm: Vm, t: Tracking)
  reads w`deps, t`deps
{
  w.vm == vm && DistinctIds(w.deps) && forall d | d in w.deps :: d in t.deps
}

/** Each watcher of `g` is either still active and subscribed exactly to
    its deps, or torn down and in no subscriber list. */
ghost predicate Kept(g: set<Watcher>, t: Tracking)
  reads g`active, g`deps, t`deps, t.deps`subs
{
  forall w | w in g :: if w.active then SubscribedExactly(w, t.deps) else Detached(w, t.deps)
}

/** One `teardown` during `$destroy` keeps `Kept`: the torn-down watcher
    leaves every list, and every other watcher's subscriptions stay as they
    were. */
method TeardownOne(x: Watcher, ghost g: set<Watcher>, t: Tracking)
  requires x.vm.isBeingDestroyed && DistinctIds(x.deps) && (forall d | d in x.deps :: d in t.deps) && Kept(g, t)
  modifies x`active, x.vm`watchers, t.deps`subs
  ensures !x.active && Kept(g, t) && x.vm.watchers == old(x.vm.watchers)
{
  x.Teardown(t);
  forall w | w in g
    ensures if w.active then SubscribedExactly(w, t.deps) else Detached(w, t.deps)
  {
    if w != x {
      forall d | d in t.deps
        ensures Count(d.subs, w) == Count(old(d.subs), w) && (w in d.subs ==> w in old(d.subs))
      {
        if old(x.active) && d in x.deps {
          RemoveFirstCount(old(d.subs), x, w);
          if w in d.subs {
            RemoveFirstSubset(old(d.subs), x, w);
          }
        }
      }
    }
  }
}

/** The climb of `initLifecycle` past abstract parents. */
method ClimbAbstract(p: Vm) returns (r: Vm)
  requires Chain(p)
  ensures r == FirstNonAbstract(p)
{
  r := p;
  while r.isAbstract && r.parent.Some?
    invariant Chain(r) && FirstNonAbstract(r) == FirstNonAbstract(p)
    decreases r.depth
  {
    r := r.parent.value;
  }
}

/** The module-level `activeInstance` of lifecycle.js. */
class ActiveInstance {
  var current: Option<Vm>

  constructor ()
    ensures current.None?
  {
    current := None;
  }

  /** `setActiveInstance(vm)`: the returned value is what the returned
      closure restores. */
  method SetActiveInstance(vm: Vm) returns (restore: Option<Vm>)
    modifies this
    ensures current == Some(vm) && restore == old(current)
  {
    restore := current;
    current := Some(vm);
  }

  /** Calling the closure `setActiveInstance` returned. */
  method Restore(restore: Option<Vm>)
    modifies this
    ensures current == restore
  {
    current := restore;
  }

  /** `_update` brackets a patch with `setActiveInstance` and the restore: the
      component is active during the patch, and afterwards the previous
      instance is back, whatever nested updates did in between provided they
      were bracketed the same way. */
  method Bracketed(vm: Vm, nested: seq<Vm>)
    modifies this
    ensures current == old(current)
    decreases |nested|
  {
    var restore := SetActiveInstance(vm);
    if nested != [] {
      Bracketed(nested[0], nested[1..]);
    }
    Restore(restore);
  }
}

/** `callHook(vm, hook)`: the handlers and the `hook:` event are user code. */
method CallHook(vm: Vm, hook: LifecycleHook, host: Host)
  modifies host`effects
  ensures host.effects == old(host.effects) + [Hook(vm.uid, hook)]
{
  host.Emit(Hook(vm.uid, hook));
}

method IsInInactiveTree(vm: Vm) returns (b: bool)
  requires Chain(vm)
  ensures b == InInactiveTree(vm)
{
  var cur := vm;
  while cur.parent.Some?
    invariant Chain(cur) && (cur == vm || cur in AncestorSet(vm))
    invariant AncestorSet(vm) == AncestorSet(cur) + Visited(vm, cur)
    invariant forall a | a in Visited(vm, cur) :: a.inactive != Some(true)
    decreases cur.depth
  {
    var p := cur.parent.value;
    VisitedStep(vm, cur);
    cur := p;
    if cur.inactive == Some(true) {
      return true;
    }
  }
  b := false;
}

/** The ancestors of `vm` strictly below `cur` and `cur` itself, except `vm`. */
ghost function Visited(vm: Vm, cur: Vm): set<Vm>
  requires Chain(vm) && Chain(cur)
{
  set a | a in AncestorSet(vm) && a !in AncestorSet(cur)
}

lemma VisitedStep(vm: Vm, cur: Vm)
  requires Chain(vm) && Chain(cur) && cur.parent.Some?
  requires cur == vm || cur in AncestorSet(vm)
  ensures var p := cur.parent.value;
    Chain(p) && p in AncestorSet(vm) && Visited(vm, p) == Visited(vm, cur) + {p}
{
  var p := cur.parent.value;
  if cur != vm {
    AncestorsAbove(vm, cur);
  }
  assert p !in AncestorSet(p) by {
    if p in AncestorSet(p) { AncestorsAbove(p, p); }
  }
}

/** Whether `activateChildComponent(vm, direct)` gets past its guards and
    changes `_inactive`, judged in the state it is called in. */
ghost predicate ActivationProceeds(vm: Vm, direct: bool)
  requires Chain(vm)
  reads vm, AncestorSet(vm)
{
  (if direct then !InInactiveTree(vm) else !vm.directInactive) && vm.inactive != Some(false)
}

/** Whether `deactivateChildComponent(vm, direct)` gets past its guards and
    changes `_inactive`. */
ghost predicate DeactivationProceeds(vm: Vm, direct: bool)
  requires Chain(vm)
  reads vm, AncestorSet(vm)
{
  (!direct || !InInactiveTree(vm)) && vm.inactive != Some(true)
}

/** A child's subtree lies inside its parent's and leaves out the parent. */
lemma SubtreeOfChild(t: Tracking, vm: Vm, c: Vm)
  requires VmsClosed(t) && vm in t.vms && c in vm.children
  ensures c in t.vms && vm.depth < c.depth
  ensures Subtree(c, t) <= Subtree(vm, t) && vm !in Subtree(c, t)
{
  assert AncestorSet(c) == {vm} + AncestorSet(vm);
  forall u | u in Subtree(c, t) ensures u in Subtree(vm, t) && u != vm {
    if u != c {
      AncestorsAbove(u, c);
    }
  }
  assert vm !in Subtree(c, t) by {
    if vm in AncestorSet(vm) { AncestorsAbove(vm, vm); }
    if c in AncestorSet(vm) { AncestorsAbove(vm, c); }
  }
}

/** The ancestors of a known component are known. */
lemma {:induction false} AncestorsKnown(t: Tracking, v: Vm)
  requires VmsClosed(t) && v in t.vms
  ensures AncestorSet(v) <= t.vms
  decreases v.depth
{
  if v.parent.Some? {
    AncestorsKnown(t, v.parent.value);
  }
}

/** No component is its own ancestor. */
lemma NotOwnAncestor(v: Vm)
  requires Chain(v)
  ensures v !in AncestorSet(v)
{
  if v in AncestorSet(v) {
    AncestorsAbove(v, v);
  }
}

/** `activateChildComponent(vm, direct)`: a direct call clears
    `_directInactive` and stops inside an inactive tree; an indirect call
    stops at a directly deactivated component.  Past the guards, an inactive
    or never-activated component becomes active, then its children are
    activated, then its `activated` hook fires. */
method ActivateChildComponent(vm: Vm, direct: bool, t: Tracking, host: Host)
  requires VmsClosed(t) && vm in t.vms
  modifies t.vms`inactive, t.vms`directInactive, host`effects
  decreases t.vmDepthBound - vm.depth, |vm.children| + 1
  ensures direct ==> !vm.directInactive
  ensures forall u | u in t.vms && (u != vm || !direct) :: u.directInactive == old(u.directInactive)
  ensures forall u | u in t.vms && u !in Subtree(vm, t) :: u.inactive == old(u.inactive)
  ensures forall u | u in t.vms && old(u.inactive) == Some(false) :: u.inactive == Some(false)
  ensures vm.directInactive || vm.inactive == Some(false) || (direct && old(InInactiveTree(vm)))
  ensures old(ActivationProceeds(vm, direct)) ==>
    vm.inactive == Some(false)
    && (forall j | 0 <= j < |vm.children| :: vm.children[j].directInactive || vm.children[j].inactive == Some(false))
    && old(host.effects) < host.effects
    && host.effects[|host.effects| - 1] == Hook(vm.uid, Activated)
  ensures !old(ActivationProceeds(vm, direct)) ==>
    host.effects == old(host.effects) && forall u | u in t.vms :: u.inactive == old(u.inactive)
{
  NotOwnAncestor(vm);
  AncestorsKnown(t, vm);
  if direct {
    vm.directInactive := false;
    var b := IsInInactiveTree(vm);
    if b {
      return;
    }
  } else if vm.directInactive {
    return;
  }
  if vm.inactive != Some(false) {
    vm.inactive := Some(false);
    ActivateChildren(vm, 0, t, host);
    CallHook(vm, Activated, host);
  }
}

/** The loop of `activateChildComponent` over `$children`, from entry `i`
    on: each child is activated indirectly. */
method ActivateChildren(vm: Vm, i: nat, t: Tracking, host: Host)
  requires VmsClosed(t) && vm in t.vms && i <= |vm.children|
  modifies t.vms`inactive, t.vms`directInactive, host`effects
  decreases t.vmDepthBound - vm.depth, |vm.children| - i
  ensures forall u | u in t.vms :: u.directInactive == old(u.directInactive)
  ensures forall u | u in t.vms && u !in Subtree(vm, t) :: u.inactive == old(u.inactive)
  ensures forall u | u in t.vms && old(u.inactive) == Some(false) :: u.inactive == Some(false)
  ensures forall j | i <= j < |vm.children| :: vm.children[j].directInactive || vm.children[j].inactive == Some(false)
  ensures old(host.effects) <= host.effects
{
  if i < |vm.children| {
    var c := vm.children[i];
    SubtreeOfChild(t, vm, c);
    ActivateChildComponent(c, false, t, host);
    ActivateChildren(vm, i + 1, t, host);
  }
}

/** `deactivateChildComponent(vm, direct)`: a direct call sets
    `_directInactive` and stops inside an inactive tree.  Past the guard, an
    active or never-activated component becomes inactive, then all its
    children are deactivated, then its `deactivated` hook fires. */
method DeactivateChildComponent(vm: Vm, direct: bool, t: Tracking, host: Host)
  requires VmsClosed(t) && vm in t.vms
  modifies t.vms`inactive, t.vms`directInactive, host`effects
  decreases t.vmDepthBound - vm.depth, |vm.children| + 1
  ensures direct ==> vm.directInactive
  ensures forall u | u in t.vms && (u != vm || !direct) :: u.directInactive == old(u.directInactive)
  ensures forall u | u in t.vms && u !in Subtree(vm, t) :: u.inactive == old(u.inactive)
  ensures forall u | u in t.vms && old(u.inactive) == Some(true) :: u.inactive == Some(true)
  ensures vm.inactive == Some(true) || (direct && old(InInactiveTree(vm)))
  ensures old(DeactivationProceeds(vm, direct)) ==>
    (forall j | 0 <= j < |vm.children| :: vm.children[j].inactive == Some(true))
    && old(host.effects) < host.effects
    && host.effects[|host.effects| - 1] == Hook(vm.uid, Deactivated)
  ensures !old(DeactivationProceeds(vm, direct)) ==>
    host.effects == old(host.effects) && forall u | u in t.vms :: u.inactive == old(u.inactive)
{
  NotOwnAncestor(vm);
  AncestorsKnown(t, vm);
  if direct {
    vm.directInactive := true;
    var b := IsInInactiveTree(vm);
    if b {
      return;
    }
  }
  if vm.inactive != Some(true) {
    vm.inactive := Some(true);
    DeactivateChildren(vm, 0, t, host);
    CallHook(vm, Deactivated, host);
  }
}

/** The loop of `deactivateChildComponent` over `$children`, from entry `i`
    on: each child is deactivated indirectly. */
method DeactivateChildren(vm: Vm, i: nat, t: Tracking, host: Host)
  requires VmsClosed(t) && vm in t.vms && i <= |vm.children|
  modifies t.vms`inactive, t.vms`directInactive, host`effects
  decreases t.vmDepthBound - vm.depth, |vm.children| - i
  ensures forall u | u in t.vms :: u.directInactive == old(u.directInactive)
  ensures forall u | u in t.vms && u !in Subtree(vm, t) :: u.inactive == old(u.inactive)
  ensures forall u | u in t.vms && old(u.inactive) == Some(true) :: u.inactive == Some(true)
  ensures forall j | i <= j < |vm.children| :: vm.children[j].inactive == Some(true)
  ensures old(host.effects) <= host.effects
{
  if i < |vm.children| {
    var c := vm.children[i];
    SubtreeOfChild(t, vm, c);
    DeactivateChildComponent(c, false, t, host);
    DeactivateChildren(vm, i + 1, t, host);
  }
}

/** A `scopedSlots` object as far as `updateChildComponent` looks at it: the
    `$stable` marker of compiled static slots and the `$key` hash. */
datatype ScopedSlots = ScopedSlots(stable: bool, key: Option<string>)

/** `$key` of a component's `$scopedSlots`; `None` stands for the shared
    `emptyObject`, which has no key. */
function KeyOf(slots: Option<ScopedSlots>): Option<string> {
  if slots.Some? then slots.value.key else None
}

/** The rule of `updateChildComponent` for forcing a re-render of a child:
    `renderChildren` given (any array, even empty, is truthy), old static
    slot children, or dynamic scoped slots -- new ones that are not
    `$stable`, old ones (other than `emptyObject`) that are not, or new ones
    whose `$key` differs from the old. */
function NeedsForceUpdate(hasRenderChildren: bool, hadRenderChildren: bool,
                          newSlots: Option<ScopedSlots>, oldSlots: Option<ScopedSlots>): (r: bool)
  ensures hasRenderChildren || hadRenderChildren ==> r
  ensures newSlots.Some? && !newSlots.value.stable ==> r
  ensures oldSlots.Some? && !oldSlots.value.stable ==> r
  ensures newSlots.Some? && newSlots.value.key != KeyOf(oldSlots) ==> r
  ensures !hasRenderChildren && !hadRenderChildren && StableSlots(newSlots, oldSlots) ==> !r
{
  var dynamic :=
    (newSlots.Some? && !newSlots.value.stable)
    || (oldSlots.Some? && !oldSlots.value.stable)
    || (newSlots.Some? && KeyOf(oldSlots) != newSlots.value.key);
  hasRenderChildren || hadRenderChildren || dynamic
}

/** Scoped slots that cannot have changed: both sides compiled static (or
    absent) and the same `$key`. */
predicate StableSlots(newSlots: Option<ScopedSlots>, oldSlots: Option<ScopedSlots>) {
  (oldSlots.None? || oldSlots.value.stable)
  && (newSlots.None? || (newSlots.value.stable && newSlots.value.key == KeyOf(oldSlots)))
}

/** A re-render is skipped exactly when there are no slot children on
    either side and the scoped slots are stable. */
lemma NoForcedUpdateExactly(hasRenderChildren: bool, hadRenderChildren: bool,
                            newSlots: Option<ScopedSlots>, oldSlots: Option<ScopedSlots>)
  ensures !NeedsForceUpdate(hasRenderChildren, hadRenderChildren, newSlots, oldSlots)
      <==> !hasRenderChildren && !hadRenderChildren && StableSlots(newSlots, oldSlots)
{
}
