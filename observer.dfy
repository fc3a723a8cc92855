/* The observation rules of src/core/observer/index.js.  JavaScript objects
   live in the `heap` of a `Realm` under addresses (a `Ref` value names one); an observed
   object carries its `Observer` in `ob` (the `__ob__` property), and a
   property made reactive by `defineReactive` is a `ReactiveProp` whose cell
   holds the closure variables `val` and `childOb` of the getter/setter pair. */

datatype ObjKind = PlainObject | ArrayObject | VNodeObject | VueInstance | OtherObject

/** An own property.  A user accessor is given by what its getter returns. */
datatype Property =
  | DataProp(value: Value, configurable: bool)
  | AccessorProp(configurable: bool, hasGet: bool, getValue: Value, hasSet: bool)
  | ReactiveProp(cell: ReactiveCell)

class ReactiveCell {
  const dep: Dep
  /** The getter and setter of the property descriptor `defineReactive`
      found, if any, and what that getter returns. */
  const hasGetter: bool
  const getterValue: Value
  const hasSetter: bool
  const shallow: bool
  var val: Value
  var childOb: Option<Observer>

  constructor (dep: Dep, hasGetter: bool, getterValue: Value, hasSetter: bool, shallow: bool, val: Value, childOb: Option<Observer>)
    ensures this.dep == dep && this.hasGetter == hasGetter && this.getterValue == getterValue
    ensures this.hasSetter == hasSetter && this.shallow == shallow && this.val == val && this.childOb == childOb
  {
    this.dep, this.hasGetter, this.getterValue, this.hasSetter, this.shallow := dep, hasGetter, getterValue, hasSetter, shallow;
    this.val, this.childOb := val, childOb;
  }

  /** The reactive setter leaves everything as it is for `newVal`: the value
      does not change, or the property has a getter and no setter. */
  predicate Skips(newVal: Value)
    reads this
  {
    SameValue(newVal, Current()) || (hasGetter && !hasSetter)
  }

  /** What the reactive getter returns. */
  function Current(): Value
    reads this
  {
    if hasGetter then getterValue else val
  }
}

/** A JavaScript object as observation sees it: its kind, whether new
    properties may be added, `Object.keys` in order, its own properties, its
    elements when it is an array, and `__ob__`. */
datatype Obj = Obj(kind: ObjKind, extensible: bool, keys: seq<string>, props: map<string, Property>,
                   elems: seq<Value>, ob: Option<Observer>)

class Observer {
  /** The address of the observed object. */
  const value: nat
  const dep: Dep
  /** The number of components that have `value` as their root `$data`. */
  var vmCount: int

  constructor (value: nat, dep: Dep)
    ensures this.value == value && this.dep == dep && vmCount == 0
  {
    this.value, this.dep := value, dep;
    vmCount := 0;
  }
}

/** A property key.  `Index(i)` is a key that `isValidArrayIndex` accepts (a
    non-negative integer); every other key is a `Name`. */
datatype Key = Index(i: nat) | Name(name: string)

function KeyName(k: Key): string {
  match k
  case Index(i) => Digits(i)
  case Name(s) => s
}

predicate Configurable(p: Property) {
  match p
  case DataProp(_, c) => c
  case AccessorProp(c, _, _, _) => c
  case ReactiveProp(_) => true
}

/** `obj[key]` for the own property `p`, if any. */
function ReadProp(p: Option<Property>): Value
  reads if p.Some? && p.value.ReactiveProp? then {p.value.cell} else {}
{
  match p
  case None => Undefined
  case Some(DataProp(v, _)) => v
  case Some(AccessorProp(_, hasGet, v, _)) => if hasGet then v else Undefined
  case Some(ReactiveProp(cell)) => cell.Current()
}

/** The getter and setter `defineReactive` finds on `p`: whether there is a
    getter, what it returns, and whether there is a setter.  A reactive
    property's getter and setter count as a user accessor. */
function Accessors(p: Option<Property>): (bool, Value, bool)
  reads if p.Some? && p.value.ReactiveProp? then {p.value.cell} else {}
{
  match p
  case None => (false, Undefined, false)
  case Some(DataProp(_, _)) => (false, Undefined, false)
  case Some(AccessorProp(_, hasGet, v, hasSet)) => (hasGet, v, hasSet)
  case Some(ReactiveProp(cell)) => (true, cell.Current(), true)
}

/** The value `defineReactive` closes over: the one passed in, or else the
    property's current value unless it has a getter and no setter. */
function InitialValue(p: Option<Property>, val: Option<Value>): Value
  reads if p.Some? && p.value.ReactiveProp? then {p.value.cell} else {}
{
  var (hasGet, _, hasSet) := Accessors(p);
  if val.Some? then val.value else if !hasGet || hasSet then ReadProp(p) else Undefined
}

lemma {:induction false} SubsetCard(a: set<nat>, b: set<nat>)
  requires a <= b
  ensures |a| <= |b| && (a < b ==> |a| < |b|)
{
  if a < b {
    assert exists x :: x in b && x !in a by {
      if forall x :: x in b ==> x in a {
        assert false;
      }
    }
    var x :| x in b && x !in a;
    assert a <= b - {x};
    SubsetCard(a, b - {x});
  } else {
    assert a == b;
  }
}

/** A new `Dep`, whose id keeps the ids of known deps distinct. */
method NewDep(t: Tracking) returns (d: Dep)
  requires t.DepIdsFresh()
  modifies t`depUid, t`deps
  ensures fresh(d) && d.subs == [] && t.deps == old(t.deps) + {d} && t.DepIdsFresh()
{
  d := new Dep(t);
}

/** What observation never changes about an object. */
function Shape(o: Obj): (ObjKind, bool, seq<Value>) {
  (o.kind, o.extensible, o.elems)
}

/** `h1` has evolved from `h0` by observation: the same addresses holding
    objects of the same shape, observers only ever added, and, outside
    `free`, the same key lists and, on objects observed in `h0`, the same
    properties: conversion only redefines properties of objects it observes
    itself. */
ghost predicate Evolved(h0: map<nat, Obj>, h1: map<nat, Obj>, free: set<nat>) {
  h1.Keys == h0.Keys
  && forall a | a in h0 ::
    Shape(h1[a]) == Shape(h0[a]) && (h0[a].ob.Some? ==> h1[a].ob == h0[a].ob)
    && (a !in free ==> h1[a].keys == h0[a].keys && (h0[a].ob.Some? ==> h1[a].props == h0[a].props))
}

/** The addresses of objects not observed yet: shrinks with every new observer. */
ghost function UnobservedIn(h: map<nat, Obj>): set<nat> {
  set a | a in h && h[a].ob.None?
}

lemma EvolvedTrans(h0: map<nat, Obj>, h1: map<nat, Obj>, h2: map<nat, Obj>, f1: set<nat>, f2: set<nat>)
  requires Evolved(h0, h1, f1) && Evolved(h1, h2, f2)
  ensures Evolved(h0, h2, f1 + f2)
{
}

/** Redefining properties or keys of the object at `a` is an evolution free at `a`. */
lemma EvolvedAt(h: map<nat, Obj>, a: nat, o: Obj)
  requires a in h && Shape(o) == Shape(h[a]) && o.ob == h[a].ob
  ensures Evolved(h, h[a := o], {a})
{
}

lemma UnobservedShrinks(h0: map<nat, Obj>, h1: map<nat, Obj>, free: set<nat>)
  requires Evolved(h0, h1, free)
  ensures UnobservedIn(h1) <= UnobservedIn(h0) && |UnobservedIn(h1)| <= |UnobservedIn(h0)|
{
  SubsetCard(UnobservedIn(h1), UnobservedIn(h0));
}

/** Defining each of `done` reactive has taken the properties from `p0` to
    `p`: each such key is now a reactive property, unless it was a
    non-configurable one, which is untouched, and every other key is as before. */
ghost predicate WalkedUpTo(p0: map<string, Property>, p: map<string, Property>, done: seq<string>) {
  (forall k | k in done ::
    if k in p0 && !Configurable(p0[k]) then k in p && p[k] == p0[k] else k in p && p[k].ReactiveProp?)
  && (forall k | k !in done :: k in p <==> k in p0)
  && (forall k | k !in done && k in p :: p[k] == p0[k])
}

/** One more `defineReactive(obj, k)` in `walk`. */
lemma WalkStep(p0: map<string, Property>, p: map<string, Property>, done: seq<string>, k: string, p1: map<string, Property>)
  requires WalkedUpTo(p0, p, done)
  requires if k in p && !Configurable(p[k]) then p1 == p else k in p1 && p1[k].ReactiveProp? && p1 == p[k := p1[k]]
  ensures WalkedUpTo(p0, p1, done + [k])
{
}

/** What the conversion of the object at `a` has done from `h0` to `h1`, with
    observation on or off as `on` says: every element of an array is reached;
    every key of any other object is walked. */
ghost predicate ConvertedIn(h0: map<nat, Obj>, h1: map<nat, Obj>, a: nat, on: bool)
  requires a in h0
{
  a in h1
  && if h0[a].kind == ArrayObject then Evolved(h0, h1, {}) && forall e | e in h0[a].elems :: ReachedIn(h1, on, e)
     else Evolved(h0, h1, {a}) && h1[a].keys == h0[a].keys
          && WalkedUpTo(h0[a].props, h1[a].props, h0[a].keys) && UnlistedKept(h0[a].props, h1[a].props, h0[a].keys)
}

/** The properties under keys not in `keys` are as in `p0`. */
ghost predicate UnlistedKept(p0: map<string, Property>, p: map<string, Property>, keys: seq<string>) {
  forall k | k !in keys :: (k in p <==> k in p0) && (k in p ==> p[k] == p0[k])
}

/** Attaching an observer to the unobserved object at `a` changes nothing a
    conversion is judged by. */
lemma ConvertedFromAttach(h0: map<nat, Obj>, h1: map<nat, Obj>, a: nat, n: Observer, on: bool)
  requires a in h0 && h0[a].ob.None?
  requires ConvertedIn(h0[a := h0[a].(ob := Some(n))], h1, a, on)
  ensures ConvertedIn(h0, h1, a, on) && Evolved(h0, h1, {})
{
  var hm := h0[a := h0[a].(ob := Some(n))];
  assert Evolved(h0, hm, {});
  if h0[a].kind == ArrayObject {
    var none: set<nat> := {};
    EvolvedTrans(h0, hm, h1, none, none);
    assert none + none == none;
  } else {
    EvolvedTrans(h0, hm, h1, {}, {a});
    assert {} + {a} == {a};
  }
}

/** The object `v` refers to is an observable object in `h` (observation
    being on as `on` says) only if it carries an observer. */
ghost predicate ReachedIn(h: map<nat, Obj>, on: bool, v: Value) {
  v.Ref? && v.addr in h && h[v.addr].kind != VNodeObject && on && ObservableObj(h[v.addr]) ==> h[v.addr].ob.Some?
}

/** The kinds and states of object `new Observer` accepts: an extensible
    array or plain object that is not a component. */
predicate ObservableObj(o: Obj) {
  (o.kind == ArrayObject || o.kind in {PlainObject, VueInstance, VNodeObject})
  && o.extensible && o.kind != VueInstance
}

/** Reached values stay reached as the heap evolves. */
lemma ReachedKept(h0: map<nat, Obj>, h1: map<nat, Obj>, f: set<nat>, on: bool, vs: seq<Value>)
  requires Evolved(h0, h1, f) && forall e | e in vs :: ReachedIn(h0, on, e)
  ensures forall e | e in vs :: ReachedIn(h1, on, e)
{
}

/** The deps created since `d0` was the set of known deps have no subscribers yet. */
ghost predicate NewDeps(d0: set<Dep>, t: Tracking)
  reads t`deps, t.deps`subs
{
  t.deps >= d0 && forall d | d in t.deps && d !in d0 :: d.subs == []
}

/** The reactive setter's skip test, `newVal === value || (newVal !== newVal
    && value !== value)`: with NaN the only self-unequal value, it is plain
    equality of values. */
predicate SameValue(newVal: Value, value: Value)
  ensures SameValue(newVal, value) <==> newVal == value
{
  StrictEquals(newVal, value) || (newVal.NaN? && value.NaN?)
}

/** The elements after `target.length = Math.max(target.length, i)` and
    `target.splice(i, 1, val)`; slots the length extension opens read as
    `undefined`. */
function ArraySet(elems: seq<Value>, i: nat, val: Value): (r: seq<Value>)
  ensures |r| == if i < |elems| then |elems| else i + 1
  ensures r[i] == val
  ensures forall j | 0 <= j < |r| && j != i :: r[j] == if j < |elems| then elems[j] else Undefined
{
  if i < |elems| then elems[i := val] else elems + seq(i - |elems|, _ => Undefined) + [val]
}

/** The elements after `target.splice(i, 1)`. */
function ArrayDelete(elems: seq<Value>, i: nat): (r: seq<Value>)
  ensures |r| == if i < |elems| then |elems| - 1 else |elems|
  ensures forall j | 0 <= j < |r| :: r[j] == if j < i then elems[j] else elems[j + 1]
{
  if i < |elems| then elems[..i] + elems[i + 1..] else elems
}

/** The object after the ordinary assignment `o[name] = val` when the
    property is not reactive: a data property takes the value, an accessor
    keeps its state (its setter, if any, is the caller's effect), and a
    missing property is added as an enumerable, configurable data property
    at the end of the key order when the object is extensible. */
function Assigned(o: Obj, name: string, val: Value): (r: Obj)
  ensures Shape(r) == Shape(o) && r.ob == o.ob
  ensures forall k | k != name :: (k in r.props <==> k in o.props) && (k in o.props ==> r.props[k] == o.props[k])
  ensures name in o.props && o.props[name].DataProp? ==>
    r.keys == o.keys && name in r.props && r.props[name] == DataProp(val, o.props[name].configurable)
  ensures name in o.props && !o.props[name].DataProp? ==> r == o
  ensures name !in o.props && o.extensible ==> r.keys == o.keys + [name] && name in r.props && r.props[name] == DataProp(val, true)
  ensures name !in o.props && !o.extensible ==> r == o
{
  if name in o.props then
    match o.props[name]
    case DataProp(_, c) => o.(props := o.props[name := DataProp(val, c)])
    case _ => o
  else if o.extensible then o.(keys := o.keys + [name], props := o.props[name := DataProp(val, true)])
  else o
}

/** The object after `delete o[name]`: a configurable own property is gone
    from the properties and the key order; a non-configurable one stays. */
function Deleted(o: Obj, name: string): (r: Obj)
  requires name in o.props
  ensures Shape(r) == Shape(o) && r.ob == o.ob
  ensures Configurable(o.props[name]) ==>
    name !in r.props && r.props.Keys == o.props.Keys - {name} && r.keys == RemoveFirst(o.keys, name)
  ensures !Configurable(o.props[name]) ==> r == o
  ensures forall k | k in r.props :: r.props[k] == o.props[k]
{
  if Configurable(o.props[name]) then o.(keys := RemoveFirst(o.keys, name), props := o.props - {name}) else o
}

/** Property `name` of `o` is an accessor with a setter of the user's. */
predicate HasUserSetter(o: Obj, name: string) {
  name in o.props && o.props[name].AccessorProp? && o.props[name].hasSet
}

/** `o` has a non-configurable own property `name`, which `defineReactive` leaves alone. */
predicate NonConfigurable(o: Obj, name: string) {
  name in o.props && !Configurable(o.props[name])
}

/** `o1` is `o0` after `defineReactive(o0, name, val)` with a new reactive
    property: the value is `val`, its child observer is the value's, and the
    key is appended when it is new; a non-configurable own property is left
    as it was. */
ghost predicate Added(o0: Obj, o1: Obj, name: string, val: Value)
  reads if name in o1.props && o1.props[name].ReactiveProp? then {o1.props[name].cell} else {}
{
  if NonConfigurable(o0, name) then o1 == o0
  else
    name in o1.props && o1.props[name].ReactiveProp? && var c := o1.props[name].cell;
    c.val == val && !c.shallow
    && o1.keys == (if name in o0.keys then o0.keys else o0.keys + [name])
    && (o0.ob.Some? ==> o1.props == o0.props[name := ReactiveProp(c)])
}

/** The branch `set(target, key, val)` takes. */
datatype SetCase =
  | WriteElement      // an array and a valid index: length extension and `splice`
  | AssignOwn         // an own key that `Object.prototype` does not have
  | RefuseSet         // a Vue instance or the root data of one
  | AssignUnobserved  // no observer: plain assignment
  | DefineAndNotify   // `defineReactive` on the observed object, then `ob.dep.notify()`

/** The decision tree of `set` on the object `o`, whose observer (if any)
    counts `rootCount` components using it as root data. */
function SetDecision(o: Obj, rootCount: int, key: Key): (c: SetCase)
  ensures c == WriteElement <==> o.kind == ArrayObject && key.Index?
  ensures c == RefuseSet ==> o.kind == VueInstance || (o.ob.Some? && rootCount != 0)
  ensures c == DefineAndNotify ==> o.ob.Some? && rootCount == 0 && o.kind != VueInstance
  ensures c in {AssignUnobserved, DefineAndNotify} ==> KeyName(key) !in o.props || KeyName(key) in ObjectPrototypeKeys
{
  var name := KeyName(key);
  if o.kind == ArrayObject && key.Index? then WriteElement
  else if name in o.props && name !in ObjectPrototypeKeys then AssignOwn
  else if o.kind == VueInstance || (o.ob.Some? && rootCount != 0) then RefuseSet
  else if o.ob.None? then AssignUnobserved
  else DefineAndNotify
}

/** The branch `del(target, key)` takes. */
datatype DelCase =
  | RemoveElement  // an array and a valid index: `splice`
  | RefuseDel      // a Vue instance or the root data of one
  | NotOwn         // nothing to delete
  | DeleteOwn      // `delete`, then `ob.dep.notify()` when observed

/** The decision tree of `del` on the object `o`. */
function DelDecision(o: Obj, rootCount: int, key: Key): (c: DelCase)
  ensures c == RemoveElement <==> o.kind == ArrayObject && key.Index?
  ensures c == DeleteOwn ==> KeyName(key) in o.props && o.kind != VueInstance && (o.ob.Some? ==> rootCount == 0)
  ensures c == NotOwn ==> KeyName(key) !in o.props
{
  if o.kind == ArrayObject && key.Index? then RemoveElement
  else if o.kind == VueInstance || (o.ob.Some? && rootCount != 0) then RefuseDel
  else if KeyName(key) !in o.props then NotOwn
  else DeleteOwn
}

/** `sched.Sys(t, host)` with the known deps fixed to `ds` and their ids
    aside: what creating deps leaves alone. */
ghost predicate SysOver(sched: Scheduler, t: Tracking, host: Host, ds: set<Dep>)
  reads sched`queue, sched`activatedChildren, sched`waiting, sched.ticks`callbacks, host`readings
  reads t`watchers, t`vms, t`watcherUid, t`target, t`targetStack
  reads ds`subs, t.watchers`deps, t.watchers`depIds, t.watchers`newDeps, t.watchers`newDepIds
{
  (forall d, w | d in ds && w in d.subs :: w in t.watchers)
  && (forall w | w in t.watchers ::
        w.Idle() && (forall d | d in w.deps :: d in ds)
        && w.computed == w.dep.Some? && (w.dep.Some? ==> w.dep.value in ds)
        && w.vm in t.vms && w.id <= t.watcherUid)
  && (t.target.Some? ==> t.target.value in t.watchers)
  && (forall w | w in t.targetStack :: w in t.watchers)
  && TouchesWithin(host.readings, ds) && QueuesWithin(host.readings, t.watchers)
  && (forall w | w in sched.queue :: w in t.watchers)
  && (forall v | v in sched.activatedChildren :: v in t.vms)
  && sched.TickAgreement()
}

lemma SysOverDeps(sched: Scheduler, t: Tracking, host: Host)
  requires sched.Sys(t, host)
  ensures SysOver(sched, t, host, t.deps) && t.DepIdsFresh()
{
}

/** Deps created since `ds` was the set of known deps, with fresh ids and no
    subscribers, keep the runtime closed. */
lemma SysWithNewDeps(sched: Scheduler, t: Tracking, host: Host, ds: set<Dep>)
  requires SysOver(sched, t, host, ds) && t.DepIdsFresh() && NewDeps(ds, t)
  ensures sched.Sys(t, host)
{
}

/** The objects of one JavaScript realm, by address, and the module state of
    observer/index.js: `shouldObserve` and whether the code runs on the
    server. */
class Realm {
  var heap: map<nat, Obj>
  var shouldObserve: bool
  const serverRendering: bool

  constructor (heap: map<nat, Obj>, serverRendering: bool)
    ensures this.heap == heap && this.serverRendering == serverRendering && shouldObserve
  {
    this.heap, this.serverRendering := heap, serverRendering;
    shouldObserve := true;
  }

  method ToggleObserving(value: bool)
    modifies this`shouldObserve
    ensures shouldObserve == value
  {
    shouldObserve := value;
  }

  /** Observation is on and not on the server. */
  predicate On()
    reads this`shouldObserve
  {
    shouldObserve && !serverRendering
  }

  /** `observe` looks at `v` at all: an object that is not a VNode. */
  predicate Candidate(v: Value)
    reads this`heap
  {
    v.Ref? && v.addr in heap && heap[v.addr].kind != VNodeObject
  }

  /** The observer attached to what `v` refers to, if `observe` looks at it. */
  function ObOf(v: Value): Option<Observer>
    reads this`heap
  {
    if Candidate(v) then heap[v.addr].ob else None
  }

  /** The observer `observe(v, asRootData)` counts a component against, when it exists already. */
  ghost function RootObservers(v: Value, asRootData: bool): set<Observer>
    reads this`heap
  {
    if asRootData && ObOf(v).Some? then {ObOf(v).value} else {}
  }

  /** Every `__ob__` is the observer of the object it is stored on. */
  ghost predicate ObLinked()
    reads this`heap
  {
    forall a | a in heap :: heap[a].ob.Some? ==> heap[a].ob.value.value == a
  }

  /** `observe(v, asRootData)`. */
  method Observe(v: Value, asRootData: bool, t: Tracking) returns (ob: Option<Observer>)
    requires t.DepIdsFresh() && ObLinked()
    modifies this`heap, RootObservers(v, asRootData)`vmCount, t`depUid, t`deps
    decreases |UnobservedIn(heap)|, 1
    ensures t.DepIdsFresh() && ObLinked() && NewDeps(old(t.deps), t) && (forall d | d in t.deps :: d in old(t.deps) || fresh(d))
    ensures Evolved(old(heap), heap, {}) && ob == ObOf(v) && ReachedIn(heap, On(), v)
    ensures !Candidate(v) ==> ob.None? && t.deps == old(t.deps) && heap == old(heap)
    ensures Candidate(v) && old(heap[v.addr].ob).Some? ==>
      ob == old(heap[v.addr].ob) && t.deps == old(t.deps) && heap == old(heap)
      && (asRootData ==> ob.value.vmCount == old(ob.value.vmCount) + 1)
    ensures Candidate(v) && old(heap[v.addr].ob).None? && !(On() && ObservableObj(heap[v.addr])) ==>
      ob.None? && t.deps == old(t.deps) && heap == old(heap)
    ensures Candidate(v) && old(heap[v.addr].ob).None? && On() && ObservableObj(heap[v.addr]) ==>
      ob.Some? && fresh(ob.value) && ob.value.value == v.addr && fresh(ob.value.dep) && ob.value.dep in t.deps
      && ob.value.dep.subs == [] && ob.value.vmCount == (if asRootData then 1 else 0)
      && ConvertedIn(old(heap), heap, v.addr, On())
  {
    if !Candidate(v) {
      return None;
    }
    if heap[v.addr].ob.Some? {
      ob := heap[v.addr].ob;
    } else if On() && ObservableObj(heap[v.addr]) {
      var n := Attach(v.addr, t);
      ob := Some(n);
    } else {
      ob := None;
    }
    if asRootData && ob.Some? {
      ob.value.vmCount := ob.value.vmCount + 1;
    }
  }

  /** `new Observer(o)` for the unobserved object at `a`: a fresh dep,
      `__ob__` set, then the conversion. */
  method Attach(a: nat, t: Tracking) returns (n: Observer)
    requires t.DepIdsFresh() && ObLinked() && a in heap && heap[a].ob.None?
    modifies this`heap, t`depUid, t`deps
    decreases |UnobservedIn(heap)|, 0
    ensures t.DepIdsFresh() && ObLinked() && NewDeps(old(t.deps), t) && (forall d | d in t.deps :: d in old(t.deps) || fresh(d))
    ensures Evolved(old(heap), heap, {}) && ConvertedIn(old(heap), heap, a, On())
    ensures fresh(n) && n.value == a && heap[a].ob == Some(n) && fresh(n.dep) && n.dep in t.deps
    ensures n.dep.subs == [] && n.vmCount == 0
  {
    n := NewObserver(a, t);
    Convert(a, t);
    ConvertedFromAttach(old(heap), heap, a, n, On());
  }

  /** The first half of `new Observer(o)`: a fresh dep, then `def(value, '__ob__', this)`. */
  method NewObserver(a: nat, t: Tracking) returns (n: Observer)
    requires t.DepIdsFresh() && ObLinked() && a in heap && heap[a].ob.None?
    modifies this`heap, t`depUid, t`deps
    ensures t.DepIdsFresh() && ObLinked() && NewDeps(old(t.deps), t) && (forall d | d in t.deps :: d in old(t.deps) || fresh(d))
    ensures fresh(n) && n.value == a && fresh(n.dep) && n.dep in t.deps && n.dep.subs == [] && n.vmCount == 0
    ensures heap == old(heap)[a := old(heap[a]).(ob := Some(n))]
    ensures |UnobservedIn(heap)| < |UnobservedIn(old(heap))|
  {
    var dep := NewDep(t);
    n := new Observer(a, dep);
    heap := heap[a := heap[a].(ob := Some(n))];
    assert a in UnobservedIn(old(heap)) - UnobservedIn(heap) && UnobservedIn(heap) <= UnobservedIn(old(heap));
    SubsetCard(UnobservedIn(heap), UnobservedIn(old(heap)));
  }

  /** The rest of `new Observer(o)` once `__ob__` is set: `observeArray` for an
      array, `walk` otherwise. */
  method Convert(a: nat, t: Tracking)
    requires t.DepIdsFresh() && ObLinked() && a in heap && heap[a].ob.Some?
    modifies this`heap, t`depUid, t`deps
    decreases |UnobservedIn(heap)|, 6
    ensures t.DepIdsFresh() && ObLinked() && NewDeps(old(t.deps), t) && (forall d | d in t.deps :: d in old(t.deps) || fresh(d)) && ConvertedIn(old(heap), heap, a, On())
  {
    if heap[a].kind == ArrayObject {
      ObserveArray(a, t);
    } else {
      Walk(a, t);
    }
  }

  method Walk(a: nat, t: Tracking)
    requires t.DepIdsFresh() && ObLinked() && a in heap && heap[a].ob.Some?
    modifies this`heap, t`depUid, t`deps
    decreases |UnobservedIn(heap)|, 5
    ensures t.DepIdsFresh() && ObLinked() && NewDeps(old(t.deps), t) && (forall d | d in t.deps :: d in old(t.deps) || fresh(d))
    ensures Evolved(old(heap), heap, {a}) && heap[a].keys == old(heap[a].keys)
    ensures WalkedUpTo(old(heap[a].props), heap[a].props, old(heap[a].keys))
    ensures UnlistedKept(old(heap[a].props), heap[a].props, old(heap[a].keys))
  {
    var keys := heap[a].keys;
    var i := 0;
    while i < |keys|
      invariant 0 <= i <= |keys| && a in heap && heap[a].keys == keys && heap[a].ob == old(heap[a].ob)
      invariant t.DepIdsFresh() && ObLinked() && NewDeps(old(t.deps), t) && (forall d | d in t.deps :: d in old(t.deps) || fresh(d)) && Evolved(old(heap), heap, {a})
      invariant WalkedUpTo(old(heap[a].props), heap[a].props, keys[..i])
    {
      ghost var p := heap[a].props;
      UnobservedShrinks(old(heap), heap, {a});
      PrefixStep(keys, i);
      DefineReactive(a, keys[i], None, false, t);
      WalkStep(old(heap[a].props), p, keys[..i], keys[i], heap[a].props);
      i := i + 1;
    }
    assert keys[..i] == keys;
  }

  method ObserveArray(a: nat, t: Tracking)
    requires t.DepIdsFresh() && ObLinked() && a in heap
    modifies this`heap, t`depUid, t`deps
    decreases |UnobservedIn(heap)|, 5
    ensures t.DepIdsFresh() && ObLinked() && NewDeps(old(t.deps), t) && (forall d | d in t.deps :: d in old(t.deps) || fresh(d))
    ensures Evolved(old(heap), heap, {}) && forall e | e in old(heap[a].elems) :: ReachedIn(heap, On(), e)
  {
    var items := heap[a].elems;
    var i := 0;
    while i < |items|
      invariant 0 <= i <= |items|
      invariant t.DepIdsFresh() && ObLinked() && NewDeps(old(t.deps), t) && (forall d | d in t.deps :: d in old(t.deps) || fresh(d)) && Evolved(old(heap), heap, {})
      invariant forall e | e in items[..i] :: ReachedIn(heap, On(), e)
    {
      ghost var h := heap;
      UnobservedShrinks(old(heap), heap, {});
      var _ := ObserveChild(items[i], t);
      ReachedKept(h, heap, {}, On(), items[..i]);
      ghost var none: set<nat> := {};
      EvolvedTrans(old(heap), h, heap, none, none);
      assert none + none == none;
      PrefixStep(items, i);
      i := i + 1;
    }
    assert items[..i] == items;
  }

  /** `observe(v)` as the conversion calls it, seen from the conversion. */
  method ObserveChild(v: Value, t: Tracking) returns (ob: Option<Observer>)
    requires t.DepIdsFresh() && ObLinked()
    modifies this`heap, t`depUid, t`deps
    decreases |UnobservedIn(heap)|, 2
    ensures t.DepIdsFresh() && ObLinked() && NewDeps(old(t.deps), t) && (forall d | d in t.deps :: d in old(t.deps) || fresh(d))
    ensures Evolved(old(heap), heap, {}) && ob == ObOf(v) && ReachedIn(heap, On(), v)
  {
    ob := Observe(v, false, t);
  }

  /** `defineReactive(obj, key)` (`val` is `None`) or `defineReactive(obj, key,
      val)`, for the object at `a`, without a custom setter. */
  method DefineReactive(a: nat, key: string, val: Option<Value>, shallow: bool, t: Tracking)
    requires t.DepIdsFresh() && ObLinked() && a in heap
    modifies this`heap, t`depUid, t`deps
    decreases |UnobservedIn(heap)|, 4
    ensures t.DepIdsFresh() && ObLinked() && NewDeps(old(t.deps), t) && (forall d | d in t.deps :: d in old(t.deps) || fresh(d)) && Evolved(old(heap), heap, {a})
    ensures key in old(heap[a].props) && !Configurable(old(heap[a].props[key])) ==> heap == old(heap)
    ensures !(key in old(heap[a].props) && !Configurable(old(heap[a].props[key]))) ==>
      var p := if key in old(heap[a].props) then Some(old(heap[a].props[key])) else None;
      key in heap[a].props && heap[a].props[key].ReactiveProp? && var c := heap[a].props[key].cell;
      fresh(c) && fresh(c.dep) && c.dep in t.deps && c.dep.subs == [] && c.shallow == shallow
      && (c.hasGetter, c.getterValue, c.hasSetter) == old(Accessors(p)) && c.val == old(InitialValue(p, val))
      && c.childOb == (if shallow then None else ObOf(c.val))
      && heap[a].keys == (if key in old(heap[a].keys) then old(heap[a].keys) else old(heap[a].keys) + [key])
      && (old(heap[a].ob).Some? ==> heap[a].props == old(heap[a].props)[key := ReactiveProp(c)])
  {
    var dep := NewDep(t);
    var property := if key in heap[a].props then Some(heap[a].props[key]) else None;
    if property.Some? && !Configurable(property.value) {
      return;
    }
    var (hasGetter, getterValue, hasSetter) := Accessors(property);
    var v := InitialValue(property, val);
    var _ := Install(a, key, dep, hasGetter, getterValue, hasSetter, shallow, v, t);
  }

  /** The part of `defineReactive` after the descriptor checks: observes the
      value unless `shallow`, and defines the getter/setter pair over a fresh
      closure cell. */
  method Install(a: nat, key: string, dep: Dep, hasGetter: bool, getterValue: Value, hasSetter: bool,
                 shallow: bool, v: Value, t: Tracking) returns (c: ReactiveCell)
    requires t.DepIdsFresh() && ObLinked() && a in heap
    modifies this`heap, t`depUid, t`deps
    decreases |UnobservedIn(heap)|, 3
    ensures t.DepIdsFresh() && ObLinked() && NewDeps(old(t.deps), t) && (forall d | d in t.deps :: d in old(t.deps) || fresh(d)) && Evolved(old(heap), heap, {a})
    ensures fresh(c) && c.dep == dep && c.shallow == shallow && c.val == v
    ensures c.hasGetter == hasGetter && c.getterValue == getterValue && c.hasSetter == hasSetter
    ensures c.childOb == (if shallow then None else ObOf(v))
    ensures key in heap[a].props && heap[a].props[key] == ReactiveProp(c)
    ensures heap[a].keys == (if key in old(heap[a].keys) then old(heap[a].keys) else old(heap[a].keys) + [key])
    ensures old(heap[a].ob).Some? ==> heap[a].props == old(heap[a].props)[key := ReactiveProp(c)]
  {
    var childOb := None;
    if !shallow {
      childOb := ObserveChild(v, t);
    }
    c := new ReactiveCell(dep, hasGetter, getterValue, hasSetter, shallow, v, childOb);
    ghost var h1 := heap;
    SetReactive(a, key, c);
    EvolvedTrans(old(heap), h1, heap, {}, {a});
    assert {} + {a} == {a};
  }

  /** `Object.defineProperty(obj, key, {enumerable: true, configurable: true,
      get: reactiveGetter, set: reactiveSetter})` on the object at `a`. */
  method SetReactive(a: nat, key: string, c: ReactiveCell)
    requires ObLinked() && a in heap
    modifies this`heap
    ensures ObLinked() && Evolved(old(heap), heap, {a})
    ensures heap == old(heap)[a := old(heap[a]).(props := old(heap[a].props)[key := ReactiveProp(c)],
                                                keys := if key in old(heap[a].keys) then old(heap[a].keys) else old(heap[a].keys) + [key])]
  {
    var o := heap[a];
    heap := heap[a := o.(props := o.props[key := ReactiveProp(c)],
                         keys := if key in o.keys then o.keys else o.keys + [key])];
    EvolvedAt(old(heap), a, heap[a]);
  }

  /** `Array.isArray(v)`. */
  predicate IsArray(v: Value)
    reads this`heap
  {
    v.Ref? && v.addr in heap && heap[v.addr].kind == ArrayObject
  }

  /** `v && v.__ob__`: `v` refers to an observed object. */
  predicate HasOb(v: Value)
    reads this`heap
  {
    v.Ref? && v.addr in heap && heap[v.addr].ob.Some?
  }

  /** Every observer's dep is a known dep. */
  ghost predicate ObDepsKnown(t: Tracking)
    reads this`heap, t`deps
  {
    forall a | a in heap && heap[a].ob.Some? :: heap[a].ob.value.dep in t.deps
  }

  /** Arrays nest fewer than `n` levels deep in the array at `a`, so that
      `dependArray` on it returns. */
  ghost predicate NestedBelow(a: nat, n: nat)
    reads this`heap
    decreases n
  {
    a in heap && forall e | e in heap[a].elems :: IsArray(e) ==> n > 0 && NestedBelow(e.addr, n - 1)
  }

  /** The deps `dependArray` on the array at `a` calls `depend()` on, in order
      (with nesting below `n`). */
  function ArrayDeps(a: nat, n: nat): seq<Dep>
    reads this`heap
    decreases n, 1, 0
  {
    if a in heap then ElemsDeps(heap[a].elems, n) else []
  }

  function ElemsDeps(es: seq<Value>, n: nat): seq<Dep>
    reads this`heap
    decreases n, 0, |es| + 1
  {
    if es == [] then [] else ElemsDeps(es[..|es| - 1], n) + ElemDeps(es[|es| - 1], n)
  }

  /** The deps one element contributes: its observer's, then those of its own
      elements when it is an array. */
  function ElemDeps(e: Value, n: nat): seq<Dep>
    reads this`heap
    decreases n, 0, 0
  {
    (if HasOb(e) then [heap[e.addr].ob.value.dep] else [])
    + (if IsArray(e) && n > 0 then ArrayDeps(e.addr, n - 1) else [])
  }

  /** The deps reading the property held by `cell` calls `depend()` on, in
      order, while a watcher is being evaluated: its own, the child
      observer's, and, for an array value, those `dependArray` reaches. */
  function ReadDeps(cell: ReactiveCell, n: nat): seq<Dep>
    reads this`heap, cell
  {
    [cell.dep]
    + if cell.childOb.None? then []
      else [cell.childOb.value.dep] + if IsArray(cell.Current()) then ArrayDeps(cell.Current().addr, n) else []
  }

  /** The reactive cell of property `name` of the object at `a`, if it has one. */
  ghost function CellAt(a: nat, name: string): set<ReactiveCell>
    reads this`heap
  {
    if a in heap && name in heap[a].props && heap[a].props[name].ReactiveProp? then {heap[a].props[name].cell} else {}
  }

  /** `reactiveSetter(newVal)` on the property held by `cell`. */
  method ReactiveSet(cell: ReactiveCell, newVal: Value, sched: Scheduler, t: Tracking, host: Host)
    requires sched.Sys(t, host) && VmsClosed(t) && ObLinked() && cell.dep in t.deps
    modifies cell`val, cell`childOb, this`heap, t`depUid, t`deps
    modifies sched.World(t, host), t`target, t`targetStack, t`updates, t.vms`inactive, t.vms`directInactive
    ensures sched.Sys(t, host) && VmsClosed(t) && ObLinked() && Evolved(old(heap), heap, {}) && old(t.deps) <= t.deps
    ensures old(cell.Skips(newVal)) ==>
      cell.val == old(cell.val) && cell.childOb == old(cell.childOb) && heap == old(heap)
      && t.updates == old(t.updates) && host.effects == old(host.effects)
    ensures !old(cell.Skips(newVal)) ==>
      cell.val == (if cell.hasSetter then old(cell.val) else newVal)
      && cell.childOb == (if cell.shallow then None else ObOf(newVal))
      && (!cell.shallow ==> ReachedIn(heap, On(), newVal))
      && t.updates == old(t.updates) + old(cell.dep.subs)
      && (Plain(old(cell.dep.subs)) && old(sched.NoSyncFlush()) ==>
            host.effects == old(host.effects) + (if cell.hasSetter then [UserSetter(newVal)] else []))
  {
    var value := if cell.hasGetter then cell.getterValue else cell.val;
    if SameValue(newVal, value) {
      return;
    }
    if cell.hasGetter && !cell.hasSetter {
      return;
    }
    if cell.hasSetter {
      host.Emit(UserSetter(newVal));
    } else {
      cell.val := newVal;
    }
    Commit(cell, newVal, sched, t, host);
  }

  /** The end of the reactive setter once the value is written: re-observe,
      then `dep.notify()`. */
  method Commit(cell: ReactiveCell, newVal: Value, sched: Scheduler, t: Tracking, host: Host)
    requires sched.Sys(t, host) && VmsClosed(t) && ObLinked() && cell.dep in t.deps
    modifies cell`childOb, this`heap, t`depUid, t`deps
    modifies sched.World(t, host), t`target, t`targetStack, t`updates, t.vms`inactive, t.vms`directInactive
    ensures sched.Sys(t, host) && VmsClosed(t) && ObLinked() && Evolved(old(heap), heap, {}) && old(t.deps) <= t.deps
    ensures cell.childOb == (if cell.shallow then None else ObOf(newVal))
    ensures !cell.shallow ==> ReachedIn(heap, On(), newVal)
    ensures t.updates == old(t.updates) + old(cell.dep.subs)
    ensures Plain(old(cell.dep.subs)) && old(sched.NoSyncFlush()) ==> host.effects == old(host.effects)
    ensures cell.val == old(cell.val)
  {
    RefreshChild(cell, newVal, sched, t, host);
    NotifyDep(cell.dep, {cell}, sched, t, host);
  }

  /** `dep.notify()` called from this module: the realm's objects and the
      reactive cells `cells` are none of the runtime's. */
  method NotifyDep(d: Dep, ghost cells: set<ReactiveCell>, sched: Scheduler, t: Tracking, host: Host)
    requires sched.Sys(t, host) && VmsClosed(t) && d in t.deps
    modifies sched.World(t, host), t`target, t`targetStack, t`updates, t.vms`inactive, t.vms`directInactive
    ensures unchanged(this) && unchanged(cells) && t.deps == old(t.deps)
    ensures sched.Sys(t, host) && VmsClosed(t) && t.updates == old(t.updates) + old(d.subs)
    ensures old(sched.waiting) ==> sched.waiting
    ensures Plain(old(d.subs)) && old(sched.NoSyncFlush()) ==>
      sched.Settled(old(sched.State()), old(d.subs)) && host.effects == old(host.effects) && host.readings == old(host.readings)
  {
    d.Notify(sched, t, host);
  }

  /** `childOb = !shallow && observe(newVal)` in the reactive setter. */
  method RefreshChild(cell: ReactiveCell, newVal: Value, sched: Scheduler, t: Tracking, host: Host)
    requires sched.Sys(t, host) && ObLinked()
    modifies cell`childOb, this`heap, t`depUid, t`deps
    ensures sched.Sys(t, host) && ObLinked() && Evolved(old(heap), heap, {}) && old(t.deps) <= t.deps && (forall d | d in t.deps :: d in old(t.deps) || fresh(d))
    ensures cell.childOb == (if cell.shallow then None else ObOf(newVal))
    ensures !cell.shallow ==> ReachedIn(heap, On(), newVal)
  {
    if cell.shallow {
      cell.childOb := None;
    } else {
      var ob := ObserveInSys(newVal, sched, t, host);
      cell.childOb := ob;
    }
  }

  /** `observe(v)` while watchers and the scheduler are live: the deps it
      creates leave the runtime closed. */
  method ObserveInSys(v: Value, sched: Scheduler, t: Tracking, host: Host) returns (ob: Option<Observer>)
    requires sched.Sys(t, host) && ObLinked()
    modifies this`heap, t`depUid, t`deps
    ensures sched.Sys(t, host) && ObLinked() && NewDeps(old(t.deps), t) && (forall d | d in t.deps :: d in old(t.deps) || fresh(d))
    ensures Evolved(old(heap), heap, {}) && ob == ObOf(v) && ReachedIn(heap, On(), v)
  {
    SysOverDeps(sched, t, host);
    ghost var kept := SysOver(sched, t, host, t.deps);
    ob := ObserveChild(v, t);
    assert SysOver(sched, t, host, old(t.deps)) == kept;
    SysWithNewDeps(sched, t, host, old(t.deps));
  }

  /** `ob.vmCount` for the observer of the object at `a`, or 0 without one. */
  function RootCount(a: nat): int
    reads this`heap, if a in heap && heap[a].ob.Some? then {heap[a].ob.value} else {}
  {
    if a in heap && heap[a].ob.Some? then heap[a].ob.value.vmCount else 0
  }

  /** Property `name` of the object at `a` holds a reactive cell. */
  predicate IsReactive(a: nat, name: string)
    reads this`heap
  {
    a in heap && name in heap[a].props && heap[a].props[name].ReactiveProp?
  }

  /** The dep of the reactive cell at property `name` of `a` is a known dep. */
  ghost predicate CellDepKnown(a: nat, name: string, t: Tracking)
    reads this`heap, t`deps
  {
    IsReactive(a, name) ==> heap[a].props[name].cell.dep in t.deps
  }

  /** The heap is `h0` after `defineReactive(obj, name, val)` on the object
      at `a`: observation has only evolved it, with new properties only at
      `a`; the property is `Added`, its child observer is the value's, and a
      non-configurable own property leaves the heap as it was. */
  ghost predicate DefinedFrom(h0: map<nat, Obj>, a: nat, name: string, val: Value)
    reads this`heap, CellAt(a, name)
  {
    a in h0 && a in heap && Evolved(h0, heap, {a}) && Added(h0[a], heap[a], name, val)
    && (NonConfigurable(h0[a], name) ==> heap == h0)
    && (!NonConfigurable(h0[a], name) ==> IsReactive(a, name) && heap[a].props[name].cell.childOb == ObOf(val))
  }

  /** The assignment `target[name] = val` on the object at `a`: a reactive
      property runs its setter; any other property goes by `Assigned`, and a
      user-defined setter is reported as an effect. */
  method Assign(a: nat, name: string, val: Value, sched: Scheduler, t: Tracking, host: Host)
    requires a in heap && sched.Sys(t, host) && VmsClosed(t) && ObLinked() && CellDepKnown(a, name, t)
    modifies this`heap, CellAt(a, name)`val, CellAt(a, name)`childOb, t`depUid, t`deps
    modifies sched.World(t, host), t`target, t`targetStack, t`updates, t.vms`inactive, t.vms`directInactive
    ensures sched.Sys(t, host) && VmsClosed(t) && ObLinked() && old(t.deps) <= t.deps
    ensures !old(IsReactive(a, name)) ==>
      heap == old(heap)[a := Assigned(old(heap[a]), name, val)] && t.updates == old(t.updates)
      && host.effects == old(host.effects) + (if old(HasUserSetter(heap[a], name)) then [UserSetter(val)] else [])
    ensures old(IsReactive(a, name)) ==> var c := old(heap[a].props[name].cell);
      Evolved(old(heap), heap, {})
      && c.val == (if old(c.Skips(val)) || c.hasSetter then old(c.val) else val)
      && t.updates == old(t.updates) + (if old(c.Skips(val)) then [] else old(c.dep.subs))
  {
    var o := heap[a];
    if name in o.props && o.props[name].ReactiveProp? {
      ReactiveSet(o.props[name].cell, val, sched, t, host);
    } else {
      if HasUserSetter(o, name) {
        host.Emit(UserSetter(val));
      }
      Store(a, Assigned(o, name, val), sched, t, host);
    }
  }

  /** Writes the object at `a`, keeping its observer: the runtime does not
      see the realm's objects. */
  method Store(a: nat, o: Obj, sched: Scheduler, t: Tracking, host: Host)
    requires a in heap && o.ob == heap[a].ob && ObLinked() && sched.Sys(t, host)
    modifies this`heap
    ensures heap == old(heap)[a := o] && ObLinked() && sched.Sys(t, host)
  {
    heap := heap[a := o];
  }

  /** `set(target, key, val)` on the object at `a`. */
  method Set(a: nat, key: Key, val: Value, sched: Scheduler, t: Tracking, host: Host)
    requires a in heap && sched.Sys(t, host) && VmsClosed(t) && ObLinked() && CellDepKnown(a, KeyName(key), t)
    requires heap[a].ob.Some? ==> heap[a].ob.value.dep in t.deps
    modifies this`heap, CellAt(a, KeyName(key))`val, CellAt(a, KeyName(key))`childOb, t`depUid, t`deps
    modifies sched.World(t, host), t`target, t`targetStack, t`updates, t.vms`inactive, t.vms`directInactive
    ensures sched.Sys(t, host) && VmsClosed(t) && ObLinked() && a in heap
    ensures old(SetDecision(heap[a], RootCount(a), key)) == WriteElement ==>
      heap == old(heap)[a := old(heap[a]).(elems := ArraySet(old(heap[a].elems), key.i, val))]
      && t.updates == old(t.updates) && host.effects == old(host.effects)
    ensures old(SetDecision(heap[a], RootCount(a), key)) == RefuseSet ==>
      heap == old(heap) && t.updates == old(t.updates) && host.effects == old(host.effects)
    ensures old(SetDecision(heap[a], RootCount(a), key)) in {AssignOwn, AssignUnobserved} && !old(IsReactive(a, KeyName(key))) ==>
      heap == old(heap)[a := Assigned(old(heap[a]), KeyName(key), val)] && t.updates == old(t.updates)
      && host.effects == old(host.effects) + (if old(HasUserSetter(heap[a], KeyName(key))) then [UserSetter(val)] else [])
    ensures old(SetDecision(heap[a], RootCount(a), key)) in {AssignOwn, AssignUnobserved} && old(IsReactive(a, KeyName(key))) ==>
      var c := old(heap[a].props[KeyName(key)].cell);
      Evolved(old(heap), heap, {})
      && c.val == (if old(c.Skips(val)) || c.hasSetter then old(c.val) else val)
      && t.updates == old(t.updates) + (if old(c.Skips(val)) then [] else old(c.dep.subs))
    ensures old(SetDecision(heap[a], RootCount(a), key)) == DefineAndNotify ==>
      t.updates == old(t.updates) + old(heap[a].ob.value.dep.subs)
      && DefinedFrom(old(heap), a, KeyName(key), val)
  {
    var name := KeyName(key);
    var o := heap[a];
    var decision := SetDecision(o, RootCount(a), key);
    if decision == WriteElement {
      Store(a, o.(elems := ArraySet(o.elems, key.i, val)), sched, t, host);
    } else if decision == AssignOwn || decision == AssignUnobserved {
      Assign(a, name, val, sched, t, host);
    } else if decision == DefineAndNotify {
      AddReactive(a, name, val, sched, t, host);
    }
  }

  /** `defineReactive(ob.value, key, val)` then `ob.dep.notify()` in `set`. */
  method AddReactive(a: nat, name: string, val: Value, sched: Scheduler, t: Tracking, host: Host)
    requires a in heap && heap[a].ob.Some? && heap[a].ob.value.dep in t.deps
    requires sched.Sys(t, host) && VmsClosed(t) && ObLinked()
    modifies this`heap, t`depUid, t`deps
    modifies sched.World(t, host), t`target, t`targetStack, t`updates, t.vms`inactive, t.vms`directInactive
    ensures sched.Sys(t, host) && VmsClosed(t) && ObLinked()
    ensures t.updates == old(t.updates) + old(heap[a].ob.value.dep.subs)
    ensures DefinedFrom(old(heap), a, name, val)
  {
    var ob := heap[a].ob.value;
    DefineInSys(ob.value, name, val, sched, t, host);
    NotifyDep(ob.dep, CellAt(a, name), sched, t, host);
  }

  /** `defineReactive(obj, key, val)` while watchers and the scheduler are
      live: the deps it creates leave the runtime closed. */
  method DefineInSys(a: nat, name: string, val: Value, sched: Scheduler, t: Tracking, host: Host)
    requires a in heap && heap[a].ob.Some? && sched.Sys(t, host) && ObLinked()
    modifies this`heap, t`depUid, t`deps
    ensures sched.Sys(t, host) && ObLinked() && old(t.deps) <= t.deps && fresh(t.deps - old(t.deps))
    ensures DefinedFrom(old(heap), a, name, val)
  {
    SysOverDeps(sched, t, host);
    ghost var kept := SysOver(sched, t, host, t.deps);
    DefineReactive(a, name, Some(val), false, t);
    assert SysOver(sched, t, host, old(t.deps)) == kept;
    SysWithNewDeps(sched, t, host, old(t.deps));
  }

  /** `del(target, key)` on the object at `a`. */
  method Del(a: nat, key: Key, sched: Scheduler, t: Tracking, host: Host)
    requires a in heap && sched.Sys(t, host) && VmsClosed(t) && ObLinked()
    requires heap[a].ob.Some? ==> heap[a].ob.value.dep in t.deps
    modifies this`heap
    modifies sched.World(t, host), t`target, t`targetStack, t`updates, t.vms`inactive, t.vms`directInactive
    ensures sched.Sys(t, host) && VmsClosed(t) && ObLinked()
    ensures old(DelDecision(heap[a], RootCount(a), key)) == RemoveElement ==>
      heap == old(heap)[a := old(heap[a]).(elems := ArrayDelete(old(heap[a].elems), key.i))]
      && t.updates == old(t.updates) && host.effects == old(host.effects)
    ensures old(DelDecision(heap[a], RootCount(a), key)) in {RefuseDel, NotOwn} ==>
      heap == old(heap) && t.updates == old(t.updates) && host.effects == old(host.effects)
    ensures old(DelDecision(heap[a], RootCount(a), key)) == DeleteOwn ==>
      heap == old(heap)[a := Deleted(old(heap[a]), KeyName(key))]
      && t.updates == old(t.updates) + (if old(heap[a].ob).Some? then old(heap[a].ob.value.dep.subs) else [])
  {
    var o := heap[a];
    var decision := DelDecision(o, RootCount(a), key);
    if decision == RemoveElement {
      Store(a, o.(elems := ArrayDelete(o.elems, key.i)), sched, t, host);
    } else if decision == DeleteOwn {
      Store(a, Deleted(o, KeyName(key)), sched, t, host);
      if o.ob.Some? {
        NotifyDep(o.ob.value.dep, {}, sched, t, host);
      }
    }
  }

  /** `reactiveGetter`. */
  method ReactiveGet(cell: ReactiveCell, ghost n: nat, t: Tracking) returns (value: Value)
    requires t.DepIdsFresh() && ObDepsKnown(t) && cell.dep in t.deps
    requires cell.childOb.Some? ==> cell.childOb.value.dep in t.deps
    requires cell.childOb.Some? && IsArray(cell.Current()) ==> NestedBelow(cell.Current().addr, n)
    modifies t.deps`subs, t.TargetSet()`newDeps, t.TargetSet()`newDepIds
    ensures value == cell.Current()
    ensures t.target.None? ==> SubsMap(t) == old(SubsMap(t))
    ensures t.target.Some? ==> var w := t.target.value;
      Depended(old(Snapshot(t, w)), Snapshot(t, w), w, w.depIds, old(ReadDeps(cell, n)))
  {
    value := if cell.hasGetter then cell.getterValue else cell.val;
    if t.target.Some? {
      ghost var w := t.target.value;
      ghost var rd := ReadDeps(cell, n);
      DependOne(cell.dep, t);
      if cell.childOb.Some? {
        ghost var c1 := Snapshot(t, w);
        ghost var rest := ChildDeps(cell, n);
        assert rd == [cell.dep] + rest;
        ReadChild(cell, n, t);
        DependedConcat(old(Snapshot(t, w)), c1, Snapshot(t, w), w, w.depIds, [cell.dep], rest);
      } else {
        assert rd == [cell.dep];
      }
    }
  }

  /** The deps a child observer adds to a read: its own and, for an array
      value, those `dependArray` reaches. */
  function ChildDeps(cell: ReactiveCell, n: nat): seq<Dep>
    reads this`heap, cell
    requires cell.childOb.Some?
  {
    [cell.childOb.value.dep] + if IsArray(cell.Current()) then ArrayDeps(cell.Current().addr, n) else []
  }

  /** The part of `reactiveGetter` for a child observer. */
  method ReadChild(cell: ReactiveCell, ghost n: nat, t: Tracking)
    requires t.DepIdsFresh() && ObDepsKnown(t) && t.target.Some? && cell.childOb.Some? && cell.childOb.value.dep in t.deps
    requires IsArray(cell.Current()) ==> NestedBelow(cell.Current().addr, n)
    modifies t.deps`subs, t.TargetSet()`newDeps, t.TargetSet()`newDepIds
    ensures var w := t.target.value; Depended(old(Snapshot(t, w)), Snapshot(t, w), w, w.depIds, old(ChildDeps(cell, n)))
  {
    ghost var w := t.target.value;
    ghost var cd := ChildDeps(cell, n);
    DependOne(cell.childOb.value.dep, t);
    var value := cell.Current();
    if IsArray(value) {
      ghost var c1 := Snapshot(t, w);
      ghost var rest := ArrayDeps(value.addr, n);
      assert cd == [cell.childOb.value.dep] + rest;
      DependArray(value.addr, n, t);
      DependedConcat(old(Snapshot(t, w)), c1, Snapshot(t, w), w, w.depIds, [cell.childOb.value.dep], rest);
    } else {
      assert cd == [cell.childOb.value.dep];
    }
  }

  /** `dependArray` on the array at `a`. */
  method DependArray(a: nat, ghost n: nat, t: Tracking)
    requires t.DepIdsFresh() && ObDepsKnown(t) && t.target.Some? && NestedBelow(a, n)
    modifies t.deps`subs, t.TargetSet()`newDeps, t.TargetSet()`newDepIds
    decreases n, 2
    ensures var w := t.target.value; Depended(old(Snapshot(t, w)), Snapshot(t, w), w, w.depIds, old(ArrayDeps(a, n)))
  {
    ghost var w := t.target.value;
    var items := heap[a].elems;
    var i := 0;
    DependedNone(Snapshot(t, w), w, w.depIds);
    while i < |items|
      invariant 0 <= i <= |items|
      invariant Depended(old(Snapshot(t, w)), Snapshot(t, w), w, w.depIds, ElemsDeps(items[..i], n))
    {
      ghost var c1 := Snapshot(t, w);
      ghost var ed := ElemDeps(items[i], n);
      DependElem(items[i], n, t);
      DependedConcat(old(Snapshot(t, w)), c1, Snapshot(t, w), w, w.depIds, ElemsDeps(items[..i], n), ed);
      PrefixStep(items, i);
      assert items[..i + 1][..i] == items[..i];
      i := i + 1;
    }
    assert items[..i] == items;
  }

  /** `e.__ob__.dep.depend()`, when `e` is observed. */
  method DependOwnOb(e: Value, t: Tracking)
    requires t.DepIdsFresh() && ObDepsKnown(t) && t.target.Some?
    modifies t.deps`subs, t.TargetSet()`newDeps, t.TargetSet()`newDepIds
    ensures var w := t.target.value;
      Depended(old(Snapshot(t, w)), Snapshot(t, w), w, w.depIds, if HasOb(e) then [heap[e.addr].ob.value.dep] else [])
  {
    ghost var w := t.target.value;
    if HasOb(e) {
      DependOne(heap[e.addr].ob.value.dep, t);
    } else {
      DependedNone(Snapshot(t, w), w, w.depIds);
    }
  }

  /** The body of the loop of `dependArray` for the element `e`. */
  method DependElem(e: Value, ghost n: nat, t: Tracking)
    requires t.DepIdsFresh() && ObDepsKnown(t) && t.target.Some?
    requires IsArray(e) ==> n > 0 && NestedBelow(e.addr, n - 1)
    modifies t.deps`subs, t.TargetSet()`newDeps, t.TargetSet()`newDepIds
    decreases n, 1
    ensures var w := t.target.value; Depended(old(Snapshot(t, w)), Snapshot(t, w), w, w.depIds, old(ElemDeps(e, n)))
  {
    ghost var w := t.target.value;
    ghost var ed := ElemDeps(e, n);
    ghost var first := if HasOb(e) then [heap[e.addr].ob.value.dep] else [];
    DependOwnOb(e, t);
    if IsArray(e) {
      ghost var c1 := Snapshot(t, w);
      ghost var rest := ArrayDeps(e.addr, n - 1);
      assert ed == first + rest;
      DependArray(e.addr, n - 1, t);
      DependedConcat(old(Snapshot(t, w)), c1, Snapshot(t, w), w, w.depIds, first, rest);
    } else {
      assert ed == first;
    }
  }
}
