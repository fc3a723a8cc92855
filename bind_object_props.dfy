/** `bindObjectProps` of src/core/instance/render-helpers/bind-object-props.js:
    merging the object given to `v-bind="obj"` into a vnode's data without
    overwriting the bindings the template already made. */
module BindObjectProps {
  import opened Common

  /** A plain object: its enumerable keys in `for...in` order, and their values. */
  datatype Object = Object(keys: seq<string>, vals: map<string, Value>)

  predicate WellFormed(o: Object) {
    Distinct(o.keys) && (forall k | k in o.keys :: k in o.vals) && (forall k | k in o.vals :: k in o.keys)
  }

  /** The `value` bound: a falsy value, any other non-object, a plain object,
      or an array whose elements are objects or falsy. */
  datatype BindValue = Falsy | Scalar | Obj(o: Object) | Arr(items: seq<Option<Object>>)

  /** `obj[key] = v` on a plain object: a new key goes to the end of the order. */
  function Put(o: Object, key: string, v: Value): (r: Object)
    ensures WellFormed(o) ==> WellFormed(r)
    ensures r.vals == o.vals[key := v]
  {
    if key in o.vals then Object(o.keys, o.vals[key := v])
    else
      assert WellFormed(o) ==> Distinct(o.keys + [key]) by {
        if WellFormed(o) {
          forall i, j | 0 <= i < j < |o.keys| + 1 ensures (o.keys + [key])[i] != (o.keys + [key])[j] {
            if j == |o.keys| { assert (o.keys + [key])[i] == o.keys[i]; }
          }
        }
      }
      Object(o.keys + [key], o.vals[key := v])
  }

  /** `extend(to, from)` of shared/util: copy every key of `from`, in order. */
  function Extend(to: Object, from: Object, n: nat): (r: Object)
    requires n <= |from.keys| && WellFormed(from)
    ensures WellFormed(to) ==> WellFormed(r)
    ensures forall k :: k in r.vals <==> k in to.vals || k in from.keys[..n]
    ensures forall k | k in from.keys[..n] :: r.vals[k] == from.vals[k]
    ensures forall k | k in to.vals && k !in from.keys[..n] :: r.vals[k] == to.vals[k]
  {
    if n == 0 then to
    else
      var k := from.keys[n - 1];
      assert from.keys[..n] == from.keys[..n - 1] + [k];
      Put(Extend(to, from, n - 1), k, from.vals[k])
  }

  /** `toObject(arr)` of shared/util: extend an empty object with every truthy element. */
  function ToObject(items: seq<Option<Object>>): (r: Object)
    requires forall i | 0 <= i < |items| && items[i].Some? :: WellFormed(items[i].value)
    ensures WellFormed(r)
  {
    if items == [] then Object([], map[])
    else
      var last := items[|items| - 1];
      var init := ToObject(items[..|items| - 1]);
      if last.None? then init else Extend(init, last.value, |last.value.keys|)
  }

  predicate Elements(items: seq<Option<Object>>) {
    forall i | 0 <= i < |items| && items[i].Some? :: WellFormed(items[i].value)
  }

  lemma ElementsInit(items: seq<Option<Object>>)
    requires Elements(items) && items != []
    ensures Elements(items[..|items| - 1])
  {
    var init := items[..|items| - 1];
    forall i | 0 <= i < |init| && init[i].Some? ensures WellFormed(init[i].value) {
      assert init[i] == items[i];
    }
  }

  /** A key is in the merged object iff some element has it. */
  lemma {:induction false} ToObjectDomain(items: seq<Option<Object>>, k: string)
    requires Elements(items)
    ensures k in ToObject(items).vals <==> exists i | 0 <= i < |items| :: items[i].Some? && k in items[i].value.vals
    decreases |items|
  {
    if items != [] {
      var init, last := items[..|items| - 1], items[|items| - 1];
      ElementsInit(items);
      ToObjectDomain(init, k);
      ToObjectStep(items, k);
      if exists i | 0 <= i < |items| :: items[i].Some? && k in items[i].value.vals {
        var i :| 0 <= i < |items| && items[i].Some? && k in items[i].value.vals;
        if i < |init| {
          assert init[i] == items[i];
        }
      }
      if k in ToObject(init).vals {
        var i :| 0 <= i < |init| && init[i].Some? && k in init[i].value.vals;
        assert items[i] == init[i];
      }
    }
  }

  /** One more element adds exactly its own keys. */
  lemma ToObjectStep(items: seq<Option<Object>>, k: string)
    requires Elements(items) && items != []
    ensures Elements(items[..|items| - 1])
    ensures var last := items[|items| - 1];
      k in ToObject(items).vals <==> k in ToObject(items[..|items| - 1]).vals || (last.Some? && k in last.value.vals)
  {
    ElementsInit(items);
    var last := items[|items| - 1];
    if last.Some? {
      assert last.value.keys[..|last.value.keys|] == last.value.keys;
    }
  }

  /** The later element wins: a key takes its value from the last element
      that has it. */
  lemma {:induction false} ToObjectLastWins(items: seq<Option<Object>>, k: string, i: int)
    requires Elements(items) && 0 <= i < |items| && items[i].Some? && k in items[i].value.vals
    requires forall j | i < j < |items| :: items[j].None? || k !in items[j].value.vals
    ensures k in ToObject(items).vals && ToObject(items).vals[k] == items[i].value.vals[k]
    decreases |items|
  {
    var init, last := items[..|items| - 1], items[|items| - 1];
    ElementsInit(items);
    if last.Some? {
      assert last.value.keys[..|last.value.keys|] == last.value.keys;
    }
    if i < |init| {
      assert init[i] == items[i];
      ToObjectLastWins(init, k, i);
    }
  }

  /** A `v-on` handler that `.sync` adds: `$event => value[key] = $event`. */
  datatype Handler = SyncWriter(key: string) | OtherHandler(id: nat)

  /** The parts of a vnode's `data` that `bindObjectProps` reads and writes. */
  datatype Hashes = Hashes(
    own: map<string, Value>,               // `data` itself: class, style, key, ref, ...
    attrs: Option<map<string, Value>>,
    domProps: Option<map<string, Value>>,
    on: Option<map<string, Handler>>)

  /** Platform and string helpers the core takes from elsewhere:
      `config.mustUseProp(tag, type, key)`, `camelize`, `hyphenate`. */
  datatype Env = Env(
    mustUseProp: (string, Option<Value>, string) -> bool,
    camelize: string -> string,
    hyphenate: string -> string)

  /** `isReservedAttribute`: key, ref, slot, slot-scope and is. */
  const ReservedAttributes: set<string> := {"key", "ref", "slot", "slot-scope", "is"}

  datatype Target = DataItself | DomProps | Attrs

  /** `data.attrs && data.attrs.type` */
  function TypeAttr(h: Hashes): Option<Value> {
    if h.attrs.Some? && "type" in h.attrs.value then Some(h.attrs.value["type"]) else None
  }

  /** Where `key` goes at this point of the loop. */
  function TargetFor(h: Hashes, env: Env, tag: string, key: string, asProp: bool): Target {
    if key == "class" || key == "style" || key in ReservedAttributes then DataItself
    else if asProp || env.mustUseProp(tag, TypeAttr(h), key) then DomProps
    else Attrs
  }

  /** The hash object chosen, after `data.xxx || (data.xxx = {})`. */
  function HashOf(h: Hashes, t: Target): map<string, Value> {
    match t
    case DataItself => h.own
    case DomProps => h.domProps.GetOr(map[])
    case Attrs => h.attrs.GetOr(map[])
  }

  function WithHash(h: Hashes, t: Target, m: map<string, Value>): Hashes {
    match t
    case DataItself => h.(own := m)
    case DomProps => h.(domProps := Some(m))
    case Attrs => h.(attrs := Some(m))
  }

  /** The `in` operator on a plain object, which also sees `Object.prototype`. */
  predicate In(m: map<string, Value>, k: string) {
    k in m || k in ObjectPrototypeKeys
  }

  /** Neither spelling of `key` is bound in `hash` yet. */
  predicate Free(hash: map<string, Value>, env: Env, key: string) {
    !In(hash, env.camelize(key)) && !In(hash, env.hyphenate(key))
  }

  /** One turn of the `for (const key in value)` loop. */
  function Step(h: Hashes, env: Env, tag: string, key: string, v: Value, asProp: bool, isSync: bool): Hashes {
    var t := TargetFor(h, env, tag, key, asProp);
    var hash := HashOf(h, t);
    if Free(hash, env, key) then
      var h1 := WithHash(h, t, hash[key := v]);
      if isSync then h1.(on := Some(h1.on.GetOr(map[])["update:" + key := SyncWriter(key)])) else h1
    else WithHash(h, t, hash)
  }

  /** `value[key]`, `undefined` for a key the object does not have. */
  function Get(o: Object, k: string): Value {
    if k in o.vals then o.vals[k] else Undefined
  }

  /** The loop over the first `n` keys of `o`. */
  function Bind(h: Hashes, env: Env, tag: string, o: Object, n: nat, asProp: bool, isSync: bool): Hashes
    requires n <= |o.keys|
  {
    if n == 0 then h
    else
      var k := o.keys[n - 1];
      Step(Bind(h, env, tag, o, n - 1, asProp, isSync), env, tag, k, Get(o, k), asProp, isSync)
  }

  /** The object the loop walks: `value`, or `toObject(value)` for an array. */
  function Source(value: BindValue): (r: Object)
    requires value.Obj? || value.Arr?
    requires value.Obj? ==> WellFormed(value.o)
    requires value.Arr? ==> Elements(value.items)
    ensures WellFormed(r)
  {
    if value.Obj? then value.o else ToObject(value.items)
  }

  /** A vnode's `data` object. */
  class Data {
    var own: map<string, Value>
    var attrs: Option<map<string, Value>>
    var domProps: Option<map<string, Value>>
    var on: Option<map<string, Handler>>

    function State(): Hashes
      reads this
    {
      Hashes(own, attrs, domProps, on)
    }
  }

  /** `bindObjectProps(data, tag, value, asProp, isSync)`: returns the same
      `data` object, and whether the non-object warning is given. */
  method BindObjectProps(data: Data, env: Env, tag: string, value: BindValue, asProp: bool, isSync: bool)
      returns (r: Data, warned: bool)
    requires value.Obj? ==> WellFormed(value.o)
    requires value.Arr? ==> Elements(value.items)
    modifies data
    ensures r == data
    ensures warned <==> value.Scalar?
    ensures value.Falsy? || value.Scalar? ==> data.State() == old(data.State())
    ensures value.Obj? || value.Arr? ==>
      data.State() == Bind(old(data.State()), env, tag, Source(value), |Source(value).keys|, asProp, isSync)
  {
    r, warned := data, false;
    if value.Falsy? {
      return;
    }
    if value.Scalar? {
      warned := true;
      return;
    }
    var o := if value.Arr? then ToObject(value.items) else value.o;
    for i := 0 to |o.keys|
      invariant data.State() == Bind(old(data.State()), env, tag, o, i, asProp, isSync)
    {
      BindKey(data, env, tag, o.keys[i], Get(o, o.keys[i]), asProp, isSync);
    }
  }

  /** The body of the loop for one key of the object. */
  method BindKey(data: Data, env: Env, tag: string, key: string, v: Value, asProp: bool, isSync: bool)
    modifies data
    ensures data.State() == Step(old(data.State()), env, tag, key, v, asProp, isSync)
  {
    var h := data.State();
    var t := TargetFor(h, env, tag, key, asProp);
    var hash := HashOf(h, t);
    if Free(hash, env, key) {
      hash := hash[key := v];
      if isSync {
        data.on := Some(data.on.GetOr(map[])["update:" + key := SyncWriter(key)]);
      }
    }
    match t
    case DataItself => data.own := hash;
    case DomProps => data.domProps := Some(hash);
    case Attrs => data.attrs := Some(hash);
  }

  /** `key` is one of its own spellings, as every key a template or a
      component's props produce is. */
  predicate Normal(env: Env, key: string) {
    key == env.camelize(key) || key == env.hyphenate(key)
  }

  /** `h1` keeps every hash of `h0` and every entry in it. */
  predicate Keeps(h0: Hashes, h1: Hashes) {
    h0.own.Items <= h1.own.Items &&
    (h0.attrs.Some? ==> h1.attrs.Some? && h0.attrs.value.Items <= h1.attrs.value.Items) &&
    (h0.domProps.Some? ==> h1.domProps.Some? && h0.domProps.value.Items <= h1.domProps.value.Items)
  }

  /** Some spelling of `key` is bound in one of the hashes. */
  predicate Covered(h: Hashes, env: Env, key: string) {
    exists t: Target :: !Free(HashOf(h, t), env, key) || key in HashOf(h, t)
  }

  lemma StepKeeps(h: Hashes, env: Env, tag: string, key: string, v: Value, asProp: bool, isSync: bool)
    requires Normal(env, key)
    ensures Keeps(h, Step(h, env, tag, key, v, asProp, isSync))
    ensures Covered(Step(h, env, tag, key, v, asProp, isSync), env, key)
  {
    var t := TargetFor(h, env, tag, key, asProp);
    var h1 := Step(h, env, tag, key, v, asProp, isSync);
    if Free(HashOf(h, t), env, key) {
      assert key !in HashOf(h, t);
      assert key in HashOf(h1, t);
    } else {
      assert !Free(HashOf(h1, t), env, key);
    }
  }

  lemma KeepsTrans(h0: Hashes, h1: Hashes, h2: Hashes)
    requires Keeps(h0, h1) && Keeps(h1, h2)
    ensures Keeps(h0, h2)
  {
  }

  lemma CoveredKept(h0: Hashes, h1: Hashes, env: Env, key: string)
    requires Covered(h0, env, key) && Keeps(h0, h1)
    ensures Covered(h1, env, key)
  {
    var t: Target :| !Free(HashOf(h0, t), env, key) || key in HashOf(h0, t);
    var m0, m1 := HashOf(h0, t), HashOf(h1, t);
    assert m0.Items <= m1.Items;
    forall k | k in m0 ensures k in m1 {
      KeptEntry(m0, m1, k);
    }
    assert !Free(m1, env, key) || key in m1;
  }

  /** An entry of a map whose items are among another's is in the other. */
  lemma KeptEntry(m0: map<string, Value>, m1: map<string, Value>, k: string)
    requires m0.Items <= m1.Items && k in m0
    ensures k in m1 && m1[k] == m0[k]
  {
    assert (k, m0[k]) in m0.Items;
  }

  /** Binding an object whose keys are in normal spelling never removes or
      changes a binding `data`, `data.attrs` or `data.domProps` already had,
      and leaves every key of the object bound in some spelling. */
  lemma {:induction false} BindKeeps(h: Hashes, env: Env, tag: string, o: Object, n: nat, asProp: bool, isSync: bool)
    requires n <= |o.keys|
    requires forall k | k in o.keys :: Normal(env, k)
    ensures Keeps(h, Bind(h, env, tag, o, n, asProp, isSync))
    ensures forall i | 0 <= i < n :: Covered(Bind(h, env, tag, o, n, asProp, isSync), env, o.keys[i])
  {
    if n > 0 {
      var prev := Bind(h, env, tag, o, n - 1, asProp, isSync);
      BindKeeps(h, env, tag, o, n - 1, asProp, isSync);
      var next := BindStep(h, env, tag, o, n, asProp, isSync);
      ChainStep(h, prev, next, env, o.keys[..n]);
    }
  }

  /** Extending a chain of kept hashes by one turn that covers the next key. */
  lemma ChainStep(h: Hashes, prev: Hashes, next: Hashes, env: Env, keys: seq<string>)
    requires keys != [] && Keeps(h, prev) && Keeps(prev, next)
    requires forall i | 0 <= i < |keys| - 1 :: Covered(prev, env, keys[i])
    requires Covered(next, env, keys[|keys| - 1])
    ensures Keeps(h, next) && forall i | 0 <= i < |keys| :: Covered(next, env, keys[i])
  {
    KeepsTrans(h, prev, next);
    forall i | 0 <= i < |keys| - 1 ensures Covered(next, env, keys[i]) {
      CoveredKept(prev, next, env, keys[i]);
    }
  }

  /** The last turn of the loop keeps what the earlier ones bound and
      covers its own key. */
  lemma BindStep(h: Hashes, env: Env, tag: string, o: Object, n: nat, asProp: bool, isSync: bool) returns (next: Hashes)
    requires 0 < n <= |o.keys| && Normal(env, o.keys[n - 1])
    ensures next == Bind(h, env, tag, o, n, asProp, isSync)
    ensures Keeps(Bind(h, env, tag, o, n - 1, asProp, isSync), next)
    ensures Covered(next, env, o.keys[n - 1])
  {
    var prev := Bind(h, env, tag, o, n - 1, asProp, isSync);
    var k := o.keys[n - 1];
    StepKeeps(prev, env, tag, k, Get(o, k), asProp, isSync);
    next := Step(prev, env, tag, k, Get(o, k), asProp, isSync);
  }


  /** Handlers are added only with `.sync`. */
  lemma {:induction false} BindOnlySyncHandlers(h: Hashes, env: Env, tag: string, o: Object, n: nat, asProp: bool)
    requires n <= |o.keys|
    ensures Bind(h, env, tag, o, n, asProp, false).on == h.on
  {
    if n > 0 {
      BindOnlySyncHandlers(h, env, tag, o, n - 1, asProp);
    }
  }

  /** With `.sync`, a key written by its turn of the loop gets its
      `update:key` handler. */
  lemma SyncHandlerAdded(h: Hashes, env: Env, tag: string, key: string, v: Value, asProp: bool)
    requires Free(HashOf(h, TargetFor(h, env, tag, key, asProp)), env, key)
    ensures var h1 := Step(h, env, tag, key, v, asProp, true);
      h1.on.Some? && h1.on.value["update:" + key] == SyncWriter(key) &&
      HashOf(h1, TargetFor(h, env, tag, key, asProp))[key] == v
  {
  }
}
