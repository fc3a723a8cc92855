/** `$refs` bookkeeping of src/core/vdom/modules/ref.js: the module hooks
    that keep a context vm's `$refs` table in step with the vnodes carrying
    a `ref` attribute. */
module Refs {
  import opened Common
  import opened VNodes

  /** `vnode.componentInstance || vnode.elm`: the component, else the element,
      else `undefined`. */
  datatype RefTarget = NoTarget | Instance(vm: nat) | Element(elm: Elm)

  /** A value of `$refs[key]`: one target, or the array kept for a ref inside
      `v-for`. */
  datatype RefEntry = Single(target: RefTarget) | InFor(targets: seq<RefTarget>)

  function TargetOf(v: VNode): (r: RefTarget)
    ensures v.componentInstance.Some? ==> r == Instance(v.componentInstance.value)
    ensures v.componentInstance.None? && v.elm.Some? ==> r == Element(v.elm.value)
    ensures r == NoTarget <==> v.componentInstance.None? && v.elm.None?
  {
    if v.componentInstance.Some? then Instance(v.componentInstance.value)
    else if v.elm.Some? then Element(v.elm.value)
    else NoTarget
  }

  /** `refs[key]`, which reads `undefined` for a missing key. */
  function Entry(refs: map<string, RefEntry>, key: string): RefEntry {
    if key in refs then refs[key] else Single(NoTarget)
  }

  /** `refs[key]` is (or holds, for an array) the target `r`. */
  predicate Holds(refs: map<string, RefEntry>, key: string, r: RefTarget) {
    key in refs && (refs[key] == Single(r) || (refs[key].InFor? && r in refs[key].targets))
  }

  /** No array entry lists a target twice. */
  predicate NoDuplicates(refs: map<string, RefEntry>) {
    forall key | key in refs && refs[key].InFor? :: Distinct(refs[key].targets)
  }

  /** The table `registerRef(vnode, isRemoval)` leaves behind. */
  function Registered(refs: map<string, RefEntry>, v: VNode, isRemoval: bool): (r: map<string, RefEntry>)
    requires v.data.Some?
    ensures v.data.value.ref.None? ==> r == refs
    ensures forall k | v.data.value.ref != Some(k) :: (k in r <==> k in refs) && (k in r ==> r[k] == refs[k])
  {
    var data := v.data.value;
    if data.ref.None? then refs
    else
      var key, ref := data.ref.value, TargetOf(v);
      if isRemoval then
        if key in refs && refs[key].InFor? then refs[key := InFor(RemoveFirst(refs[key].targets, ref))]
        else if Entry(refs, key) == Single(ref) then refs[key := Single(NoTarget)]
        else refs
      else if data.refInFor then
        if !(key in refs && refs[key].InFor?) then refs[key := InFor([ref])]
        else if IndexOf(refs[key].targets, ref) < 0 then refs[key := InFor(refs[key].targets + [ref])]
        else refs
      else refs[key := Single(ref)]
  }

  /** The `$refs` object of a vm. */
  class RefTable {
    var refs: map<string, RefEntry>

    constructor ()
      ensures refs == map[]
    {
      refs := map[];
    }

    /** `registerRef(vnode, isRemoval)` with this table as `vnode.context.$refs`. */
    method Register(v: VNode, isRemoval: bool)
      requires v.data.Some?
      modifies this
      ensures refs == Registered(old(refs), v, isRemoval)
    {
      var key := v.data.value.ref;
      if key.None? {
        return;
      }
      var k := key.value;
      var ref := TargetOf(v);
      if isRemoval {
        if k in refs && refs[k].InFor? {
          refs := refs[k := InFor(RemoveFirst(refs[k].targets, ref))];
        } else if Entry(refs, k) == Single(ref) {
          refs := refs[k := Single(NoTarget)];
        }
      } else if v.data.value.refInFor {
        if !(k in refs && refs[k].InFor?) {
          refs := refs[k := InFor([ref])];
        } else if IndexOf(refs[k].targets, ref) < 0 {
          refs := refs[k := InFor(refs[k].targets + [ref])];
        }
      } else {
        refs := refs[k := Single(ref)];
      }
    }
  }

  /** The `create` hook. */
  method CreateHook(table: RefTable, v: VNode)
    requires v.data.Some?
    modifies table
    ensures table.refs == Registered(old(table.refs), v, false)
  {
    table.Register(v, false);
  }

  /** The `update` hook: re-registers only when the `ref` name changed; the
      old vnode's context and the new one's may be different vms. */
  method UpdateHook(oldTable: RefTable, table: RefTable, oldVnode: VNode, v: VNode)
    requires oldVnode.data.Some? && v.data.Some?
    modifies oldTable, table
    ensures oldVnode.data.value.ref == v.data.value.ref ==>
      oldTable.refs == old(oldTable.refs) && table.refs == old(table.refs)
    ensures oldVnode.data.value.ref != v.data.value.ref && oldTable == table ==>
      table.refs == Registered(Registered(old(table.refs), oldVnode, true), v, false)
    ensures oldVnode.data.value.ref != v.data.value.ref && oldTable != table ==>
      oldTable.refs == Registered(old(oldTable.refs), oldVnode, true) &&
      table.refs == Registered(old(table.refs), v, false)
  {
    if oldVnode.data.value.ref != v.data.value.ref {
      oldTable.Register(oldVnode, true);
      table.Register(v, false);
    }
  }

  /** The `destroy` hook. */
  method DestroyHook(table: RefTable, v: VNode)
    requires v.data.Some?
    modifies table
    ensures table.refs == Registered(old(table.refs), v, true)
  {
    table.Register(v, true);
  }

  /** After an addition the table holds the vnode's target under its ref. */
  lemma AddHolds(refs: map<string, RefEntry>, v: VNode)
    requires v.data.Some? && v.data.value.ref.Some?
    ensures Holds(Registered(refs, v, false), v.data.value.ref.value, TargetOf(v))
    ensures !v.data.value.refInFor ==> Registered(refs, v, false)[v.data.value.ref.value] == Single(TargetOf(v))
  {
  }

  /** Adding and removing keep every `v-for` array free of duplicates. */
  lemma RegisterKeepsNoDuplicates(refs: map<string, RefEntry>, v: VNode, isRemoval: bool)
    requires v.data.Some? && NoDuplicates(refs)
    ensures NoDuplicates(Registered(refs, v, isRemoval))
  {
    var r := Registered(refs, v, isRemoval);
    if v.data.value.ref.Some? {
      var key, ref := v.data.value.ref.value, TargetOf(v);
      if key in refs && refs[key].InFor? {
        var l := refs[key].targets;
        if isRemoval {
          RemoveFirstDistinct(l, ref);
        } else if v.data.value.refInFor && IndexOf(l, ref) < 0 {
          assert Distinct(l + [ref]) by {
            forall i, j | 0 <= i < j < |l| + 1
              ensures (l + [ref])[i] != (l + [ref])[j]
            {
              if j == |l| {
                assert (l + [ref])[i] == l[i];
                assert l[i] in l;
              }
            }
          }
        }
      }
    }
  }

  lemma RemoveFirstDistinct<T>(s: seq<T>, x: T)
    requires Distinct(s)
    ensures Distinct(RemoveFirst(s, x))
  {
    var i := IndexOf(s, x);
    if i >= 0 {
      var r := RemoveFirst(s, x);
      forall a, b | 0 <= a < b < |r|
        ensures r[a] != r[b]
      {
        var a' := if a < i then a else a + 1;
        var b' := if b < i then b else b + 1;
        assert r[a] == s[a'] && r[b] == s[b'];
      }
    }
  }

  /** A removal leaves the target no longer registered under its ref,
      provided the table had no duplicates and there is a target at all. */
  lemma RemoveReleases(refs: map<string, RefEntry>, v: VNode)
    requires v.data.Some? && v.data.value.ref.Some? && NoDuplicates(refs)
    requires TargetOf(v) != NoTarget
    ensures !Holds(Registered(refs, v, true), v.data.value.ref.value, TargetOf(v))
  {
    var key, ref := v.data.value.ref.value, TargetOf(v);
    if key in refs && refs[key].InFor? {
      var l := refs[key].targets;
      DistinctCount(l, ref);
      RemoveFirstCount(l, ref, ref);
    }
  }

  /** Inside `v-for`, registering a target that the array did not yet hold
      and then removing it gives back the array unchanged. */
  lemma AddRemoveRoundTrip(refs: map<string, RefEntry>, v: VNode)
    requires v.data.Some? && v.data.value.ref.Some? && v.data.value.refInFor
    requires var key := v.data.value.ref.value;
      key in refs && refs[key].InFor? && TargetOf(v) !in refs[key].targets
    ensures Registered(Registered(refs, v, false), v, true) == refs
  {
    var key, ref := v.data.value.ref.value, TargetOf(v);
    var l := refs[key].targets;
    assert IndexOf(l + [ref], ref) == |l|;
    assert (l + [ref])[..|l|] == l;
    assert RemoveFirst(l + [ref], ref) == l;
  }
}
