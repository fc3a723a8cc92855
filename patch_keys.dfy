/** The pure half of the patcher: when two vnodes may share an element, the
    key table, the slot search, and the duplicate-key scan.  They are
    written down as they appear in src/core/vdom/patch.js. */
module PatchKeys {
  import opened Common
  import opened VNodes

  /** The `type` an input compares by: `false` without data or attrs,
      `undefined` when attrs has no `type`, else the string. */
  datatype InputType = NoAttrs | Untyped | Typed(name: string)

  /** `isTextInputType` of the web platform. */
  const textInputTypes: set<string> := {"text", "number", "password", "search", "email", "tel", "url"}

  function InputTypeOf(v: VNode): InputType {
    if v.data.None? || v.data.value.attrs.None? then NoAttrs
    else if "type" in v.data.value.attrs.value then Typed(v.data.value.attrs.value["type"])
    else Untyped
  }

  function IsTextInputType(t: InputType): bool {
    t.Typed? && t.name in textInputTypes
  }

  /** `sameInputType(a, b)` */
  function SameInputType(a: VNode, b: VNode): (r: bool)
    ensures a.tag != Some("input") ==> r
    ensures a.tag == Some("input") ==>
              (r <==> InputTypeOf(a) == InputTypeOf(b) || (IsTextInputType(InputTypeOf(a)) && IsTextInputType(InputTypeOf(b))))
  {
    if a.tag != Some("input") then true
    else
      var ta := InputTypeOf(a);
      var tb := InputTypeOf(b);
      ta == tb || (IsTextInputType(ta) && IsTextInputType(tb))
  }

  /** The async branch of `sameVnode`: `a` is a placeholder for the same
      factory, and that factory has not failed. */
  predicate SameAsyncPlaceholder(a: VNode, b: VNode) {
    a.isAsyncPlaceholder && a.asyncFactory.Some? && b.asyncFactory.Some?
    && a.asyncFactory.value.id == b.asyncFactory.value.id && !b.asyncFactory.value.error
  }

  /** `sameVnode(a, b)`: may `b` be patched into the element of `a`? */
  predicate SameVnode(a: VNode, b: VNode) {
    a.key == b.key
    && ((a.tag == b.tag && a.isComment == b.isComment && a.data.Some? == b.data.Some? && SameInputType(a, b))
        || SameAsyncPlaceholder(a, b))
  }

  /** Reuse requires equal keys; every vnode may be reused for itself; and
      the decision ignores every field the patcher writes. */
  lemma SameVnodeFacts(a: VNode, b: VNode)
    ensures SameVnode(a, b) ==> a.key == b.key
    ensures SameVnode(a, a)
    ensures !a.isAsyncPlaceholder ==> (SameVnode(a, b) <==> SameVnode(Erase(a), Erase(b)))
    ensures SameVnode(a, b) && !SameAsyncPlaceholder(a, b) ==> SameVnode(b, a)
  {
  }

  /** A key table: property name of a key to the old index holding it. */
  type KeyTable = map<string, int>

  /** The key table `createKeyToOldIdx(children, b, e)` must return: exactly
      the defined keys of `children[b..e]`, each mapped to the LAST index in
      the window that carries it, except `__proto__`, whose assignment to a
      number a plain object ignores. */
  ghost predicate IsKeyTable(children: seq<VNode>, b: int, e: int, m: KeyTable)
    requires 0 <= b && e < |children|
  {
    && "__proto__" !in m
    && (forall name :: name in m ==>
          b <= m[name] <= e && children[m[name]].key.Some? && KeyName(children[m[name]].key.value) == name
          && (forall j :: m[name] < j <= e ==> children[j].key.None? || KeyName(children[j].key.value) != name))
    && (forall j :: b <= j <= e && children[j].key.Some? && KeyName(children[j].key.value) != "__proto__" ==>
          KeyName(children[j].key.value) in m)
  }

  /** `createKeyToOldIdx(children, beginIdx, endIdx)` */
  method CreateKeyToOldIdx(children: seq<VNode>, beginIdx: int, endIdx: int) returns (m: KeyTable)
    requires 0 <= beginIdx && endIdx < |children|
    ensures IsKeyTable(children, beginIdx, endIdx, m)
  {
    m := map[];
    var i := beginIdx;
    while i <= endIdx
      invariant beginIdx <= i <= endIdx + 1 || (i == beginIdx && endIdx < beginIdx)
      invariant "__proto__" !in m
      invariant forall name :: name in m ==>
          beginIdx <= m[name] < i && children[m[name]].key.Some? && KeyName(children[m[name]].key.value) == name
          && (forall j :: m[name] < j < i ==> children[j].key.None? || KeyName(children[j].key.value) != name)
      invariant forall j :: beginIdx <= j < i && children[j].key.Some? && KeyName(children[j].key.value) != "__proto__" ==>
          KeyName(children[j].key.value) in m
    {
      var key := children[i].key;
      if key.Some? && KeyName(key.value) != "__proto__" {
        m := m[KeyName(key.value) := i];
      }
      i := i + 1;
    }
  }

  /** `findIdxInOld(node, oldCh, start, end)`: the first index in
      `[start, end)` holding a vnode that `node` may be patched from.  The
      end index itself is not searched. */
  method FindIdxInOld(node: VNode, oldCh: seq<Option<VNode>>, start: int, end: int) returns (r: Option<int>)
    requires 0 <= start && end <= |oldCh|
    ensures r.Some? ==> start <= r.value < end && oldCh[r.value].Some? && SameVnode(node, oldCh[r.value].value)
    ensures forall i :: start <= i < end && (r.None? || i < r.value) ==> oldCh[i].None? || !SameVnode(node, oldCh[i].value)
  {
    var i := start;
    while i < end
      invariant start <= i <= end || (i == start && end < start)
      invariant forall k :: start <= k < i ==> oldCh[k].None? || !SameVnode(node, oldCh[k].value)
    {
      var c := oldCh[i];
      if c.Some? && SameVnode(node, c.value) {
        return Some(i);
      }
      i := i + 1;
    }
    return None;
  }

  /** No two defined keys of `cs` have the same property name. */
  predicate UniqueKeyNames(cs: seq<VNode>) {
    forall a, b :: 0 <= a < b < |cs| && cs[a].key.Some? && cs[b].key.Some? ==>
      KeyName(cs[a].key.value) != KeyName(cs[b].key.value)
  }

  /** Property names of the defined keys of `cs`. */
  function KeyNames(cs: seq<VNode>): (r: set<string>)
    ensures forall name :: name in r <==> exists k :: 0 <= k < |cs| && cs[k].key.Some? && KeyName(cs[k].key.value) == name
  {
    if cs == [] then {}
    else
      var last := cs[|cs| - 1];
      var rest := KeyNames(cs[..|cs| - 1]);
      assert forall k :: 0 <= k < |cs| - 1 ==> cs[..|cs| - 1][k] == cs[k];
      if last.key.Some? then rest + {KeyName(last.key.value)} else rest
  }

  /** No defined key of `cs` names a property of `Object.prototype`. */
  predicate NoPrototypeKeyNames(cs: seq<VNode>) {
    forall k :: 0 <= k < |cs| && cs[k].key.Some? ==> KeyName(cs[k].key.value) !in ObjectPrototypeKeys
  }

  /** Does `seenKeys[key]` read a truthy value, `seenKeys` being a plain
      object holding `true` under each name in `seen`?  The methods of
      `Object.prototype` and `__proto__` are inherited and truthy. */
  predicate SeenTruthy(seen: set<string>, name: string) {
    name in seen || name in ObjectPrototypeKeys
  }

  /** The keys `checkDuplicateKeys` warns about, in order: each defined key
      whose property name already occurred earlier in the list, or is
      inherited from `Object.prototype`. */
  function DuplicateWarnings(cs: seq<VNode>): seq<Key> {
    if cs == [] then []
    else
      var last := cs[|cs| - 1];
      DuplicateWarnings(cs[..|cs| - 1])
        + (if last.key.Some? && SeenTruthy(KeyNames(cs[..|cs| - 1]), KeyName(last.key.value)) then [last.key.value] else [])
  }

  /** `checkDuplicateKeys(children)`: the keys it warns about. */
  method CheckDuplicateKeys(children: seq<VNode>) returns (warned: seq<Key>)
    ensures warned == DuplicateWarnings(children)
  {
    var seenKeys: set<string> := {};
    warned := [];
    for i := 0 to |children|
      invariant seenKeys == KeyNames(children[..i]) - ObjectPrototypeKeys
      invariant warned == DuplicateWarnings(children[..i])
    {
      assert children[..i + 1][..i] == children[..i];
      var key := children[i].key;
      if key.Some? {
        if KeyName(key.value) in seenKeys || KeyName(key.value) in ObjectPrototypeKeys {
          warned := warned + [key.value];
        } else {
          seenKeys := seenKeys + {KeyName(key.value)};
        }
      }
    }
    assert children[..|children|] == children;
  }

  /** The scan is silent exactly when the key names are unique and none of
      them is inherited from `Object.prototype`. */
  lemma {:induction false} NoWarningsIffUnique(cs: seq<VNode>)
    ensures DuplicateWarnings(cs) == [] <==> UniqueKeyNames(cs) && NoPrototypeKeyNames(cs)
  {
    if cs != [] {
      var n := |cs| - 1;
      var init := cs[..n];
      NoWarningsIffUnique(init);
      var lastDup := cs[n].key.Some? && SeenTruthy(KeyNames(init), KeyName(cs[n].key.value));
      assert DuplicateWarnings(cs) == DuplicateWarnings(init) + (if lastDup then [cs[n].key.value] else []);
      UniqueSplit(cs);
      assert forall k :: 0 <= k < n ==> init[k] == cs[k];
    }
  }

  /** A key named after a method of `Object.prototype` draws the warning
      even when it occurs once. */
  lemma PrototypeKeyWarns(v: VNode)
    requires v.key.Some? && KeyName(v.key.value) in ObjectPrototypeKeys
    ensures DuplicateWarnings([v]) == [v.key.value]
  {
    assert [v][..0] == [];
  }

  /** A list has unique keys exactly when its front does and its last key
      is new. */
  lemma UniqueSplit(cs: seq<VNode>)
    requires cs != []
    ensures var n := |cs| - 1;
      UniqueKeyNames(cs) <==>
        UniqueKeyNames(cs[..n]) && !(cs[n].key.Some? && KeyName(cs[n].key.value) in KeyNames(cs[..n]))
  {
    var n := |cs| - 1;
    var init := cs[..n];
    assert forall k :: 0 <= k < n ==> init[k] == cs[k];
    if UniqueKeyNames(cs) {
      forall a, b | 0 <= a < b < n && init[a].key.Some? && init[b].key.Some?
        ensures KeyName(init[a].key.value) != KeyName(init[b].key.value)
      {
        assert init[a] == cs[a] && init[b] == cs[b];
      }
    }
  }
}
