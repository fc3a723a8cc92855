/** The patcher returned by `createPatchFunction` in src/core/vdom/patch.js:
    it turns an old vnode tree and a new one into backend calls on the
    element store, and records the module and vnode hooks it invokes in an
    event log.  Component vnodes, hydration and style scoping are not part
    of this model. */
module Patch {
  import opened Common
  import opened VNodes
  import opened NodeOps
  import opened PatchKeys
  import opened Reconcile

  /** The hooks a platform module may provide (`hooks` in patch.js). */
  datatype ModuleHook = MCreate | MActivate | MUpdate | MRemove | MDestroy

  datatype Event =
    | ModuleHookCall(hook: ModuleHook, moduleIndex: nat, elm: Option<Elm>)
    | VNodeHookCall(name: HookName, elm: Option<Elm>)
    | DuplicateKeyWarning(key: Key)

  /** `cbs[h]`: the indices of the modules that define hook `h`, in module order. */
  function HooksOf(modules: seq<set<ModuleHook>>, h: ModuleHook): (r: seq<nat>)
    ensures forall i :: 0 <= i < |r| ==> r[i] < |modules| && h in modules[r[i]]
    ensures forall m :: 0 <= m < |modules| && h in modules[m] ==> m in r
    ensures forall i, j :: 0 <= i < j < |r| ==> r[i] < r[j]
  {
    if modules == [] then []
    else HooksOf(modules[..|modules| - 1], h) + (if h in modules[|modules| - 1] then [|modules| - 1] else [])
  }

  function Warnings(keys: seq<Key>): (r: seq<Event>)
    ensures |r| == |keys|
  {
    seq(|keys|, i requires 0 <= i < |keys| => DuplicateKeyWarning(keys[i]))
  }

  /** The data hook `h` of `v`, if it has one, called on `v`'s element. */
  function UserHook(v: VNode, h: HookName): seq<Event> {
    if v.data.Some? && h in v.data.value.hooks then [VNodeHookCall(h, v.elm)] else []
  }

  predicate HasRemoveHook(v: VNode) {
    v.data.Some? && Remove in v.data.value.hooks
  }

  /** The children of every node of `v` have unique keys, none of them
      named after a property of `Object.prototype`. */
  predicate KeysUniqueDeep(v: VNode)
    decreases v, 1
  {
    match v.children
    case NoChildren => true
    case Kids(cs) => UniqueKeyNames(cs) && NoPrototypeKeyNames(cs) && AllKeysUniqueDeep(cs)
  }

  predicate AllKeysUniqueDeep(cs: seq<VNode>)
    decreases cs, 0
  {
    forall i :: 0 <= i < |cs| ==> KeysUniqueDeep(cs[i])
  }

  /** No node of `v` is an async placeholder. */
  predicate PlaceholderFree(v: VNode)
    decreases v, 1
  {
    !v.isAsyncPlaceholder &&
    match v.children
    case NoChildren => true
    case Kids(cs) => AllPlaceholderFree(cs)
  }

  predicate AllPlaceholderFree(cs: seq<VNode>)
    decreases cs, 0
  {
    forall i :: 0 <= i < |cs| ==> PlaceholderFree(cs[i])
  }

  /** The static-tree shortcut of `patchVnode`. */
  predicate StaticReuse(oldVnode: VNode, vnode: VNode) {
    vnode.isStatic && oldVnode.isStatic && vnode.key == oldVnode.key && (vnode.isCloned || vnode.isOnce)
  }

  /** `patchVnode` reaches its text case and the text differs. */
  predicate RewritesText(oldVnode: VNode, vnode: VNode) {
    oldVnode != vnode && !oldVnode.isAsyncPlaceholder && !StaticReuse(oldVnode, vnode)
    && vnode.text.Some? && oldVnode.text != vnode.text
  }

  function Wrap(cs: seq<VNode>): (r: seq<Option<VNode>>)
    ensures |r| == |cs| && forall i :: 0 <= i < |cs| ==> r[i] == Some(cs[i])
  {
    seq(|cs|, i requires 0 <= i < |cs| => Some(cs[i]))
  }

  function Lower(s: string): string {
    seq(|s|, i requires 0 <= i < |s| => if 'A' <= s[i] <= 'Z' then (s[i] - 'A' + 'a') as char else s[i])
  }

  /** The old tree handed to `patch`: a real backend element (first mount)
      or the vnode of the previous render. */
  datatype OldRoot = RealElement(e: Elm) | Virtual(v: VNode)

  /** `el` has no parent in the store. */
  predicate Detached(store: ElementStore, el: Option<Elm>)
    reads store
  {
    el.None? || el.value !in store.parentOf
  }

  /** The element of `el`, as a set. */
  function ElmSet(el: Option<Elm>): set<Elm> {
    if el.Some? then {el.value} else {}
  }

  /** The elements of the defined vnodes in `vnodes[lo..hi]`. */
  function ElmsIn(vnodes: seq<Option<VNode>>, lo: int, hi: int): set<Elm> {
    set i | lo <= i <= hi && 0 <= i < |vnodes| && vnodes[i].Some? && vnodes[i].value.elm.Some? :: vnodes[i].value.elm.value
  }

  /** The element of a slot of `oldCh`, as a set. */
  function SlotElms(ch: Option<VNode>): set<Elm> {
    if ch.Some? then ElmSet(ch.value.elm) else {}
  }

  lemma ElmsInStep(vnodes: seq<Option<VNode>>, lo: int, i: int)
    requires 0 <= lo <= i < |vnodes|
    ensures ElmsIn(vnodes, lo, i) == ElmsIn(vnodes, lo, i - 1) + SlotElms(vnodes[i])
  {
  }

  lemma ElmsInOne(ch: Option<VNode>)
    ensures ElmsIn([ch], 0, 0) == SlotElms(ch)
  {
    var vs := [ch];
    forall x | x in ElmsIn(vs, 0, 0) ensures x in SlotElms(ch) {
      var i :| 0 <= i <= 0 && 0 <= i < |vs| && vs[i].Some? && vs[i].value.elm.Some? && vs[i].value.elm.value == x;
    }
    if ch.Some? && ch.value.elm.Some? {
      assert vs[0].value.elm.value in ElmsIn(vs, 0, 0);
    }
  }

  lemma DetachedOnlyTrans(a: map<Elm, Elm>, b: map<Elm, Elm>, c: map<Elm, Elm>, g1: set<Elm>, g2: set<Elm>)
    requires DetachedOnly(a, b, g1) && DetachedOnly(b, c, g2)
    ensures DetachedOnly(a, c, g1 + g2)
  {
  }

  /** The elements of the defined, hook-free vnodes of `vnodes[lo..hi)` have no parent. */
  ghost predicate Unlinked(parentOf: map<Elm, Elm>, vnodes: seq<Option<VNode>>, lo: int, hi: int) {
    forall k :: lo <= k < hi && 0 <= k < |vnodes| && vnodes[k].Some? && !HasRemoveHook(vnodes[k].value) && vnodes[k].value.elm.Some?
      ==> vnodes[k].value.elm.value !in parentOf
  }

  /** The old children `removeVnodes` dropped from the window have left
      the document, unless a `remove` hook delays that. */
  lemma RemovedDetached(parentOf: map<Elm, Elm>, oldKids: seq<VNode>, oldS: seq<Option<VNode>>, os: int, oe: int, removed: set<int>)
    requires Unlinked(parentOf, oldS, os, oe + 1) && |oldS| == |oldKids|
    requires forall i :: 0 <= i < |oldS| ==> oldS[i] == None || oldS[i] == Some(oldKids[i])
    requires forall i :: i in removed <==> os <= i <= oe && 0 <= i < |oldS| && oldS[i].Some?
    ensures forall i :: 0 <= i < |oldKids| && i in removed && !HasRemoveHook(oldKids[i]) && oldKids[i].elm.Some? ==>
              oldKids[i].elm.value !in parentOf
  {
    forall i | 0 <= i < |oldKids| && i in removed && !HasRemoveHook(oldKids[i]) && oldKids[i].elm.Some?
      ensures oldKids[i].elm.value !in parentOf
    {
      assert oldS[i] == Some(oldKids[i]);
    }
  }

  lemma UnlinkedStep(before: map<Elm, Elm>, after: map<Elm, Elm>, vnodes: seq<Option<VNode>>, lo: int, i: int)
    requires Unlinked(before, vnodes, lo, i) && 0 <= i < |vnodes|
    requires forall x :: x in after ==> x in before
    requires vnodes[i].Some? && !HasRemoveHook(vnodes[i].value) && vnodes[i].value.elm.Some? ==> vnodes[i].value.elm.value !in after
    ensures Unlinked(after, vnodes, lo, i + 1)
  {
  }

  /** `removeNode(el)`: take `el` out of its parent, if it has one. */
  method RemoveNode(store: ElementStore, el: Option<Elm>)
    requires store.Valid()
    modifies store
    ensures store.Valid() && store.nextId == old(store.nextId) && store.kids.Keys == old(store.kids.Keys)
    ensures Detached(store, el)
    ensures store.parentOf == old(store.parentOf) - ElmSet(el)
  {
    var parent := store.ParentNode(el);
    if parent.Some? {
      store.RemoveChild(parent, el);
    } else {
      assert store.parentOf == store.parentOf - ElmSet(el);
    }
  }

  /** The callback `createRmCb(childElm, listeners)` returns: the element is
      removed on the call that brings `listeners` down to zero. */
  class RemoveCallback {
    const store: ElementStore
    const childElm: Option<Elm>
    var listeners: int

    constructor (store: ElementStore, childElm: Option<Elm>, listeners: int)
      ensures this.store == store && this.childElm == childElm && this.listeners == listeners
    {
      this.store := store;
      this.childElm := childElm;
      this.listeners := listeners;
    }

    method Call()
      requires store.Valid()
      modifies this, store
      ensures store.Valid() && store.nextId == old(store.nextId) && store.kids.Keys == old(store.kids.Keys)
      ensures listeners == old(listeners) - 1
      ensures listeners == 0 ==> Detached(store, childElm) && store.parentOf == old(store.parentOf) - ElmSet(childElm)
      ensures listeners != 0 ==> store.kids == old(store.kids) && store.parentOf == old(store.parentOf)
    {
      listeners := listeners - 1;
      if listeners == 0 {
        RemoveNode(store, childElm);
      }
    }
  }

  /** The loop variables of `updateChildren`: the two windows and the
      cached vnodes at the old window's ends, plus the key table once built. */
  datatype Cursor = Cursor(os: int, oe: int, ns: int, ne: int,
                           oldStart: Option<VNode>, oldEnd: Option<VNode>, table: Option<KeyTable>)

  /** The matching built up by the loop (see `Reconciled`). */
  datatype Ledger = Ledger(partner: map<int, int>, owner: map<int, int>, created: set<int>, clean: bool)

  /** `oldCh[i]`, which is `undefined` outside the array. */
  function At(s: seq<Option<VNode>>, i: int): (r: Option<VNode>)
    ensures 0 <= i < |s| ==> r == s[i]
  {
    if 0 <= i < |s| then s[i] else None
  }

  /** Every entry of the table names an old child carrying that key. */
  ghost predicate TableOf(oldKids: seq<VNode>, m: KeyTable) {
    forall name :: name in m ==>
      0 <= m[name] < |oldKids| && oldKids[m[name]].key.Some? && KeyName(oldKids[m[name]].key.value) == name
  }

  /** The invariant of the loop of `updateChildren`. */
  ghost predicate Loop(oldKids: seq<VNode>, new0: seq<VNode>, oldS: seq<Option<VNode>>, newS: seq<VNode>, c: Cursor, g: Ledger, n0: nat) {
    && Window(oldKids, new0, oldS, newS, c.os, c.oe, c.ns, c.ne, g.partner, g.owner, g.created, g.clean, n0)
    && (c.os <= c.oe ==> c.oldStart == oldS[c.os] && c.oldEnd == oldS[c.oe])
    && (c.table.None? ==> forall i :: 0 <= i < |oldS| ==> oldS[i].Some?)
    && (c.table.Some? ==> TableOf(oldKids, c.table.value))
    && (UniqueKeyNames(new0) ==> g.clean)
  }

  /** Once built, the key table holds the name of every key in the old
      window but `__proto__`. */
  ghost predicate TableCovers(oldKids: seq<VNode>, c: Cursor) {
    c.table.Some? ==>
      forall i :: c.os <= i <= c.oe && 0 <= i < |oldKids| && oldKids[i].key.Some? && KeyName(oldKids[i].key.value) != "__proto__" ==>
        KeyName(oldKids[i].key.value) in c.table.value
  }

  /** A key look-up finds the one old child of that key: old key names are
      unique and no new key name is inherited from `Object.prototype`. */
  ghost predicate LookupsExact(oldKids: seq<VNode>, new0: seq<VNode>) {
    UniqueKeyNames(oldKids) && NoPrototypeKeyNames(new0)
  }

  /** Kept by the loop beside `Loop`: the table covers the old window and,
      when look-ups are exact, no keyed new child was created while an old
      child it could reuse was left over. */
  ghost predicate Tracked(oldKids: seq<VNode>, new0: seq<VNode>, c: Cursor, g: Ledger) {
    TableCovers(oldKids, c) && (LookupsExact(oldKids, new0) ==> Maximal(oldKids, new0, g.owner, g.created))
  }

  /** `g2` extends `g` by reuses only. */
  ghost predicate Reused(g: Ledger, g2: Ledger) {
    g2.created == g.created && forall i :: i in g.owner ==> i in g2.owner
  }

  lemma TrackedReuse(oldKids: seq<VNode>, new0: seq<VNode>, c: Cursor, g: Ledger, c2: Cursor, g2: Ledger)
    requires Tracked(oldKids, new0, c, g) && Reused(g, g2)
    requires c2.table == c.table && c.os <= c2.os && c2.oe <= c.oe
    ensures Tracked(oldKids, new0, c2, g2)
  {
  }

  lemma TrackedCreate(oldKids: seq<VNode>, new0: seq<VNode>, c: Cursor, g: Ledger, c2: Cursor)
    requires Tracked(oldKids, new0, c, g) && 0 <= c.ns < |new0|
    requires c2.table == c.table && c2.os == c.os && c2.oe == c.oe
    requires LookupsExact(oldKids, new0) && new0[c.ns].key.Some? ==>
               forall i :: 0 <= i < |oldKids| && SameVnode(oldKids[i], new0[c.ns]) ==> i in g.owner
    ensures Tracked(oldKids, new0, c2, Ledger(g.partner, g.owner, g.created + {c.ns}, g.clean))
  {
  }

  /** A key the table lacks has no reusable old child: any old child of that
      key lies outside the window, so it has been reused already. */
  lemma MissOwned(oldKids: seq<VNode>, new0: seq<VNode>, oldS: seq<Option<VNode>>, c: Cursor, g: Ledger)
    requires OldSide(oldKids, oldS, c.os, c.oe, g.owner, g.clean) && TableCovers(oldKids, c) && c.table.Some?
    requires NoPrototypeKeyNames(new0) && 0 <= c.ns < |new0| && new0[c.ns].key.Some?
    requires KeyName(new0[c.ns].key.value) !in c.table.value
    ensures forall i :: 0 <= i < |oldKids| && SameVnode(oldKids[i], new0[c.ns]) ==> i in g.owner
  {
  }

  /** Under unique old key names, the old child the table gives is the only
      one of that key; when it is not `sameVnode` no old child is. */
  lemma NoneSame(oldKids: seq<VNode>, v: VNode, k: int)
    requires UniqueKeyNames(oldKids) && 0 <= k < |oldKids| && v.key.Some?
    requires oldKids[k].key.Some? && KeyName(oldKids[k].key.value) == KeyName(v.key.value) && !SameVnode(oldKids[k], v)
    ensures forall i :: 0 <= i < |oldKids| ==> !SameVnode(oldKids[i], v)
  {
  }

  lemma SkipOldStart(oldKids: seq<VNode>, new0: seq<VNode>, oldS: seq<Option<VNode>>, newS: seq<VNode>, c: Cursor, g: Ledger, n0: nat)
    requires Loop(oldKids, new0, oldS, newS, c, g, n0) && c.os <= c.oe && c.oldStart.None?
    ensures Loop(oldKids, new0, oldS, newS, Cursor(c.os + 1, c.oe, c.ns, c.ne, At(oldS, c.os + 1), c.oldEnd, c.table), g, n0)
  {
    SkipStart(oldKids, new0, oldS, newS, c.os, c.oe, c.ns, c.ne, g.partner, g.owner, g.created, g.clean, n0);
  }

  lemma SkipOldEnd(oldKids: seq<VNode>, new0: seq<VNode>, oldS: seq<Option<VNode>>, newS: seq<VNode>, c: Cursor, g: Ledger, n0: nat)
    requires Loop(oldKids, new0, oldS, newS, c, g, n0) && c.os <= c.oe && c.oldEnd.None?
    ensures Loop(oldKids, new0, oldS, newS, Cursor(c.os, c.oe - 1, c.ns, c.ne, c.oldStart, At(oldS, c.oe - 1), c.table), g, n0)
  {
    SkipEnd(oldKids, new0, oldS, newS, c.os, c.oe, c.ns, c.ne, g.partner, g.owner, g.created, g.clean, n0);
  }

  lemma DistinctSlot(a: Option<VNode>, b: Option<VNode>, n: VNode)
    requires a.Some? && b.Some? && !SameVnode(a.value, n) && SameVnode(b.value, n)
    ensures a != b
  {
  }

  /** An end comparison matched old slot `i` with new slot `j`. */
  lemma EndLoop(oldKids: seq<VNode>, new0: seq<VNode>, oldS: seq<Option<VNode>>, newS: seq<VNode>, c: Cursor, g: Ledger, n0: nat,
                oldAtStart: bool, newAtStart: bool, r: VNode, c2: Cursor, g2: Ledger)
    requires Loop(oldKids, new0, oldS, newS, c, g, n0) && c.os <= c.oe && c.ns <= c.ne
    requires var i := if oldAtStart then c.os else c.oe;
             var j := if newAtStart then c.ns else c.ne;
             oldS[i].Some? && SameVnode(oldS[i].value, newS[j])
             && Erase(r) == Erase(newS[j]) && r.elm == oldS[i].value.elm
    requires c2 == Cursor(if oldAtStart then c.os + 1 else c.os, if oldAtStart then c.oe else c.oe - 1,
                          if newAtStart then c.ns + 1 else c.ns, if newAtStart then c.ne else c.ne - 1,
                          if oldAtStart then At(oldS, c.os + 1) else c.oldStart,
                          if oldAtStart then c.oldEnd else At(oldS, c.oe - 1), c.table)
    requires var i := if oldAtStart then c.os else c.oe;
             var j := if newAtStart then c.ns else c.ne;
             g2 == Ledger(g.partner[j := i], g.owner[i := j], g.created, g.clean)
    ensures Loop(oldKids, new0, oldS, newS[if newAtStart then c.ns else c.ne := r], c2, g2, n0)
  {
    EndMatch(oldKids, new0, oldS, newS, c.os, c.oe, c.ns, c.ne, g.partner, g.owner, g.created, g.clean, n0, oldAtStart, newAtStart, r);
  }

  lemma CreateLoop(oldKids: seq<VNode>, new0: seq<VNode>, oldS: seq<Option<VNode>>, newS: seq<VNode>, c: Cursor, g: Ledger, n0: nat, r: VNode)
    requires Loop(oldKids, new0, oldS, newS, c, g, n0) && c.ns <= c.ne
    requires Erase(r) == Erase(newS[c.ns]) && r.elm.Some? && r.elm.value >= n0
    ensures Loop(oldKids, new0, oldS, newS[c.ns := r], Cursor(c.os, c.oe, c.ns + 1, c.ne, c.oldStart, c.oldEnd, c.table),
                 Ledger(g.partner, g.owner, g.created + {c.ns}, g.clean), n0)
  {
    Reconcile.Create(oldKids, new0, oldS, newS, c.os, c.oe, c.ns, c.ne, g.partner, g.owner, g.created, g.clean, n0, r);
  }

  /** Under unique new keys the old child found for the new start vnode has
      not been reused yet. */
  lemma ReuseFresh(oldKids: seq<VNode>, new0: seq<VNode>, oldS: seq<Option<VNode>>, newS: seq<VNode>, c: Cursor, g: Ledger, n0: nat,
                   k: int)
    requires Loop(oldKids, new0, oldS, newS, c, g, n0)
    requires 0 <= k < |oldS| && oldS[k].Some? && c.ns <= c.ne
    requires newS[c.ns].key.Some? ==> k !in g.owner || !UniqueKeyNames(new0)
    requires newS[c.ns].key.None? ==> c.os <= k <= c.oe
    ensures UniqueKeyNames(new0) ==> k !in g.owner
  {
    if UniqueKeyNames(new0) && newS[c.ns].key.None? {
      assert g.clean;
      assert OldSide(oldKids, oldS, c.os, c.oe, g.owner, g.clean);
    }
  }

  lemma ReuseLoop(oldKids: seq<VNode>, new0: seq<VNode>, oldS: seq<Option<VNode>>, newS: seq<VNode>, c: Cursor, g: Ledger, n0: nat,
                  k: int, r: VNode)
    requires Loop(oldKids, new0, oldS, newS, c, g, n0) && c.os <= c.oe && c.ns <= c.ne && c.table.Some?
    requires c.oldStart.Some? && c.oldEnd.Some?
    requires !SameVnode(c.oldStart.value, newS[c.ns]) && !SameVnode(c.oldEnd.value, newS[c.ns])
    requires 0 <= k < |oldS| && oldS[k].Some? && SameVnode(oldS[k].value, newS[c.ns])
    requires newS[c.ns].key.Some? ==> k !in g.owner || !UniqueKeyNames(new0)
    requires newS[c.ns].key.None? ==> c.os <= k <= c.oe
    requires Erase(r) == Erase(newS[c.ns]) && r.elm == oldS[k].value.elm
    ensures Loop(oldKids, new0, oldS[k := None], newS[c.ns := r], Cursor(c.os, c.oe, c.ns + 1, c.ne, c.oldStart, c.oldEnd, c.table),
                 Ledger(g.partner[c.ns := k], g.owner[k := c.ns], g.created, g.clean && k !in g.owner), n0)
  {
    DistinctSlot(c.oldStart, oldS[k], newS[c.ns]);
    DistinctSlot(c.oldEnd, oldS[k], newS[c.ns]);
    assert k != c.os && k != c.oe;
    ReuseFresh(oldKids, new0, oldS, newS, c, g, n0, k);
    ReuseWindow(oldKids, new0, oldS, newS, c, g, n0, k, r);
  }

  lemma ReuseWindow(oldKids: seq<VNode>, new0: seq<VNode>, oldS: seq<Option<VNode>>, newS: seq<VNode>, c: Cursor, g: Ledger, n0: nat,
                    k: int, r: VNode)
    requires Window(oldKids, new0, oldS, newS, c.os, c.oe, c.ns, c.ne, g.partner, g.owner, g.created, g.clean, n0)
    requires c.os <= c.oe && c.ns <= c.ne && 0 <= k < |oldS| && k != c.os && k != c.oe
    requires c.oldStart == oldS[c.os] && c.oldEnd == oldS[c.oe]
    requires c.table.Some? && TableOf(oldKids, c.table.value)
    requires UniqueKeyNames(new0) ==> g.clean && k !in g.owner
    requires oldS[k].Some? && SameVnode(oldS[k].value, newS[c.ns])
    requires Erase(r) == Erase(newS[c.ns]) && r.elm == oldS[k].value.elm
    ensures Loop(oldKids, new0, oldS[k := None], newS[c.ns := r], Cursor(c.os, c.oe, c.ns + 1, c.ne, c.oldStart, c.oldEnd, c.table),
                 Ledger(g.partner[c.ns := k], g.owner[k := c.ns], g.created, g.clean && k !in g.owner), n0)
  {
    KeyMatch(oldKids, new0, oldS, newS, c.os, c.oe, c.ns, c.ne, g.partner, g.owner, g.created, g.clean, n0, k, r);
    LoopClose(oldKids, new0, oldS[k := None], newS[c.ns := r], Cursor(c.os, c.oe, c.ns + 1, c.ne, c.oldStart, c.oldEnd, c.table),
              Ledger(g.partner[c.ns := k], g.owner[k := c.ns], g.created, g.clean && k !in g.owner), n0);
  }

  /** The cursor and table conditions of `Loop` on top of `Window`. */
  lemma LoopClose(oldKids: seq<VNode>, new0: seq<VNode>, oldS: seq<Option<VNode>>, newS: seq<VNode>, c: Cursor, g: Ledger, n0: nat)
    requires Window(oldKids, new0, oldS, newS, c.os, c.oe, c.ns, c.ne, g.partner, g.owner, g.created, g.clean, n0)
    requires c.os <= c.oe ==> c.oldStart == oldS[c.os] && c.oldEnd == oldS[c.oe]
    requires c.table.Some? && TableOf(oldKids, c.table.value)
    requires UniqueKeyNames(new0) ==> g.clean
    ensures Loop(oldKids, new0, oldS, newS, c, g, n0)
  {
  }

  /** The elements of `cs`, which all have one. */
  function ElmsOf(cs: seq<VNode>): (r: seq<Elm>)
    requires forall k :: 0 <= k < |cs| ==> cs[k].elm.Some?
    ensures |r| == |cs| && forall k :: 0 <= k < |cs| ==> r[k] == cs[k].elm.value
  {
    seq(|cs|, k requires 0 <= k < |cs| => cs[k].elm.value)
  }

  /** Every vnode of `cs` has an element created at or after `n` whose
      parent is `p`. */
  ghost predicate CreatedUnder(cs: seq<VNode>, parentOf: map<Elm, Elm>, p: Elm, n: nat) {
    forall k :: 0 <= k < |cs| ==>
      cs[k].elm.Some? && cs[k].elm.value >= n && cs[k].elm.value in parentOf && parentOf[cs[k].elm.value] == p
  }

  /** The state of the loop of `createChildren`: the children `done` so far
      have elements created since `n0`, appended in order to the list of
      `p`, and no other list of `kids0` changed. */
  ghost predicate ChildrenBuilt(done: seq<VNode>, p: Option<Elm>, kids0: map<Elm, seq<Elm>>, n0: nat,
                                kids: map<Elm, seq<Elm>>, parentOf: map<Elm, Elm>, nextId: nat) {
    && KidsKept(kids0, kids, p)
    && (forall k :: 0 <= k < |done| ==> done[k].elm.Some? && n0 <= done[k].elm.value < nextId)
    && (p.Some? && p.value in kids0 ==>
          CreatedUnder(done, parentOf, p.value, n0) && p.value in kids && kids[p.value] == kids0[p.value] + ElmsOf(done))
  }

  /** The first `|done|` children of `list` were rendered into `done`. */
  ghost predicate ErasedPrefix(done: seq<VNode>, list: seq<VNode>) {
    |done| <= |list| && forall k :: 0 <= k < |done| ==> Erase(done[k]) == Erase(list[k])
  }

  /** Appending one more created child keeps the loop state. */
  lemma ChildrenBuiltNext(done: seq<VNode>, c: VNode, p: Option<Elm>, kids0: map<Elm, seq<Elm>>, n0: nat,
                          kidsA: map<Elm, seq<Elm>>, parentA: map<Elm, Elm>, nA: nat,
                          kidsB: map<Elm, seq<Elm>>, parentB: map<Elm, Elm>, nB: nat)
    requires ChildrenBuilt(done, p, kids0, n0, kidsA, parentA, nA) && n0 <= nA
    requires KidsKept(kidsA, kidsB, p) && LinksKept(parentA, parentB, nA)
    requires c.elm.Some? && nA <= c.elm.value < nB
    requires p.Some? && p.value in kidsA ==>
               p.value in kidsB && kidsB[p.value] == kidsA[p.value] + [c.elm.value]
               && c.elm.value in parentB && parentB[c.elm.value] == p.value
    ensures ChildrenBuilt(done + [c], p, kids0, n0, kidsB, parentB, nB)
  {
    var d := done + [c];
    assert forall k :: 0 <= k < |done| ==> d[k] == done[k];
    if p.Some? && p.value in kids0 {
      assert ElmsOf(d) == ElmsOf(done) + [c.elm.value];
    }
  }

  /** `s[lo..hi]` with both ends included; empty when `lo > hi`. */
  function Run(s: seq<VNode>, lo: int, hi: int): (r: seq<VNode>)
    requires 0 <= lo && (lo > hi || hi < |s|)
    ensures |r| == if lo > hi then 0 else hi - lo + 1
    ensures forall k :: 0 <= k < |r| ==> r[k] == s[lo + k]
  {
    if lo > hi then [] else s[lo..hi + 1]
  }

  /** The state of the loop of `addVnodes`: the vnodes `done` so far have
      elements created since `n0`, placed one after the other before `ref`
      in the list of `p` (when `ref` was a child of `p`, or absent), and no
      other list of `kids0` changed. */
  ghost predicate RunPlaced(done: seq<VNode>, p: Option<Elm>, ref: Option<Elm>, kids0: map<Elm, seq<Elm>>, parent0: map<Elm, Elm>,
                            n0: nat, kids: map<Elm, seq<Elm>>, parentOf: map<Elm, Elm>, nextId: nat) {
    && KidsKept(kids0, kids, p)
    && (forall k :: 0 <= k < |done| ==> done[k].elm.Some? && n0 <= done[k].elm.value < nextId)
    && (p.Some? && p.value in kids0 && (ref.None? || (ref.value in parent0 && parent0[ref.value] == p.value)) ==>
          CreatedUnder(done, parentOf, p.value, n0) && p.value in kids
          && (ref.None? || (ref.value < n0 && ref.value in parentOf && parentOf[ref.value] == p.value))
          && kids[p.value] == PlaceAll(kids0[p.value], ElmsOf(done), ref))
  }

  /** `now` is `v0` with the slots `lo` to `hi` replaced by vnodes that
      render the same. */
  ghost predicate Refreshed(v0: seq<VNode>, now: seq<VNode>, lo: int, hi: int) {
    && |now| == |v0|
    && (forall k :: lo <= k <= hi && 0 <= k < |v0| ==> Erase(now[k]) == Erase(v0[k]))
    && (forall k :: 0 <= k < |v0| && !(lo <= k <= hi) ==> now[k] == v0[k])
  }

  /** Placing one more created vnode keeps the loop state. */
  lemma RunPlacedNext(done: seq<VNode>, c: VNode, p: Option<Elm>, ref: Option<Elm>, kids0: map<Elm, seq<Elm>>, parent0: map<Elm, Elm>,
                      n0: nat, kidsA: map<Elm, seq<Elm>>, parentA: map<Elm, Elm>, nA: nat,
                      kidsB: map<Elm, seq<Elm>>, parentB: map<Elm, Elm>, nB: nat)
    requires RunPlaced(done, p, ref, kids0, parent0, n0, kidsA, parentA, nA) && n0 <= nA
    requires KidsKept(kidsA, kidsB, p) && LinksKept(parentA, parentB, nA)
    requires c.elm.Some? && nA <= c.elm.value < nB
    requires p.Some? && p.value in kidsA && (ref.None? || (ref.value in parentA && parentA[ref.value] == p.value)) ==>
               p.value in kidsB && kidsB[p.value] == Place(kidsA[p.value], c.elm.value, ref)
               && c.elm.value in parentB && parentB[c.elm.value] == p.value
    ensures RunPlaced(done + [c], p, ref, kids0, parent0, n0, kidsB, parentB, nB)
  {
    var d := done + [c];
    assert forall k :: 0 <= k < |done| ==> d[k] == done[k];
    if p.Some? && p.value in kids0 && (ref.None? || (ref.value in parent0 && parent0[ref.value] == p.value)) {
      assert ElmsOf(d)[..|done|] == ElmsOf(done);
    }
  }

  class Patcher {
    /** The backend (`nodeOps`). */
    const store: ElementStore
    /** The hooks each platform module defines. */
    const modules: seq<set<ModuleHook>>
    /** Hook calls and warnings, in the order they happen. */
    var events: seq<Event>
    /** `insertedVnodeQueue`: elements whose `insert` hook is still due. */
    var insertQueue: seq<Option<Elm>>

    constructor (store: ElementStore, modules: seq<set<ModuleHook>>)
      ensures this.store == store && this.modules == modules && events == [] && insertQueue == []
    {
      this.store := store;
      this.modules := modules;
      events := [];
      insertQueue := [];
    }

    function Cbs(h: ModuleHook): seq<nat> {
      HooksOf(modules, h)
    }

    /** The calls `for (i = 0; i < cbs[h].length; ++i) cbs[h][i](…)` makes. */
    function ModuleCalls(h: ModuleHook, elm: Option<Elm>): (r: seq<Event>)
      ensures |r| == |Cbs(h)|
    {
      seq(|Cbs(h)|, i requires 0 <= i < |Cbs(h)| => ModuleHookCall(h, Cbs(h)[i], elm))
    }

    /** The hook calls `patchVnode` makes before it turns to the children:
        the vnode's `prepatch` hook, then, for a vnode with a tag, the
        modules' `update` hooks and the vnode's own `update` hook. */
    function PatchHookEvents(vnode: VNode, elm: Option<Elm>): (r: seq<Event>)
      ensures vnode.data.None? ==> r == []
      ensures vnode.data.Some? && Prepatch in vnode.data.value.hooks ==> |r| > 0 && r[0] == VNodeHookCall(Prepatch, elm)
      ensures vnode.data.Some? && vnode.tag.Some? && Update in vnode.data.value.hooks ==>
                |r| > 0 && r[|r| - 1] == VNodeHookCall(Update, elm)
    {
      if vnode.data.None? then []
      else PrepatchEvents(vnode.data.value, elm) + (if vnode.tag.Some? then UpdateHookEvents(vnode.data.value, elm) else [])
    }

    function PrepatchEvents(data: VNodeData, elm: Option<Elm>): seq<Event> {
      if Prepatch in data.hooks then [VNodeHookCall(Prepatch, elm)] else []
    }

    function UpdateHookEvents(data: VNodeData, elm: Option<Elm>): seq<Event> {
      ModuleCalls(MUpdate, elm) + (if Update in data.hooks then [VNodeHookCall(Update, elm)] else [])
    }

    /** The hook calls `invokeDestroyHook(v)` makes: the vnode's own destroy
        hook, the modules' destroy hooks, then the same for every child. */
    function DestroyEvents(v: VNode): seq<Event>
      decreases v, 1
    {
      (if v.data.Some? then UserHook(v, Destroy) + ModuleCalls(MDestroy, v.elm) else [])
      + (match v.children
         case NoChildren => []
         case Kids(cs) => DestroyEventsList(cs))
    }

    function DestroyEventsList(cs: seq<VNode>): seq<Event>
      decreases cs, 0
    {
      if cs == [] then [] else DestroyEventsList(cs[..|cs| - 1]) + DestroyEvents(cs[|cs| - 1])
    }

    lemma DestroyEventsSnoc(cs: seq<VNode>, j: int)
      requires 0 <= j < |cs|
      ensures DestroyEventsList(cs[..j + 1]) == DestroyEventsList(cs[..j]) + DestroyEvents(cs[j])
    {
      assert cs[..j + 1][..j] == cs[..j];
    }

    method InvokeModuleHooks(h: ModuleHook, elm: Option<Elm>)
      modifies this
      ensures events == old(events) + ModuleCalls(h, elm) && insertQueue == old(insertQueue)
    {
      var cbs := Cbs(h);
      ghost var calls := ModuleCalls(h, elm);
      for i := 0 to |cbs|
        invariant events == old(events) + calls[..i] && insertQueue == old(insertQueue)
      {
        assert calls[i] == ModuleHookCall(h, cbs[i], elm);
        assert calls[..i + 1] == calls[..i] + [calls[i]];
        events := events + [ModuleHookCall(h, cbs[i], elm)];
      }
      assert calls[..|cbs|] == calls;
    }

    /** `insert(parent, elm, ref)`: before `ref` when `ref` is a child of
        `parent`, nowhere when it is not, and last when there is no `ref`. */
    method Insert(parent: Option<Elm>, elm: Option<Elm>, ref: Option<Elm>)
      requires store.Valid()
      modifies store
      ensures store.Valid() && store.nextId == old(store.nextId) && store.content == old(store.content)
      ensures parent.None? ==> store.kids == old(store.kids) && store.parentOf == old(store.parentOf)
      ensures ref.Some? && old(store.ParentNode(ref)) != parent ==> store.kids == old(store.kids) && store.parentOf == old(store.parentOf)
      ensures store.kids.Keys == old(store.kids.Keys)
      ensures store.parentOf == old(store.parentOf)
              || (parent.Some? && elm.Some? && store.parentOf == old(store.parentOf)[elm.value := parent.value])
      ensures (parent.Some? && elm.Some? && parent.value in old(store.kids) && elm.value in old(store.kids) && parent.value != elm.value
               && (ref.None? || old(store.ParentNode(ref)) == parent)) ==> store.ParentNode(elm) == parent
      ensures elm.Some? && elm.value !in old(store.parentOf) ==> KidsKept(old(store.kids), store.kids, parent)
      ensures (parent.Some? && elm.Some? && elm.value !in old(store.parentOf) && parent.value in old(store.kids) && elm.value in old(store.kids)
               && parent.value != elm.value && (ref.None? || old(store.ParentNode(ref)) == parent)) ==>
                store.kids[parent.value] == Place(old(store.kids[parent.value]), elm.value, ref)
    {
      if parent.Some? {
        if ref.Some? {
          InsertBeforeRef(parent.value, elm, ref.value);
        } else {
          store.AppendChild(parent, elm);
        }
      }
    }

    /** The branch of `insert` with a reference node. */
    method InsertBeforeRef(parent: Elm, elm: Option<Elm>, ref: Elm)
      requires store.Valid()
      modifies store
      ensures store.Valid() && store.nextId == old(store.nextId) && store.content == old(store.content)
      ensures old(store.ParentNode(Some(ref))) != Some(parent) ==> store.kids == old(store.kids) && store.parentOf == old(store.parentOf)
      ensures store.kids.Keys == old(store.kids.Keys)
      ensures store.parentOf == old(store.parentOf) || (elm.Some? && store.parentOf == old(store.parentOf)[elm.value := parent])
      ensures (elm.Some? && parent in old(store.kids) && elm.value in old(store.kids) && parent != elm.value
               && old(store.ParentNode(Some(ref))) == Some(parent)) ==> store.ParentNode(elm) == Some(parent)
      ensures elm.Some? && elm.value !in old(store.parentOf) ==> KidsKept(old(store.kids), store.kids, Some(parent))
      ensures (elm.Some? && elm.value !in old(store.parentOf) && parent in old(store.kids) && elm.value in old(store.kids)
               && parent != elm.value && old(store.ParentNode(Some(ref))) == Some(parent)) ==>
                store.kids[parent] == Place(old(store.kids[parent]), elm.value, Some(ref))
    {
      if store.ParentNode(Some(ref)) == Some(parent) {
        ChildListed(store.kids, store.parentOf, store.nextId, ref);
        if Some(ref) == elm {
          var next := store.NextSibling(elm);
          assert next.Some? ==> next.value in store.kids[parent];
        }
        store.InsertBefore(Some(parent), elm, Some(ref));
      }
    }

    /** `invokeCreateHooks(vnode, insertedVnodeQueue)` */
    method InvokeCreateHooks(v: VNode)
      requires v.data.Some?
      modifies this
      ensures events == old(events) + ModuleCalls(MCreate, v.elm) + UserHook(v, HookName.Create)
      ensures insertQueue == old(insertQueue) + (if HookName.Insert in v.data.value.hooks then [v.elm] else [])
    {
      InvokeModuleHooks(MCreate, v.elm);
      if HookName.Create in v.data.value.hooks {
        events := events + [VNodeHookCall(HookName.Create, v.elm)];
      }
      if HookName.Insert in v.data.value.hooks {
        insertQueue := insertQueue + [v.elm];
      }
    }

    /** `createElm(vnode, insertedVnodeQueue, parentElm, refElm, nested)`:
        a fresh element for `vnode` and its subtree, inserted under
        `parentElm`.  The result is `vnode` with its elements filled in. */
    method CreateElm(vnode: VNode, parentElm: Option<Elm>, refElm: Option<Elm>, nested: bool) returns (r: VNode)
      requires store.Valid()
      modifies this, store
      ensures store.Valid() && store.nextId > old(store.nextId)
      ensures Erase(r) == Erase(vnode)
      ensures r.elm.Some? && r.elm.value >= old(store.nextId) && r.elm.value in store.kids
      ensures old(store.kids.Keys) <= store.kids.Keys
      ensures LinksKept(old(store.parentOf), store.parentOf, old(store.nextId))
      ensures (parentElm.Some? && parentElm.value in old(store.kids)
               && (refElm.None? || old(store.ParentNode(refElm)) == parentElm)) ==> store.ParentNode(r.elm) == parentElm
      ensures parentElm.None? ==> r.elm.value !in store.parentOf
      ensures KidsKept(old(store.kids), store.kids, parentElm)
      ensures (parentElm.Some? && parentElm.value in old(store.kids)
               && (refElm.None? || old(store.ParentNode(refElm)) == parentElm)) ==>
                store.kids[parentElm.value] == Place(old(store.kids[parentElm.value]), r.elm.value, refElm)
      decreases Height(vnode), 5
    {
      if vnode.tag.Some? {
        r := CreateTagged(vnode, parentElm, refElm);
      } else {
        // a comment or a text node: the store keeps both as leaves holding `text`
        r := CreateLeaf(vnode, parentElm, refElm);
      }
    }

    /** The comment and text branches of `createElm`: a leaf node, inserted. */
    method CreateLeaf(vnode: VNode, parentElm: Option<Elm>, refElm: Option<Elm>) returns (r: VNode)
      requires store.Valid()
      modifies store
      ensures store.Valid() && store.nextId > old(store.nextId)
      ensures r == vnode.(elm := r.elm)
      ensures r.elm.Some? && r.elm.value >= old(store.nextId) && r.elm.value in store.kids
      ensures old(store.kids.Keys) <= store.kids.Keys
      ensures LinksKept(old(store.parentOf), store.parentOf, old(store.nextId))
      ensures (parentElm.Some? && parentElm.value in old(store.kids)
               && (refElm.None? || old(store.ParentNode(refElm)) == parentElm)) ==> store.ParentNode(r.elm) == parentElm
      ensures parentElm.None? ==> r.elm.value !in store.parentOf
      ensures KidsKept(old(store.kids), store.kids, parentElm)
      ensures (parentElm.Some? && parentElm.value in old(store.kids)
               && (refElm.None? || old(store.ParentNode(refElm)) == parentElm)) ==>
                store.kids[parentElm.value] == Place(old(store.kids[parentElm.value]), r.elm.value, refElm)
    {
      var e := store.CreateTextNode(vnode.text.GetOr(""));
      r := vnode.(elm := Some(e));
      Insert(parentElm, r.elm, refElm);
    }

    /** The element branch of `createElm`: the element, its children, the
        create hooks, then the insertion. */
    method CreateTagged(vnode: VNode, parentElm: Option<Elm>, refElm: Option<Elm>) returns (r: VNode)
      requires store.Valid() && vnode.tag.Some?
      modifies this, store
      ensures store.Valid() && store.nextId > old(store.nextId)
      ensures Erase(r) == Erase(vnode)
      ensures r.elm.Some? && r.elm.value >= old(store.nextId) && r.elm.value in store.kids
      ensures old(store.kids.Keys) <= store.kids.Keys
      ensures LinksKept(old(store.parentOf), store.parentOf, old(store.nextId))
      ensures (parentElm.Some? && parentElm.value in old(store.kids)
               && (refElm.None? || old(store.ParentNode(refElm)) == parentElm)) ==> store.ParentNode(r.elm) == parentElm
      ensures parentElm.None? ==> r.elm.value !in store.parentOf
      ensures KidsKept(old(store.kids), store.kids, parentElm)
      ensures (parentElm.Some? && parentElm.value in old(store.kids)
               && (refElm.None? || old(store.ParentNode(refElm)) == parentElm)) ==>
                store.kids[parentElm.value] == Place(old(store.kids[parentElm.value]), r.elm.value, refElm)
      decreases Height(vnode), 4
    {
      ghost var p0, n0 := store.parentOf, store.nextId;
      r := BuildTagged(vnode);
      ghost var p1 := store.parentOf;
      Insert(parentElm, r.elm, refElm);
      if store.parentOf != p1 {
        LinksKeptNew(p1, n0, parentElm.value, n0);
      }
      LinksKeptTrans(p0, p1, store.parentOf, n0, n0, n0);
    }

    /** The element with its children and create hooks, not yet inserted. */
    method BuildTagged(vnode: VNode) returns (r: VNode)
      requires store.Valid() && vnode.tag.Some?
      modifies this, store
      ensures store.Valid() && store.nextId > old(store.nextId)
      ensures Erase(r) == Erase(vnode) && r.elm == Some(old(store.nextId)) && r.elm.value in store.kids
      ensures old(store.kids.Keys) <= store.kids.Keys
      ensures LinksKept(old(store.parentOf), store.parentOf, old(store.nextId) + 1)
      ensures KidsKept(old(store.kids), store.kids, None)
      decreases Height(vnode), 3
    {
      var e := store.CreateElement(vnode.tag.value);
      r := vnode.(elm := Some(e));
      r := CreateChildren(r);
      if r.data.Some? {
        InvokeCreateHooks(r);
      }
    }

    /** `createChildren(vnode, children, insertedVnodeQueue)`: every child is
        created under `v`'s element; a primitive text becomes a text node. */
    method CreateChildren(v: VNode) returns (r: VNode)
      requires store.Valid()
      modifies this, store
      ensures store.Valid() && store.nextId >= old(store.nextId)
      ensures Erase(r) == Erase(v) && r.elm == v.elm
      ensures old(store.kids.Keys) <= store.kids.Keys
      ensures LinksKept(old(store.parentOf), store.parentOf, old(store.nextId))
      ensures KidsKept(old(store.kids), store.kids, v.elm)
      ensures v.elm.Some? && v.elm.value in old(store.kids) && v.children.Kids? ==>
                r.children.Kids? && CreatedUnder(r.children.list, store.parentOf, v.elm.value, old(store.nextId))
                && store.kids[v.elm.value] == old(store.kids[v.elm.value]) + ElmsOf(r.children.list)
      decreases Height(v), 2
    {
      match v.children
      case Kids(list) =>
        var warned := CheckDuplicateKeys(list);
        events := events + Warnings(warned);
        var done := CreateKids(v);
        EraseListPointwise(done, list);
        r := v.(children := Kids(done));
      case NoChildren =>
        if v.text.Some? {
          var t := store.CreateTextNode(v.text.value);
          store.AppendChild(v.elm, Some(t));
        }
        r := v;
    }

    /** The loop of `createChildren` over an array of children. */
    method CreateKids(v: VNode) returns (done: seq<VNode>)
      requires store.Valid() && v.children.Kids?
      modifies this, store
      ensures store.Valid() && store.nextId >= old(store.nextId)
      ensures |done| == |v.children.list| && forall k :: 0 <= k < |done| ==> Erase(done[k]) == Erase(v.children.list[k])
      ensures old(store.kids.Keys) <= store.kids.Keys
      ensures LinksKept(old(store.parentOf), store.parentOf, old(store.nextId))
      ensures KidsKept(old(store.kids), store.kids, v.elm)
      ensures v.elm.Some? && v.elm.value in old(store.kids) ==>
                CreatedUnder(done, store.parentOf, v.elm.value, old(store.nextId))
                && store.kids[v.elm.value] == old(store.kids[v.elm.value]) + ElmsOf(done)
      decreases Height(v), 1
    {
      var list := v.children.list;
      ghost var kids0, parent0, n0 := store.kids, store.parentOf, store.nextId;
      done := [];
      for i := 0 to |list|
        invariant store.Valid() && store.nextId >= n0
        invariant kids0.Keys <= store.kids.Keys && LinksKept(parent0, store.parentOf, n0)
        invariant |done| == i && ErasedPrefix(done, list)
        invariant ChildrenBuilt(done, v.elm, kids0, n0, store.kids, store.parentOf, store.nextId)
      {
        done := CreateKid(v, done, kids0, parent0, n0);
      }
    }

    /** One pass of the loop of `createChildren`: `createElm` for child `i`,
        appended to `v`'s element. */
    method CreateKid(v: VNode, done: seq<VNode>,
                     ghost kids0: map<Elm, seq<Elm>>, ghost parent0: map<Elm, Elm>, ghost n0: nat) returns (done2: seq<VNode>)
      requires store.Valid() && v.children.Kids? && |done| < |v.children.list| && n0 <= store.nextId
      requires kids0.Keys <= store.kids.Keys && LinksKept(parent0, store.parentOf, n0)
      requires ErasedPrefix(done, v.children.list)
      requires ChildrenBuilt(done, v.elm, kids0, n0, store.kids, store.parentOf, store.nextId)
      modifies this, store
      ensures store.Valid() && store.nextId >= old(store.nextId)
      ensures kids0.Keys <= store.kids.Keys && LinksKept(parent0, store.parentOf, n0)
      ensures |done2| == |done| + 1 && ErasedPrefix(done2, v.children.list)
      ensures ChildrenBuilt(done2, v.elm, kids0, n0, store.kids, store.parentOf, store.nextId)
      decreases Height(v), 0
    {
      var i := |done|;
      ChildLower(v, i);
      ghost var kidsA, parentA, nA := store.kids, store.parentOf, store.nextId;
      var c := CreateElm(v.children.list[i], v.elm, None, true);
      ChildrenBuiltNext(done, c, v.elm, kids0, n0, kidsA, parentA, nA, store.kids, store.parentOf, store.nextId);
      LinksKeptTrans(parent0, parentA, store.parentOf, n0, nA, n0);
      done2 := done + [c];
      assert forall k :: 0 <= k < i ==> done2[k] == done[k];
    }

    /** `addVnodes(parentElm, refElm, vnodes, startIdx, endIdx)` */
    method AddVnodes(parentElm: Option<Elm>, refElm: Option<Elm>, vnodes: array<VNode>, startIdx: int, endIdx: int)
      requires store.Valid() && 0 <= startIdx && endIdx < vnodes.Length
      modifies this, store, vnodes
      ensures store.Valid() && store.nextId >= old(store.nextId)
      ensures forall i :: startIdx <= i <= endIdx ==>
                Erase(vnodes[i]) == Erase(old(vnodes[i])) && vnodes[i].elm.Some? && vnodes[i].elm.value >= old(store.nextId)
      ensures forall i :: 0 <= i < vnodes.Length && !(startIdx <= i <= endIdx) ==> vnodes[i] == old(vnodes[i])
      ensures KidsKept(old(store.kids), store.kids, parentElm)
      ensures parentElm.Some? && parentElm.value in old(store.kids) && (refElm.None? || old(store.ParentNode(refElm)) == parentElm) ==>
                CreatedUnder(Run(vnodes[..], startIdx, endIdx), store.parentOf, parentElm.value, old(store.nextId))
                && parentElm.value in store.kids
                && store.kids[parentElm.value] == PlaceAll(old(store.kids[parentElm.value]), ElmsOf(Run(vnodes[..], startIdx, endIdx)), refElm)
    {
      ghost var kids0, parent0, n0 := store.kids, store.parentOf, store.nextId;
      if refElm.Some? && refElm.value in parent0 {
        ChildListed(store.kids, store.parentOf, store.nextId, refElm.value);
      }
      ghost var v0 := vnodes[..];
      AddLoop(parentElm, refElm, vnodes, startIdx, endIdx, kids0, parent0, n0);
      assert Refreshed(v0, vnodes[..], startIdx, endIdx);
      ghost var run := Run(vnodes[..], startIdx, endIdx);
      assert forall i :: startIdx <= i <= endIdx ==> vnodes[i] == run[i - startIdx];
    }

    /** The loop of `addVnodes`. */
    method AddLoop(parentElm: Option<Elm>, refElm: Option<Elm>, vnodes: array<VNode>, startIdx: int, endIdx: int,
                   ghost kids0: map<Elm, seq<Elm>>, ghost parent0: map<Elm, Elm>, ghost n0: nat)
      requires store.Valid() && 0 <= startIdx && endIdx < vnodes.Length && n0 <= store.nextId
      requires kids0.Keys <= store.kids.Keys && LinksKept(parent0, store.parentOf, n0)
      requires RunPlaced([], parentElm, refElm, kids0, parent0, n0, store.kids, store.parentOf, store.nextId)
      modifies this, store, vnodes
      ensures store.Valid() && store.nextId >= n0
      ensures Refreshed(old(vnodes[..]), vnodes[..], startIdx, endIdx)
      ensures RunPlaced(Run(vnodes[..], startIdx, endIdx), parentElm, refElm, kids0, parent0, n0, store.kids, store.parentOf, store.nextId)
    {
      ghost var v0 := vnodes[..];
      if startIdx <= endIdx {
        for i := startIdx to endIdx + 1
          invariant store.Valid() && store.nextId >= n0
          invariant kids0.Keys <= store.kids.Keys && LinksKept(parent0, store.parentOf, n0)
          invariant Refreshed(v0, vnodes[..], startIdx, i - 1)
          invariant RunPlaced(Run(vnodes[..], startIdx, i - 1), parentElm, refElm, kids0, parent0, n0, store.kids, store.parentOf, store.nextId)
        {
          AddVnode(parentElm, refElm, vnodes, startIdx, i, kids0, parent0, n0, v0);
        }
      }
    }

    /** One pass of the loop of `addVnodes`: `createElm` for `vnodes[i]`. */
    method AddVnode(parentElm: Option<Elm>, refElm: Option<Elm>, vnodes: array<VNode>, startIdx: int, i: int,
                    ghost kids0: map<Elm, seq<Elm>>, ghost parent0: map<Elm, Elm>, ghost n0: nat, ghost v0: seq<VNode>)
      requires store.Valid() && 0 <= startIdx <= i < vnodes.Length && n0 <= store.nextId
      requires kids0.Keys <= store.kids.Keys && LinksKept(parent0, store.parentOf, n0)
      requires RunPlaced(Run(vnodes[..], startIdx, i - 1), parentElm, refElm, kids0, parent0, n0, store.kids, store.parentOf, store.nextId)
      requires Refreshed(v0, vnodes[..], startIdx, i - 1)
      modifies this, store, vnodes
      ensures store.Valid() && store.nextId > old(store.nextId)
      ensures kids0.Keys <= store.kids.Keys && LinksKept(parent0, store.parentOf, n0)
      ensures vnodes[..] == old(vnodes[..])[i := vnodes[i]]
      ensures Erase(vnodes[i]) == Erase(old(vnodes[i])) && vnodes[i].elm.Some? && vnodes[i].elm.value >= old(store.nextId)
      ensures RunPlaced(Run(vnodes[..], startIdx, i), parentElm, refElm, kids0, parent0, n0, store.kids, store.parentOf, store.nextId)
      ensures Refreshed(v0, vnodes[..], startIdx, i)
    {
      ghost var kidsA, parentA, nA := store.kids, store.parentOf, store.nextId;
      ghost var done := Run(vnodes[..], startIdx, i - 1);
      var r := CreateElm(vnodes[i], parentElm, refElm, false);
      RunPlacedNext(done, r, parentElm, refElm, kids0, parent0, n0, kidsA, parentA, nA, store.kids, store.parentOf, store.nextId);
      LinksKeptTrans(parent0, parentA, store.parentOf, n0, nA, n0);
      vnodes[i] := r;
      assert Run(vnodes[..], startIdx, i) == done + [r];
    }

    /** `invokeDestroyHook(vnode)` */
    method InvokeDestroyHook(v: VNode)
      modifies this
      ensures events == old(events) + DestroyEvents(v) && insertQueue == old(insertQueue)
      decreases Height(v), 2
    {
      InvokeOwnDestroyHooks(v);
      if v.children.Kids? {
        DestroyChildren(v);
      }
    }

    /** The loop of `invokeDestroyHook` over the children of `v`. */
    method DestroyChildren(v: VNode)
      requires v.children.Kids?
      modifies this
      ensures events == old(events) + DestroyEventsList(v.children.list) && insertQueue == old(insertQueue)
      decreases Height(v), 1
    {
      var list := v.children.list;
      ghost var e0 := events;
      for j := 0 to |list|
        invariant events == e0 + DestroyEventsList(list[..j]) && insertQueue == old(insertQueue)
      {
        ghost var done := DestroyEventsList(list[..j]);
        DestroyEventsSnoc(list, j);
        DestroyChild(v, j);
        Regroup3(e0, done, DestroyEvents(list[j]));
      }
      assert list[..|list|] == list;
    }

    /** The destroy hooks of `v` itself: its own `destroy` hook, then the
        modules'. */
    method InvokeOwnDestroyHooks(v: VNode)
      modifies this
      ensures events == old(events) + (if v.data.Some? then UserHook(v, Destroy) + ModuleCalls(MDestroy, v.elm) else [])
      ensures insertQueue == old(insertQueue)
    {
      if v.data.Some? {
        if Destroy in v.data.value.hooks {
          events := events + [VNodeHookCall(Destroy, v.elm)];
        }
        InvokeModuleHooks(MDestroy, v.elm);
      }
    }

    /** `invokeDestroyHook` on the child of `v` at `j`. */
    method DestroyChild(v: VNode, j: int)
      requires v.children.Kids? && 0 <= j < |v.children.list|
      modifies this
      ensures events == old(events) + DestroyEvents(v.children.list[j]) && insertQueue == old(insertQueue)
      decreases Height(v), 0
    {
      ChildLower(v, j);
      InvokeDestroyHook(v.children.list[j]);
    }

    /** `removeAndInvokeRemoveHook(vnode)`: the element goes once every
        module's remove hook and the vnode's own have called back.  The
        modules' callbacks are taken to be immediate; a vnode's own remove
        hook keeps its callback, so its element stays until that is called. */
    method RemoveAndInvokeRemoveHook(v: VNode)
      requires store.Valid()
      modifies this, store
      ensures store.Valid() && store.nextId == old(store.nextId) && store.kids.Keys == old(store.kids.Keys)
      ensures DetachedOnly(old(store.parentOf), store.parentOf, ElmSet(v.elm))
      ensures !HasRemoveHook(v) ==> Detached(store, v.elm)
    {
      if v.data.Some? {
        var cbs := Cbs(MRemove);
        var listeners := |cbs| + 1;
        var rm := new RemoveCallback(store, v.elm, listeners);
        for i := 0 to |cbs|
          invariant store.Valid() && store.nextId == old(store.nextId) && store.kids.Keys == old(store.kids.Keys)
          invariant rm.listeners == listeners - i && rm.store == store && rm.childElm == v.elm
          invariant store.kids == old(store.kids) && store.parentOf == old(store.parentOf)
        {
          events := events + [ModuleHookCall(MRemove, cbs[i], v.elm)];
          rm.Call();
        }
        if Remove in v.data.value.hooks {
          events := events + [VNodeHookCall(Remove, v.elm)];
        } else {
          rm.Call();
        }
      } else {
        RemoveNode(store, v.elm);
      }
    }

    /** `removeVnodes(vnodes, startIdx, endIdx)`: cleared slots are skipped. */
    method RemoveVnodes(vnodes: seq<Option<VNode>>, startIdx: int, endIdx: int)
      requires store.Valid() && 0 <= startIdx && endIdx < |vnodes|
      modifies this, store
      ensures store.Valid() && store.nextId == old(store.nextId) && store.kids.Keys == old(store.kids.Keys)
      ensures DetachedOnly(old(store.parentOf), store.parentOf, ElmsIn(vnodes, startIdx, endIdx))
      ensures Unlinked(store.parentOf, vnodes, startIdx, endIdx + 1)
    {
      var i := startIdx;
      while i <= endIdx
        invariant startIdx <= i && (i <= endIdx + 1 || i == startIdx)
        invariant store.Valid() && store.nextId == old(store.nextId) && store.kids.Keys == old(store.kids.Keys)
        invariant DetachedOnly(old(store.parentOf), store.parentOf, ElmsIn(vnodes, startIdx, i - 1))
        invariant Unlinked(store.parentOf, vnodes, startIdx, i)
      {
        ghost var before := store.parentOf;
        RemoveOne(vnodes[i]);
        ElmsInStep(vnodes, startIdx, i);
        DetachedOnlyTrans(old(store.parentOf), before, store.parentOf, ElmsIn(vnodes, startIdx, i - 1), SlotElms(vnodes[i]));
        UnlinkedStep(before, store.parentOf, vnodes, startIdx, i);
        i := i + 1;
      }
    }

    /** One step of `removeVnodes`: a tagged vnode goes through its remove
        hooks and then its destroy hooks; a text node is simply removed. */
    method RemoveOne(ch: Option<VNode>)
      requires store.Valid()
      modifies this, store
      ensures store.Valid() && store.nextId == old(store.nextId) && store.kids.Keys == old(store.kids.Keys)
      ensures DetachedOnly(old(store.parentOf), store.parentOf, SlotElms(ch))
      ensures ch.Some? && !HasRemoveHook(ch.value) ==> Detached(store, ch.value.elm)
    {
      if ch.Some? {
        if ch.value.tag.Some? {
          RemoveAndInvokeRemoveHook(ch.value);
          InvokeDestroyHook(ch.value);
        } else {
          RemoveNode(store, ch.value.elm);
        }
      }
    }

    /** `patchVnode(oldVnode, vnode, insertedVnodeQueue, ownerArray, index, removeOnly)`.
        The result is `vnode` with its elements filled in; `thrown` reports
        the TypeErrors the source runs into. */
    method PatchVnode(oldVnode: VNode, vnode: VNode, removeOnly: bool) returns (r: VNode, thrown: bool)
      requires store.Valid()
      modifies this, store
      ensures store.Valid() && store.nextId >= old(store.nextId)
      ensures oldVnode == vnode ==>
                r == vnode && !thrown && events == old(events) && insertQueue == old(insertQueue)
                && store.kids == old(store.kids) && store.parentOf == old(store.parentOf) && store.content == old(store.content)
      ensures r.elm == oldVnode.elm
      ensures Erase(r) == Erase(vnode)
      ensures thrown ==> !(KeysUniqueDeep(vnode) && PlaceholderFree(oldVnode))
      ensures RewritesText(oldVnode, vnode) && oldVnode.elm.Some? && oldVnode.elm.value in old(store.kids) ==>
                oldVnode.elm.value in store.content && store.content[oldVnode.elm.value] == vnode.text.value
                && oldVnode.elm.value in store.kids && store.kids[oldVnode.elm.value] == []
      decreases Height(vnode), 7
    {
      thrown := false;
      if oldVnode == vnode {
        return vnode, false;
      }
      var elm := oldVnode.elm;
      r := vnode.(elm := elm);

      if oldVnode.isAsyncPlaceholder {
        if r.asyncFactory.None? {
          // `vnode.asyncFactory.resolved` on a vnode without a factory
          return r, true;
        }
        if !r.asyncFactory.value.resolved {
          r := r.(isAsyncPlaceholder := true);
        }
        return r, false;
      }

      if StaticReuse(oldVnode, vnode) {
        r := r.(componentInstance := oldVnode.componentInstance);
        return r, false;
      }

      var children, t, _, _ := PatchElement(elm, oldVnode, vnode, removeOnly);
      r := r.(children := children);
      thrown := t;
    }

    /** The part of `patchVnode` that works on the element `elm`: the
        `prepatch` and `update` hooks, the children and text, and the
        `postpatch` hook, which a throw in the children skips. */
    method PatchElement(elm: Option<Elm>, oldVnode: VNode, vnode: VNode, removeOnly: bool)
      returns (children: Children, thrown: bool, ghost hooked: seq<Event>, ghost patched: seq<Event>)
      requires store.Valid()
      modifies this, store
      ensures store.Valid() && store.nextId >= old(store.nextId)
      ensures hooked == old(events) + PatchHookEvents(vnode, elm)
      ensures events == patched + (if !thrown && vnode.data.Some? && Postpatch in vnode.data.value.hooks
                                   then [VNodeHookCall(Postpatch, elm)] else [])
      ensures EraseChildren(children) == EraseChildren(vnode.children)
      ensures thrown ==> !(KeysUniqueDeep(vnode) && AllPlaceholderFree(ChildList(oldVnode)))
      ensures vnode.text.Some? && oldVnode.text != vnode.text && elm.Some? && elm.value in old(store.kids) ==>
                elm.value in store.content && store.content[elm.value] == vnode.text.value
                && elm.value in store.kids && store.kids[elm.value] == []
      decreases Height(vnode), 6
    {
      PatchHooks(elm, vnode);
      hooked := events;
      children, thrown := PatchChildren(elm, oldVnode, vnode, removeOnly);
      patched := events;
      if thrown {
        return;
      }
      var data := vnode.data;
      if data.Some? && Postpatch in data.value.hooks {
        events := events + [VNodeHookCall(Postpatch, elm)];
      }
    }

    lemma Regroup3(a: seq<Event>, b: seq<Event>, c: seq<Event>)
      ensures a + b + c == a + (b + c)
    {
    }

    /** The hooks `patchVnode` calls before it turns to the children. */
    method PatchHooks(elm: Option<Elm>, vnode: VNode)
      modifies this
      ensures events == old(events) + PatchHookEvents(vnode, elm) && insertQueue == old(insertQueue)
    {
      var data := vnode.data;
      if data.None? {
        return;
      }
      ghost var e0 := events;
      if Prepatch in data.value.hooks {
        events := events + [VNodeHookCall(Prepatch, elm)];
      }
      ghost var e1 := events;
      assert e1 == e0 + PrepatchEvents(data.value, elm);
      if vnode.tag.Some? {
        UpdateHooks(elm, data.value);
        assert events == e1 + UpdateHookEvents(data.value, elm);
        Regroup3(e0, PrepatchEvents(data.value, elm), UpdateHookEvents(data.value, elm));
      } else {
        assert PatchHookEvents(vnode, elm) == PrepatchEvents(data.value, elm) + [];
      }
    }

    /** The modules' `update` hooks, then the vnode's own. */
    method UpdateHooks(elm: Option<Elm>, data: VNodeData)
      modifies this
      ensures events == old(events) + UpdateHookEvents(data, elm) && insertQueue == old(insertQueue)
    {
      InvokeModuleHooks(MUpdate, elm);
      if Update in data.hooks {
        events := events + [VNodeHookCall(Update, elm)];
      }
    }

    /** The children-and-text step of `patchVnode`, on the element `elm`
        that `vnode` has taken over from `oldVnode`: both child lists are
        reconciled, or the new children are added, or the old ones removed,
        or the text is written.  The result is `vnode.children` with its
        elements filled in. */
    method PatchChildren(elm: Option<Elm>, oldVnode: VNode, vnode: VNode, removeOnly: bool) returns (children: Children, thrown: bool)
      requires store.Valid()
      modifies this, store
      ensures store.Valid() && store.nextId >= old(store.nextId)
      ensures EraseChildren(children) == EraseChildren(vnode.children)
      ensures thrown ==> !(KeysUniqueDeep(vnode) && AllPlaceholderFree(ChildList(oldVnode)))
      ensures vnode.text.Some? && oldVnode.text != vnode.text && elm.Some? && elm.value in old(store.kids) ==>
                elm.value in store.content && store.content[elm.value] == vnode.text.value
                && elm.value in store.kids && store.kids[elm.value] == []
      ensures vnode.text.None? && !oldVnode.children.Kids? && vnode.children.Kids? && elm.Some? && elm.value in old(store.kids) ==>
                children.Kids? && CreatedUnder(children.list, store.parentOf, elm.value, old(store.nextId)) && elm.value in store.kids
                && store.kids[elm.value] == (if oldVnode.text.Some? then [] else old(store.kids[elm.value])) + ElmsOf(children.list)
      ensures vnode.text.None? && oldVnode.children.Kids? && !vnode.children.Kids? ==>
                forall i :: 0 <= i < |oldVnode.children.list| && !HasRemoveHook(oldVnode.children.list[i]) ==>
                  Detached(store, oldVnode.children.list[i].elm)
      decreases Height(vnode), 5
    {
      children, thrown := vnode.children, false;
      if vnode.text.None? {
        if oldVnode.children.Kids? && vnode.children.Kids? {
          var oldCh, ch := oldVnode.children.list, vnode.children.list;
          if oldCh != ch {
            var arr := new VNode[|ch|](i requires 0 <= i < |ch| => ch[i]);
            assert arr[..] == ch;
            forall k | 0 <= k < |ch| ensures Height(arr[k]) < Height(vnode) {
              ChildLower(vnode, k);
            }
            ghost var pt, ow, cr, rm;
            thrown, pt, ow, cr, rm := UpdateChildren(elm, oldCh, arr, removeOnly, Height(vnode));
            EraseListPointwise(arr[..], ch);
            children := Kids(arr[..]);
          }
        } else if vnode.children.Kids? {
          var ch := vnode.children.list;
          var done := AddAll(elm, oldVnode.text, ch);
          EraseListPointwise(done, ch);
          children := Kids(done);
        } else if oldVnode.children.Kids? {
          RemoveAll(oldVnode.children.list);
        } else if oldVnode.text.Some? {
          store.SetTextContent(elm, "");
        }
      } else if oldVnode.text != vnode.text {
        store.SetTextContent(elm, vnode.text.value);
      }
    }

    /** The branch of `patchVnode` with new children only: the old text is
        cleared, then every new child is created and appended to `elm`. */
    method AddAll(elm: Option<Elm>, oldText: Option<string>, ch: seq<VNode>) returns (done: seq<VNode>)
      requires store.Valid()
      modifies this, store
      ensures store.Valid() && store.nextId >= old(store.nextId)
      ensures |done| == |ch| && forall k :: 0 <= k < |ch| ==> Erase(done[k]) == Erase(ch[k])
      ensures elm.Some? && elm.value in old(store.kids) ==>
                CreatedUnder(done, store.parentOf, elm.value, old(store.nextId)) && elm.value in store.kids
                && store.kids[elm.value] == (if oldText.Some? then [] else old(store.kids[elm.value])) + ElmsOf(done)
    {
      var warned := CheckDuplicateKeys(ch);
      events := events + Warnings(warned);
      if oldText.Some? {
        store.SetTextContent(elm, "");
      }
      var arr := new VNode[|ch|](i requires 0 <= i < |ch| => ch[i]);
      assert arr[..] == ch;
      ghost var kids1, n1 := store.kids, store.nextId;
      AddVnodes(elm, None, arr, 0, |ch| - 1);
      done := arr[..];
      assert Run(arr[..], 0, |ch| - 1) == done;
      if elm.Some? && elm.value in kids1 {
        PlaceAllRun(kids1[elm.value], ElmsOf(done), None);
      }
    }

    /** The branch of `patchVnode` with old children only: all are removed,
        and those without a `remove` hook leave the document at once. */
    method RemoveAll(oldCh: seq<VNode>)
      requires store.Valid()
      modifies this, store
      ensures store.Valid() && store.nextId == old(store.nextId)
      ensures forall i :: 0 <= i < |oldCh| && !HasRemoveHook(oldCh[i]) ==> Detached(store, oldCh[i].elm)
    {
      RemoveVnodes(Wrap(oldCh), 0, |oldCh| - 1);
    }

    /** `updateChildren(parentElm, oldCh, newCh, insertedVnodeQueue, removeOnly)`.
        `newCh` receives the patched or created children.  With unique new
        keys the outcome is `Reconciled`, witnessed by the ghost results.
        Each branch of the source's loop is one of the step methods below. */
    method UpdateChildren(parentElm: Option<Elm>, oldKids: seq<VNode>, newCh: array<VNode>, removeOnly: bool, ghost h: nat)
      returns (thrown: bool, ghost partner: map<int, int>, ghost owner: map<int, int>, ghost created: set<int>, ghost removed: set<int>)
      requires store.Valid()
      requires forall k :: 0 <= k < newCh.Length ==> Height(newCh[k]) < h
      modifies this, store, newCh
      ensures store.Valid() && store.nextId >= old(store.nextId)
      ensures SameRender(old(newCh[..]), newCh[..])
      ensures thrown ==> !(UniqueKeyNames(old(newCh[..])) && NoPrototypeKeyNames(old(newCh[..])) && AllKeysUniqueDeep(old(newCh[..])) && AllPlaceholderFree(oldKids))
      ensures !thrown && UniqueKeyNames(old(newCh[..])) ==>
                Reconciled(oldKids, old(newCh[..]), newCh[..], partner, owner, created, removed, old(store.nextId))
      ensures forall i :: 0 <= i < |oldKids| && i in removed && !HasRemoveHook(oldKids[i]) ==> Detached(store, oldKids[i].elm)
      ensures !thrown && KeyedPermutation(oldKids, old(newCh[..])) ==> created == {} && removed == {}
      decreases h, 4
    {
      ghost var new0 := newCh[..];
      ghost var n0 := store.nextId;
      partner, owner, created, removed := map[], map[], {}, {};
      thrown := false;

      var oldCh := new Option<VNode>[|oldKids|](i requires 0 <= i < |oldKids| => Some(oldKids[i]));
      var c := Cursor(0, |oldKids| - 1, 0, newCh.Length - 1, At(oldCh[..], 0), At(oldCh[..], |oldKids| - 1), None);
      var canMove := !removeOnly;

      var warned := CheckDuplicateKeys(newCh[..]);
      events := events + Warnings(warned);

      assert oldCh[..] == seq(|oldKids|, i requires 0 <= i < |oldKids| => Some(oldKids[i]));
      Start(oldKids, new0, n0);
      ghost var g := Ledger(map[], map[], {}, true);

      while c.os <= c.oe && c.ns <= c.ne
        invariant store.Valid() && store.nextId >= n0
        invariant oldCh.Length == |oldKids| && newCh.Length == |new0|
        invariant Loop(oldKids, new0, oldCh[..], newCh[..], c, g, n0) && Tracked(oldKids, new0, c, g)
        invariant forall k :: 0 <= k < |new0| ==> Height(new0[k]) < h
        decreases c.oe - c.os + c.ne - c.ns
      {
        c, thrown, g := LoopStep(parentElm, oldKids, oldCh, newCh, canMove, c, new0, n0, h, g);
        if thrown {
          return;
        }
      }
      partner, owner, created, removed := g.partner, g.owner, g.created, {};

      if c.os > c.oe {
        var refElm := if c.ne + 1 < newCh.Length then newCh[c.ne + 1].elm else None;
        created := AddRest(parentElm, refElm, oldKids, oldCh, newCh, c, new0, n0, g);
      } else if c.ns > c.ne {
        removed := RemoveRest(oldKids, oldCh, newCh, c, new0, n0, g);
      }
      assert new0 == old(newCh[..]) && n0 == old(store.nextId);
    }

    /** One pass of the `while` loop of `updateChildren`: the first of its
        branches whose test holds. */
    method LoopStep(parentElm: Option<Elm>, oldKids: seq<VNode>, oldCh: array<Option<VNode>>, newCh: array<VNode>, canMove: bool,
                    c: Cursor, ghost new0: seq<VNode>, ghost n0: nat, ghost h: nat, ghost g: Ledger)
      returns (c2: Cursor, thrown: bool, ghost g2: Ledger)
      requires store.Valid() && store.nextId >= n0
      requires oldCh.Length == |oldKids| && newCh.Length == |new0|
      requires Loop(oldKids, new0, oldCh[..], newCh[..], c, g, n0) && c.os <= c.oe && c.ns <= c.ne
      requires Tracked(oldKids, new0, c, g)
      requires forall k :: 0 <= k < |new0| ==> Height(new0[k]) < h
      modifies this, store, oldCh, newCh
      ensures store.Valid() && store.nextId >= n0 && SameRender(new0, newCh[..])
      ensures thrown ==> !(UniqueKeyNames(new0) && NoPrototypeKeyNames(new0) && AllKeysUniqueDeep(new0) && AllPlaceholderFree(oldKids))
      ensures !thrown ==> Loop(oldKids, new0, oldCh[..], newCh[..], c2, g2, n0) && Tracked(oldKids, new0, c2, g2)
                          && c2.oe - c2.os + c2.ne - c2.ns < c.oe - c.os + c.ne - c.ns
      decreases h, 3
    {
      c2, thrown, g2 := c, false, g;
      if c.oldStart.None? {
        // oldStartVnode has been moved left
        SkipOldStart(oldKids, new0, oldCh[..], newCh[..], c, g, n0);
        c2 := Cursor(c.os + 1, c.oe, c.ns, c.ne, At(oldCh[..], c.os + 1), c.oldEnd, c.table);
        TrackedReuse(oldKids, new0, c, g, c2, g);
      } else if c.oldEnd.None? {
        SkipOldEnd(oldKids, new0, oldCh[..], newCh[..], c, g, n0);
        c2 := Cursor(c.os, c.oe - 1, c.ns, c.ne, c.oldStart, At(oldCh[..], c.oe - 1), c.table);
        TrackedReuse(oldKids, new0, c, g, c2, g);
      } else if SameVnode(c.oldStart.value, newCh[c.ns]) {
        c2, thrown, g2 := EndStep(parentElm, oldKids, oldCh, newCh, canMove, c, true, true, new0, n0, h, g);
        if !thrown { TrackedReuse(oldKids, new0, c, g, c2, g2); }
      } else if SameVnode(c.oldEnd.value, newCh[c.ne]) {
        c2, thrown, g2 := EndStep(parentElm, oldKids, oldCh, newCh, canMove, c, false, false, new0, n0, h, g);
        if !thrown { TrackedReuse(oldKids, new0, c, g, c2, g2); }
      } else if SameVnode(c.oldStart.value, newCh[c.ne]) {
        // vnode moved right
        c2, thrown, g2 := EndStep(parentElm, oldKids, oldCh, newCh, canMove, c, true, false, new0, n0, h, g);
        if !thrown { TrackedReuse(oldKids, new0, c, g, c2, g2); }
      } else if SameVnode(c.oldEnd.value, newCh[c.ns]) {
        // vnode moved left
        c2, thrown, g2 := EndStep(parentElm, oldKids, oldCh, newCh, canMove, c, false, true, new0, n0, h, g);
        if !thrown { TrackedReuse(oldKids, new0, c, g, c2, g2); }
      } else {
        c2, thrown, g2 := KeyStep(parentElm, oldKids, oldCh, newCh, canMove, c, new0, n0, h, g);
      }
    }

    /** One of the four end comparisons of the loop: old start or end
        against new start or end.  The old vnode is patched into the new
        slot; a crossed match is moved (after the old end when it moved
        right, before the old start when it moved left). */
    method EndStep(parentElm: Option<Elm>, oldKids: seq<VNode>, oldCh: array<Option<VNode>>, newCh: array<VNode>, canMove: bool,
                   c: Cursor, oldAtStart: bool, newAtStart: bool, ghost new0: seq<VNode>, ghost n0: nat, ghost h: nat, ghost g: Ledger)
      returns (c2: Cursor, thrown: bool, ghost g2: Ledger)
      requires store.Valid() && store.nextId >= n0
      requires oldCh.Length == |oldKids| && newCh.Length == |new0|
      requires Loop(oldKids, new0, oldCh[..], newCh[..], c, g, n0) && c.os <= c.oe && c.ns <= c.ne
      requires forall k :: 0 <= k < |new0| ==> Height(new0[k]) < h
      requires c.oldStart.Some? && c.oldEnd.Some?
      requires SameVnode((if oldAtStart then c.oldStart else c.oldEnd).value, newCh[if newAtStart then c.ns else c.ne])
      modifies this, store, newCh
      ensures store.Valid() && store.nextId >= n0 && SameRender(new0, newCh[..])
      ensures thrown ==> !(AllKeysUniqueDeep(new0) && AllPlaceholderFree(oldKids))
      ensures !thrown ==> Loop(oldKids, new0, oldCh[..], newCh[..], c2, g2, n0)
                          && c2.oe - c2.os + c2.ne - c2.ns < c.oe - c.os + c.ne - c.ns
      ensures !thrown ==> Reused(g, g2) && c2.table == c.table && c.os <= c2.os && c2.oe <= c.oe
      decreases h, 0
    {
      var i := if oldAtStart then c.os else c.oe;
      var j := if newAtStart then c.ns else c.ne;
      var o := if oldAtStart then c.oldStart.value else c.oldEnd.value;
      ghost var oldS, newS := oldCh[..], newCh[..];
      assert oldS[i] == Some(o) && newS[j] == new0[j];
      var r, t := PatchVnode(o, newCh[j], false);
      assert oldCh[..] == oldS && newCh[..] == newS;
      if t {
        return c, true, g;
      }
      c2, g2 := EndAdvance(parentElm, oldKids, oldCh, newCh, canMove, c, oldAtStart, newAtStart, o, r, new0, n0, g);
      thrown := false;
    }

    /** The end match after the patch: the patched vnode takes its slot in
        `newCh`, both windows shrink and a crossed match moves the element. */
    method EndAdvance(parentElm: Option<Elm>, oldKids: seq<VNode>, oldCh: array<Option<VNode>>, newCh: array<VNode>, canMove: bool,
                      c: Cursor, oldAtStart: bool, newAtStart: bool, o: VNode, r: VNode, ghost new0: seq<VNode>, ghost n0: nat, ghost g: Ledger)
      returns (c2: Cursor, ghost g2: Ledger)
      requires store.Valid() && store.nextId >= n0
      requires oldCh.Length == |oldKids| && newCh.Length == |new0|
      requires Loop(oldKids, new0, oldCh[..], newCh[..], c, g, n0) && c.os <= c.oe && c.ns <= c.ne
      requires c.oldStart.Some? && c.oldEnd.Some? && o == (if oldAtStart then c.oldStart else c.oldEnd).value
      requires SameVnode(o, newCh[if newAtStart then c.ns else c.ne])
      requires Erase(r) == Erase(newCh[if newAtStart then c.ns else c.ne]) && r.elm == o.elm
      modifies store, newCh
      ensures store.Valid() && store.nextId >= n0 && SameRender(new0, newCh[..])
      ensures Loop(oldKids, new0, oldCh[..], newCh[..], c2, g2, n0)
              && c2.oe - c2.os + c2.ne - c2.ns < c.oe - c.os + c.ne - c.ns
      ensures Reused(g, g2) && c2.table == c.table && c.os <= c2.os && c2.oe <= c.oe
    {
      var i := if oldAtStart then c.os else c.oe;
      var j := if newAtStart then c.ns else c.ne;
      ghost var oldS, newS := oldCh[..], newCh[..];
      assert oldS[i] == Some(o);
      c2 := Cursor(if oldAtStart then c.os + 1 else c.os, if oldAtStart then c.oe else c.oe - 1,
                   if newAtStart then c.ns + 1 else c.ns, if newAtStart then c.ne else c.ne - 1,
                   if oldAtStart then At(oldCh[..], c.os + 1) else c.oldStart,
                   if oldAtStart then c.oldEnd else At(oldCh[..], c.oe - 1), c.table);
      g2 := Ledger(g.partner[j := i], g.owner[i := j], g.created, g.clean);
      EndLoop(oldKids, new0, oldS, newS, c, g, n0, oldAtStart, newAtStart, r, c2, g2);
      newCh[j] := r;
      assert newCh[..] == newS[j := r];
      SameRenderUpdate(new0, newS, j, r);
      MoveEnd(parentElm, o, c, oldAtStart, newAtStart, canMove);
      assert oldCh[..] == oldS && newCh[..] == newS[j := r];
    }

    /** After an end match across the window (old start with new end, or old
        end with new start) the reused element moves to the other side. */
    method MoveEnd(parentElm: Option<Elm>, o: VNode, c: Cursor, oldAtStart: bool, newAtStart: bool, canMove: bool)
      requires store.Valid()
      requires c.oldStart.Some? && c.oldEnd.Some?
      modifies store
      ensures store.Valid() && store.nextId == old(store.nextId)
    {
      if canMove && oldAtStart && !newAtStart {
        MoveElm(parentElm, o.elm, store.NextSibling(c.oldEnd.value.elm));
      } else if canMove && !oldAtStart && newAtStart {
        MoveElm(parentElm, o.elm, c.oldStart.value.elm);
      }
    }

    /** `nodeOps.insertBefore` for a reused element: only the store changes. */
    method MoveElm(parentElm: Option<Elm>, elm: Option<Elm>, ref: Option<Elm>)
      requires store.Valid()
      modifies store
      ensures store.Valid() && store.nextId == old(store.nextId)
    {
      store.InsertBefore(parentElm, elm, ref);
    }

    /** The last branch of the loop: look the new start vnode up among the
        old ones (by key through the lazily built table, else by search),
        patch and move the one found, or create a fresh element. */
    method KeyStep(parentElm: Option<Elm>, oldKids: seq<VNode>, oldCh: array<Option<VNode>>, newCh: array<VNode>, canMove: bool,
                   c: Cursor, ghost new0: seq<VNode>, ghost n0: nat, ghost h: nat, ghost g: Ledger)
      returns (c2: Cursor, thrown: bool, ghost g2: Ledger)
      requires store.Valid() && store.nextId >= n0
      requires oldCh.Length == |oldKids| && newCh.Length == |new0|
      requires Loop(oldKids, new0, oldCh[..], newCh[..], c, g, n0) && c.os <= c.oe && c.ns <= c.ne
      requires forall k :: 0 <= k < |new0| ==> Height(new0[k]) < h
      requires c.oldStart.Some? && c.oldEnd.Some?
      requires !SameVnode(c.oldStart.value, newCh[c.ns]) && !SameVnode(c.oldEnd.value, newCh[c.ns])
      requires Tracked(oldKids, new0, c, g)
      modifies this, store, oldCh, newCh
      ensures store.Valid() && store.nextId >= n0 && SameRender(new0, newCh[..])
      ensures thrown ==> !(UniqueKeyNames(new0) && NoPrototypeKeyNames(new0) && AllKeysUniqueDeep(new0) && AllPlaceholderFree(oldKids))
      ensures !thrown ==> Loop(oldKids, new0, oldCh[..], newCh[..], c2, g2, n0) && Tracked(oldKids, new0, c2, g2)
                          && c2.oe - c2.os + c2.ne - c2.ns < c.oe - c.os + c.ne - c.ns
      decreases h, 2
    {
      var c1 := WithTable(oldKids, oldCh, newCh, c, new0, n0, g);
      var idxInOld;
      idxInOld, thrown := LookUp(oldKids, oldCh, newCh, c1, new0, n0, g);
      if thrown {
        return c, true, g;
      }
      thrown, g2 := PlaceStep(parentElm, oldKids, oldCh, newCh, canMove, c1, idxInOld, new0, n0, h, g);
      if thrown {
        return c, true, g;
      }
      c2 := Cursor(c1.os, c1.oe, c1.ns + 1, c1.ne, c1.oldStart, c1.oldEnd, c1.table);
    }

    /** Builds the key-to-old-index table on first use. */
    method WithTable(oldKids: seq<VNode>, oldCh: array<Option<VNode>>, newCh: array<VNode>, c: Cursor,
                     ghost new0: seq<VNode>, ghost n0: nat, ghost g: Ledger)
      returns (c1: Cursor)
      requires oldCh.Length == |oldKids| && newCh.Length == |new0|
      requires Loop(oldKids, new0, oldCh[..], newCh[..], c, g, n0) && c.os <= c.oe && c.ns <= c.ne
      requires Tracked(oldKids, new0, c, g)
      ensures c1 == c.(table := c1.table) && c1.table.Some?
      ensures Loop(oldKids, new0, oldCh[..], newCh[..], c1, g, n0) && Tracked(oldKids, new0, c1, g)
    {
      var table := c.table;
      if table.None? {
        // no slot has been cleared yet, so the old slots are `oldKids` itself
        var m := CreateKeyToOldIdx(oldKids, c.os, c.oe);
        table := Some(m);
      }
      c1 := c.(table := table);
    }

    /** Where the new start vnode sits among the old ones: by key through
        the table, or by a linear search for an unkeyed vnode.  A key the
        table lacks but `Object.prototype` has reads an inherited value,
        and the `sameVnode` on the `undefined` slot it selects throws. */
    method LookUp(oldKids: seq<VNode>, oldCh: array<Option<VNode>>, newCh: array<VNode>, c: Cursor,
                  ghost new0: seq<VNode>, ghost n0: nat, ghost g: Ledger)
      returns (idxInOld: Option<int>, thrown: bool)
      requires oldCh.Length == |oldKids| && newCh.Length == |new0|
      requires Loop(oldKids, new0, oldCh[..], newCh[..], c, g, n0) && c.os <= c.oe && c.ns <= c.ne && c.table.Some?
      ensures thrown <==> newCh[c.ns].key.Some? && KeyName(newCh[c.ns].key.value) !in c.table.value
                          && KeyName(newCh[c.ns].key.value) in ObjectPrototypeKeys
      ensures thrown ==> !NoPrototypeKeyNames(new0)
      ensures idxInOld.None? && newCh[c.ns].key.Some? ==> KeyName(newCh[c.ns].key.value) !in c.table.value
      ensures idxInOld.Some? ==> 0 <= idxInOld.value < |oldKids|
      ensures idxInOld.Some? && newCh[c.ns].key.Some? ==>
                oldKids[idxInOld.value].key.Some? && KeyName(oldKids[idxInOld.value].key.value) == KeyName(newCh[c.ns].key.value)
      ensures idxInOld.Some? && newCh[c.ns].key.None? ==>
                c.os <= idxInOld.value <= c.oe && oldCh[idxInOld.value].Some? && SameVnode(newCh[c.ns], oldCh[idxInOld.value].value)
    {
      var newStartVnode := newCh[c.ns];
      assert newStartVnode == new0[c.ns];
      if newStartVnode.key.Some? {
        var name := KeyName(newStartVnode.key.value);
        idxInOld := if name in c.table.value then Some(c.table.value[name]) else None;
        thrown := idxInOld.None? && name in ObjectPrototypeKeys;
      } else {
        idxInOld := FindIdxInOld(newStartVnode, oldCh[..], c.os, c.oe);
        thrown := false;
      }
    }

    /** The new start vnode after the look-up: `idxInOld` is what the key
        table or the search returned. */
    method PlaceStep(parentElm: Option<Elm>, oldKids: seq<VNode>, oldCh: array<Option<VNode>>, newCh: array<VNode>, canMove: bool,
                     c: Cursor, idxInOld: Option<int>, ghost new0: seq<VNode>, ghost n0: nat, ghost h: nat, ghost g: Ledger)
      returns (thrown: bool, ghost g2: Ledger)
      requires store.Valid() && store.nextId >= n0
      requires oldCh.Length == |oldKids| && newCh.Length == |new0|
      requires Loop(oldKids, new0, oldCh[..], newCh[..], c, g, n0) && c.os <= c.oe && c.ns <= c.ne && c.table.Some?
      requires forall k :: 0 <= k < |new0| ==> Height(new0[k]) < h
      requires c.oldStart.Some? && c.oldEnd.Some?
      requires !SameVnode(c.oldStart.value, newCh[c.ns]) && !SameVnode(c.oldEnd.value, newCh[c.ns])
      requires idxInOld.Some? ==> 0 <= idxInOld.value < |oldKids|
      requires idxInOld.Some? && newCh[c.ns].key.Some? ==>
                 oldKids[idxInOld.value].key.Some? && KeyName(oldKids[idxInOld.value].key.value) == KeyName(newCh[c.ns].key.value)
      requires idxInOld.Some? && newCh[c.ns].key.None? ==>
                 c.os <= idxInOld.value <= c.oe && oldCh[idxInOld.value].Some? && SameVnode(newCh[c.ns], oldCh[idxInOld.value].value)
      requires idxInOld.None? && newCh[c.ns].key.Some? ==> KeyName(newCh[c.ns].key.value) !in c.table.value
      requires Tracked(oldKids, new0, c, g)
      modifies this, store, oldCh, newCh
      ensures store.Valid() && store.nextId >= n0 && SameRender(new0, newCh[..])
      ensures thrown ==> !(UniqueKeyNames(new0) && AllKeysUniqueDeep(new0) && AllPlaceholderFree(oldKids))
      ensures !thrown ==> Loop(oldKids, new0, oldCh[..], newCh[..], Cursor(c.os, c.oe, c.ns + 1, c.ne, c.oldStart, c.oldEnd, c.table), g2, n0)
      ensures !thrown ==> Tracked(oldKids, new0, Cursor(c.os, c.oe, c.ns + 1, c.ne, c.oldStart, c.oldEnd, c.table), g2)
      decreases h, 1
    {
      var newStartVnode := newCh[c.ns];
      assert newStartVnode == new0[c.ns];
      ghost var c2 := Cursor(c.os, c.oe, c.ns + 1, c.ne, c.oldStart, c.oldEnd, c.table);
      if idxInOld.None? {
        if LookupsExact(oldKids, new0) && newStartVnode.key.Some? {
          MissOwned(oldKids, new0, oldCh[..], c, g);
        }
        TrackedCreate(oldKids, new0, c, g, c2);
        g2 := CreateStep(parentElm, oldKids, oldCh, newCh, c, new0, n0, g);
        thrown := false;
      } else {
        var k := idxInOld.value;
        var vnodeToMove := oldCh[k];
        ghost var oldS, newS := oldCh[..], newCh[..];
        if vnodeToMove.None? {
          // `sameVnode(undefined, …)` reads a property of undefined
          assert k in g.owner;
          ReusedMeansDuplicate(oldKids, new0, oldS, newS, c.os, c.oe, c.ns, c.ne, g.partner, g.owner, g.created, g.clean, n0, k);
          return true, g;
        }
        if SameVnode(vnodeToMove.value, newStartVnode) {
          assert newStartVnode.key.Some? ==> k !in g.owner || !UniqueKeyNames(new0) by {
            if newStartVnode.key.Some? && k in g.owner {
              ReusedMeansDuplicate(oldKids, new0, oldS, newS, c.os, c.oe, c.ns, c.ne, g.partner, g.owner, g.created, g.clean, n0, k);
            }
          }
          thrown, g2 := ReuseStep(parentElm, oldKids, oldCh, newCh, canMove, c, k, new0, n0, h, g);
          if thrown {
            return true, g;
          }
          TrackedReuse(oldKids, new0, c, g, c2, g2);
        } else {
          // same key but different element: treat as new element
          if LookupsExact(oldKids, new0) && newStartVnode.key.Some? {
            NoneSame(oldKids, newStartVnode, k);
          }
          TrackedCreate(oldKids, new0, c, g, c2);
          g2 := CreateStep(parentElm, oldKids, oldCh, newCh, c, new0, n0, g);
          thrown := false;
        }
      }
    }

    /** `createElm` for the new start vnode, before the old start's element. */
    method CreateStep(parentElm: Option<Elm>, oldKids: seq<VNode>, oldCh: array<Option<VNode>>, newCh: array<VNode>,
                      c: Cursor, ghost new0: seq<VNode>, ghost n0: nat, ghost g: Ledger)
      returns (ghost g2: Ledger)
      requires store.Valid() && store.nextId >= n0
      requires oldCh.Length == |oldKids| && newCh.Length == |new0|
      requires Loop(oldKids, new0, oldCh[..], newCh[..], c, g, n0) && c.os <= c.oe && c.ns <= c.ne
      requires c.oldStart.Some?
      modifies this, store, newCh
      ensures store.Valid() && store.nextId >= n0
      ensures Loop(oldKids, new0, oldCh[..], newCh[..], Cursor(c.os, c.oe, c.ns + 1, c.ne, c.oldStart, c.oldEnd, c.table), g2, n0)
      ensures g2 == Ledger(g.partner, g.owner, g.created + {c.ns}, g.clean)
      ensures newCh[c.ns].elm.Some? && newCh[c.ns].elm.value >= old(store.nextId)
      ensures KidsKept(old(store.kids), store.kids, parentElm)
      ensures parentElm.Some? && parentElm.value in old(store.kids)
              && (c.oldStart.value.elm.None? || old(store.ParentNode(c.oldStart.value.elm)) == parentElm) ==>
                store.ParentNode(newCh[c.ns].elm) == parentElm && parentElm.value in store.kids
                && store.kids[parentElm.value] == Place(old(store.kids[parentElm.value]), newCh[c.ns].elm.value, c.oldStart.value.elm)
    {
      ghost var oldS, newS := oldCh[..], newCh[..];
      var r := CreateElm(newCh[c.ns], parentElm, c.oldStart.value.elm, false);
      assert oldCh[..] == oldS && newCh[..] == newS;
      CreateLoop(oldKids, new0, oldS, newS, c, g, n0, r);
      newCh[c.ns] := r;
      g2 := Ledger(g.partner, g.owner, g.created + {c.ns}, g.clean);
      assert oldCh[..] == oldS && newCh[..] == newS[c.ns := r];
    }

    /** The old vnode in slot `k` is patched into the new start slot, its
        slot is cleared and its element moved before the old start's. */
    method ReuseStep(parentElm: Option<Elm>, oldKids: seq<VNode>, oldCh: array<Option<VNode>>, newCh: array<VNode>, canMove: bool,
                     c: Cursor, k: int, ghost new0: seq<VNode>, ghost n0: nat, ghost h: nat, ghost g: Ledger)
      returns (thrown: bool, ghost g2: Ledger)
      requires store.Valid() && store.nextId >= n0
      requires oldCh.Length == |oldKids| && newCh.Length == |new0|
      requires Loop(oldKids, new0, oldCh[..], newCh[..], c, g, n0) && c.os <= c.oe && c.ns <= c.ne
      requires forall j :: 0 <= j < |new0| ==> Height(new0[j]) < h
      requires c.oldStart.Some? && c.oldEnd.Some? && c.table.Some?
      requires !SameVnode(c.oldStart.value, newCh[c.ns]) && !SameVnode(c.oldEnd.value, newCh[c.ns])
      requires 0 <= k < oldCh.Length && oldCh[k].Some? && SameVnode(oldCh[k].value, newCh[c.ns])
      requires newCh[c.ns].key.Some? ==> k !in g.owner || !UniqueKeyNames(new0)
      requires newCh[c.ns].key.None? ==> c.os <= k <= c.oe
      modifies this, store, oldCh, newCh
      ensures store.Valid() && store.nextId >= n0 && SameRender(new0, newCh[..])
      ensures thrown ==> !(AllKeysUniqueDeep(new0) && AllPlaceholderFree(oldKids))
      ensures !thrown ==> Loop(oldKids, new0, oldCh[..], newCh[..], Cursor(c.os, c.oe, c.ns + 1, c.ne, c.oldStart, c.oldEnd, c.table), g2, n0)
      ensures !thrown ==> Reused(g, g2)
      decreases h, 0
    {
      ghost var oldS, newS := oldCh[..], newCh[..];
      var vnodeToMove := oldCh[k].value;
      assert oldS[k] == Some(oldKids[k]) && newS[c.ns] == new0[c.ns];
      var r, t := PatchVnode(vnodeToMove, newCh[c.ns], false);
      assert oldCh[..] == oldS && newCh[..] == newS;
      if t {
        return true, g;
      }
      ReuseLoop(oldKids, new0, oldS, newS, c, g, n0, k, r);
      g2 := Ledger(g.partner[c.ns := k], g.owner[k := c.ns], g.created, g.clean && k !in g.owner);
      oldCh[k] := None;
      newCh[c.ns] := r;
      assert oldCh[..] == oldS[k := None] && newCh[..] == newS[c.ns := r];
      SameRenderUpdate(new0, newS, c.ns, r);
      if canMove {
        MoveElm(parentElm, vnodeToMove.elm, c.oldStart.value.elm);
      }
      thrown := false;
    }

    /** `emptyNodeAt(elm)`: a vnode standing for a real element, tagged with
        the element's lower-cased tag name. */
    function EmptyNodeAt(e: Elm): (r: VNode)
      reads store
      ensures r.elm == Some(e) && r.tag.Some? && r.data == Some(emptyData) && !HasRemoveHook(r)
    {
      MkVNode(Some(Lower(store.TagName(Some(e)))), Some(emptyData), Kids([]), None).(elm := Some(e))
    }

    /** The `insert` hook calls `invokeInsertHook` makes for `queue`. */
    function InsertEvents(queue: seq<Option<Elm>>): (r: seq<Event>)
      ensures |r| == |queue| && forall i :: 0 <= i < |queue| ==> r[i] == VNodeHookCall(HookName.Insert, queue[i])
    {
      seq(|queue|, i requires 0 <= i < |queue| => VNodeHookCall(HookName.Insert, queue[i]))
    }

    /** `invokeInsertHook(vnode, queue, initial)` for a vnode without a
        placeholder parent: every queued `insert` hook runs, in order. */
    method InvokeInsertHook()
      modifies this
      ensures events == old(events) + InsertEvents(old(insertQueue)) && insertQueue == old(insertQueue)
    {
      for i := 0 to |insertQueue|
        invariant insertQueue == old(insertQueue)
        invariant events == old(events) + InsertEvents(insertQueue[..i])
      {
        assert InsertEvents(insertQueue[..i + 1]) == InsertEvents(insertQueue[..i]) + [VNodeHookCall(HookName.Insert, insertQueue[i])];
        events := events + [VNodeHookCall(HookName.Insert, insertQueue[i])];
      }
      assert insertQueue[..|insertQueue|] == insertQueue;
    }

    /** The element the old root stands for. */
    function OldElm(o: OldRoot): Option<Elm> {
      match o
      case RealElement(e) => Some(e)
      case Virtual(v) => v.elm
    }

    /** The function `createPatchFunction` returns: `patch(oldVnode, vnode,
        hydrating, removeOnly)` without hydration.  It yields the root
        element and the new vnode with its elements filled in. */
    method Patch(oldVnode: Option<OldRoot>, vnode: Option<VNode>, removeOnly: bool)
      returns (result: Option<Elm>, patched: Option<VNode>, thrown: bool)
      requires store.Valid()
      modifies this, store
      ensures store.Valid() && store.nextId >= old(store.nextId)
      ensures vnode.None? ==>
                result.None? && patched.None? && !thrown
                && store.kids == old(store.kids) && store.parentOf == old(store.parentOf)
                && events == old(events) + (if oldVnode.Some? && oldVnode.value.Virtual? then DestroyEvents(oldVnode.value.v) else [])
      ensures vnode.Some? ==> patched.Some? && Erase(patched.value) == Erase(vnode.value) && result == patched.value.elm
      ensures vnode.Some? && oldVnode.None? ==>
                result.Some? && result.value >= old(store.nextId) && result.value !in store.parentOf
      ensures vnode.Some? && oldVnode.Some? && oldVnode.value.Virtual? && SameVnode(oldVnode.value.v, vnode.value) ==>
                result == oldVnode.value.v.elm
      ensures vnode.Some? && oldVnode.Some? && !(oldVnode.value.Virtual? && SameVnode(oldVnode.value.v, vnode.value)) ==>
                && result.Some? && result.value >= old(store.nextId) && !thrown
                && var parent := old(store.ParentNode(OldElm(oldVnode.value)));
                   (parent.Some? ==> store.ParentNode(result) == parent)
                   && (parent.Some? && !(oldVnode.value.Virtual? && HasRemoveHook(oldVnode.value.v)) ==> Detached(store, OldElm(oldVnode.value)))
    {
      thrown := false;
      if vnode.None? {
        if oldVnode.Some? && oldVnode.value.Virtual? {
          InvokeDestroyHook(oldVnode.value.v);
        }
        return None, None, false;
      }
      insertQueue := [];
      var v := vnode.value;
      var r: VNode;
      if oldVnode.None? {
        // empty mount: a new root element with no parent
        r := CreateElm(v, None, None, false);
      } else if oldVnode.value.Virtual? && SameVnode(oldVnode.value.v, v) {
        r, thrown := PatchVnode(oldVnode.value.v, v, removeOnly);
      } else {
        r := Replace(oldVnode.value, v);
      }
      InvokeInsertHook();
      return r.elm, Some(r), thrown;
    }

    /** The replacing branch of `patch`: a new element for `vnode` goes next
        to the old one, and the old one is removed (when it has a parent) or
        only destroyed. */
    method Replace(oldRoot: OldRoot, vnode: VNode) returns (r: VNode)
      requires store.Valid()
      modifies this, store
      ensures store.Valid() && store.nextId > old(store.nextId)
      ensures Erase(r) == Erase(vnode) && r.elm.Some? && r.elm.value >= old(store.nextId)
      ensures var parent := old(store.ParentNode(OldElm(oldRoot)));
              (parent.Some? ==> store.ParentNode(r.elm) == parent)
              && (parent.Some? && !(oldRoot.Virtual? && HasRemoveHook(oldRoot.v)) ==> Detached(store, OldElm(oldRoot)))
    {
      var old0 := if oldRoot.RealElement? then EmptyNodeAt(oldRoot.e) else oldRoot.v;
      assert old0.elm == OldElm(oldRoot);
      var oldElm := old0.elm;
      var parentElm := store.ParentNode(oldElm);
      var ref := store.NextSibling(oldElm);
      ghost var n0 := store.nextId;
      SiblingFacts(store, oldElm);
      r := CreateElm(vnode, parentElm, ref, false);
      ghost var p1 := store.parentOf;
      assert parentElm.Some? ==> r.elm.value in p1 && p1[r.elm.value] == parentElm.value && r.elm.value !in ElmSet(oldElm);
      assert !HasRemoveHook(old0) <==> !(oldRoot.Virtual? && HasRemoveHook(oldRoot.v));
      RemoveOldRoot(old0, parentElm);
    }

    /** The end of the replacing branch of `patch`: the old root leaves its
        parent (`removeVnodes`), or, when it had none, only its `destroy`
        hooks run. */
    method RemoveOldRoot(old0: VNode, parentElm: Option<Elm>)
      requires store.Valid()
      modifies this, store
      ensures store.Valid() && store.nextId == old(store.nextId)
      ensures parentElm.Some? ==> DetachedOnly(old(store.parentOf), store.parentOf, ElmSet(old0.elm))
      ensures parentElm.Some? && !HasRemoveHook(old0) ==> Detached(store, old0.elm)
      ensures parentElm.None? ==> store.parentOf == old(store.parentOf)
    {
      if parentElm.Some? {
        ElmsInOne(Some(old0));
        RemoveVnodes([Some(old0)], 0, 0);
      } else if old0.tag.Some? {
        InvokeDestroyHook(old0);
      }
    }

    /** After the loop, when the old window ran out: `addVnodes` for the rest
        of the new window, before the element that follows it. */
    method AddRest(parentElm: Option<Elm>, refElm: Option<Elm>, oldKids: seq<VNode>, oldCh: array<Option<VNode>>, newCh: array<VNode>,
                   c: Cursor, ghost new0: seq<VNode>, ghost n0: nat, ghost g: Ledger)
      returns (ghost created: set<int>)
      requires store.Valid() && store.nextId >= n0
      requires oldCh.Length == |oldKids| && newCh.Length == |new0|
      requires Loop(oldKids, new0, oldCh[..], newCh[..], c, g, n0) && c.os > c.oe
      requires Tracked(oldKids, new0, c, g)
      modifies this, store, newCh
      ensures store.Valid() && store.nextId >= n0 && SameRender(new0, newCh[..])
      ensures UniqueKeyNames(new0) ==> Reconciled(oldKids, new0, newCh[..], g.partner, g.owner, created, {}, n0)
      ensures KeyedPermutation(oldKids, new0) ==> created == {}
      ensures KidsKept(old(store.kids), store.kids, parentElm)
      ensures c.ne < newCh.Length && parentElm.Some? && parentElm.value in old(store.kids)
              && (refElm.None? || old(store.ParentNode(refElm)) == parentElm) ==>
                CreatedUnder(Run(newCh[..], c.ns, c.ne), store.parentOf, parentElm.value, old(store.nextId))
                && parentElm.value in store.kids
                && store.kids[parentElm.value] == PlaceAll(old(store.kids[parentElm.value]), ElmsOf(Run(newCh[..], c.ns, c.ne)), refElm)
    {
      ghost var before := newCh[..];
      AddVnodes(parentElm, refElm, newCh, c.ns, c.ne);
      ghost var after := newCh[..];
      assert forall j :: 0 <= j < |before| && (j < c.ns || j > c.ne) ==> after[j] == before[j];
      assert forall j :: c.ns <= j <= c.ne ==>
               Erase(after[j]) == Erase(before[j]) && after[j].elm.Some? && after[j].elm.value >= n0;
      SameRenderFill(new0, before, after, c.ns, c.ne);
      if UniqueKeyNames(new0) {
        FinishAdd(oldKids, new0, oldCh[..], before, c.os, c.oe, c.ns, c.ne, g.partner, g.owner, g.created, g.clean, n0, after);
      }
      created := g.created + Span(c.ns, c.ne);
      if KeyedPermutation(oldKids, new0) {
        MaximalExhausted(oldKids, new0, oldCh[..], c.os, c.oe, g.owner, g.created, g.clean, Span(c.ns, c.ne));
        PermutationReusesAll(oldKids, new0, newCh[..], g.partner, g.owner, created, {}, n0);
      }
    }

    /** After the loop, when the new window ran out: `removeVnodes` for what
        is left of the old window. */
    method RemoveRest(oldKids: seq<VNode>, oldCh: array<Option<VNode>>, newCh: array<VNode>,
                      c: Cursor, ghost new0: seq<VNode>, ghost n0: nat, ghost g: Ledger)
      returns (ghost removed: set<int>)
      requires store.Valid() && store.nextId >= n0
      requires oldCh.Length == |oldKids| && newCh.Length == |new0|
      requires Loop(oldKids, new0, oldCh[..], newCh[..], c, g, n0) && c.ns > c.ne
      requires Tracked(oldKids, new0, c, g)
      modifies this, store
      ensures store.Valid() && store.nextId >= n0 && SameRender(new0, newCh[..])
      ensures UniqueKeyNames(new0) ==> Reconciled(oldKids, new0, newCh[..], g.partner, g.owner, g.created, removed, n0)
      ensures KeyedPermutation(oldKids, new0) ==> g.created == {} && removed == {}
      ensures forall i :: 0 <= i < |oldKids| && i in removed && !HasRemoveHook(oldKids[i]) ==> Detached(store, oldKids[i].elm)
    {
      ghost var oldS, newS := oldCh[..], newCh[..];
      assert OldSide(oldKids, oldS, c.os, c.oe, g.owner, g.clean);
      removed := set i | c.os <= i <= c.oe && oldCh[i].Some?;
      assert forall i :: i in removed <==> c.os <= i <= c.oe && 0 <= i < |oldS| && oldS[i].Some?;
      if UniqueKeyNames(new0) {
        FinishRemove(oldKids, new0, oldS, newS, c.os, c.oe, c.ns, c.ne, g.partner, g.owner, g.created, g.clean, n0, removed);
        if KeyedPermutation(oldKids, new0) {
          PermutationReusesAll(oldKids, new0, newS, g.partner, g.owner, g.created, removed, n0);
        }
      }
      RemoveVnodes(oldCh[..], c.os, c.oe);
      RemovedDetached(store.parentOf, oldKids, oldS, c.os, c.oe, removed);
      assert newCh[..] == newS;
    }
  }
}
