/** The directives module of src/core/vdom/modules/directives.js: on every
    create, update and destroy of a vnode it diffs the old and the new
    directive bindings and calls the matching hooks (`bind`, `update`,
    `inserted`, `componentUpdated`, `unbind`) of each directive definition.
    Hook functions are user code: a call is recorded, not run. */
module Directives {
  import opened Common
  import opened VNodes

  /** A recorded call `def[hook](vnode.elm, dir, vnode, oldVnode, isDestroy)`. */
  datatype DirCall = DirCall(hook: DirHook, dir: Directive, vnode: VNode, oldVnode: VNode, isDestroy: bool)

  /** `Object.keys(modifiers).join('.')` */
  function Join(mods: seq<string>): string {
    if mods == [] then ""
    else if |mods| == 1 then mods[0]
    else mods[0] + "." + Join(mods[1..])
  }

  /** `getRawDirName`: the raw name when it is a non-empty string, else the
      name, a dot and the modifier names. */
  function RawName(d: Directive): (r: string)
    ensures d.rawName.Some? && d.rawName.value != "" ==> r == d.rawName.value
    ensures !(d.rawName.Some? && d.rawName.value != "") ==>
      |r| > |d.name| && r[..|d.name| + 1] == d.name + "."
  {
    if d.rawName.Some? && d.rawName.value != "" then d.rawName.value
    else
      var r := d.name + "." + Join(d.modifiers.GetOr([]));
      assert r[..|d.name| + 1] == d.name + ".";
      r
  }

  /** A binding as `normalizeDirectives` leaves it: missing modifiers become
      the shared empty set, and `def` is looked up by name in the vm's
      registered directives. */
  function Normalize(d: Directive, assets: map<string, DirectiveDef>): (r: Directive)
    ensures r.modifiers.Some? && RawName(r) == RawName(d)
    ensures r.def == (if d.name in assets then Some(assets[d.name]) else None)
    ensures r.(modifiers := d.modifiers, def := d.def) == d
  {
    d.(modifiers := Some(d.modifiers.GetOr([])),
       def := if d.name in assets then Some(assets[d.name]) else None)
  }

  /** The object `normalizeDirectives` returns: keys in insertion order and
      the binding under each. */
  datatype DirTable = DirTable(names: seq<string>, entries: map<string, Directive>)

  /** Reference definition of `normalizeDirectives` on the first bindings `ds`. */
  function Normalized(ds: seq<Directive>, assets: map<string, DirectiveDef>): DirTable {
    if ds == [] then DirTable([], map[])
    else
      var t := Normalized(ds[..|ds| - 1], assets);
      var d := Normalize(ds[|ds| - 1], assets);
      var k := RawName(d);
      DirTable(if k in t.entries then t.names else t.names + [k], t.entries[k := d])
  }

  /** The keys are listed once each, and are exactly the entries. */
  predicate TableWF(t: DirTable) {
    Distinct(t.names) && (forall k | k in t.names :: k in t.entries) && (forall k | k in t.entries :: k in t.names)
  }

  /** `normalizeDirectives(dirs, vm)` */
  method NormalizeDirectives(dirs: Option<seq<Directive>>, assets: map<string, DirectiveDef>) returns (res: DirTable)
    ensures res == Normalized(dirs.GetOr([]), assets)
  {
    res := DirTable([], map[]);
    if dirs.None? {
      return;
    }
    var ds := dirs.value;
    for i := 0 to |ds|
      invariant res == Normalized(ds[..i], assets)
    {
      var dir := ds[i];
      if dir.modifiers.None? {
        dir := dir.(modifiers := Some([]));
      }
      var key := RawName(dir);
      dir := dir.(def := if dir.name in assets then Some(assets[dir.name]) else None);
      assert ds[..i + 1][..i] == ds[..i];
      if key !in res.entries {
        res := res.(names := res.names + [key]);
      }
      res := res.(entries := res.entries[key := dir]);
    }
    assert ds[..|ds|] == ds;
  }

  lemma {:induction false} NormalizedWF(ds: seq<Directive>, assets: map<string, DirectiveDef>)
    ensures TableWF(Normalized(ds, assets))
    decreases |ds|
  {
    if ds != [] {
      var t := Normalized(ds[..|ds| - 1], assets);
      NormalizedWF(ds[..|ds| - 1], assets);
      var k := RawName(Normalize(ds[|ds| - 1], assets));
      if k !in t.entries {
        forall i, j | 0 <= i < j < |t.names| + 1 ensures (t.names + [k])[i] != (t.names + [k])[j] {
          if j == |t.names| { assert (t.names + [k])[i] == t.names[i]; }
        }
      }
    }
  }

  /** A key is in the table iff some binding has that raw name. */
  lemma {:induction false} NormalizedDomain(ds: seq<Directive>, assets: map<string, DirectiveDef>, k: string)
    ensures k in Normalized(ds, assets).entries <==> exists i | 0 <= i < |ds| :: RawName(ds[i]) == k
    decreases |ds|
  {
    if ds != [] {
      var init, last := ds[..|ds| - 1], ds[|ds| - 1];
      NormalizedDomain(init, assets, k);
      assert k in Normalized(ds, assets).entries <==> k in Normalized(init, assets).entries || k == RawName(last);
      if k in Normalized(init, assets).entries {
        var i :| 0 <= i < |init| && RawName(init[i]) == k;
        assert ds[i] == init[i];
      } else if k != RawName(last) {
        UnnamedExtend(init, last, k);
        assert init + [last] == ds;
      }
    }
  }

  /** No directive of `init + [last]` has raw name `k` when none of `init`
      has it and `last` does not. */
  lemma UnnamedExtend(init: seq<Directive>, last: Directive, k: string)
    requires !(exists i | 0 <= i < |init| :: RawName(init[i]) == k) && RawName(last) != k
    ensures !(exists i | 0 <= i < |init + [last]| :: RawName((init + [last])[i]) == k)
  {
    forall i | 0 <= i < |init + [last]| ensures RawName((init + [last])[i]) != k {
      if i < |init| { assert (init + [last])[i] == init[i]; }
    }
  }

  /** Later duplicates overwrite: the entry under a raw name is the last
      binding with that name, normalized. */
  lemma {:induction false} NormalizedLastWins(ds: seq<Directive>, assets: map<string, DirectiveDef>, i: int)
    requires 0 <= i < |ds|
    requires forall j | i < j < |ds| :: RawName(ds[j]) != RawName(ds[i])
    ensures var t := Normalized(ds, assets);
      RawName(ds[i]) in t.entries && t.entries[RawName(ds[i])] == Normalize(ds[i], assets)
    decreases |ds|
  {
    if i < |ds| - 1 {
      var init := ds[..|ds| - 1];
      assert init[i] == ds[i];
      NormalizedLastWins(init, assets, i);
    }
  }

  /** Every entry has its modifiers set. */
  lemma {:induction false} NormalizedModifiers(ds: seq<Directive>, assets: map<string, DirectiveDef>, k: string)
    requires k in Normalized(ds, assets).entries
    ensures Normalized(ds, assets).entries[k].modifiers.Some?
    decreases |ds|
  {
    var init := ds[..|ds| - 1];
    if k != RawName(Normalize(ds[|ds| - 1], assets)) {
      NormalizedModifiers(init, assets, k);
    }
  }

  /** `callHook(dir, hook, vnode, oldVnode, isDestroy)`: a call is made only
      when the definition has the hook. */
  function HookCall(d: Directive, hook: DirHook, vnode: VNode, oldVnode: VNode, isDestroy: bool): (r: seq<DirCall>)
    ensures r == [] || r == [DirCall(hook, d, vnode, oldVnode, isDestroy)]
    ensures r != [] <==> HasHook(d, hook)
  {
    if HasHook(d, hook) then [DirCall(hook, d, vnode, oldVnode, isDestroy)] else []
  }

  predicate HasHook(d: Directive, hook: DirHook) {
    d.def.Some? && hook in d.def.value.hooks
  }

  /** The new binding of an existing directive, after `dir.oldValue =
      oldDir.value` and `dir.oldArg = oldDir.arg`. */
  function Paired(d: Directive, oldDir: Directive): Directive {
    d.(oldValue := Some(oldDir.value), oldArg := oldDir.arg)
  }

  /** What the loop over the new directives has produced: the calls made and
      the bindings queued for `inserted` and `componentUpdated`. */
  datatype Pass = Pass(calls: seq<DirCall>, withInsert: seq<Directive>, withPostpatch: seq<Directive>)

  /** Reference definition of the loop over the new keys `names`. */
  function NewPass(names: seq<string>, newDirs: DirTable, oldDirs: DirTable, vnode: VNode, oldVnode: VNode): Pass
    requires forall k | k in names :: k in newDirs.entries
  {
    if names == [] then Pass([], [], [])
    else
      var p := NewPass(names[..|names| - 1], newDirs, oldDirs, vnode, oldVnode);
      var k := names[|names| - 1];
      var dir := newDirs.entries[k];
      if k !in oldDirs.entries then
        Pass(p.calls + HookCall(dir, Bind, vnode, oldVnode, false),
             p.withInsert + (if HasHook(dir, DirInserted) then [dir] else []),
             p.withPostpatch)
      else
        var d := Paired(dir, oldDirs.entries[k]);
        Pass(p.calls + HookCall(d, DirUpdate, vnode, oldVnode, false),
             p.withInsert,
             p.withPostpatch + (if HasHook(d, ComponentUpdated) then [d] else []))
  }

  /** The calls of `hook` on each of `dirs`, in order. */
  function HookCalls(dirs: seq<Directive>, hook: DirHook, vnode: VNode, oldVnode: VNode): seq<DirCall> {
    if dirs == [] then []
    else HookCalls(dirs[..|dirs| - 1], hook, vnode, oldVnode) + HookCall(dirs[|dirs| - 1], hook, vnode, oldVnode, false)
  }

  /** Reference definition of the loop over the old keys `names`. */
  function UnbindPass(names: seq<string>, oldDirs: DirTable, newDirs: DirTable, oldVnode: VNode, isDestroy: bool): seq<DirCall>
    requires forall k | k in names :: k in oldDirs.entries
  {
    if names == [] then []
    else
      var k := names[|names| - 1];
      UnbindPass(names[..|names| - 1], oldDirs, newDirs, oldVnode, isDestroy) +
      (if k !in newDirs.entries then HookCall(oldDirs.entries[k], Unbind, oldVnode, oldVnode, isDestroy) else [])
  }

  /** The effect of `updateDirectives(oldVnode, vnode)`: the calls made now,
      and those merged into the vnode's `insert` and `postpatch` hooks. */
  datatype Outcome = Outcome(calls: seq<DirCall>, insertHook: seq<DirCall>, postpatchHook: seq<DirCall>)

  function DirsOf(v: VNode): seq<Directive>
    requires v.data.Some?
  {
    v.data.value.directives.GetOr([])
  }

  /** Reference definition of `updateDirectives`. */
  function Expected(oldVnode: VNode, vnode: VNode, oldAssets: map<string, DirectiveDef>, assets: map<string, DirectiveDef>): Outcome
    requires oldVnode.data.Some? && vnode.data.Some?
  {
    if oldVnode.data.value.directives.None? && vnode.data.value.directives.None? then Outcome([], [], [])
    else
      NormalizedWF(DirsOf(oldVnode), oldAssets);
      NormalizedWF(DirsOf(vnode), assets);
      Diff(Normalized(DirsOf(oldVnode), oldAssets), Normalized(DirsOf(vnode), assets), oldVnode, vnode)
  }

  /** `_update` once both directive lists are normalized. */
  function Diff(oldDirs: DirTable, newDirs: DirTable, oldVnode: VNode, vnode: VNode): Outcome
    requires TableWF(oldDirs) && TableWF(newDirs)
  {
    var isCreate, isDestroy := oldVnode == emptyNode, vnode == emptyNode;
    var p := NewPass(newDirs.names, newDirs, oldDirs, vnode, oldVnode);
    var inserted := HookCalls(p.withInsert, DirInserted, vnode, oldVnode);
    var postpatch := HookCalls(p.withPostpatch, ComponentUpdated, vnode, oldVnode);
    if isCreate then Outcome(p.calls, inserted, postpatch)
    else Outcome(p.calls + inserted + UnbindPass(oldDirs.names, oldDirs, newDirs, oldVnode, isDestroy), [], postpatch)
  }

  /** `updateDirectives(oldVnode, vnode)`, the module's `create` and `update`
      hook; `destroy` is `UpdateDirectives(vnode, emptyNode, ...)`.
      `oldAssets` and `assets` are the directives registered for the two
      vnodes' contexts. */
  method UpdateDirectives(oldVnode: VNode, vnode: VNode, oldAssets: map<string, DirectiveDef>, assets: map<string, DirectiveDef>)
      returns (calls: seq<DirCall>, insertHook: seq<DirCall>, postpatchHook: seq<DirCall>)
    requires oldVnode.data.Some? && vnode.data.Some?
    ensures Outcome(calls, insertHook, postpatchHook) == Expected(oldVnode, vnode, oldAssets, assets)
  {
    calls, insertHook, postpatchHook := [], [], [];
    if oldVnode.data.value.directives.Some? || vnode.data.value.directives.Some? {
      calls, insertHook, postpatchHook := Update(oldVnode, vnode, oldAssets, assets);
    }
  }

  /** `_update(oldVnode, vnode)` */
  method Update(oldVnode: VNode, vnode: VNode, oldAssets: map<string, DirectiveDef>, assets: map<string, DirectiveDef>)
      returns (calls: seq<DirCall>, insertHook: seq<DirCall>, postpatchHook: seq<DirCall>)
    requires oldVnode.data.Some? && vnode.data.Some?
    requires oldVnode.data.value.directives.Some? || vnode.data.value.directives.Some?
    ensures Outcome(calls, insertHook, postpatchHook) == Expected(oldVnode, vnode, oldAssets, assets)
  {
    var oldDirs := NormalizeDirectives(oldVnode.data.value.directives, oldAssets);
    var newDirs := NormalizeDirectives(vnode.data.value.directives, assets);
    NormalizedWF(DirsOf(oldVnode), oldAssets);
    NormalizedWF(DirsOf(vnode), assets);
    calls, insertHook, postpatchHook := Run(oldDirs, newDirs, oldVnode, vnode);
  }

  /** The body of `_update` after normalization. */
  method Run(oldDirs: DirTable, newDirs: DirTable, oldVnode: VNode, vnode: VNode)
      returns (calls: seq<DirCall>, insertHook: seq<DirCall>, postpatchHook: seq<DirCall>)
    requires TableWF(oldDirs) && TableWF(newDirs)
    ensures calls == Diff(oldDirs, newDirs, oldVnode, vnode).calls
    ensures insertHook == Diff(oldDirs, newDirs, oldVnode, vnode).insertHook
    ensures postpatchHook == Diff(oldDirs, newDirs, oldVnode, vnode).postpatchHook
  {
    var isCreate := oldVnode == emptyNode;
    var isDestroy := vnode == emptyNode;
    var p := BindOrUpdateAll(newDirs, oldDirs, vnode, oldVnode);
    var now;
    now, insertHook, postpatchHook := Defer(p, isCreate, vnode, oldVnode);
    calls := p.calls + now;
    if !isCreate {
      var unbinds := UnbindAll(oldDirs, newDirs, oldVnode, isDestroy);
      calls := calls + unbinds;
    }
  }

  /** The `inserted` and `componentUpdated` calls: on create `callInsert`
      is merged into the vnode's `insert` hook, otherwise it runs now; the
      `postpatch` closure is merged when some binding needs it. */
  method Defer(p: Pass, isCreate: bool, vnode: VNode, oldVnode: VNode)
      returns (now: seq<DirCall>, insertHook: seq<DirCall>, postpatchHook: seq<DirCall>)
    ensures now == (if isCreate then [] else HookCalls(p.withInsert, DirInserted, vnode, oldVnode))
    ensures insertHook == (if isCreate then HookCalls(p.withInsert, DirInserted, vnode, oldVnode) else [])
    ensures postpatchHook == HookCalls(p.withPostpatch, ComponentUpdated, vnode, oldVnode)
  {
    now, insertHook, postpatchHook := [], [], [];
    if |p.withInsert| > 0 {
      var callInsert := CallAll(p.withInsert, DirInserted, vnode, oldVnode);
      if isCreate {
        insertHook := callInsert;
      } else {
        now := callInsert;
      }
    }
    if |p.withPostpatch| > 0 {
      postpatchHook := CallAll(p.withPostpatch, ComponentUpdated, vnode, oldVnode);
    }
  }

  /** The `for (key in newDirs)` loop. */
  method BindOrUpdateAll(newDirs: DirTable, oldDirs: DirTable, vnode: VNode, oldVnode: VNode) returns (p: Pass)
    requires TableWF(newDirs)
    ensures p == NewPass(newDirs.names, newDirs, oldDirs, vnode, oldVnode)
  {
    var names := newDirs.names;
    p := Pass([], [], []);
    for i := 0 to |names|
      invariant p == NewPass(names[..i], newDirs, oldDirs, vnode, oldVnode)
    {
      var key := names[i];
      assert names[..i + 1][..i] == names[..i];
      var dir := newDirs.entries[key];
      if key !in oldDirs.entries {
        var c := HookCall(dir, Bind, vnode, oldVnode, false);
        p := p.(calls := p.calls + c);
        if dir.def.Some? && DirInserted in dir.def.value.hooks {
          p := p.(withInsert := p.withInsert + [dir]);
        }
      } else {
        var oldDir := oldDirs.entries[key];
        dir := dir.(oldValue := Some(oldDir.value));
        dir := dir.(oldArg := oldDir.arg);
        var c := HookCall(dir, DirUpdate, vnode, oldVnode, false);
        p := p.(calls := p.calls + c);
        if dir.def.Some? && ComponentUpdated in dir.def.value.hooks {
          p := p.(withPostpatch := p.withPostpatch + [dir]);
        }
      }
    }
    assert names[..|names|] == names;
  }

  /** The body of `callInsert` and of the `postpatch` closure. */
  method CallAll(dirs: seq<Directive>, hook: DirHook, vnode: VNode, oldVnode: VNode) returns (calls: seq<DirCall>)
    ensures calls == HookCalls(dirs, hook, vnode, oldVnode)
  {
    calls := [];
    for i := 0 to |dirs|
      invariant calls == HookCalls(dirs[..i], hook, vnode, oldVnode)
    {
      assert dirs[..i + 1][..i] == dirs[..i];
      calls := calls + HookCall(dirs[i], hook, vnode, oldVnode, false);
    }
    assert dirs[..|dirs|] == dirs;
  }

  /** The `for (key in oldDirs)` loop. */
  method UnbindAll(oldDirs: DirTable, newDirs: DirTable, oldVnode: VNode, isDestroy: bool) returns (calls: seq<DirCall>)
    requires TableWF(oldDirs)
    ensures calls == UnbindPass(oldDirs.names, oldDirs, newDirs, oldVnode, isDestroy)
  {
    var names := oldDirs.names;
    calls := [];
    for i := 0 to |names|
      invariant calls == UnbindPass(names[..i], oldDirs, newDirs, oldVnode, isDestroy)
    {
      assert names[..i + 1][..i] == names[..i];
      var key := names[i];
      if key !in newDirs.entries {
        calls := calls + HookCall(oldDirs.entries[key], Unbind, oldVnode, oldVnode, isDestroy);
      }
    }
    assert names[..|names|] == names;
  }

  // Properties of the diff.

  /** Every call of the new-keys loop is a `bind` of a binding whose key is
      new, or an `update` of an existing one with its old value and argument
      copied over. */
  lemma {:induction false} NewPassCalls(names: seq<string>, newDirs: DirTable, oldDirs: DirTable, vnode: VNode, oldVnode: VNode)
    requires forall k | k in names :: k in newDirs.entries
    ensures forall c | c in NewPass(names, newDirs, oldDirs, vnode, oldVnode).calls ::
      exists k | k in names :: c == BindOrUpdateCall(k, newDirs, oldDirs, vnode, oldVnode)
    decreases |names|
  {
    if names != [] {
      var init, k := names[..|names| - 1], names[|names| - 1];
      NewPassStep(names, newDirs, oldDirs, vnode, oldVnode);
      NewPassCalls(init, newDirs, oldDirs, vnode, oldVnode);
      var p0 := NewPass(init, newDirs, oldDirs, vnode, oldVnode);
      forall c | c in NewPass(names, newDirs, oldDirs, vnode, oldVnode).calls
        ensures exists k' | k' in names :: c == BindOrUpdateCall(k', newDirs, oldDirs, vnode, oldVnode)
      {
        if c in p0.calls {
          var k' :| k' in init && c == BindOrUpdateCall(k', newDirs, oldDirs, vnode, oldVnode);
          assert k' in names;
        } else {
          assert k in names && c == BindOrUpdateCall(k, newDirs, oldDirs, vnode, oldVnode);
        }
      }
    }
  }

  /** Each new key gets its call when its definition has the hook. */
  lemma {:induction false} NewPassCovers(names: seq<string>, newDirs: DirTable, oldDirs: DirTable, vnode: VNode, oldVnode: VNode)
    requires forall k | k in names :: k in newDirs.entries
    ensures forall k | k in names && HasHook(KeyedDir(k, newDirs, oldDirs), KeyedHook(k, oldDirs)) ::
      BindOrUpdateCall(k, newDirs, oldDirs, vnode, oldVnode) in NewPass(names, newDirs, oldDirs, vnode, oldVnode).calls
    decreases |names|
  {
    if names != [] {
      var init := names[..|names| - 1];
      NewPassStep(names, newDirs, oldDirs, vnode, oldVnode);
      NewPassCovers(init, newDirs, oldDirs, vnode, oldVnode);
      forall k | k in names && HasHook(KeyedDir(k, newDirs, oldDirs), KeyedHook(k, oldDirs))
        ensures BindOrUpdateCall(k, newDirs, oldDirs, vnode, oldVnode) in NewPass(names, newDirs, oldDirs, vnode, oldVnode).calls
      {
        if k != names[|names| - 1] {
          assert k in init;
        }
      }
    }
  }

  /** One step of the new-keys loop, as calls. */
  lemma NewPassStep(names: seq<string>, newDirs: DirTable, oldDirs: DirTable, vnode: VNode, oldVnode: VNode)
    requires names != [] && forall k | k in names :: k in newDirs.entries
    ensures forall x | x in names[..|names| - 1] :: x in names
    ensures var k := names[|names| - 1];
      NewPass(names, newDirs, oldDirs, vnode, oldVnode).calls ==
      NewPass(names[..|names| - 1], newDirs, oldDirs, vnode, oldVnode).calls +
      (if HasHook(KeyedDir(k, newDirs, oldDirs), KeyedHook(k, oldDirs)) then [BindOrUpdateCall(k, newDirs, oldDirs, vnode, oldVnode)] else [])
  {
    assert names == names[..|names| - 1] + [names[|names| - 1]];
  }

  /** The hook a key gets: `bind` when new, `update` when it existed. */
  function KeyedHook(k: string, oldDirs: DirTable): DirHook {
    if k in oldDirs.entries then DirUpdate else Bind
  }

  /** The binding the hook receives. */
  function KeyedDir(k: string, newDirs: DirTable, oldDirs: DirTable): Directive
    requires k in newDirs.entries
  {
    if k in oldDirs.entries then Paired(newDirs.entries[k], oldDirs.entries[k]) else newDirs.entries[k]
  }

  function BindOrUpdateCall(k: string, newDirs: DirTable, oldDirs: DirTable, vnode: VNode, oldVnode: VNode): DirCall
    requires k in newDirs.entries
  {
    DirCall(KeyedHook(k, oldDirs), KeyedDir(k, newDirs, oldDirs), vnode, oldVnode, false)
  }

  /** Every call of the old-keys loop unbinds a key that the new vnode no
      longer has, with the given `isDestroy`; and every such key whose
      definition has `unbind` is unbound. */
  lemma {:induction false} UnbindPassCalls(names: seq<string>, oldDirs: DirTable, newDirs: DirTable, oldVnode: VNode, isDestroy: bool)
    requires forall k | k in names :: k in oldDirs.entries
    ensures var u := UnbindPass(names, oldDirs, newDirs, oldVnode, isDestroy);
      (forall c | c in u :: exists k | k in names ::
         (k !in newDirs.entries && c == DirCall(Unbind, oldDirs.entries[k], oldVnode, oldVnode, isDestroy))) &&
      (forall k | k in names && k !in newDirs.entries && HasHook(oldDirs.entries[k], Unbind) ::
         DirCall(Unbind, oldDirs.entries[k], oldVnode, oldVnode, isDestroy) in u)
    decreases |names|
  {
    if names != [] {
      var init, k := names[..|names| - 1], names[|names| - 1];
      assert forall x | x in init :: x in names;
      UnbindPassCalls(init, oldDirs, newDirs, oldVnode, isDestroy);
      assert names == init + [k];
    }
  }

  /** Nothing happens when neither vnode has directives. */
  lemma NoDirectivesNoCalls(oldVnode: VNode, vnode: VNode, oldAssets: map<string, DirectiveDef>, assets: map<string, DirectiveDef>)
    requires oldVnode.data.Some? && vnode.data.Some?
    requires oldVnode.data.value.directives.None? && vnode.data.value.directives.None?
    ensures Expected(oldVnode, vnode, oldAssets, assets) == Outcome([], [], [])
  {
  }

  /** On create every immediate call is a `bind` and `inserted` waits for
      the vnode's `insert` hook; otherwise nothing is deferred to `insert`. */
  lemma CreateDefersInserted(oldVnode: VNode, vnode: VNode, oldAssets: map<string, DirectiveDef>, assets: map<string, DirectiveDef>)
    requires oldVnode.data.Some? && vnode.data.Some?
    ensures var o := Expected(oldVnode, vnode, oldAssets, assets);
      (oldVnode == emptyNode ==> (forall c | c in o.calls :: c.hook == Bind) && (forall c | c in o.insertHook :: c.hook == DirInserted)) &&
      (oldVnode != emptyNode ==> o.insertHook == [])
  {
    if oldVnode == emptyNode && vnode.data.value.directives.Some? {
      var oldDirs := Normalized(DirsOf(oldVnode), oldAssets);
      var newDirs := Normalized(DirsOf(vnode), assets);
      assert DirsOf(oldVnode) == [];
      NormalizedWF(DirsOf(vnode), assets);
      NewPassCalls(newDirs.names, newDirs, oldDirs, vnode, oldVnode);
      var p := NewPass(newDirs.names, newDirs, oldDirs, vnode, oldVnode);
      HookCallsHook(p.withInsert, DirInserted, vnode, oldVnode);
    }
  }

  /** Unbinds happen only on update and destroy; each is told whether the
      vnode is being destroyed, exactly when the new vnode is `emptyNode`,
      and receives the old vnode in both vnode positions. */
  lemma UnbindIsDestroy(oldVnode: VNode, vnode: VNode, oldAssets: map<string, DirectiveDef>, assets: map<string, DirectiveDef>, c: DirCall)
    requires oldVnode.data.Some? && vnode.data.Some?
    requires c in Expected(oldVnode, vnode, oldAssets, assets).calls && c.hook == Unbind
    ensures oldVnode != emptyNode && (c.isDestroy <==> vnode == emptyNode)
    ensures c.vnode == oldVnode && c.oldVnode == oldVnode
  {
    var oldDirs := Normalized(DirsOf(oldVnode), oldAssets);
    var newDirs := Normalized(DirsOf(vnode), assets);
    NormalizedWF(DirsOf(oldVnode), oldAssets);
    NormalizedWF(DirsOf(vnode), assets);
    var p := NewPass(newDirs.names, newDirs, oldDirs, vnode, oldVnode);
    NewPassCalls(newDirs.names, newDirs, oldDirs, vnode, oldVnode);
    assert c !in p.calls;
    HookCallsHook(p.withInsert, DirInserted, vnode, oldVnode);
    var inserted := HookCalls(p.withInsert, DirInserted, vnode, oldVnode);
    if oldVnode != emptyNode {
      assert c !in inserted;
      var isDestroy := vnode == emptyNode;
      UnbindPassCalls(oldDirs.names, oldDirs, newDirs, oldVnode, isDestroy);
    }
  }

  lemma {:induction false} HookCallsHook(dirs: seq<Directive>, hook: DirHook, vnode: VNode, oldVnode: VNode)
    ensures forall c | c in HookCalls(dirs, hook, vnode, oldVnode) :: c.hook == hook && !c.isDestroy
    decreases |dirs|
  {
    if dirs != [] {
      HookCallsHook(dirs[..|dirs| - 1], hook, vnode, oldVnode);
    }
  }
}
