/** `createElement`, `_createElement` and `applyNS` of
    src/core/vdom/create-element.js: the `h` function render code calls to
    build a vnode. */
module CreateElement {
  import opened Common
  import opened VNodes

  const SimpleNormalize: int := 1
  const AlwaysNormalize: int := 2

  /** A JavaScript primitive as `isPrimitive` sees it. */
  datatype Prim = PStr(s: string) | PNum(n: int) | PBool(b: bool)

  /** An element of a children array: a scoped-slot function, a vnode, a
      primitive (a text child) or a nested array. */
  datatype Item = FnItem(fn: nat) | NodeItem(v: VNode) | PrimItem(p: Prim) | Nested(items: seq<Item>)

  /** A value passed in the `data`, `children` or `normalizationType`
      position: `undefined`, `null`, a primitive, an array or a data object. */
  datatype Arg = Absent | Null | Primitive(p: Prim) | Array(items: seq<Item>) | Obj(d: VNodeData)

  /** The `tag` argument: a tag name, a component (options or constructor),
      or a falsy value. */
  datatype TagArg = TagStr(s: string) | TagComponent(ctor: nat) | TagFalsy

  /** What `createComponent` hands back: a vnode, an array of vnodes (a
      functional component), or `undefined`. */
  datatype Built = One(v: VNode) | Many(vs: seq<VNode>) | Nothing

  /** What `createElement` returns: a vnode or an array of vnodes. */
  datatype Created = Single(v: VNode) | Multiple(vs: seq<VNode>)

  /** The vm a render runs in: its id, `$vnode.ns` and the components it
      can resolve by name. */
  datatype Context = Context(id: nat, vnodeNs: Option<string>, components: map<string, nat>)

  /** The platform hooks of `config` and the helpers this file calls but
      that are not part of this model.  `asIs` is the children value handed
      to a vnode untouched when no normalization is asked for. */
  datatype Env = Env(
    isReservedTag: string -> bool,
    getTagNamespace: string -> Option<string>,
    parsePlatformTagName: string -> string,
    normalizeChildren: Arg -> Children,
    simpleNormalizeChildren: Arg -> Children,
    asIs: Arg -> Children,
    createComponent: (nat, Option<VNodeData>, Children, Option<string>) -> Built)

  /** `Array.isArray(data) || isPrimitive(data)`: the arguments shift left. */
  predicate Shifts(data: Arg) {
    data.Array? || data.Primitive?
  }

  /** `data` as `_createElement` receives it when no shift happened;
      `null` and `undefined` both fail `isDef`. */
  function DataOf(data: Arg): (r: Option<VNodeData>)
    ensures r.Some? <==> data.Obj?
  {
    if data.Obj? then Some(data.d) else None
  }

  /** `createElement(context, tag, data, children, normalizationType,
      alwaysNormalize)`. */
  function CreateElement(env: Env, ctx: Context, tag: TagArg, data: Arg, children: Arg,
                         normalizationType: Arg, alwaysNormalize: bool): (r: Created)
    ensures alwaysNormalize && !Shifts(data) ==>
      r == CreateElementCore(env, ctx, tag, DataOf(data), children, Primitive(PNum(AlwaysNormalize)))
  {
    var shift := Shifts(data);
    var nt := if alwaysNormalize then Primitive(PNum(AlwaysNormalize)) else if shift then children else normalizationType;
    CreateElementCore(env, ctx, tag, if shift then None else DataOf(data), if shift then data else children, nt)
  }

  /** `!tag`, after `data.is` has been applied. */
  predicate Falsy(tag: TagArg) {
    tag == TagFalsy || tag == TagStr("")
  }

  /** The tag after `data.is` overrides it. */
  function EffectiveTag(tag: TagArg, data: Option<VNodeData>): (r: TagArg)
    ensures data.Some? && data.value.isAttr.Some? ==> r == TagStr(data.value.isAttr.value)
    ensures (data.None? || data.value.isAttr.None?) ==> r == tag
  {
    if data.Some? && data.value.isAttr.Some? then TagStr(data.value.isAttr.value) else tag
  }

  /** A function as first child becomes the default scoped slot, and the
      children array is emptied. */
  predicate FunctionFirst(children: Arg) {
    children.Array? && |children.items| > 0 && children.items[0].FnItem?
  }

  function SlotData(data: Option<VNodeData>, children: Arg): Option<VNodeData>
    requires FunctionFirst(children)
  {
    Some(data.GetOr(emptyData).(scopedDefault := Some(children.items[0].fn)))
  }

  /** The children after the normalization `normalizationType` asks for;
      the comparisons are `===` on numbers. */
  function Normalize(env: Env, nt: Arg, children: Arg): Children {
    if nt == Primitive(PNum(AlwaysNormalize)) then env.normalizeChildren(children)
    else if nt == Primitive(PNum(SimpleNormalize)) then env.simpleNormalizeChildren(children)
    else env.asIs(children)
  }

  /** `(context.$vnode && context.$vnode.ns) || config.getTagNamespace(tag)`. */
  function Namespace(env: Env, ctx: Context, tag: string): (r: Option<string>)
    ensures ctx.vnodeNs.Some? && ctx.vnodeNs.value != "" ==> r == ctx.vnodeNs
    ensures (ctx.vnodeNs.None? || ctx.vnodeNs.value == "") ==> r == env.getTagNamespace(tag)
  {
    if ctx.vnodeNs.Some? && ctx.vnodeNs.value != "" then ctx.vnodeNs else env.getTagNamespace(tag)
  }

  /** `new VNode(tag, data, children, undefined, undefined, context)`. */
  function Element(tag: string, data: Option<VNodeData>, kids: Children, ctx: Context): VNode {
    MkVNode(Some(tag), data, kids, None).(context := Some(ctx.id))
  }

  /** The vnode (or array) the tag resolves to, before the namespace. */
  function Build(env: Env, ctx: Context, tag: TagArg, data: Option<VNodeData>, kids: Children): Built
    requires !Falsy(tag)
  {
    match tag
    case TagStr(s) =>
      if env.isReservedTag(s) then One(Element(env.parsePlatformTagName(s), data, kids, ctx))
      else if (data.None? || !data.value.pre) && s in ctx.components then
        env.createComponent(ctx.components[s], data, kids, Some(s))
      else One(Element(s, data, kids, ctx))
    case TagComponent(ctor) => env.createComponent(ctor, data, kids, None)
  }

  /** The tail of `_createElement`: an array is returned as it is, a vnode
      gets the namespace when there is one, and `undefined` becomes an empty
      vnode. */
  function Finish(built: Built, ns: Option<string>): (r: Created)
    ensures built.Many? <==> r.Multiple?
    ensures built.Nothing? ==> r == Single(EmptyVNode())
    ensures built.One? && ns.None? ==> r == Single(built.v)
    ensures built.One? && ns.Some? ==> r.Single? && r.v.ns == ns
  {
    match built
    case Many(vs) => Multiple(vs)
    case One(v) => if ns.Some? then Single(WithNS(v, ns, false)) else Single(v)
    case Nothing => Single(EmptyVNode())
  }

  /** `_createElement(context, tag, data, children, normalizationType)`. */
  function CreateElementCore(env: Env, ctx: Context, tag: TagArg, data: Option<VNodeData>, children: Arg, nt: Arg): (r: Created)
    ensures data.Some? && data.value.observed ==> r == Single(EmptyVNode())
    ensures Falsy(EffectiveTag(tag, data)) ==> r == Single(EmptyVNode())
  {
    if data.Some? && data.value.observed then Single(EmptyVNode())
    else
      var tag := EffectiveTag(tag, data);
      if Falsy(tag) then Single(EmptyVNode())
      else
        var slot := FunctionFirst(children);
        var data := if slot then SlotData(data, children) else data;
        var kids := Normalize(env, nt, if slot then Array([]) else children);
        var ns := if tag.TagStr? then Namespace(env, ctx, tag.s) else None;
        Finish(Build(env, ctx, tag, data, kids), ns)
  }

  // Namespaces.

  /** A child `applyNS` descends into: a tagged child whose `ns` is
      undefined or, under `force`, any tagged child but `<svg>`. */
  predicate Eligible(c: VNode, force: bool) {
    c.tag.Some? && (c.ns.None? || (force && c.tag != Some("svg")))
  }

  /** Inside `<foreignObject>` the default namespace applies, forced. */
  function InnerNS(v: VNode, ns: Option<string>): Option<string> {
    if v.tag == Some("foreignObject") then None else ns
  }

  function InnerForce(v: VNode, force: bool): bool {
    v.tag == Some("foreignObject") || force
  }

  /** Reference definition of `applyNS(vnode, ns, force)`. */
  function WithNS(v: VNode, ns: Option<string>, force: bool): VNode
    decreases v, 1
  {
    match v.children
    case NoChildren => v.(ns := ns)
    case Kids(cs) => v.(ns := ns, children := Kids(WithNSList(cs, InnerNS(v, ns), InnerForce(v, force))))
  }

  function WithNSList(cs: seq<VNode>, ns: Option<string>, force: bool): (r: seq<VNode>)
    ensures |r| == |cs|
    decreases cs, 0
  {
    if cs == [] then [] else WithNSList(cs[..|cs| - 1], ns, force) + [WithNSChild(cs[|cs| - 1], ns, force)]
  }

  function WithNSChild(c: VNode, ns: Option<string>, force: bool): VNode
    decreases c, 2
  {
    if Eligible(c, force) then WithNS(c, ns, force) else c
  }

  /** A vnode tree with every `ns` cleared. */
  function Plain(v: VNode): VNode
    decreases v, 1
  {
    match v.children
    case NoChildren => v.(ns := None)
    case Kids(cs) => v.(ns := None, children := Kids(PlainList(cs)))
  }

  function PlainList(cs: seq<VNode>): (r: seq<VNode>)
    ensures |r| == |cs|
    decreases cs, 0
  {
    if cs == [] then [] else PlainList(cs[..|cs| - 1]) + [Plain(cs[|cs| - 1])]
  }

  lemma {:induction false} WithNSListIndex(cs: seq<VNode>, ns: Option<string>, force: bool, i: int)
    requires 0 <= i < |cs|
    ensures WithNSList(cs, ns, force)[i] == WithNSChild(cs[i], ns, force)
    decreases |cs|
  {
    if i < |cs| - 1 {
      WithNSListIndex(cs[..|cs| - 1], ns, force, i);
      assert cs[..|cs| - 1][i] == cs[i];
    }
  }

  /** `applyNS` gives the vnode its namespace and writes nothing but `ns`
      fields anywhere in the tree. */
  lemma {:induction false} WithNSShape(v: VNode, ns: Option<string>, force: bool)
    ensures WithNS(v, ns, force).ns == ns
    ensures Plain(WithNS(v, ns, force)) == Plain(v)
    decreases v, 1
  {
    match v.children
    case NoChildren =>
    case Kids(cs) => WithNSListShape(cs, InnerNS(v, ns), InnerForce(v, force));
  }

  lemma {:induction false} WithNSListShape(cs: seq<VNode>, ns: Option<string>, force: bool)
    ensures PlainList(WithNSList(cs, ns, force)) == PlainList(cs)
    decreases cs, 0
  {
    if cs != [] {
      var init, last := cs[..|cs| - 1], cs[|cs| - 1];
      var r := WithNSList(cs, ns, force);
      WithNSListShape(init, ns, force);
      if Eligible(last, force) {
        WithNSShape(last, ns, force);
      }
      assert r[..|r| - 1] == WithNSList(init, ns, force);
    }
  }

  /** Applying the same namespace twice changes nothing more. */
  lemma {:induction false} WithNSIdempotent(v: VNode, ns: Option<string>, force: bool)
    ensures WithNS(WithNS(v, ns, force), ns, force) == WithNS(v, ns, force)
    decreases v, 1
  {
    match v.children
    case NoChildren =>
    case Kids(cs) => WithNSListIdempotent(cs, InnerNS(v, ns), InnerForce(v, force));
  }

  lemma {:induction false} WithNSListIdempotent(cs: seq<VNode>, ns: Option<string>, force: bool)
    ensures WithNSList(WithNSList(cs, ns, force), ns, force) == WithNSList(cs, ns, force)
    decreases cs, 0
  {
    if cs != [] {
      var init, last := cs[..|cs| - 1], cs[|cs| - 1];
      var r := WithNSList(cs, ns, force);
      WithNSListIdempotent(init, ns, force);
      if Eligible(last, force) {
        WithNSIdempotent(last, ns, force);
        WithNSShape(last, ns, force);
      }
      assert r[..|r| - 1] == WithNSList(init, ns, force);
    }
  }

  /** Inside `<foreignObject>` every child `applyNS` reaches gets the
      default (undefined) namespace, and an `<svg>` child that already has
      a namespace keeps its whole subtree. */
  lemma ForeignObjectChildren(v: VNode, ns: Option<string>, force: bool, i: int)
    requires v.tag == Some("foreignObject") && v.children.Kids? && 0 <= i < |v.children.list|
    ensures var c, r := v.children.list[i], WithNS(v, ns, force).children.list[i];
      (c.tag.Some? && c.tag != Some("svg") ==> r.ns.None?) &&
      (c.tag == Some("svg") && c.ns.Some? ==> r == c)
  {
    var c := v.children.list[i];
    WithNSListIndex(v.children.list, None, true, i);
    if Eligible(c, true) {
      WithNSShape(c, None, true);
    }
  }

  /** Without `force`, a child that already has a namespace is left whole. */
  lemma KeepsNamespacedChild(v: VNode, ns: Option<string>, i: int)
    requires v.tag != Some("foreignObject") && v.children.Kids? && 0 <= i < |v.children.list|
    requires v.children.list[i].ns.Some?
    ensures WithNS(v, ns, false).children.list[i] == v.children.list[i]
  {
    WithNSListIndex(v.children.list, ns, false, i);
  }

  /** `applyNS(vnode, ns, force)`: the loop over the children, descending
      into those that qualify. */
  method ApplyNS(v: VNode, ns: Option<string>, force: bool) returns (r: VNode)
    ensures r == WithNS(v, ns, force)
    decreases v
  {
    r := v.(ns := ns);
    var ns', force' := ns, force;
    if v.tag == Some("foreignObject") {
      ns', force' := None, true;
    }
    if v.children.Kids? {
      var cs := v.children.list;
      var out := [];
      for i := 0 to |cs|
        invariant out == WithNSList(cs[..i], ns', force')
      {
        assert cs[..i + 1][..i] == cs[..i];
        var child := cs[i];
        if child.tag.Some? && (child.ns.None? || (force' && child.tag != Some("svg"))) {
          assert cs[i] in v.children.list;
          child := ApplyNS(child, ns', force');
        }
        out := out + [child];
      }
      assert cs[..|cs|] == cs;
      r := r.(children := Kids(out));
    }
  }

  // Properties of createElement.

  /** Passing an array or a primitive as `data` is the same call with the
      arguments shifted left and no data. */
  lemma ShiftLaw(env: Env, ctx: Context, tag: TagArg, data: Arg, children: Arg, nt: Arg, alwaysNormalize: bool)
    requires Shifts(data)
    ensures CreateElement(env, ctx, tag, data, children, nt, alwaysNormalize) ==
            CreateElement(env, ctx, tag, Absent, data, children, alwaysNormalize)
  {
  }

  /** Under `alwaysNormalize` the normalization type passed is ignored. */
  lemma AlwaysNormalizeWins(env: Env, ctx: Context, tag: TagArg, data: Arg, children: Arg, nt1: Arg, nt2: Arg)
    requires !Shifts(data)
    ensures CreateElement(env, ctx, tag, data, children, nt1, true) ==
            CreateElement(env, ctx, tag, data, children, nt2, true)
  {
  }

  /** A reserved tag yields a platform element: its tag is the parsed
      name, it carries the data and the normalized children, it belongs to
      the context, and it has the namespace when there is one. */
  lemma ReservedTagElement(env: Env, ctx: Context, tag: string, data: Option<VNodeData>, children: Arg, nt: Arg)
    requires data.None? || (!data.value.observed && data.value.isAttr.None?)
    requires tag != "" && env.isReservedTag(tag) && !FunctionFirst(children)
    ensures var r := CreateElementCore(env, ctx, TagStr(tag), data, children, nt);
      r.Single? && r.v.ns == Namespace(env, ctx, tag) &&
      Plain(r.v) == Plain(Element(env.parsePlatformTagName(tag), data, Normalize(env, nt, children), ctx))
  {
    var e := Element(env.parsePlatformTagName(tag), data, Normalize(env, nt, children), ctx);
    var ns := Namespace(env, ctx, tag);
    if ns.Some? {
      WithNSShape(e, ns, false);
    }
  }

  /** A function as first child becomes the default scoped slot of the
      data (created when absent) and the vnode gets no children from it. */
  lemma FunctionChildIsScopedSlot(env: Env, ctx: Context, tag: string, data: Option<VNodeData>, children: Arg, nt: Arg)
    requires data.None? || (!data.value.observed && data.value.isAttr.None?)
    requires tag != "" && env.isReservedTag(tag) && FunctionFirst(children)
    ensures var r := CreateElementCore(env, ctx, TagStr(tag), data, children, nt);
      r.Single? && r.v.data.Some? && r.v.data.value.scopedDefault == Some(children.items[0].fn) &&
      r.v.data.value.(scopedDefault := data.GetOr(emptyData).scopedDefault) == data.GetOr(emptyData) &&
      Plain(r.v) == Plain(Element(env.parsePlatformTagName(tag), r.v.data, Normalize(env, nt, Array([])), ctx))
  {
    var e := Element(env.parsePlatformTagName(tag), SlotData(data, children), Normalize(env, nt, Array([])), ctx);
    var ns := Namespace(env, ctx, tag);
    if ns.Some? {
      WithNSShape(e, ns, false);
    }
  }

  /** A component given directly (not by name) gets no namespace: the
      result is what `createComponent` built, with `undefined` replaced by
      an empty vnode. */
  lemma ComponentTagNoNamespace(env: Env, ctx: Context, ctor: nat, data: Option<VNodeData>, children: Arg, nt: Arg)
    requires data.None? || (!data.value.observed && data.value.isAttr.None?)
    requires !FunctionFirst(children)
    ensures var b := env.createComponent(ctor, data, Normalize(env, nt, children), None);
      CreateElementCore(env, ctx, TagComponent(ctor), data, children, nt) ==
      (match b case One(v) => Single(v) case Many(vs) => Multiple(vs) case Nothing => Single(EmptyVNode()))
  {
  }

  /** A name resolved among the context's components, on data without
      `pre`, goes to `createComponent` with the tag as its name. */
  lemma RegisteredComponent(env: Env, ctx: Context, tag: string, data: Option<VNodeData>, children: Arg, nt: Arg)
    requires data.None? || (!data.value.observed && data.value.isAttr.None? && !data.value.pre)
    requires tag != "" && !env.isReservedTag(tag) && tag in ctx.components && !FunctionFirst(children)
    ensures CreateElementCore(env, ctx, TagStr(tag), data, children, nt) ==
      Finish(env.createComponent(ctx.components[tag], data, Normalize(env, nt, children), Some(tag)), Namespace(env, ctx, tag))
  {
  }
}
