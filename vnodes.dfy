/** The virtual node record shared by the patcher, the element factory, the
    module hooks and the slot resolver.  A vnode is a value; the fields the
    patcher writes while it runs (`elm`, `componentInstance`,
    `isAsyncPlaceholder`) are returned in an updated copy. */
module VNodes {
  import opened Common

  /** Identity of a backend element (a DOM node in the browser). */
  type Elm = nat

  /** A `key` is a string or a number; `===` distinguishes the two. */
  datatype Key = StrKey(s: string) | NumKey(n: int)

  /** Hooks that `data.hook` may define on a vnode. */
  datatype HookName = Init | Create | Insert | Prepatch | Update | Postpatch | Destroy | Remove

  /** A directive binding as a template hands it over (`v-name:arg.mod="value"`).
      `value`, `oldValue` and `def` are abstract tokens; `modifiers` is the
      list of modifier names that are set. */
  datatype Directive = Directive(
    name: string,
    rawName: Option<string>,
    value: int,
    oldValue: Option<int>,
    arg: Option<string>,
    oldArg: Option<string>,
    modifiers: Option<seq<string>>,
    def: Option<DirectiveDef>)

  /** The resolved definition of a directive: which hooks it implements. */
  datatype DirectiveDef = DirectiveDef(id: nat, hooks: set<DirHook>)

  datatype DirHook = Bind | DirInserted | DirUpdate | ComponentUpdated | Unbind

  /** The part of a vnode's `data` object the core reads. */
  datatype VNodeData = VNodeData(
    attrs: Option<map<string, string>>,
    slot: Option<string>,
    ref: Option<string>,
    refInFor: bool,
    directives: Option<seq<Directive>>,
    hooks: set<HookName>,
    isAttr: Option<string>,      // `data.is`
    pre: bool,
    scopedDefault: Option<nat>,
    observed: bool)

  /** `data = {}` */
  const emptyData := VNodeData(None, None, None, false, None, {}, None, false, None, false)

  /** The state of an async component factory; `error` and `resolved` are
      the factory's own flags. */
  datatype AsyncFactory = AsyncFactory(id: nat, error: bool, resolved: bool)

  /** `vnode.children`: absent or an array.  (A wrapper of its own, so that
      recursion over a vnode's children terminates structurally.) */
  datatype Children = NoChildren | Kids(list: seq<VNode>)

  datatype VNode = VNode(
    tag: Option<string>,
    data: Option<VNodeData>,
    children: Children,
    text: Option<string>,
    elm: Option<Elm>,
    ns: Option<string>,
    context: Option<nat>,
    fnContext: Option<nat>,
    key: Option<Key>,
    componentInstance: Option<nat>,
    isStatic: bool,
    isComment: bool,
    isCloned: bool,
    isOnce: bool,
    asyncFactory: Option<AsyncFactory>,
    isAsyncPlaceholder: bool)

  /** `new VNode(tag, data, children, text)` with every other field at its default. */
  function MkVNode(tag: Option<string>, data: Option<VNodeData>, children: Children, text: Option<string>): VNode {
    VNode(tag, data, children, text, None, None, None, None,
          None, None, false, false, false, false, None, false)
  }

  /** `createEmptyVNode()`: a comment node with empty text. */
  function EmptyVNode(): (r: VNode)
    ensures r.isComment && r.text == Some("") && r.tag.None?
  {
    MkVNode(None, None, NoChildren, Some("")).(isComment := true)
  }

  /** `emptyNode` of the patcher: `new VNode('', {}, [])`. */
  const emptyNode := MkVNode(Some(""), Some(emptyData), Kids([]), None)

  function ChildList(v: VNode): seq<VNode> {
    if v.children.Kids? then v.children.list else []
  }

  /** Height of a vnode tree; a leaf has height 1. */
  function Height(v: VNode): nat
    decreases v, 1
  {
    match v.children
    case NoChildren => 1
    case Kids(cs) => 1 + MaxHeight(cs)
  }

  function MaxHeight(cs: seq<VNode>): nat
    decreases cs, 0
  {
    if cs == [] then 0
    else var h := Height(cs[|cs| - 1]); var m := MaxHeight(cs[..|cs| - 1]); if h > m then h else m
  }

  lemma {:induction false} MaxHeightBound(cs: seq<VNode>, i: int)
    requires 0 <= i < |cs|
    ensures Height(cs[i]) <= MaxHeight(cs)
    decreases |cs|
  {
    if i < |cs| - 1 {
      MaxHeightBound(cs[..|cs| - 1], i);
      assert cs[..|cs| - 1][i] == cs[i];
    }
  }

  /** Every child is strictly lower than its parent. */
  lemma ChildLower(v: VNode, i: int)
    requires v.children.Kids? && 0 <= i < |v.children.list|
    ensures Height(v.children.list[i]) < Height(v)
  {
    MaxHeightBound(v.children.list, i);
  }

  /** The vnode as the render function produced it: the fields the patcher
      writes are reset everywhere in the tree. */
  function Erase(v: VNode): VNode
    decreases v, 1
  {
    v.(elm := None, componentInstance := None, isAsyncPlaceholder := false,
       children := EraseChildren(v.children))
  }

  function EraseChildren(c: Children): Children
    decreases c, 0
  {
    match c
    case NoChildren => NoChildren
    case Kids(cs) => Kids(EraseList(cs))
  }

  function EraseList(cs: seq<VNode>): (r: seq<VNode>)
    ensures |r| == |cs|
    decreases cs, 0
  {
    if cs == [] then [] else EraseList(cs[..|cs| - 1]) + [Erase(cs[|cs| - 1])]
  }

  lemma {:induction false} EraseListIndex(cs: seq<VNode>, i: int)
    requires 0 <= i < |cs|
    ensures EraseList(cs)[i] == Erase(cs[i])
    decreases |cs|
  {
    if i < |cs| - 1 {
      EraseListIndex(cs[..|cs| - 1], i);
      assert cs[..|cs| - 1][i] == cs[i];
    }
  }

  /** Two child lists with the same length and pointwise-equal erasures
      erase to the same list. */
  lemma {:induction false} EraseListPointwise(a: seq<VNode>, b: seq<VNode>)
    requires |a| == |b|
    requires forall i :: 0 <= i < |a| ==> Erase(a[i]) == Erase(b[i])
    ensures EraseList(a) == EraseList(b)
    decreases |a|
  {
    if a != [] {
      EraseListPointwise(a[..|a| - 1], b[..|b| - 1]);
    }
  }

  /** Height depends only on the shape of the tree. */
  lemma {:induction false} HeightErase(v: VNode)
    ensures Height(Erase(v)) == Height(v)
    decreases v, 1
  {
    match v.children
    case NoChildren =>
    case Kids(cs) => MaxHeightErase(cs);
  }

  lemma {:induction false} MaxHeightErase(cs: seq<VNode>)
    ensures MaxHeight(EraseList(cs)) == MaxHeight(cs)
    decreases cs, 0
  {
    if cs != [] {
      var last := |cs| - 1;
      assert EraseList(cs)[..last] == EraseList(cs[..last]);
      assert EraseList(cs)[last] == Erase(cs[last]);
      MaxHeightErase(cs[..last]);
      HeightErase(cs[last]);
    }
  }

  /** The `key` as a property name: JavaScript object keys are strings, so
      the number 1 and the string "1" name the same table entry. */
  function KeyName(k: Key): string {
    match k
    case StrKey(s) => s
    case NumKey(n) => if n < 0 then "-" + Digits(-n) else Digits(n)
  }
}
