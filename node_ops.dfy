/** The rendering backend the patcher is parameterised over (`nodeOps`),
    modelled as an element store: every element has an ordered list of
    children and at most one parent.  Calls whose element arguments are
    absent, or which the DOM would reject (a reference node that is not a
    child, removing a node that is not a child), leave the store unchanged. */
module NodeOps {
  import opened Common
  import opened VNodes

  /** `s` without `x`. */
  function Without(s: seq<Elm>, x: Elm): (r: seq<Elm>)
    ensures forall y :: y in r <==> y in s && y != x
    ensures |r| <= |s|
  {
    if s == [] then [] else (if s[0] == x then [] else [s[0]]) + Without(s[1..], x)
  }

  /** `s` with `x` inserted before `ref` when `ref` occurs in `s`, else appended. */
  function Place(s: seq<Elm>, x: Elm, ref: Option<Elm>): (r: seq<Elm>)
    ensures forall y :: y in r <==> y in s || y == x
  {
    if ref.Some? && ref.value in s then
      var i := IndexOf(s, ref.value); s[..i] + [x] + s[i..]
    else s + [x]
  }

  /** `s` after `Place` of each element of `xs` in turn, before the same
      `ref`. */
  function PlaceAll(s: seq<Elm>, xs: seq<Elm>, ref: Option<Elm>): seq<Elm>
  {
    if xs == [] then s else Place(PlaceAll(s, xs[..|xs| - 1], ref), xs[|xs| - 1], ref)
  }

  /** The first occurrence of `x` is the one at `j` when none comes before. */
  lemma IndexOfAt(s: seq<Elm>, x: Elm, j: int)
    requires 0 <= j < |s| && s[j] == x && x !in s[..j]
    ensures IndexOf(s, x) == j
  {
    var r := IndexOf(s, x);
    forall k | 0 <= k < j ensures s[k] != x { assert s[..j][k] == s[k]; }
    forall k | 0 <= k < r ensures s[k] != x { assert s[..r][k] == s[k]; }
  }

  lemma Regroup(a: seq<Elm>, b: seq<Elm>, c: seq<Elm>, d: seq<Elm>)
    ensures (a + b) + c + d == a + (b + c) + d
  {
  }

  /** Placing before `ref`, which heads `post`, puts `x` between `pre` and `post`. */
  lemma PlaceBefore(pre: seq<Elm>, post: seq<Elm>, x: Elm, ref: Elm)
    requires post != [] && post[0] == ref && ref !in pre
    ensures Place(pre + post, x, Some(ref)) == pre + [x] + post
  {
    var t := pre + post;
    assert t[..|pre|] == pre && t[|pre|..] == post;
    IndexOfAt(t, ref, |pre|);
  }

  /** A run of elements placed one after the other before `ref`, which
      heads `post`, ends up in order between `pre` and `post`. */
  lemma {:induction false} PlaceAllBefore(pre: seq<Elm>, post: seq<Elm>, xs: seq<Elm>, ref: Elm)
    requires post != [] && post[0] == ref && ref !in pre && ref !in xs
    ensures PlaceAll(pre + post, xs, Some(ref)) == pre + xs + post
    decreases |xs|
  {
    if xs != [] {
      var init, x := xs[..|xs| - 1], xs[|xs| - 1];
      assert xs == init + [x];
      PlaceAllBefore(pre, post, init, ref);
      PlaceBefore(pre + init, post, x, ref);
      Regroup(pre, init, [x], post);
    }
  }

  /** Without `ref` in the list, a run of placed elements is appended. */
  lemma {:induction false} PlaceAllAppend(s: seq<Elm>, xs: seq<Elm>, ref: Option<Elm>)
    requires ref.Some? ==> ref.value !in s && ref.value !in xs
    ensures PlaceAll(s, xs, ref) == s + xs
    decreases |xs|
  {
    if xs != [] {
      var init, x := xs[..|xs| - 1], xs[|xs| - 1];
      assert xs == init + [x];
      PlaceAllAppend(s, init, ref);
    }
  }

  /** Placing a run before `ref` puts it, in order, right before `ref` when
      `ref` is in the list, and after the last element otherwise. */
  lemma PlaceAllRun(s: seq<Elm>, xs: seq<Elm>, ref: Option<Elm>)
    requires ref.Some? ==> ref.value !in xs
    ensures ref.Some? && ref.value in s ==>
              var i := IndexOf(s, ref.value); PlaceAll(s, xs, ref) == s[..i] + xs + s[i..]
    ensures !(ref.Some? && ref.value in s) ==> PlaceAll(s, xs, ref) == s + xs
  {
    if ref.Some? && ref.value in s {
      var i := IndexOf(s, ref.value);
      assert s == s[..i] + s[i..];
      PlaceAllBefore(s[..i], s[i..], xs, ref.value);
    } else {
      PlaceAllAppend(s, xs, ref);
    }
  }

  predicate NoDup(s: seq<Elm>) {
    forall i, j :: 0 <= i < j < |s| ==> s[i] != s[j]
  }

  lemma {:induction false} WithoutNoDup(s: seq<Elm>, x: Elm)
    requires NoDup(s)
    ensures NoDup(Without(s, x))
  {
    if s != [] {
      WithoutNoDup(s[1..], x);
      var r := Without(s, x);
      var t := Without(s[1..], x);
      if s[0] != x {
        assert r == [s[0]] + t;
        assert s[0] !in t by {
          forall k | 0 <= k < |s[1..]| ensures s[1..][k] != s[0] { assert s[1..][k] == s[k + 1]; }
        }
        forall i, j | 0 <= i < j < |r| ensures r[i] != r[j] {
          if i == 0 { assert r[j] == t[j - 1]; assert t[j - 1] in t; }
          else { assert r[i] == t[i - 1] && r[j] == t[j - 1]; }
        }
      } else {
        assert r == t;
      }
    }
  }

  lemma PlaceNoDup(s: seq<Elm>, x: Elm, ref: Option<Elm>)
    requires NoDup(s) && x !in s
    ensures NoDup(Place(s, x, ref))
  {
    var r := Place(s, x, ref);
    if ref.Some? && ref.value in s {
      var i := IndexOf(s, ref.value);
      assert forall t :: 0 <= t < |r| ==> r[t] == (if t < i then s[t] else if t == i then x else s[t - 1]);
      forall a, b | 0 <= a < b < |r| ensures r[a] != r[b] {
        if b == i { assert r[a] == s[a]; }
        else if a == i { assert r[b] == s[b - 1]; }
      }
    } else {
      forall a, b | 0 <= a < b < |r| ensures r[a] != r[b] {
        if b == |s| { assert r[a] == s[a]; }
      }
    }
  }

  /** The children map after `e` has been taken out of its parent's list. */
  function Detach(kids: map<Elm, seq<Elm>>, parentOf: map<Elm, Elm>, e: Elm): map<Elm, seq<Elm>> {
    if e in parentOf && parentOf[e] in kids then kids[parentOf[e] := Without(kids[parentOf[e]], e)]
    else kids
  }

  /** Children and parent links agree, child lists have no repetitions, and
      every element known to the store was allocated by it. */
  ghost predicate Linked(kids: map<Elm, seq<Elm>>, parentOf: map<Elm, Elm>, nextId: Elm) {
    && (forall e :: e in kids ==> e < nextId)
    && (forall p, c :: p in kids && c in kids[p] ==> c in kids && c in parentOf && parentOf[c] == p)
    && (forall p :: p in kids ==> NoDup(kids[p]))
    && (forall c :: c in parentOf ==> c in kids && parentOf[c] in kids && c in kids[parentOf[c]])
  }

  /** Facts about the children map once `x` has been detached. */
  lemma DetachFacts(kids: map<Elm, seq<Elm>>, parentOf: map<Elm, Elm>, n: Elm, x: Elm)
    requires Linked(kids, parentOf, n)
    ensures var k := Detach(kids, parentOf, x);
            && k.Keys == kids.Keys
            && (forall q :: q in k ==> NoDup(k[q]) && x !in k[q])
            && (forall q, c :: q in k && c in k[q] ==> c in kids[q])
            && (forall c :: c in parentOf && c != x ==> c in k[parentOf[c]])
  {
    var k := Detach(kids, parentOf, x);
    forall q | q in k ensures NoDup(k[q]) && x !in k[q] {
      if x in parentOf && q == parentOf[x] { WithoutNoDup(kids[q], x); }
      else { assert x !in kids[q]; }
    }
  }

  /** Moving `x` under `p`, before `r`, keeps the links consistent. */
  lemma InsertLinked(kids: map<Elm, seq<Elm>>, parentOf: map<Elm, Elm>, n: Elm, p: Elm, x: Elm, r: Option<Elm>)
    requires Linked(kids, parentOf, n)
    requires p in kids && x in kids && p != x
    ensures var k := Detach(kids, parentOf, x);
            Linked(k[p := Place(k[p], x, r)], parentOf[x := p], n)
  {
    var k := Detach(kids, parentOf, x);
    DetachFacts(kids, parentOf, n, x);
    PlaceNoDup(k[p], x, r);
    InsertChildLinks(kids, parentOf, n, p, x, r);
    InsertParentLinks(kids, parentOf, n, p, x, r);
  }

  /** After the move every listed child points back at its list's owner. */
  lemma InsertChildLinks(kids: map<Elm, seq<Elm>>, parentOf: map<Elm, Elm>, n: Elm, p: Elm, x: Elm, r: Option<Elm>)
    requires Linked(kids, parentOf, n)
    requires p in kids && x in kids && p != x
    ensures var k := Detach(kids, parentOf, x); var k2 := k[p := Place(k[p], x, r)];
      forall q, c :: q in k2 && c in k2[q] ==> c in k2 && c in parentOf[x := p] && parentOf[x := p][c] == q
  {
    var k := Detach(kids, parentOf, x);
    DetachFacts(kids, parentOf, n, x);
    var k2 := k[p := Place(k[p], x, r)];
    var par2 := parentOf[x := p];
    forall q, c | q in k2 && c in k2[q] ensures c in k2 && c in par2 && par2[c] == q {
      if c != x {
        if q == p { assert c in k[p]; }
        assert c in kids[q];
      }
    }
  }

  /** After the move every parent link is matched by a child list entry. */
  lemma InsertParentLinks(kids: map<Elm, seq<Elm>>, parentOf: map<Elm, Elm>, n: Elm, p: Elm, x: Elm, r: Option<Elm>)
    requires Linked(kids, parentOf, n)
    requires p in kids && x in kids && p != x
    ensures var k := Detach(kids, parentOf, x); var k2 := k[p := Place(k[p], x, r)]; var par2 := parentOf[x := p];
      forall c :: c in par2 ==> c in k2 && par2[c] in k2 && c in k2[par2[c]]
  {
    var k := Detach(kids, parentOf, x);
    DetachFacts(kids, parentOf, n, x);
    var k2 := k[p := Place(k[p], x, r)];
    var par2 := parentOf[x := p];
    forall c | c in par2 ensures c in k2 && par2[c] in k2 && c in k2[par2[c]] {
      if c != x {
        assert c in k[parentOf[c]];
      }
    }
  }

  /** Turning `e` into a leaf keeps the links consistent. */
  lemma ClearLinked(kids: map<Elm, seq<Elm>>, parentOf: map<Elm, Elm>, n: Elm, e: Elm)
    requires Linked(kids, parentOf, n) && e in kids
    ensures Linked(kids[e := []], map c | c in parentOf && parentOf[c] != e :: parentOf[c], n)
  {
  }

  /** Taking `x` out of `p`'s children keeps the links consistent. */
  lemma RemoveLinked(kids: map<Elm, seq<Elm>>, parentOf: map<Elm, Elm>, n: Elm, p: Elm, x: Elm)
    requires Linked(kids, parentOf, n) && p in kids && x in kids[p]
    ensures Linked(kids[p := Without(kids[p], x)], parentOf - {x}, n)
  {
    WithoutNoDup(kids[p], x);
    var k2, par2 := kids[p := Without(kids[p], x)], parentOf - {x};
    forall q, c | q in k2 && c in k2[q] ensures c in k2 && c in par2 && par2[c] == q {
      assert c in kids[q] && parentOf[c] == q;
      assert c != x by { assert parentOf[x] == p; }
    }
    forall c | c in par2 ensures c in k2 && par2[c] in k2 && c in k2[par2[c]] {
      assert c != x && c in kids[parentOf[c]];
    }
  }

  /** Every element below `n` keeps its parent link, or its lack of one. */
  ghost predicate LinksKept(before: map<Elm, Elm>, after: map<Elm, Elm>, n: Elm) {
    forall x :: 0 <= x < n ==> (x in after <==> x in before) && (x in before ==> after[x] == before[x])
  }

  lemma LinksKeptTrans(a: map<Elm, Elm>, b: map<Elm, Elm>, c: map<Elm, Elm>, n1: Elm, n2: Elm, n: Elm)
    requires LinksKept(a, b, n1) && LinksKept(b, c, n2) && n <= n1 && n <= n2
    ensures LinksKept(a, c, n)
  {
  }

  /** Linking an element created after the snapshot keeps the links below it. */
  lemma LinksKeptNew(a: map<Elm, Elm>, e: Elm, p: Elm, n: Elm)
    requires e >= n
    ensures LinksKept(a, a[e := p], n)
  {
  }

  /** Every element of `before` other than `except` keeps its child list. */
  ghost predicate KidsKept(before: map<Elm, seq<Elm>>, after: map<Elm, seq<Elm>>, except: Option<Elm>) {
    forall x :: x in before && Some(x) != except ==> x in after && after[x] == before[x]
  }

  /** Only elements of `gone` lost their parent; no link was added or changed. */
  ghost predicate DetachedOnly(before: map<Elm, Elm>, after: map<Elm, Elm>, gone: set<Elm>) {
    && (forall x :: x in after ==> x in before && after[x] == before[x])
    && (forall x :: x in before && x !in gone ==> x in after)
  }

  /** A child with a parent link sits in its parent's list. */
  lemma ChildListed(kids: map<Elm, seq<Elm>>, parentOf: map<Elm, Elm>, n: Elm, c: Elm)
    requires Linked(kids, parentOf, n) && c in parentOf
    ensures parentOf[c] in kids && c in kids[parentOf[c]] && c < n && parentOf[c] < n
  {
  }

  class ElementStore {
    var kids: map<Elm, seq<Elm>>
    var parentOf: map<Elm, Elm>
    var tagOf: map<Elm, string>
    var content: map<Elm, string>
    var nextId: Elm

    ghost predicate Valid()
      reads this
    {
      Linked(kids, parentOf, nextId)
    }

    constructor ()
      ensures Valid() && kids == map[] && parentOf == map[] && nextId == 0
    {
      kids, parentOf, tagOf, content, nextId := map[], map[], map[], map[], 0;
    }

    /** `nodeOps.parentNode` */
    function ParentNode(e: Option<Elm>): (r: Option<Elm>)
      reads this
      ensures r.Some? <==> e.Some? && e.value in parentOf
      ensures r.Some? ==> r.value == parentOf[e.value]
    {
      if e.Some? && e.value in parentOf then Some(parentOf[e.value]) else None
    }

    /** `nodeOps.nextSibling` */
    function NextSibling(e: Option<Elm>): (r: Option<Elm>)
      reads this
      ensures r.Some? ==> e.Some? && e.value in parentOf && parentOf[e.value] in kids
      ensures r.Some? ==> var s := kids[parentOf[e.value]];
                          exists i :: 0 <= i < |s| - 1 && s[i] == e.value && s[i + 1] == r.value
      ensures r.None? && e.Some? && e.value in parentOf && parentOf[e.value] in kids ==>
                var s := kids[parentOf[e.value]];
                forall i :: 0 <= i < |s| - 1 ==> s[i] != e.value
    {
      if e.Some? && e.value in parentOf && parentOf[e.value] in kids then
        var s := kids[parentOf[e.value]];
        var i := IndexOf(s, e.value);
        if 0 <= i && i + 1 < |s| then Some(s[i + 1]) else None
      else None
    }

    /** `nodeOps.tagName`; elements that are not tagged report "". */
    function TagName(e: Option<Elm>): string
      reads this
    {
      if e.Some? && e.value in tagOf then tagOf[e.value] else ""
    }

    method CreateElement(tag: string) returns (e: Elm)
      requires Valid()
      modifies this
      ensures Valid()
      ensures e == old(nextId) && nextId == e + 1
      ensures kids == old(kids)[e := []] && parentOf == old(parentOf)
      ensures tagOf == old(tagOf)[e := tag] && content == old(content)
    {
      e := nextId;
      kids := kids[e := []];
      tagOf := tagOf[e := tag];
      nextId := nextId + 1;
    }

    /** `nodeOps.createTextNode` and `nodeOps.createComment`. */
    method CreateTextNode(text: string) returns (e: Elm)
      requires Valid()
      modifies this
      ensures Valid()
      ensures e == old(nextId) && nextId == e + 1
      ensures kids == old(kids)[e := []] && parentOf == old(parentOf)
      ensures tagOf == old(tagOf) && content == old(content)[e := text]
    {
      e := nextId;
      kids := kids[e := []];
      content := content[e := text];
      nextId := nextId + 1;
    }

    /** `nodeOps.insertBefore(parent, e, ref)`: `e` leaves its current parent
        and is placed before `ref`, or last when `ref` is null.  Inserting a
        node before itself means before its next sibling, as in the DOM. */
    method InsertBefore(parent: Option<Elm>, e: Option<Elm>, ref: Option<Elm>)
      requires Valid()
      modifies this
      ensures Valid()
      ensures nextId == old(nextId) && tagOf == old(tagOf) && content == old(content)
      ensures kids.Keys == old(kids.Keys)
      ensures parentOf == old(parentOf) || (parent.Some? && e.Some? && parentOf == old(parentOf)[e.value := parent.value])
      ensures var r := if ref == e then old(NextSibling(e)) else ref;
              if parent.Some? && e.Some? && parent.value in old(kids) && e.value in old(kids) && parent.value != e.value
                 && (r.None? || r.value in old(kids)[parent.value])
              then
                var k := Detach(old(kids), old(parentOf), e.value);
                kids == k[parent.value := Place(k[parent.value], e.value, r)]
                && parentOf == old(parentOf)[e.value := parent.value]
              else kids == old(kids) && parentOf == old(parentOf)
    {
      var r := if ref == e then NextSibling(e) else ref;
      if parent.Some? && e.Some? && parent.value in kids && e.value in kids && parent.value != e.value
         && (r.None? || r.value in kids[parent.value]) {
        var p, x := parent.value, e.value;
        var k := Detach(kids, parentOf, x);
        InsertLinked(kids, parentOf, nextId, p, x, r);
        kids := k[p := Place(k[p], x, r)];
        parentOf := parentOf[x := p];
      }
    }

    /** `nodeOps.appendChild(parent, e)` */
    method AppendChild(parent: Option<Elm>, e: Option<Elm>)
      requires Valid()
      modifies this
      ensures Valid()
      ensures nextId == old(nextId) && tagOf == old(tagOf) && content == old(content)
      ensures kids.Keys == old(kids.Keys)
      ensures parentOf == old(parentOf) || (parent.Some? && e.Some? && parentOf == old(parentOf)[e.value := parent.value])
      ensures if parent.Some? && e.Some? && parent.value in old(kids) && e.value in old(kids) && parent.value != e.value
              then
                var k := Detach(old(kids), old(parentOf), e.value);
                kids == k[parent.value := k[parent.value] + [e.value]]
                && parentOf == old(parentOf)[e.value := parent.value]
              else kids == old(kids) && parentOf == old(parentOf)
    {
      InsertBefore(parent, e, None);
    }

    /** `nodeOps.removeChild(parent, e)` */
    method RemoveChild(parent: Option<Elm>, e: Option<Elm>)
      requires Valid()
      modifies this
      ensures Valid()
      ensures nextId == old(nextId) && tagOf == old(tagOf) && content == old(content)
      ensures if parent.Some? && e.Some? && parent.value in old(kids) && e.value in old(kids)[parent.value]
              then kids == old(kids)[parent.value := Without(old(kids)[parent.value], e.value)]
                   && parentOf == old(parentOf) - {e.value}
              else kids == old(kids) && parentOf == old(parentOf)
    {
      if parent.Some? && e.Some? && parent.value in kids && e.value in kids[parent.value] {
        var p, x := parent.value, e.value;
        RemoveLinked(kids, parentOf, nextId, p, x);
        kids := kids[p := Without(kids[p], x)];
        parentOf := parentOf - {x};
      }
    }

    /** `nodeOps.setTextContent(e, text)`: the children of `e` are dropped and
        its text becomes `text`. */
    method SetTextContent(e: Option<Elm>, text: string)
      requires Valid()
      modifies this
      ensures Valid()
      ensures nextId == old(nextId) && tagOf == old(tagOf)
      ensures if e.Some? && e.value in old(kids)
              then kids == old(kids)[e.value := []]
                   && parentOf == (map c | c in old(parentOf) && old(parentOf)[c] != e.value :: old(parentOf)[c])
                   && content == old(content)[e.value := text]
              else kids == old(kids) && parentOf == old(parentOf) && content == old(content)
    {
      if e.Some? && e.value in kids {
        var x := e.value;
        ClearLinked(kids, parentOf, nextId, x);
        parentOf := map c | c in parentOf && parentOf[c] != x :: parentOf[c];
        kids := kids[x := []];
        content := content[x := text];
      }
    }
  }

  /** A parent is a known element, and the next sibling shares the parent. */
  lemma SiblingFacts(store: ElementStore, e: Option<Elm>)
    requires store.Valid()
    ensures store.ParentNode(e).Some? ==> store.ParentNode(e).value in store.kids && e.value < store.nextId
    ensures store.NextSibling(e).Some? ==> store.ParentNode(e).Some? && store.ParentNode(store.NextSibling(e)) == store.ParentNode(e)
  {
    if store.ParentNode(e).Some? {
      ChildListed(store.kids, store.parentOf, store.nextId, e.value);
    }
    var n := store.NextSibling(e);
    if n.Some? {
      var s := store.kids[store.parentOf[e.value]];
      assert n.value in s;
    }
  }
}
