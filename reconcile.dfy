/** The bookkeeping behind `updateChildren` (src/core/vdom/patch.js:481-575),
    stated on values.  `partner` maps each new child that took over an old
    element to that old child's index; `created` holds the new children that
    got a fresh element; `removed` the old children whose elements were
    dropped.  The loop of the patcher keeps `Window` true, one lemma per
    branch of the loop, and the final lemmas turn it into `Reconciled`. */
module Reconcile {
  import opened Common
  import opened VNodes
  import opened PatchKeys

  /** `partner` (new index to old index) and `owner` (old index to new
      index) are mutually inverse.  A pair of maps rather than one, so that
      "old child `i` was reused" is simply `i in owner`. */
  ghost predicate Inverse(partner: map<int, int>, owner: map<int, int>) {
    && (forall j :: j in partner ==> partner[j] in owner && owner[partner[j]] == j)
    && (forall i :: i in owner ==> owner[i] in partner && partner[owner[i]] == i)
  }

  /** The outcome the source aims at: every new child is matched with an old
      one it may be patched from (and then owns that old child's element) or
      is freshly created, never both; every old child is reused by exactly
      one new child or removed, never both. */
  ghost predicate Reconciled(oldKids: seq<VNode>, new0: seq<VNode>, newS: seq<VNode>,
                             partner: map<int, int>, owner: map<int, int>, created: set<int>, removed: set<int>, n0: nat)
  {
    && |newS| == |new0|
    && Inverse(partner, owner)
    && (forall j :: 0 <= j < |new0| ==> (j in partner) != (j in created))
    && (forall j :: j in partner || j in created ==> 0 <= j < |new0|)
    && (forall j :: j in partner ==>
          0 <= partner[j] < |oldKids| && SameVnode(oldKids[partner[j]], new0[j]) && newS[j].elm == oldKids[partner[j]].elm)
    && (forall j :: j in created ==> newS[j].elm.Some? && newS[j].elm.value >= n0)
    && (forall i :: 0 <= i < |oldKids| ==> (i in owner) != (i in removed))
    && (forall i :: i in owner || i in removed ==> 0 <= i < |oldKids|)
    && (forall j :: 0 <= j < |new0| ==> Erase(newS[j]) == Erase(new0[j]))
  }

  /** The old side between two iterations: slots only ever get cleared, a
      cleared slot or one outside the window `[os, oe]` has been reused, and
      while `clean` a slot inside the window has been reused only if it was
      cleared. */
  ghost predicate OldSide(oldKids: seq<VNode>, oldS: seq<Option<VNode>>, os: int, oe: int, owner: map<int, int>, clean: bool) {
    && |oldS| == |oldKids|
    && 0 <= os <= |oldKids| && -1 <= oe < |oldKids| && os <= oe + 1
    && (forall i :: 0 <= i < |oldS| ==> oldS[i] == None || oldS[i] == Some(oldKids[i]))
    && (forall i :: 0 <= i < |oldS| && oldS[i] == None ==> i in owner)
    && (forall i :: 0 <= i < |oldS| && (i < os || i > oe) ==> i in owner)
    && (forall i :: i in owner ==> 0 <= i < |oldS|)
    && (clean ==> forall i :: os <= i <= oe && i in owner ==> oldS[i] == None)
  }

  /** The new side: outside the window `[ns, ne]` every child is matched or
      created, inside it every child is still as rendered. */
  ghost predicate NewSide(new0: seq<VNode>, newS: seq<VNode>, ns: int, ne: int, partner: map<int, int>, created: set<int>, n0: nat) {
    && |newS| == |new0|
    && 0 <= ns <= |new0| && -1 <= ne < |new0| && ns <= ne + 1
    && Settled(|new0|, ns, ne, partner, created)
    && (forall j :: j in created ==> 0 <= j < |newS| && newS[j].elm.Some? && newS[j].elm.value >= n0)
    && SameRender(new0, newS)
    && (forall j :: ns <= j <= ne ==> newS[j] == new0[j])
  }

  /** Indices outside `[ns, ne]` are matched or created, never both; those inside are neither. */
  ghost predicate Settled(n: int, ns: int, ne: int, partner: map<int, int>, created: set<int>) {
    && (forall j :: j in partner ==> 0 <= j < n && (j < ns || j > ne) && j !in created)
    && (forall j :: j in created ==> 0 <= j < n && (j < ns || j > ne))
    && (forall j :: 0 <= j < n && (j < ns || j > ne) ==> j in partner || j in created)
  }

  /** Pointwise, `b` is `a` with only patcher-written fields changed. */
  ghost predicate SameRender(a: seq<VNode>, b: seq<VNode>) {
    |a| == |b| && forall j :: 0 <= j < |a| ==> Erase(b[j]) == Erase(a[j])
  }

  lemma SameRenderUpdate(a: seq<VNode>, b: seq<VNode>, j: int, r: VNode)
    requires SameRender(a, b) && 0 <= j < |b| && Erase(r) == Erase(b[j])
    ensures SameRender(a, b[j := r])
  {
    forall t | 0 <= t < |a| ensures Erase(b[j := r][t]) == Erase(a[t]) {
      if t != j { assert b[j := r][t] == b[t]; }
    }
  }

  /** The matches: each is allowed by `sameVnode` and hands over the old element. */
  ghost predicate Links(oldKids: seq<VNode>, new0: seq<VNode>, newS: seq<VNode>, partner: map<int, int>, owner: map<int, int>, clean: bool)
    requires |newS| == |new0|
  {
    && (forall j :: j in partner ==>
          && 0 <= j < |new0| && 0 <= partner[j] < |oldKids|
          && SameVnode(oldKids[partner[j]], new0[j]) && newS[j].elm == oldKids[partner[j]].elm)
    && (forall j :: j in partner ==> partner[j] in owner)
    && (forall i :: i in owner ==> owner[i] in partner && partner[owner[i]] == i)
    && (clean ==> Inverse(partner, owner))
  }

  /** The state between two iterations of the loop.  `clean` records that no
      old child has been reused twice; it holds while the new keys are unique. */
  ghost predicate Window(oldKids: seq<VNode>, new0: seq<VNode>, oldS: seq<Option<VNode>>, newS: seq<VNode>,
                         os: int, oe: int, ns: int, ne: int,
                         partner: map<int, int>, owner: map<int, int>, created: set<int>, clean: bool, n0: nat)
  {
    && OldSide(oldKids, oldS, os, oe, owner, clean)
    && NewSide(new0, newS, ns, ne, partner, created, n0)
    && Links(oldKids, new0, newS, partner, owner, clean)
  }

  /** The integers from `lo` to `hi`. */
  function Span(lo: int, hi: int): (r: set<int>)
    ensures forall j :: j in r <==> lo <= j <= hi
    decreases hi - lo
  {
    if lo > hi then {} else {lo} + Span(lo + 1, hi)
  }

  /** The state before the first iteration. */
  lemma Start(oldKids: seq<VNode>, new0: seq<VNode>, n0: nat)
    ensures Window(oldKids, new0, seq(|oldKids|, i requires 0 <= i < |oldKids| => Some(oldKids[i])), new0,
                   0, |oldKids| - 1, 0, |new0| - 1, map[], map[], {}, true, n0)
  {
  }

  /** An old slot at either end of the window that was already reused is skipped. */
  lemma SkipStart(oldKids: seq<VNode>, new0: seq<VNode>, oldS: seq<Option<VNode>>, newS: seq<VNode>,
                  os: int, oe: int, ns: int, ne: int, partner: map<int, int>, owner: map<int, int>, created: set<int>, clean: bool, n0: nat)
    requires Window(oldKids, new0, oldS, newS, os, oe, ns, ne, partner, owner, created, clean, n0)
    requires os <= oe && oldS[os].None?
    ensures Window(oldKids, new0, oldS, newS, os + 1, oe, ns, ne, partner, owner, created, clean, n0)
  {
  }

  lemma SkipEnd(oldKids: seq<VNode>, new0: seq<VNode>, oldS: seq<Option<VNode>>, newS: seq<VNode>,
                os: int, oe: int, ns: int, ne: int, partner: map<int, int>, owner: map<int, int>, created: set<int>, clean: bool, n0: nat)
    requires Window(oldKids, new0, oldS, newS, os, oe, ns, ne, partner, owner, created, clean, n0)
    requires os <= oe && oldS[oe].None?
    ensures Window(oldKids, new0, oldS, newS, os, oe - 1, ns, ne, partner, owner, created, clean, n0)
  {
  }

  /** Recording the match of new child `j` with old slot `i` keeps the links,
      and keeps them inverse when `i` was not reused before. */
  lemma Link(oldKids: seq<VNode>, new0: seq<VNode>, newS: seq<VNode>, partner: map<int, int>, owner: map<int, int>, clean: bool,
             i: int, j: int, r: VNode)
    requires |newS| == |new0| && Links(oldKids, new0, newS, partner, owner, clean)
    requires 0 <= i < |oldKids| && 0 <= j < |new0| && j !in partner
    requires SameVnode(oldKids[i], new0[j]) && r.elm == oldKids[i].elm
    ensures Links(oldKids, new0, newS[j := r], partner[j := i], owner[i := j], clean && i !in owner)
  {
  }

  /** Links only look at matched new children. */
  lemma LinksFrame(oldKids: seq<VNode>, new0: seq<VNode>, newS: seq<VNode>, newS2: seq<VNode>,
                   partner: map<int, int>, owner: map<int, int>, clean: bool)
    requires |newS| == |new0| == |newS2| && Links(oldKids, new0, newS, partner, owner, clean)
    requires forall j :: j in partner ==> newS2[j] == newS[j]
    ensures Links(oldKids, new0, newS2, partner, owner, clean)
  {
  }

  lemma SettledStep(n: int, ns: int, ne: int, partner: map<int, int>, created: set<int>,
                    j: int, ns2: int, ne2: int, matchTo: Option<int>)
    requires Settled(n, ns, ne, partner, created) && 0 <= ns <= ne < n
    requires (j == ns && ns2 == ns + 1 && ne2 == ne) || (j == ne && ns2 == ns && ne2 == ne - 1)
    ensures Settled(n, ns2, ne2, if matchTo.Some? then partner[j := matchTo.value] else partner,
                    if matchTo.Some? then created else created + {j})
  {
  }

  /** New child `j`, at one end of the new window, is settled by `r`. */
  lemma NewSideStep(new0: seq<VNode>, newS: seq<VNode>, ns: int, ne: int, partner: map<int, int>, created: set<int>, n0: nat,
                    j: int, ns2: int, ne2: int, r: VNode, matchTo: Option<int>)
    requires NewSide(new0, newS, ns, ne, partner, created, n0) && ns <= ne
    requires (j == ns && ns2 == ns + 1 && ne2 == ne) || (j == ne && ns2 == ns && ne2 == ne - 1)
    requires Erase(r) == Erase(newS[j]) && (matchTo.None? ==> r.elm.Some? && r.elm.value >= n0)
    ensures NewSide(new0, newS[j := r], ns2, ne2,
                    if matchTo.Some? then partner[j := matchTo.value] else partner,
                    if matchTo.Some? then created else created + {j}, n0)
  {
    SameRenderUpdate(new0, newS, j, r);
    SettledStep(|new0|, ns, ne, partner, created, j, ns2, ne2, matchTo);
    var newS2 := newS[j := r];
    var created2 := if matchTo.Some? then created else created + {j};
    forall t | ns2 <= t <= ne2 ensures newS2[t] == new0[t] {
      assert t != j;
    }
    forall t | t in created2 ensures 0 <= t < |newS2| && newS2[t].elm.Some? && newS2[t].elm.value >= n0 {
      if t != j { assert t in created; assert newS2[t] == newS[t]; }
    }
  }

  /** One of the four end-to-end matches: old slot `i` (an end of the old
      window) is patched into new child `j` (an end of the new window), and
      both windows shrink at those ends. */
  lemma EndMatch(oldKids: seq<VNode>, new0: seq<VNode>, oldS: seq<Option<VNode>>, newS: seq<VNode>,
                 os: int, oe: int, ns: int, ne: int, partner: map<int, int>, owner: map<int, int>, created: set<int>, clean: bool, n0: nat,
                 oldAtStart: bool, newAtStart: bool, r: VNode)
    requires Window(oldKids, new0, oldS, newS, os, oe, ns, ne, partner, owner, created, clean, n0)
    requires os <= oe && ns <= ne
    requires var i := if oldAtStart then os else oe;
             var j := if newAtStart then ns else ne;
             oldS[i].Some? && SameVnode(oldS[i].value, newS[j])
             && Erase(r) == Erase(newS[j]) && r.elm == oldS[i].value.elm
    ensures var i := if oldAtStart then os else oe;
            var j := if newAtStart then ns else ne;
            Window(oldKids, new0, oldS, newS[j := r],
                   if oldAtStart then os + 1 else os, if oldAtStart then oe else oe - 1,
                   if newAtStart then ns + 1 else ns, if newAtStart then ne else ne - 1,
                   partner[j := i], owner[i := j], created, clean, n0)
  {
    var i := if oldAtStart then os else oe;
    var j := if newAtStart then ns else ne;
    assert oldS[i] == Some(oldKids[i]);
    assert newS[j] == new0[j];
    assert clean ==> i !in owner;
    Link(oldKids, new0, newS, partner, owner, clean, i, j, r);
    NewSideStep(new0, newS, ns, ne, partner, created, n0, j,
                if newAtStart then ns + 1 else ns, if newAtStart then ne else ne - 1, r, Some(i));
    OldShrink(oldKids, oldS, os, oe, owner, clean, oldAtStart, j);
  }

  /** Old slot `i`, at one end of the window, is reused by new child `j`
      and drops out of the window. */
  lemma OldShrink(oldKids: seq<VNode>, oldS: seq<Option<VNode>>, os: int, oe: int, owner: map<int, int>, clean: bool,
                  oldAtStart: bool, j: int)
    requires OldSide(oldKids, oldS, os, oe, owner, clean) && os <= oe
    ensures var i := if oldAtStart then os else oe;
      OldSide(oldKids, oldS, if oldAtStart then os + 1 else os, if oldAtStart then oe else oe - 1, owner[i := j], clean)
  {
  }

  /** The key path found old slot `k`, patched it into `newS[ns]` and cleared
      the slot.  The state stays clean exactly when `k` was not reused yet. */
  lemma KeyMatch(oldKids: seq<VNode>, new0: seq<VNode>, oldS: seq<Option<VNode>>, newS: seq<VNode>,
                 os: int, oe: int, ns: int, ne: int, partner: map<int, int>, owner: map<int, int>, created: set<int>, clean: bool, n0: nat,
                 k: int, r: VNode)
    requires Window(oldKids, new0, oldS, newS, os, oe, ns, ne, partner, owner, created, clean, n0)
    requires os <= oe && ns <= ne && 0 <= k < |oldS|
    requires oldS[k].Some? && SameVnode(oldS[k].value, newS[ns])
    requires Erase(r) == Erase(newS[ns]) && r.elm == oldS[k].value.elm
    ensures Window(oldKids, new0, oldS[k := None], newS[ns := r], os, oe, ns + 1, ne,
                   partner[ns := k], owner[k := ns], created, clean && k !in owner, n0)
  {
    assert oldS[k] == Some(oldKids[k]);
    assert newS[ns] == new0[ns];
    Link(oldKids, new0, newS, partner, owner, clean, k, ns, r);
    NewSideStep(new0, newS, ns, ne, partner, created, n0, ns, ns + 1, ne, r, Some(k));
    assert NewSide(new0, newS[ns := r], ns + 1, ne, partner[ns := k], created, n0);
    OldClear(oldKids, oldS, os, oe, owner, clean, k, ns);
  }

  /** Clearing the slot of the reused old child `k`. */
  lemma OldClear(oldKids: seq<VNode>, oldS: seq<Option<VNode>>, os: int, oe: int, owner: map<int, int>, clean: bool, k: int, j: int)
    requires OldSide(oldKids, oldS, os, oe, owner, clean) && 0 <= k < |oldS|
    ensures OldSide(oldKids, oldS[k := None], os, oe, owner[k := j], clean && k !in owner)
  {
    var oldS2 := oldS[k := None];
    forall t | 0 <= t < |oldS| ensures oldS2[t] == None || oldS2[t] == Some(oldKids[t]) {
      if t != k { assert oldS2[t] == oldS[t]; }
    }
    forall t | 0 <= t < |oldS| && oldS2[t] == None ensures t in owner[k := j] {
      if t != k { assert oldS2[t] == oldS[t]; }
    }
    if clean && k !in owner {
      forall t | os <= t <= oe && t in owner[k := j] ensures oldS2[t] == None {
        if t != k { assert oldS2[t] == oldS[t]; }
      }
    }
  }

  /** `newS[ns]` got a fresh element. */
  lemma Create(oldKids: seq<VNode>, new0: seq<VNode>, oldS: seq<Option<VNode>>, newS: seq<VNode>,
               os: int, oe: int, ns: int, ne: int, partner: map<int, int>, owner: map<int, int>, created: set<int>, clean: bool, n0: nat,
               r: VNode)
    requires Window(oldKids, new0, oldS, newS, os, oe, ns, ne, partner, owner, created, clean, n0)
    requires ns <= ne
    requires Erase(r) == Erase(newS[ns]) && r.elm.Some? && r.elm.value >= n0
    ensures Window(oldKids, new0, oldS, newS[ns := r], os, oe, ns + 1, ne, partner, owner, created + {ns}, clean, n0)
  {
    NewSideStep(new0, newS, ns, ne, partner, created, n0, ns, ns + 1, ne, r, None);
    LinksFrame(oldKids, new0, newS, newS[ns := r], partner, owner, clean);
  }

  /** Reusing an old child a second time is only possible with duplicate new
      keys: the earlier reuser carries the same key as the old child. */
  lemma ReusedMeansDuplicate(oldKids: seq<VNode>, new0: seq<VNode>, oldS: seq<Option<VNode>>, newS: seq<VNode>,
                             os: int, oe: int, ns: int, ne: int, partner: map<int, int>, owner: map<int, int>, created: set<int>, clean: bool, n0: nat,
                             k: int)
    requires Window(oldKids, new0, oldS, newS, os, oe, ns, ne, partner, owner, created, clean, n0)
    requires ns <= ne && k in owner
    requires oldKids[k].key.Some? && new0[ns].key.Some? && KeyName(oldKids[k].key.value) == KeyName(new0[ns].key.value)
    ensures !UniqueKeyNames(new0)
  {
    var j := owner[k];
    SameVnodeFacts(oldKids[k], new0[j]);
    if j < ns {
      assert !(KeyName(new0[j].key.value) != KeyName(new0[ns].key.value));
    } else {
      assert !(KeyName(new0[ns].key.value) != KeyName(new0[j].key.value));
    }
  }

  /** Filling `[ns, ne]` with render-equal vnodes keeps `SameRender`. */
  lemma SameRenderFill(a: seq<VNode>, b: seq<VNode>, b2: seq<VNode>, ns: int, ne: int)
    requires SameRender(a, b) && |b2| == |b| && 0 <= ns && ne < |b|
    requires forall j :: 0 <= j < |b| && (j < ns || j > ne) ==> b2[j] == b[j]
    requires forall j :: ns <= j <= ne ==> Erase(b2[j]) == Erase(b[j])
    ensures SameRender(a, b2)
  {
    forall j | 0 <= j < |a| ensures Erase(b2[j]) == Erase(a[j]) {
      if ns <= j <= ne { assert Erase(b2[j]) == Erase(b[j]); }
    }
  }

  /** The old window ran out: the rest of the new window gets fresh elements. */
  lemma FinishAdd(oldKids: seq<VNode>, new0: seq<VNode>, oldS: seq<Option<VNode>>, newS: seq<VNode>,
                  os: int, oe: int, ns: int, ne: int, partner: map<int, int>, owner: map<int, int>, created: set<int>, clean: bool, n0: nat,
                  newS2: seq<VNode>)
    requires Window(oldKids, new0, oldS, newS, os, oe, ns, ne, partner, owner, created, clean, n0)
    requires os > oe && clean && |newS2| == |newS|
    requires forall j :: 0 <= j < |newS| && (j < ns || j > ne) ==> newS2[j] == newS[j]
    requires forall j :: ns <= j <= ne ==> Erase(newS2[j]) == Erase(newS[j]) && newS2[j].elm.Some? && newS2[j].elm.value >= n0
    ensures Reconciled(oldKids, new0, newS2, partner, owner, created + Span(ns, ne), {}, n0)
  {
  }

  /** The new window ran out: the old slots still held in the window are removed. */
  lemma FinishRemove(oldKids: seq<VNode>, new0: seq<VNode>, oldS: seq<Option<VNode>>, newS: seq<VNode>,
                     os: int, oe: int, ns: int, ne: int, partner: map<int, int>, owner: map<int, int>, created: set<int>, clean: bool, n0: nat,
                     removed: set<int>)
    requires Window(oldKids, new0, oldS, newS, os, oe, ns, ne, partner, owner, created, clean, n0)
    requires ns > ne && clean
    requires forall i :: i in removed <==> os <= i <= oe && 0 <= i < |oldS| && oldS[i].Some?
    ensures Reconciled(oldKids, new0, newS, partner, owner, created, removed, n0)
  {
  }

  /** No keyed new child in `created` had an old child it could have been
      patched from that is still unreused: every old child `sameVnode` with
      it is owned. */
  ghost predicate Maximal(oldKids: seq<VNode>, new0: seq<VNode>, owner: map<int, int>, created: set<int>) {
    forall j, i :: j in created && 0 <= j < |new0| && new0[j].key.Some? && 0 <= i < |oldKids| && SameVnode(oldKids[i], new0[j]) ==>
      i in owner
  }

  /** The new children reorder the old ones: both lists carry unique key
      names, none inherited from `Object.prototype`, and each child on
      either side has a `sameVnode` partner on the other. */
  ghost predicate KeyedPermutation(oldKids: seq<VNode>, new0: seq<VNode>) {
    && UniqueKeyNames(oldKids) && UniqueKeyNames(new0) && NoPrototypeKeyNames(new0)
    && (forall j :: 0 <= j < |new0| ==> new0[j].key.Some? && OldMatch(oldKids, new0[j]))
    && (forall i :: 0 <= i < |oldKids| ==> NewMatch(oldKids[i], new0))
  }

  /** Some old vnode may be patched into `v`. */
  ghost predicate OldMatch(oldKids: seq<VNode>, v: VNode) {
    exists i :: 0 <= i < |oldKids| && SameVnode(oldKids[i], v)
  }

  /** The old vnode `o` may be patched into some new vnode. */
  ghost predicate NewMatch(o: VNode, new0: seq<VNode>) {
    exists j :: 0 <= j < |new0| && SameVnode(o, new0[j])
  }

  /** A keyed permutation patched with a maximal matching creates no element
      and removes none: every new child is matched with the old child of its
      key. */
  lemma PermutationReusesAll(oldKids: seq<VNode>, new0: seq<VNode>, newS: seq<VNode>,
                             partner: map<int, int>, owner: map<int, int>, created: set<int>, removed: set<int>, n0: nat)
    requires Reconciled(oldKids, new0, newS, partner, owner, created, removed, n0)
    requires Maximal(oldKids, new0, owner, created)
    requires KeyedPermutation(oldKids, new0)
    ensures created == {} && removed == {}
  {
    CreatedMatched(oldKids, new0, partner, owner, created);
    assert forall j :: j in created ==> 0 <= j < |new0| && j in partner;
    assert created == {};
    OldAllOwned(oldKids, new0, partner, owner);
    assert forall i :: i in removed ==> 0 <= i < |oldKids| && i in owner;
  }

  /** Under a keyed permutation a maximal `created` child is matched after all. */
  lemma CreatedMatched(oldKids: seq<VNode>, new0: seq<VNode>, partner: map<int, int>, owner: map<int, int>, created: set<int>)
    requires Inverse(partner, owner)
    requires forall j :: j in partner ==> 0 <= j < |new0| && 0 <= partner[j] < |oldKids| && SameVnode(oldKids[partner[j]], new0[j])
    requires Maximal(oldKids, new0, owner, created)
    requires KeyedPermutation(oldKids, new0)
    ensures forall j :: j in created && 0 <= j < |new0| ==> j in partner
  {
    forall j | j in created && 0 <= j < |new0| ensures j in partner {
      assert OldMatch(oldKids, new0[j]);
      var i :| 0 <= i < |oldKids| && SameVnode(oldKids[i], new0[j]);
      assert i in owner;
      var j2 := owner[i];
      assert j2 in partner && partner[j2] == i;
      SameKeyIndex(new0, j2, j);
    }
  }

  /** Under unique key names a key names at most one child. */
  lemma SameKeyIndex(cs: seq<VNode>, a: int, b: int)
    requires UniqueKeyNames(cs) && 0 <= a < |cs| && 0 <= b < |cs| && cs[a].key.Some? && cs[a].key == cs[b].key
    ensures a == b
  {
  }

  /** When every new child is matched, under a keyed permutation every old
      child is reused. */
  lemma OldAllOwned(oldKids: seq<VNode>, new0: seq<VNode>, partner: map<int, int>, owner: map<int, int>)
    requires Inverse(partner, owner)
    requires forall j :: j in partner ==> 0 <= j < |new0| && 0 <= partner[j] < |oldKids| && SameVnode(oldKids[partner[j]], new0[j])
    requires forall j :: 0 <= j < |new0| ==> j in partner
    requires KeyedPermutation(oldKids, new0)
    ensures forall i :: 0 <= i < |oldKids| ==> i in owner
  {
    forall i | 0 <= i < |oldKids| ensures i in owner {
      assert NewMatch(oldKids[i], new0);
      var j :| 0 <= j < |new0| && SameVnode(oldKids[i], new0[j]);
      var i2 := partner[j];
      assert new0[j].key.Some?;
      SameKeyIndex(oldKids, i2, i);
    }
  }

  /** Once the old window is empty every old child is owned, so anything
      may be added to a maximal `created`. */
  lemma MaximalExhausted(oldKids: seq<VNode>, new0: seq<VNode>, oldS: seq<Option<VNode>>, os: int, oe: int,
                         owner: map<int, int>, created: set<int>, clean: bool, more: set<int>)
    requires OldSide(oldKids, oldS, os, oe, owner, clean) && os > oe
    requires Maximal(oldKids, new0, owner, created)
    ensures Maximal(oldKids, new0, owner, created + more)
  {
  }
}
