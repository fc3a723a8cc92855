/** `resolveSlots` of src/core/instance/render-helpers/resolve-slots.js:
    grouping the raw children handed to a component into named slots. */
module ResolveSlots {
  import opened Common
  import opened VNodes

  /** `isWhitespace`: a comment that is not an async placeholder, or the
      text `' '`. */
  predicate IsWhitespace(v: VNode) {
    (v.isComment && v.asyncFactory.None?) || v.text == Some(" ")
  }

  /** `nodes.every(isWhitespace)`; true of the empty list. */
  predicate AllWhitespace(nodes: seq<VNode>) {
    forall i | 0 <= i < |nodes| :: IsWhitespace(nodes[i])
  }

  /** The child after `delete data.attrs.slot`, done when that attribute is
      truthy (a non-empty string); nothing else changes. */
  function Stripped(c: VNode): (r: VNode)
    ensures r.data.Some? <==> c.data.Some?
    ensures r.(data := c.data) == c
    ensures r.data.Some? ==> r.data.value.(attrs := c.data.value.attrs) == c.data.value
    ensures r.data.Some? && r.data.value.attrs.Some? ==>
      c.data.value.attrs.Some? &&
      (forall k | k != "slot" :: (k in r.data.value.attrs.value <==> k in c.data.value.attrs.value)) &&
      ("slot" in r.data.value.attrs.value ==> r.data.value.attrs.value["slot"] == "")
  {
    if c.data.Some? && c.data.value.attrs.Some? && "slot" in c.data.value.attrs.value
       && c.data.value.attrs.value["slot"] != ""
    then c.(data := Some(c.data.value.(attrs := Some(c.data.value.attrs.value - {"slot"}))))
    else c
  }

  /** A named-slot child: rendered in the resolving context (as `context` or
      as `fnContext`) and carrying `data.slot`. */
  predicate IsNamed(c: VNode, context: Option<nat>) {
    (c.context == context || c.fnContext == context) && c.data.Some? && c.data.value.slot.Some?
  }

  /** The slot a child goes to. */
  function SlotName(c: VNode, context: Option<nat>): string {
    if IsNamed(c, context) then c.data.value.slot.value else "default"
  }

  /** A `<template>` in a named slot contributes its children; any other
      child contributes itself. */
  predicate IsSlotTemplate(c: VNode, context: Option<nat>) {
    IsNamed(c, context) && c.tag == Some("template")
  }

  function Contribution(c: VNode, context: Option<nat>): seq<VNode> {
    if IsSlotTemplate(c, context) then ChildList(c) else [Stripped(c)]
  }

  /** Reference definition of one slot: the contributions of the children
      sent to `name`, in input order. */
  function Collected(cs: seq<VNode>, context: Option<nat>, name: string): seq<VNode> {
    if cs == [] then []
    else
      var last := cs[|cs| - 1];
      Collected(cs[..|cs| - 1], context, name) + (if SlotName(last, context) == name then Contribution(last, context) else [])
  }

  /** Some child is sent to `name`. */
  predicate Routed(cs: seq<VNode>, context: Option<nat>, name: string) {
    exists i | 0 <= i < |cs| :: SlotName(cs[i], context) == name
  }

  /** The first child sent to a slot named after a property of
      `Object.prototype`, if any: `slots[name]` then reads the inherited
      value, which is truthy and has no `push`, and the call throws. */
  function FirstPrototypeSlot(cs: seq<VNode>, context: Option<nat>): (r: Option<nat>)
    ensures r.Some? ==> r.value < |cs| && SlotName(cs[r.value], context) in ObjectPrototypeKeys
    ensures forall k | 0 <= k < |cs| && (r.None? || k < r.value) :: SlotName(cs[k], context) !in ObjectPrototypeKeys
  {
    if cs == [] then None
    else if SlotName(cs[0], context) in ObjectPrototypeKeys then Some(0)
    else
      var rest := FirstPrototypeSlot(cs[1..], context);
      if rest.None? then None else Some(rest.value + 1)
  }

  /** A slot table agrees with the reference definition on `cs`. */
  ghost predicate Agrees(slots: map<string, seq<VNode>>, cs: seq<VNode>, context: Option<nat>) {
    (forall name :: name in slots <==> Routed(cs, context, name)) &&
    (forall name | name in slots :: slots[name] == Collected(cs, context, name))
  }

  /** Deleting the `slot` attribute does not change where a child goes or
      what it contributes. */
  lemma StrippedKeeps(c: VNode, context: Option<nat>)
    ensures SlotName(Stripped(c), context) == SlotName(c, context)
    ensures IsSlotTemplate(Stripped(c), context) == IsSlotTemplate(c, context)
    ensures IsNamed(Stripped(c), context) == IsNamed(c, context)
    ensures ChildList(Stripped(c)) == ChildList(c)
  {
  }

  lemma CollectedStep(cs: seq<VNode>, i: nat, context: Option<nat>, name: string)
    requires i < |cs|
    ensures Collected(cs[..i + 1], context, name) ==
      Collected(cs[..i], context, name) + (if SlotName(cs[i], context) == name then Contribution(cs[i], context) else [])
    ensures Routed(cs[..i + 1], context, name) <==> Routed(cs[..i], context, name) || SlotName(cs[i], context) == name
  {
    assert cs[..i + 1][..i] == cs[..i];
    if Routed(cs[..i + 1], context, name) && SlotName(cs[i], context) != name {
      var k :| 0 <= k < i + 1 && SlotName(cs[..i + 1][k], context) == name;
      assert cs[..i][k] == cs[k];
    }
    if Routed(cs[..i], context, name) {
      var k :| 0 <= k < i && SlotName(cs[..i][k], context) == name;
      assert cs[..i + 1][k] == cs[k];
    }
  }

  /** One pass of the grouping loop keeps the slot table equal to the
      reference definition on the children seen so far. */
  lemma GroupStep(slots: map<string, seq<VNode>>, cs: seq<VNode>, i: nat, context: Option<nat>, name: string, slot: seq<VNode>)
    requires i < |cs| && Agrees(slots, cs[..i], context) && name == SlotName(cs[i], context)
    requires slot == (if name in slots then slots[name] else []) + Contribution(cs[i], context)
    ensures Agrees(slots[name := slot], cs[..i + 1], context)
  {
    var slots' := slots[name := slot];
    forall n
      ensures (n in slots' <==> Routed(cs[..i + 1], context, n))
      ensures n in slots' ==> slots'[n] == Collected(cs[..i + 1], context, n)
    {
      CollectedStep(cs, i, context, n);
      if n == name && name !in slots {
        CollectedUnrouted(cs[..i], context, n);
      }
    }
  }

  /** A slot no child is sent to collects nothing. */
  lemma {:induction false} CollectedUnrouted(cs: seq<VNode>, context: Option<nat>, name: string)
    requires !Routed(cs, context, name)
    ensures Collected(cs, context, name) == []
    decreases |cs|
  {
    if cs != [] {
      var init := cs[..|cs| - 1];
      CollectedUnrouted(init, context, name);
      assert SlotName(cs[|cs| - 1], context) != name;
    }
  }

  /** `resolveSlots(children, context)`.  `stripped` is the children list
      after the in-place deletion of their `slot` attributes, which stops at
      the child whose slot name makes the grouping throw. */
  method ResolveSlots(children: Option<seq<VNode>>, context: Option<nat>)
      returns (slots: map<string, seq<VNode>>, stripped: seq<VNode>, thrown: bool)
    ensures var cs := children.GetOr([]); var f := FirstPrototypeSlot(cs, context);
      (thrown <==> f.Some?) &&
      |stripped| == |cs| && (forall i | 0 <= i < |cs| :: stripped[i] == if f.None? || i <= f.value then Stripped(cs[i]) else cs[i])
    ensures var cs := children.GetOr([]); !thrown ==>
      (forall name :: name in slots <==> Routed(cs, context, name) && !AllWhitespace(Collected(cs, context, name))) &&
      (forall name | name in slots :: slots[name] == Collected(cs, context, name))
    ensures forall name | name in slots :: slots[name] != [] && !AllWhitespace(slots[name])
  {
    var cs := children.GetOr([]);
    if children.None? || |children.value| == 0 {
      return map[], cs, false;
    }
    var grouped;
    grouped, stripped, thrown := Group(cs, context);
    if thrown {
      return map[], stripped, true;
    }
    slots := DropWhitespace(grouped);
  }

  /** The first loop of `resolveSlots`: every child pushed onto its slot,
      until one is sent to a name `Object.prototype` has. */
  method Group(cs: seq<VNode>, context: Option<nat>) returns (slots: map<string, seq<VNode>>, stripped: seq<VNode>, thrown: bool)
    ensures var f := FirstPrototypeSlot(cs, context);
      (thrown <==> f.Some?) &&
      |stripped| == |cs| && forall i | 0 <= i < |cs| :: stripped[i] == if f.None? || i <= f.value then Stripped(cs[i]) else cs[i]
    ensures !thrown ==> Agrees(slots, cs, context)
  {
    slots := map[];
    stripped := [];
    var f := FirstPrototypeSlot(cs, context);
    for i := 0 to |cs|
      invariant |stripped| == i && forall k | 0 <= k < i :: stripped[k] == Stripped(cs[k])
      invariant f.None? || i <= f.value
      invariant Agrees(slots, cs[..i], context)
    {
      var child;
      slots, child, thrown := PushChild(slots, cs, i, context);
      stripped := stripped + [child];
      if thrown {
        stripped := stripped + cs[i + 1..];
        return;
      }
    }
    thrown := false;
    assert cs[..|cs|] == cs;
  }

  /** The body of the grouping loop for `children[i]`. */
  method PushChild(slots: map<string, seq<VNode>>, cs: seq<VNode>, i: nat, context: Option<nat>)
      returns (slots': map<string, seq<VNode>>, child: VNode, thrown: bool)
    requires i < |cs| && Agrees(slots, cs[..i], context)
    ensures child == Stripped(cs[i])
    ensures thrown <==> SlotName(cs[i], context) in ObjectPrototypeKeys
    ensures !thrown ==> Agrees(slots', cs[..i + 1], context)
  {
    child := DeleteSlotAttribute(cs[i]);
    StrippedKeeps(cs[i], context);
    var name := if IsNamed(child, context) then child.data.value.slot.value else "default";
    if name in ObjectPrototypeKeys {
      // `slots[name]` is inherited: no slot array is created and `push` is missing
      return slots, child, true;
    }
    thrown := false;
    var prev := if name in slots then slots[name] else [];
    var slot := prev;
    if IsSlotTemplate(child, context) {
      slot := slot + ChildList(child);
    } else {
      slot := slot + [child];
    }
    assert name == SlotName(cs[i], context) && slot == prev + Contribution(cs[i], context);
    GroupStep(slots, cs, i, context, name, slot);
    slots' := slots[name := slot];
  }

  /** `delete data.attrs.slot` when that attribute is truthy. */
  method DeleteSlotAttribute(c: VNode) returns (r: VNode)
    ensures r == Stripped(c)
  {
    r := c;
    if c.data.Some? && c.data.value.attrs.Some? && "slot" in c.data.value.attrs.value
       && c.data.value.attrs.value["slot"] != "" {
      r := c.(data := Some(c.data.value.(attrs := Some(c.data.value.attrs.value - {"slot"}))));
    }
  }

  /** The second loop: slots holding only whitespace are deleted. */
  method DropWhitespace(full: map<string, seq<VNode>>) returns (slots: map<string, seq<VNode>>)
    ensures forall n :: n in slots <==> n in full && !AllWhitespace(full[n])
    ensures forall n | n in slots :: slots[n] == full[n]
  {
    slots := full;
    var names := slots.Keys;
    while names != {}
      invariant names <= full.Keys
      invariant forall n :: n in slots <==> n in full && (n in names || !AllWhitespace(full[n]))
      invariant forall n | n in slots :: slots[n] == full[n]
      decreases |names|
    {
      var n :| n in names;
      if AllWhitespace(slots[n]) {
        slots := slots - {n};
      }
      names := names - {n};
    }
  }

  /** Every child sent to `name` other than a slot template is in that slot,
      with its `slot` attribute removed. */
  lemma {:induction false} CollectedHasChild(cs: seq<VNode>, context: Option<nat>, i: int)
    requires 0 <= i < |cs| && !IsSlotTemplate(cs[i], context)
    ensures Stripped(cs[i]) in Collected(cs, context, SlotName(cs[i], context))
    decreases |cs|
  {
    var name := SlotName(cs[i], context);
    var init := cs[..|cs| - 1];
    if i < |cs| - 1 {
      assert init[i] == cs[i];
      CollectedHasChild(init, context, i);
    }
    assert Collected(cs, context, name) ==
      Collected(init, context, name) + (if SlotName(cs[|cs| - 1], context) == name then Contribution(cs[|cs| - 1], context) else []);
  }

  /** Conversely, everything in a slot comes from a child sent there: the
      child itself, or a child of a slot template. */
  lemma {:induction false} CollectedFromChildren(cs: seq<VNode>, context: Option<nat>, name: string, v: VNode)
    requires v in Collected(cs, context, name)
    ensures exists i | 0 <= i < |cs| ::
      (SlotName(cs[i], context) == name &&
       if IsSlotTemplate(cs[i], context) then v in ChildList(cs[i]) else v == Stripped(cs[i]))
    decreases |cs|
  {
    var init, last := cs[..|cs| - 1], cs[|cs| - 1];
    var extra := if SlotName(last, context) == name then Contribution(last, context) else [];
    assert Collected(cs, context, name) == Collected(init, context, name) + extra;
    if v in Collected(init, context, name) {
      CollectedFromChildren(init, context, name, v);
      var i :| 0 <= i < |init| && SlotName(init[i], context) == name &&
        (if IsSlotTemplate(init[i], context) then v in ChildList(init[i]) else v == Stripped(init[i]));
      assert init[i] == cs[i];
    } else {
      assert v in extra;
      assert SlotName(cs[|cs| - 1], context) == name;
    }
  }
}
