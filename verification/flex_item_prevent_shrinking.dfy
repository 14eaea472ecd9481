/** Prevent shrinking (FlexItemPreventShrinking): a block inside a flex
    container can be marked so that it keeps its fit-content or fixed size
    instead of shrinking. */
module FlexItemPreventShrinking {
  import opened Php
  import Css
  import Responsive

  const PARENT_LAYOUT := StrKey("parentLayout")
  const ATTRIBUTE := StrKey("wpbbeFlexItemPreventShrinking")
  const MARKER := "wpbbe__flex-item-prevent-shrinking"

  /** The type of the layout of the block's parent. */
  function ParentType(block: Value): Value {
    Get(Get(block, PARENT_LAYOUT), Responsive.TYPE)
  }

  /** The block's own switch. */
  function Switch(block: Value): Value {
    Get(Get(block, Responsive.ATTRS), ATTRIBUTE)
  }

  /** Line 37, `$type ?? null !== 'flex'`: as written this is
      `$type ?? (null !== 'flex')`, the truthiness of the type and true
      when there is none; the intended test is `$type === 'flex'`. */
  predicate ParentIsFlex(parentType: Value, asWritten: bool) {
    if asWritten then Truthy(Coalesce(parentType, VBool(true)))
    else parentType == VStr("flex")
  }

  /** Line 38, `$attr ?? null === true`: as written `$attr ?? false`, the
      truthiness of the switch; the intended test is `$attr === true`. */
  predicate Enabled(switch: Value, asWritten: bool) {
    if asWritten then Truthy(Coalesce(switch, VBool(false)))
    else switch == VBool(true)
  }

  /** `render`: a non-empty block passing both tests gets the marker
      class; any other block is left as it is. */
  function Render(content: string, block: Value, asWritten: bool): (r: Css.Effect)
    ensures r != Css.NO_EFFECT <==> content != "" && ParentIsFlex(ParentType(block), asWritten) && Enabled(Switch(block), asWritten)
    ensures r != Css.NO_EFFECT ==> r == Css.Effect([MARKER], [], [], [])
  {
    if content == "" then Css.NO_EFFECT
    else if ParentIsFlex(ParentType(block), asWritten) && Enabled(Switch(block), asWritten) then Css.Effect([MARKER], [], [], [])
    else Css.NO_EFFECT
  }

  /** The intended reading marks a block exactly when its parent is a flex
      container and its switch is strictly on. */
  lemma IntendedMarks(content: string, block: Value)
    ensures Render(content, block, false) != Css.NO_EFFECT <==>
              content != "" && ParentType(block) == VStr("flex") && Switch(block) == VBool(true)
  {
  }

  /** Every block the intended reading marks is marked as written too. */
  lemma IntendedNarrower(content: string, block: Value)
    ensures Render(content, block, false) != Css.NO_EFFECT ==> Render(content, block, true) == Render(content, block, false)
  {
    assert Truthy(VStr("flex")) by {
      assert |"flex"| == 4;
    }
  }

  /** A switched-on block in a grid is marked as written but not by the
      intended reading. */
  lemma GridParentDiscrepancy(content: string, block: Value)
    requires content != "" && Switch(block) == VBool(true)
    requires ParentType(block) == VStr("grid")
    ensures Render(content, block, true) == Css.Effect([MARKER], [], [], [])
    ensures Render(content, block, false) == Css.NO_EFFECT
  {
    assert |"grid"| == 4 && |"0"| == 1 && "grid"[0] != "flex"[0];
    assert Truthy(VStr("grid")) && VStr("grid") != VStr("flex");
    assert ParentIsFlex(VStr("grid"), true) && !ParentIsFlex(VStr("grid"), false);
  }

  /** So is a switched-on block whose parent has no layout at all. */
  lemma NoParentDiscrepancy(content: string, block: Value)
    requires content != "" && Switch(block) == VBool(true)
    requires ParentType(block) == VNull
    ensures Render(content, block, true) == Css.Effect([MARKER], [], [], [])
    ensures Render(content, block, false) == Css.NO_EFFECT
  {
  }
}
