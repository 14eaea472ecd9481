/** Block visibility (Visibility): a block can be hidden, or hidden or
    shown only at or below a breakpoint. The module marks such a block with
    classes and, when the breakpoint resolves, adds the rule that flips its
    display below the switch width. */
module Visibility {
  import opened Wrappers
  import opened Php
  import Text
  import OrderedMap
  import Wp
  import Breakpoints
  import Css
  import Responsive

  /** The attribute group of the visibility settings. */
  const GROUP := StrKey("wpbbeVisibility")
  const VISIBILITY := StrKey("visibility")

  const HIDDEN := "hidden"

  /** The defaults `get_atts` fills in: all three settings empty. */
  const DEFAULTS: seq<(Key, Value)> :=
    [(VISIBILITY, VStr("")), (Responsive.BREAKPOINT, VStr("")), (Responsive.CUSTOM_VALUE, VStr(""))]

  lemma DefaultsFound()
    ensures OrderedMap.Find(DEFAULTS, VISIBILITY) == Some(VStr(""))
    ensures OrderedMap.Find(DEFAULTS, Responsive.BREAKPOINT) == Some(VStr(""))
    ensures OrderedMap.Find(DEFAULTS, Responsive.CUSTOM_VALUE) == Some(VStr(""))
  {
    assert "visibility"[0] != "breakpoint"[0];
    assert "visibility"[0] != "breakpointCustomValue"[0];
    assert |"breakpoint"| != |"breakpointCustomValue"|;
    assert DEFAULTS[1..] == [(Responsive.BREAKPOINT, VStr("")), (Responsive.CUSTOM_VALUE, VStr(""))];
    assert DEFAULTS[1..][1..] == [(Responsive.CUSTOM_VALUE, VStr(""))];
  }

  /** The value the block itself gives a setting (its last entry), if it
      gives one at all. */
  function Supplied(group: Value, k: Key): Option<Value> {
    OrderedMap.FindLast(Entries(group), k)
  }

  /** `get_atts`: `wp_parse_args` over the three empty defaults. A setting
      the block gives keeps the block's value, even null; a missing one is
      ''. */
  function GetAtts(group: Value): (r: Value)
    ensures r.VArr?
    ensures Get(r, VISIBILITY) == Supplied(group, VISIBILITY).GetOr(VStr(""))
    ensures Get(r, Responsive.BREAKPOINT) == Supplied(group, Responsive.BREAKPOINT).GetOr(VStr(""))
    ensures Get(r, Responsive.CUSTOM_VALUE) == Supplied(group, Responsive.CUSTOM_VALUE).GetOr(VStr(""))
  {
    DefaultsFound();
    VArr(Wp.ParseArgs(Entries(group), DEFAULTS))
  }

  /** `get_custom_classes` (its filter taken as the identity): nothing for
      a visible block without a breakpoint; otherwise the unique class and
      the visibility class (`visible` for an empty visibility), and the
      breakpoint class exactly when a breakpoint is given. */
  function CustomClasses(atts: Value, classId: string): (r: seq<string>)
    ensures r == [] <==> Get(atts, VISIBILITY) != VStr(HIDDEN) && Get(atts, Responsive.BREAKPOINT) == VStr("")
    ensures r != [] ==> |r| == (if Get(atts, Responsive.BREAKPOINT) != VStr("") then 3 else 2) && r[0] == classId
    ensures r != [] ==> r[1] == "wpbbe-visibility-" + (if Truthy(Get(atts, VISIBILITY)) then ToStr(Get(atts, VISIBILITY)) else "visible")
    ensures |r| == 3 ==> r[2] == "wpbbe-visibility-breakpoint-" + ToStr(Get(atts, Responsive.BREAKPOINT))
  {
    var visibility := Get(atts, VISIBILITY);
    var breakpoint := Get(atts, Responsive.BREAKPOINT);
    if visibility == VStr(HIDDEN) || breakpoint != VStr("") then
      [classId, "wpbbe-visibility-" + (if !Truthy(visibility) then "visible" else ToStr(visibility))]
        + (if breakpoint != VStr("") then ["wpbbe-visibility-breakpoint-" + ToStr(breakpoint)] else [])
    else []
  }

  /** The rule below the switch width: a hidden block is displayed (as a
      flex container) there, any other marked block is not displayed. */
  function Declaration(visibility: Value, classId: string): Css.Block {
    if visibility == VStr(HIDDEN) then Css.Block(".wpbbe-visibility-hidden." + classId + "." + classId, [("display", VStr("flex !important"))])
    else Css.Block(".wpbbe-visibility-visible." + classId + "." + classId, [("display", VStr("none !important"))])
  }

  /** The display below the width is `flex` exactly for a hidden block and
      `none` otherwise; the selector requires the matching class. */
  lemma DeclarationSpec(visibility: Value, classId: string)
    ensures Css.Declared(Declaration(visibility, classId).decls, "display") ==
              Some(VStr(if visibility == VStr(HIDDEN) then "flex !important" else "none !important"))
    ensures Text.StartsWith(Declaration(visibility, classId).selector,
              if visibility == VStr(HIDDEN) then ".wpbbe-visibility-hidden." else ".wpbbe-visibility-visible.")
  {
    Css.DeclaredOne(Declaration(visibility, classId).decls[0], "display");
  }

  /** `add_styles`: one media query below the switch width of the
      block's breakpoint and custom value, or nothing when that width is
      falsy. */
  function Styles(o: Wp.Options, atts: Value, classId: string): (r: seq<seq<Css.CssRule>>)
    ensures var w := Breakpoints.SwitchWidth(o, Get(atts, Responsive.BREAKPOINT), Get(atts, Responsive.CUSTOM_VALUE));
            && (r != [] <==> Truthy(w))
            && (r != [] ==> r == [[Css.Media(Css.Below(w), [Declaration(Get(atts, VISIBILITY), classId)])]])
  {
    var w := Breakpoints.SwitchWidth(o, Get(atts, Responsive.BREAKPOINT), Get(atts, Responsive.CUSTOM_VALUE));
    if Truthy(w) then [[Css.Media(Css.Below(w), [Declaration(Get(atts, VISIBILITY), classId)])]] else []
  }

  /** `render`: a non-empty block whose attributes hold the visibility
      group gets its custom classes and styles; any other block is left as
      it is. */
  function Render(content: string, block: Value, o: Wp.Options, classId: string): (r: Css.Effect)
    ensures !IsSet(Get(block, Responsive.ATTRS), GROUP) || content == "" ==> r == Css.NO_EFFECT
    ensures IsSet(Get(block, Responsive.ATTRS), GROUP) && content != "" ==>
              var atts := GetAtts(Get(Get(block, Responsive.ATTRS), GROUP));
              r == Css.Effect(CustomClasses(atts, classId), [], [], Styles(o, atts, classId))
  {
    var attributes := Get(block, Responsive.ATTRS);
    if !IsSet(attributes, GROUP) || content == "" then Css.NO_EFFECT
    else
      var atts := GetAtts(Get(attributes, GROUP));
      Css.Effect(CustomClasses(atts, classId), [], [], Styles(o, atts, classId))
  }

  /** A group that sets nothing marks nothing, and on a site whose saved
      breakpoints have no '' entry adds no rule either. */
  lemma EmptyGroupUntouched(o: Wp.Options, classId: string)
    requires StrKey("") !in OrderedMap.Keys(Breakpoints.Stored(o))
    ensures var atts := GetAtts(VArr([]));
            CustomClasses(atts, classId) == [] && Styles(o, atts, classId) == []
  {
    var atts := GetAtts(VArr([]));
    assert Get(atts, Responsive.BREAKPOINT) == VStr("");
    assert ArrayKey(VStr("")) == Some(StrKey(""));
    Breakpoints.UnknownNeverSwitches(Breakpoints.Stored(o), VStr(""), Get(atts, Responsive.CUSTOM_VALUE));
  }

  /** A block hidden without a breakpoint is marked hidden but gets no
      rule: it is hidden at every width. */
  lemma HiddenEverywhere(o: Wp.Options, atts: Value, classId: string)
    requires Get(atts, VISIBILITY) == VStr(HIDDEN) && Get(atts, Responsive.BREAKPOINT) == VStr("")
    requires StrKey("") !in OrderedMap.Keys(Breakpoints.Stored(o))
    ensures CustomClasses(atts, classId) == [classId, "wpbbe-visibility-" + HIDDEN]
    ensures Styles(o, atts, classId) == []
  {
    assert Truthy(VStr(HIDDEN)) && ToStr(VStr(HIDDEN)) == HIDDEN;
    assert ArrayKey(VStr("")) == Some(StrKey(""));
    Breakpoints.UnknownNeverSwitches(Breakpoints.Stored(o), VStr(""), Get(atts, Responsive.CUSTOM_VALUE));
  }

  /** The breakpoint class is there exactly when a breakpoint is given. */
  lemma BreakpointClassIff(atts: Value, classId: string)
    ensures |CustomClasses(atts, classId)| == 3 <==> Get(atts, Responsive.BREAKPOINT) != VStr("")
  {
  }
}
