/** What the responsive block modules share (ResponsiveBlockUtils and
    ResponsiveBlockModuleBase): where a block keeps its responsive
    settings, the switch width they resolve to, and the chain of guards
    a block passes before a module renders it. */
module Responsive {
  import opened Wrappers
  import opened Php
  import Wp
  import Breakpoints
  import Css

  const ATTRS := StrKey("attrs")
  const BLOCK_NAME := StrKey("blockName")

  /** The attribute group holding the responsive settings. */
  const GROUP := StrKey("wpbbeResponsive")
  const BREAKPOINT := StrKey("breakpoint")
  const CUSTOM_VALUE := StrKey("breakpointCustomValue")
  const SETTINGS := StrKey("settings")

  const LAYOUT := StrKey("layout")
  const TYPE := StrKey("type")

  /** `is_responsive`: the block's responsive group is an array. */
  predicate IsResponsive(block: Value) {
    Get(Get(block, ATTRS), GROUP).VArr?
  }

  /** `$attributes['layout']['type'] ?? null`. */
  function LayoutType(attributes: Value): Value {
    Get(Get(attributes, LAYOUT), TYPE)
  }

  /** `get_setting`: the named setting of the group, or the default when
      the setting is missing or null (or the group or its settings are not
      arrays). */
  function GetSetting(attributes: Value, name: string, default: Value): (r: Value)
    ensures r == VNull ==> default == VNull
  {
    Coalesce(Get(Get(Get(attributes, GROUP), SETTINGS), KeyOf(name)), default)
  }

  /** The attributes after the editor saved `v` as the named setting. */
  function WithSetting(attributes: Value, name: string, v: Value): Value {
    var group := Get(attributes, GROUP);
    Set(attributes, GROUP, Set(group, SETTINGS, Set(Get(group, SETTINGS), KeyOf(name), v)))
  }

  /** A saved setting is read back, whatever the default; saving one
      setting leaves every other setting as it was. */
  lemma SettingRoundTrip(attributes: Value, name: string, other: string, v: Value, default: Value)
    requires v != VNull && other != name
    ensures GetSetting(WithSetting(attributes, name, v), name, default) == v
    ensures GetSetting(WithSetting(attributes, name, v), other, default) == GetSetting(attributes, other, default)
  {
    KeyOfKeyText(name);
    KeyOfKeyText(other);
  }

  /** `get_switch_width`: the group's breakpoint and custom value, null
      for missing ones, resolved against the saved breakpoints. */
  function GetSwitchWidth(o: Wp.Options, attributes: Value): Value {
    Breakpoints.SwitchWidth(o, Get(Get(attributes, GROUP), BREAKPOINT), Get(Get(attributes, GROUP), CUSTOM_VALUE))
  }

  /** `$switch_width ?: '0px'`: a falsy switch width becomes `0px`, so the
      result is never falsy and a truthy width is kept. */
  function Fallback(width: Value): (r: Value)
    ensures Truthy(r)
    ensures Truthy(width) ==> r == width
    ensures !Truthy(width) ==> r == VStr("0px")
  {
    if Truthy(width) then width else VStr("0px")
  }

  /** `row` and `row-reverse`, compared strictly. */
  predicate Horizontal(orientation: Value) {
    orientation == VStr("row") || orientation == VStr("row-reverse")
  }

  /** The property the justification sets, and the one the vertical
      alignment sets: exchanged for the column orientations. */
  function HorizontalProperty(orientation: Value): string {
    if Horizontal(orientation) then "justify-content" else "align-items"
  }

  function VerticalProperty(orientation: Value): string {
    if Horizontal(orientation) then "align-items" else "justify-content"
  }

  /** `position: static`, when the stickiness switch is truthy. */
  function Position(sticky: Value): Css.Decls {
    if Truthy(sticky) then [("position", VStr("static"))] else []
  }

  /** `gap: <gap> !important`, for any gap but null (0 included). */
  function Gap(gap: Value): Css.Decls {
    if gap != VNull then [("gap", VStr(ToStr(gap) + " !important"))] else []
  }

  /** The two switches set only `position` and `gap`. */
  lemma SwitchesAvoid(a: Css.Decls, gap: Value, sticky: Value, p: string)
    requires p != "position" && p != "gap"
    ensures Css.Declared(a + Position(sticky) + Gap(gap), p) == Css.Declared(a, p)
  {
    Css.DeclaredAppend(a + Position(sticky), Gap(gap), p);
    Css.DeclaredAppend(a, Position(sticky), p);
  }

  /** After any declarations that set neither, `position` is `static`
      exactly for a truthy switch, and `gap` is set exactly when not null. */
  lemma SwitchesSpec(a: Css.Decls, gap: Value, sticky: Value)
    requires Css.Declared(a, "position") == None && Css.Declared(a, "gap") == None
    ensures var d := a + Position(sticky) + Gap(gap);
            && Css.Declared(d, "position") == (if Truthy(sticky) then Some(VStr("static")) else None)
            && Css.Declared(d, "gap") == (if gap != VNull then Some(VStr(ToStr(gap) + " !important")) else None)
  {
    assert "position"[0] != "gap"[0];
    Css.DeclaredAppend(a + Position(sticky), Gap(gap), "position");
    Css.DeclaredAppend(a, Position(sticky), "position");
    Css.DeclaredAppend(a + Position(sticky), Gap(gap), "gap");
    Css.DeclaredAppend(a, Position(sticky), "gap");
  }

  /** What the guards hand to a module: the block's attributes and the
      switch width. */
  datatype Context = Context(attributes: Value, switchWidth: Value)

  /** The block-name check: it fails only when both the module's name and
      the block's name are given and differ (strictly). */
  predicate NameMismatch(block: Value, blockName: Option<string>) {
    blockName.Some? && Get(block, BLOCK_NAME) != VNull && Get(block, BLOCK_NAME) != VStr(blockName.value)
  }

  /** The guards of `render_with_early_return` before
      `need_to_apply_changes`: non-empty content, a responsive block, no
      block-name mismatch, and a switch width. */
  function Guard(content: string, block: Value, blockName: Option<string>, o: Wp.Options): (r: Option<Context>)
    ensures r.Some? <==> content != "" && IsResponsive(block) && !NameMismatch(block, blockName) &&
                         GetSwitchWidth(o, Get(block, ATTRS)) != VNull
    ensures r.Some? ==> r.value == Context(Get(block, ATTRS), GetSwitchWidth(o, Get(block, ATTRS)))
    ensures r.Some? ==> r.value.attributes.VArr?
  {
    if content == "" || !IsResponsive(block) || NameMismatch(block, blockName) then None
    else
      // `$block['attrs'] ?? array()`: the attributes are an array here,
      // since the responsive group was found in them.
      var attributes := Get(block, ATTRS);
      var width := GetSwitchWidth(o, attributes);
      if width == VNull then None else Some(Context(attributes, width))
  }

  /** A block without a name passes the name check of every module. */
  lemma NamelessPasses(block: Value, blockName: Option<string>)
    requires Get(block, BLOCK_NAME) == VNull
    ensures !NameMismatch(block, blockName)
  {
  }

  /** A non-empty responsive block of the right name with the `custom`
      breakpoint and a custom value passes the guards, switching at that
      value; the saved breakpoints play no part. */
  lemma CustomBreakpointPasses(content: string, block: Value, blockName: Option<string>, o: Wp.Options, width: Value)
    requires content != "" && IsResponsive(block) && !NameMismatch(block, blockName)
    requires Get(Get(Get(block, ATTRS), GROUP), BREAKPOINT) == VStr(Breakpoints.CUSTOM)
    requires Get(Get(Get(block, ATTRS), GROUP), CUSTOM_VALUE) == width && width != VNull
    ensures Guard(content, block, blockName, o) == Some(Context(Get(block, ATTRS), width))
  {
  }

  /** A block whose breakpoint is the off value '' is never rendered on a
      site that kept the default breakpoints. */
  lemma OffBreakpointStops(content: string, block: Value, blockName: Option<string>, o: Wp.Options)
    requires Get(Get(Get(block, ATTRS), GROUP), BREAKPOINT) == VStr("")
    requires Breakpoints.Stored(o) == Breakpoints.DEFAULTS
    ensures Guard(content, block, blockName, o).None?
  {
    Breakpoints.OffNeverSwitches(Get(Get(Get(block, ATTRS), GROUP), CUSTOM_VALUE));
  }
}
