/** Responsive columns (ColumnsResponsive): a columns block stacks below
    its switch width (optionally in reverse order) and keeps its columns
    side by side above it; a column's own width becomes its flex basis
    while the columns are stacked-capable. */
module ColumnsResponsive {
  import opened Wrappers
  import opened Php
  import OrderedMap
  import Wp
  import Settings
  import Breakpoints
  import Css
  import Responsive

  const COLUMNS_NAME := "core/columns"
  const COLUMN_NAME := "core/column"

  const WIDTH := StrKey("width")
  const STACKED := StrKey("isStackedOnMobile")
  const REVERSE := StrKey("reverseOrder")

  /** The class that turns stacking off. */
  const NOT_STACKED := "is-not-stacked-on-mobile"

  /** The selector of a column with a width inside stacking columns. */
  function ColumnSelector(classId: string): string {
    ".wp-block-columns:not(." + NOT_STACKED + ") > .wp-block-column." + classId + "[style*=flex-basis]"
  }

  /** `render_column`: a non-empty column with a width set gets the unique
      class and that width as its flex basis; any other block is left as
      it is. */
  function RenderColumn(content: string, block: Value, classId: string): (r: Css.Effect)
    ensures r != Css.NO_EFFECT <==>
              Get(block, Responsive.BLOCK_NAME) == VStr(COLUMN_NAME) && content != "" && IsSet(Get(block, Responsive.ATTRS), WIDTH)
    ensures r != Css.NO_EFFECT ==>
              && r.classes == [classId] && r.inline == [] && r.attributes == []
              && r.styles == [[Css.Plain(Css.Block(ColumnSelector(classId),
                                 [("flex-basis", VStr(ToStr(Get(Get(block, Responsive.ATTRS), WIDTH)) + " !important"))]))]]
  {
    if Get(block, Responsive.BLOCK_NAME) != VStr(COLUMN_NAME) || content == "" then Css.NO_EFFECT
    else
      var attributes := Get(block, Responsive.ATTRS);
      if !IsSet(attributes, WIDTH) then Css.NO_EFFECT
      else
        var basis := ToStr(Get(attributes, WIDTH)) + " !important";
        Css.Effect([classId], [], [], [[Css.Plain(Css.Block(ColumnSelector(classId), [("flex-basis", VStr(basis))]))]])
  }

  /** `isStackedOnMobile ?? true`: the core attribute, on by default. */
  predicate Stacked(attributes: Value) {
    Truthy(Coalesce(Get(attributes, STACKED), VBool(true)))
  }

  /** `get_responsive_configuration`: the block's responsive group when it
      is set; otherwise one built from `isStackedOnMobile` — the mobile
      breakpoint when stacking, the off value when not, no custom value
      and no reversal. */
  function Configuration(attributes: Value): (r: Value)
    ensures IsSet(attributes, Responsive.GROUP) ==> r == Get(attributes, Responsive.GROUP)
    ensures !IsSet(attributes, Responsive.GROUP) ==>
              && Get(r, Responsive.BREAKPOINT) == VStr(if Stacked(attributes) then "mobile" else "")
              && Get(r, Responsive.CUSTOM_VALUE) == VNull
              && Get(Get(r, Responsive.SETTINGS), REVERSE) == VBool(false)
  {
    if IsSet(attributes, Responsive.GROUP) then Get(attributes, Responsive.GROUP)
    else
      assert Responsive.CUSTOM_VALUE != Responsive.SETTINGS by { assert "breakpointCustomValue"[0] != "settings"[0]; }
      assert Responsive.BREAKPOINT != Responsive.SETTINGS by { assert "breakpoint"[0] != "settings"[0]; }
      assert Responsive.BREAKPOINT != Responsive.CUSTOM_VALUE by { assert |"breakpoint"| != |"breakpointCustomValue"|; }
      var breakpoint := VStr(if Stacked(attributes) then "mobile" else "");
      var settings := Set(VArr([]), REVERSE, VBool(false));
      Set(Set(Set(VArr([]), Responsive.BREAKPOINT, breakpoint), Responsive.CUSTOM_VALUE, VNull), Responsive.SETTINGS, settings)
  }

  /** The switch width of the configuration, `0px` when it resolves to
      nothing (or to an empty value): never falsy, so the columns never
      fall back to the stacking of the core stylesheet. */
  function SwitchWidth(o: Wp.Options, config: Value): (r: Value)
    ensures Truthy(r)
  {
    Responsive.Fallback(Breakpoints.SwitchWidth(o, Get(config, Responsive.BREAKPOINT), Get(config, Responsive.CUSTOM_VALUE)))
  }

  /** `settings.reverseOrder ?? false`. */
  predicate Reversed(config: Value) {
    Truthy(Coalesce(Get(Get(config, Responsive.SETTINGS), REVERSE), VBool(false)))
  }

  /** The declarations of the stacked columns block below the switch
      width. */
  function StackDeclarations(reverse: bool): Css.Decls {
    [("flex-direction", VStr(if reverse then "column-reverse" else "column")), ("align-items", VStr("stretch !important"))]
  }

  /** The stacked block runs top to bottom, or bottom to top exactly when
      reversed, and stretches its columns. */
  lemma StackDeclarationsSpec(reverse: bool)
    ensures Css.Declared(StackDeclarations(reverse), "flex-direction") == Some(VStr(if reverse then "column-reverse" else "column"))
    ensures Css.Declared(StackDeclarations(reverse), "align-items") == Some(VStr("stretch !important"))
  {
    var d := StackDeclarations(reverse);
    assert "flex-direction"[0] != "align-items"[0];
    Css.DeclaredTwo(d[0], d[1], "flex-direction");
    Css.DeclaredTwo(d[0], d[1], "align-items");
    assert d == [d[0], d[1]];
  }

  /** The rules of `add_styles_to_columns` for a switch width and an
      order: no wrapping at any width; below the width the columns stack
      (reversed on request) and fill the width; above it the columns
      without a width share the row and those with a width keep it. */
  function Rules(width: Value, reverse: bool, classId: string): (r: seq<Css.CssRule>)
    ensures |r| == 3 && r[0].Plain? && r[1].Media? && r[2].Media?
    ensures r[1].query == Css.Below(width) && r[2].query == Css.Above(width)
    ensures |r[1].blocks| == 2 && r[1].blocks[0].decls == StackDeclarations(reverse)
  {
    var selector := ".wp-block-columns." + classId + "." + classId;
    var stacked := selector + ":not(." + NOT_STACKED + ")";
    [Css.Plain(Css.Block(selector, [("flex-wrap", VStr("nowrap !important;"))])),
     Css.Media(Css.Below(width),
       [Css.Block(stacked, StackDeclarations(reverse)),
        Css.Block(stacked + " > .wp-block-column.wp-block-column",
          [("flex-basis", VStr("auto !important")), ("width", VStr("auto")), ("flex-grow", VStr("1")), ("align-self", VStr("auto !important"))])]),
     Css.Media(Css.Above(width),
       [Css.Block(stacked + " > .wp-block-column:not([style*=flex-basis])", [("flex-basis", VStr("0 !important")), ("flex-grow", VStr("1"))]),
        Css.Block(stacked + " > .wp-block-column[style*=flex-basis]", [("flex-grow", VStr("0"))])])]
  }

  /** `add_styles_to_columns`: the rules at the configuration's switch
      width and order. */
  function StylesToColumns(o: Wp.Options, attributes: Value, classId: string): seq<Css.CssRule> {
    var config := Configuration(attributes);
    Rules(SwitchWidth(o, config), Reversed(config), classId)
  }

  /** `render_columns`: a non-empty columns block gets the unique class,
      and then either the class turning stacking off or the stacking
      styles, never both. */
  function RenderColumns(content: string, block: Value, o: Wp.Options, classId: string): (r: Css.Effect)
    ensures r != Css.NO_EFFECT <==> Get(block, Responsive.BLOCK_NAME) == VStr(COLUMNS_NAME) && content != ""
    ensures r != Css.NO_EFFECT ==>
              var attributes := Get(block, Responsive.ATTRS);
              && r.inline == [] && r.attributes == []
              && r.classes == [classId] + (if Stacked(attributes) then [] else [NOT_STACKED])
              && r.styles == if Stacked(attributes) then [StylesToColumns(o, attributes, classId)] else []
  {
    if Get(block, Responsive.BLOCK_NAME) != VStr(COLUMNS_NAME) || content == "" then Css.NO_EFFECT
    else
      var attributes := Get(block, Responsive.ATTRS);
      if !Stacked(attributes) then Css.Effect([classId, NOT_STACKED], [], [], [])
      else Css.Effect([classId], [], [], [StylesToColumns(o, attributes, classId)])
  }

  /** Styles are only added to stacking columns, so the configuration
      built for a block without responsive settings always names the
      mobile breakpoint there; on a site with the default breakpoints the
      columns stack at 480px. */
  lemma UnsetStacksAtMobile(o: Wp.Options, attributes: Value)
    requires Stacked(attributes) && !IsSet(attributes, Responsive.GROUP)
    requires Settings.BREAKPOINTS_OPTION !in OrderedMap.Keys(o)
    ensures Get(Configuration(attributes), Responsive.BREAKPOINT) == VStr("mobile")
    ensures SwitchWidth(o, Configuration(attributes)) == VStr("480px")
    ensures !Reversed(Configuration(attributes))
  {
    var config := Configuration(attributes);
    assert Get(config, Responsive.BREAKPOINT) == VStr("mobile");
    assert Get(config, Responsive.CUSTOM_VALUE) == VNull;
    Breakpoints.DefaultWidths(o);
    assert Truthy(VStr("480px"));
  }

  /** A block that turned stacking off is never restyled, whatever its
      responsive settings say. */
  lemma NotStackedHasNoStyles(content: string, block: Value, o: Wp.Options, classId: string)
    requires !Stacked(Get(block, Responsive.ATTRS))
    ensures RenderColumns(content, block, o, classId).styles == []
  {
  }
}
