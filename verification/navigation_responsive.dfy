/** Responsive navigation (NavigationResponsive): above its switch width a
    navigation block shows its menu expanded and hides the overlay
    opener; at or below it the block keeps the core overlay behaviour. */
module NavigationResponsive {
  import opened Wrappers
  import opened Php
  import OrderedMap
  import Wp
  import Breakpoints
  import Css
  import Responsive

  const BLOCK_NAME := "core/navigation"

  /** The attribute group of the overlay-menu settings. */
  const GROUP := StrKey("wpbbeOverlayMenu")

  /** The class marking a navigation block this module restyled. */
  const MARKER := "wpbbe-responsive-navigation"

  /** The overlay settings of the block's attributes. */
  function Settings(block: Value): Value {
    Get(Get(block, Responsive.ATTRS), GROUP)
  }

  /** `add_styles`' switch width: the saved breakpoint (or the custom
      value) resolved, `0px` when it resolves to nothing, so a breakpoint
      that cannot be resolved always shows the menu expanded. */
  function SwitchWidth(o: Wp.Options, settings: Value): (r: Value)
    ensures Truthy(r)
  {
    Responsive.Fallback(Breakpoints.SwitchWidth(o, Get(settings, Responsive.BREAKPOINT), Get(settings, Responsive.CUSTOM_VALUE)))
  }

  /** The four blocks of the media query: the opener hidden, the
      container shown in place, its close button hidden, and open
      submenus aligned to the left. */
  function Blocks(classId: string): (r: seq<Css.Block>)
    ensures |r| == 4
  {
    var nav := ".wp-block-navigation." + classId;
    var opener := nav + " .wp-block-navigation__responsive-container-open:not(.always-shown)";
    var content := nav + " .wp-block-navigation__responsive-container:not(.hidden-by-default):not(.is-menu-open)";
    var submenu := ".wp-block-navigation__submenu-container";
    [Css.Block(opener, [("display", VStr("none"))]),
     Css.Block(content, [("display", VStr("block")), ("position", VStr("relative")), ("width", VStr("100%")), ("z-index", VStr("auto"))]),
     Css.Block(content + " .wp-block-navigation__responsive-container-close", [("display", VStr("none"))]),
     Css.Block(nav + " .wp-block-navigation__responsive-container.is-menu-open " + submenu + submenu + submenu + submenu, [("left", VStr("0"))])]
  }

  /** Above the width the opener and the close button are not displayed
      and the menu container is, as a block. */
  lemma BlocksSpec(classId: string)
    ensures Css.Declared(Blocks(classId)[0].decls, "display") == Some(VStr("none"))
    ensures Css.Declared(Blocks(classId)[1].decls, "display") == Some(VStr("block"))
    ensures Css.Declared(Blocks(classId)[2].decls, "display") == Some(VStr("none"))
  {
    var d := Blocks(classId)[1].decls;
    assert d == [d[0]] + [d[1], d[2], d[3]];
    assert "display"[0] != "z-index"[0] && "display"[0] != "width"[0] && "display"[0] != "position"[0];
    Css.DeclaredThree(d[1], d[2], d[3], "display");
    Css.DeclaredAppend([d[0]], [d[1], d[2], d[3]], "display");
    Css.DeclaredOne(d[0], "display");
    Css.DeclaredOne(Blocks(classId)[0].decls[0], "display");
    Css.DeclaredOne(Blocks(classId)[2].decls[0], "display");
  }

  /** `render`: a non-empty navigation block with a truthy breakpoint gets
      the unique class and the marker class, and the rules above its
      switch width; any other block is left as it is. */
  function Render(content: string, block: Value, o: Wp.Options, classId: string): (r: Css.Effect)
    ensures r != Css.NO_EFFECT <==>
              Get(block, Responsive.BLOCK_NAME) == VStr(BLOCK_NAME) && content != "" &&
              Truthy(Get(Settings(block), Responsive.BREAKPOINT))
    ensures r != Css.NO_EFFECT ==>
              && r.classes == [classId, MARKER] && r.inline == [] && r.attributes == []
              && r.styles == [[Css.Media(Css.Above(SwitchWidth(o, Settings(block))), Blocks(classId))]]
  {
    if Get(block, Responsive.BLOCK_NAME) != VStr(BLOCK_NAME) || content == "" then Css.NO_EFFECT
    else if !Truthy(Get(Settings(block), Responsive.BREAKPOINT)) then Css.NO_EFFECT
    else
      var width := SwitchWidth(o, Settings(block));
      Css.Effect([classId, MARKER], [], [], [[Css.Media(Css.Above(width), Blocks(classId))]])
  }

  /** A breakpoint that is neither `custom` nor saved (one deleted since,
      say) resolves to nothing, so the rules sit above `0px`: the menu is
      always expanded. */
  lemma UnknownBreakpointExpands(o: Wp.Options, settings: Value)
    requires Get(settings, Responsive.BREAKPOINT) != VStr(Breakpoints.CUSTOM)
    requires var k := ArrayKey(Get(settings, Responsive.BREAKPOINT));
             k.Some? ==> k.value !in OrderedMap.Keys(Breakpoints.Stored(o))
    ensures SwitchWidth(o, settings) == VStr("0px")
  {
    Breakpoints.UnknownNeverSwitches(Breakpoints.Stored(o), Get(settings, Responsive.BREAKPOINT), Get(settings, Responsive.CUSTOM_VALUE));
  }

  /** A custom breakpoint with a truthy value switches exactly there. */
  lemma CustomBreakpointSwitches(o: Wp.Options, settings: Value)
    requires Get(settings, Responsive.BREAKPOINT) == VStr(Breakpoints.CUSTOM)
    requires Truthy(Get(settings, Responsive.CUSTOM_VALUE))
    ensures SwitchWidth(o, settings) == Get(settings, Responsive.CUSTOM_VALUE)
  {
  }
}
