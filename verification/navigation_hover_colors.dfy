/** Hover colours of a navigation block (NavigationHoverColors): a menu
    and a submenu hover colour, each turned into a marker class and a CSS
    custom property on the block. */
module NavigationHoverColors {
  import opened Wrappers
  import opened Php
  import ColorUtils
  import Css
  import Responsive

  const BLOCK_NAME := "core/navigation"
  const MENU_COLOR := StrKey("wpbbeMenuHoverColor")
  const SUBMENU_COLOR := StrKey("wpbbeSubmenuHoverColor")

  const MENU_PROPERTY := "--wp-navigation-hover"
  const SUBMENU_PROPERTY := "--wp-navigation-submenu-hover"

  /** One colour's change: its class and its property, for a colour that
      is not null. */
  function Part(color: Value, marker: string, property: string): (r: Css.Effect)
    ensures color == VNull <==> r == Css.NO_EFFECT
  {
    if color != VNull then Css.Effect([marker], [(property, ColorUtils.ColorAttributeToCss(color))], [], [])
    else Css.NO_EFFECT
  }

  /** `render`: a non-empty navigation block gets the menu colour's change
      and then the submenu colour's; any other block, or one with neither
      colour, is left as it is. */
  function Render(content: string, block: Value): (r: Css.Effect)
    ensures var attributes := Get(block, Responsive.ATTRS);
            r != Css.NO_EFFECT <==>
              Get(block, Responsive.BLOCK_NAME) == VStr(BLOCK_NAME) && content != "" &&
              (Get(attributes, MENU_COLOR) != VNull || Get(attributes, SUBMENU_COLOR) != VNull)
    ensures r != Css.NO_EFFECT ==>
              var attributes := Get(block, Responsive.ATTRS);
              r == Css.Then(Part(Get(attributes, MENU_COLOR), "has-hover", MENU_PROPERTY),
                            Part(Get(attributes, SUBMENU_COLOR), "has-submenu-hover", SUBMENU_PROPERTY))
  {
    if Get(block, Responsive.BLOCK_NAME) != VStr(BLOCK_NAME) || content == "" then Css.NO_EFFECT
    else
      var main := Get(Get(block, Responsive.ATTRS), MENU_COLOR);
      var submenu := Get(Get(block, Responsive.ATTRS), SUBMENU_COLOR);
      if main == VNull && submenu == VNull then Css.NO_EFFECT
      else Css.Then(Part(main, "has-hover", MENU_PROPERTY), Part(submenu, "has-submenu-hover", SUBMENU_PROPERTY))
  }

  /** Each colour lands on its own property as its CSS value, and a
      missing colour sets no property: the two colours are independent. */
  lemma PropertiesSpec(main: Value, submenu: Value)
    ensures var e := Css.Then(Part(main, "has-hover", MENU_PROPERTY), Part(submenu, "has-submenu-hover", SUBMENU_PROPERTY));
            && Css.Declared(e.inline, MENU_PROPERTY) == (if main != VNull then Some(ColorUtils.ColorAttributeToCss(main)) else None)
            && Css.Declared(e.inline, SUBMENU_PROPERTY) == (if submenu != VNull then Some(ColorUtils.ColorAttributeToCss(submenu)) else None)
  {
    var a := Part(main, "has-hover", MENU_PROPERTY);
    var b := Part(submenu, "has-submenu-hover", SUBMENU_PROPERTY);
    assert MENU_PROPERTY != SUBMENU_PROPERTY by { assert MENU_PROPERTY[16] != SUBMENU_PROPERTY[16]; }
    Css.DeclaredAppend(a.inline, b.inline, MENU_PROPERTY);
    Css.DeclaredAppend(a.inline, b.inline, SUBMENU_PROPERTY);
    if main != VNull {
      Css.DeclaredOne(a.inline[0], MENU_PROPERTY);
      Css.DeclaredOne(a.inline[0], SUBMENU_PROPERTY);
    }
    if submenu != VNull {
      Css.DeclaredOne(b.inline[0], MENU_PROPERTY);
      Css.DeclaredOne(b.inline[0], SUBMENU_PROPERTY);
    }
  }

  /** The marker classes follow the colours, menu first. */
  lemma ClassesSpec(main: Value, submenu: Value)
    ensures var e := Css.Then(Part(main, "has-hover", MENU_PROPERTY), Part(submenu, "has-submenu-hover", SUBMENU_PROPERTY));
            e.classes == (if main != VNull then ["has-hover"] else []) + (if submenu != VNull then ["has-submenu-hover"] else [])
  {
  }
}
