/** Text style from element (TextStyleFromElement): heading, paragraph,
    post title and post excerpt blocks can borrow the text style the theme
    gives another element, and can be announced as headings. */
module TextStyleFromElement {
  import opened Php
  import Css
  import Responsive
  import TextResponsive

  const ROLE_HEADING := StrKey("wpbbeRoleHeading")
  const TEXT_STYLE := StrKey("wpbbeTextStyleFromElement")
  const HEADING_ELEMENTS := ["h1", "h2", "h3", "h4", "h5", "h6"]
  const PREFIX := "wpbbe-text-style-from-element-"
  const CORE_HEADING_CLASS := "wp-block-heading"
  const TYPOGRAPHY := StrKey("typography")

  /** The classes for a chosen element: the prefixed element name, and the
      core heading class when the choice is one of the six heading tags
      (a strict comparison: only those exact strings). */
  function Classes(use: Value): (r: seq<string>)
    ensures 1 <= |r| <= 2 && r[0] == PREFIX + ToStr(use)
    ensures |r| == 2 <==> use.VStr? && use.s in HEADING_ELEMENTS
    ensures |r| == 2 ==> r[1] == CORE_HEADING_CLASS
  {
    [PREFIX + ToStr(use)] + (if use.VStr? && use.s in HEADING_ELEMENTS then [CORE_HEADING_CLASS] else [])
  }

  /** `render`: for one of the four text blocks with content, a strictly
      true heading-role switch sets `role="heading"`, and a chosen element
      appends its classes; every other block is left as it is. */
  function Render(content: string, block: Value): (r: Css.Effect)
    ensures !TextResponsive.Need(block) || content == "" ==> r == Css.NO_EFFECT
    ensures r.inline == [] && r.styles == []
    ensures r.attributes != [] <==> TextResponsive.Need(block) && content != "" && Get(Get(block, Responsive.ATTRS), ROLE_HEADING) == VBool(true)
    ensures r.attributes != [] ==> r.attributes == [("role", "heading")]
    ensures r.classes != [] <==> TextResponsive.Need(block) && content != "" && Get(Get(block, Responsive.ATTRS), TEXT_STYLE) != VNull
    ensures r.classes != [] ==> r.classes == Classes(Get(Get(block, Responsive.ATTRS), TEXT_STYLE))
  {
    if !TextResponsive.Need(block) || content == "" then Css.NO_EFFECT
    else
      var attrs := Get(block, Responsive.ATTRS);
      var role := if Get(attrs, ROLE_HEADING) == VBool(true) then [("role", "heading")] else [];
      var use := Get(attrs, TEXT_STYLE);
      Css.Effect(if use == VNull then [] else Classes(use), [], role, [])
  }

  /** A block of another name is never changed. */
  lemma OtherBlocksUntouched(content: string, block: Value)
    requires Get(block, Responsive.BLOCK_NAME).VStr? && Get(block, Responsive.BLOCK_NAME).s !in TextResponsive.BLOCK_NAMES
    ensures Render(content, block) == Css.NO_EFFECT
  {
    TextResponsive.NeedSpec(block);
  }

  /** Borrowing the style of `h2` adds both its class and the core
      heading class. */
  lemma HeadingAddsCoreClass(content: string, block: Value)
    requires TextResponsive.Need(block) && content != ""
    requires Get(Get(block, Responsive.ATTRS), TEXT_STYLE) == VStr("h2")
    ensures Render(content, block).classes == [PREFIX + "h2", CORE_HEADING_CLASS]
  {
    assert HEADING_ELEMENTS[1] == "h2";
    assert Classes(VStr("h2")) == [PREFIX + "h2", CORE_HEADING_CLASS];
  }

  /** The "all headings" choice is not itself a heading tag, so it gets
      only its own class. */
  lemma AllHeadingsOnlyOwnClass(content: string, block: Value)
    requires TextResponsive.Need(block) && content != ""
    requires Get(Get(block, Responsive.ATTRS), TEXT_STYLE) == VStr("heading")
    ensures Render(content, block).classes == [PREFIX + "heading"]
  {
    assert |"heading"| == 7 && "heading" !in HEADING_ELEMENTS;
    assert Classes(VStr("heading")) == [PREFIX + "heading"];
  }

  /** The role switch is compared strictly: a truthy non-boolean such as
      `1` sets no role. */
  lemma RoleIsStrict(content: string, block: Value)
    requires Get(Get(block, Responsive.ATTRS), ROLE_HEADING) == VInt(1)
    ensures Render(content, block).attributes == []
  {
  }

  /** `get_text_style_to_borrow`: the section's typography under the same
      key when it is non-empty, and an empty array otherwise. */
  function TextStyleToBorrow(section: Value): (r: Value)
    ensures r.VArr? && |r.entries| <= 1
    ensures Get(r, TYPOGRAPHY) == (if Truthy(Get(section, TYPOGRAPHY)) then Get(section, TYPOGRAPHY) else VNull)
    ensures Truthy(r) <==> Truthy(Get(section, TYPOGRAPHY))
  {
    var t := Get(section, TYPOGRAPHY);
    if Truthy(t) then VArr([(TYPOGRAPHY, t)]) else VArr([])
  }

  /** Borrowing from what was borrowed gives the same styles again. */
  lemma BorrowIdempotent(section: Value)
    ensures TextStyleToBorrow(TextStyleToBorrow(section)) == TextStyleToBorrow(section)
  {
  }
}
