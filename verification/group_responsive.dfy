/** Responsive groups (GroupResponsive): below the switch width the
    content of a plain or constrained group is pushed to one side by its
    margins, and can lose its stickiness. */
module GroupResponsive {
  import opened Wrappers
  import opened Php
  import Wp
  import Breakpoints
  import Css
  import Responsive

  const BLOCK_NAME := Some("core/group")

  /** `need_to_apply_changes`: a loose `in_array` of the layout type in
      `default` and `constrained`. */
  predicate Need(attributes: Value) {
    Breakpoints.InArrayLoose(Responsive.LayoutType(attributes), ["default", "constrained"])
  }

  /** The loose comparison lets through the two words and `true`. */
  lemma NeedSpec(attributes: Value)
    ensures var t := Responsive.LayoutType(attributes);
            Need(attributes) <==> t == VStr("default") || t == VStr("constrained") || t == VBool(true)
  {
    var ws := ["default", "constrained"];
    assert ws[1..] == ["constrained"];
    assert ws[1..][1..] == [];
  }

  /** The margins: the side the content is justified to gets 0, any other
      side `auto`. */
  function Margins(justification: Value): Css.Decls {
    [("margin-left", VStr((if justification == VStr("left") then "0" else "auto") + " !important")),
     ("margin-right", VStr((if justification == VStr("right") then "0" else "auto") + " !important"))]
  }

  /** The left margin is 0 exactly for `left`, the right one exactly for
      `right`, so never both; `center` (or anything else) centres. */
  lemma MarginsSpec(justification: Value)
    ensures Css.Declared(Margins(justification), "margin-left") ==
              Some(VStr(if justification == VStr("left") then "0 !important" else "auto !important"))
    ensures Css.Declared(Margins(justification), "margin-right") ==
              Some(VStr(if justification == VStr("right") then "0 !important" else "auto !important"))
    ensures !(Css.Declared(Margins(justification), "margin-left") == Some(VStr("0 !important")) &&
              Css.Declared(Margins(justification), "margin-right") == Some(VStr("0 !important")))
  {
    var d := Margins(justification);
    assert "margin-left" != "margin-right" by { assert "margin-left"[7] != "margin-right"[7]; }
    Css.DeclaredTwo(d[0], d[1], "margin-left");
    Css.DeclaredTwo(d[0], d[1], "margin-right");
    assert d == [d[0], d[1]];
    assert "0" + " !important" == "0 !important";
    assert "auto" + " !important" == "auto !important";
    assert "0 !important"[0] != "auto !important"[0];
  }

  /** The two media queries `render` emits: the margins on the group's
      direct children that are not aligned left, right or full, and
      `position: static` on the group for a truthy stickiness switch. */
  function Styles(attributes: Value, classId: string, width: Value): (r: seq<seq<Css.CssRule>>)
    ensures |r| == if Truthy(Responsive.GetSetting(attributes, "disablePositionSticky", VBool(false))) then 2 else 1
    ensures r[0] == Css.ForMediaQuery(Css.Below(width),
              "." + classId + "." + classId + " > :where(:not(.alignleft):not(.alignright):not(.alignfull))",
              Margins(Responsive.GetSetting(attributes, "justification", VStr("left"))))
    ensures |r| == 2 ==> r[1] == Css.ForMediaQuery(Css.Below(width), "." + classId + "." + classId, [("position", VStr("static"))])
  {
    var query := Css.Below(width);
    var margins := Css.ForMediaQuery(query, "." + classId + "." + classId + " > :where(:not(.alignleft):not(.alignright):not(.alignfull))",
                                     Margins(Responsive.GetSetting(attributes, "justification", VStr("left"))));
    if Truthy(Responsive.GetSetting(attributes, "disablePositionSticky", VBool(false))) then
      [margins, Css.ForMediaQuery(query, "." + classId + "." + classId, [("position", VStr("static"))])]
    else [margins]
  }

  /** `render_with_early_return` with this module's checks. */
  function Render(content: string, block: Value, o: Wp.Options, classId: string): (r: Css.Effect)
    ensures var g := Responsive.Guard(content, block, BLOCK_NAME, o);
            r != Css.NO_EFFECT <==> g.Some? && Need(g.value.attributes)
    ensures r != Css.NO_EFFECT ==>
              var c := Responsive.Guard(content, block, BLOCK_NAME, o).value;
              r == Css.Effect([classId], [], [], Styles(c.attributes, classId, c.switchWidth))
  {
    match Responsive.Guard(content, block, BLOCK_NAME, o)
    case None => Css.NO_EFFECT
    case Some(c) =>
      if Need(c.attributes) then Css.Effect([classId], [], [], Styles(c.attributes, classId, c.switchWidth))
      else Css.NO_EFFECT
  }
}
