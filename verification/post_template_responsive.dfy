/** Responsive post templates (PostTemplateResponsive): below the switch
    width a grid of posts stacks into one column, with its own gap. */
module PostTemplateResponsive {
  import opened Wrappers
  import opened Php
  import Wp
  import Css
  import Responsive

  const BLOCK_NAME := Some("core/post-template")

  /** `need_to_apply_changes`: only the grid layout. */
  predicate Need(attributes: Value) {
    Responsive.LayoutType(attributes) == VStr("grid")
  }

  /** One column always; the gap when it is not null. */
  function Declarations(gap: Value): Css.Decls {
    [("grid-template-columns", VStr("repeat(1, 1fr) !important"))] + Responsive.Gap(gap)
  }

  /** The grid always collapses to one column; the gap, even 0, is set
      exactly when it is not null. */
  lemma DeclarationsSpec(gap: Value)
    ensures Css.Declared(Declarations(gap), "grid-template-columns") == Some(VStr("repeat(1, 1fr) !important"))
    ensures Css.Declared(Declarations(gap), "gap") == if gap != VNull then Some(VStr(ToStr(gap) + " !important")) else None
  {
    var a := [("grid-template-columns", VStr("repeat(1, 1fr) !important"))];
    assert "grid-template-columns" != "gap" by { assert "grid-template-columns"[1] != "gap"[1]; }
    assert "grid-template-columns" != "position" by { assert "grid-template-columns"[0] != "position"[0]; }
    Css.DeclaredOne(a[0], "position");
    Css.DeclaredOne(a[0], "gap");
    Css.DeclaredOne(a[0], "grid-template-columns");
    Responsive.SwitchesAvoid(a, gap, VBool(false), "grid-template-columns");
    Responsive.SwitchesSpec(a, gap, VBool(false));
    assert a + Responsive.Position(VBool(false)) == a;
  }

  /** `render_with_early_return` with this module's checks: the unique
      class, and the declarations on `body .id` below the switch width. */
  function Render(content: string, block: Value, o: Wp.Options, classId: string): (r: Css.Effect)
    ensures var g := Responsive.Guard(content, block, BLOCK_NAME, o);
            r != Css.NO_EFFECT <==> g.Some? && Need(g.value.attributes)
    ensures r != Css.NO_EFFECT ==>
              var c := Responsive.Guard(content, block, BLOCK_NAME, o).value;
              r == Css.Effect([classId], [], [],
                     [Css.ForMediaQuery(Css.Below(c.switchWidth), "body ." + classId,
                                        Declarations(Responsive.GetSetting(c.attributes, "gap", VNull)))])
  {
    match Responsive.Guard(content, block, BLOCK_NAME, o)
    case None => Css.NO_EFFECT
    case Some(c) =>
      if Need(c.attributes) then
        Css.Effect([classId], [], [],
          [Css.ForMediaQuery(Css.Below(c.switchWidth), "body ." + classId, Declarations(Responsive.GetSetting(c.attributes, "gap", VNull)))])
      else Css.NO_EFFECT
  }
}
