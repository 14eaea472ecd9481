/** Responsive grids (GridResponsive): below the switch width a grid group
    can stack into one column, lose its stickiness and change its gap. */
module GridResponsive {
  import opened Wrappers
  import opened Php
  import Wp
  import Css
  import Responsive

  const BLOCK_NAME := Some("core/group")

  /** `need_to_apply_changes`: the group uses the grid layout. */
  predicate Need(attributes: Value) {
    Responsive.LayoutType(attributes) == VStr("grid")
  }

  /** One column, for a truthy stack switch. */
  function Stack(stack: Value): Css.Decls {
    if Truthy(stack) then [("grid-template-columns", VStr("repeat(1, 1fr)"))] else []
  }

  /** The declarations of `render`, from the three settings. */
  function Declarations(stack: Value, sticky: Value, gap: Value): Css.Decls {
    Stack(stack) + Responsive.Position(sticky) + Responsive.Gap(gap)
  }

  /** Each switch sets its own property and nothing else: one column
      exactly for a truthy stack switch, `position: static` exactly for a
      truthy stickiness switch, the gap exactly when it is not null. */
  lemma DeclarationsSpec(stack: Value, sticky: Value, gap: Value)
    ensures var d := Declarations(stack, sticky, gap);
            && Css.Declared(d, "grid-template-columns") == (if Truthy(stack) then Some(VStr("repeat(1, 1fr)")) else None)
            && Css.Declared(d, "position") == (if Truthy(sticky) then Some(VStr("static")) else None)
            && Css.Declared(d, "gap") == (if gap != VNull then Some(VStr(ToStr(gap) + " !important")) else None)
  {
    assert "grid-template-columns" != "gap" by { assert "grid-template-columns"[1] != "gap"[1]; }
    assert "grid-template-columns" != "position" by { assert "grid-template-columns"[0] != "position"[0]; }
    Css.DeclaredOne(("grid-template-columns", VStr("repeat(1, 1fr)")), "position");
    Css.DeclaredOne(("grid-template-columns", VStr("repeat(1, 1fr)")), "gap");
    Css.DeclaredOne(("grid-template-columns", VStr("repeat(1, 1fr)")), "grid-template-columns");
    Responsive.SwitchesSpec(Stack(stack), gap, sticky);
    Responsive.SwitchesAvoid(Stack(stack), gap, sticky, "grid-template-columns");
  }

  /** The declarations `render` reads from the block's settings. */
  function BlockDeclarations(attributes: Value): Css.Decls {
    Declarations(
      Responsive.GetSetting(attributes, "stack", VBool(false)),
      Responsive.GetSetting(attributes, "disablePositionSticky", VBool(false)),
      Responsive.GetSetting(attributes, "gap", VNull))
  }

  /** `render_with_early_return` with this module's checks: the unique
      class, and the declarations on `.id.id` below the switch width (the
      rule is emitted even when no switch is on). */
  function Render(content: string, block: Value, o: Wp.Options, classId: string): (r: Css.Effect)
    ensures var g := Responsive.Guard(content, block, BLOCK_NAME, o);
            r != Css.NO_EFFECT <==> g.Some? && Need(g.value.attributes)
    ensures r != Css.NO_EFFECT ==>
              var c := Responsive.Guard(content, block, BLOCK_NAME, o).value;
              r == Css.Effect([classId], [], [],
                     [Css.ForMediaQuery(Css.Below(c.switchWidth), "." + classId + "." + classId, BlockDeclarations(c.attributes))])
  {
    match Responsive.Guard(content, block, BLOCK_NAME, o)
    case None => Css.NO_EFFECT
    case Some(c) =>
      if Need(c.attributes) then
        Css.Effect([classId], [], [], [Css.ForMediaQuery(Css.Below(c.switchWidth), "." + classId + "." + classId, BlockDeclarations(c.attributes))])
      else Css.NO_EFFECT
  }
}
