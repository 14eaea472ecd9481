/** Responsive buttons (ButtonsResponsive): below the switch width a
    buttons block takes its responsive orientation and justification. */
module ButtonsResponsive {
  import opened Wrappers
  import opened Php
  import Wp
  import BlockUtils
  import Css
  import Responsive

  const BLOCK_NAME := Some("core/buttons")

  /** The two declarations: the direction, exactly as set, and the
      justification on the property the orientation picks (as a value,
      null for an unknown word). */
  function Declarations(orientation: Value, justification: Value): Css.Decls {
    [("flex-direction", orientation),
     (Responsive.HorizontalProperty(orientation), BlockUtils.HorizontalAlignment(justification, orientation == VStr("row-reverse")))]
  }

  /** The direction is the orientation; the justification lands on
      `justify-content` for the row orientations and on `align-items` for
      any other, and the other property is left alone. */
  lemma DeclarationsSpec(orientation: Value, justification: Value)
    ensures var d := Declarations(orientation, justification);
            var a := BlockUtils.HorizontalAlignment(justification, orientation == VStr("row-reverse"));
            && Css.Declared(d, "flex-direction") == Some(orientation)
            && Css.Declared(d, "justify-content") == (if Responsive.Horizontal(orientation) then Some(a) else None)
            && Css.Declared(d, "align-items") == (if Responsive.Horizontal(orientation) then None else Some(a))
  {
    var d := Declarations(orientation, justification);
    assert "justify-content"[0] != "align-items"[0] && "flex-direction"[0] != "justify-content"[0] && "flex-direction"[0] != "align-items"[0];
    Css.DeclaredPair(d, "flex-direction");
    Css.DeclaredPair(d, "justify-content");
    Css.DeclaredPair(d, "align-items");
    assert d[..1] == [d[0]];
  }

  /** `row-reverse` justifies like `row` with left and right exchanged. */
  lemma ReverseMirrors(w: string)
    ensures Css.Declared(Declarations(VStr("row-reverse"), VStr(w)), "justify-content") ==
            Css.Declared(Declarations(VStr("row"), VStr(BlockUtils.Mirror(w))), "justify-content")
  {
    DeclarationsSpec(VStr("row-reverse"), VStr(w));
    DeclarationsSpec(VStr("row"), VStr(BlockUtils.Mirror(w)));
    BlockUtils.AlignmentSpec(w);
  }

  /** `render`: the unique class, and the declarations read with their
      defaults (`row`, `left`) on `.wp-block-buttons.id.id.id` below the
      switch width. The module applies to every block that passes the
      guards. */
  function Render(content: string, block: Value, o: Wp.Options, classId: string): (r: Css.Effect)
    ensures Responsive.Guard(content, block, BLOCK_NAME, o).None? ==> r == Css.NO_EFFECT
    ensures Responsive.Guard(content, block, BLOCK_NAME, o).Some? ==>
              var c := Responsive.Guard(content, block, BLOCK_NAME, o).value;
              && r.classes == [classId] && |r.styles| == 1
              && r.styles[0] == Css.ForMediaQuery(Css.Below(c.switchWidth),
                   ".wp-block-buttons." + classId + "." + classId + "." + classId,
                   Declarations(Responsive.GetSetting(c.attributes, "orientation", VStr("row")),
                                Responsive.GetSetting(c.attributes, "justification", VStr("left"))))
  {
    match Responsive.Guard(content, block, BLOCK_NAME, o)
    case None => Css.NO_EFFECT
    case Some(c) =>
      var orientation := Responsive.GetSetting(c.attributes, "orientation", VStr("row"));
      var justification := Responsive.GetSetting(c.attributes, "justification", VStr("left"));
      var selector := ".wp-block-buttons." + classId + "." + classId + "." + classId;
      Css.Effect([classId], [], [], [Css.ForMediaQuery(Css.Below(c.switchWidth), selector, Declarations(orientation, justification))])
  }
}
