/** Responsive text (TextResponsive): below the switch width a heading,
    paragraph, post title or excerpt takes its responsive alignment. */
module TextResponsive {
  import opened Wrappers
  import opened Php
  import Wp
  import Breakpoints
  import Css
  import Responsive

  /** The module names no single block, so the base class's name check
      never fails; the block names are checked here instead. */
  const BLOCK_NAME: Option<string> := None

  const BLOCK_NAMES := ["core/post-title", "core/post-excerpt", "core/heading", "core/paragraph"]

  /** `need_to_apply_changes`: a loose `in_array` of the block name. */
  predicate Need(block: Value) {
    Breakpoints.InArrayLoose(Get(block, Responsive.BLOCK_NAME), BLOCK_NAMES)
  }

  /** The loose comparison lets through the four names and `true`. */
  lemma NeedSpec(block: Value)
    ensures var n := Get(block, Responsive.BLOCK_NAME);
            Need(block) <==> n == VBool(true) || (n.VStr? && n.s in BLOCK_NAMES)
  {
    assert forall i :: 0 <= i < |BLOCK_NAMES| ==> BLOCK_NAMES[i] != [] && BLOCK_NAMES[i][0] == 'c';
    Breakpoints.InArrayLooseWords(Get(block, Responsive.BLOCK_NAME), BLOCK_NAMES);
  }

  /** `render_with_early_return` with this module's `render`: nothing for
      a falsy alignment; otherwise the unique class and `text-align` on
      `body .id` below the switch width. */
  function Render(content: string, block: Value, o: Wp.Options, classId: string): (r: Css.Effect)
    ensures var g := Responsive.Guard(content, block, BLOCK_NAME, o);
            r != Css.NO_EFFECT <==>
              g.Some? && Need(block) && Truthy(Responsive.GetSetting(g.value.attributes, "alignment", VNull))
    ensures r != Css.NO_EFFECT ==>
              var c := Responsive.Guard(content, block, BLOCK_NAME, o).value;
              r == Css.Effect([classId], [], [],
                     [Css.ForMediaQuery(Css.Below(c.switchWidth), "body ." + classId,
                                        [("text-align", Responsive.GetSetting(c.attributes, "alignment", VNull))])])
  {
    match Responsive.Guard(content, block, BLOCK_NAME, o)
    case None => Css.NO_EFFECT
    case Some(c) =>
      var alignment := Responsive.GetSetting(c.attributes, "alignment", VNull);
      if !Need(block) || !Truthy(alignment) then Css.NO_EFFECT
      else Css.Effect([classId], [], [], [Css.ForMediaQuery(Css.Below(c.switchWidth), "body ." + classId, [("text-align", alignment)])])
  }

  /** Only the block's own name decides, whatever its responsive group. */
  lemma OtherBlocksUntouched(content: string, block: Value, o: Wp.Options, classId: string)
    requires Get(block, Responsive.BLOCK_NAME).VStr? && Get(block, Responsive.BLOCK_NAME).s !in BLOCK_NAMES
    ensures Render(content, block, o, classId) == Css.NO_EFFECT
  {
    NeedSpec(block);
  }
}
