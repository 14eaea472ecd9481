/** Responsive rows (RowResponsive): below the switch width a flex group
    takes its responsive orientation, alignments, gap and stickiness; when
    the orientation turns, the children lose their flex basis. */
module RowResponsive {
  import opened Wrappers
  import opened Php
  import Wp
  import BlockUtils
  import Breakpoints
  import Css
  import Responsive

  const BLOCK_NAME := Some("core/group")
  const ORIENTATION := StrKey("orientation")

  /** `need_to_apply_changes`: the group uses the flex layout. */
  predicate Need(attributes: Value) {
    Responsive.LayoutType(attributes) == VStr("flex")
  }

  /** The vertical alignment map, or its reverse for `column-reverse`. A
      value that is not one of the five words (only strings can be) reads
      as null. */
  function VerticalAlignment(v: Value, reverse: bool): Value {
    if v == VStr("top") then VStr(if reverse then "flex-end" else "flex-start")
    else if v == VStr("bottom") then VStr(if reverse then "flex-start" else "flex-end")
    else if v == VStr("center") || v == VStr("stretch") || v == VStr("space-between") then v
    else VNull
  }

  predicate VerticalWord(v: Value) {
    v == VStr("top") || v == VStr("bottom") || v == VStr("center") || v == VStr("stretch") || v == VStr("space-between")
  }

  /** `top` and `bottom` exchanged. */
  function Flip(v: Value): Value {
    if v == VStr("top") then VStr("bottom") else if v == VStr("bottom") then VStr("top") else v
  }

  /** The map is defined exactly on the five words; the reversed map is the
      plain map after exchanging top and bottom. */
  lemma VerticalAlignmentSpec(v: Value)
    ensures VerticalAlignment(v, false) != VNull <==> VerticalWord(v)
    ensures VerticalAlignment(v, true) != VNull <==> VerticalWord(v)
    ensures VerticalAlignment(v, true) == VerticalAlignment(Flip(v), false)
  {
  }

  /** The declarations every row gets: the two alignments and the
      direction. */
  function Alignments(justification: Value, orientation: Value, vertical: Value): Css.Decls {
    var hv := ToStr(BlockUtils.HorizontalAlignment(justification, orientation == VStr("row-reverse"))) + " !important";
    var vv := ToStr(VerticalAlignment(vertical, orientation == VStr("column-reverse"))) + " !important";
    [(Responsive.HorizontalProperty(orientation), VStr(hv)), (Responsive.VerticalProperty(orientation), VStr(vv)),
     ("flex-direction", VStr(ToStr(orientation)))]
  }

  /** The declarations of `add_styles`, from the five settings. */
  function Declarations(justification: Value, orientation: Value, vertical: Value, gap: Value, sticky: Value): Css.Decls {
    Alignments(justification, orientation, vertical) + Responsive.Position(sticky) + Responsive.Gap(gap)
  }

  /** The alignments land on the two properties the orientation picks,
      reversed for the reverse orientations, and the direction is the
      orientation as a string. */
  lemma AlignmentsSpec(justification: Value, orientation: Value, vertical: Value, gap: Value, sticky: Value)
    ensures var d := Declarations(justification, orientation, vertical, gap, sticky);
            && Responsive.HorizontalProperty(orientation) != Responsive.VerticalProperty(orientation)
            && Css.Declared(d, Responsive.HorizontalProperty(orientation)) ==
                 Some(VStr(ToStr(BlockUtils.HorizontalAlignment(justification, orientation == VStr("row-reverse"))) + " !important"))
            && Css.Declared(d, Responsive.VerticalProperty(orientation)) ==
                 Some(VStr(ToStr(VerticalAlignment(vertical, orientation == VStr("column-reverse"))) + " !important"))
            && Css.Declared(d, "flex-direction") == Some(VStr(ToStr(orientation)))
  {
    var h := Responsive.HorizontalProperty(orientation);
    var v := Responsive.VerticalProperty(orientation);
    assert h[0] != v[0] && h[0] != 'f' && v[0] != 'f';
    var a := Alignments(justification, orientation, vertical);
    Css.DeclaredThree(a[0], a[1], a[2], h);
    Css.DeclaredThree(a[0], a[1], a[2], v);
    Css.DeclaredThree(a[0], a[1], a[2], "flex-direction");
    assert a == [a[0], a[1], a[2]];
    Responsive.SwitchesAvoid(a, gap, sticky, h);
    Responsive.SwitchesAvoid(a, gap, sticky, v);
    Responsive.SwitchesAvoid(a, gap, sticky, "flex-direction");
  }

  /** `position` comes only with a truthy stickiness switch, and `gap`,
      even 0, whenever it is not null. */
  lemma SwitchesSpec(justification: Value, orientation: Value, vertical: Value, gap: Value, sticky: Value)
    ensures var d := Declarations(justification, orientation, vertical, gap, sticky);
            && Css.Declared(d, "position") == (if Truthy(sticky) then Some(VStr("static")) else None)
            && Css.Declared(d, "gap") == (if gap != VNull then Some(VStr(ToStr(gap) + " !important")) else None)
  {
    var a := Alignments(justification, orientation, vertical);
    assert Css.Declared(a, "position") == None && Css.Declared(a, "gap") == None by {
      var h := Responsive.HorizontalProperty(orientation);
      var v := Responsive.VerticalProperty(orientation);
      assert h[0] != 'p' && h[0] != 'g' && v[0] != 'p' && v[0] != 'g';
      Css.DeclaredThree(a[0], a[1], a[2], "position");
      Css.DeclaredThree(a[0], a[1], a[2], "gap");
      assert a == [a[0], a[1], a[2]];
    }
    Responsive.SwitchesSpec(a, gap, sticky);
  }

  /** The declarations `add_styles` reads from the block's settings. */
  function BlockDeclarations(attributes: Value): Css.Decls {
    Declarations(
      Responsive.GetSetting(attributes, "justification", VStr("left")),
      Responsive.GetSetting(attributes, "orientation", VStr("row")),
      Responsive.GetSetting(attributes, "verticalAlignment", VStr("top")),
      Responsive.GetSetting(attributes, "gap", VNull),
      Responsive.GetSetting(attributes, "disablePositionSticky", VBool(false)))
  }

  /** The orientation the group has outside the media query. As written,
      line 123 reads the undefined local `$attributes`, so it is always
      `horizontal`; the intended reading is the block's own
      `layout.orientation`, horizontal by default. */
  function LayoutOrientation(attributes: Value, asWritten: bool): Value {
    if asWritten then VStr("horizontal")
    else Coalesce(Get(Get(attributes, Responsive.LAYOUT), ORIENTATION), VStr("horizontal"))
  }

  /** The orientation inside the media query, by a loose `in_array`. */
  function ResponsiveOrientation(orientation: Value): string {
    if Breakpoints.InArrayLoose(orientation, ["row", "row-reverse"]) then "horizontal" else "vertical"
  }

  /** `in_array($orientation, ['row', 'row-reverse'])` holds for those two
      strings and for `true`, which loosely equals every non-empty string. */
  lemma HorizontalWords(v: Value)
    ensures Breakpoints.InArrayLoose(v, ["row", "row-reverse"]) <==> v == VBool(true) || v == VStr("row") || v == VStr("row-reverse")
  {
    var ws := ["row", "row-reverse"];
    assert ws[1..] == ["row-reverse"];
    assert ws[1..][1..] == [];
  }

  /** The children's flex basis is reset when the orientation turns. */
  predicate Turns(attributes: Value, asWritten: bool) {
    LayoutOrientation(attributes, asWritten) != VStr(ResponsiveOrientation(Responsive.GetSetting(attributes, "orientation", VStr("row"))))
  }

  /** `add_styles`: one media query below the switch width with the
      declarations on `body .id.id`, and the flex-basis reset on its
      children when the orientation turns. */
  function Rules(attributes: Value, classId: string, width: Value, asWritten: bool): (r: seq<Css.CssRule>)
    ensures |r| == 1 && r[0].Media? && r[0].query == Css.Below(width)
    ensures |r[0].blocks| == if Turns(attributes, asWritten) then 2 else 1
    ensures r[0].blocks[0] == Css.Block("body ." + classId + "." + classId, BlockDeclarations(attributes))
  {
    var selector := "body ." + classId + "." + classId;
    var reset := if Turns(attributes, asWritten) then [Css.Block(selector + " > *", [("flex-basis", VStr("auto !important"))])] else [];
    [Css.Media(Css.Below(width), [Css.Block(selector, BlockDeclarations(attributes))] + reset)]
  }

  /** As written, the reset comes exactly with an orientation that is
      neither `row`, `row-reverse` nor `true`, whatever the layout says. */
  lemma AsWrittenTurns(attributes: Value)
    ensures var o := Responsive.GetSetting(attributes, "orientation", VStr("row"));
            Turns(attributes, true) <==> !(o == VBool(true) || o == VStr("row") || o == VStr("row-reverse"))
  {
    HorizontalWords(Responsive.GetSetting(attributes, "orientation", VStr("row")));
  }

  /** Read as intended, the reset comes exactly when the group turns: a
      row (or a group with no orientation) shown as a column, a stack shown
      as a row, or an orientation that is neither. */
  lemma IntendedTurns(attributes: Value)
    ensures var o := Responsive.GetSetting(attributes, "orientation", VStr("row"));
            var row := o == VBool(true) || o == VStr("row") || o == VStr("row-reverse");
            var l := Coalesce(Get(Get(attributes, Responsive.LAYOUT), ORIENTATION), VStr("horizontal"));
            Turns(attributes, false) <==>
              (l == VStr("horizontal") && !row) || (l == VStr("vertical") && row)
              || (l != VStr("horizontal") && l != VStr("vertical"))
  {
    HorizontalWords(Responsive.GetSetting(attributes, "orientation", VStr("row")));
  }

  /** The two readings agree on a group whose layout orientation is unset
      or horizontal. */
  lemma HorizontalLayoutAgrees(attributes: Value)
    requires Get(Get(attributes, Responsive.LAYOUT), ORIENTATION) in {VNull, VStr("horizontal")}
    ensures Turns(attributes, true) == Turns(attributes, false)
  {
  }

  /** A stack (layout orientation `vertical`) shown as a column below the
      switch width keeps its orientation: the intended reading adds no
      reset, the code as written does. */
  lemma VerticalStackDiscrepancy(attributes: Value, classId: string, width: Value)
    requires Get(Get(attributes, Responsive.LAYOUT), ORIENTATION) == VStr("vertical")
    requires Responsive.GetSetting(attributes, "orientation", VStr("row")) == VStr("column")
    ensures |Rules(attributes, classId, width, true)[0].blocks| == 2
    ensures |Rules(attributes, classId, width, false)[0].blocks| == 1
  {
    HorizontalWords(VStr("column"));
  }

  /** `render_with_early_return` with this module's `need_to_apply_changes`
      and `render`: the unique class and the rules, or nothing. */
  function Render(content: string, block: Value, o: Wp.Options, classId: string, asWritten: bool): (r: Css.Effect)
    ensures var g := Responsive.Guard(content, block, BLOCK_NAME, o);
            r != Css.NO_EFFECT <==> g.Some? && Need(g.value.attributes)
    ensures r != Css.NO_EFFECT ==>
              var c := Responsive.Guard(content, block, BLOCK_NAME, o).value;
              r == Css.Effect([classId], [], [], [Rules(c.attributes, classId, c.switchWidth, asWritten)])
  {
    match Responsive.Guard(content, block, BLOCK_NAME, o)
    case None => Css.NO_EFFECT
    case Some(c) =>
      if Need(c.attributes) then Css.Effect([classId], [], [], [Rules(c.attributes, classId, c.switchWidth, asWritten)])
      else Css.NO_EFFECT
  }
}
