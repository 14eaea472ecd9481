/** Hover colours of a button (ButtonHoverColors): a text, a background and
    a border hover colour, each turned into a marker class and a CSS custom
    property on the button. */
module ButtonHoverColors {
  import opened Wrappers
  import opened Php
  import ColorUtils
  import Css
  import Responsive

  const BLOCK_NAME := "core/button"
  const GROUP := StrKey("wpbbeHoverColor")

  /** The colours, in the order they are processed. */
  const NAMES: seq<string> := ["text", "background", "border"]

  /** The colour of the named kind. */
  function Setting(settings: Value, name: string): Value {
    Get(settings, KeyOf(name))
  }

  /** Whether a colour is acted on. As written, line 41 reads
      `$settings[$name] ?? ('' !== '')`, that is the truthiness of the
      setting (false when missing); the intended test is
      `($settings[$name] ?? '') !== ''`: set, not null and not ''. */
  predicate Acts(settings: Value, name: string, asWritten: bool) {
    if asWritten then Truthy(Setting(settings, name))
    else Coalesce(Setting(settings, name), VStr("")) != VStr("")
  }

  /** The intended test acts exactly on a given, non-empty colour. */
  lemma IntendedActs(settings: Value, name: string)
    ensures Acts(settings, name, false) <==> Setting(settings, name) != VNull && Setting(settings, name) != VStr("")
  {
  }

  /** Every colour the code as written acts on is acted on by the intended
      test too; the converse fails only for falsy colours such as "0". */
  lemma AsWrittenNarrower(settings: Value, name: string)
    ensures Acts(settings, name, true) ==> Acts(settings, name, false)
    ensures Acts(settings, name, false) && !Acts(settings, name, true) ==> !Truthy(Setting(settings, name))
  {
  }

  /** One colour's change: its class and its property. */
  function Step(settings: Value, name: string, asWritten: bool): (r: Css.Effect)
    ensures r == Css.NO_EFFECT <==> !Acts(settings, name, asWritten)
  {
    if Acts(settings, name, asWritten) then
      Css.Effect(["has-hover-" + name], [("--wp-block-button--hover-" + name, ColorUtils.ColorAttributeToCss(Setting(settings, name)))], [], [])
    else Css.NO_EFFECT
  }

  /** The changes for the names of `names`, in order. */
  function Steps(settings: Value, names: seq<string>, asWritten: bool): (r: Css.Effect)
    ensures r.attributes == [] && r.styles == []
    ensures |r.classes| == |r.inline| <= |names|
  {
    if names == [] then Css.NO_EFFECT
    else Css.Then(Steps(settings, names[..|names| - 1], asWritten), Step(settings, names[|names| - 1], asWritten))
  }

  /** The class of a name, when it is acted on. */
  function Marker(settings: Value, name: string, asWritten: bool): seq<string> {
    if Acts(settings, name, asWritten) then ["has-hover-" + name] else []
  }

  /** The property of a name, when it is acted on. */
  function Property(settings: Value, name: string, asWritten: bool): Css.Decls {
    if Acts(settings, name, asWritten) then [("--wp-block-button--hover-" + name, ColorUtils.ColorAttributeToCss(Setting(settings, name)))] else []
  }

  /** The three colours are processed text first, border last, each on
      its own: its class and its property exactly when it is acted on. */
  lemma StepsInOrder(settings: Value, asWritten: bool)
    ensures var r := Steps(settings, NAMES, asWritten);
            && r.classes == Marker(settings, "text", asWritten) + Marker(settings, "background", asWritten) + Marker(settings, "border", asWritten)
            && r.inline == Property(settings, "text", asWritten) + Property(settings, "background", asWritten) + Property(settings, "border", asWritten)
  {
    var t := Step(settings, "text", asWritten);
    var b := Step(settings, "background", asWritten);
    var d := Step(settings, "border", asWritten);
    assert ["text"][..0] == [];
    assert Steps(settings, ["text"], asWritten) == Css.Then(Css.NO_EFFECT, t);
    assert ["text", "background"][..1] == ["text"];
    assert Steps(settings, ["text", "background"], asWritten) == Css.Then(Steps(settings, ["text"], asWritten), b);
    assert NAMES[..2] == ["text", "background"];
    assert Steps(settings, NAMES, asWritten) == Css.Then(Steps(settings, ["text", "background"], asWritten), d);
  }

  /** `render`: a non-empty button gets the changes of its three colours,
      text, background and border in that order; any other block is left
      as it is. */
  function Render(content: string, block: Value, asWritten: bool): (r: Css.Effect)
    ensures Get(block, Responsive.BLOCK_NAME) != VStr(BLOCK_NAME) || content == "" ==> r == Css.NO_EFFECT
    ensures Get(block, Responsive.BLOCK_NAME) == VStr(BLOCK_NAME) && content != "" ==>
              r == Steps(Get(Get(block, Responsive.ATTRS), GROUP), NAMES, asWritten)
  {
    if Get(block, Responsive.BLOCK_NAME) != VStr(BLOCK_NAME) || content == "" then Css.NO_EFFECT
    else Steps(Get(Get(block, Responsive.ATTRS), GROUP), NAMES, asWritten)
  }

  /** A button whose text hover colour is "0" (any falsy colour but null
      and '' will do) gets no text hover as written, and gets it with the
      intended test. */
  lemma FalsyColourDiscrepancy(settings: Value)
    requires Setting(settings, "text") == VStr("0")
    ensures !Acts(settings, "text", true)
    ensures Acts(settings, "text", false)
  {
  }
}
