/** Colour and gradient attribute values turned into CSS (ColorUtils): a
    literal value is kept, a preset slug becomes a preset custom property. */
module ColorUtils {
  import opened Wrappers
  import opened Php
  import OrderedMap
  import opened Text

  /** `var(--wp--preset--<kind>--<slug>)`, the custom property of a preset. */
  function PresetVar(kind: string, slug: string): string {
    "var(--wp--preset--" + kind + "--" + slug + ")"
  }

  /** The slug of a preset custom property of the given kind, if `css` is one. */
  function PresetSlug(kind: string, css: string): (r: Option<string>)
    ensures r.Some? ==> css == PresetVar(kind, r.value)
  {
    var p := "var(--wp--preset--" + kind + "--";
    if |p| + 1 <= |css| && css[..|p|] == p && css[|css| - 1] == ')' then
      var slug := css[|p|..|css| - 1];
      assert css == p + slug + ")";
      Some(slug)
    else None
  }

  /** Reading the slug back from a preset custom property gives the slug. */
  lemma PresetSlugOfVar(kind: string, slug: string)
    ensures PresetSlug(kind, PresetVar(kind, slug)) == Some(slug)
  {
    var p := "var(--wp--preset--" + kind + "--";
    var css := PresetVar(kind, slug);
    assert css == p + slug + ")";
    assert css[..|p|] == p;
    assert css[|p|..|css| - 1] == slug;
  }

  /** Every preset custom property starts with `v`. */
  lemma PresetVarStart(kind: string, slug: string)
    ensures PresetVar(kind, slug) != [] && PresetVar(kind, slug)[0] == 'v'
  {
  }

  /** `color_attribute_to_css`: a falsy value is returned as it is, a value
      starting with `#` is kept, anything else is read as a preset slug. */
  function ColorAttributeToCss(v: Value): (r: Value)
  {
    if !Truthy(v) then v
    else if StartsWith(ToStr(v), "#") then v
    else VStr(PresetVar("color", ToStr(v)))
  }

  /** A hex colour is kept; any other non-empty string is a preset whose slug
      can be read back; and so no two strings give the same CSS value. */
  lemma ColorAttributeToCssSpec(s: string)
    requires s != "" && s != "0"
    ensures s[0] == '#' ==> ColorAttributeToCss(VStr(s)) == VStr(s)
    ensures s[0] != '#' ==>
              ColorAttributeToCss(VStr(s)).VStr? && PresetSlug("color", ColorAttributeToCss(VStr(s)).s) == Some(s)
  {
    if s[0] != '#' {
      PresetSlugOfVar("color", s);
    }
  }

  lemma ColorAttributeToCssInjective(a: string, b: string)
    requires ColorAttributeToCss(VStr(a)) == ColorAttributeToCss(VStr(b))
    ensures a == b
  {
    if Truthy(VStr(a)) && !StartsWith(a, "#") {
      PresetSlugOfVar("color", a);
      PresetVarStart("color", a);
      if Truthy(VStr(b)) && !StartsWith(b, "#") {
        PresetSlugOfVar("color", b);
      }
    } else if Truthy(VStr(b)) && !StartsWith(b, "#") {
      PresetVarStart("color", b);
    }
  }

  /** `linear-gradient` or `radial-gradient`: the two prefixes whose first 15
      characters `substr` compares. */
  predicate IsGradientFunction(s: string) {
    StartsWith(s, "linear-gradient") || StartsWith(s, "radial-gradient")
  }

  /** `gradient_attribute_to_css`: a falsy value is returned as it is, a CSS
      gradient function is kept, anything else is read as a preset slug. */
  function GradientAttributeToCss(v: Value): (r: Value)
  {
    if !Truthy(v) then v
    else if IsGradientFunction(ToStr(v)) then v
    else VStr(PresetVar("gradient", ToStr(v)))
  }

  lemma GradientAttributeToCssSpec(s: string)
    requires s != "" && s != "0"
    ensures IsGradientFunction(s) ==> GradientAttributeToCss(VStr(s)) == VStr(s)
    ensures !IsGradientFunction(s) ==>
              GradientAttributeToCss(VStr(s)).VStr? && PresetSlug("gradient", GradientAttributeToCss(VStr(s)).s) == Some(s)
  {
    if !IsGradientFunction(s) {
      PresetSlugOfVar("gradient", s);
    }
  }

  /** A gradient function never starts with `v`. */
  lemma GradientFunctionStart(s: string)
    requires IsGradientFunction(s)
    ensures s[0] == 'l' || s[0] == 'r'
  {
    if StartsWith(s, "linear-gradient") {
      assert s[0] == s[..15][0];
    } else {
      assert s[0] == s[..15][0];
    }
  }

  lemma GradientAttributeToCssInjective(a: string, b: string)
    requires GradientAttributeToCss(VStr(a)) == GradientAttributeToCss(VStr(b))
    ensures a == b
  {
    if Truthy(VStr(a)) && !IsGradientFunction(a) {
      PresetSlugOfVar("gradient", a);
      PresetVarStart("gradient", a);
      if Truthy(VStr(b)) && !IsGradientFunction(b) {
        PresetSlugOfVar("gradient", b);
      } else if Truthy(VStr(b)) {
        GradientFunctionStart(b);
      }
    } else if Truthy(VStr(b)) && !IsGradientFunction(b) {
      PresetVarStart("gradient", b);
      if Truthy(VStr(a)) {
        GradientFunctionStart(a);
      }
    }
  }

  const COLOR := StrKey("color")

  /** The sides `patch_border_colors` visits, in order. */
  const SIDES := [StrKey("top"), StrKey("right"), StrKey("bottom"), StrKey("left")]

  /** One side of a border: when it is an array with a colour, the colour is
      converted; otherwise the side is kept. */
  function PatchSide(side: Value): (r: Value)
    ensures !side.VArr? || !IsSet(side, COLOR) ==> r == side
    ensures side.VArr? && IsSet(side, COLOR) ==>
              r.VArr? && KeysOf(r) == KeysOf(side) &&
              Get(r, COLOR) == ColorAttributeToCss(Get(side, COLOR)) &&
              forall k :: k != COLOR ==> Get(r, k) == Get(side, k)
  {
    if side.VArr? && IsSet(side, COLOR) then Set(side, COLOR, ColorAttributeToCss(Get(side, COLOR)))
    else side
  }

  /** The loop over the sides: each listed side patched once. */
  function PatchSides(b: Value, sides: seq<Key>): (r: Value)
    requires b.VArr? && OrderedMap.Distinct(sides)
    ensures r.VArr? && KeysOf(r) == KeysOf(b)
    ensures forall k :: Get(r, k) == if k in sides then PatchSide(Get(b, k)) else Get(b, k)
  {
    if sides == [] then b
    else
      var last := sides[|sides| - 1];
      var front := sides[..|sides| - 1];
      assert sides == front + [last];
      assert OrderedMap.Distinct(front) by {
        forall i, j | 0 <= i < j < |front| ensures front[i] != front[j] {
          assert front[i] == sides[i] && front[j] == sides[j];
        }
      }
      assert last !in front by {
        forall i | 0 <= i < |front| ensures front[i] != last {
          assert front[i] == sides[i];
        }
      }
      var p := PatchSides(b, front);
      var side := Get(p, last);
      if side.VArr? && IsSet(side, COLOR) then Set(p, last, PatchSide(side)) else p
  }

  lemma SidesDistinct()
    ensures OrderedMap.Distinct(SIDES) && COLOR !in SIDES
  {
    assert "top"[0] != "right"[0] && "top"[0] != "bottom"[0] && "top"[0] != "left"[0];
    assert "right"[0] != "bottom"[0] && "right"[0] != "left"[0] && "bottom"[0] != "left"[0];
    assert "color"[0] != "top"[0] && "color"[0] != "right"[0] && "color"[0] != "bottom"[0] && "color"[0] != "left"[0];
  }

  /** A border's own colour converted, when set. */
  function PatchColor(border: Value): (r: Value)
    requires border.VArr?
    ensures r.VArr? && KeysOf(r) == KeysOf(border)
    ensures Get(r, COLOR) == if IsSet(border, COLOR) then ColorAttributeToCss(Get(border, COLOR)) else Get(border, COLOR)
    ensures forall k :: k != COLOR ==> Get(r, k) == Get(border, k)
  {
    if IsSet(border, COLOR) then Set(border, COLOR, ColorAttributeToCss(Get(border, COLOR))) else border
  }

  /** The border array `patch_border_colors` writes back. */
  function PatchBorder(border: Value): (r: Value)
    requires border.VArr?
  {
    SidesDistinct();
    PatchSides(PatchColor(border), SIDES)
  }

  /** `patch_border_colors($attributes, $key)`: nothing changes unless the
      attribute is an array; then its own colour and the colour of each
      array-valued side are converted, and nothing else. */
  function PatchBorderColors(attributes: Value, key: Key): (r: Value)
    requires attributes.VArr?
  {
    var border := Get(attributes, key);
    if border.VArr? then Set(attributes, key, PatchBorder(border)) else attributes
  }

  /** What `patch_border_colors` changes, key by key: the border keeps its
      keys; its colour and the side colours are converted; every other
      attribute and every other border entry is as it was. */
  lemma PatchBorderColorsSpec(attributes: Value, key: Key, k: Key)
    requires attributes.VArr?
    ensures var r := PatchBorderColors(attributes, key);
            var b := Get(attributes, key);
            && (k != key ==> Get(r, k) == Get(attributes, k))
            && (!b.VArr? ==> r == attributes)
            && (b.VArr? ==>
                  && Get(r, key).VArr? && KeysOf(Get(r, key)) == KeysOf(b)
                  && Get(Get(r, key), k) ==
                       if k == COLOR then (if IsSet(b, COLOR) then ColorAttributeToCss(Get(b, COLOR)) else Get(b, COLOR))
                       else if k in SIDES then PatchSide(Get(b, k))
                       else Get(b, k))
  {
    SidesDistinct();
  }

  /** A colour that is unset or already a hex value is left alone. */
  predicate HexOrUnset(v: Value) {
    !IsSet(v, COLOR) || StartsWith(ToStr(Get(v, COLOR)), "#")
  }

  /** Patching a border whose colours are all hex values or unset changes
      no value: the conversion is the identity on literal colours. */
  lemma PatchBorderKeepsHex(border: Value, k: Key)
    requires border.VArr? && HexOrUnset(border)
    requires forall s :: s in SIDES ==> HexOrUnset(Get(border, s))
    ensures Get(PatchBorder(border), k) == Get(border, k)
  {
    SidesDistinct();
    var c := PatchColor(border);
    assert Get(c, COLOR) == Get(border, COLOR) by {
      if IsSet(border, COLOR) {
        HexKept(Get(border, COLOR));
      }
    }
    assert Get(PatchBorder(border), k) == if k in SIDES then PatchSide(Get(c, k)) else Get(c, k);
    if k in SIDES {
      var side := Get(border, k);
      assert Get(c, k) == side;
      if side.VArr? && IsSet(side, COLOR) {
        HexKept(Get(side, COLOR));
        assert PatchSide(side) == Set(side, COLOR, Get(side, COLOR));
        SetSame(side, COLOR);
      }
    }
  }

  lemma HexKept(v: Value)
    requires StartsWith(ToStr(v), "#")
    ensures ColorAttributeToCss(v) == v
  {
  }
}
