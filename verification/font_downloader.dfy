/** The queue of font files an import still has to download
    (FontDownloader): the font faces of a theme.json payload, kept in a
    transient, from which each uploaded file is crossed off. */
module FontDownloader {
  import opened Wrappers
  import OrderedMap
  import opened Php
  import opened Text

  type Arr = OrderedMap.Assoc<Key, Value>

  /** The `wpbbe_fse_fonts_to_download` transient: None when it is missing. */
  type Transient = Option<Value>

  /** `array_merge` over a sequence of pairs: integer keys are renumbered
      from `n` in order and appended, string keys are written in place or
      appended. */
  function Renumber(acc: Arr, n: nat, e: Arr): (r: Arr)
    decreases |e|
  {
    if e == [] then acc
    else if e[0].0.IntKey? then Renumber(acc + [(IntKey(n), e[0].1)], n + 1, e[1..])
    else Renumber(OrderedMap.Put(acc, e[0].0, e[0].1), n, e[1..])
  }

  /** `array_merge($a, $b)`. */
  function ArrayMerge(a: Arr, b: Arr): Arr {
    Renumber([], 0, a + b)
  }

  predicate IntKeyed(e: Arr) {
    forall i :: 0 <= i < |e| ==> e[i].0.IntKey?
  }

  /** On integer keys `array_merge` appends the values in order under fresh
      consecutive keys. */
  lemma {:induction false} RenumberIntKeyed(acc: Arr, n: nat, e: Arr)
    requires IntKeyed(acc) && IntKeyed(e)
    decreases |e|
    ensures IntKeyed(Renumber(acc, n, e))
    ensures OrderedMap.Values(Renumber(acc, n, e)) == OrderedMap.Values(acc) + OrderedMap.Values(e)
  {
    if e != [] {
      var acc' := acc + [(IntKey(n), e[0].1)];
      RenumberIntKeyed(acc', n + 1, e[1..]);
      assert OrderedMap.Values(acc') == OrderedMap.Values(acc) + [e[0].1];
      assert OrderedMap.Values(e) == [e[0].1] + OrderedMap.Values(e[1..]);
    }
  }

  /** The `fontFace` list of a family when it is a non-empty array. */
  function Faces(family: Value): (r: Option<Arr>)
    ensures r.Some? <==> Get(family, StrKey("fontFace")).VArr? && Truthy(Get(family, StrKey("fontFace")))
    ensures r.Some? ==> r.value != [] && VArr(r.value) == Get(family, StrKey("fontFace"))
  {
    var face := Get(family, StrKey("fontFace"));
    if !Truthy(face) || !face.VArr? then None else Some(face.entries)
  }

  /** The loop of `get_fonts_from_json`: each family's non-empty `fontFace`
      array merged onto the fonts so far; other families are skipped. */
  function Collect(fonts: Arr, families: seq<Value>): (r: Arr)
    decreases |families|
  {
    if families == [] then fonts
    else
      match Faces(families[0])
      case None => Collect(fonts, families[1..])
      case Some(f) => Collect(ArrayMerge(fonts, f), families[1..])
  }

  /** The font faces of the families, in order: the reference the loop is
      measured against. */
  function FacesOf(families: seq<Value>): (r: seq<Value>)
    ensures families == [] ==> r == []
  {
    if families == [] then []
    else (match Faces(families[0]) case None => [] case Some(f) => OrderedMap.Values(f)) + FacesOf(families[1..])
  }

  /** Every family's face list is a list (integer keys). */
  predicate ListFaces(families: seq<Value>) {
    forall i :: 0 <= i < |families| ==> Faces(families[i]).Some? ==> IntKeyed(Faces(families[i]).value)
  }

  /** With list-shaped face lists the loop yields the concatenation of the
      faces, in family order. */
  lemma {:induction false} CollectConcatenates(fonts: Arr, families: seq<Value>)
    requires IntKeyed(fonts) && ListFaces(families)
    decreases |families|
    ensures IntKeyed(Collect(fonts, families))
    ensures OrderedMap.Values(Collect(fonts, families)) == OrderedMap.Values(fonts) + FacesOf(families)
  {
    if families != [] {
      assert ListFaces(families[1..]) by {
        forall i | 0 <= i < |families[1..]| ensures Faces(families[1..][i]).Some? ==> IntKeyed(Faces(families[1..][i]).value) {
          assert families[1..][i] == families[i + 1];
        }
      }
      match Faces(families[0])
      case None =>
        CollectConcatenates(fonts, families[1..]);
      case Some(f) =>
        assert Faces(families[0]).Some? ==> IntKeyed(Faces(families[0]).value);
        RenumberIntKeyed([], 0, fonts + f);
        assert OrderedMap.Values(fonts + f) == OrderedMap.Values(fonts) + OrderedMap.Values(f) by {
          ValuesAppend(fonts, f);
        }
        CollectConcatenates(ArrayMerge(fonts, f), families[1..]);
    }
  }

  lemma ValuesAppend(a: Arr, b: Arr)
    ensures OrderedMap.Values(a + b) == OrderedMap.Values(a) + OrderedMap.Values(b)
  {
  }

  const FAMILIES_PATH: seq<Key> := [StrKey("settings"), StrKey("typography"), StrKey("fontFamilies"), StrKey("custom")]

  /** `get_fonts_from_json`, given the decoded payload (null when it does
      not decode): the transient is cleared first; a falsy payload or one
      without custom font families gives no fonts and leaves it cleared;
      otherwise the collected faces are returned and stored. */
  function FontsFromJson(data: Value): (r: (Value, Transient))
    ensures !Truthy(data) || Path(data, FAMILIES_PATH) == VNull ==> r == (VArr([]), None)
    ensures Truthy(data) && Path(data, FAMILIES_PATH) != VNull ==> r.0.VArr? && r.1 == Some(r.0)
    ensures Truthy(data) && Path(data, FAMILIES_PATH) != VNull && ListFaces(ValuesOf(Path(data, FAMILIES_PATH))) ==>
              ValuesOf(r.0) == FacesOf(ValuesOf(Path(data, FAMILIES_PATH)))
  {
    if !Truthy(data) || Path(data, FAMILIES_PATH) == VNull then (VArr([]), None)
    else
      var families := ValuesOf(Path(data, FAMILIES_PATH));
      var fonts := Collect([], families);
      assert ListFaces(families) ==> OrderedMap.Values(fonts) == FacesOf(families) by {
        if ListFaces(families) {
          CollectConcatenates([], families);
        }
      }
      (VArr(fonts), Some(VArr(fonts)))
  }

  /** `get_fonts_to_download`: the stored list cast to an array, or the
      empty array when the transient is missing or falsy. */
  function FontsToDownload(t: Transient): (r: Value)
    ensures r.VArr?
    ensures t.None? || !Truthy(t.value) ==> r == VArr([])
    ensures t.Some? && t.value.VArr? && Truthy(t.value) ==> r == t.value
  {
    if t.Some? && Truthy(t.value) then ToArray(t.value) else VArr([])
  }

  /** The file name a font face downloads: the basename of its `src`, or
      of the first value when `src` is an array; '' when that is not a
      non-empty string. */
  function SourceName(face: Value): (r: string)
    ensures !Get(face, StrKey("src")).VStr? && !Get(face, StrKey("src")).VArr? ==> r == ""
  {
    var src := Coalesce(Get(face, StrKey("src")), VStr(""));
    var first := if src.VArr? then (if src.entries == [] then VStr("") else Coalesce(src.entries[0].1, VStr(""))) else src;
    if first.VStr? && first.s != "" then Basename(first.s) else ""
  }

  /** Whether a queued face stays after `font` was uploaded: non-arrays
      always stay, an array stays when its file name differs. */
  predicate Keeps(face: Value, font: string) {
    !face.VArr? || SourceName(face) != font
  }

  /** The faces that stay, in their order. */
  function KeepAll(faces: seq<Value>, font: string): (r: seq<Value>)
    ensures |r| <= |faces|
    ensures forall v :: v in r <==> v in faces && Keeps(v, font)
  {
    if faces == [] then []
    else (if Keeps(faces[0], font) then [faces[0]] else []) + KeepAll(faces[1..], font)
  }

  /** Nothing is dropped exactly when every face stays. */
  lemma {:induction false} KeepAllUnchanged(faces: seq<Value>, font: string)
    ensures KeepAll(faces, font) == faces <==> forall i :: 0 <= i < |faces| ==> Keeps(faces[i], font)
  {
    if faces != [] {
      KeepAllUnchanged(faces[1..], font);
      if forall i :: 0 <= i < |faces| ==> Keeps(faces[i], font) {
        assert forall i :: 0 <= i < |faces[1..]| ==> Keeps(faces[1..][i], font);
      }
    }
  }

  /** `font_was_uploaded`: the faces whose file is `font` are dropped, the
      rest renumbered in order and stored. */
  function FontWasUploaded(t: Transient, font: string): (r: Transient)
    ensures r.Some? && r.value.VArr?
    ensures ValuesOf(r.value) == KeepAll(ValuesOf(FontsToDownload(t)), font)
  {
    var kept := KeepAll(ValuesOf(FontsToDownload(t)), font);
    ListValues(kept);
    Some(List(kept))
  }

  /** Crossing the same file off twice is crossing it off once. */
  lemma UploadIdempotent(t: Transient, font: string)
    ensures ValuesOf(FontWasUploaded(FontWasUploaded(t, font), font).value) == ValuesOf(FontWasUploaded(t, font).value)
  {
    var a := FontWasUploaded(t, font);
    var kept := ValuesOf(a.value);
    KeepAllUnchanged(kept, font);
    if kept == [] {
      assert a.value == VArr([]);
    }
  }
}
