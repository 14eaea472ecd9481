/** The starter design system (DesignSystemParts): which parts are active,
    the whitelisted and remapped design-system data, and the merge of its
    presets into the editor settings without duplicating a slug. */
module DesignSystemParts {
  import opened Wrappers
  import opened Php
  import OrderedMap
  import Wp
  import ModuleBase

  const IDENTIFIER := "design-system-parts"
  const ACTIVE_PARTS := "active-parts"

  type Arr = seq<(Key, Value)>

  /** The editor settings a part of the design system brings. */
  function PartMap(k: Key): (r: seq<Value>)
    ensures k == StrKey("color") ==> r == [VStr("colorPalette"), VStr("colorGradients")]
    ensures k == StrKey("typography") ==> r == [VStr("fontSizes")]
    ensures k == StrKey("spacing") ==> r == [VStr("spacingSizes")]
    ensures k != StrKey("color") && k != StrKey("typography") && k != StrKey("spacing") ==> r == []
  {
    if k == StrKey("color") then [VStr("colorPalette"), VStr("colorGradients")]
    else if k == StrKey("typography") then [VStr("fontSizes")]
    else if k == StrKey("spacing") then [VStr("spacingSizes")]
    else []
  }

  /** The first loop of `filter_design_system_parts`: the mapped editor
      settings of every enabled part, in the order of the active parts. */
  function MappedParts(e: Arr): (r: seq<Value>)
    ensures forall p, x :: p in e && Truthy(p.1) && x in PartMap(p.0) ==> x in r
    ensures forall x :: x in r ==> exists p :: p in e && Truthy(p.1) && x in PartMap(p.0)
  {
    if e == [] then []
    else
      assert e == [e[0]] + e[1..];
      (if Truthy(e[0].1) then PartMap(e[0].0) else []) + MappedParts(e[1..])
  }

  /** The second loop: the key of every enabled part, in order. */
  function EnabledKeys(e: Arr): (r: seq<Value>)
    ensures forall p :: p in e && Truthy(p.1) ==> KeyValue(p.0) in r
    ensures forall x :: x in r ==> exists p :: p in e && Truthy(p.1) && x == KeyValue(p.0)
  {
    if e == [] then []
    else
      assert e == [e[0]] + e[1..];
      (if Truthy(e[0].1) then [KeyValue(e[0].0)] else []) + EnabledKeys(e[1..])
  }

  /** `filter_design_system_parts`: spacing forced on, then the incoming
      parts, the mapped editor settings and the enabled part names. */
  function FilterDesignSystemParts(parts: seq<Value>, active: Value): (r: seq<Value>)
    ensures |parts| <= |r| && r[..|parts|] == parts
  {
    var e := Set(active, StrKey("spacing"), VBool(true)).entries;
    parts + MappedParts(e) + EnabledKeys(e)
  }

  /** An enabled part contributes its name and its editor settings. */
  lemma EnabledPartListed(e: Arr, k: Key)
    requires Truthy(Get(VArr(e), k))
    ensures KeyValue(k) in EnabledKeys(e)
    ensures forall x :: x in PartMap(k) ==> x in MappedParts(e)
  {
    assert (k, Get(VArr(e), k)) in e;
  }

  /** Spacing is always among the parts, with its editor setting, whatever
      is stored. */
  lemma SpacingAlwaysActive(parts: seq<Value>, active: Value)
    ensures var r := FilterDesignSystemParts(parts, active);
            VStr("spacing") in r && VStr("spacingSizes") in r
  {
    var e := Set(active, StrKey("spacing"), VBool(true)).entries;
    EnabledPartListed(e, StrKey("spacing"));
    assert VStr("spacingSizes") in PartMap(StrKey("spacing"));
  }

  /** With distinct keys, an editor setting is mapped exactly when the part
      that brings it is enabled. */
  lemma {:induction false} MappedPartsIff(e: Arr, part: string, x: Value)
    requires OrderedMap.Valid(e)
    requires x in PartMap(StrKey(part))
    ensures x in MappedParts(e) <==> Truthy(Get(VArr(e), StrKey(part)))
  {
    if e != [] {
      OrderedMap.ValidTail(e);
      MappedPartsIff(e[1..], part, x);
      var rest := MappedParts(e[1..]);
      assert MappedParts(e) == (if Truthy(e[0].1) then PartMap(e[0].0) else []) + rest;
      if e[0].0 != StrKey(part) {
        assert x !in PartMap(e[0].0);
      } else {
        assert OrderedMap.Find(e[1..], StrKey(part)) == None;
      }
    }
  }

  /** An empty preset list under `name`. */
  function Empty(name: string): Arr {
    [(StrKey(name), VArr([]))]
  }

  /** The defaults `get_design_system` parses the file against. */
  const DEFAULTS: Arr := [
    (StrKey("version"), VInt(3)),
    (StrKey("settings"), VArr([
      (StrKey("color"), VArr(Empty("palette") + Empty("gradients"))),
      (StrKey("typography"), VArr(Empty("fontSizes"))),
      (StrKey("spacing"), VArr(Empty("spacingSizes")))]))]

  /** The whitelist: only the settings groups whose name is among the
      active parts (strict `in_array`). */
  function Whitelist(groups: Arr, active: seq<Value>): (r: Arr)
    ensures forall p :: p in r <==> p in groups && KeyValue(p.0) in active
  {
    if groups == [] then []
    else
      assert groups == [groups[0]] + groups[1..];
      (if KeyValue(groups[0].0) in active then [groups[0]] else []) + Whitelist(groups[1..], active)
  }

  /** The four editor settings the editor context returns, in order. */
  const EDITOR_KEYS := ["spacingSizes", "colorPalette", "colorGradients", "fontSizes"]

  /** `get_design_system` outside the editor context: the file parsed
      against the defaults, its settings whitelisted when any part is active. */
  function DesignData(file: Arr, active: seq<Value>): (r: Value)
    ensures r.VArr?
  {
    var data := VArr(Wp.ParseArgs(file, DEFAULTS));
    if active != [] && IsSet(data, StrKey("settings")) then
      Set(data, StrKey("settings"), VArr(Whitelist(Entries(At(data, "settings")), active)))
    else data
  }

  /** `get_design_system($context)`, given the decoded design-system file
      and the active parts the `wpbbe_design_system_parts` filter returns.
      An undecodable file gives an empty array in every context. */
  function GetDesignSystem(file: Value, active: seq<Value>, editor: bool): (r: Value)
    ensures !file.VArr? ==> r == VArr([])
    ensures file.VArr? && !editor ==> r == DesignData(file.entries, active)
    ensures file.VArr? && editor ==> r == EditorView(At(DesignData(file.entries, active), "settings"))
  {
    if !file.VArr? then VArr([])
    else if editor then EditorView(At(DesignData(file.entries, active), "settings"))
    else DesignData(file.entries, active)
  }

  /** A four-entry array under distinct keys. */
  function Four(k1: Key, a: Value, k2: Key, b: Value, k3: Key, c: Value, k4: Key, d: Value): (r: Value)
    requires k1 != k2 && k1 != k3 && k1 != k4 && k2 != k3 && k2 != k4 && k3 != k4
    ensures r.VArr? && OrderedMap.Valid(r.entries) && KeysOf(r) == [k1, k2, k3, k4]
  {
    var e := [(k1, a), (k2, b), (k3, c), (k4, d)];
    var ks := OrderedMap.Keys(e);
    assert ks[0] == k1 && ks[1] == k2 && ks[2] == k3 && ks[3] == k4;
    assert ks == [k1, k2, k3, k4];
    VArr(e)
  }

  /** Each key of a four-entry array finds its own value. */
  lemma FourGet(k1: Key, a: Value, k2: Key, b: Value, k3: Key, c: Value, k4: Key, d: Value)
    requires k1 != k2 && k1 != k3 && k1 != k4 && k2 != k3 && k2 != k4 && k3 != k4
    ensures var r := Four(k1, a, k2, b, k3, c, k4, d);
            Get(r, k1) == a && Get(r, k2) == b && Get(r, k3) == c && Get(r, k4) == d
  {
    var e := Four(k1, a, k2, b, k3, c, k4, d).entries;
    OrderedMap.FindAt(e, 0);
    OrderedMap.FindAt(e, 1);
    OrderedMap.FindAt(e, 2);
    OrderedMap.FindAt(e, 3);
  }

  /** The four editor settings, whose names are distinct. */
  const K_SPACING := StrKey("spacingSizes")
  const K_PALETTE := StrKey("colorPalette")
  const K_GRADIENTS := StrKey("colorGradients")
  const K_FONTS := StrKey("fontSizes")

  lemma EditorKeysDistinct()
    ensures K_SPACING != K_PALETTE && K_SPACING != K_GRADIENTS && K_SPACING != K_FONTS
    ensures K_PALETTE != K_GRADIENTS && K_PALETTE != K_FONTS && K_GRADIENTS != K_FONTS
  {
    assert "spacingSizes"[0] != "colorPalette"[0] && "spacingSizes"[0] != "fontSizes"[0];
    assert |"spacingSizes"| != |"colorGradients"| && |"colorPalette"| != |"colorGradients"|;
    assert "colorPalette"[0] != "fontSizes"[0] && |"colorGradients"| != |"fontSizes"|;
  }

  /** The editor context's remapped structure: the four editor settings in
      order, each read from its part and defaulting to an empty array. */
  function EditorView(settings: Value): (r: Value)
    ensures r.VArr? && OrderedMap.Valid(r.entries)
    ensures KeysOf(r) == [K_SPACING, K_PALETTE, K_GRADIENTS, K_FONTS]
    ensures Get(r, K_SPACING) == Coalesce(At(At(settings, "spacing"), "spacingSizes"), VArr([]))
    ensures Get(r, K_PALETTE) == Coalesce(At(At(settings, "color"), "palette"), VArr([]))
    ensures Get(r, K_GRADIENTS) == Coalesce(At(At(settings, "color"), "gradients"), VArr([]))
    ensures Get(r, K_FONTS) == Coalesce(At(At(settings, "typography"), "fontSizes"), VArr([]))
  {
    EditorKeysDistinct();
    var a := Coalesce(At(At(settings, "spacing"), "spacingSizes"), VArr([]));
    var b := Coalesce(At(At(settings, "color"), "palette"), VArr([]));
    var c := Coalesce(At(At(settings, "color"), "gradients"), VArr([]));
    var d := Coalesce(At(At(settings, "typography"), "fontSizes"), VArr([]));
    FourGet(K_SPACING, a, K_PALETTE, b, K_GRADIENTS, c, K_FONTS, d);
    Four(K_SPACING, a, K_PALETTE, b, K_GRADIENTS, c, K_FONTS, d)
  }

  /** A part the whitelist leaves out contributes nothing to the editor:
      without "color" among non-empty active parts, the palette and the
      gradients are empty, whatever the file holds. */
  lemma ColorOffMeansEmpty(file: Value, active: seq<Value>)
    requires file.VArr? && active != [] && VStr("color") !in active
    ensures var r := GetDesignSystem(file, active, true);
            Get(r, K_PALETTE) == VArr([]) && Get(r, K_GRADIENTS) == VArr([])
  {
    var data := VArr(Wp.ParseArgs(file.entries, DEFAULTS));
    if IsSet(data, StrKey("settings")) {
      var w := Whitelist(Entries(At(data, "settings")), active);
      assert KeyValue(StrKey("color")) == VStr("color");
      assert forall p :: p in w ==> p.0 != StrKey("color");
      assert OrderedMap.Find(w, StrKey("color")) == None;
    }
  }

  /** The slug of a preset (`$setting['slug']`, null when absent). */
  function Slug(setting: Value): Value {
    At(setting, "slug")
  }

  function Slugs(settings: seq<Value>): (r: seq<Value>)
    ensures |r| == |settings|
    ensures forall i :: 0 <= i < |settings| ==> r[i] == Slug(settings[i])
  {
    seq(|settings|, i requires 0 <= i < |settings| => Slug(settings[i]))
  }

  /** The new presets whose slug is not among `existing`, in order. */
  function Fresh(news: seq<Value>, existing: seq<Value>): (r: seq<Value>)
    ensures forall n :: n in r <==> n in news && Slug(n) !in existing
  {
    if news == [] then []
    else
      assert news == [news[0]] + news[1..];
      (if Slug(news[0]) !in existing then [news[0]] else []) + Fresh(news[1..], existing)
  }

  /** `add_settings`: the existing presets unchanged, then every new preset
      whose slug none of the EXISTING presets has. The slugs are collected
      once, so two new presets with the same fresh slug are both added. */
  function AddSettings(settings: seq<Value>, news: seq<Value>): (r: seq<Value>)
    ensures |settings| <= |r| && r[..|settings|] == settings
    ensures forall n :: n in r[|settings|..] <==> n in news && Slug(n) !in Slugs(settings)
  {
    var r := settings + Fresh(news, Slugs(settings));
    assert r[|settings|..] == Fresh(news, Slugs(settings));
    r
  }

  lemma {:induction false} FreshOfPresent(news: seq<Value>, existing: seq<Value>)
    requires forall n :: n in news ==> Slug(n) in existing
    ensures Fresh(news, existing) == []
  {
    if news != [] {
      assert news[0] in news;
      FreshOfPresent(news[1..], existing);
    }
  }

  /** Merging the same presets twice adds nothing the second time. */
  lemma AddSettingsIdempotent(settings: seq<Value>, news: seq<Value>)
    ensures AddSettings(AddSettings(settings, news), news) == AddSettings(settings, news)
  {
    var once := AddSettings(settings, news);
    var slugs := Slugs(once);
    forall n | n in news ensures Slug(n) in slugs {
      if Slug(n) in Slugs(settings) {
        var i :| 0 <= i < |settings| && Slugs(settings)[i] == Slug(n);
        assert once[i] == settings[i];
        assert slugs[i] == Slug(n);
      } else {
        var f := Fresh(news, Slugs(settings));
        assert n in f;
        var j :| 0 <= j < |f| && f[j] == n;
        assert once[|settings| + j] == n;
        assert slugs[|settings| + j] == Slug(n);
      }
    }
    FreshOfPresent(news, slugs);
    assert once + [] == once;
  }

  /** The preset list an editor setting starts from: its values, or none
      when it is missing or not an array. */
  function Base(current: Value): seq<Value> {
    if current.VArr? then ValuesOf(current) else []
  }

  /** One iteration of `modify_block_editor_settings`. */
  function MergeOne(settings: Value, key: Key, news: Value): (r: Value)
    ensures Get(r, key) == List(AddSettings(Base(Get(settings, key)), ValuesOf(news)))
    ensures forall k :: k != key ==> Get(r, k) == Get(settings, k)
  {
    Set(settings, key, List(AddSettings(Base(Get(settings, key)), ValuesOf(news))))
  }

  /** `modify_block_editor_settings` over the entries of the design system. */
  function MergeAll(settings: Value, ds: Arr): (r: Value)
    decreases |ds|
  {
    if ds == [] then settings else MergeAll(MergeOne(settings, ds[0].0, ds[0].1), ds[1..])
  }

  /** Each editor setting the design system names becomes its old presets
      followed by the fresh new ones; every other setting is unchanged. */
  lemma {:induction false} MergeAllFind(settings: Value, ds: Arr, k: Key)
    requires OrderedMap.Valid(ds)
    decreases |ds|
    ensures Get(MergeAll(settings, ds), k) ==
              match OrderedMap.Find(ds, k)
              case Some(news) => List(AddSettings(Base(Get(settings, k)), ValuesOf(news)))
              case None => Get(settings, k)
  {
    if ds != [] {
      OrderedMap.ValidTail(ds);
      var s1 := MergeOne(settings, ds[0].0, ds[0].1);
      MergeAllFind(s1, ds[1..], k);
      if k == ds[0].0 {
        assert OrderedMap.Find(ds[1..], k) == None;
      }
    }
  }

  /** `modify_block_editor_settings`, given the decoded design-system file
      and the active parts for the editor context. */
  function ModifyBlockEditorSettings(settings: Value, file: Value, active: seq<Value>): Value {
    MergeAll(settings, Entries(GetDesignSystem(file, active, true)))
  }

  /** The four editor settings are merged, the others untouched. */
  lemma EditorSettingsMerged(settings: Value, file: Value, active: seq<Value>, k: Key)
    requires file.VArr?
    ensures var ds := GetDesignSystem(file, active, true);
            Get(ModifyBlockEditorSettings(settings, file, active), k) ==
              if k in KeysOf(ds) then List(AddSettings(Base(Get(settings, k)), ValuesOf(Get(ds, k))))
              else Get(settings, k)
  {
    var ds := GetDesignSystem(file, active, true);
    var e := Entries(ds);
    assert OrderedMap.Keys(e) == [StrKey("spacingSizes"), StrKey("colorPalette"), StrKey("colorGradients"), StrKey("fontSizes")];
    assert OrderedMap.Valid(e);
    MergeAllFind(settings, e, k);
  }

  /** The outcome of `update_settings`: the stored parts, or the 400 error. */
  datatype Update = Saved(settings: Value) | InvalidData

  /** `update_settings`: a non-array payload is rejected with nothing
      written; an array is stored as the active parts. */
  function UpdateSettings(o: Wp.Options, data: Value, sanitize: Value -> Value): (r: (Update, Wp.Options))
    ensures !data.VArr? ==> r == (InvalidData, o)
    ensures data.VArr? ==> r == (Saved(data), ModuleBase.SetModuleOption(o, IDENTIFIER, ACTIVE_PARTS, data, sanitize))
  {
    if !data.VArr? then (InvalidData, o)
    else (Saved(data), ModuleBase.SetModuleOption(o, IDENTIFIER, ACTIVE_PARTS, data, sanitize))
  }

  /** Saved parts are what the module reads back as its active parts. */
  lemma UpdateThenRead(o: Wp.Options, data: Value, sanitize: Value -> Value)
    requires data.VArr? && ModuleBase.KeepsKey(sanitize, ACTIVE_PARTS)
    ensures ModuleBase.ModuleOption(UpdateSettings(o, data, sanitize).1, IDENTIFIER, ACTIVE_PARTS, VArr([])) == data
  {
    ModuleBase.SetThenGet(o, IDENTIFIER, ACTIVE_PARTS, data, sanitize, IDENTIFIER, VArr([]));
  }
}
