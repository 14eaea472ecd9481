/** Block helpers (BlockUtils): the unique class of a block, the flexbox
    alignment of an alignment attribute, CSS variables from attributes, and
    the normalisation of attributes into CSS-ready values. */
module BlockUtils {
  import opened Wrappers
  import opened Php
  import OrderedMap
  import opened Text
  import ColorUtils

  const PREFIX := "wpbbe-"

  /** A class `get_unique_class_id` accepts: the prefix, then a suffix with
      at least one digit. */
  predicate IsUniqueClass(c: string) {
    StartsWith(c, PREFIX) && exists i :: |PREFIX| <= i < |c| && IsDigit(c[i])
  }

  /** The first accepted class of a list, if any. */
  function FirstUnique(classes: seq<string>): (r: Option<nat>)
    ensures r.Some? ==> r.value < |classes| && IsUniqueClass(classes[r.value]) &&
                        forall j :: 0 <= j < r.value ==> !IsUniqueClass(classes[j])
    ensures r.None? ==> forall j :: 0 <= j < |classes| ==> !IsUniqueClass(classes[j])
  {
    if classes == [] then None
    else if IsUniqueClass(classes[0]) then Some(0)
    else match FirstUnique(classes[1..])
      case Some(i) => Some(i + 1)
      case None => None
  }

  /** `get_unique_class_id`, given the class list of the first tag and the
      counter `wp_unique_prefixed_id` keeps for the prefix: an accepted
      class already on the tag is reused, otherwise the counter is advanced
      and a fresh id made from it. Returns the id and the new counter. */
  function GetUniqueClassId(classes: seq<string>, counter: nat): (r: (string, nat))
    ensures IsUniqueClass(r.0)
    ensures (exists c :: c in classes && IsUniqueClass(c)) ==> r.0 in classes && r.1 == counter
    ensures (forall c :: c in classes ==> !IsUniqueClass(c)) ==> r == (PREFIX + NatText(counter + 1), counter + 1)
  {
    match FirstUnique(classes)
    case Some(i) => (classes[i], counter)
    case None =>
      var id := PREFIX + NatText(counter + 1);
      assert id[|PREFIX|] == NatText(counter + 1)[0];
      (id, counter + 1)
  }

  /** The class chosen is the first accepted one on the tag. */
  lemma UniqueClassIsFirst(classes: seq<string>, counter: nat, i: nat)
    requires i < |classes| && IsUniqueClass(classes[i])
    requires forall j :: 0 <= j < i ==> !IsUniqueClass(classes[j])
    ensures GetUniqueClassId(classes, counter) == (classes[i], counter)
  {
  }

  /** The flexbox alignment of an alignment word; the reversed orientation
      swaps only `left` and `right`. Unknown words give null. */
  function Align(w: string, reverse: bool): Value {
    if w == "left" then VStr(if reverse then "flex-end" else "flex-start")
    else if w == "right" then VStr(if reverse then "flex-start" else "flex-end")
    else if w == "center" || w == "stretch" || w == "space-between" then VStr(w)
    else VNull
  }

  /** `get_horizontal_alignment_by_attribute`. A value used as an array key
      only matches one of the five words when it is that string: numbers,
      booleans and null turn into integer keys or the empty key, which the
      maps do not have. */
  function HorizontalAlignment(v: Value, reverse: bool): Value {
    if v.VStr? then Align(v.s, reverse) else VNull
  }

  predicate AlignmentWord(w: string) {
    w == "left" || w == "right" || w == "center" || w == "stretch" || w == "space-between"
  }

  /** `left` and `right` exchanged. */
  function Mirror(w: string): string {
    if w == "left" then "right" else if w == "right" then "left" else w
  }

  /** The alignment is defined exactly for the five words, and the reversed
      map is the plain map after mirroring the word. */
  lemma AlignmentSpec(w: string)
    ensures Align(w, false) != VNull <==> AlignmentWord(w)
    ensures Align(w, true) != VNull <==> AlignmentWord(w)
    ensures Align(w, true) == Align(Mirror(w), false)
    ensures !(w == "left" || w == "right") ==> Align(w, true) == Align(w, false)
  {
  }

  /** One setting of `generate_css_variables`: the variable name and the
      attribute value it gets, if the setting applies. A string suffix
      needs a set attribute that is not the empty string; a `var` entry
      only a set attribute. */
  function VariableOf(key: Key, suffix: Value, attributes: Value, prefix: string): (r: Option<(Key, Value)>)
    ensures r.Some? ==> r.value.1 == Get(attributes, key) && r.value.1 != VNull
  {
    var a := Get(attributes, key);
    if suffix.VStr? then
      if a != VNull && a != VStr("") then Some((KeyOf(prefix + suffix.s), a)) else None
    else if IsSet(suffix, StrKey("var")) && a != VNull then
      Some((KeyOf(prefix + ToStr(Get(suffix, StrKey("var")))), a))
    else None
  }

  /** The assignments the loop makes, in order. */
  function Variables(settings: seq<(Key, Value)>, attributes: Value, prefix: string): (w: seq<(Key, Value)>)
    ensures forall p :: p in w <==> exists i :: 0 <= i < |settings| && VariableOf(settings[i].0, settings[i].1, attributes, prefix) == Some(p)
  {
    if settings == [] then []
    else
      var rest := Variables(settings[1..], attributes, prefix);
      assert forall i :: 1 <= i < |settings| ==> settings[i] == settings[1..][i - 1];
      match VariableOf(settings[0].0, settings[0].1, attributes, prefix)
      case Some(p) => [p] + rest
      case None => rest
  }

  /** `generate_css_variables`: every applicable setting assigns its
      variable; a name assigned twice keeps the later value. */
  function GenerateCssVariables(settings: seq<(Key, Value)>, attributes: Value, prefix: string): (r: seq<(Key, Value)>)
    ensures forall k :: OrderedMap.Find(r, k) == OrderedMap.FindLast(Variables(settings, attributes, prefix), k)
  {
    OrderedMap.PutAll([], Variables(settings, attributes, prefix))
  }

  /** The setting `s` assigns the variable `k`. */
  predicate Defines(s: (Key, Value), attributes: Value, prefix: string, k: Key) {
    var p := VariableOf(s.0, s.1, attributes, prefix);
    p.Some? && p.value.0 == k
  }

  /** A variable is defined exactly when some applicable setting names it. */
  lemma GenerateCssVariablesDefined(settings: seq<(Key, Value)>, attributes: Value, prefix: string, k: Key)
    ensures OrderedMap.Find(GenerateCssVariables(settings, attributes, prefix), k).Some? <==>
              exists i :: 0 <= i < |settings| && Defines(settings[i], attributes, prefix, k)
  {
    var w := Variables(settings, attributes, prefix);
    if OrderedMap.Find(GenerateCssVariables(settings, attributes, prefix), k).Some? {
      FindLastIn(w, k);
    }
    if exists i :: 0 <= i < |settings| && Defines(settings[i], attributes, prefix, k) {
      var i :| 0 <= i < |settings| && Defines(settings[i], attributes, prefix, k);
      var p := VariableOf(settings[i].0, settings[i].1, attributes, prefix).value;
      assert p in w;
      FindLastOfMember(w, p);
    }
  }

  /** A key some pair carries has a last pair. */
  lemma FindLastOfMember<K, V>(w: seq<(K, V)>, p: (K, V))
    requires p in w
    ensures OrderedMap.FindLast(w, p.0).Some?
  {
    var j :| 0 <= j < |w| && w[j] == p;
    assert OrderedMap.Keys(w)[j] == p.0;
  }

  /** Every variable holds the non-null attribute of a setting. */
  lemma GenerateCssVariablesValues(settings: seq<(Key, Value)>, attributes: Value, prefix: string, k: Key)
    requires OrderedMap.Find(GenerateCssVariables(settings, attributes, prefix), k).Some?
    ensures var v := OrderedMap.Find(GenerateCssVariables(settings, attributes, prefix), k).value;
            v != VNull && exists i :: 0 <= i < |settings| && v == Get(attributes, settings[i].0)
  {
    var w := Variables(settings, attributes, prefix);
    var v := OrderedMap.FindLast(w, k).value;
    FindLastIn(w, k);
    var i :| 0 <= i < |settings| && VariableOf(settings[i].0, settings[i].1, attributes, prefix) == Some((k, v));
  }

  /** The last pair of a key is one of the pairs. */
  lemma {:induction false} FindLastIn<K(!new), V>(e: seq<(K, V)>, k: K)
    requires OrderedMap.FindLast(e, k).Some?
    ensures (k, OrderedMap.FindLast(e, k).value) in e
  {
    if e[|e| - 1].0 != k {
      FindLastIn(e[..|e| - 1], k);
    }
  }

  /** `get_attr_by_path`: the path split at dots, each step requiring an
      array holding the key (`array_key_exists`, so a stored null is found
      and the walk then stops at it). */
  function AttrByPath(v: Value, parts: seq<string>): (r: Option<Value>)
    decreases parts
  {
    if parts == [] then Some(v)
    else if !v.VArr? then None
    else match OrderedMap.Find(v.entries, KeyOf(parts[0]))
      case None => None
      case Some(x) => AttrByPath(x, parts[1..])
  }

  function PathKeys(parts: seq<string>): (ks: seq<Key>)
    ensures |ks| == |parts| && forall i :: 0 <= i < |parts| ==> ks[i] == KeyOf(parts[i])
  {
    seq(|parts|, i requires 0 <= i < |parts| => KeyOf(parts[i]))
  }

  /** The walk agrees with the `??` reading of the nested path: a missing
      step and a stored null both read as null. */
  lemma {:induction false} AttrByPathIsPath(v: Value, parts: seq<string>)
    decreases |parts|
    ensures AttrByPath(v, parts).GetOr(VNull) == Path(v, PathKeys(parts))
  {
    if parts != [] {
      var ks := PathKeys(parts);
      assert ks[1..] == PathKeys(parts[1..]);
      AttrByPathIsPath(Get(v, ks[0]), parts[1..]);
      if !v.VArr? || OrderedMap.Find(v.entries, KeyOf(parts[0])).None? {
        NullPath(ks[1..]);
      }
    }
  }

  lemma {:induction false} NullPath(ks: seq<Key>)
    ensures Path(VNull, ks) == VNull
  {
    if ks != [] {
      NullPath(ks[1..]);
    }
  }

  /** The value `normalize_attributes_for_css` reads for one setting:
      `config['attr'] ?? key`, split at dots, null when missing. */
  function SettingValue(attributes: Value, key: Key, config: Value): Value {
    var path := ToStr(Coalesce(Get(config, StrKey("attr")), KeyValue(key)));
    AttrByPath(attributes, Split(path, '.')).GetOr(VNull)
  }

  /** The value a setting of a non-border type converts to. */
  function Convert(value: Value, config: Value): Value {
    var t := Get(config, StrKey("type"));
    if LooseEqWord(t, "color") then ColorUtils.ColorAttributeToCss(value)
    else if LooseEqWord(t, "spacing") then VStr(ToStr(value))
    else if LooseEqWord(t, "justify") then
      HorizontalAlignment(value, Truthy(Coalesce(Get(config, StrKey("reverse")), VBool(false))))
    else if LooseEqWord(t, "number") then
      (if IsSet(config, StrKey("unit")) then VStr(ToStr(value) + ToStr(Get(config, StrKey("unit"))))
       else VStr(ToStr(value)))
    else VStr(ToStr(value))
  }

  /** The type switch reaches the `border` case: none of the earlier cases
      compares equal first. */
  predicate IsBorder(config: Value) {
    var t := Get(config, StrKey("type"));
    LooseEqWord(t, "border") && !LooseEqWord(t, "color") && !LooseEqWord(t, "spacing") &&
    !LooseEqWord(t, "justify") && !LooseEqWord(t, "number")
  }

  /** The flat key of a border entry: `"{$key}-{$border_key}"`. */
  function FlatKey(key: Key, bk: Key): Key {
    KeyOf(KeyText(key) + "-" + KeyText(bk))
  }

  /** The flat key of a border entry is never the border's own key. */
  lemma FlatKeyDiffers(key: Key, bk: Key)
    ensures FlatKey(key, bk) != key
  {
    var t := KeyText(key) + "-" + KeyText(bk);
    assert |t| > |KeyText(key)|;
    match key
    case StrKey(s) => assert KeyText(key) == s;
    case IntKey(n) => assert KeyText(key) == IntText(n);
  }

  /** The writes of the flattening loop: every non-null border entry under
      its flat key, in order. */
  function FlatWrites(key: Key, border: seq<(Key, Value)>): seq<(Key, Value)>
  {
    if border == [] then []
    else
      var n := |border| - 1;
      FlatWrites(key, border[..n]) + (if border[n].1 != VNull then [(FlatKey(key, border[n].0), border[n].1)] else [])
  }

  /** No flat write lands on the border's own key. */
  lemma {:induction false} FlatWritesAvoid(key: Key, border: seq<(Key, Value)>)
    ensures OrderedMap.FindLast(FlatWrites(key, border), key) == None
  {
    if border != [] {
      var n := |border| - 1;
      FlatWritesAvoid(key, border[..n]);
      FlatKeyDiffers(key, border[n].0);
      var w := FlatWrites(key, border);
      var wf := FlatWrites(key, border[..n]);
      if border[n].1 != VNull {
        assert w[|w| - 1].0 != key && w[..|w| - 1] == wf;
      } else {
        assert w == wf;
      }
    }
  }

  /** The state of the loop: the attributes (which the border case patches
      in place) and the result so far. */
  datatype State = State(attributes: Value, result: seq<(Key, Value)>)

  /** One iteration. `asWritten` selects the code as it stands, where the
      final `$result[$key] = $value` also runs after the border case and
      replaces the patched border with the raw value read for the setting. */
  function Step(st: State, key: Key, config: Value, asWritten: bool): (r: State)
    requires st.attributes.VArr?
    ensures r.attributes.VArr?
  {
    var value := SettingValue(st.attributes, key, config);
    if value == VNull then st
    else if IsBorder(config) then
      var attrs := ColorUtils.PatchBorderColors(st.attributes, key);
      var border := Get(attrs, key);
      var res := OrderedMap.PutAll(OrderedMap.Put(st.result, key, border), FlatWrites(key, Entries(border)));
      State(attrs, if asWritten then OrderedMap.Put(res, key, value) else res)
    else State(st.attributes, OrderedMap.Put(st.result, key, Convert(value, config)))
  }

  function Loop(st: State, settings: seq<(Key, Value)>, asWritten: bool): (r: State)
    requires st.attributes.VArr?
    ensures r.attributes.VArr?
    decreases |settings|
  {
    if settings == [] then st
    else Loop(Step(st, settings[0].0, settings[0].1, asWritten), settings[1..], asWritten)
  }

  /** `normalize_attributes_for_css` as written. */
  function NormalizeAttributesAsWritten(settings: seq<(Key, Value)>, attributes: Value): seq<(Key, Value)>
    requires attributes.VArr?
  {
    Loop(State(attributes, []), settings, true).result
  }

  /** `normalize_attributes_for_css` with the border case kept: the entry
      of a border setting is the patched border. */
  function NormalizeAttributes(settings: seq<(Key, Value)>, attributes: Value): seq<(Key, Value)>
    requires attributes.VArr?
  {
    Loop(State(attributes, []), settings, false).result
  }

  /** A setting whose value is missing leaves everything as it was; any
      other non-border setting stores its converted value under its key and
      touches nothing else. */
  lemma StepPlain(st: State, key: Key, config: Value, asWritten: bool)
    requires st.attributes.VArr? && !IsBorder(config)
    ensures var r := Step(st, key, config, asWritten);
            var value := SettingValue(st.attributes, key, config);
            && r.attributes == st.attributes
            && (value == VNull ==> r == st)
            && (value != VNull ==> OrderedMap.Find(r.result, key) == Some(Convert(value, config)))
            && forall k :: k != key ==> OrderedMap.Find(r.result, k) == OrderedMap.Find(st.result, k)
  {
  }

  /** With the border case kept, the entry of a border setting is the
      patched border, which is written back to the attributes. */
  lemma StepBorder(st: State, key: Key, config: Value)
    requires st.attributes.VArr? && IsBorder(config)
    requires SettingValue(st.attributes, key, config) != VNull
    ensures var r := Step(st, key, config, false);
            && r.attributes == ColorUtils.PatchBorderColors(st.attributes, key)
            && OrderedMap.Find(r.result, key) == Some(Get(r.attributes, key))
  {
    var attrs := ColorUtils.PatchBorderColors(st.attributes, key);
    FlatWritesAvoid(key, Entries(Get(attrs, key)));
  }

  /** ... and every non-null entry of that border is also under its flat
      key, when the border's keys are distinct. */
  lemma StepBorderFlat(st: State, key: Key, config: Value, bk: Key)
    requires st.attributes.VArr? && IsBorder(config)
    requires SettingValue(st.attributes, key, config) != VNull
    requires WellKeyed(Entries(Get(st.attributes, key)))
    ensures var r := Step(st, key, config, false);
            var border := Get(r.attributes, key);
            Get(border, bk) != VNull ==> OrderedMap.Find(r.result, FlatKey(key, bk)) == Some(Get(border, bk))
  {
    var attrs := ColorUtils.PatchBorderColors(st.attributes, key);
    var border := Get(attrs, key);
    if Get(border, bk) != VNull {
      BorderKeepsValid(st.attributes, key);
      var e := Entries(border);
      var i :| 0 <= i < |e| && e[i] == (bk, Get(border, bk));
      FlatWriteLast(key, e, bk, Get(border, bk));
    }
  }

  /** Patching keeps the border's keys. */
  lemma BorderKeepsValid(attributes: Value, key: Key)
    requires attributes.VArr? && WellKeyed(Entries(Get(attributes, key)))
    ensures WellKeyed(Entries(Get(ColorUtils.PatchBorderColors(attributes, key), key)))
  {
    ColorUtils.PatchBorderColorsSpec(attributes, key, key);
    var b := Get(attributes, key);
    if b.VArr? {
      WellKeyedSameKeys(Entries(Get(ColorUtils.PatchBorderColors(attributes, key), key)), b.entries);
    }
  }

  /** Among the flat writes of a border with distinct keys, the last write
      of an entry's flat key carries that entry. */
  lemma {:induction false} FlatWriteLast(key: Key, border: seq<(Key, Value)>, bk: Key, v: Value)
    requires WellKeyed(border) && Normalised(bk)
    requires OrderedMap.Find(border, bk) == Some(v) && v != VNull
    ensures OrderedMap.FindLast(FlatWrites(key, border), FlatKey(key, bk)) == Some(v)
  {
    var n := |border| - 1;
    var front := border[..n];
    WellKeyedPrefix(border);
    OrderedMap.FindSnoc(border);
    var fk := FlatKey(key, bk);
    var wf := FlatWrites(key, front);
    var w := FlatWrites(key, border);
    if border[n].0 == bk {
      assert border[n].1 == v;
      FindLastSnoc(wf, (fk, v), fk);
    } else {
      assert OrderedMap.Find(front, bk) == Some(v);
      FlatWriteLast(key, front, bk, v);
      if border[n].1 != VNull {
        assert Normalised(border[n].0);
        FlatKeyInjective(key, bk, border[n].0);
        FindLastSnoc(wf, (FlatKey(key, border[n].0), border[n].1), fk);
      } else {
        assert w == wf;
      }
    }
  }

  lemma WellKeyedPrefix(e: seq<(Key, Value)>)
    requires WellKeyed(e) && e != []
    ensures WellKeyed(e[..|e| - 1]) && Normalised(e[|e| - 1].0)
  {
    OrderedMap.ValidPrefix(e);
    var f := e[..|e| - 1];
    forall i | 0 <= i < |f| ensures Normalised(f[i].0) {
      assert f[i] == e[i];
    }
  }

  /** The last pair of a sequence with one more pair at the end. */
  lemma FindLastSnoc<K, V>(w: seq<(K, V)>, x: (K, V), k: K)
    ensures OrderedMap.FindLast(w + [x], k) == if x.0 == k then Some(x.1) else OrderedMap.FindLast(w, k)
  {
    assert (w + [x])[..|w|] == w;
  }

  /** Distinct normalised border keys give distinct flat keys. */
  lemma FlatKeyInjective(key: Key, a: Key, b: Key)
    requires a != b && Normalised(a) && Normalised(b)
    ensures FlatKey(key, a) != FlatKey(key, b)
  {
    if KeyText(a) == KeyText(b) {
      KeyTextInjective(a, b);
    }
    var n := |KeyText(key)| + 1;
    var ta, tb := KeyText(key) + "-" + KeyText(a), KeyText(key) + "-" + KeyText(b);
    assert ta[n..] == KeyText(a) && tb[n..] == KeyText(b);
  }

  /** Entries with the keys of a well-keyed array are well keyed. */
  lemma WellKeyedSameKeys(e: seq<(Key, Value)>, e0: seq<(Key, Value)>)
    requires WellKeyed(e0) && OrderedMap.Keys(e) == OrderedMap.Keys(e0)
    ensures WellKeyed(e)
  {
    forall i | 0 <= i < |e| ensures Normalised(e[i].0) {
      assert e[i].0 == OrderedMap.Keys(e)[i] == OrderedMap.Keys(e0)[i] == e0[i].0;
    }
  }

  /** As written, a border setting ends with the raw value read for it,
      not the patched border. */
  lemma AsWrittenKeepsRaw(st: State, key: Key, config: Value)
    requires st.attributes.VArr? && IsBorder(config)
    requires SettingValue(st.attributes, key, config) != VNull
    ensures OrderedMap.Find(Step(st, key, config, true).result, key) == Some(SettingValue(st.attributes, key, config))
  {
  }

  /** The discrepancy on the smallest input: a border attribute with one
      preset colour, under a setting without `attr`. As written the entry
      keeps the slug; with the border case kept it holds the custom
      property, as the flat `-color` entry does. */
  lemma BorderEntryDiscrepancy(st: State, name: string, config: Value, c: string)
    requires st.attributes.VArr? && IsBorder(config) && Get(config, StrKey("attr")) == VNull
    requires name != [] && !IsDigit(name[0]) && name[0] != '-' && '.' !in name
    requires c != "" && c != "0" && c[0] != '#'
    requires OrderedMap.Find(st.attributes.entries, StrKey(name)) == Some(VArr([(ColorUtils.COLOR, VStr(c))]))
    ensures OrderedMap.Find(Step(st, StrKey(name), config, true).result, StrKey(name)) ==
              Some(VArr([(ColorUtils.COLOR, VStr(c))]))
    ensures var e := OrderedMap.Find(Step(st, StrKey(name), config, false).result, StrKey(name));
            e.Some? && Get(e.value, ColorUtils.COLOR) == VStr(ColorUtils.PresetVar("color", c))
  {
    var key := StrKey(name);
    WordKey(name);
    SplitWithout(name, '.');
    var raw := VArr([(ColorUtils.COLOR, VStr(c))]);
    assert KeyValue(key) == VStr(name);
    assert ToStr(Coalesce(Get(config, StrKey("attr")), KeyValue(key))) == name;
    assert [name][1..] == [];
    assert AttrByPath(st.attributes, [name]) == AttrByPath(raw, []);
    assert SettingValue(st.attributes, key, config) == raw;
    assert Get(raw, ColorUtils.COLOR) == VStr(c);
    assert Get(st.attributes, key) == raw;
    assert IsSet(raw, ColorUtils.COLOR);
    assert !StartsWith(c, "#") by { assert c[..1][0] == c[0]; }
    assert ColorUtils.ColorAttributeToCss(VStr(c)) == VStr(ColorUtils.PresetVar("color", c));
    ColorUtils.PatchBorderColorsSpec(st.attributes, key, ColorUtils.COLOR);
    var attrs := ColorUtils.PatchBorderColors(st.attributes, key);
    assert Get(Get(attrs, key), ColorUtils.COLOR) == VStr(ColorUtils.PresetVar("color", c));
    StepBorder(st, key, config);
  }
}
