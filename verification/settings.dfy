/** The plugin's own options (Settings): the names they are stored under,
    the module on/off switch and its sanitiser, and the sanitiser of a
    module's settings array. */
module Settings {
  import opened Php
  import opened Text
  import Wp

  const PLUGIN_ID := "better-block-editor"
  const MODULE_PREFIX := PLUGIN_ID + "__module__"
  const ENABLED_SUFFIX := "__enabled"
  const SETTINGS_SUFFIX := "__settings"

  /** The option holding the user-defined breakpoints. */
  const BREAKPOINTS_OPTION := PLUGIN_ID + "__user-defined-responsiveness-breakpoints"

  /** `build_module_option_name`: the base name of a module's options. */
  function ModuleOptionName(id: string): (r: string)
    ensures StartsWith(r, MODULE_PREFIX) && |r| == |MODULE_PREFIX| + |id|
    ensures r[|MODULE_PREFIX|..] == id
  {
    MODULE_PREFIX + id
  }

  /** `build_module_enabled_option_name`: where a module's on/off state lives. */
  function EnabledOptionName(id: string): (r: string)
    ensures StartsWith(r, ModuleOptionName(id)) && EndsWith(r, ENABLED_SUFFIX)
    ensures |r| == |ModuleOptionName(id)| + |ENABLED_SUFFIX|
  {
    ModuleOptionName(id) + ENABLED_SUFFIX
  }

  /** `build_module_settings_name`: where a module's settings array lives. */
  function SettingsOptionName(id: string): (r: string)
    ensures StartsWith(r, ModuleOptionName(id)) && EndsWith(r, SETTINGS_SUFFIX)
    ensures |r| == |ModuleOptionName(id)| + |SETTINGS_SUFFIX|
  {
    ModuleOptionName(id) + SETTINGS_SUFFIX
  }

  /** A name that starts with the module prefix and ends with a suffix
      determines the text in between. */
  lemma Between(a: string, b: string, suffix: string)
    requires MODULE_PREFIX + a + suffix == MODULE_PREFIX + b + suffix
    ensures a == b
  {
    var n := |MODULE_PREFIX|;
    assert (MODULE_PREFIX + a + suffix)[n..n + |a|] == a;
    assert (MODULE_PREFIX + b + suffix)[n..n + |b|] == b;
  }

  /** Each module has its own on/off option and its own settings option,
      and no on/off option is a settings option. */
  lemma OptionNamesDistinct(a: string, b: string)
    ensures EnabledOptionName(a) == EnabledOptionName(b) ==> a == b
    ensures SettingsOptionName(a) == SettingsOptionName(b) ==> a == b
    ensures EnabledOptionName(a) != SettingsOptionName(b)
  {
    if EnabledOptionName(a) == EnabledOptionName(b) {
      Between(a, b, ENABLED_SUFFIX);
    }
    if SettingsOptionName(a) == SettingsOptionName(b) {
      Between(a, b, SETTINGS_SUFFIX);
    }
    var e := EnabledOptionName(a);
    var s := SettingsOptionName(b);
    assert e[|e| - 1] == 'd' && s[|s| - 1] == 's';
  }

  /** The breakpoint option is no module's option. */
  lemma BreakpointsOptionApart(id: string)
    ensures BREAKPOINTS_OPTION != EnabledOptionName(id)
    ensures BREAKPOINTS_OPTION != SettingsOptionName(id)
    ensures BREAKPOINTS_OPTION != ModuleOptionName(id)
  {
    var i := |PLUGIN_ID| + 2;
    assert BREAKPOINTS_OPTION[i] == 'u';
    assert EnabledOptionName(id)[i] == MODULE_PREFIX[i] == 'm';
    assert SettingsOptionName(id)[i] == MODULE_PREFIX[i];
    assert |ModuleOptionName(id)| > i ==> ModuleOptionName(id)[i] == MODULE_PREFIX[i];
  }

  /** `is_module_enabled`: the stored switch, or `default` (true unless the
      caller says otherwise) while the option does not exist. */
  function IsModuleEnabled(o: Wp.Options, id: string, default: Value): Value {
    Wp.GetOption(o, EnabledOptionName(id), default)
  }

  /** Switching one module off leaves every other module's switch alone. */
  lemma OtherSwitchesIgnored(o: Wp.Options, id: string, other: string, v: Value, default: Value)
    requires other != id
    ensures IsModuleEnabled(Wp.UpdateOption(o, EnabledOptionName(other), v), id, default) == IsModuleEnabled(o, id, default)
  {
    OptionNamesDistinct(other, id);
  }

  /** The sanitiser of the on/off checkbox: '1' for '1' or true, '0' for
      anything else. */
  function SanitizeEnabled(v: Value): (r: Value)
    ensures r == VStr("1") || r == VStr("0")
    ensures Truthy(r) <==> v == VStr("1") || v == VBool(true)
  {
    if v == VStr("1") || v == VBool(true) then VStr("1") else VStr("0")
  }

  /** Saving the checkbox and reading the switch back gives a stored value
      that is on exactly when '1' or true was submitted, and that the
      sanitiser leaves as it is. */
  lemma EnabledRoundTrip(o: Wp.Options, id: string, submitted: Value, default: Value)
    ensures var r := IsModuleEnabled(Wp.UpdateOption(o, EnabledOptionName(id), SanitizeEnabled(submitted)), id, default);
            && (Truthy(r) <==> submitted == VStr("1") || submitted == VBool(true))
            && SanitizeEnabled(r) == r
  {
  }

  /** How a module setting is sanitised, chosen by `switch ($field['type'] ?? 'text')`. */
  datatype FieldKind = MultiCheckbox | Checkbox | Text

  /** The cases are tried in order with PHP's loose comparison; anything
      that matches neither checkbox case is treated as text. */
  function KindOf(field: Value): (k: FieldKind)
    ensures At(field, "type") == VNull ==> k == Text
    ensures At(field, "type") == VStr("checkbox") ==> k == Checkbox
    ensures At(field, "type") == VStr("multicheckbox") ==> k == MultiCheckbox
    ensures At(field, "type").VStr? && At(field, "type").s != "checkbox" && At(field, "type").s != "multicheckbox" ==> k == Text
  {
    var t := Coalesce(At(field, "type"), VStr("text"));
    if LooseEqWord(t, "multicheckbox") then MultiCheckbox
    else if LooseEqWord(t, "checkbox") then Checkbox
    else Text
  }

  /** The multicheckbox loop: every available option submitted non-empty
      is set to 1, every other available option is removed, and entries
      that are no available option are kept. */
  function MarkOptions(current: Value, submitted: Value, available: seq<Key>): (r: Value)
    decreases |available|
    ensures forall a :: a in available ==> Get(r, a) == (if Truthy(Get(submitted, a)) then VInt(1) else VNull)
    ensures forall a :: a !in available ==> Get(r, a) == Get(current, a)
  {
    if available == [] then current
    else
      var a := available[0];
      var next := if Truthy(Get(submitted, a)) then Set(current, a, VInt(1)) else Unset(current, a);
      MarkOptions(next, submitted, available[1..])
  }

  /** The sanitiser registered for one setting `key` of a module's settings
      array, given the field definition and the submitted value.
      `textField` is WordPress's `sanitize_text_field`. */
  function SanitizeModuleSetting(field: Value, key: Key, input: Value, textField: Value -> Value): (r: Value)
    ensures r.VArr?
    ensures forall k :: k != key ==> Get(r, k) == Get(ToArray(input), k)
    ensures KindOf(field) == Checkbox ==> Get(r, key) == VInt(if Truthy(Get(ToArray(input), key)) then 1 else 0)
    ensures KindOf(field) == Text ==> Get(r, key) == textField(Coalesce(Get(ToArray(input), key), VStr("")))
    ensures KindOf(field) == MultiCheckbox ==>
              forall a :: a in KeysOf(Coalesce(At(field, "options"), VArr([]))) ==>
                Get(Get(r, key), a) == (if Truthy(Get(Get(ToArray(input), key), a)) then VInt(1) else VNull)
    ensures KindOf(field) == MultiCheckbox ==>
              forall a :: a !in KeysOf(Coalesce(At(field, "options"), VArr([]))) ==>
                Get(Get(r, key), a) == Get(Get(ToArray(input), key), a)
  {
    var input := ToArray(input);
    match KindOf(field)
    case MultiCheckbox =>
      var available := KeysOf(Coalesce(At(field, "options"), VArr([])));
      var sub := Get(input, key);
      Set(input, key, MarkOptions(Coalesce(sub, VArr([])), sub, available))
    case Checkbox =>
      Set(input, key, VInt(if Truthy(Get(input, key)) then 1 else 0))
    case Text =>
      Set(input, key, textField(Coalesce(Get(input, key), VStr(""))))
  }

  /** Sanitising an already sanitised checkbox setting changes nothing it
      holds. */
  lemma CheckboxIdempotent(field: Value, key: Key, input: Value, textField: Value -> Value)
    requires KindOf(field) == Checkbox
    ensures var once := SanitizeModuleSetting(field, key, input, textField);
            forall k :: Get(SanitizeModuleSetting(field, key, once, textField), k) == Get(once, k)
  {
    var once := SanitizeModuleSetting(field, key, input, textField);
    assert ToArray(once) == once;
  }

  /** Sanitising an already sanitised multicheckbox setting changes none of
      the options it records. */
  lemma MultiCheckboxIdempotent(field: Value, key: Key, input: Value, textField: Value -> Value)
    requires KindOf(field) == MultiCheckbox
    ensures var once := SanitizeModuleSetting(field, key, input, textField);
            forall a :: Get(Get(SanitizeModuleSetting(field, key, once, textField), key), a) == Get(Get(once, key), a)
  {
    var once := SanitizeModuleSetting(field, key, input, textField);
    var twice := SanitizeModuleSetting(field, key, once, textField);
    assert ToArray(once) == once;
    MarkedStable(KeysOf(Coalesce(At(field, "options"), VArr([]))), Get(ToArray(input), key), Get(once, key), Get(twice, key));
  }

  /** Marking options that are already marked changes none of them. */
  lemma MarkedStable(available: seq<Key>, submitted: Value, once: Value, twice: Value)
    requires forall a :: a in available ==> Get(once, a) == (if Truthy(Get(submitted, a)) then VInt(1) else VNull)
    requires forall a :: a in available ==> Get(twice, a) == (if Truthy(Get(once, a)) then VInt(1) else VNull)
    requires forall a :: a !in available ==> Get(twice, a) == Get(once, a)
    ensures forall a :: Get(twice, a) == Get(once, a)
  {
    forall a ensures Get(twice, a) == Get(once, a) {
      if a in available {
        assert Get(once, a) == VInt(1) || Get(once, a) == VNull;
      }
    }
  }
}
