/** The per-module settings store every module inherits (ModuleBase): one
    option per module holding an array of named settings. */
module ModuleBase {
  import opened Php
  import OrderedMap
  import Wp
  import Settings

  /** `get_option($key, $default)`: the module's settings array (an empty
      array while the option does not exist), then `$options[$key] ?? $default`. */
  function ModuleOption(o: Wp.Options, id: string, key: string, default: Value): (r: Value)
    ensures Settings.SettingsOptionName(id) !in OrderedMap.Keys(o) ==> r == default
    ensures r == VNull ==> default == VNull
  {
    Coalesce(Get(Wp.GetOption(o, Settings.SettingsOptionName(id), VArr([])), KeyOf(key)), default)
  }

  /** `set_option($key, $value)`: the settings array with `$options[$key] =
      $value`, passed through the option's registered sanitiser
      (`sanitize_option`, here the parameter `sanitize`), written back. */
  function SetModuleOption(o: Wp.Options, id: string, key: string, v: Value, sanitize: Value -> Value): (r: Wp.Options)
    ensures forall d :: Wp.GetOption(r, Settings.SettingsOptionName(id), d) ==
              sanitize(Set(Wp.GetOption(o, Settings.SettingsOptionName(id), VArr([])), KeyOf(key), v))
    ensures forall n, d :: n != Settings.SettingsOptionName(id) ==> Wp.GetOption(r, n, d) == Wp.GetOption(o, n, d)
  {
    var name := Settings.SettingsOptionName(id);
    Wp.UpdateOption(o, name, sanitize(Set(Wp.GetOption(o, name, VArr([])), KeyOf(key), v)))
  }

  /** A sanitiser that leaves the entry under `key` as it is. */
  ghost predicate KeepsKey(sanitize: Value -> Value, key: string) {
    forall x :: Get(sanitize(x), KeyOf(key)) == Get(x, KeyOf(key))
  }

  /** What `set_option` writes, `get_option` reads back (unless the
      sanitiser changes it), and no other module's settings change. */
  lemma SetThenGet(o: Wp.Options, id: string, key: string, v: Value, sanitize: Value -> Value, other: string, d: Value)
    requires KeepsKey(sanitize, key)
    ensures ModuleOption(SetModuleOption(o, id, key, v, sanitize), id, key, d) == Coalesce(v, d)
    ensures other != id ==> Wp.GetOption(SetModuleOption(o, id, key, v, sanitize), Settings.SettingsOptionName(other), d) ==
                            Wp.GetOption(o, Settings.SettingsOptionName(other), d)
  {
    Settings.OptionNamesDistinct(other, id);
  }
}
