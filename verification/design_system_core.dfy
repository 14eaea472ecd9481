/** The design-system core module (DesignSystemCore): the theme check that
    switches the parts module off, and the "parts activated once" flag. */
module DesignSystemCore {
  import opened Wrappers
  import opened Php
  import OrderedMap
  import Wp
  import ModuleBase
  import MM = ModulesManager

  const IDENTIFIER := "design-system-core"
  const PARTS_ACTIVATED_FLAG := "parts_activated_once_flag"

  /** The class name of the design-system parts module. */
  const PARTS_CLASS := "BetterBlockEditor\\Modules\\DesignSystemParts\\Module"

  /** `is_bbe_template`: the active theme is one of the three themes the
      plugin ships a design system for (strict `in_array`). */
  predicate IsBbeTemplate(template: string) {
    template == "dt-the7" || template == "better-block-theme" || template == "bbe"
  }

  /** `disable_parts_module`, the `wpbbe_is_manageable_module_enabled`
      filter: false for the parts module under a BBE theme, the incoming
      value otherwise. */
  function DisablePartsModule(enabled: Value, classname: string, template: string): (r: Value)
    ensures r != enabled ==> r == VBool(false) && classname == PARTS_CLASS && IsBbeTemplate(template)
    ensures classname == PARTS_CLASS && IsBbeTemplate(template) ==> r == VBool(false)
  {
    if !IsBbeTemplate(template) then enabled
    else if classname == PARTS_CLASS then VBool(false)
    else enabled
  }

  /** With the filter installed under a BBE theme, the parts module is
      neither listed as manageable nor instantiated; under any other theme
      the filter lists every active manageable class. */
  lemma PartsModuleDisabled(found: seq<string>, o: Wp.Options, classOf: string -> MM.ModuleClass, hooks: MM.Hooks, template: string)
    requires forall c :: hooks.manageableEnabled(c) == DisablePartsModule(VBool(true), c, template)
    requires classOf(PARTS_CLASS).manageable
    ensures var m := MM.Construct(found, o, classOf, hooks);
            IsBbeTemplate(template) ==>
              && PARTS_CLASS !in m.manageable
              && forall id :: OrderedMap.Find(m.modules, id) != Some(PARTS_CLASS)
    ensures !IsBbeTemplate(template) ==> forall c :: MM.Listed(classOf, hooks, c) <==> classOf(c).active && classOf(c).manageable
  {
    var cs := MM.PrepareClassnames(found, classOf, hooks);
    MM.BuildContents(cs, o, classOf, hooks);
    assert IsBbeTemplate(template) ==> !MM.Listed(classOf, hooks, PARTS_CLASS);
  }

  /** `is_parts_activated_flag`: the stored flag cast to bool, false when
      it was never stored. */
  predicate IsPartsActivatedFlag(o: Wp.Options) {
    Truthy(ModuleBase.ModuleOption(o, IDENTIFIER, PARTS_ACTIVATED_FLAG, VBool(false)))
  }

  /** `set_part_activated_flag`: whether the flag changed, and the options
      afterwards. An unchanged flag writes nothing. */
  function SetPartActivatedFlag(o: Wp.Options, value: bool, sanitize: Value -> Value): (r: (bool, Wp.Options))
    ensures r.0 <==> IsPartsActivatedFlag(o) != value
    ensures !r.0 ==> r.1 == o
    ensures r.0 ==> r.1 == ModuleBase.SetModuleOption(o, IDENTIFIER, PARTS_ACTIVATED_FLAG, VBool(value), sanitize)
  {
    if IsPartsActivatedFlag(o) == value then (false, o)
    else (true, ModuleBase.SetModuleOption(o, IDENTIFIER, PARTS_ACTIVATED_FLAG, VBool(value), sanitize))
  }

  /** After setting, the flag reads as the value set, and setting the same
      value again reports no change. */
  lemma SetFlagSettles(o: Wp.Options, value: bool, sanitize: Value -> Value)
    requires ModuleBase.KeepsKey(sanitize, PARTS_ACTIVATED_FLAG)
    ensures var r := SetPartActivatedFlag(o, value, sanitize);
            && IsPartsActivatedFlag(r.1) == value
            && !SetPartActivatedFlag(r.1, value, sanitize).0
  {
    var r := SetPartActivatedFlag(o, value, sanitize);
    if r.0 {
      ModuleBase.SetThenGet(o, IDENTIFIER, PARTS_ACTIVATED_FLAG, VBool(value), sanitize, IDENTIFIER, VBool(false));
      assert Truthy(VBool(value)) == value;
    }
  }
}
