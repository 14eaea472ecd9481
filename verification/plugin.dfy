/** The plugin-level predicates built on the module manager: asset bundle
    mode, whether a feature is active, the active feature keys, and which
    bundled assets `on_init` processes. */
module Plugin {
  import opened Wrappers
  import opened Php
  import OrderedMap
  import Wp
  import MM = ModulesManager

  /** `is_asset_bundle_mode`: no row of the modules data is freemium and
      not enabled. */
  predicate IsAssetBundleMode(data: seq<MM.ModuleData>) {
    forall i :: 0 <= i < |data| ==> !(data[i].isFreemium && !Truthy(data[i].enabled))
  }

  /** For a constructed manager, bundle mode holds exactly when every listed
      class is enabled, and then every listed class has an instance under
      its identifier. */
  lemma BundleModeOfConstructed(found: seq<string>, o: Wp.Options, classOf: string -> MM.ModuleClass, hooks: MM.Hooks)
    ensures var m := MM.Construct(found, o, classOf, hooks);
            && (IsAssetBundleMode(MM.ModulesData(m, o, classOf, hooks)) <==>
                  forall c :: c in m.manageable ==> Truthy(MM.IsEnabled(o, classOf, hooks, c)))
            && (IsAssetBundleMode(MM.ModulesData(m, o, classOf, hooks)) ==>
                  forall c :: c in m.manageable ==> OrderedMap.Find(m.modules, classOf(c).identifier).Some?)
  {
    var cs := MM.PrepareClassnames(found, classOf, hooks);
    var m := MM.Construct(found, o, classOf, hooks);
    var data := MM.ModulesData(m, o, classOf, hooks);
    MM.BuildContents(cs, o, classOf, hooks);
    forall c | c in m.manageable ensures classOf(c).isModule && MM.Listed(classOf, hooks, c) {
    }
    if IsAssetBundleMode(data) {
      forall c | c in m.manageable
        ensures Truthy(MM.IsEnabled(o, classOf, hooks, c)) && OrderedMap.Find(m.modules, classOf(c).identifier).Some?
      {
        var i :| 0 <= i < |m.manageable| && m.manageable[i] == c;
        assert data[i].isFreemium;
        assert MM.Instantiated(o, classOf, hooks, c);
        assert MM.HasInstance(cs, o, classOf, hooks, classOf(c).identifier);
      }
    } else {
      var i :| 0 <= i < |data| && data[i].isFreemium && !Truthy(data[i].enabled);
      assert m.manageable[i] in m.manageable;
    }
  }

  /** `is_feature_active`: `get_modules` cast to bool. A truthy name asks
      for one instance; a falsy one gets the whole map, which is true when
      any module has an instance. */
  function IsFeatureActive(m: MM.Manager, feature: string): (r: bool)
    ensures Truthy(VStr(feature)) ==> (r <==> OrderedMap.Find(m.modules, feature).Some?)
    ensures !Truthy(VStr(feature)) ==> (r <==> m.modules != [])
  {
    match MM.GetModules(m, feature)
    case Instance(_) => true
    case Null => false
    case AllModules(ms) => ms != []
  }

  /** `get_active_features_keys`: the identifiers of the non-core
      instances, in the map's order. */
  function ActiveFeaturesKeys(modules: OrderedMap.Assoc<string, string>, classOf: string -> MM.ModuleClass): (r: seq<string>)
    ensures forall k :: k in r <==>
              exists i :: 0 <= i < |modules| && !classOf(modules[i].1).core && classOf(modules[i].1).identifier == k
  {
    if modules == [] then []
    else
      var c := modules[0].1;
      var rest := ActiveFeaturesKeys(modules[1..], classOf);
      assert forall i :: 1 <= i < |modules| ==> modules[i] == modules[1..][i - 1];
      (if classOf(c).core then [] else [classOf(c).identifier]) + rest
  }

  /** For a constructed manager the active feature keys are exactly the
      identifiers whose instance is not a core module. */
  lemma ActiveFeaturesOfConstructed(found: seq<string>, o: Wp.Options, classOf: string -> MM.ModuleClass, hooks: MM.Hooks, k: string)
    ensures var m := MM.Construct(found, o, classOf, hooks);
            k in ActiveFeaturesKeys(m.modules, classOf) <==>
              OrderedMap.Find(m.modules, k).Some? && !classOf(OrderedMap.Find(m.modules, k).value).core
  {
    var cs := MM.PrepareClassnames(found, classOf, hooks);
    var m := MM.Construct(found, o, classOf, hooks);
    MM.BuildContents(cs, o, classOf, hooks);
    if k in ActiveFeaturesKeys(m.modules, classOf) {
      var i :| 0 <= i < |m.modules| && !classOf(m.modules[i].1).core && classOf(m.modules[i].1).identifier == k;
      var id := m.modules[i].0;
      assert OrderedMap.Keys(m.modules)[i] == id;
      OrderedMap.FindIndex(m.modules, i);
      assert classOf(m.modules[i].1).identifier == id;
    }
    if OrderedMap.Find(m.modules, k).Some? && !classOf(OrderedMap.Find(m.modules, k).value).core {
      var c := OrderedMap.Find(m.modules, k).value;
      var i :| 0 <= i < |m.modules| && m.modules[i] == (k, c);
    }
  }

  /** The bundled assets `on_init` processes. */
  datatype Bundle = Editor | EditorContent | View

  /** Only in bundle mode: the editor and editor-content bundles in the
      admin, the view bundle elsewhere. */
  function BundledAssets(data: seq<MM.ModuleData>, isAdmin: bool): (r: seq<Bundle>)
    ensures !IsAssetBundleMode(data) ==> r == []
    ensures IsAssetBundleMode(data) && isAdmin ==> r == [Editor, EditorContent]
    ensures IsAssetBundleMode(data) && !isAdmin ==> r == [View]
  {
    if IsAssetBundleMode(data) then (if isAdmin then [Editor, EditorContent] else [View]) else []
  }
}
