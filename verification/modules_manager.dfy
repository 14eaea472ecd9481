/** Module discovery and instantiation (ModulesManager): which module
    classes are kept, in which order, which are listed as manageable, which
    get an instance, and the data the settings page receives about them. */
module ModulesManager {
  import opened Wrappers
  import opened Php
  import OrderedMap
  import Wp
  import Settings

  /** What the manager learns about a class name through `is_a` and the
      class's static methods. A name that is no class implements nothing. */
  datatype ModuleClass = ModuleClass(
    isModule: bool,        // implements ModuleInterface
    manageable: bool,      // implements ManagableModuleInterface
    core: bool,            // is_core_module()
    active: bool,          // is_active()
    identifier: string,    // get_identifier()
    defaultState: Value)   // get_default_state()

  /** The WordPress filters the manager applies, as functions of their
      arguments: `wpbbe_modules_classnames`, `wpbbe_is_manageable_module_enabled`
      (whose first argument is always true) and `wpbbe_is_module_enabled`. */
  datatype Hooks = Hooks(
    classnames: seq<string> -> seq<string>,
    manageableEnabled: string -> Value,
    moduleEnabled: (Value, string) -> Value)

  /** The classes of `xs` that implement the module interface, in order
      (`array_filter` with `is_a`, then `array_values`). */
  function Implementing(xs: seq<string>, classOf: string -> ModuleClass): (r: seq<string>)
    ensures forall x :: x in r <==> x in xs && classOf(x).isModule
  {
    if xs == [] then [] else (if classOf(xs[0]).isModule then [xs[0]] else []) + Implementing(xs[1..], classOf)
  }

  /** The core (`core` true) or the non-core classes of `xs`, in order. */
  function Group(xs: seq<string>, classOf: string -> ModuleClass, core: bool): seq<string> {
    if xs == [] then [] else (if classOf(xs[0]).core == core then [xs[0]] else []) + Group(xs[1..], classOf, core)
  }

  /** A group holds exactly the classes of the list that are (or are not)
      core. */
  lemma {:induction false} GroupMembers(xs: seq<string>, classOf: string -> ModuleClass, core: bool)
    ensures forall x :: x in Group(xs, classOf, core) <==> x in xs && classOf(x).core == core
  {
    if xs != [] {
      GroupMembers(xs[1..], classOf, core);
      assert xs == [xs[0]] + xs[1..];
    }
  }

  /** One step of `Group`: the first class, if it belongs, then the rest. */
  lemma GroupCons(xs: seq<string>, classOf: string -> ModuleClass, core: bool)
    requires xs != []
    ensures Group(xs, classOf, core) == (if classOf(xs[0]).core == core then [xs[0]] else []) + Group(xs[1..], classOf, core)
  {
  }

  lemma {:induction false} GroupAppend(a: seq<string>, b: seq<string>, classOf: string -> ModuleClass, core: bool)
    ensures Group(a + b, classOf, core) == Group(a, classOf, core) + Group(b, classOf, core)
  {
    if a != [] {
      var h := if classOf(a[0]).core == core then [a[0]] else [];
      var ga, gb := Group(a[1..], classOf, core), Group(b, classOf, core);
      assert Group(a + b, classOf, core) == h + Group(a[1..] + b, classOf, core) by {
        assert (a + b)[0] == a[0];
        assert (a + b)[1..] == a[1..] + b;
        GroupCons(a + b, classOf, core);
      }
      assert Group(a, classOf, core) == h + ga by {
        GroupCons(a, classOf, core);
      }
      GroupAppend(a[1..], b, classOf, core);
      assert h + (ga + gb) == (h + ga) + gb;
    } else {
      assert a + b == b;
    }
  }

  /** A list whose classes all are (or all are not) core is its own group,
      and the other group of it is empty. */
  lemma {:induction false} GroupUniform(xs: seq<string>, classOf: string -> ModuleClass, core: bool)
    requires forall i :: 0 <= i < |xs| ==> classOf(xs[i]).core == core
    ensures Group(xs, classOf, core) == xs
    ensures Group(xs, classOf, !core) == []
  {
    if xs != [] {
      GroupUniform(xs[1..], classOf, core);
    }
  }

  lemma {:induction false} GroupSplit(xs: seq<string>, classOf: string -> ModuleClass)
    ensures multiset(Group(xs, classOf, true) + Group(xs, classOf, false)) == multiset(xs)
  {
    if xs != [] {
      GroupSplit(xs[1..], classOf);
      assert xs == [xs[0]] + xs[1..];
    }
  }

  /** The core modules first, each group in its original order: PHP 8's
      `usort` is stable, and the comparator only tells core from non-core. */
  function CoreFirst(xs: seq<string>, classOf: string -> ModuleClass): (r: seq<string>)
    ensures multiset(r) == multiset(xs)
  {
    GroupSplit(xs, classOf);
    Group(xs, classOf, true) + Group(xs, classOf, false)
  }

  /** The sort loses and adds no class. */
  lemma CoreFirstMembers(xs: seq<string>, classOf: string -> ModuleClass)
    ensures forall c :: c in CoreFirst(xs, classOf) <==> c in xs
  {
    GroupMembers(xs, classOf, true);
    GroupMembers(xs, classOf, false);
  }

  /** Core-first order: no core class comes after a non-core one. */
  predicate CoreOrdered(r: seq<string>, classOf: string -> ModuleClass) {
    forall i, j :: 0 <= i < j < |r| && classOf(r[j]).core ==> classOf(r[i]).core
  }

  /** The length of the core prefix of a core-ordered list. */
  function CoreCount(r: seq<string>, classOf: string -> ModuleClass): (n: nat)
    requires CoreOrdered(r, classOf)
    ensures n <= |r|
    ensures forall i :: 0 <= i < n ==> classOf(r[i]).core
    ensures forall i :: n <= i < |r| ==> !classOf(r[i]).core
  {
    if r == [] || !classOf(r[0]).core then 0
    else
      assert CoreOrdered(r[1..], classOf) by {
        forall i, j | 0 <= i < j < |r[1..]| && classOf(r[1..][j]).core ensures classOf(r[1..][i]).core {
          assert r[1..][i] == r[i + 1] && r[1..][j] == r[j + 1];
        }
      }
      1 + CoreCount(r[1..], classOf)
  }

  /** The sort's result is characterised by what it promises: core classes
      first, and the core and the non-core classes each in their original
      order. Any list with those three properties is that result. */
  lemma CoreFirstUnique(xs: seq<string>, r: seq<string>, classOf: string -> ModuleClass)
    requires CoreOrdered(r, classOf)
    requires Group(r, classOf, true) == Group(xs, classOf, true)
    requires Group(r, classOf, false) == Group(xs, classOf, false)
    ensures r == CoreFirst(xs, classOf)
  {
    var n := CoreCount(r, classOf);
    var a, b := r[..n], r[n..];
    assert r == a + b;
    GroupAppend(a, b, classOf, true);
    GroupAppend(a, b, classOf, false);
    GroupUniform(a, classOf, true);
    GroupUniform(b, classOf, false);
    assert Group(r, classOf, true) == a + [];
    assert Group(r, classOf, false) == [] + b;
    assert a + [] == a && [] + b == b;
  }

  /** Core classes followed by non-core ones are core-ordered. */
  lemma ConcatCoreOrdered(a: seq<string>, b: seq<string>, classOf: string -> ModuleClass)
    requires forall i :: 0 <= i < |a| ==> classOf(a[i]).core
    requires forall i :: 0 <= i < |b| ==> !classOf(b[i]).core
    ensures CoreOrdered(a + b, classOf)
  {
    var r := a + b;
    forall j | |a| <= j < |r| ensures !classOf(r[j]).core {
      assert r[j] == b[j - |a|];
    }
    forall i, j | 0 <= i < j < |r| && classOf(r[j]).core ensures classOf(r[i]).core {
      assert r[i] == a[i];
    }
  }

  /** The sort's result is core-ordered and keeps each group in order. */
  lemma CoreFirstOrdered(xs: seq<string>, classOf: string -> ModuleClass)
    ensures CoreOrdered(CoreFirst(xs, classOf), classOf)
    ensures Group(CoreFirst(xs, classOf), classOf, true) == Group(xs, classOf, true)
    ensures Group(CoreFirst(xs, classOf), classOf, false) == Group(xs, classOf, false)
  {
    var a := Group(xs, classOf, true);
    var b := Group(xs, classOf, false);
    GroupMembers(xs, classOf, true);
    GroupMembers(xs, classOf, false);
    assert forall i :: 0 <= i < |a| ==> a[i] in a;
    assert forall i :: 0 <= i < |b| ==> b[i] in b;
    ConcatCoreOrdered(a, b, classOf);
    GroupAppend(a, b, classOf, true);
    GroupAppend(a, b, classOf, false);
    GroupUniform(a, classOf, true);
    GroupUniform(b, classOf, false);
    assert CoreFirst(xs, classOf) == a + b;
  }

  /** `prepare_module_classnames`: the classes found in the modules
      directory that implement the module interface, passed through the
      class-name filter, checked again, then sorted core first. */
  function PrepareClassnames(found: seq<string>, classOf: string -> ModuleClass, hooks: Hooks): (r: seq<string>)
    ensures forall c :: c in r <==> c in hooks.classnames(Implementing(found, classOf)) && classOf(c).isModule
    ensures CoreOrdered(r, classOf)
  {
    var modules := Implementing(hooks.classnames(Implementing(found, classOf)), classOf);
    CoreFirstOrdered(modules, classOf);
    CoreFirstMembers(modules, classOf);
    CoreFirst(modules, classOf)
  }

  /** `is_module_enabled` (the manager's): false for an inactive class,
      otherwise the stored switch with the class's default, and then the
      `wpbbe_is_module_enabled` filter. */
  function IsEnabled(o: Wp.Options, classOf: string -> ModuleClass, hooks: Hooks, c: string): (r: Value)
    ensures !classOf(c).active ==> r == hooks.moduleEnabled(VBool(false), c)
    ensures classOf(c).active ==>
              r == hooks.moduleEnabled(Wp.GetOption(o, Settings.EnabledOptionName(classOf(c).identifier), classOf(c).defaultState), c)
  {
    var stored := if classOf(c).active then Settings.IsModuleEnabled(o, classOf(c).identifier, classOf(c).defaultState) else VBool(false);
    hooks.moduleEnabled(stored, c)
  }

  /** The manager's state: the instances by identifier (an instance is
      represented by its class name) and the manageable classes it lists. */
  datatype Manager = Manager(modules: OrderedMap.Assoc<string, string>, manageable: seq<string>)

  /** A manageable class the manageable filter lets through is listed. */
  predicate Listed(classOf: string -> ModuleClass, hooks: Hooks, c: string) {
    classOf(c).active && classOf(c).manageable && Truthy(hooks.manageableEnabled(c))
  }

  /** A class gets an instance when it is active and either not manageable,
      or listed and enabled. */
  predicate Instantiated(o: Wp.Options, classOf: string -> ModuleClass, hooks: Hooks, c: string) {
    classOf(c).active &&
    (!classOf(c).manageable || (Listed(classOf, hooks, c) && Truthy(IsEnabled(o, classOf, hooks, c))))
  }

  /** The body of the constructor's loop for one class name. */
  function Visit(m: Manager, o: Wp.Options, classOf: string -> ModuleClass, hooks: Hooks, c: string): (r: Manager)
    ensures r.manageable == m.manageable + (if Listed(classOf, hooks, c) then [c] else [])
    ensures Instantiated(o, classOf, hooks, c) ==> r.modules == OrderedMap.Put(m.modules, classOf(c).identifier, c)
    ensures !Instantiated(o, classOf, hooks, c) ==> r.modules == m.modules
  {
    var k := classOf(c);
    if !k.active then m
    else if k.manageable then
      if !Truthy(hooks.manageableEnabled(c)) then m
      else
        var listed := m.(manageable := m.manageable + [c]);
        if Truthy(IsEnabled(o, classOf, hooks, c)) then listed.(modules := OrderedMap.Put(m.modules, k.identifier, c))
        else listed
    else m.(modules := OrderedMap.Put(m.modules, k.identifier, c))
  }

  /** The constructor's loop over the prepared class names. */
  function Build(cs: seq<string>, o: Wp.Options, classOf: string -> ModuleClass, hooks: Hooks): (r: Manager)
    decreases |cs|
  {
    if cs == [] then Manager([], [])
    else Visit(Build(cs[..|cs| - 1], o, classOf, hooks), o, classOf, hooks, cs[|cs| - 1])
  }

  /** The manager a request constructs. */
  function Construct(found: seq<string>, o: Wp.Options, classOf: string -> ModuleClass, hooks: Hooks): Manager {
    Build(PrepareClassnames(found, classOf, hooks), o, classOf, hooks)
  }

  /** The listed classes of `cs`, in order. */
  function ListedIn(cs: seq<string>, classOf: string -> ModuleClass, hooks: Hooks): (r: seq<string>)
    decreases |cs|
    ensures forall c :: c in r <==> c in cs && Listed(classOf, hooks, c)
  {
    if cs == [] then []
    else
      var p := cs[..|cs| - 1];
      var c := cs[|cs| - 1];
      assert cs == p + [c];
      ListedIn(p, classOf, hooks) + (if Listed(classOf, hooks, c) then [c] else [])
  }

  /** Some class of `cs` that gets an instance has identifier `id`. */
  predicate HasInstance(cs: seq<string>, o: Wp.Options, classOf: string -> ModuleClass, hooks: Hooks, id: string) {
    exists c :: c in cs && Instantiated(o, classOf, hooks, c) && classOf(c).identifier == id
  }

  /** The constructor lists exactly the listed classes, in order, and keeps
      under each identifier an instantiated class that has it; an identifier
      no instantiated class has holds nothing. */
  lemma {:induction false} BuildContents(cs: seq<string>, o: Wp.Options, classOf: string -> ModuleClass, hooks: Hooks)
    decreases |cs|
    ensures var r := Build(cs, o, classOf, hooks);
            && r.manageable == ListedIn(cs, classOf, hooks)
            && OrderedMap.Valid(r.modules)
            && (forall id :: OrderedMap.Find(r.modules, id).Some? <==> HasInstance(cs, o, classOf, hooks, id))
            && (forall id :: OrderedMap.Find(r.modules, id).Some? ==>
                  var c := OrderedMap.Find(r.modules, id).value;
                  c in cs && Instantiated(o, classOf, hooks, c) && classOf(c).identifier == id)
  {
    if cs != [] {
      var p := cs[..|cs| - 1];
      var c := cs[|cs| - 1];
      assert cs == p + [c];
      BuildContents(p, o, classOf, hooks);
      var m := Build(p, o, classOf, hooks);
      assert Build(cs, o, classOf, hooks) == Visit(m, o, classOf, hooks, c);
      VisitModules(p, c, m, o, classOf, hooks);
    }
  }

  /** One round of the constructor's loop keeps the instances well-formed
      and each identifier's instance one of the classes seen so far. */
  lemma VisitModules(p: seq<string>, c: string, m: Manager, o: Wp.Options, classOf: string -> ModuleClass, hooks: Hooks)
    requires OrderedMap.Valid(m.modules)
    requires forall id :: OrderedMap.Find(m.modules, id).Some? <==> HasInstance(p, o, classOf, hooks, id)
    requires forall id :: OrderedMap.Find(m.modules, id).Some? ==>
               var x := OrderedMap.Find(m.modules, id).value;
               x in p && Instantiated(o, classOf, hooks, x) && classOf(x).identifier == id
    ensures var r := Visit(m, o, classOf, hooks, c);
            && OrderedMap.Valid(r.modules)
            && (forall id :: OrderedMap.Find(r.modules, id).Some? <==> HasInstance(p + [c], o, classOf, hooks, id))
            && (forall id :: OrderedMap.Find(r.modules, id).Some? ==>
                  var x := OrderedMap.Find(r.modules, id).value;
                  x in p + [c] && Instantiated(o, classOf, hooks, x) && classOf(x).identifier == id)
  {
    var r := Visit(m, o, classOf, hooks, c);
    if Instantiated(o, classOf, hooks, c) {
      OrderedMap.PutKeepsValid(m.modules, classOf(c).identifier, c);
    }
    forall id ensures OrderedMap.Find(r.modules, id).Some? <==> HasInstance(p + [c], o, classOf, hooks, id) {
      if HasInstance(p, o, classOf, hooks, id) {
        var x :| x in p && Instantiated(o, classOf, hooks, x) && classOf(x).identifier == id;
        assert x in p + [c];
      }
      if HasInstance(p + [c], o, classOf, hooks, id) && !HasInstance(p, o, classOf, hooks, id) {
        var x :| x in p + [c] && Instantiated(o, classOf, hooks, x) && classOf(x).identifier == id;
        assert x == c;
      }
    }
  }

  /** One row of `get_managable_modules_data`. `is_freemium` asks again
      whether the class implements the module interface, which every listed
      class does. The display fields (title, label, description, order) are
      copied from the class and are not modelled. */
  datatype ModuleData = ModuleData(identifier: string, enabled: Value, isFreemium: bool, classname: string, active: bool)

  /** `get_managable_modules_data`. */
  function ModulesData(m: Manager, o: Wp.Options, classOf: string -> ModuleClass, hooks: Hooks): (r: seq<ModuleData>)
    ensures |r| == |m.manageable|
    ensures forall i :: 0 <= i < |r| ==>
              var c := m.manageable[i];
              r[i] == ModuleData(classOf(c).identifier, IsEnabled(o, classOf, hooks, c), classOf(c).isModule, c,
                                 OrderedMap.Find(m.modules, classOf(c).identifier).Some?)
  {
    seq(|m.manageable|, i requires 0 <= i < |m.manageable| =>
      var c := m.manageable[i];
      ModuleData(classOf(c).identifier, IsEnabled(o, classOf, hooks, c), classOf(c).isModule, c,
                 OrderedMap.Find(m.modules, classOf(c).identifier).Some?))
  }

  /** In the data of a constructed manager every row is freemium, and a row
      is active exactly when some instantiated class has its identifier. */
  lemma ModulesDataOfConstructed(found: seq<string>, o: Wp.Options, classOf: string -> ModuleClass, hooks: Hooks, i: int)
    requires var m := Construct(found, o, classOf, hooks); 0 <= i < |m.manageable|
    ensures var cs := PrepareClassnames(found, classOf, hooks);
            var m := Construct(found, o, classOf, hooks);
            var d := ModulesData(m, o, classOf, hooks)[i];
            && d.isFreemium
            && Listed(classOf, hooks, d.classname)
            && (d.active <==> HasInstance(cs, o, classOf, hooks, d.identifier))
  {
    var cs := PrepareClassnames(found, classOf, hooks);
    var m := Construct(found, o, classOf, hooks);
    BuildContents(cs, o, classOf, hooks);
    assert m.manageable[i] in m.manageable;
  }

  /** What `get_modules` returns: one instance or null for a truthy name,
      the whole map otherwise. */
  datatype Lookup = Instance(classname: string) | Null | AllModules(modules: OrderedMap.Assoc<string, string>)

  /** `get_modules($module_name)`. A name is falsy when it is '' or '0'. */
  function GetModules(m: Manager, name: string): (r: Lookup)
    ensures !Truthy(VStr(name)) ==> r == AllModules(m.modules)
    ensures Truthy(VStr(name)) ==> (r.Instance? <==> OrderedMap.Find(m.modules, name).Some?)
    ensures Truthy(VStr(name)) && r.Instance? ==> OrderedMap.Find(m.modules, name) == Some(r.classname)
    ensures Truthy(VStr(name)) ==> r != AllModules(m.modules)
  {
    if Truthy(VStr(name)) then
      match OrderedMap.Find(m.modules, name)
      case Some(c) => Instance(c)
      case None => Null
    else AllModules(m.modules)
  }
}
