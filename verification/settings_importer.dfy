/** Site settings shipped with a demo (WPSettingsImporter): the front page
    settings, menu locations, widgets, logo and icon. Every value the import
    overwrites is captured first, and the captured originals go to the demo's
    tracker through its write-once `add`. */
module SettingsImporter {
  import opened Wrappers
  import OrderedMap
  import opened Php
  import Wp
  import Tracker
  import opened ImportSession
  import opened DemoSite
  import Text

  const WP_SETTINGS := "wp_settings"
  const MENU_LOCATIONS := "menu_locations"
  const WIDGETS_SETTINGS := "widgets_settings"
  const NAV_MENU_LOCATIONS := "nav_menu_locations"
  const CUSTOM_LOGO := "custom_logo"
  const SITE_ICON := "site_icon"
  const SHOW_ON_FRONT := "show_on_front"
  const PAGE_ON_FRONT := "page_on_front"
  const PAGE_FOR_POSTS := "page_for_posts"

  /** The two widgets whose `menu` setting names a menu term. */
  const MENU_WIDGETS: seq<string> := ["widget_presscore-custom-menu-one", "widget_presscore-custom-menu-two"]

  /** The entries of a PHP array. */
  type Arr = OrderedMap.Assoc<Key, Value>

  /** `origin_settings`: the replaced values of each group. The widget group
      does not exist until a widget is written. */
  datatype Importer = Importer(wpSettings: Arr, menuLocations: Arr, widgets: Option<Arr>)

  /** The constructor: the first two groups start empty, the widget group is
      absent. */
  function NewImporter(): (imp: Importer)
    ensures imp.wpSettings == [] && imp.menuLocations == [] && imp.widgets.None?
  {
    Importer([], [], None)
  }

  /** `isset($a[$k])` on the entries of an array. */
  predicate Held(a: Arr, k: Key) {
    OrderedMap.Find(a, k).Some? && OrderedMap.Find(a, k).value != VNull
  }

  /** `update_wp_setting`: captures the live value (false when the option
      does not exist), then writes the new value. */
  function UpdateWpSetting(imp: Importer, s: Site, key: string, v: Value): (r: (Importer, Site))
    ensures OrderedMap.Find(r.0.wpSettings, StrKey(key)) == Some(OptionOf(s, key))
    ensures forall k :: k != StrKey(key) ==> OrderedMap.Find(r.0.wpSettings, k) == OrderedMap.Find(imp.wpSettings, k)
    ensures r.0.(wpSettings := imp.wpSettings) == imp
    ensures OptionOf(r.1, key) == v
    ensures forall n, d :: n != key ==> Wp.GetOption(r.1.options, n, d) == Wp.GetOption(s.options, n, d)
    ensures r.1.(options := s.options) == s
    ensures WellKeyed(imp.wpSettings) && Normalised(StrKey(key)) ==> WellKeyed(r.0.wpSettings)
  {
    assert WellKeyed(imp.wpSettings) && Normalised(StrKey(key)) ==>
             WellKeyed(OrderedMap.Put(imp.wpSettings, StrKey(key), OptionOf(s, key))) by {
      if WellKeyed(imp.wpSettings) && Normalised(StrKey(key)) {
        PutKeepsWellKeyed(imp.wpSettings, StrKey(key), OptionOf(s, key));
      }
    }
    (imp.(wpSettings := OrderedMap.Put(imp.wpSettings, StrKey(key), OptionOf(s, key))), SetOption(s, key, v))
  }

  /** `save_in_tracker`: a group that exists is offered to the tracker's
      write-once `add` as an array. */
  function SaveInTracker(st: Store, group: string, g: Option<Arr>): (r: Store)
    ensures g.None? ==> r == st
    ensures g.Some? ==> r == TrackAdd(st, group, VArr(g.value))
  {
    if g.Some? then TrackAdd(st, group, VArr(g.value)) else st
  }

  /** `$settings[$name]` after `wp_parse_args` with a false default. */
  function Field(settings: Value, name: string): (r: Value)
    ensures StrKey(name) !in KeysOf(settings) ==> r == VBool(false)
    ensures StrKey(name) in KeysOf(settings) ==> (StrKey(name), r) in Entries(settings)
  {
    if StrKey(name) in KeysOf(settings) then At(settings, name) else VBool(false)
  }

  /** The local id of the demo's front page (0 when not imported). */
  function FrontPage(settings: Value, posts: IdMap): int {
    LookupKey(posts, Field(settings, PAGE_ON_FRONT))
  }

  /** The local id of the demo's posts page (0 when not imported). */
  function PostsPage(settings: Value, posts: IdMap): int {
    LookupKey(posts, Field(settings, PAGE_FOR_POSTS))
  }

  /** The front page half of `import_settings`: both settings change
      together, and only to an imported page. */
  function ImportFrontPage(imp: Importer, s: Site, front: int, postTypeOf: int -> string): (r: (Importer, Site))
    ensures postTypeOf(front) != "page" ==> r == (imp, s)
    ensures postTypeOf(front) == "page" ==>
              && OptionOf(r.1, SHOW_ON_FRONT) == VStr("page") && OptionOf(r.1, PAGE_ON_FRONT) == VInt(front)
              && OrderedMap.Find(r.0.wpSettings, StrKey(SHOW_ON_FRONT)) == Some(OptionOf(s, SHOW_ON_FRONT))
              && OrderedMap.Find(r.0.wpSettings, StrKey(PAGE_ON_FRONT)) == Some(OptionOf(s, PAGE_ON_FRONT))
    ensures forall n, d :: n != SHOW_ON_FRONT && n != PAGE_ON_FRONT ==> Wp.GetOption(r.1.options, n, d) == Wp.GetOption(s.options, n, d)
    ensures forall k :: k != StrKey(SHOW_ON_FRONT) && k != StrKey(PAGE_ON_FRONT) ==>
              OrderedMap.Find(r.0.wpSettings, k) == OrderedMap.Find(imp.wpSettings, k)
    ensures r.0.(wpSettings := imp.wpSettings) == imp
    ensures r.1.(options := s.options) == s
    ensures WellKeyed(imp.wpSettings) ==> WellKeyed(r.0.wpSettings)
  {
    assert Normalised(StrKey(SHOW_ON_FRONT)) && Normalised(StrKey(PAGE_ON_FRONT)) by {
      assert !Text.IsDigit(SHOW_ON_FRONT[0]) && !Text.IsDigit(PAGE_ON_FRONT[0]);
    }
    if postTypeOf(front) == "page" then
      var a := UpdateWpSetting(imp, s, SHOW_ON_FRONT, VStr("page"));
      UpdateWpSetting(a.0, a.1, PAGE_ON_FRONT, VInt(front))
    else (imp, s)
  }

  /** The posts page half: the posts page changes only to an imported page. */
  function ImportPostsPage(imp: Importer, s: Site, postsPage: int, postTypeOf: int -> string): (r: (Importer, Site))
    ensures postTypeOf(postsPage) != "page" ==> r == (imp, s)
    ensures postTypeOf(postsPage) == "page" ==>
              && OptionOf(r.1, PAGE_FOR_POSTS) == VInt(postsPage)
              && OrderedMap.Find(r.0.wpSettings, StrKey(PAGE_FOR_POSTS)) == Some(OptionOf(s, PAGE_FOR_POSTS))
    ensures forall n, d :: n != PAGE_FOR_POSTS ==> Wp.GetOption(r.1.options, n, d) == Wp.GetOption(s.options, n, d)
    ensures forall k :: k != StrKey(PAGE_FOR_POSTS) ==> OrderedMap.Find(r.0.wpSettings, k) == OrderedMap.Find(imp.wpSettings, k)
    ensures r.0.(wpSettings := imp.wpSettings) == imp
    ensures r.1.(options := s.options) == s
    ensures WellKeyed(imp.wpSettings) ==> WellKeyed(r.0.wpSettings)
  {
    assert Normalised(StrKey(PAGE_FOR_POSTS)) by {
      assert !Text.IsDigit(PAGE_FOR_POSTS[0]);
    }
    if postTypeOf(postsPage) == "page" then UpdateWpSetting(imp, s, PAGE_FOR_POSTS, VInt(postsPage))
    else (imp, s)
  }

  /** The changes `import_settings` makes when the demo shows a page on the
      front: the front page (`front`) and the posts page (`postsPage`, both
      already mapped to local ids) are each switched only to an imported
      page, and every option switched has its original captured. */
  function ApplySettings(imp: Importer, s: Site, front: int, postsPage: int, postTypeOf: int -> string): (r: (Importer, Site))
    ensures postTypeOf(front) == "page" ==>
              OptionOf(r.1, SHOW_ON_FRONT) == VStr("page") && OptionOf(r.1, PAGE_ON_FRONT) == VInt(front)
    ensures postTypeOf(front) != "page" ==>
              OptionOf(r.1, SHOW_ON_FRONT) == OptionOf(s, SHOW_ON_FRONT) && OptionOf(r.1, PAGE_ON_FRONT) == OptionOf(s, PAGE_ON_FRONT)
    ensures postTypeOf(postsPage) == "page" ==> OptionOf(r.1, PAGE_FOR_POSTS) == VInt(postsPage)
    ensures postTypeOf(postsPage) != "page" ==> OptionOf(r.1, PAGE_FOR_POSTS) == OptionOf(s, PAGE_FOR_POSTS)
    ensures forall n, d :: n != SHOW_ON_FRONT && n != PAGE_ON_FRONT && n != PAGE_FOR_POSTS ==>
              Wp.GetOption(r.1.options, n, d) == Wp.GetOption(s.options, n, d)
    ensures WellKeyed(imp.wpSettings) ==> WellKeyed(r.0.wpSettings)
    ensures r.0.(wpSettings := imp.wpSettings) == imp
    ensures r.1.(options := s.options) == s
  {
    var a := ImportFrontPage(imp, s, front, postTypeOf);
    var b := ImportPostsPage(a.0, a.1, postsPage, postTypeOf);
    assert OptionOf(a.1, PAGE_FOR_POSTS) == OptionOf(s, PAGE_FOR_POSTS);
    assert OptionOf(b.1, SHOW_ON_FRONT) == OptionOf(a.1, SHOW_ON_FRONT);
    assert OptionOf(b.1, PAGE_ON_FRONT) == OptionOf(a.1, PAGE_ON_FRONT);
    b
  }

  /** What applying the settings captures: each of the three options it
      writes, with the value it had before, and nothing else. */
  lemma ApplySettingsCaptures(imp: Importer, s: Site, front: int, postsPage: int, postTypeOf: int -> string)
    ensures var r := ApplySettings(imp, s, front, postsPage, postTypeOf);
            && (forall k :: k != StrKey(SHOW_ON_FRONT) && k != StrKey(PAGE_ON_FRONT) && k != StrKey(PAGE_FOR_POSTS) ==>
                  OrderedMap.Find(r.0.wpSettings, k) == OrderedMap.Find(imp.wpSettings, k))
            && OrderedMap.Find(r.0.wpSettings, StrKey(SHOW_ON_FRONT)) ==
                 (if postTypeOf(front) == "page" then Some(OptionOf(s, SHOW_ON_FRONT)) else OrderedMap.Find(imp.wpSettings, StrKey(SHOW_ON_FRONT)))
            && OrderedMap.Find(r.0.wpSettings, StrKey(PAGE_ON_FRONT)) ==
                 (if postTypeOf(front) == "page" then Some(OptionOf(s, PAGE_ON_FRONT)) else OrderedMap.Find(imp.wpSettings, StrKey(PAGE_ON_FRONT)))
            && OrderedMap.Find(r.0.wpSettings, StrKey(PAGE_FOR_POSTS)) ==
                 (if postTypeOf(postsPage) == "page" then Some(OptionOf(s, PAGE_FOR_POSTS)) else OrderedMap.Find(imp.wpSettings, StrKey(PAGE_FOR_POSTS)))
  {
    var a := ImportFrontPage(imp, s, front, postTypeOf);
    var b := ImportPostsPage(a.0, a.1, postsPage, postTypeOf);
    assert OptionOf(a.1, PAGE_FOR_POSTS) == OptionOf(s, PAGE_FOR_POSTS);
    assert OrderedMap.Find(a.0.wpSettings, StrKey(PAGE_FOR_POSTS)) == OrderedMap.Find(imp.wpSettings, StrKey(PAGE_FOR_POSTS));
    assert OrderedMap.Find(b.0.wpSettings, StrKey(SHOW_ON_FRONT)) == OrderedMap.Find(a.0.wpSettings, StrKey(SHOW_ON_FRONT));
    assert OrderedMap.Find(b.0.wpSettings, StrKey(PAGE_ON_FRONT)) == OrderedMap.Find(a.0.wpSettings, StrKey(PAGE_ON_FRONT));
  }

  /** `import_settings`: nothing happens unless the demo shows a page on the
      front; then the settings are applied and the captured group, even when
      empty, is offered to the tracker. */
  function ImportSettings(imp: Importer, st: Store, settings: Value, posts: IdMap, postTypeOf: int -> string): (r: (Importer, Store))
    ensures Field(settings, SHOW_ON_FRONT) != VStr("page") ==> r == (imp, st)
    ensures Field(settings, SHOW_ON_FRONT) == VStr("page") ==>
              var a := ApplySettings(imp, st.site, FrontPage(settings, posts), PostsPage(settings, posts), postTypeOf);
              && r.0 == a.0
              && r.1.site == a.1
              && (!IsSet(Tracker.Bucket(st.tracker), StrKey(WP_SETTINGS)) ==> At(Tracker.Bucket(r.1.tracker), WP_SETTINGS) == VArr(a.0.wpSettings))
              && (IsSet(Tracker.Bucket(st.tracker), StrKey(WP_SETTINGS)) ==> r.1.tracker == st.tracker)
  {
    if Field(settings, SHOW_ON_FRONT) != VStr("page") then (imp, st)
    else
      var a := ApplySettings(imp, st.site, FrontPage(settings, posts), PostsPage(settings, posts), postTypeOf);
      (a.0, SaveInTracker(Store(a.1, st.tracker), WP_SETTINGS, Some(a.0.wpSettings)))
  }

  /** The id a location or widget is pointed at: the imported menu, 0 when
      the menu was not imported. */
  function MenuOf(terms: IdMap, menu: Value): (r: Value)
    ensures r.VInt? && (r.i != 0 ==> ArrayKey(menu).Some? && ArrayKey(menu).value.IntKey?)
  {
    VInt(LookupKey(terms, menu))
  }

  /** The loop of `import_menu_locations` over `(location, menu)` pairs, in
      order: a location that is assigned at that moment has its assignment
      captured, then it is assigned the imported menu. Because a PHP array
      never repeats a key, every captured assignment is the one the location
      had before the loop. */
  function AssignLocations(e: Arr, terms: IdMap, origin: Arr, locations: Arr): (r: (Arr, Arr))
    requires OrderedMap.Valid(e)
    ensures forall k :: OrderedMap.Find(r.1, k) ==
              if k in OrderedMap.Keys(e) then Some(MenuOf(terms, OrderedMap.Find(e, k).value)) else OrderedMap.Find(locations, k)
    ensures forall k :: OrderedMap.Find(r.0, k) ==
              if k in OrderedMap.Keys(e) && Held(locations, k) then OrderedMap.Find(locations, k) else OrderedMap.Find(origin, k)
  {
    if e == [] then (origin, locations)
    else
      var p := e[..|e| - 1];
      var k := e[|e| - 1].0;
      OrderedMap.FindSnoc(e);
      var a := AssignLocations(p, terms, origin, locations);
      var origin' := if Held(a.1, k) then OrderedMap.Put(a.0, k, OrderedMap.Find(a.1, k).value) else a.0;
      (origin', OrderedMap.Put(a.1, k, MenuOf(terms, e[|e| - 1].1)))
  }

  /** The captured group keeps distinct keys. */
  lemma {:induction false} AssignLocationsValid(e: Arr, terms: IdMap, origin: Arr, locations: Arr)
    requires OrderedMap.Valid(e) && OrderedMap.Valid(origin)
    ensures OrderedMap.Valid(AssignLocations(e, terms, origin, locations).0)
  {
    if e != [] {
      var p := e[..|e| - 1];
      var k := e[|e| - 1].0;
      OrderedMap.ValidPrefix(e);
      AssignLocationsValid(p, terms, origin, locations);
      var a := AssignLocations(p, terms, origin, locations);
      if Held(a.1, k) {
        OrderedMap.PutKeepsValid(a.0, k, OrderedMap.Find(a.1, k).value);
      }
    }
  }

  /** `import_menu_locations`. Listed locations point at the imported menus,
      other locations keep their menus, only locations that already had a
      menu have their original captured, and the captured group is offered
      to the tracker before the theme modification is written. An empty list
      leaves the stored value as it was. */
  function ImportMenuLocations(imp: Importer, st: Store, menuLocations: Value, terms: IdMap): (r: (Importer, Store))
    requires OrderedMap.Valid(Entries(menuLocations))
    ensures var before := ThemeMod(st.site, NAV_MENU_LOCATIONS);
            var after := ThemeMod(r.1.site, NAV_MENU_LOCATIONS);
            && (forall k :: k !in KeysOf(menuLocations) ==> Get(after, k) == Get(before, k))
            && (forall k :: k in KeysOf(menuLocations) ==> Get(after, k) == MenuOf(terms, Get(menuLocations, k)))
    ensures var before := ThemeMod(st.site, NAV_MENU_LOCATIONS);
            forall k :: OrderedMap.Find(r.0.menuLocations, k) ==
              if k in KeysOf(menuLocations) && IsSet(before, k) then Some(Get(before, k)) else OrderedMap.Find(imp.menuLocations, k)
    ensures r.0.(menuLocations := imp.menuLocations) == imp
    ensures OrderedMap.Valid(imp.menuLocations) ==> OrderedMap.Valid(r.0.menuLocations)
    ensures !IsSet(Tracker.Bucket(st.tracker), StrKey(MENU_LOCATIONS)) ==>
              At(Tracker.Bucket(r.1.tracker), MENU_LOCATIONS) == VArr(r.0.menuLocations)
    ensures IsSet(Tracker.Bucket(st.tracker), StrKey(MENU_LOCATIONS)) ==> r.1.tracker == st.tracker
    ensures forall n, d :: n != NAV_MENU_LOCATIONS ==> Wp.GetOption(r.1.site.mods, n, d) == Wp.GetOption(st.site.mods, n, d)
    ensures r.1.site.options == st.site.options
  {
    var e := Entries(menuLocations);
    var before := ThemeMod(st.site, NAV_MENU_LOCATIONS);
    var a := AssignLocations(e, terms, imp.menuLocations, Entries(before));
    assert OrderedMap.Valid(imp.menuLocations) ==> OrderedMap.Valid(a.0) by {
      if OrderedMap.Valid(imp.menuLocations) {
        AssignLocationsValid(e, terms, imp.menuLocations, Entries(before));
      }
    }
    var after := if e == [] then before else VArr(a.1);
    var st' := SaveInTracker(st, MENU_LOCATIONS, Some(a.0));
    (imp.(menuLocations := a.0), Store(SetThemeMod(st'.site, NAV_MENU_LOCATIONS, after), st'.tracker))
  }

  /** One widget instance after `filter_widget_settings`: a set `menu` is
      pointed at the imported menu, nothing else changes. */
  function RemapMenu(w: Value, terms: IdMap): (r: Value)
    ensures IsSet(w, StrKey("menu")) ==> At(r, "menu") == MenuOf(terms, At(w, "menu"))
    ensures IsSet(w, StrKey("menu")) ==> forall k :: k != StrKey("menu") ==> Get(r, k) == Get(w, k)
    ensures !IsSet(w, StrKey("menu")) ==> r == w
  {
    if IsSet(w, StrKey("menu")) then Set(w, StrKey("menu"), MenuOf(terms, At(w, "menu"))) else w
  }

  /** `filter_widget_settings`: only the two menu widgets (compared
      strictly, so an integer key never matches) are changed, and in them
      only the `menu` setting of each instance. */
  function FilterWidgetSettings(widgetId: Key, settings: Value, terms: IdMap): (r: Value)
    ensures !(widgetId.StrKey? && widgetId.s in MENU_WIDGETS) || !settings.VArr? ==> r == settings
    ensures widgetId.StrKey? && widgetId.s in MENU_WIDGETS && settings.VArr? ==>
              && r.VArr? && KeysOf(r) == KeysOf(settings)
              && forall i :: 0 <= i < |settings.entries| ==> r.entries[i].1 == RemapMenu(settings.entries[i].1, terms)
  {
    if widgetId.StrKey? && widgetId.s in MENU_WIDGETS && settings.VArr? then
      var e := settings.entries;
      VArr(seq(|e|, i requires 0 <= i < |e| => (e[i].0, RemapMenu(e[i].1, terms))))
    else settings
  }

  /** The option names the widget keys stand for, in order. */
  function OptionNames(e: Arr): (ns: seq<string>)
    ensures |ns| == |e| && forall i :: 0 <= i < |e| ==> ns[i] == KeyText(e[i].0)
  {
    seq(|e|, i requires 0 <= i < |e| => KeyText(e[i].0))
  }

  /** Every widget's settings after `filter_widget_settings`, keys unchanged. */
  function FilterAll(e: Arr, terms: IdMap): (f: Arr)
    ensures |f| == |e|
    ensures forall i :: 0 <= i < |e| ==> f[i] == (e[i].0, FilterWidgetSettings(e[i].0, e[i].1, terms))
    ensures OrderedMap.Keys(f) == OrderedMap.Keys(e) && OptionNames(f) == OptionNames(e)
  {
    var f := seq(|e|, i requires 0 <= i < |e| => (e[i].0, FilterWidgetSettings(e[i].0, e[i].1, terms)));
    assert OrderedMap.Keys(f) == OrderedMap.Keys(e);
    f
  }

  /** The `update_option` calls of the loop of `import_widgets`, in order. */
  function Writes(e: Arr): (w: Wp.Options)
    ensures |w| == |e| && OrderedMap.Keys(w) == OptionNames(e)
    ensures forall i :: 0 <= i < |e| ==> w[i] == (KeyText(e[i].0), e[i].1)
  {
    seq(|e|, i requires 0 <= i < |e| => (KeyText(e[i].0), e[i].1))
  }

  /** The captures of the loop of `import_widgets`: each widget key with the
      value its option has before the loop (false when it does not exist).
      The loop captures an option just before writing it, but no option is
      written twice, because distinct normalised keys name distinct options
      (`DistinctNames`), so each capture sees the value from before the loop. */
  function Captures(e: Arr, o: Wp.Options): (c: Arr)
    ensures |c| == |e| && OrderedMap.Keys(c) == OrderedMap.Keys(e)
    ensures forall i :: 0 <= i < |e| ==> c[i] == (e[i].0, Wp.GetOption(o, KeyText(e[i].0), VBool(false)))
  {
    var c := seq(|e|, i requires 0 <= i < |e| => (e[i].0, Wp.GetOption(o, KeyText(e[i].0), VBool(false))));
    assert OrderedMap.Keys(c) == OrderedMap.Keys(e);
    c
  }

  /** Distinct normalised keys have distinct texts. */
  lemma DistinctNames(e: Arr)
    requires WellKeyed(e)
    ensures OrderedMap.Distinct(OptionNames(e))
  {
    forall i, j | 0 <= i < j < |e| ensures OptionNames(e)[i] != OptionNames(e)[j] {
      if KeyText(e[i].0) == KeyText(e[j].0) {
        KeyTextInjective(e[i].0, e[j].0);
        assert OrderedMap.Keys(e)[i] == OrderedMap.Keys(e)[j];
      }
    }
  }

  /** Replaying the writes of an array with normalised keys gives option
      `n` the value the array holds under the key `n` stands for. */
  lemma WritesFind(w: Arr, n: string)
    requires WellKeyed(w)
    ensures OrderedMap.FindLast(Writes(w), n) == OrderedMap.Find(w, KeyOf(n))
  {
    DistinctNames(w);
    var ws := Writes(w);
    OrderedMap.FindLastDistinct(ws, n);
    if i :| 0 <= i < |w| && KeyText(w[i].0) == n {
      assert ws[i] == (n, w[i].1);
      OrderedMap.FindAt(ws, i);
      assert KeyOf(n) == w[i].0 by { assert Normalised(w[i].0); }
      OrderedMap.FindAt(w, i);
    } else {
      KeyOfKeyText(n);
      assert n !in OrderedMap.Keys(ws);
      assert KeyOf(n) !in OrderedMap.Keys(w);
    }
  }

  /** The options after the loop of `import_widgets`: every listed widget
      option holds its filtered settings, every other option is unchanged. */
  function WriteWidgets(o: Wp.Options, e: Arr, terms: IdMap): (r: Wp.Options)
    requires WellKeyed(e)
    ensures forall i :: 0 <= i < |e| ==> OrderedMap.Find(r, KeyText(e[i].0)) == Some(FilterWidgetSettings(e[i].0, e[i].1, terms))
    ensures forall n :: n !in OptionNames(e) ==> OrderedMap.Find(r, n) == OrderedMap.Find(o, n)
  {
    var f := FilterAll(e, terms);
    DistinctNames(e);
    forall i | 0 <= i < |e| ensures OrderedMap.Find(OrderedMap.PutAll(o, Writes(f)), KeyText(e[i].0)) == Some(f[i].1) {
      OrderedMap.PutAllAt(o, Writes(f), i);
    }
    OrderedMap.PutAll(o, Writes(f))
  }

  /** The widget group after the loop of `import_widgets`: every listed
      widget has its original option value, other entries are unchanged. */
  function CaptureWidgets(origin: Arr, o: Wp.Options, e: Arr): (r: Arr)
    requires OrderedMap.Valid(e)
    ensures forall i :: 0 <= i < |e| ==> OrderedMap.Find(r, e[i].0) == Some(Wp.GetOption(o, KeyText(e[i].0), VBool(false)))
    ensures forall k :: k !in OrderedMap.Keys(e) ==> OrderedMap.Find(r, k) == OrderedMap.Find(origin, k)
  {
    forall i | 0 <= i < |e| ensures OrderedMap.Find(OrderedMap.PutAll(origin, Captures(e, o)), e[i].0) == Some(Captures(e, o)[i].1) {
      OrderedMap.PutAllAt(origin, Captures(e, o), i);
    }
    OrderedMap.PutAll(origin, Captures(e, o))
  }

  /** `import_widgets`: the options take the written widgets, the widget
      group is created on the first widget and captures the originals, and
      the group, once it exists, is offered to the tracker. */
  function ImportWidgets(imp: Importer, st: Store, widgets: Value, terms: IdMap): (r: (Importer, Store))
    requires WellKeyed(Entries(widgets))
    ensures Entries(widgets) == [] ==> r == (imp, SaveInTracker(st, WIDGETS_SETTINGS, imp.widgets))
    ensures var e := Entries(widgets);
            e != [] ==>
              && r.0 == imp.(widgets := Some(CaptureWidgets(imp.widgets.GetOr([]), st.site.options, e)))
              && r.1.site == st.site.(options := WriteWidgets(st.site.options, e, terms))
    ensures r.0.widgets.Some? && !IsSet(Tracker.Bucket(st.tracker), StrKey(WIDGETS_SETTINGS)) ==>
              At(Tracker.Bucket(r.1.tracker), WIDGETS_SETTINGS) == VArr(r.0.widgets.value)
    ensures r.0.widgets.None? || IsSet(Tracker.Bucket(st.tracker), StrKey(WIDGETS_SETTINGS)) ==> r.1.tracker == st.tracker
  {
    var e := Entries(widgets);
    if e == [] then (imp, SaveInTracker(st, WIDGETS_SETTINGS, imp.widgets))
    else
      var imp' := imp.(widgets := Some(CaptureWidgets(imp.widgets.GetOr([]), st.site.options, e)));
      (imp', SaveInTracker(Store(st.site.(options := WriteWidgets(st.site.options, e, terms)), st.tracker), WIDGETS_SETTINGS, imp'.widgets))
  }

  /** `import_custom_logo`: a truthy original logo is offered to the
      tracker; the new logo is always written. */
  function ImportCustomLogo(st: Store, logo: int): (r: Store)
    ensures ThemeMod(r.site, CUSTOM_LOGO) == VInt(logo)
    ensures Truthy(ThemeMod(st.site, CUSTOM_LOGO)) && !IsSet(Tracker.Bucket(st.tracker), StrKey(CUSTOM_LOGO)) ==>
              At(Tracker.Bucket(r.tracker), CUSTOM_LOGO) == ThemeMod(st.site, CUSTOM_LOGO)
    ensures !Truthy(ThemeMod(st.site, CUSTOM_LOGO)) || IsSet(Tracker.Bucket(st.tracker), StrKey(CUSTOM_LOGO)) ==> r.tracker == st.tracker
    ensures forall n, d :: n != CUSTOM_LOGO ==> Wp.GetOption(r.site.mods, n, d) == Wp.GetOption(st.site.mods, n, d)
    ensures r.site.(mods := st.site.mods) == st.site
  {
    var original := ThemeMod(st.site, CUSTOM_LOGO);
    var st' := if Truthy(original) then TrackAdd(st, CUSTOM_LOGO, original) else st;
    Store(SetThemeMod(st'.site, CUSTOM_LOGO, VInt(logo)), st'.tracker)
  }

  /** `import_site_icon`: the same for the `site_icon` option. */
  function ImportSiteIcon(st: Store, icon: int): (r: Store)
    ensures OptionOf(r.site, SITE_ICON) == VInt(icon)
    ensures Truthy(OptionOf(st.site, SITE_ICON)) && !IsSet(Tracker.Bucket(st.tracker), StrKey(SITE_ICON)) ==>
              At(Tracker.Bucket(r.tracker), SITE_ICON) == OptionOf(st.site, SITE_ICON)
    ensures !Truthy(OptionOf(st.site, SITE_ICON)) || IsSet(Tracker.Bucket(st.tracker), StrKey(SITE_ICON)) ==> r.tracker == st.tracker
    ensures forall n, d :: n != SITE_ICON ==> Wp.GetOption(r.site.options, n, d) == Wp.GetOption(st.site.options, n, d)
    ensures r.site.(options := st.site.options) == st.site
  {
    var original := OptionOf(st.site, SITE_ICON);
    var st' := if Truthy(original) then TrackAdd(st, SITE_ICON, original) else st;
    Store(SetOption(st'.site, SITE_ICON, VInt(icon)), st'.tracker)
  }

  /** A second import of the same demo does not replace the originals the
      first one captured: the tracker keeps the settings as they were before
      the first import. */
  lemma SecondImportKeepsFirstOriginals(st: Store, first: Value, second: Value, posts: IdMap, postTypeOf: int -> string)
    requires Field(first, SHOW_ON_FRONT) == VStr("page")
    requires !IsSet(Tracker.Bucket(st.tracker), StrKey(WP_SETTINGS))
    ensures var a := ImportSettings(NewImporter(), st, first, posts, postTypeOf);
            var b := ImportSettings(NewImporter(), a.1, second, posts, postTypeOf);
            At(Tracker.Bucket(b.1.tracker), WP_SETTINGS) == VArr(a.0.wpSettings)
  {
    var a := ImportSettings(NewImporter(), st, first, posts, postTypeOf);
    assert At(Tracker.Bucket(a.1.tracker), WP_SETTINGS) == VArr(a.0.wpSettings);
    assert IsSet(Tracker.Bucket(a.1.tracker), StrKey(WP_SETTINGS));
    var b := ImportSettings(NewImporter(), a.1, second, posts, postTypeOf);
    assert b.1.tracker == a.1.tracker;
  }
}
