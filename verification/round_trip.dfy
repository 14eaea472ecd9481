/** Importing a demo's site settings and then removing the demo: what the
    removal gives back. Each lemma starts from a tracker that holds nothing
    for the group yet (the first import of the demo) and a fresh importer. */
module RoundTrip {
  import opened Wrappers
  import OrderedMap
  import opened Php
  import Wp
  import Tracker
  import opened ImportSession
  import opened DemoSite
  import opened SettingsImporter
  import Remover
  import Text

  /** The front page settings come back exactly as `get_option` saw them,
      and no other option changes. */
  lemma SettingsRoundTrip(st: Store, settings: Value, posts: IdMap, postTypeOf: int -> string)
    requires Field(settings, SHOW_ON_FRONT) == VStr("page")
    requires !IsSet(Tracker.Bucket(st.tracker), StrKey(WP_SETTINGS))
    ensures var a := ImportSettings(NewImporter(), st, settings, posts, postTypeOf);
            var b := Remover.RevertOptions(a.1, WP_SETTINGS);
            forall n :: OptionOf(b.site, n) == OptionOf(st.site, n)
  {
    var a := ImportSettings(NewImporter(), st, settings, posts, postTypeOf);
    var r := ApplySettings(NewImporter(), st.site, FrontPage(settings, posts), PostsPage(settings, posts), postTypeOf);
    assert a.0 == r.0 && a.1.site == r.1;
    var w := r.0.wpSettings;
    assert At(Tracker.Bucket(a.1.tracker), WP_SETTINGS) == VArr(w);
    if w != [] {
      assert Truthy(VArr(w));
      assert Tracked(a.1, WP_SETTINGS) == VArr(w);
      assert Remover.Saved(a.1, WP_SETTINGS) == w;
    } else {
      assert !Truthy(VArr([]));
      assert !Truthy(Tracked(a.1, WP_SETTINGS));
    }
    var b := Remover.RevertOptions(a.1, WP_SETTINGS);
    forall n ensures OptionOf(b.site, n) == OptionOf(st.site, n) {
      SettingsRestoredAt(st.site, FrontPage(settings, posts), PostsPage(settings, posts), postTypeOf, n);
      if w != [] {
        Remover.RevertOptionsKeyed(a.1, WP_SETTINGS, n, VBool(false));
      }
    }
  }

  /** One option after the settings are applied and the captured group is
      written back over them: its value from before the import. */
  lemma SettingsRestoredAt(s: Site, front: int, postsPage: int, postTypeOf: int -> string, n: string)
    ensures var r := ApplySettings(NewImporter(), s, front, postsPage, postTypeOf);
            WellKeyed(r.0.wpSettings)
            && (match OrderedMap.Find(r.0.wpSettings, KeyOf(n))
                case Some(v) => v
                case None => OptionOf(r.1, n)) == OptionOf(s, n)
  {
    assert WellKeyed(NewImporter().wpSettings) by {
      assert OrderedMap.Keys(NewImporter().wpSettings) == [];
    }
    var r := ApplySettings(NewImporter(), s, front, postsPage, postTypeOf);
    ApplySettingsCaptures(NewImporter(), s, front, postsPage, postTypeOf);
    WordKey(SHOW_ON_FRONT);
    WordKey(PAGE_ON_FRONT);
    WordKey(PAGE_FOR_POSTS);
    if n != SHOW_ON_FRONT && n != PAGE_ON_FRONT && n != PAGE_FOR_POSTS {
      assert KeyOf(n) != StrKey(SHOW_ON_FRONT) && KeyOf(n) != StrKey(PAGE_ON_FRONT) && KeyOf(n) != StrKey(PAGE_FOR_POSTS);
      assert OrderedMap.Find(r.0.wpSettings, KeyOf(n)) == None;
    }
  }

  /** Every listed location that had a menu gets it back; a listed location
      that had none keeps the demo's menu; other locations never change. */
  lemma MenusRoundTrip(st: Store, menuLocations: Value, terms: IdMap)
    requires OrderedMap.Valid(Entries(menuLocations))
    requires !IsSet(Tracker.Bucket(st.tracker), StrKey(MENU_LOCATIONS))
    ensures var a := ImportMenuLocations(NewImporter(), st, menuLocations, terms);
            var b := Remover.RevertMenus(a.1);
            var before := ThemeMod(st.site, NAV_MENU_LOCATIONS);
            forall k :: Get(ThemeMod(b.site, NAV_MENU_LOCATIONS), k) ==
              if k in KeysOf(menuLocations) && !IsSet(before, k) then MenuOf(terms, Get(menuLocations, k)) else Get(before, k)
  {
    var a := ImportMenuLocations(NewImporter(), st, menuLocations, terms);
    var saved := a.0.menuLocations;
    assert At(Tracker.Bucket(a.1.tracker), MENU_LOCATIONS) == VArr(saved);
    var b := Remover.RevertMenus(a.1);
    if saved != [] {
      var st1 := a.1;
      assert Truthy(At(Tracker.Bucket(st1.tracker), MENU_LOCATIONS));
      assert Tracker.GetKey(st1.tracker, MENU_LOCATIONS) == VArr(saved);
      assert Remover.Saved(st1, MENU_LOCATIONS) == saved;
      forall k {
        OrderedMap.FindLastDistinct(saved, k);
      }
    }
  }

  /** Every widget option the demo wrote gets its original value back, a
      widget option that did not exist comes back as false, and no other
      option changes. */
  lemma WidgetsRoundTrip(st: Store, widgets: Value, terms: IdMap)
    requires WellKeyed(Entries(widgets))
    requires !IsSet(Tracker.Bucket(st.tracker), StrKey(WIDGETS_SETTINGS))
    ensures var a := ImportWidgets(NewImporter(), st, widgets, terms);
            var b := Remover.RevertOptions(a.1, WIDGETS_SETTINGS);
            forall n, d :: Wp.GetOption(b.site.options, n, d) ==
              if n in OptionNames(Entries(widgets)) then Wp.GetOption(st.site.options, n, VBool(false))
              else Wp.GetOption(st.site.options, n, d)
  {
    var e := Entries(widgets);
    var o := st.site.options;
    var a := ImportWidgets(NewImporter(), st, widgets, terms);
    var b := Remover.RevertOptions(a.1, WIDGETS_SETTINGS);
    if e == [] {
      assert a.1 == st;
      assert !Truthy(Tracked(st, WIDGETS_SETTINGS));
    } else {
      WidgetsTracked(st, widgets, terms);
      WidgetsReverted(a.1, o, e, terms);
    }
  }

  /** Writing the captured widget options back over the written ones. */
  lemma WidgetsReverted(a: Store, o: Wp.Options, e: Arr, terms: IdMap)
    requires WellKeyed(e)
    requires Truthy(Tracked(a, WIDGETS_SETTINGS)) && Remover.Saved(a, WIDGETS_SETTINGS) == Captures(e, o)
    requires a.site.options == WriteWidgets(o, e, terms)
    ensures forall n, d :: Wp.GetOption(Remover.RevertOptions(a, WIDGETS_SETTINGS).site.options, n, d) ==
              if n in OptionNames(e) then Wp.GetOption(o, n, VBool(false)) else Wp.GetOption(o, n, d)
  {
    forall n, d ensures Wp.GetOption(Remover.RevertOptions(a, WIDGETS_SETTINGS).site.options, n, d) ==
                          if n in OptionNames(e) then Wp.GetOption(o, n, VBool(false)) else Wp.GetOption(o, n, d) {
      WidgetRestoredAt(o, e, terms, n, d);
      Remover.RevertOptionsKeyed(a, WIDGETS_SETTINGS, n, d);
    }
  }

  /** After a first widget import the tracker holds the captures and the
      options hold the written widgets. */
  lemma WidgetsTracked(st: Store, widgets: Value, terms: IdMap)
    requires WellKeyed(Entries(widgets)) && Entries(widgets) != []
    requires !IsSet(Tracker.Bucket(st.tracker), StrKey(WIDGETS_SETTINGS))
    ensures var a := ImportWidgets(NewImporter(), st, widgets, terms);
            && Truthy(Tracked(a.1, WIDGETS_SETTINGS))
            && Remover.Saved(a.1, WIDGETS_SETTINGS) == Captures(Entries(widgets), st.site.options)
            && a.1.site.options == WriteWidgets(st.site.options, Entries(widgets), terms)
  {
    var c := Captures(Entries(widgets), st.site.options);
    var a := ImportWidgets(NewImporter(), st, widgets, terms);
    WidgetsCaptured(st, widgets, terms);
    assert a.0.widgets == Some(c);
    assert At(Tracker.Bucket(a.1.tracker), WIDGETS_SETTINGS) == VArr(c);
    assert |c| > 0;
    assert Truthy(VArr(c));
    assert Tracked(a.1, WIDGETS_SETTINGS) == VArr(c);
    assert Remover.Saved(a.1, WIDGETS_SETTINGS) == c;
    assert a.1.site.options == WriteWidgets(st.site.options, Entries(widgets), terms);
  }

  /** A first widget import captures exactly the original widget options. */
  lemma WidgetsCaptured(st: Store, widgets: Value, terms: IdMap)
    requires WellKeyed(Entries(widgets)) && Entries(widgets) != []
    ensures ImportWidgets(NewImporter(), st, widgets, terms).0.widgets == Some(Captures(Entries(widgets), st.site.options))
  {
    var e := Entries(widgets);
    var c := Captures(e, st.site.options);
    assert OrderedMap.Valid(c);
    OrderedMap.PutAllFresh(c);
    assert CaptureWidgets(NewImporter().widgets.GetOr([]), st.site.options, e) == c;
  }

  /** One option after the widgets are written and their captures are
      written back over them: its value from before the import, or false
      for a widget option that did not exist. */
  lemma WidgetRestoredAt(o: Wp.Options, e: Arr, terms: IdMap, n: string, d: Value)
    requires WellKeyed(e)
    ensures WellKeyed(Captures(e, o))
    ensures (match OrderedMap.Find(Captures(e, o), KeyOf(n))
             case Some(v) => v
             case None => Wp.GetOption(WriteWidgets(o, e, terms), n, d)) ==
            if n in OptionNames(e) then Wp.GetOption(o, n, VBool(false)) else Wp.GetOption(o, n, d)
  {
    var c := Captures(e, o);
    assert forall i :: 0 <= i < |c| ==> c[i].0 == e[i].0;
    if n in OptionNames(e) {
      var i :| 0 <= i < |e| && KeyText(e[i].0) == n;
      assert KeyOf(n) == e[i].0 by { assert Normalised(e[i].0); }
      OrderedMap.FindAt(c, i);
    } else {
      KeyOfKeyText(n);
      assert KeyOf(n) !in OrderedMap.Keys(c);
    }
  }

  /** A logo the site had comes back; without one the demo's logo stays. */
  lemma LogoRoundTrip(st: Store, logo: int)
    requires !IsSet(Tracker.Bucket(st.tracker), StrKey(CUSTOM_LOGO))
    ensures var original := ThemeMod(st.site, CUSTOM_LOGO);
            ThemeMod(Remover.RevertSiteIdentity(ImportCustomLogo(st, logo)).site, CUSTOM_LOGO) ==
              if Truthy(original) then original else VInt(logo)
  {
  }

  /** A site icon the site had comes back; without one the demo's icon
      stays. */
  lemma IconRoundTrip(st: Store, icon: int)
    requires !IsSet(Tracker.Bucket(st.tracker), StrKey(SITE_ICON))
    ensures var original := OptionOf(st.site, SITE_ICON);
            OptionOf(Remover.RevertSiteIdentity(ImportSiteIcon(st, icon)).site, SITE_ICON) ==
              if Truthy(original) then original else VInt(icon)
  {
  }
}
