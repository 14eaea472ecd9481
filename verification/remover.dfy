/** Removal of an imported demo (Remover): the posts and terms the demo's
    tag marks are deleted, the global styles are written back, and the site
    settings the import replaced are restored from the demo's tracker. */
module Remover {
  import opened Wrappers
  import OrderedMap
  import opened Php
  import Wp
  import Tracker
  import opened DemoSite
  import SettingsImporter

  const GLOBAL_STYLES := "wp_global_styles"

  /** The posts the demo's tag marks. */
  function TaggedPosts(st: Store): (ids: seq<int>)
    ensures forall id :: id in ids <==> exists row :: row in st.site.postMeta && row.objectId == id
                                                  && row.key == Tracker.META_KEY && row.value == st.tracker.demo
  {
    Wp.ObjectsWithMeta(st.site.postMeta, Tracker.META_KEY, st.tracker.demo)
  }

  /** The terms the demo's tag marks. */
  function TaggedTerms(st: Store): (ids: seq<int>)
    ensures forall id :: id in ids <==> exists row :: row in st.site.termMeta && row.objectId == id
                                                  && row.key == Tracker.META_KEY && row.value == st.tracker.demo
  {
    Wp.ObjectsWithMeta(st.site.termMeta, Tracker.META_KEY, st.tracker.demo)
  }

  /** The meta rows of objects outside `gone`. */
  function RowsOutside(rows: seq<Wp.MetaRow>, gone: set<int>): (r: seq<Wp.MetaRow>)
    ensures forall row :: row in r <==> row in rows && row.objectId !in gone
  {
    if rows == [] then []
    else if rows[0].objectId in gone then RowsOutside(rows[1..], gone)
    else [rows[0]] + RowsOutside(rows[1..], gone)
  }

  /** `remove_posts`: every tagged post that still exists is deleted for
      good, with its meta; `wp_delete_post` does nothing for an id with no
      post, so the meta of such an id, its tag included, is left behind. */
  function RemovePosts(st: Store): (r: Store)
    ensures forall id :: id in r.site.posts <==> id in st.site.posts && id !in TaggedPosts(st)
    ensures forall row :: row in r.site.postMeta <==>
              row in st.site.postMeta && !(row.objectId in TaggedPosts(st) && row.objectId in st.site.posts)
    ensures r.site.(posts := st.site.posts, postMeta := st.site.postMeta) == st.site && r.tracker == st.tracker
  {
    var gone := set id | id in TaggedPosts(st) && id in st.site.posts;
    Store(st.site.(posts := st.site.posts - gone, postMeta := RowsOutside(st.site.postMeta, gone)), st.tracker)
  }

  /** `remove_terms`: every tagged term that still exists is deleted, with
      its meta; the tag of a term that no longer exists is left behind. */
  function RemoveTerms(st: Store): (r: Store)
    ensures forall id :: id in r.site.terms <==> id in st.site.terms && id !in TaggedTerms(st)
    ensures forall row :: row in r.site.termMeta <==>
              row in st.site.termMeta && !(row.objectId in TaggedTerms(st) && row.objectId in st.site.terms)
    ensures r.site.(terms := st.site.terms, termMeta := st.site.termMeta) == st.site && r.tracker == st.tracker
  {
    var gone := set id | id in TaggedTerms(st) && id in st.site.terms;
    Store(st.site.(terms := st.site.terms - gone, termMeta := RowsOutside(st.site.termMeta, gone)), st.tracker)
  }

  /** `revert_wp_global_styles`: a truthy tracked style is written into the
      user's global styles post when there is one (`stylesPost`, 0 for
      none); otherwise nothing changes. */
  function RevertGlobalStyles(st: Store, stylesPost: int): (r: Store)
    ensures Truthy(Tracked(st, GLOBAL_STYLES)) && stylesPost != 0 ==>
              r == st.(site := st.site.(postContent := st.site.postContent[stylesPost := Tracked(st, GLOBAL_STYLES)]))
    ensures !Truthy(Tracked(st, GLOBAL_STYLES)) || stylesPost == 0 ==> r == st
  {
    var styles := Tracked(st, GLOBAL_STYLES);
    if !Truthy(styles) || stylesPost == 0 then st
    else st.(site := st.site.(postContent := st.site.postContent[stylesPost := styles]))
  }

  /** `remove_content`: posts, then terms, then the global styles. The
      options, theme modifications and tracker are untouched. */
  function RemoveContent(st: Store, stylesPost: int): (r: Store)
    ensures forall id :: id in r.site.posts <==> id in st.site.posts && id !in TaggedPosts(st)
    ensures forall id :: id in r.site.terms <==> id in st.site.terms && id !in TaggedTerms(st)
    ensures forall row :: row in r.site.postMeta <==>
              row in st.site.postMeta && !(row.objectId in TaggedPosts(st) && row.objectId in st.site.posts)
    ensures Truthy(Tracked(st, GLOBAL_STYLES)) && stylesPost != 0 ==> r.site.postContent == st.site.postContent[stylesPost := Tracked(st, GLOBAL_STYLES)]
    ensures !Truthy(Tracked(st, GLOBAL_STYLES)) || stylesPost == 0 ==> r.site.postContent == st.site.postContent
    ensures r.site.options == st.site.options && r.site.mods == st.site.mods && r.tracker == st.tracker
  {
    var a := RemovePosts(st);
    var b := RemoveTerms(a);
    assert TaggedTerms(a) == TaggedTerms(st);
    RevertGlobalStyles(b, stylesPost)
  }

  /** The entries of a tracked group; a value that is not an array has none
      (`foreach` over it does nothing). */
  function Saved(st: Store, key: string): (e: OrderedMap.Assoc<Key, Value>)
    ensures Tracked(st, key).VArr? ==> e == Tracked(st, key).entries
    ensures !Tracked(st, key).VArr? ==> e == []
  {
    Entries(Tracked(st, key))
  }

  /** `revert_wp_settings` and `revert_widgets`: a falsy tracked group leaves
      everything as it is, the key included; otherwise every saved option is
      written back, the last write of a name winning, and the key is removed
      from the tracker. */
  function RevertOptions(st: Store, key: string): (r: Store)
    ensures !Truthy(Tracked(st, key)) ==> r == st
    ensures Truthy(Tracked(st, key)) ==>
              var w := SettingsImporter.Writes(Saved(st, key));
              && (forall n, d ::
                    Wp.GetOption(r.site.options, n, d) ==
                      if OrderedMap.FindLast(w, n).Some? then OrderedMap.FindLast(w, n).value else Wp.GetOption(st.site.options, n, d))
              && At(Tracker.Bucket(r.tracker), key) == VNull
              && (forall k :: k != StrKey(key) ==> Get(Tracker.Bucket(r.tracker), k) == Get(Tracker.Bucket(st.tracker), k))
    ensures r.site.(options := st.site.options) == st.site && r.tracker.demo == st.tracker.demo
    ensures OthersKept(st, r)
  {
    if !Truthy(Tracked(st, key)) then st else WriteBack(st, key)
  }

  /** The truthy branch of `RevertOptions`: write every saved option back
      and remove the key from the tracker. */
  function WriteBack(st: Store, key: string): (r: Store)
    ensures var w := SettingsImporter.Writes(Saved(st, key));
            forall n, d ::
              Wp.GetOption(r.site.options, n, d) ==
                if OrderedMap.FindLast(w, n).Some? then OrderedMap.FindLast(w, n).value else Wp.GetOption(st.site.options, n, d)
    ensures At(Tracker.Bucket(r.tracker), key) == VNull
    ensures forall k :: k != StrKey(key) ==> Get(Tracker.Bucket(r.tracker), k) == Get(Tracker.Bucket(st.tracker), k)
    ensures r.site.(options := st.site.options) == st.site && r.tracker.demo == st.tracker.demo
    ensures OthersKept(st, r)
  {
    var w := SettingsImporter.Writes(Saved(st, key));
    var options := OrderedMap.PutAll(st.site.options, w);
    assert forall n :: OrderedMap.Find(options, n) == if OrderedMap.FindLast(w, n).Some? then OrderedMap.FindLast(w, n) else OrderedMap.Find(st.site.options, n);
    TrackRemove(Store(st.site.(options := options), st.tracker), key)
  }

  /** With a well-keyed saved group, option `n` gets the value saved under
      the key `n` stands for, and keeps its value when there is none. */
  lemma RevertOptionsKeyed(st: Store, key: string, n: string, d: Value)
    requires Truthy(Tracked(st, key)) && WellKeyed(Saved(st, key))
    ensures Wp.GetOption(RevertOptions(st, key).site.options, n, d) ==
              match OrderedMap.Find(Saved(st, key), KeyOf(n))
              case Some(v) => v
              case None => Wp.GetOption(st.site.options, n, d)
  {
    SettingsImporter.WritesFind(Saved(st, key), n);
  }

  /** `revert_menus`: a falsy tracked group leaves everything as it is;
      otherwise every saved location gets its saved menu back, the other
      locations keep theirs, and the key is removed from the tracker. */
  function RevertMenus(st: Store): (r: Store)
    ensures !Truthy(Tracked(st, SettingsImporter.MENU_LOCATIONS)) ==> r == st
    ensures Truthy(Tracked(st, SettingsImporter.MENU_LOCATIONS)) ==>
              var saved := Saved(st, SettingsImporter.MENU_LOCATIONS);
              var before := ThemeMod(st.site, SettingsImporter.NAV_MENU_LOCATIONS);
              && (forall k :: Get(ThemeMod(r.site, SettingsImporter.NAV_MENU_LOCATIONS), k) ==
                    if OrderedMap.FindLast(saved, k).Some? then OrderedMap.FindLast(saved, k).value else Get(before, k))
              && (forall n, d :: n != SettingsImporter.NAV_MENU_LOCATIONS ==> Wp.GetOption(r.site.mods, n, d) == Wp.GetOption(st.site.mods, n, d))
              && r.site.options == st.site.options
              && At(Tracker.Bucket(r.tracker), SettingsImporter.MENU_LOCATIONS) == VNull
              && (forall k :: k != StrKey(SettingsImporter.MENU_LOCATIONS) ==> Get(Tracker.Bucket(r.tracker), k) == Get(Tracker.Bucket(st.tracker), k))
    ensures r.site.(options := st.site.options, mods := st.site.mods) == st.site && r.tracker.demo == st.tracker.demo
    ensures OthersKept(st, r)
  {
    if !Truthy(Tracked(st, SettingsImporter.MENU_LOCATIONS)) then st else RestoreMenus(st)
  }

  /** The locations after a revert: the saved ones over the current ones.
      An empty saved group leaves the theme mod as it is. */
  function RestoredLocations(before: Value, saved: OrderedMap.Assoc<Key, Value>): (after: Value)
    ensures forall k :: Get(after, k) == if OrderedMap.FindLast(saved, k).Some? then OrderedMap.FindLast(saved, k).value else Get(before, k)
  {
    if saved == [] then before else VArr(OrderedMap.PutAll(Entries(before), saved))
  }

  /** The truthy branch of `RevertMenus`. */
  function RestoreMenus(st: Store): (r: Store)
    ensures var saved := Saved(st, SettingsImporter.MENU_LOCATIONS);
            var before := ThemeMod(st.site, SettingsImporter.NAV_MENU_LOCATIONS);
            forall k :: Get(ThemeMod(r.site, SettingsImporter.NAV_MENU_LOCATIONS), k) ==
              if OrderedMap.FindLast(saved, k).Some? then OrderedMap.FindLast(saved, k).value else Get(before, k)
    ensures forall n, d :: n != SettingsImporter.NAV_MENU_LOCATIONS ==> Wp.GetOption(r.site.mods, n, d) == Wp.GetOption(st.site.mods, n, d)
    ensures At(Tracker.Bucket(r.tracker), SettingsImporter.MENU_LOCATIONS) == VNull
    ensures forall k :: k != StrKey(SettingsImporter.MENU_LOCATIONS) ==> Get(Tracker.Bucket(r.tracker), k) == Get(Tracker.Bucket(st.tracker), k)
    ensures r.site.(mods := st.site.mods) == st.site && r.tracker.demo == st.tracker.demo
    ensures OthersKept(st, r)
  {
    var saved := Saved(st, SettingsImporter.MENU_LOCATIONS);
    var before := ThemeMod(st.site, SettingsImporter.NAV_MENU_LOCATIONS);
    var site := SetThemeMod(st.site, SettingsImporter.NAV_MENU_LOCATIONS, RestoredLocations(before, saved));
    TrackRemove(Store(site, st.tracker), SettingsImporter.MENU_LOCATIONS)
  }

  /** `revert_site_identity`: a truthy tracked logo or icon is written back,
      a missing one leaves the demo's in place, and both keys are removed
      from the tracker. */
  function RevertSiteIdentity(st: Store): (r: Store)
    ensures ThemeMod(r.site, SettingsImporter.CUSTOM_LOGO) ==
              if Truthy(Tracked(st, SettingsImporter.CUSTOM_LOGO)) then Tracked(st, SettingsImporter.CUSTOM_LOGO)
              else ThemeMod(st.site, SettingsImporter.CUSTOM_LOGO)
    ensures OptionOf(r.site, SettingsImporter.SITE_ICON) ==
              if Truthy(Tracked(st, SettingsImporter.SITE_ICON)) then Tracked(st, SettingsImporter.SITE_ICON)
              else OptionOf(st.site, SettingsImporter.SITE_ICON)
    ensures forall n, d :: n != SettingsImporter.CUSTOM_LOGO ==> Wp.GetOption(r.site.mods, n, d) == Wp.GetOption(st.site.mods, n, d)
    ensures forall n, d :: n != SettingsImporter.SITE_ICON ==> Wp.GetOption(r.site.options, n, d) == Wp.GetOption(st.site.options, n, d)
    ensures At(Tracker.Bucket(r.tracker), SettingsImporter.CUSTOM_LOGO) == VNull
    ensures At(Tracker.Bucket(r.tracker), SettingsImporter.SITE_ICON) == VNull
    ensures forall k :: k != StrKey(SettingsImporter.CUSTOM_LOGO) && k != StrKey(SettingsImporter.SITE_ICON) ==>
              Get(Tracker.Bucket(r.tracker), k) == Get(Tracker.Bucket(st.tracker), k)
    ensures r.site.(options := st.site.options, mods := st.site.mods) == st.site && r.tracker.demo == st.tracker.demo
    ensures OthersKept(st, r)
  {
    var logo := Tracked(st, SettingsImporter.CUSTOM_LOGO);
    var s1 := if Truthy(logo) then SetThemeMod(st.site, SettingsImporter.CUSTOM_LOGO, logo) else st.site;
    var icon := Tracked(st, SettingsImporter.SITE_ICON);
    var s2 := if Truthy(icon) then SetOption(s1, SettingsImporter.SITE_ICON, icon) else s1;
    var a := TrackRemove(Store(s2, st.tracker), SettingsImporter.CUSTOM_LOGO);
    TrackRemove(a, SettingsImporter.SITE_ICON)
  }

  /** `revert_site_settings`: settings, menus, widgets, then the logo and
      icon. Posts, terms and their meta are untouched. */
  function RevertSiteSettings(st: Store): (r: Store)
    ensures r.site.(options := st.site.options, mods := st.site.mods) == st.site && r.tracker.demo == st.tracker.demo
    ensures OthersKept(st, r)
  {
    RevertSiteIdentity(RevertOptions(RevertMenus(RevertOptions(st, SettingsImporter.WP_SETTINGS)), SettingsImporter.WIDGETS_SETTINGS))
  }

  /** Every group tracked with a truthy value is gone from the tracker after
      `revert_site_settings`, a falsy one stays, and the logo and icon keys
      are always gone. */
  lemma RevertSiteSettingsClearsTracker(st: Store)
    ensures var r := RevertSiteSettings(st);
            && Gone(st, r, SettingsImporter.WP_SETTINGS)
            && Gone(st, r, SettingsImporter.MENU_LOCATIONS)
            && Gone(st, r, SettingsImporter.WIDGETS_SETTINGS)
            && At(Tracker.Bucket(r.tracker), SettingsImporter.CUSTOM_LOGO) == VNull
            && At(Tracker.Bucket(r.tracker), SettingsImporter.SITE_ICON) == VNull
  {
    var a := RevertOptions(st, SettingsImporter.WP_SETTINGS);
    var b := RevertMenus(a);
    var c := RevertOptions(b, SettingsImporter.WIDGETS_SETTINGS);
    var d := RevertSiteIdentity(c);
    OptionsStep(st, SettingsImporter.WP_SETTINGS, SettingsImporter.MENU_LOCATIONS);
    OptionsStep(st, SettingsImporter.WP_SETTINGS, SettingsImporter.WIDGETS_SETTINGS);
    MenusStep(a, SettingsImporter.WP_SETTINGS);
    MenusStep(a, SettingsImporter.WIDGETS_SETTINGS);
    OptionsStep(b, SettingsImporter.WIDGETS_SETTINGS, SettingsImporter.WP_SETTINGS);
    OptionsStep(b, SettingsImporter.WIDGETS_SETTINGS, SettingsImporter.MENU_LOCATIONS);
    IdentityStep(c, SettingsImporter.WP_SETTINGS);
    IdentityStep(c, SettingsImporter.MENU_LOCATIONS);
    IdentityStep(c, SettingsImporter.WIDGETS_SETTINGS);
  }

  /** Reverting one option group removes its key and keeps every other. */
  lemma OptionsStep(st: Store, key: string, other: string)
    requires other != key
    ensures Gone(st, RevertOptions(st, key), key)
    ensures Same(st, RevertOptions(st, key), other)
  {
    var r := RevertOptions(st, key);
    if Truthy(Tracked(st, key)) {
      assert StrKey(other) != StrKey(key);
      assert Get(Tracker.Bucket(r.tracker), StrKey(other)) == Get(Tracker.Bucket(st.tracker), StrKey(other));
    }
  }

  /** Reverting the menus removes their key and keeps every other. */
  lemma MenusStep(st: Store, other: string)
    requires other != SettingsImporter.MENU_LOCATIONS
    ensures Gone(st, RevertMenus(st), SettingsImporter.MENU_LOCATIONS)
    ensures Same(st, RevertMenus(st), other)
  {
    var r := RevertMenus(st);
    if Truthy(Tracked(st, SettingsImporter.MENU_LOCATIONS)) {
      assert StrKey(other) != StrKey(SettingsImporter.MENU_LOCATIONS);
      assert Get(Tracker.Bucket(r.tracker), StrKey(other)) == Get(Tracker.Bucket(st.tracker), StrKey(other));
    }
  }

  /** Reverting the logo and icon keeps every other key. */
  lemma IdentityStep(st: Store, other: string)
    requires other != SettingsImporter.CUSTOM_LOGO && other != SettingsImporter.SITE_ICON
    ensures Same(st, RevertSiteIdentity(st), other)
  {
  }

  /** Two stores whose current buckets agree on `key`. */
  predicate Same(st: Store, r: Store, key: string) {
    At(Tracker.Bucket(r.tracker), key) == At(Tracker.Bucket(st.tracker), key)
  }

  /** A tracked group is gone after a revert when it was truthy and stays
      otherwise. */
  predicate Gone(st: Store, r: Store, key: string) {
    At(Tracker.Bucket(r.tracker), key) == if Truthy(Tracked(st, key)) then VNull else At(Tracker.Bucket(st.tracker), key)
  }

  /** The buckets of every other demo are the same in both stores. */
  ghost predicate OthersKept(st: Store, r: Store) {
    forall d :: d != KeyOf(st.tracker.demo) ==> Get(r.tracker.history, d) == Get(st.tracker.history, d)
  }
}
