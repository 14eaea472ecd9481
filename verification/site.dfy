/** The site a demo import changes and a demo removal restores: options,
    theme modifications, posts and terms with their meta, and the content of
    posts, alongside the tracker of the demo being worked on. */
module DemoSite {
  import opened Wrappers
  import OrderedMap
  import opened Php
  import Wp
  import Tracker

  datatype Site = Site(
    options: Wp.Options,
    mods: Wp.Options,
    posts: set<int>,
    terms: set<int>,
    postMeta: seq<Wp.MetaRow>,
    termMeta: seq<Wp.MetaRow>,
    postContent: map<int, Value>)

  /** A site and the tracker of one demo. The tracker persists its history
      into the `wpbbe_demo_history` option after every mutation; here that
      option is the tracker's history itself, and `site.options` holds every
      other option. */
  datatype Store = Store(site: Site, tracker: Tracker.Tracker)

  /** `get_option($name)`: false when the option does not exist. */
  function OptionOf(s: Site, name: string): Value {
    Wp.GetOption(s.options, name, VBool(false))
  }

  /** `update_option($name, $v)`. */
  function SetOption(s: Site, name: string, v: Value): (r: Site)
    ensures OptionOf(r, name) == v
    ensures forall n, d :: n != name ==> Wp.GetOption(r.options, n, d) == Wp.GetOption(s.options, n, d)
    ensures r.(options := s.options) == s
  {
    s.(options := Wp.UpdateOption(s.options, name, v))
  }

  /** `get_theme_mod($name)`: false when the modification does not exist. */
  function ThemeMod(s: Site, name: string): Value {
    Wp.GetOption(s.mods, name, VBool(false))
  }

  /** `set_theme_mod($name, $v)`. */
  function SetThemeMod(s: Site, name: string, v: Value): (r: Site)
    ensures ThemeMod(r, name) == v
    ensures forall n, d :: n != name ==> Wp.GetOption(r.mods, n, d) == Wp.GetOption(s.mods, n, d)
    ensures r.(mods := s.mods) == s
  {
    s.(mods := Wp.UpdateOption(s.mods, name, v))
  }

  /** The tracker's `get`. */
  function Tracked(st: Store, key: string): Value {
    Tracker.GetKey(st.tracker, key)
  }

  /** The tracker's `add`: only a key that is not set takes the value. */
  function TrackAdd(st: Store, key: string, v: Value): (r: Store)
    ensures IsSet(Tracker.Bucket(st.tracker), StrKey(key)) ==> r == st
    ensures !IsSet(Tracker.Bucket(st.tracker), StrKey(key)) ==> At(Tracker.Bucket(r.tracker), key) == v
    ensures forall k :: k != StrKey(key) ==> Get(Tracker.Bucket(r.tracker), k) == Get(Tracker.Bucket(st.tracker), k)
    ensures r.tracker.demo == st.tracker.demo && r.site == st.site
  {
    st.(tracker := Tracker.Add(st.tracker, key, v))
  }

  /** The tracker's `remove`. */
  function TrackRemove(st: Store, key: string): (r: Store)
    ensures At(Tracker.Bucket(r.tracker), key) == VNull
    ensures forall k :: k != StrKey(key) ==> Get(Tracker.Bucket(r.tracker), k) == Get(Tracker.Bucket(st.tracker), k)
    ensures forall d :: d != KeyOf(st.tracker.demo) ==> Get(r.tracker.history, d) == Get(st.tracker.history, d)
    ensures r.tracker.demo == st.tracker.demo && r.site == st.site
  {
    st.(tracker := Tracker.Drop(st.tracker, key))
  }
}
