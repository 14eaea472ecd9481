/** The per-demo import history (ContentTracker and TrackerBase): a map from
    demo id to a bucket of named values, persisted as one option after every
    change. */
module Tracker {
  import opened Wrappers
  import OrderedMap
  import opened Php
  import Wp

  const HISTORY_OPTION_ID := "wpbbe_demo_history"
  const META_KEY := "_wpbbe_imported_item"

  /** A tracker bound to one demo, holding its snapshot of the whole history. */
  datatype Tracker = Tracker(demo: string, history: Value)

  /** A tracker together with the option store after a mutation. */
  datatype Saved = Saved(tracker: Tracker, options: Wp.Options)

  /** One element of the meta list the importer writes for an object. */
  datatype MetaEntry = MetaEntry(key: string, value: Value)

  /** The constructor: binds the demo id and snapshots the stored history,
      which defaults to an empty array. */
  function New(demo: string, o: Wp.Options): (t: Tracker)
    ensures t.demo == demo
    ensures HISTORY_OPTION_ID !in OrderedMap.Keys(o) ==> t.history == VArr([])
    ensures HISTORY_OPTION_ID in OrderedMap.Keys(o) ==> (HISTORY_OPTION_ID, t.history) in o
  {
    Tracker(demo, Wp.GetOption(o, HISTORY_OPTION_ID, VArr([])))
  }

  /** The current demo's bucket (null when it has none). */
  function Bucket(t: Tracker): Value {
    Get(t.history, KeyOf(t.demo))
  }

  /** `get`: false when the value is missing or PHP-empty, the value otherwise. */
  function GetKey(t: Tracker, key: string): (r: Value)
    ensures Truthy(r) || r == VBool(false)
    ensures Truthy(r) ==> r == At(Bucket(t), key)
    ensures !Truthy(At(Bucket(t), key)) ==> r == VBool(false)
  {
    var v := At(Bucket(t), key);
    if Truthy(v) then v else VBool(false)
  }

  /** `save_demo_history`: the whole history is written to its option. */
  function Save(t: Tracker, o: Wp.Options): (r: Saved)
    ensures r.tracker == t
    ensures Wp.GetOption(r.options, HISTORY_OPTION_ID, VNull) == t.history
    ensures forall n, d :: n != HISTORY_OPTION_ID ==> Wp.GetOption(r.options, n, d) == Wp.GetOption(o, n, d)
  {
    Saved(t, Wp.UpdateOption(o, HISTORY_OPTION_ID, t.history))
  }

  /** Writes `history[demo][key] = v`, creating the bucket when missing. */
  function Write(t: Tracker, key: string, v: Value): (r: Tracker)
    ensures r.demo == t.demo
    ensures At(Bucket(r), key) == v
    ensures forall k :: k != StrKey(key) ==> Get(Bucket(r), k) == Get(Bucket(t), k)
    ensures forall d :: d != KeyOf(t.demo) ==> Get(r.history, d) == Get(t.history, d)
  {
    Tracker(t.demo, Set(t.history, KeyOf(t.demo), Set(Bucket(t), StrKey(key), v)))
  }

  /** `set`: unconditional overwrite, then persist. */
  function SetKey(t: Tracker, o: Wp.Options, key: string, v: Value): (r: Saved)
    ensures At(Bucket(r.tracker), key) == v
    ensures forall k :: k != StrKey(key) ==> Get(Bucket(r.tracker), k) == Get(Bucket(t), k)
    ensures forall d :: d != KeyOf(t.demo) ==> Get(r.tracker.history, d) == Get(t.history, d)
    ensures Wp.GetOption(r.options, HISTORY_OPTION_ID, VNull) == r.tracker.history
    ensures forall n, d :: n != HISTORY_OPTION_ID ==> Wp.GetOption(r.options, n, d) == Wp.GetOption(o, n, d)
  {
    Save(Write(t, key, v), o)
  }

  /** Writes `history[demo][key] = v` only when the key is not set; a key
      holding null counts as not set. */
  function Add(t: Tracker, key: string, v: Value): (r: Tracker)
    ensures IsSet(Bucket(t), StrKey(key)) ==> r == t
    ensures !IsSet(Bucket(t), StrKey(key)) ==> r == Write(t, key, v)
  {
    if IsSet(Bucket(t), StrKey(key)) then t else Write(t, key, v)
  }

  /** `add`: writes and persists only when the key is not set; a key holding
      null counts as not set. */
  function AddKey(t: Tracker, o: Wp.Options, key: string, v: Value): (r: Saved)
    ensures IsSet(Bucket(t), StrKey(key)) ==> r == Saved(t, o)
    ensures !IsSet(Bucket(t), StrKey(key)) ==> r == SetKey(t, o, key, v)
  {
    if IsSet(Bucket(t), StrKey(key)) then Saved(t, o) else SetKey(t, o, key, v)
  }

  /** Drops `history[demo][key]`; a missing bucket is left missing. */
  function Drop(t: Tracker, key: string): (r: Tracker)
    ensures r.demo == t.demo
    ensures At(Bucket(r), key) == VNull
    ensures forall k :: k != StrKey(key) ==> Get(Bucket(r), k) == Get(Bucket(t), k)
    ensures forall d :: d != KeyOf(t.demo) ==> Get(r.history, d) == Get(t.history, d)
  {
    var b := Bucket(t);
    if b.VArr? then Tracker(t.demo, Set(t.history, KeyOf(t.demo), Unset(b, StrKey(key)))) else t
  }

  /** `remove`: drops one key of the current bucket, then persists. */
  function RemoveKey(t: Tracker, o: Wp.Options, key: string): (r: Saved)
    ensures r.tracker == Drop(t, key)
    ensures Wp.GetOption(r.options, HISTORY_OPTION_ID, VNull) == r.tracker.history
    ensures forall n, d :: n != HISTORY_OPTION_ID ==> Wp.GetOption(r.options, n, d) == Wp.GetOption(o, n, d)
  {
    Save(Drop(t, key), o)
  }

  /** Drops the whole current bucket when it is set. */
  function Forget(t: Tracker): (r: Tracker)
    ensures r.demo == t.demo
    ensures Bucket(r) == VNull
    ensures forall d :: d != KeyOf(t.demo) ==> Get(r.history, d) == Get(t.history, d)
    ensures IsSet(t.history, KeyOf(t.demo)) ==> KeyOf(t.demo) !in KeysOf(r.history)
  {
    if IsSet(t.history, KeyOf(t.demo)) then Tracker(t.demo, Unset(t.history, KeyOf(t.demo))) else t
  }

  /** `remove_demo`: drops the whole current bucket, then persists. */
  function RemoveDemo(t: Tracker, o: Wp.Options): (r: Saved)
    ensures r.tracker == Forget(t)
    ensures Wp.GetOption(r.options, HISTORY_OPTION_ID, VNull) == r.tracker.history
    ensures forall n, d :: n != HISTORY_OPTION_ID ==> Wp.GetOption(r.options, n, d) == Wp.GetOption(o, n, d)
  {
    Save(Forget(t), o)
  }

  /** The import-meta filter: tags an imported object with the demo id. */
  function TagMeta(t: Tracker, meta: seq<MetaEntry>): (r: seq<MetaEntry>)
    ensures |r| == |meta| + 1
    ensures r[..|meta|] == meta
    ensures r[|meta|].key == META_KEY && r[|meta|].value == VStr(t.demo)
  {
    meta + [MetaEntry(META_KEY, VStr(t.demo))]
  }

  /** Post and term meta tables alongside the options. */
  datatype Site = Site(options: Wp.Options, postMeta: seq<Wp.MetaRow>, termMeta: seq<Wp.MetaRow>)

  /** `keep_demo_content`: keeps the imported objects but forgets they came
      from this demo, then drops the demo's bucket. */
  function KeepDemoContent(t: Tracker, s: Site): (r: (Tracker, Site))
    ensures forall row :: row in r.1.postMeta <==> row in s.postMeta && !(row.key == META_KEY && row.value == t.demo)
    ensures forall row :: row in r.1.termMeta <==> row in s.termMeta && !(row.key == META_KEY && row.value == t.demo)
    ensures Bucket(r.0) == VNull
    ensures forall d :: d != KeyOf(t.demo) ==> Get(r.0.history, d) == Get(t.history, d)
    ensures Wp.GetOption(r.1.options, HISTORY_OPTION_ID, VNull) == r.0.history
  {
    var posts := Wp.DeleteMetadataAll(s.postMeta, META_KEY, t.demo);
    var terms := Wp.DeleteMetadataAll(s.termMeta, META_KEY, t.demo);
    var saved := RemoveDemo(t, s.options);
    (saved.tracker, Site(saved.options, posts, terms))
  }

  /** `get_demo_history`: the stored bucket of `demo`, or [] when the stored
      history has no such key. */
  function DemoHistory(o: Wp.Options, demo: string): (r: Value)
    ensures KeyOf(demo) !in KeysOf(Wp.GetOption(o, HISTORY_OPTION_ID, VArr([]))) ==> r == VArr([])
    ensures KeyOf(demo) in KeysOf(Wp.GetOption(o, HISTORY_OPTION_ID, VArr([]))) ==> r == Get(Wp.GetOption(o, HISTORY_OPTION_ID, VArr([])), KeyOf(demo))
  {
    var h := AllDemoHistory(o);
    if KeyOf(demo) in KeysOf(h) then Get(h, KeyOf(demo)) else VArr([])
  }

  /** `get_all_demo_history`: the stored history, [] when never saved. */
  function AllDemoHistory(o: Wp.Options): (r: Value)
    ensures HISTORY_OPTION_ID !in OrderedMap.Keys(o) ==> r == VArr([])
  {
    Wp.GetOption(o, HISTORY_OPTION_ID, VArr([]))
  }

  /** Reading back after `set`: `get` returns the new value when it is
      non-empty and false otherwise. */
  lemma GetAfterSet(t: Tracker, o: Wp.Options, key: string, v: Value)
    ensures GetKey(SetKey(t, o, key, v).tracker, key) == (if Truthy(v) then v else VBool(false))
  {
  }

  /** `add` is write-once: once a non-null value is stored, a later `add`
      under the same key changes neither the history nor the stored option. */
  lemma AddIsWriteOnce(t: Tracker, o: Wp.Options, key: string, v1: Value, v2: Value)
    requires v1 != VNull
    ensures var first := AddKey(t, o, key, v1);
            AddKey(first.tracker, first.options, key, v2) == first
    ensures IsSet(Bucket(t), StrKey(key)) ==> At(Bucket(AddKey(t, o, key, v1).tracker), key) == At(Bucket(t), key)
    ensures !IsSet(Bucket(t), StrKey(key)) ==> At(Bucket(AddKey(t, o, key, v1).tracker), key) == v1
  {
  }

  /** A null first value does not claim the key: the second `add` wins. */
  lemma AddNullDoesNotClaim(t: Tracker, o: Wp.Options, key: string, v2: Value)
    requires !IsSet(Bucket(t), StrKey(key))
    ensures var first := AddKey(t, o, key, VNull);
            At(Bucket(AddKey(first.tracker, first.options, key, v2).tracker), key) == v2
  {
  }

  /** After a mutator, the static reader sees exactly the tracker's bucket;
      after `remove_demo` it sees an empty one. A bucket stored as null is not
      `isset`, so `remove_demo` leaves it, and the reader then returns null. */
  lemma PersistedBucketIsReadBack(t: Tracker, o: Wp.Options, key: string, v: Value)
    ensures var r := SetKey(t, o, key, v);
            DemoHistory(r.options, t.demo) == Bucket(r.tracker)
    ensures !Truthy(DemoHistory(RemoveDemo(t, o).options, t.demo))
    ensures KeyOf(t.demo) !in KeysOf(t.history) || IsSet(t.history, KeyOf(t.demo)) ==>
              DemoHistory(RemoveDemo(t, o).options, t.demo) == VArr([])
  {
    var r := SetKey(t, o, key, v);
    assert Wp.GetOption(r.options, HISTORY_OPTION_ID, VArr([])) == r.tracker.history by {
      assert HISTORY_OPTION_ID in OrderedMap.Keys(r.options);
    }
    var h := RemoveDemo(t, o);
    assert Wp.GetOption(h.options, HISTORY_OPTION_ID, VArr([])) == h.tracker.history by {
      assert HISTORY_OPTION_ID in OrderedMap.Keys(h.options);
    }
  }
}
