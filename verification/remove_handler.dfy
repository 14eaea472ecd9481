/** The request that removes an imported demo (RemoveContentAjaxHandler):
    the request is checked, the demo's content is removed when the import
    reached it, the site settings are reverted only for the most recent
    import, and the demo's history is dropped. */
module RemoveHandler {
  import opened Wrappers
  import OrderedMap
  import opened Php
  import Wp
  import Tracker
  import opened DemoSite
  import Remover
  import DemoInfo

  const RIGHTS_ERROR := "<p>Insufficient user rights.</p>"
  const REQUEST_ERROR := "<p>Invalid request.</p>"

  /** What the request carries: whether the nonce and the capability check
      pass, and the posted demo slug when there is one. */
  datatype Request = Request(permitted: bool, demo: Option<string>)

  /** The JSON reply: an error message, or the demo's new status label. */
  datatype Response = Failure(message: string) | Success(status: string)

  /** The reply, the site afterwards and the stored history afterwards. */
  datatype Outcome = Outcome(response: Response, site: Site, history: Value)

  /** The sanitised slug, '' when none was posted. */
  function Slug(req: Request): (r: string)
    ensures req.demo.None? ==> r == ""
    ensures forall i :: 0 <= i < |r| ==> Wp.KeyChar(r[i])
  {
    if req.demo.Some? then Wp.SanitizeKey(req.demo.value) else ""
  }

  /** The key `key(array_reverse($history))` reads: the last key of the
      history, except that `array_reverse` renumbers integer keys from 0. */
  function LatestInstalled(history: Value): (r: Option<Key>)
    ensures r.None? <==> Entries(history) == []
    ensures r.Some? && r.value.StrKey? ==> OrderedMap.LastKey(Entries(history)) == r
    ensures r.Some? && r.value.IntKey? ==> r.value == IntKey(0) && OrderedMap.LastKey(Entries(history)).value.IntKey?
  {
    var last := OrderedMap.LastKey(Entries(history));
    if last.Some? && last.value.IntKey? then Some(IntKey(0)) else last
  }

  /** Whether the site settings are rolled back: always with at most one
      demo in the history, otherwise only when the latest key is identical
      (`===`) to the id, a string. */
  function Rollback(history: Value, id: string): (r: bool)
    ensures |Entries(history)| <= 1 ==> r
  {
    |Entries(history)| <= 1 || LatestInstalled(history) == Some(StrKey(id))
  }

  /** With several demos in a well-keyed history, the settings roll back
      exactly when the demo was the last one added and its id is not a
      decimal integer: an integer id is stored under an integer key, which
      is never identical to the id string. */
  lemma RollbackIffLatest(history: Value, id: string)
    requires WellKeyed(Entries(history)) && |Entries(history)| > 1
    ensures Rollback(history, id) <==> OrderedMap.LastKey(Entries(history)) == Some(KeyOf(id)) && KeyOf(id).StrKey?
  {
    var e := Entries(history);
    var last := e[|e| - 1].0;
    assert last in OrderedMap.Keys(e);
    if last.StrKey? && last == StrKey(id) {
      assert Normalised(last);
      assert KeyOf(id) == StrKey(id);
    }
  }

  /** The removal itself, once the request has passed its checks: the
      content when the history records imported posts or attachments, the
      site settings when `rollback` holds, then the demo's bucket. */
  function Remove(site: Site, history: Value, id: string, rollback: bool, stylesPost: int): (r: Store)
    ensures var st := Store(site, Tracker.Tracker(id, history));
            var gate := Truthy(Tracked(st, "post_types")) || Truthy(Tracked(st, "attachments"));
            && (gate ==> forall p :: p in r.site.posts <==> p in site.posts && p !in Remover.TaggedPosts(st))
            && (gate ==> forall t :: t in r.site.terms <==> t in site.terms && t !in Remover.TaggedTerms(st))
            && (!gate ==> r.site.posts == site.posts && r.site.terms == site.terms && r.site.postMeta == site.postMeta)
            && (!rollback ==> r.site.options == site.options && r.site.mods == site.mods)
    ensures Tracker.Bucket(r.tracker) == VNull
    ensures forall d :: d != KeyOf(id) ==> Get(r.tracker.history, d) == Get(history, d)
    ensures r.tracker.demo == id
  {
    var st := Store(site, Tracker.Tracker(id, history));
    var a := if Truthy(Tracked(st, "post_types")) || Truthy(Tracked(st, "attachments"))
             then Remover.RemoveContent(st, stylesPost) else st;
    var b := if rollback then Remover.RevertSiteSettings(a) else a;
    Store(b.site, Tracker.Forget(b.tracker))
  }

  /** `remove_content`: the demo list is looked up by the slug (an unknown
      slug gives a demo with default fields, whose id is ''), the history
      is the stored `wpbbe_demo_history` option, and `stylesPost` is the
      user's global styles post (0 for none). */
  function Handle(req: Request, demos: Value, site: Site, history: Value, stylesPost: int): (r: Outcome)
    ensures !req.permitted ==> r == Outcome(Failure(RIGHTS_ERROR), site, history)
    ensures req.permitted && !Truthy(VStr(Slug(req))) ==> r == Outcome(Failure(REQUEST_ERROR), site, history)
    ensures req.permitted && Truthy(VStr(Slug(req))) ==>
              var id := DemoId(demos, Slug(req));
              && r.response == Success(DemoInfo.STATUS_OPEN + DemoInfo.STATUS_CLOSE)
              && Get(r.history, KeyOf(id)) == VNull
              && (forall d :: d != KeyOf(id) ==> Get(r.history, d) == Get(history, d))
              && (!Rollback(history, id) ==> r.site.options == site.options && r.site.mods == site.mods)
  {
    if !req.permitted then Outcome(Failure(RIGHTS_ERROR), site, history)
    else
      var slug := Slug(req);
      if !Truthy(VStr(slug)) then Outcome(Failure(REQUEST_ERROR), site, history)
      else
        var id := DemoId(demos, slug);
        var demo := DemoInfo.NewIntended(Coalesce(Get(demos, KeyOf(slug)), VArr([])), Tracker.Tracker(id, history));
        var b := Remove(site, history, id, Rollback(history, id), stylesPost);
        DemoInfo.RefreshAgreesWithoutHistory(demo, b.tracker);
        var status := DemoInfo.StatusText(DemoInfo.Refresh(demo, b.tracker));
        Outcome(Success(status), b.site, b.tracker.history)
  }

  /** The id of the demo the slug names: the `id` field of the demo built
      from the list entry, read as a string. */
  function DemoId(demos: Value, slug: string): string {
    ToStr(DemoInfo.Field(DemoInfo.Demo(false, false, DemoInfo.NOT_IMPORTED,
                                       DemoInfo.SetupFields(Coalesce(Get(demos, KeyOf(slug)), VArr([])))), "id"))
  }

  /** A second removal of the same demo changes nothing: its content and
      settings are already restored and its history is gone. */
  lemma RemovalIsIdempotent(req: Request, demos: Value, site: Site, history: Value, stylesPost: int)
    ensures var a := Handle(req, demos, site, history, stylesPost);
            var b := Handle(req, demos, a.site, a.history, stylesPost);
            b.site == a.site && b.history == a.history
  {
    var a := Handle(req, demos, site, history, stylesPost);
    if req.permitted && Truthy(VStr(Slug(req))) {
      var id := DemoId(demos, Slug(req));
      EmptyBucketRemovesNothing(a.site, a.history, id, Rollback(a.history, id), stylesPost);
    }
  }

  /** Removing a demo whose history bucket is gone changes nothing. */
  lemma EmptyBucketRemovesNothing(site: Site, history: Value, id: string, rollback: bool, stylesPost: int)
    requires Get(history, KeyOf(id)) == VNull
    ensures Remove(site, history, id, rollback, stylesPost) == Store(site, Tracker.Tracker(id, history))
  {
    var st := Store(site, Tracker.Tracker(id, history));
    assert Tracker.Bucket(st.tracker) == VNull;
    if rollback {
      assert Remover.RevertSiteSettings(st) == st;
    }
  }
}
