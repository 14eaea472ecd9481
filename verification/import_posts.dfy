/** Import of posts (ContentImporter::process_posts): each parsed post is
    skipped, routed to menu handling, matched with an existing attachment, or
    inserted, and the identity map, the orphan queue and the counter are
    updated. Terms and comments of a post are not part of this model. */
module ImportPosts {
  import opened Wrappers
  import OrderedMap
  import opened Php
  import opened ImportSession
  import Wp
  import ImportMenus
  import Tracker
  import opened Text

  /** Meta the exporter adds for its own use; it is never imported. */
  const RESOURCES_META_KEY := "wpbbe_exporter_post_resources"

  /** The `wp_import_existing_post` filter `import_start` installs. It
      replaces the title/date/type match of the base importer: attachments
      with meta are matched by their `_wp_attached_file`; every other post
      gets 0, so it is always inserted anew. */
  function ExistingPost(h: Host, p: WxrPost): (r: int)
    ensures p.postType != "attachment" || p.postmeta == [] ==> r == 0
    ensures MetaVar(p.postmeta, "_wp_attached_file") == VNull ==> r == 0
    ensures r != 0 ==> r == h.attachmentExists(MetaVar(p.postmeta, "_wp_attached_file").s)
  {
    if p.postType == "attachment" && p.postmeta != [] then
      match MetaVar(p.postmeta, "_wp_attached_file")
      case VStr(file) => h.attachmentExists(file)
      case _ => 0
    else 0
  }

  /** The post is skipped before any bookkeeping: unknown post type, an id
      already mapped (and non-zero), or an auto-draft. */
  predicate Skipped(s: Session, h: Host, p: WxrPost) {
    p.postType !in h.postTypes || (Mapped(s.processedPosts, p.id) && p.id != 0) || p.status == "auto-draft"
  }

  /** The post reaches the insert step and is counted. */
  predicate Counted(s: Session, h: Host, p: WxrPost) {
    !Skipped(s, h, p) && p.postType != "nav_menu_item"
  }

  /** An existing local post of the same type is reused. */
  predicate Reuses(h: Host, p: WxrPost) {
    ExistingPost(h, p) != 0 && h.postTypeOf(ExistingPost(h, p)) == p.postType
  }

  /** The local parent and the orphan to queue: a zero parent stays 0, a
      mapped parent is translated, an unmapped one is queued and becomes 0. */
  function ResolvePostParent(s: Session, p: WxrPost): (r: (int, Option<int>))
    ensures p.parent == 0 ==> r == (0, None)
    ensures p.parent != 0 && Mapped(s.processedPosts, p.parent) ==> r == (Lookup(s.processedPosts, p.parent), None)
    ensures r.1.Some? <==> p.parent != 0 && !Mapped(s.processedPosts, p.parent)
    ensures r.1.Some? ==> r == (0, Some(p.parent))
  {
    if p.parent == 0 then (0, None)
    else if Mapped(s.processedPosts, p.parent) then (Lookup(s.processedPosts, p.parent), None)
    else (0, Some(p.parent))
  }

  /** The local author: the mapped user, or the current user. */
  function Author(h: Host, p: WxrPost): (r: int)
    ensures p.author in OrderedMap.Keys(h.authorMapping) ==> (p.author, r) in h.authorMapping
    ensures p.author !in OrderedMap.Keys(h.authorMapping) ==> r == h.currentUser
  {
    OrderedMap.Find(h.authorMapping, p.author).GetOr(h.currentUser)
  }

  /** The local id a counted post ends up with, or the insert error. */
  function Outcome(s: Session, h: Host, p: WxrPost): (r: Result<int, string>)
    ensures Reuses(h, p) ==> r == Ok(ExistingPost(h, p))
    ensures !Reuses(h, p) ==> r == h.insertPost(p, ResolvePostParent(s, p).0, Author(h, p))
  {
    if Reuses(h, p) then Ok(ExistingPost(h, p))
    else h.insertPost(p, ResolvePostParent(s, p).0, Author(h, p))
  }

  /** The meta entries handed to the import: the exported ones, followed by
      the tracker's tag when a demo is being tracked. */
  function ImportedMeta(h: Host, p: WxrPost): (r: seq<WxrMeta>)
    ensures h.tagDemo.None? ==> r == p.postmeta
    ensures h.tagDemo.Some? ==> r == p.postmeta + [WxrMeta(Tracker.META_KEY, h.tagDemo.value)]
  {
    match h.tagDemo
    case None => p.postmeta
    case Some(demo) => p.postmeta + [WxrMeta(Tracker.META_KEY, demo)]
  }

  /** The value a meta entry is written with: `maybe_unserialize` of the
      exported text. */
  function StoredValue(h: Host, m: WxrMeta): Value {
    Wp.MaybeUnserialize(h.unserialize, VStr(m.value))
  }

  /** The meta row written for one entry, if any. The key must pass the base
      importer's filter and not be the exporter's own key; `_edit_last` is
      written only with a mapped author, as that author's local id (the
      exported value when the mapped id is 0); every other value goes
      through `maybe_unserialize`. */
  function MetaRowFor(authors: IdMap, h: Host, postId: int, m: WxrMeta): (r: Option<MetaWrite>)
    ensures m.key == RESOURCES_META_KEY || !h.validMetaKey(m.key) ==> r.None?
    ensures r.Some? ==> r.value.objectId == postId && r.value.key == m.key
    ensures m.key == "_edit_last" ==>
              (r.Some? <==> h.validMetaKey(m.key) && Mapped(authors, IntVal(VStr(m.value))))
    ensures m.key == "_edit_last" && r.Some? && Lookup(authors, IntVal(VStr(m.value))) != 0 ==>
              r.value.value == VInt(Lookup(authors, IntVal(VStr(m.value))))
    ensures m.key == "_edit_last" && r.Some? && Lookup(authors, IntVal(VStr(m.value))) == 0 ==>
              r.value.value == StoredValue(h, m)
    ensures m.key != "_edit_last" && m.key != RESOURCES_META_KEY && h.validMetaKey(m.key) ==>
              r == Some(MetaWrite(postId, m.key, StoredValue(h, m)))
  {
    if m.key == RESOURCES_META_KEY || !h.validMetaKey(m.key) then None
    else if m.key == "_edit_last" then
      var author := IntVal(VStr(m.value));
      if Mapped(authors, author) then
        var mapped := Lookup(authors, author);
        Some(MetaWrite(postId, m.key, if mapped != 0 then VInt(mapped) else StoredValue(h, m)))
      else None
    else Some(MetaWrite(postId, m.key, StoredValue(h, m)))
  }

  /** The meta rows written for a post, in entry order. */
  function MetaRows(authors: IdMap, h: Host, postId: int, metas: seq<WxrMeta>): (r: seq<MetaWrite>)
    ensures forall i :: 0 <= i < |metas| && MetaRowFor(authors, h, postId, metas[i]).Some? ==>
              MetaRowFor(authors, h, postId, metas[i]).value in r
    ensures forall w :: w in r ==> exists i :: 0 <= i < |metas| && MetaRowFor(authors, h, postId, metas[i]) == Some(w)
    ensures |r| <= |metas|
  {
    if metas == [] then []
    else
      var rest := MetaRows(authors, h, postId, metas[1..]);
      assert forall j :: 1 <= j < |metas| ==> metas[j] == metas[1..][j - 1];
      match MetaRowFor(authors, h, postId, metas[0])
      case None => rest
      case Some(w) => [w] + rest
  }

  /** `featured_images[post] = (int) value` for every written `_thumbnail_id`
      row, the last one winning. */
  function Featured(featured: OrderedMap.Assoc<int, int>, rows: seq<MetaWrite>): (r: OrderedMap.Assoc<int, int>)
    ensures forall k :: (forall w :: w in rows ==> w.objectId != k || w.key != "_thumbnail_id") ==>
              OrderedMap.Find(r, k) == OrderedMap.Find(featured, k)
  {
    if rows == [] then featured
    else
      var w := rows[|rows| - 1];
      var before := Featured(featured, rows[..|rows| - 1]);
      if w.key == "_thumbnail_id" then OrderedMap.Put(before, w.objectId, IntVal(w.value)) else before
  }

  /** Imports the meta entries of a post: the rows are appended to the meta
      table and the featured image, if any, is noted for later remapping. */
  function ImportMeta(s: Session, h: Host, postId: int, metas: seq<WxrMeta>): (r: Session)
    ensures r.(metaWrites := s.metaWrites, featuredImages := s.featuredImages) == s
    ensures r.metaWrites == s.metaWrites + MetaRows(s.processedAuthors, h, postId, metas)
  {
    var rows := MetaRows(s.processedAuthors, h, postId, metas);
    s.(metaWrites := s.metaWrites + rows, featuredImages := Featured(s.featuredImages, rows))
  }

  /** One iteration of the `process_posts` loop (time permitting). */
  function ProcessPost(s: Session, h: Host, p: WxrPost): (r: Session)
    ensures Skipped(s, h, p) ==> r == s
    ensures !Skipped(s, h, p) && p.postType == "nav_menu_item" ==> r == ImportMenus.ProcessMenuItem(s, h, p)
    ensures Counted(s, h, p) ==> r.importedPosts == s.importedPosts + 1
    ensures !Counted(s, h, p) ==> r.importedPosts == s.importedPosts
    ensures Counted(s, h, p) ==>
              OrderedMap.Find(r.processedPosts, p.id) == Some(if Outcome(s, h, p).Ok? then Some(Outcome(s, h, p).value) else None)
    ensures Counted(s, h, p) ==> forall k :: k != p.id ==> OrderedMap.Find(r.processedPosts, k) == OrderedMap.Find(s.processedPosts, k)
    ensures Counted(s, h, p) && !Reuses(h, p) && p.parent != 0 && !Mapped(s.processedPosts, p.parent) ==>
              OrderedMap.Find(r.postOrphans, p.id) == Some(p.parent)
    ensures !Counted(s, h, p) ==> r.processedPosts == s.processedPosts && r.postOrphans == s.postOrphans
    ensures forall k :: k in OrderedMap.Keys(s.processedPosts) ==> k in OrderedMap.Keys(r.processedPosts)
    ensures r.totalPosts == s.totalPosts
  {
    if Skipped(s, h, p) then s
    else if p.postType == "nav_menu_item" then ImportMenus.ProcessMenuItem(s, h, p)
    else
      var (parent, orphan) := ResolvePostParent(s, p);
      var orphans := if !Reuses(h, p) && orphan.Some? then OrderedMap.Put(s.postOrphans, p.id, orphan.value) else s.postOrphans;
      var s1 := s.(postOrphans := orphans, importedPosts := s.importedPosts + 1);
      match Outcome(s, h, p)
      case Err(_) => s1.(processedPosts := Record(s.processedPosts, p.id, None))
      case Ok(id) =>
        var s2 := s1.(processedPosts := Record(s.processedPosts, p.id, Some(id)));
        ImportMeta(s2, h, id, ImportedMeta(h, p))
  }

  /** A loop over posts that stops when the time budget (`budget` more
      posts) runs out. */
  function Loop(s: Session, step: (Session, WxrPost) -> Session, posts: seq<WxrPost>, budget: nat): Session
    decreases |posts|
  {
    if posts == [] || budget == 0 then s
    else Loop(step(s, posts[0]), step, posts[1..], budget - 1)
  }

  /** The `process_posts` loop: posts are handled in order until time is
      exceeded. */
  function ProcessPosts(s: Session, h: Host, posts: seq<WxrPost>, budget: nat): Session {
    Loop(s, (t: Session, p: WxrPost) => ProcessPost(t, h, p), posts, budget)
  }

  lemma {:induction false} LoopCount(s: Session, step: (Session, WxrPost) -> Session, posts: seq<WxrPost>, budget: nat)
    requires forall t: Session, p: WxrPost :: t.importedPosts <= step(t, p).importedPosts <= t.importedPosts + 1
    ensures var r := Loop(s, step, posts, budget);
            s.importedPosts <= r.importedPosts && r.importedPosts <= s.importedPosts + budget
            && r.importedPosts <= s.importedPosts + |posts|
    decreases |posts|
  {
    if posts != [] && budget != 0 {
      LoopCount(step(s, posts[0]), step, posts[1..], budget - 1);
    }
  }

  lemma {:induction false} LoopTotal(s: Session, step: (Session, WxrPost) -> Session, posts: seq<WxrPost>, budget: nat)
    requires forall t: Session, p: WxrPost :: step(t, p).totalPosts == t.totalPosts
    ensures Loop(s, step, posts, budget).totalPosts == s.totalPosts
    decreases |posts|
  {
    if posts != [] && budget != 0 {
      LoopTotal(step(s, posts[0]), step, posts[1..], budget - 1);
    }
  }

  lemma {:induction false} LoopKeepsKeys(s: Session, step: (Session, WxrPost) -> Session, posts: seq<WxrPost>, budget: nat, k: int)
    requires forall t: Session, p: WxrPost :: k in OrderedMap.Keys(t.processedPosts) ==> k in OrderedMap.Keys(step(t, p).processedPosts)
    requires k in OrderedMap.Keys(s.processedPosts)
    ensures k in OrderedMap.Keys(Loop(s, step, posts, budget).processedPosts)
    decreases |posts|
  {
    if posts != [] && budget != 0 {
      LoopKeepsKeys(step(s, posts[0]), step, posts[1..], budget - 1, k);
    }
  }

  lemma {:induction false} LoopMaps(s: Session, step: (Session, WxrPost) -> Session, posts: seq<WxrPost>, budget: nat, i: nat)
    requires i < |posts| && i < budget
    requires forall t: Session, p: WxrPost :: posts[i].id in OrderedMap.Keys(t.processedPosts) ==> posts[i].id in OrderedMap.Keys(step(t, p).processedPosts)
    requires forall t: Session :: posts[i].id in OrderedMap.Keys(step(t, posts[i]).processedPosts)
    ensures posts[i].id in OrderedMap.Keys(Loop(s, step, posts, budget).processedPosts)
    decreases |posts|
  {
    if i == 0 {
      LoopKeepsKeys(step(s, posts[0]), step, posts[1..], budget - 1, posts[0].id);
    } else {
      assert posts[1..][i - 1] == posts[i];
      LoopMaps(step(s, posts[0]), step, posts[1..], budget - 1, i - 1);
    }
  }

  lemma {:induction false} LoopStops(s: Session, step: (Session, WxrPost) -> Session, posts: seq<WxrPost>, budget: nat)
    requires budget <= |posts|
    ensures Loop(s, step, posts, budget) == Loop(s, step, posts[..budget], budget)
    decreases |posts|
  {
    if posts != [] && budget != 0 {
      LoopStops(step(s, posts[0]), step, posts[1..], budget - 1);
      assert posts[..budget][1..] == posts[1..][..budget - 1];
    }
  }

  /** Processing counts at most one per handled post and never un-counts. */
  lemma ProcessPostsCountBounds(s: Session, h: Host, posts: seq<WxrPost>, budget: nat)
    ensures var r := ProcessPosts(s, h, posts, budget);
            s.importedPosts <= r.importedPosts && r.importedPosts <= s.importedPosts + budget
            && r.importedPosts <= s.importedPosts + |posts|
  {
    var step := (t: Session, p: WxrPost) => ProcessPost(t, h, p);
    forall t: Session, p: WxrPost ensures t.importedPosts <= step(t, p).importedPosts <= t.importedPosts + 1 {
      StepCount(t, h, p);
    }
    LoopCount(s, step, posts, budget);
  }

  /** Processing leaves the reported total alone. */
  lemma ProcessPostsTotal(s: Session, h: Host, posts: seq<WxrPost>, budget: nat)
    ensures ProcessPosts(s, h, posts, budget).totalPosts == s.totalPosts
  {
    var step := (t: Session, p: WxrPost) => ProcessPost(t, h, p);
    LoopTotal(s, step, posts, budget);
  }

  /** Once time is exceeded nothing more happens: only the first `budget`
      posts matter. */
  lemma ProcessPostsStopsAtBudget(s: Session, h: Host, posts: seq<WxrPost>, budget: nat)
    requires budget <= |posts|
    ensures ProcessPosts(s, h, posts, budget) == ProcessPosts(s, h, posts[..budget], budget)
  {
    LoopStops(s, (t: Session, p: WxrPost) => ProcessPost(t, h, p), posts, budget);
  }

  lemma StepCount(s: Session, h: Host, p: WxrPost)
    ensures s.importedPosts <= ProcessPost(s, h, p).importedPosts <= s.importedPosts + 1
  {
  }

  lemma StepMaps(s: Session, h: Host, p: WxrPost)
    requires p.postType in h.postTypes && p.status != "auto-draft" && p.postType != "nav_menu_item"
    ensures p.id in OrderedMap.Keys(ProcessPost(s, h, p).processedPosts)
  {
    if Skipped(s, h, p) {
      assert OrderedMap.Find(s.processedPosts, p.id).Some?;
    } else {
      assert OrderedMap.Find(ProcessPost(s, h, p).processedPosts, p.id).Some?;
    }
  }

  /** Every post within the budget whose type exists and that is neither an
      auto-draft nor a menu item ends up as a key of the identity map (mapped
      to its local id, or to null after a failed insert). */
  lemma HandledPostsAreMapped(s: Session, h: Host, posts: seq<WxrPost>, budget: nat, i: nat)
    requires i < |posts| && i < budget
    requires posts[i].postType in h.postTypes && posts[i].status != "auto-draft" && posts[i].postType != "nav_menu_item"
    ensures posts[i].id in OrderedMap.Keys(ProcessPosts(s, h, posts, budget).processedPosts)
  {
    var step := (t: Session, p: WxrPost) => ProcessPost(t, h, p);
    forall t: Session ensures posts[i].id in OrderedMap.Keys(step(t, posts[i]).processedPosts) {
      StepMaps(t, h, posts[i]);
    }
    LoopMaps(s, step, posts, budget, i);
  }
}
