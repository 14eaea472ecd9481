/** One request of a batched content import (ContentImporter::import_batch):
    the time budget, the attachment/post partition of `import_start`, the
    removal of already imported posts by `cut_batch`, the session cache that
    carries the identity maps from one request to the next, and the counts
    reported to the browser. */
module ImportBatch {
  import opened Wrappers
  import OrderedMap
  import opened Php
  import opened ImportSession
  import ImportPosts

  /** The per-request time limit in seconds: `max_execution_time - 10`,
      replaced by 20 when not positive, capped at 40; 20 when `ini_get` is not
      available (`None`). */
  function TimeLimit(ini: Option<Value>): (r: int)
    ensures 1 <= r <= 40
    ensures ini.None? ==> r == 20
    ensures ini.Some? && IntVal(ini.value) - 10 <= 0 ==> r == 20
    ensures ini.Some? && 0 < IntVal(ini.value) - 10 <= 40 ==> r == IntVal(ini.value) - 10
    ensures ini.Some? && IntVal(ini.value) - 10 > 40 ==> r == 40
  {
    match ini
    case None => 20
    case Some(v) =>
      var t := IntVal(v) - 10;
      var t' := if t > 0 then t else 20;
      if t' < 40 then t' else 40
  }

  /** The posts `import_start` keeps: only attachments when attachments are
      fetched, only other posts when they are not. */
  function Survivors(posts: seq<WxrPost>, fetch: bool): (r: seq<WxrPost>)
    ensures forall p :: p in r <==> p in posts && (p.postType == "attachment") == fetch
    ensures |r| <= |posts|
  {
    if posts == [] then []
    else
      var rest := Survivors(posts[1..], fetch);
      if (posts[0].postType == "attachment") == fetch then [posts[0]] + rest else rest
  }

  /** `import_start`: the partition, and the total it reports. */
  function ImportStart(s: Session, fetch: bool): (r: Session)
    ensures r.posts == Survivors(s.posts, fetch) && r.totalPosts == |r.posts|
    ensures r.(posts := s.posts, totalPosts := s.totalPosts) == s
  {
    var kept := Survivors(s.posts, fetch);
    s.(posts := kept, totalPosts := |kept|)
  }

  /** How many posts have an id among `keys`. */
  function ProcessedCount(posts: seq<WxrPost>, keys: seq<int>): (n: nat)
    ensures n <= |posts|
  {
    if posts == [] then 0
    else (if posts[0].id in keys then 1 else 0) + ProcessedCount(posts[1..], keys)
  }

  /** The posts whose id is not among `keys`, in order. Together with the
      removed ones they account for every post. */
  function Unprocessed(posts: seq<WxrPost>, keys: seq<int>): (r: seq<WxrPost>)
    ensures forall p :: p in r <==> p in posts && p.id !in keys
    ensures |r| + ProcessedCount(posts, keys) == |posts|
  {
    if posts == [] then []
    else
      var rest := Unprocessed(posts[1..], keys);
      if posts[0].id in keys then rest else [posts[0]] + rest
  }

  /** The length `array_slice($a, 0, $length)` keeps of `n` elements: a
      negative length stops that many elements before the end. */
  function SliceLength(n: nat, length: int): (k: nat)
    ensures k <= n
    ensures length >= 0 ==> k == (if length < n then length else n)
    ensures length < 0 ==> k == (if n + length > 0 then n + length else 0)
  {
    if length >= 0 then (if length < n then length else n)
    else if n + length > 0 then n + length else 0
  }

  /** `cut_batch`: drops every post whose id is a key of the identity map,
      even a key mapped to null, counting each as imported, then keeps the
      first `batch` of the rest in order. */
  function CutBatch(s: Session, batch: int): (r: Session)
    ensures var keys := OrderedMap.Keys(s.processedPosts);
            && r.importedPosts == s.importedPosts + ProcessedCount(s.posts, keys)
            && (forall p :: p in r.posts ==> p in s.posts && p.id !in keys)
            && |r.posts| == SliceLength(|Unprocessed(s.posts, keys)|, batch)
            && r.posts == Unprocessed(s.posts, keys)[..|r.posts|]
    ensures r.(posts := s.posts, importedPosts := s.importedPosts) == s
  {
    var keys := OrderedMap.Keys(s.processedPosts);
    var rest := Unprocessed(s.posts, keys);
    s.(posts := rest[..SliceLength(|rest|, batch)], importedPosts := s.importedPosts + ProcessedCount(s.posts, keys))
  }

  /** The part of the session `cache_processed_data` stores between requests. */
  datatype Cached = Cached(
    authors: IdMap,
    terms: IdMap,
    posts: IdMap,
    featured: OrderedMap.Assoc<int, int>,
    urlRemap: OrderedMap.Assoc<string, string>,
    stats: seq<(int, real)>)

  function CacheOf(s: Session): (c: Cached)
    ensures c.posts == s.processedPosts && c.terms == s.processedTerms && c.authors == s.processedAuthors
    ensures c.featured == s.featuredImages && c.urlRemap == s.urlRemap && c.stats == s.stats
  {
    Cached(s.processedAuthors, s.processedTerms, s.processedPosts, s.featuredImages, s.urlRemap, s.stats)
  }

  /** `read_processed_data_from_cache`: each stored group replaces the
      current one when it is non-empty. */
  function Restore(s: Session, c: Option<Cached>): (r: Session)
    ensures c.None? ==> r == s
    ensures c.Some? && c.value.posts != [] ==> r.processedPosts == c.value.posts
    ensures c.Some? && c.value.posts == [] ==> r.processedPosts == s.processedPosts
    ensures r.(processedAuthors := s.processedAuthors, processedTerms := s.processedTerms, processedPosts := s.processedPosts,
               featuredImages := s.featuredImages, urlRemap := s.urlRemap, stats := s.stats) == s
  {
    match c
    case None => s
    case Some(d) =>
      s.(processedAuthors := if d.authors != [] then d.authors else s.processedAuthors,
         processedTerms := if d.terms != [] then d.terms else s.processedTerms,
         processedPosts := if d.posts != [] then d.posts else s.processedPosts,
         featuredImages := if d.featured != [] then d.featured else s.featuredImages,
         urlRemap := if d.urlRemap != [] then d.urlRemap else s.urlRemap,
         stats := if d.stats != [] then d.stats else s.stats)
  }

  /** A fresh request that restores the cache of an earlier one sees that
      request's identity maps, featured images, URL map and statistics. */
  lemma RestoreRoundTrip(s: Session, posts: seq<WxrPost>)
    ensures CacheOf(Restore(Empty(posts), Some(CacheOf(s)))) == CacheOf(s)
  {
  }

  /** The `imported` / `left` / `total` triple returned to the browser. */
  datatype Counts = Counts(imported: int, left: int, total: int)

  /** The session after a request and the counts it reports. */
  datatype Run = Run(session: Session, counts: Counts, cache: Cached)

  /** `import_batch`. With `batch == 0` the whole file is imported in one go
      (with no restored session) and the count is the size of the identity
      map. Otherwise the session is restored, posts are partitioned and cut,
      at most `budget` of them are processed, and `left` is what remains of
      the total. Categories, tags, terms and the final back-filling belong to
      the base importer and are not modelled. */
  function ImportBatchRequest(parsed: seq<WxrPost>, cached: Option<Cached>, h: Host, batch: int, fetch: bool, budget: nat): (r: Run)
    ensures r.cache == CacheOf(r.session)
    ensures r.counts.total == |Survivors(parsed, fetch)|
    ensures batch == 0 ==> r.counts.left == 0 && r.counts.imported == |r.session.processedPosts|
    ensures batch != 0 ==> r.counts.left == r.counts.total - r.counts.imported
    ensures batch != 0 ==> 0 <= r.counts.left <= r.counts.total
  {
    if batch == 0 then
      var s1 := ImportStart(Empty(parsed), fetch);
      var s2 := ImportPosts.ProcessPosts(s1, h, s1.posts, budget);
      ImportPosts.ProcessPostsTotal(s1, h, s1.posts, budget);
      Run(s2, Counts(|s2.processedPosts|, 0, s2.totalPosts), CacheOf(s2))
    else
      var s1 := ImportStart(Restore(Empty(parsed), cached), fetch);
      var s2 := CutBatch(s1, batch);
      var s3 := ImportPosts.ProcessPosts(s2, h, s2.posts, budget);
      ImportPosts.ProcessPostsCountBounds(s2, h, s2.posts, budget);
      ImportPosts.ProcessPostsTotal(s2, h, s2.posts, budget);
      Run(s3, Counts(s3.importedPosts, s3.totalPosts - s3.importedPosts, s3.totalPosts), CacheOf(s3))
  }
}
