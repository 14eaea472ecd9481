/** The state a content import carries from post to post and from batch to
    batch (ContentImporter and the WXR importer it extends): the parsed
    posts, the identity maps from original to local ids, and the queues of
    items whose parent or target was not known yet. */
module ImportSession {
  import opened Wrappers
  import OrderedMap
  import opened Php

  /** A term reference inside a WXR item (`domain` is the taxonomy). */
  datatype WxrTerm = WxrTerm(domain: string, slug: string, name: string)

  /** One `postmeta` entry of a WXR item; exported values are strings. */
  datatype WxrMeta = WxrMeta(key: string, value: string)

  /** One parsed WXR item. Ids are the exported decimal ids, already read as
      integers (PHP normalises numeric string keys to integer keys). */
  datatype WxrPost = WxrPost(
    id: int,
    postType: string,
    status: string,
    title: string,
    date: string,
    parent: int,
    author: string,
    menuOrder: int,
    content: string,
    excerpt: string,
    guid: string,
    attachmentUrl: string,
    terms: seq<WxrTerm>,
    postmeta: seq<WxrMeta>)

  /** A PHP array from original ids to local ids whose values may be null
      (`processed_posts[id] = null` records a failed insert). */
  type IdMap = OrderedMap.Assoc<int, Option<int>>

  /** `isset($map[$id])`: the id is a key and its value is not null. */
  predicate Mapped(m: IdMap, id: int) {
    OrderedMap.Find(m, id).Some? && OrderedMap.Find(m, id).value.Some?
  }

  /** `get_processed_post`, `get_processed_term`, `get_processed_taxonomy_id`
      and `get_processed_author_id`: the mapped id, or 0 when unmapped. */
  function Lookup(m: IdMap, id: int): (r: int)
    ensures !Mapped(m, id) ==> r == 0
    ensures Mapped(m, id) ==> (id, Some(r)) in m
  {
    var f := OrderedMap.Find(m, id);
    if f.Some? && f.value.Some? then f.value.value else 0
  }

  /** The same lookup for an id read from imported data as a PHP value: the
      value selects an array key as PHP does, and only an integer key can be
      present in an identity map. */
  function LookupKey(m: IdMap, v: Value): (r: int)
    ensures ArrayKey(v).Some? && ArrayKey(v).value.IntKey? ==> r == Lookup(m, ArrayKey(v).value.n)
    ensures ArrayKey(v).None? || ArrayKey(v).value.StrKey? ==> r == 0
  {
    match ArrayKey(v)
    case Some(IntKey(i)) => Lookup(m, i)
    case _ => 0
  }

  /** Records `m[id] = v`. */
  function Record(m: IdMap, id: int, v: Option<int>): (r: IdMap)
    ensures OrderedMap.Find(r, id) == Some(v)
    ensures forall k :: k != id ==> OrderedMap.Find(r, k) == OrderedMap.Find(m, k)
    ensures forall k :: k in OrderedMap.Keys(m) ==> k in OrderedMap.Keys(r)
  {
    OrderedMap.Put(m, id, v)
  }

  /** One `add_post_meta` / `update_post_meta` call the import makes; the
      value is what the call is given, after `maybe_unserialize`. */
  datatype MetaWrite = MetaWrite(objectId: int, key: string, value: Value)

  /** The importer's per-request state. `processedPosts`, `processedTerms`,
      `processedAuthors`, `featuredImages`, `urlRemap` and `stats` survive
      between batches; the menu maps and the orphan queues do not. */
  datatype Session = Session(
    posts: seq<WxrPost>,
    processedPosts: IdMap,
    processedTerms: IdMap,
    processedAuthors: IdMap,
    processedMenuItems: IdMap,
    postOrphans: OrderedMap.Assoc<int, int>,
    menuItemOrphans: OrderedMap.Assoc<int, int>,
    missingMenuItems: seq<WxrPost>,
    featuredImages: OrderedMap.Assoc<int, int>,
    urlRemap: OrderedMap.Assoc<string, string>,
    stats: seq<(int, real)>,
    metaWrites: seq<MetaWrite>,
    importedPosts: int,
    totalPosts: int)

  /** The arguments `process_menu_item` passes to `wp_update_nav_menu_item`.
      Fields read from menu-item meta are PHP values: null when the item had
      no such meta. */
  datatype MenuArgs = MenuArgs(
    objectId: Value,
    object: Value,
    parentId: Value,
    position: int,
    itemType: Value,
    title: string,
    url: Value,
    description: string,
    attrTitle: string,
    target: Value,
    classes: Value,
    xfn: Value,
    status: string)

  /** What the importer asks of the host site, as pure functions:
      `post_type_exists`, `get_post_type`, the `_wp_attached_file` lookup, the
      author mapping built by the base importer, the current user, the insert
      calls (`wp_insert_post` or the attachment import; the new id or an
      error), the base importer's meta-key filter, `term_exists` for menus
      (0 when missing), `wp_update_nav_menu_item` (0 on failure), the
      exported site's base URL, `home_url()`, the demo whose tracker tags
      imported posts, if any, and PHP's `unserialize` (`false` for text it
      cannot read). */
  datatype Host = Host(
    postTypes: set<string>,
    postTypeOf: int -> string,
    attachmentExists: string -> int,
    authorMapping: OrderedMap.Assoc<string, int>,
    currentUser: int,
    insertPost: (WxrPost, int, int) -> Result<int, string>,
    validMetaKey: string -> bool,
    menuTermId: string -> int,
    insertMenuItem: (int, MenuArgs) -> int,
    baseUrl: string,
    homeUrl: string,
    tagDemo: Option<string>,
    unserialize: string -> Value)

  /** The value of the last meta entry named `key` (the source turns every
      meta entry into a local variable named after its key, so later entries
      overwrite earlier ones), or null when there is none. */
  function MetaVar(meta: seq<WxrMeta>, key: string): (r: Value)
    ensures r == VNull <==> forall i :: 0 <= i < |meta| ==> meta[i].key != key
    ensures r != VNull ==> exists i :: 0 <= i < |meta| && meta[i].key == key && r == VStr(meta[i].value)
                                        && forall j :: i < j < |meta| ==> meta[j].key != key
  {
    if meta == [] then VNull
    else if meta[|meta| - 1].key == key then VStr(meta[|meta| - 1].value)
    else MetaVar(meta[..|meta| - 1], key)
  }

  /** A fresh importer for one request: nothing processed, nothing counted. */
  function Empty(posts: seq<WxrPost>): (s: Session)
    ensures s.posts == posts && s.importedPosts == 0 && s.totalPosts == 0
    ensures forall id :: !Mapped(s.processedPosts, id)
  {
    Session(posts, [], [], [], [], [], [], [], [], [], [], [], 0, 0)
  }

  /** Lookups see exactly what was recorded: the new id under `id` after a
      successful record, 0 after a failed one, and other ids unaffected. */
  lemma LookupAfterRecord(m: IdMap, id: int, v: Option<int>, other: int)
    requires other != id
    ensures Lookup(Record(m, id, v), id) == (if v.Some? then v.value else 0)
    ensures Mapped(Record(m, id, v), id) <==> v.Some?
    ensures Lookup(Record(m, id, v), other) == Lookup(m, other)
  {
  }
}
