/** Import of navigation menu items (ContentImporter::process_menu_item): an
    item is attached to its menu, its target object and parent item are
    translated to local ids, and items whose target or parent is not known
    yet are queued. */
module ImportMenus {
  import opened Wrappers
  import OrderedMap
  import opened Php
  import opened Text
  import opened ImportSession
  import Wp

  /** The slug of the first term of the `nav_menu` taxonomy, if any. */
  function MenuSlug(terms: seq<WxrTerm>): (r: Option<string>)
    ensures r.None? <==> forall i :: 0 <= i < |terms| ==> terms[i].domain != "nav_menu"
    ensures r.Some? ==> exists i :: 0 <= i < |terms| && terms[i].domain == "nav_menu" && terms[i].slug == r.value
                                     && forall j :: 0 <= j < i ==> terms[j].domain != "nav_menu"
  {
    if terms == [] then None
    else if terms[0].domain == "nav_menu" then Some(terms[0].slug)
    else
      var r := MenuSlug(terms[1..]);
      assert forall j :: 1 <= j < |terms| ==> terms[j] == terms[1..][j - 1];
      r
  }

  /** The local menu the item goes to: none for drafts, for items without a
      truthy `nav_menu` slug, and for slugs with no local menu. */
  function TargetMenu(h: Host, item: WxrPost): (r: Option<int>)
    ensures item.status == "draft" ==> r.None?
    ensures MenuSlug(item.terms).None? ==> r.None?
    ensures r.Some? ==> r.value != 0 && Truthy(VStr(MenuSlug(item.terms).value))
                        && r.value == h.menuTermId(MenuSlug(item.terms).value)
  {
    if item.status == "draft" then None
    else match MenuSlug(item.terms)
      case None => None
      case Some(slug) =>
        if !Truthy(VStr(slug)) then None
        else if h.menuTermId(slug) == 0 then None
        else Some(h.menuTermId(slug))
  }

  /** The object id the item points at after translation. Taxonomy and post
      targets must already be mapped; a custom link keeps its own value; any
      other item is missing (None). */
  function ResolveObject(s: Session, itemType: Value, objectId: Value): (r: Option<Value>)
    ensures itemType == VStr("custom") ==> r == Some(objectId)
    ensures r.None? <==> itemType != VStr("custom")
                         && !(itemType == VStr("taxonomy") && Mapped(s.processedTerms, IntVal(objectId)))
                         && !(itemType == VStr("post_type") && Mapped(s.processedPosts, IntVal(objectId)))
    ensures itemType == VStr("taxonomy") && r.Some? ==> r == Some(VInt(Lookup(s.processedTerms, IntVal(objectId))))
    ensures itemType == VStr("post_type") && r.Some? ==> r == Some(VInt(Lookup(s.processedPosts, IntVal(objectId))))
  {
    if itemType == VStr("taxonomy") && Mapped(s.processedTerms, IntVal(objectId)) then
      Some(VInt(Lookup(s.processedTerms, IntVal(objectId))))
    else if itemType == VStr("post_type") && Mapped(s.processedPosts, IntVal(objectId)) then
      Some(VInt(Lookup(s.processedPosts, IntVal(objectId))))
    else if itemType != VStr("custom") then None
    else Some(objectId)
  }

  /** The parent item after translation, and the orphan to queue: a mapped
      parent is translated; an unmapped truthy parent is queued and replaced
      by 0; anything else is passed on as read. */
  function ResolveParent(s: Session, parent: Value): (r: (Value, Option<int>))
    ensures Mapped(s.processedMenuItems, IntVal(parent)) ==> r == (VInt(Lookup(s.processedMenuItems, IntVal(parent))), None)
    ensures r.1.Some? <==> !Mapped(s.processedMenuItems, IntVal(parent)) && Truthy(parent)
    ensures r.1.Some? ==> r == (VInt(0), Some(IntVal(parent)))
    ensures !Mapped(s.processedMenuItems, IntVal(parent)) && !Truthy(parent) ==> r.0 == parent
  {
    if Mapped(s.processedMenuItems, IntVal(parent)) then (VInt(Lookup(s.processedMenuItems, IntVal(parent))), None)
    else if Truthy(parent) then (VInt(0), Some(IntVal(parent)))
    else (parent, None)
  }

  /** `untrailingslashit`: drops trailing `/` and `\`. */
  function Untrailingslashit(s: string): (r: string)
    ensures StartsWith(s, r)
    ensures r == [] || (r[|r| - 1] != '/' && r[|r| - 1] != '\\')
  {
    TrimRight(s, {'/', '\\'})
  }

  /** The menu item URL with the exported site's address replaced by the
      local home URL when it starts the URL. Without a usable base URL the
      value is passed on untouched. */
  function MenuUrl(h: Host, url: Value): (r: Value)
    ensures var demo := Untrailingslashit(h.baseUrl);
            !Truthy(VStr(demo)) ==> r == url
    ensures var demo := Untrailingslashit(h.baseUrl);
            Truthy(VStr(demo)) && StartsWith(ToStr(url), demo) ==> r == VStr(h.homeUrl + ToStr(url)[|demo|..])
    ensures var demo := Untrailingslashit(h.baseUrl);
            Truthy(VStr(demo)) && !StartsWith(ToStr(url), demo) ==> r == VStr(ToStr(url))
  {
    var demo := Untrailingslashit(h.baseUrl);
    if Truthy(VStr(demo)) && demo != "/" then
      var u := ToStr(url);
      VStr(if StartsWith(u, demo) then h.homeUrl + u[|demo|..] else u)
    else url
  }

  /** The pattern `^demo` as written: the base URL is put into the regular
      expression unescaped, so each `.` in it matches any character but a
      line break; every other character of a URL matches itself. */
  predicate PatternMatches(u: string, demo: string) {
    |demo| <= |u| &&
    forall i :: 0 <= i < |demo| ==> if demo[i] == '.' then u[i] != '\n' else u[i] == demo[i]
  }

  /** The menu item URL as the code rewrites it: the matched start is
      replaced by the home URL, the rest of the URL kept. */
  function MenuUrlAsWritten(h: Host, url: Value): (r: Value)
    ensures var demo := Untrailingslashit(h.baseUrl);
            !Truthy(VStr(demo)) ==> r == url
    ensures var demo := Untrailingslashit(h.baseUrl);
            Truthy(VStr(demo)) && PatternMatches(ToStr(url), demo) ==> r == VStr(h.homeUrl + ToStr(url)[|demo|..])
    ensures var demo := Untrailingslashit(h.baseUrl);
            Truthy(VStr(demo)) && !PatternMatches(ToStr(url), demo) ==> r == VStr(ToStr(url))
  {
    var demo := Untrailingslashit(h.baseUrl);
    if Truthy(VStr(demo)) && demo != "/" then
      var u := ToStr(url);
      VStr(if PatternMatches(u, demo) then h.homeUrl + u[|demo|..] else u)
    else url
  }

  /** Every URL the literal test rewrites, the pattern rewrites the same
      way. */
  lemma AsWrittenExtendsMenuUrl(h: Host, url: Value)
    requires StartsWith(ToStr(url), Untrailingslashit(h.baseUrl))
    ensures MenuUrlAsWritten(h, url) == MenuUrl(h, url)
  {
    var demo := Untrailingslashit(h.baseUrl);
    var u := ToStr(url);
    assert forall i :: 0 <= i < |demo| ==> u[i] == u[..|demo|][i];
  }

  /** The unescaped dot also matches a URL of another host: with the base
      URL `https://demo.example` a link to `https://demoXexample/page` is
      rewritten too, while the literal test leaves it alone. */
  lemma WildcardDotDiscrepancy(h: Host, u: string, i: nat)
    requires var demo := Untrailingslashit(h.baseUrl);
             Truthy(VStr(demo)) && i < |demo| <= |u| && demo[i] == '.'
    requires u[i] != '.' && u[i] != '\n'
    requires forall j :: 0 <= j < |Untrailingslashit(h.baseUrl)| && j != i ==> u[j] == Untrailingslashit(h.baseUrl)[j]
    ensures MenuUrlAsWritten(h, VStr(u)) == VStr(h.homeUrl + u[|Untrailingslashit(h.baseUrl)|..])
    ensures MenuUrl(h, VStr(u)) == VStr(u)
  {
    var demo := Untrailingslashit(h.baseUrl);
    assert PatternMatches(u, demo);
    assert u[..|demo|][i] != demo[i];
  }

  /** The argument keys passed to `wp_update_nav_menu_item`, plus the parent
      meta key: meta whose normalised key is one of these is not copied. */
  const EXCLUDED_META: seq<string> := [
    "menu-item-object-id", "menu-item-object", "menu-item-parent-id", "menu-item-position",
    "menu-item-type", "menu-item-title", "menu-item-url", "menu-item-description",
    "menu-item-attr-title", "menu-item-target", "menu-item-classes", "menu-item-xfn",
    "menu-item-status", "menu-item-menu-item-parent"]

  /** A meta key with leading underscores dropped and the rest turned into
      dashes (`_menu_item_url` becomes `menu-item-url`). */
  function MetaKeyName(key: string): string {
    ReplaceAll(TrimLeft(key, {'_'}), "_", "-")
  }

  predicate CopiesMeta(m: WxrMeta) {
    Truthy(VStr(m.value)) && MetaKeyName(m.key) !in EXCLUDED_META
  }

  /** The write for one copied entry: `maybe_unserialize` of its value. */
  function CopyOf(h: Host, id: int, m: WxrMeta): MetaWrite {
    MetaWrite(id, m.key, Wp.MaybeUnserialize(h.unserialize, VStr(m.value)))
  }

  /** The custom meta copied onto a newly created menu item: every entry with
      a non-empty value whose key is not one of the standard ones, in order,
      its value read back by `maybe_unserialize`. */
  function CopiedMeta(h: Host, id: int, meta: seq<WxrMeta>): (r: seq<MetaWrite>)
    ensures forall m :: m in meta && CopiesMeta(m) ==> CopyOf(h, id, m) in r
    ensures forall w :: w in r ==> exists m :: m in meta && CopiesMeta(m) && w == CopyOf(h, id, m)
    ensures |r| <= |meta|
  {
    if meta == [] then []
    else
      var rest := CopiedMeta(h, id, meta[1..]);
      var r := if CopiesMeta(meta[0]) then [CopyOf(h, id, meta[0])] + rest else rest;
      CopiedCons(h, id, meta, rest, r);
      r
  }

  /** The induction step of `CopiedMeta`: one more entry in front. */
  lemma CopiedCons(h: Host, id: int, meta: seq<WxrMeta>, rest: seq<MetaWrite>, r: seq<MetaWrite>)
    requires meta != []
    requires forall m :: m in meta[1..] && CopiesMeta(m) ==> CopyOf(h, id, m) in rest
    requires forall w :: w in rest ==> exists m :: m in meta[1..] && CopiesMeta(m) && w == CopyOf(h, id, m)
    requires r == if CopiesMeta(meta[0]) then [CopyOf(h, id, meta[0])] + rest else rest
    ensures forall m :: m in meta && CopiesMeta(m) ==> CopyOf(h, id, m) in r
    ensures forall w :: w in r ==> exists m :: m in meta && CopiesMeta(m) && w == CopyOf(h, id, m)
  {
    assert meta == [meta[0]] + meta[1..];
    forall w | w in r ensures exists m :: m in meta && CopiesMeta(m) && w == CopyOf(h, id, m) {
      if w !in rest {
        assert w == CopyOf(h, id, meta[0]);
        assert meta[0] in meta;
      } else {
        var m :| m in meta[1..] && CopiesMeta(m) && w == CopyOf(h, id, m);
        assert m in meta;
      }
    }
  }

  /** The insert the importer attempts for an item, with the orphan it queues
      on the way: none when the item is skipped or its target is missing. */
  datatype Attempt = Attempt(menu: int, args: MenuArgs, orphan: Option<int>)

  function PlanItem(s: Session, h: Host, item: WxrPost): (r: Option<Attempt>)
    ensures TargetMenu(h, item).None? ==> r.None?
    ensures TargetMenu(h, item).Some? ==>
              var pm := item.postmeta;
              (r.None? <==> ResolveObject(s, MetaVar(pm, "_menu_item_type"), MetaVar(pm, "_menu_item_object_id")).None?)
    ensures r.Some? ==>
              var pm := item.postmeta;
              && r.value.menu == TargetMenu(h, item).value
              && Some(r.value.args.objectId) == ResolveObject(s, MetaVar(pm, "_menu_item_type"), MetaVar(pm, "_menu_item_object_id"))
              && (r.value.args.parentId, r.value.orphan) == ResolveParent(s, MetaVar(pm, "_menu_item_menu_item_parent"))
              && r.value.args.url == MenuUrl(h, MetaVar(pm, "_menu_item_url"))
              && r.value.args.itemType == MetaVar(pm, "_menu_item_type")
              && r.value.args.position == item.menuOrder
              && r.value.args.title == item.title
              && r.value.args.status == item.status
              && r.value.args.classes == ClassList(Wp.MaybeUnserialize(h.unserialize, MetaVar(pm, "_menu_item_classes")))
  {
    match TargetMenu(h, item)
    case None => None
    case Some(menu) =>
      var pm := item.postmeta;
      var itemType := MetaVar(pm, "_menu_item_type");
      match ResolveObject(s, itemType, MetaVar(pm, "_menu_item_object_id"))
      case None => None
      case Some(objectId) =>
        var (parent, orphan) := ResolveParent(s, MetaVar(pm, "_menu_item_menu_item_parent"));
        var classes := Wp.MaybeUnserialize(h.unserialize, MetaVar(pm, "_menu_item_classes"));
        var args := MenuArgs(
          objectId, MetaVar(pm, "_menu_item_object"), parent, item.menuOrder, itemType, item.title,
          MenuUrl(h, MetaVar(pm, "_menu_item_url")), item.content, item.excerpt,
          MetaVar(pm, "_menu_item_target"), ClassList(classes), MetaVar(pm, "_menu_item_xfn"), item.status);
        Some(Attempt(menu, args, orphan))
  }

  /** CSS classes given as an array are joined with spaces. */
  function ClassList(classes: Value): (r: Value)
    ensures !classes.VArr? ==> r == classes
    ensures classes.VArr? ==> r.VStr?
  {
    if classes.VArr? then VStr(JoinValues(ValuesOf(classes))) else classes
  }

  function JoinValues(vs: seq<Value>): string {
    if vs == [] then ""
    else if |vs| == 1 then ToStr(vs[0])
    else ToStr(vs[0]) + " " + JoinValues(vs[1..])
  }

  /** Classes exported as a serialised array, as WXR writes them, reach
      `wp_update_nav_menu_item` as the array's entries joined by spaces. */
  lemma SerialisedClassesJoined(s: Session, h: Host, item: WxrPost, count: string, body: string)
    requires PlanItem(s, h, item).Some?
    requires count != [] && forall i :: 0 <= i < |count| ==> IsDigit(count[i])
    requires var t := "a:" + count + ":{" + body + "}";
             MetaVar(item.postmeta, "_menu_item_classes") == VStr(t) && h.unserialize(t).VArr?
    ensures var t := "a:" + count + ":{" + body + "}";
            PlanItem(s, h, item).value.args.classes == VStr(JoinValues(ValuesOf(h.unserialize(t))))
  {
    Wp.SerialisedArrayRead(h.unserialize, count, body);
  }

  /** A plain class string, with neither `:` nor `;`, is passed on as it is. */
  lemma PlainClassesKept(s: Session, h: Host, item: WxrPost, c: string)
    requires PlanItem(s, h, item).Some?
    requires MetaVar(item.postmeta, "_menu_item_classes") == VStr(c)
    requires forall i :: 0 <= i < |c| ==> c[i] != ':' && c[i] != ';'
    ensures PlanItem(s, h, item).value.args.classes == VStr(c)
  {
    Wp.PlainTextKept(h.unserialize, c);
  }

  /** `process_menu_item`. Skipped items leave the state as it was; an item
      with a missing target is queued in `missingMenuItems`; otherwise the
      orphaned parent (if any) is queued, and a successful insert records the
      new id and copies the custom meta. Only the menu-related parts of the
      state can change. */
  function ProcessMenuItem(s: Session, h: Host, item: WxrPost): (r: Session)
    ensures r.(processedMenuItems := s.processedMenuItems, menuItemOrphans := s.menuItemOrphans,
               missingMenuItems := s.missingMenuItems, metaWrites := s.metaWrites) == s
    ensures TargetMenu(h, item).None? ==> r == s
    ensures TargetMenu(h, item).Some? && PlanItem(s, h, item).None? ==>
              r == s.(missingMenuItems := s.missingMenuItems + [item])
    ensures PlanItem(s, h, item).Some? ==>
              var a := PlanItem(s, h, item).value;
              var id := h.insertMenuItem(a.menu, a.args);
              && r.missingMenuItems == s.missingMenuItems
              && (a.orphan.Some? ==> OrderedMap.Find(r.menuItemOrphans, item.id) == Some(a.orphan.value))
              && (a.orphan.None? ==> r.menuItemOrphans == s.menuItemOrphans)
              && (id != 0 ==> Lookup(r.processedMenuItems, item.id) == id
                              && r.metaWrites == s.metaWrites + CopiedMeta(h, id, item.postmeta))
              && (id == 0 ==> r.processedMenuItems == s.processedMenuItems && r.metaWrites == s.metaWrites)
  {
    match PlanItem(s, h, item)
    case None =>
      if TargetMenu(h, item).None? then s
      else s.(missingMenuItems := s.missingMenuItems + [item])
    case Some(a) =>
      var orphans := if a.orphan.Some? then OrderedMap.Put(s.menuItemOrphans, item.id, a.orphan.value) else s.menuItemOrphans;
      var s1 := s.(menuItemOrphans := orphans);
      var id := h.insertMenuItem(a.menu, a.args);
      if id != 0 then
        s1.(processedMenuItems := Record(s.processedMenuItems, item.id, Some(id)),
            metaWrites := s.metaWrites + CopiedMeta(h, id, item.postmeta))
      else s1
  }

  /** An orphaned item is inserted at the top level: its parent argument is 0
      and its original parent is what the queue remembers. */
  lemma OrphanGoesToTopLevel(s: Session, h: Host, item: WxrPost)
    requires PlanItem(s, h, item).Some?
    requires var parent := MetaVar(item.postmeta, "_menu_item_menu_item_parent");
             !Mapped(s.processedMenuItems, IntVal(parent)) && Truthy(parent)
    ensures PlanItem(s, h, item).value.args.parentId == VInt(0)
    ensures OrderedMap.Find(ProcessMenuItem(s, h, item).menuItemOrphans, item.id)
              == Some(IntVal(MetaVar(item.postmeta, "_menu_item_menu_item_parent")))
  {
  }

  /** A taxonomy or post item whose target was not imported is queued and not
      inserted, whatever its parent and URL. */
  lemma UnmappedTargetIsQueued(s: Session, h: Host, item: WxrPost)
    requires TargetMenu(h, item).Some?
    requires var t := MetaVar(item.postmeta, "_menu_item_type");
             var o := IntVal(MetaVar(item.postmeta, "_menu_item_object_id"));
             (t == VStr("taxonomy") && !Mapped(s.processedTerms, o)) || (t == VStr("post_type") && !Mapped(s.processedPosts, o))
    ensures ProcessMenuItem(s, h, item) == s.(missingMenuItems := s.missingMenuItems + [item])
  {
  }
}
