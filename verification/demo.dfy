/** A demo package as the remote list describes it (Demo): its fields with
    their defaults and casts, the import status and its label, the paths of
    the downloaded package and the package's meta data. */
module DemoInfo {
  import opened Wrappers
  import OrderedMap
  import opened Php
  import opened Text
  import Tracker

  const FULL_IMPORT := "full_import"
  const NOT_IMPORTED := "not_imported"

  /** The package directory under the uploads directory. */
  const TMP_DIR := "wpbbe-demo-content-tmp/"

  type Arr = OrderedMap.Assoc<Key, Value>

  /** The two import flags, the status computed from them and the fields. */
  datatype Demo = Demo(postTypesImported: bool, attachmentsImported: bool, importStatus: string, fields: Arr)

  /** The allowed fields with their defaults, in declaration order. */
  function Defaults(): (d: Arr)
    ensures OrderedMap.Keys(d) == [StrKey("title"), StrKey("id"), StrKey("include_attachments"), StrKey("screenshot"),
                                   StrKey("link"), StrKey("attachments_batch"), StrKey("required_plugins"), StrKey("tags")]
  {
    [(StrKey("title"), VStr("")), (StrKey("id"), VStr("")), (StrKey("include_attachments"), VBool(false)),
     (StrKey("screenshot"), VStr("")), (StrKey("link"), VStr("")), (StrKey("attachments_batch"), VInt(999)),
     (StrKey("required_plugins"), VArr([])), (StrKey("tags"), VArr([]))]
  }

  /** `array_intersect_key($fields, $allowed)` followed by
      `wp_parse_args($fields, $allowed)`, done one allowed key at a time:
      the allowed keys in their order, each with the given value when the
      given fields hold the key and the default otherwise. */
  function Merge(given: Arr, d: Arr): (r: Arr)
    ensures OrderedMap.Keys(r) == OrderedMap.Keys(d)
    ensures forall i :: 0 <= i < |d| ==> r[i].1 == OrderedMap.Find(given, d[i].0).GetOr(d[i].1)
  {
    if d == [] then []
    else [(d[0].0, OrderedMap.Find(given, d[0].0).GetOr(d[0].1))] + Merge(given, d[1..])
  }

  /** Reading the merge: an allowed key holds the given value when there
      is one and its default otherwise; no other key is present. */
  lemma {:induction false} MergeFind(given: Arr, d: Arr, k: Key)
    ensures OrderedMap.Find(Merge(given, d), k) ==
              if k in OrderedMap.Keys(d) then Some(OrderedMap.Find(given, k).GetOr(OrderedMap.Find(d, k).value))
              else None
  {
    if d != [] {
      MergeFind(given, d[1..], k);
    }
  }

  /** `setup_fields`: only the allowed keys survive, in the defaults'
      order, missing ones take their defaults. */
  function SetupFields(raw: Value): (r: Arr)
    ensures OrderedMap.Keys(r) == OrderedMap.Keys(Defaults())
    ensures forall i :: 0 <= i < |r| ==> r[i].1 == OrderedMap.Find(Entries(ToArray(raw)), Defaults()[i].0).GetOr(Defaults()[i].1)
  {
    Merge(Entries(ToArray(raw)), Defaults())
  }

  /** Reading a field after `setup_fields`: an allowed key holds the given
      value or its default, any other key is absent. */
  lemma SetupFieldsFind(raw: Value, k: Key)
    ensures OrderedMap.Find(SetupFields(raw), k) ==
              if k in OrderedMap.Keys(Defaults()) then Some(OrderedMap.Find(Entries(ToArray(raw)), k).GetOr(OrderedMap.Find(Defaults(), k).value))
              else None
  {
    MergeFind(Entries(ToArray(raw)), Defaults(), k);
  }

  /** The status the two flags give. */
  function StatusOf(postTypes: bool, attachments: bool): (s: string)
    ensures s == FULL_IMPORT <==> postTypes && attachments
    ensures s == FULL_IMPORT || s == NOT_IMPORTED
  {
    if postTypes && attachments then FULL_IMPORT else NOT_IMPORTED
  }

  /** `refresh_import_status` as written: both flags are reset to false and
      the status is computed from them. */
  function RefreshAsWritten(d: Demo): (r: Demo)
    ensures r.importStatus == NOT_IMPORTED
    ensures !r.postTypesImported && !r.attachmentsImported && r.fields == d.fields
  {
    d.(postTypesImported := false, attachmentsImported := false,
       importStatus := StatusOf(false, false))
  }

  /** `refresh_import_status` as its documentation describes it: the flags
      follow the demo's history, where the importer records `post_types`
      and `attachments`. */
  function Refresh(d: Demo, t: Tracker.Tracker): (r: Demo)
    ensures r.postTypesImported == Truthy(Tracker.GetKey(t, "post_types"))
    ensures r.attachmentsImported == Truthy(Tracker.GetKey(t, "attachments"))
    ensures r.importStatus == FULL_IMPORT <==> r.postTypesImported && r.attachmentsImported
    ensures r.fields == d.fields
  {
    var p := Truthy(Tracker.GetKey(t, "post_types"));
    var a := Truthy(Tracker.GetKey(t, "attachments"));
    d.(postTypesImported := p, attachmentsImported := a, importStatus := StatusOf(p, a))
  }

  /** The code as written can never report a full import, even for a demo
      whose history records both post types and attachments. */
  lemma RefreshNeverFull(d: Demo, t: Tracker.Tracker)
    requires Truthy(Tracker.GetKey(t, "post_types")) && Truthy(Tracker.GetKey(t, "attachments"))
    ensures RefreshAsWritten(d).importStatus == NOT_IMPORTED
    ensures Refresh(d, t).importStatus == FULL_IMPORT
  {
  }

  /** Once the demo's bucket is gone both readings agree: not imported. */
  lemma RefreshAgreesWithoutHistory(d: Demo, t: Tracker.Tracker)
    requires Tracker.Bucket(t) == VNull
    ensures Refresh(d, t) == RefreshAsWritten(d)
  {
  }

  /** The constructor as written: fields set up, then the status refreshed
      by the code as written, so every demo starts out not imported and
      shows an empty status label. */
  function New(raw: Value): (d: Demo)
    ensures d.fields == SetupFields(raw)
    ensures d.importStatus == NOT_IMPORTED && !d.postTypesImported && !d.attachmentsImported
    ensures StatusText(d) == STATUS_OPEN + STATUS_CLOSE
  {
    RefreshAsWritten(Demo(false, false, NOT_IMPORTED, SetupFields(raw)))
  }

  /** The constructor with the documented refresh: the demo reads as fully
      imported exactly when its history records both post types and
      attachments. */
  function NewIntended(raw: Value, t: Tracker.Tracker): (d: Demo)
    ensures d.fields == SetupFields(raw)
    ensures d.importStatus == FULL_IMPORT <==>
              Truthy(Tracker.GetKey(t, "post_types")) && Truthy(Tracker.GetKey(t, "attachments"))
    ensures d.importStatus != FULL_IMPORT ==> StatusText(d) == STATUS_OPEN + STATUS_CLOSE
  {
    Refresh(Demo(false, false, NOT_IMPORTED, SetupFields(raw)), t)
  }

  /** A demo whose history records a full import is built as not imported
      by the constructor as written, and as fully imported by the intended
      one. */
  lemma NewNeverFull(raw: Value, t: Tracker.Tracker)
    requires Truthy(Tracker.GetKey(t, "post_types")) && Truthy(Tracker.GetKey(t, "attachments"))
    ensures New(raw).importStatus == NOT_IMPORTED
    ensures NewIntended(raw, t).importStatus == FULL_IMPORT
  {
  }

  const STATUS_OPEN := "<span class=\"demo-import-status\">"
  const STATUS_CLOSE := "</span>"

  /** `get_import_status_text`: the label inside its span. */
  function StatusText(d: Demo): (r: string)
    ensures d.importStatus == FULL_IMPORT ==> r == STATUS_OPEN + "(fully imported)" + STATUS_CLOSE
    ensures d.importStatus != FULL_IMPORT ==> r == STATUS_OPEN + STATUS_CLOSE
  {
    STATUS_OPEN + (if d.importStatus == FULL_IMPORT then "(fully imported)" else "") + STATUS_CLOSE
  }

  /** `__get`: the field, or null for an unknown name. */
  function Field(d: Demo, prop: string): (r: Value)
    ensures StrKey(prop) !in OrderedMap.Keys(d.fields) ==> r == VNull
    ensures StrKey(prop) in OrderedMap.Keys(d.fields) ==> (StrKey(prop), r) in d.fields
  {
    OrderedMap.Find(d.fields, StrKey(prop)).GetOr(VNull)
  }

  /** `__set`: a known field takes the value with its field's cast; an
      unknown name changes nothing. */
  function SetField(d: Demo, name: string, v: Value): (r: Demo)
    ensures StrKey(name) !in OrderedMap.Keys(d.fields) ==> r == d
    ensures StrKey(name) in OrderedMap.Keys(d.fields) ==>
              && Field(r, name) == Cast(name, v)
              && OrderedMap.Keys(r.fields) == OrderedMap.Keys(d.fields)
              && forall p :: p != name ==> Field(r, p) == Field(d, p)
    ensures r.(fields := d.fields) == d
  {
    if StrKey(name) !in OrderedMap.Keys(d.fields) then d
    else
      d.(fields := OrderedMap.Put(d.fields, StrKey(name), Cast(name, v)))
  }

  /** The cast `__set` applies to a field: a boolean, an integer, an
      array, or the value as given. */
  function Cast(name: string, v: Value): (c: Value)
    ensures name == "include_attachments" ==> c.VBool? && (c == VBool(true) <==> Truthy(v))
    ensures name == "attachments_batch" ==> c.VInt? && c.i == IntVal(v)
    ensures name == "tags" || name == "required_plugins" ==> c.VArr? && (v.VArr? ==> c == v)
    ensures name !in {"include_attachments", "attachments_batch", "tags", "required_plugins"} ==> c == v
  {
    match name
    case "include_attachments" => VBool(Truthy(v))
    case "attachments_batch" => VInt(IntVal(v))
    case "required_plugins" => ToArray(v)
    case "tags" => ToArray(v)
    case _ => v
  }

  /** Casting a cast value again leaves it as it is. */
  lemma CastIdempotent(name: string, v: Value)
    ensures Cast(name, Cast(name, v)) == Cast(name, v)
  {
  }

  /** The declared properties `__isset` falls back to. */
  const PROPERTIES: set<string> := {"post_types_imported", "attachments_imported", "import_status", "fields"}

  /** `__isset`: a field is set when it is not null; a declared property
      never holds null; any other name is not set. */
  function IsSetField(d: Demo, name: string): (r: bool)
    ensures StrKey(name) in OrderedMap.Keys(d.fields) ==> (r <==> Field(d, name) != VNull)
    ensures StrKey(name) !in OrderedMap.Keys(d.fields) ==> (r <==> name in PROPERTIES)
  {
    if StrKey(name) in OrderedMap.Keys(d.fields) then Field(d, name) != VNull
    else name in PROPERTIES
  }

  /** A field written through `__set` reads back through `__get` with its
      cast applied, and a second write of the same value changes nothing. */
  lemma SetFieldThenGet(d: Demo, name: string, v: Value)
    requires StrKey(name) in OrderedMap.Keys(d.fields)
    ensures name == "include_attachments" ==> Field(SetField(d, name, v), name).VBool?
    ensures name == "attachments_batch" ==> Field(SetField(d, name, v), name).VInt?
    ensures name == "tags" || name == "required_plugins" ==> Field(SetField(d, name, v), name).VArr?
    ensures SetField(SetField(d, name, v), name, Field(SetField(d, name, v), name)) == SetField(d, name, v)
  {
    var r := SetField(d, name, v);
    var x := Field(r, name);
    assert x == Cast(name, v);
    CastIdempotent(name, v);
    assert OrderedMap.Find(r.fields, StrKey(name)) == Some(x);
    OrderedMap.PutSame(r.fields, StrKey(name));
    assert SetField(r, name, x) == r.(fields := OrderedMap.Put(r.fields, StrKey(name), x));
  }

  /** `plugins`: the required plugins as an array. */
  function Plugins(d: Demo): (r: Value)
    ensures r.VArr?
    ensures Field(d, "required_plugins").VArr? ==> r == Field(d, "required_plugins")
  {
    ToArray(Field(d, "required_plugins"))
  }

  /** `trailingslashit`: trailing slashes and backslashes dropped, one
      slash added. */
  function TrailingSlash(s: string): (r: string)
    ensures r != [] && r[|r| - 1] == '/'
    ensures r[..|r| - 1] == TrimRight(s, {'/', '\\'})
  {
    TrimRight(s, {'/', '\\'}) + "/"
  }

  /** `get_demo_uploads_dir`, given the uploads base directory and the id. */
  function UploadsDir(baseDir: string, id: string): string {
    TrailingSlash(baseDir) + TMP_DIR + id
  }

  /** `get_import_xml_file`. */
  function XmlFile(baseDir: string, id: string): string {
    UploadsDir(baseDir, id) + "/full-content.xml"
  }

  /** `get_import_meta_file`. */
  function MetaFile(baseDir: string, id: string): string {
    UploadsDir(baseDir, id) + "/site-meta.json"
  }

  /** Both package files sit directly in the demo's directory, which is
      named by the id inside the temporary package directory under the
      uploads directory, and they are different files. */
  lemma PackagePaths(baseDir: string, id: string)
    ensures var dir := UploadsDir(baseDir, id);
            && StartsWith(dir, TrimRight(baseDir, {'/', '\\'}) + "/" + TMP_DIR) && EndsWith(dir, id)
            && XmlFile(baseDir, id)[..|dir| + 1] == dir + "/" && MetaFile(baseDir, id)[..|dir| + 1] == dir + "/"
    ensures XmlFile(baseDir, id) != MetaFile(baseDir, id)
  {
    var dir := UploadsDir(baseDir, id);
    var p := TrimRight(baseDir, {'/', '\\'}) + "/" + TMP_DIR;
    assert dir == p + id;
    ConcatParts(p, id);
    var x := dir + "/";
    ConcatParts(x, "full-content.xml");
    ConcatParts(x, "site-meta.json");
    assert (x + "full-content.xml")[|x|] == 'f';
  }

  /** `get_import_meta`: `decoded` is the meta file decoded as JSON (None
      when there is no file). A missing file or a non-array decodes to [],
      no key gives the whole meta, an absent key gives null. */
  function ImportMeta(decoded: Option<Value>, key: Option<string>): (r: Value)
    ensures decoded.None? || !decoded.value.VArr? ==> r == VArr([])
    ensures decoded.Some? && decoded.value.VArr? && key.None? ==> r == decoded.value
    ensures decoded.Some? && decoded.value.VArr? && key.Some? ==>
              (KeyOf(key.value) in KeysOf(decoded.value) ==> (KeyOf(key.value), r) in decoded.value.entries)
              && (KeyOf(key.value) !in KeysOf(decoded.value) ==> r == VNull)
  {
    if decoded.None? || !decoded.value.VArr? then VArr([])
    else if key.None? then decoded.value
    else OrderedMap.Find(decoded.value.entries, KeyOf(key.value)).GetOr(VNull)
  }

  /** Asking for one key reads the same value as asking for the whole meta
      and indexing it, whenever the file decodes to an array. */
  lemma ImportMetaKeyAgrees(decoded: Value, key: string)
    requires decoded.VArr?
    ensures ImportMeta(Some(decoded), Some(key)) == Get(ImportMeta(Some(decoded), None), KeyOf(key))
  {
  }
}
