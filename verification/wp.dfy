/** The host CMS reduced to the stores the plugin reads and writes: named
    options (also used for theme modifications) and object meta tables. */
module Wp {
  import opened Wrappers
  import OrderedMap
  import opened Php
  import Text

  /** A store of named values in insertion order (`wp_options`, theme mods). */
  type Options = seq<(string, Value)>

  /** `get_option($name, $default)`: the stored value, or `default` when the
      option does not exist. */
  function GetOption(o: Options, name: string, default: Value): (r: Value)
    ensures name !in OrderedMap.Keys(o) ==> r == default
    ensures name in OrderedMap.Keys(o) ==> (name, r) in o
  {
    OrderedMap.Find(o, name).GetOr(default)
  }

  /** `update_option($name, $value)`. */
  function UpdateOption(o: Options, name: string, v: Value): (r: Options)
    ensures forall d :: GetOption(r, name, d) == v
    ensures forall n, d :: n != name ==> GetOption(r, n, d) == GetOption(o, n, d)
  {
    OrderedMap.Put(o, name, v)
  }

  /** One row of a post or term meta table. */
  datatype MetaRow = MetaRow(objectId: int, key: string, value: string)

  /** `delete_metadata($type, 0, $key, $value, true)`: deletes, across all
      objects, every row with that key and value. */
  function DeleteMetadataAll(rows: seq<MetaRow>, key: string, value: string): (r: seq<MetaRow>)
    ensures forall row :: row in r <==> row in rows && !(row.key == key && row.value == value)
    ensures |r| <= |rows|
  {
    if rows == [] then []
    else if rows[0].key == key && rows[0].value == value then DeleteMetadataAll(rows[1..], key, value)
    else [rows[0]] + DeleteMetadataAll(rows[1..], key, value)
  }

  /** The objects carrying meta `key` with value `value`, in table order
      (the ids a `meta_query` with `=` comparison selects). */
  function ObjectsWithMeta(rows: seq<MetaRow>, key: string, value: string): (ids: seq<int>)
    ensures forall id :: id in ids <==> exists row :: row in rows && row.objectId == id && row.key == key && row.value == value
  {
    if rows == [] then []
    else
      var rest := ObjectsWithMeta(rows[1..], key, value);
      if rows[0].key == key && rows[0].value == value then [rows[0].objectId] + rest else rest
  }

  /** The characters a sanitised key may hold. */
  predicate KeyChar(c: char) {
    'a' <= c <= 'z' || '0' <= c <= '9' || c == '_' || c == '-'
  }

  /** ASCII lower-casing of one character. */
  function LowerChar(c: char): char {
    if 'A' <= c <= 'Z' then (c as int + 32) as char else c
  }

  /** `sanitize_key`: lower-cased, then every character outside
      `[a-z0-9_-]` dropped. */
  function SanitizeKey(s: string): (r: string)
    ensures |r| <= |s|
    ensures forall i :: 0 <= i < |r| ==> KeyChar(r[i])
  {
    if s == [] then []
    else (if KeyChar(LowerChar(s[0])) then [LowerChar(s[0])] else []) + SanitizeKey(s[1..])
  }

  /** A string is left as it is exactly when it already consists of key
      characters. */
  lemma {:induction false} SanitizeKeyFixed(s: string)
    ensures SanitizeKey(s) == s <==> forall i :: 0 <= i < |s| ==> KeyChar(s[i])
  {
    if s != [] && forall i :: 0 <= i < |s| ==> KeyChar(s[i]) {
      assert forall i :: 0 <= i < |s[1..]| ==> KeyChar(s[1..][i]);
      SanitizeKeyFixed(s[1..]);
      assert LowerChar(s[0]) == s[0];
    }
  }

  /** Sanitising twice is sanitising once. */
  lemma SanitizeKeyIdempotent(s: string)
    ensures SanitizeKey(SanitizeKey(s)) == SanitizeKey(s)
  {
    SanitizeKeyFixed(SanitizeKey(s));
  }

  /** Every letter survives lower-cased, in order: an upper-case key and
      its lower-case spelling sanitise alike. */
  lemma {:induction false} SanitizeKeyIgnoresCase(s: string)
    ensures SanitizeKey(s) == SanitizeKey(seq(|s|, i requires 0 <= i < |s| => LowerChar(s[i])))
  {
    var l := seq(|s|, i requires 0 <= i < |s| => LowerChar(s[i]));
    if s != [] {
      var l' := seq(|s[1..]|, i requires 0 <= i < |s[1..]| => LowerChar(s[1..][i]));
      assert l[1..] == l';
      assert LowerChar(l[0]) == LowerChar(s[0]);
      SanitizeKeyIgnoresCase(s[1..]);
    }
  }

  /** `wp_parse_args($data, $defaults)` for arrays: the defaults, with every
      entry of `data` written over them in order. */
  function ParseArgs(data: seq<(Key, Value)>, defaults: seq<(Key, Value)>): (r: seq<(Key, Value)>)
    ensures forall k :: OrderedMap.Find(r, k) ==
              if OrderedMap.FindLast(data, k).Some? then OrderedMap.FindLast(data, k) else OrderedMap.Find(defaults, k)
  {
    OrderedMap.PutAll(defaults, data)
  }

  /** The characters PHP's `trim` drops by default. */
  const TRIM_CHARS: set<char> := {' ', '\t', '\n', '\r', 0 as char, 11 as char}

  /** PHP's `trim($s)`. */
  function Trim(s: string): (r: string)
    ensures r == [] || (r[0] !in TRIM_CHARS && r[|r| - 1] !in TRIM_CHARS)
  {
    Text.TrimRight(Text.TrimLeft(s, TRIM_CHARS), TRIM_CHARS)
  }

  /** `X:<digits>:` at the start of `t`, the prefix `is_serialized` asks of a
      string, an array or an object. */
  predicate CountPrefix(t: string) {
    |t| > 2 && 0 < Text.DigitRun(t[2..]) < |t| - 2 && t[2 + Text.DigitRun(t[2..])] == ':'
  }

  /** The characters `is_serialized` allows in a serialised scalar. */
  predicate ScalarChar(c: char) {
    Text.IsDigit(c) || c == '.' || c == 'E' || c == '+' || c == '-'
  }

  /** `is_serialized($data)` in its default strict mode, for a string:
      after trimming, `N;`, or at least four characters with `:` second and
      `;` or `}` last, whose type letter and prefix match a serialised form
      (`s:` also needs `"` second to last; `b:`, `i:`, `d:` need only number
      characters up to the closing `;`). */
  predicate IsSerialized(s: string) {
    SerializedForm(Trim(s))
  }

  /** The test `is_serialized` makes of the trimmed text. */
  predicate SerializedForm(t: string) {
    if t == "N;" then true
    else if |t| < 4 || t[1] != ':' || (t[|t| - 1] != ';' && t[|t| - 1] != '}') then false
    else if t[0] == 's' then t[|t| - 2] == '"' && CountPrefix(t)
    else if t[0] == 'a' || t[0] == 'O' || t[0] == 'E' then CountPrefix(t)
    else if t[0] == 'b' || t[0] == 'i' || t[0] == 'd' then
      t[|t| - 1] == ';' && forall i :: 2 <= i < |t| - 1 ==> ScalarChar(t[i])
    else false
  }

  /** `maybe_unserialize($v)`: serialised text is trimmed and handed to
      PHP's `unserialize`, which is a parameter here (it gives `false` for
      text it cannot read); every other value is returned as it is. */
  function MaybeUnserialize(unserialize: string -> Value, v: Value): Value {
    if v.VStr? && IsSerialized(v.s) then unserialize(Trim(v.s)) else v
  }

  /** Text with neither `:` nor `;` is never taken for serialised data, so
      `maybe_unserialize` returns it unchanged: a class name, a slug, an id. */
  lemma PlainTextKept(unserialize: string -> Value, s: string)
    requires forall i :: 0 <= i < |s| ==> s[i] != ':' && s[i] != ';'
    ensures MaybeUnserialize(unserialize, VStr(s)) == VStr(s)
  {
    var l := Text.TrimLeft(s, TRIM_CHARS);
    var t := Text.TrimRight(l, TRIM_CHARS);
    assert forall i :: 0 <= i < |t| ==> t[i] == l[i] == s[|s| - |l| + i];
    PlainNotSerialized(t);
  }

  /** The trimmed-text test fails on text with neither `:` nor `;`. */
  lemma PlainNotSerialized(t: string)
    requires forall i :: 0 <= i < |t| ==> t[i] != ':' && t[i] != ';'
    ensures !SerializedForm(t)
  {
    if |t| >= 2 {
      assert t[1] != ';';
    }
  }

  /** Serialised arrays, as an export writes a list of CSS classes
      (`a:1:{i:0;s:4:"menu";}`), are read by `unserialize`. */
  lemma SerialisedArrayRead(unserialize: string -> Value, count: string, body: string)
    requires count != [] && forall i :: 0 <= i < |count| ==> Text.IsDigit(count[i])
    ensures var t := "a:" + count + ":{" + body + "}";
            MaybeUnserialize(unserialize, VStr(t)) == unserialize(t)
  {
    var rest := ":{" + body + "}";
    var t := "a:" + (count + rest);
    assert t == "a:" + count + ":{" + body + "}";
    assert t[0] == 'a' && t[1] == ':' && t[|t| - 1] == '}' && |t| >= 6;
    TrimKeeps(t);
    ArrayPrefix(count, rest);
    ArrayIsSerialized(t);
  }

  /** The array form of `is_serialized`. */
  lemma ArrayIsSerialized(t: string)
    requires |t| >= 4 && t[0] == 'a' && t[1] == ':' && t[|t| - 1] == '}' && CountPrefix(t)
    ensures SerializedForm(t)
  {
    assert t != "N;";
  }

  /** Text that starts and ends outside the trimmed characters is its own trim. */
  lemma TrimKeeps(t: string)
    requires t != [] && t[0] !in TRIM_CHARS && t[|t| - 1] !in TRIM_CHARS
    ensures Trim(t) == t
  {
    assert Text.TrimLeft(t, TRIM_CHARS) == t;
  }

  /** `a:<digits>:` followed by anything has the count prefix. */
  lemma ArrayPrefix(count: string, rest: string)
    requires count != [] && forall i :: 0 <= i < |count| ==> Text.IsDigit(count[i])
    requires rest != [] && rest[0] == ':'
    ensures CountPrefix("a:" + (count + rest))
  {
    var t := "a:" + (count + rest);
    assert t[2..] == count + rest;
    Text.DigitRunPrefix(count, rest);
    assert t[2 + |count|] == rest[0];
  }
}
