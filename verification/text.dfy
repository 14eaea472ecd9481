/** String helpers with the semantics of the PHP and JavaScript string
    functions the plugin uses. Strings are sequences of characters; byte
    encodings are not modelled. */
module Text {
  import opened Wrappers

  predicate IsDigit(c: char) {
    '0' <= c <= '9'
  }

  predicate StartsWith(s: string, prefix: string) {
    |prefix| <= |s| && s[..|prefix|] == prefix
  }

  predicate EndsWith(s: string, suffix: string) {
    |suffix| <= |s| && s[|s| - |suffix|..] == suffix
  }

  /** `needle` occurs in `s` at position `i`. */
  predicate OccursAt(s: string, needle: string, i: int) {
    0 <= i && i + |needle| <= |s| && s[i..i + |needle|] == needle
  }

  predicate Contains(s: string, needle: string) {
    exists i :: 0 <= i <= |s| && OccursAt(s, needle, i)
  }

  /** Position of the first occurrence of `needle` in `s` at or after `from`. */
  function IndexFrom(s: string, needle: string, from: nat): (r: Option<nat>)
    decreases |s| - from
    ensures r.Some? ==> from <= r.value && OccursAt(s, needle, r.value)
    ensures r.Some? ==> forall j :: from <= j < r.value ==> !OccursAt(s, needle, j)
    ensures r.None? ==> forall j :: from <= j ==> !OccursAt(s, needle, j)
  {
    if from + |needle| > |s| then None
    else if s[from..from + |needle|] == needle then Some(from)
    else IndexFrom(s, needle, from + 1)
  }

  /** Position of the first occurrence of `needle` in `s`. */
  function IndexOf(s: string, needle: string): (r: Option<nat>)
    ensures r.Some? ==> OccursAt(s, needle, r.value)
    ensures r.Some? ==> forall j :: 0 <= j < r.value ==> !OccursAt(s, needle, j)
    ensures r.None? <==> !Contains(s, needle)
  {
    IndexFrom(s, needle, 0)
  }

  /** PHP's `str_replace` for one search string: every non-overlapping
      occurrence, scanning left to right, is replaced. An empty search string
      leaves the subject unchanged. */
  function ReplaceAll(s: string, from: string, to: string): (r: string)
    decreases |s|
    ensures !Contains(s, from) ==> r == s
    ensures from == [] ==> r == s
  {
    if from == [] then s
    else match IndexOf(s, from)
      case None => s
      case Some(i) => s[..i] + to + ReplaceAll(s[i + |from|..], from, to)
  }

  /** JavaScript's `String.prototype.replace` with a string pattern: only the
      first occurrence is replaced. */
  function ReplaceFirst(s: string, from: string, to: string): (r: string)
    ensures !Contains(s, from) ==> r == s
    ensures Contains(s, from) ==> exists i :: OccursAt(s, from, i) && r == s[..i] + to + s[i + |from|..]
  {
    match IndexOf(s, from)
    case None => s
    case Some(i) => s[..i] + to + s[i + |from|..]
  }

  /** Splits at every occurrence of the single character `sep`
      (PHP's `explode` and JavaScript's `split` with a one-character separator).
      The result always has one more piece than `s` has separators. */
  function Split(s: string, sep: char): (parts: seq<string>)
    ensures |parts| >= 1
    ensures forall i :: 0 <= i < |parts| ==> sep !in parts[i]
  {
    if s == [] then [""]
    else
      var rest := Split(s[1..], sep);
      if s[0] == sep then [""] + rest
      else [[s[0]] + rest[0]] + rest[1..]
  }

  /** A string without the separator is one piece. */
  lemma {:induction false} SplitWithout(s: string, sep: char)
    requires sep !in s
    ensures Split(s, sep) == [s]
  {
    if s != [] {
      assert sep !in s[1..];
      SplitWithout(s[1..], sep);
      assert [s[0]] + s[1..] == s;
    }
  }

  /** After the last separator comes the last piece. */
  lemma {:induction false} SplitLastPiece(a: string, b: string, sep: char)
    requires sep !in b
    ensures var parts := Split(a + [sep] + b, sep);
            |parts| >= 2 && Last(parts) == b
  {
    var s := a + [sep] + b;
    if a == [] {
      assert s[1..] == b;
      SplitWithout(b, sep);
    } else {
      assert s[1..] == a[1..] + [sep] + b;
      SplitLastPiece(a[1..], b, sep);
    }
  }

  /** Joins the pieces with `sep` between consecutive ones. */
  function Join(parts: seq<string>, sep: string): string {
    if parts == [] then ""
    else if |parts| == 1 then parts[0]
    else parts[0] + sep + Join(parts[1..], sep)
  }

  lemma {:induction false} JoinSplit(s: string, sep: char)
    ensures Join(Split(s, sep), [sep]) == s
  {
    if s != [] {
      JoinSplit(s[1..], sep);
      var rest := Split(s[1..], sep);
      if s[0] != sep {
        if |rest| > 1 {
          assert Join(rest, [sep]) == rest[0] + [sep] + Join(rest[1..], [sep]);
          assert Split(s, sep)[1..] == rest[1..];
        }
      }
    }
  }

  /** ASCII lower-casing (PHP's `strtolower`). */
  function ToLower(s: string): (r: string)
    ensures |r| == |s|
    ensures forall i :: 0 <= i < |s| ==> (if 'A' <= s[i] <= 'Z' then r[i] as int == s[i] as int + 32 else r[i] == s[i])
  {
    if s == [] then []
    else [if 'A' <= s[0] <= 'Z' then (s[0] as int + 32) as char else s[0]] + ToLower(s[1..])
  }

  /** PHP's `rtrim($s, $chars)`: drops trailing characters from `cs`. */
  function TrimRight(s: string, cs: set<char>): (r: string)
    ensures |r| <= |s| && r == s[..|r|]
    ensures r == [] || r[|r| - 1] !in cs
    ensures forall i :: |r| <= i < |s| ==> s[i] in cs
  {
    if s != [] && s[|s| - 1] in cs then TrimRight(s[..|s| - 1], cs) else s
  }

  /** PHP's `ltrim($s, $chars)`: drops leading characters from `cs`. */
  function TrimLeft(s: string, cs: set<char>): (r: string)
    ensures |r| <= |s| && r == s[|s| - |r|..]
    ensures r == [] || r[0] !in cs
    ensures forall i :: 0 <= i < |s| - |r| ==> s[i] in cs
  {
    if s != [] && s[0] in cs then TrimLeft(s[1..], cs) else s
  }

  /** The last element of a non-empty sequence of pieces (PHP's `end`). */
  function Last(parts: seq<string>): string
    requires |parts| >= 1
  {
    parts[|parts| - 1]
  }

  /** The decimal digit character for `d`. */
  function DigitChar(d: nat): (c: char)
    requires d < 10
    ensures IsDigit(c)
  {
    ('0' as int + d) as char
  }

  function DigitValue(c: char): (d: nat)
    requires IsDigit(c)
    ensures d < 10
  {
    c as int - '0' as int
  }

  /** Decimal rendering of a natural number, without leading zeros. */
  function NatText(n: nat): (s: string)
    decreases n
    ensures |s| >= 1
    ensures forall i :: 0 <= i < |s| ==> IsDigit(s[i])
  {
    if n < 10 then [DigitChar(n)] else NatText(n / 10) + [DigitChar(n % 10)]
  }

  /** The number a run of decimal digits denotes. */
  function DigitsValue(ds: string): nat
    requires forall i :: 0 <= i < |ds| ==> IsDigit(ds[i])
  {
    if ds == [] then 0 else DigitsValue(ds[..|ds| - 1]) * 10 + DigitValue(ds[|ds| - 1])
  }

  lemma {:induction false} NatTextRoundTrip(n: nat)
    ensures DigitsValue(NatText(n)) == n
  {
    if n >= 10 {
      NatTextRoundTrip(n / 10);
      var s := NatText(n);
      assert s[..|s| - 1] == NatText(n / 10);
    }
  }

  /** Decimal rendering of an integer, with a leading `-` for negatives
      (PHP's int-to-string conversion). */
  function IntText(i: int): (s: string)
    ensures |s| >= 1
    ensures i >= 0 <==> IsDigit(s[0])
  {
    if i < 0 then "-" + NatText(-i) else NatText(i)
  }

  /** Length of the longest prefix of `s` made of decimal digits. */
  function DigitRun(s: string): (n: nat)
    ensures n <= |s|
    ensures forall i :: 0 <= i < n ==> IsDigit(s[i])
    ensures n < |s| ==> !IsDigit(s[n])
  {
    if s == [] || !IsDigit(s[0]) then 0 else 1 + DigitRun(s[1..])
  }

  /** A run of digits followed by a non-digit ends where the digits do. */
  lemma {:induction false} DigitRunPrefix(ds: string, rest: string)
    requires forall i :: 0 <= i < |ds| ==> IsDigit(ds[i])
    requires rest == [] || !IsDigit(rest[0])
    ensures DigitRun(ds + rest) == |ds|
  {
    if ds != [] {
      assert (ds + rest)[1..] == ds[1..] + rest;
      DigitRunPrefix(ds[1..], rest);
    } else {
      assert ds + rest == rest;
    }
  }

  lemma {:induction false} DigitRunOfDigits(s: string)
    requires forall i :: 0 <= i < |s| ==> IsDigit(s[i])
    ensures DigitRun(s) == |s|
  {
    if s != [] {
      DigitRunOfDigits(s[1..]);
    }
  }

  /** The number a canonical decimal rendering denotes (digits only, no
      leading zero except in "0"); `None` for any other string. */
  function NatOfText(t: string): (r: Option<nat>)
    ensures r.Some? <==> t != [] && (forall i :: 0 <= i < |t| ==> IsDigit(t[i])) && (t[0] != '0' || |t| == 1)
    ensures r.Some? ==> NatText(r.value) == t
  {
    if t != [] && (forall i :: 0 <= i < |t| ==> IsDigit(t[i])) && (t[0] != '0' || |t| == 1) then
      CanonicalDigits(t);
      Some(DigitsValue(t))
    else None
  }

  lemma {:induction false} CanonicalDigits(t: string)
    requires t != [] && (forall i :: 0 <= i < |t| ==> IsDigit(t[i])) && (t[0] != '0' || |t| == 1)
    ensures NatText(DigitsValue(t)) == t
    ensures t[0] != '0' ==> DigitsValue(t) >= 1
    ensures |t| >= 2 ==> DigitsValue(t) >= 10
  {
    var n := |t|;
    var p := t[..n - 1];
    var c := t[n - 1];
    var d := DigitValue(c);
    assert DigitsValue(t) == DigitsValue(p) * 10 + d;
    assert DigitChar(d) == c;
    if n >= 2 {
      assert p[0] == t[0];
      CanonicalDigits(p);
      var q := DigitsValue(p);
      assert q >= 1;
      DivMod10(q, d);
      assert NatText(q * 10 + d) == NatText(q) + [DigitChar(d)];
      assert t == p + [c];
    } else {
      assert DigitsValue(p) == 0;
      assert t == [c];
    }
  }

  /** Appending a digit to a number and taking it off again. */
  lemma DivMod10(q: nat, d: nat)
    requires d < 10
    ensures (q * 10 + d) / 10 == q && (q * 10 + d) % 10 == d
  {
  }

  /** The rendering of a natural number is canonical. */
  lemma {:induction false} NatTextCanonical(n: nat)
    ensures NatOfText(NatText(n)) == Some(n)
  {
    NatTextLeading(n);
    NatTextRoundTrip(n);
  }

  lemma {:induction false} NatTextLeading(n: nat)
    ensures NatText(n)[0] != '0' || |NatText(n)| == 1
  {
    if n >= 10 {
      NatTextLeading(n / 10);
      assert NatText(n)[0] == NatText(n / 10)[0];
      if n / 10 < 10 {
        assert NatText(n / 10) == [DigitChar(n / 10)];
      }
    }
  }

  /** A concatenation splits back into its parts. */
  lemma ConcatParts<T>(a: seq<T>, b: seq<T>)
    ensures (a + b)[..|a|] == a && (a + b)[|a|..] == b
  {
  }

  /** The part of `s` after its last slash (all of `s` when it has none). */
  function AfterLastSlash(s: string): (r: string)
    ensures '/' !in r
    ensures EndsWith(s, r)
  {
    if s == [] || s[|s| - 1] == '/' then []
    else AfterLastSlash(s[..|s| - 1]) + [s[|s| - 1]]
  }

  /** PHP's `basename` for `/`-separated paths: trailing slashes dropped,
      then the part after the last slash. */
  function Basename(s: string): (r: string)
    ensures '/' !in r
  {
    AfterLastSlash(TrimRight(s, {'/'}))
  }

  /** The base name of a path is the name its last slash introduces. */
  lemma BasenameOfPath(dir: string, name: string)
    requires name != [] && '/' !in name
    ensures Basename(dir + "/" + name) == name
  {
    var p := dir + "/" + name;
    assert p[|p| - 1] == name[|name| - 1];
    AfterLastSlashOf(dir + "/", name);
  }

  lemma {:induction false} AfterLastSlashOf(prefix: string, name: string)
    requires prefix != [] && prefix[|prefix| - 1] == '/' && '/' !in name
    ensures AfterLastSlash(prefix + name) == name
  {
    if name != [] {
      var n := name[..|name| - 1];
      assert (prefix + name)[..|prefix + name| - 1] == prefix + n;
      AfterLastSlashOf(prefix, n);
    } else {
      assert prefix + name == prefix;
    }
  }

  /** A string without a trailing slash keeps everything before an added
      one when trailing slashes are trimmed. */
  lemma TrimRightSlash(dir: string)
    requires dir != [] && dir[|dir| - 1] != '/'
    ensures TrimRight(dir + "/", {'/'}) == dir
  {
    var s := dir + "/";
    var r := TrimRight(s, {'/'});
    assert |r| != |s|;
    assert s[..|dir|] == dir;
  }

  /** PHP's `dirname` for `/`-separated paths: trailing slashes and then the
      last name dropped, then the slashes before it; "." when no slash is
      left and "/" for the root. */
  function Dirname(s: string): (r: string)
    ensures s != [] ==> r != []
  {
    var t := TrimRight(s, {'/'});
    if s == [] then []
    else if t == [] then "/"
    else
      var u := t[..|t| - |AfterLastSlash(t)|];
      if u == [] then "."
      else
        var v := TrimRight(u, {'/'});
        if v == [] then "/" else v
  }

  /** The directory of a path is what precedes its last slash. */
  lemma DirnameOfPath(dir: string, name: string)
    requires dir != [] && dir[|dir| - 1] != '/'
    requires name != [] && '/' !in name
    ensures Dirname(dir + "/" + name) == dir
  {
    var s := dir + "/" + name;
    assert s[|s| - 1] == name[|name| - 1];
    assert TrimRight(s, {'/'}) == s;
    AfterLastSlashOf(dir + "/", name);
    assert s[..|s| - |name|] == dir + "/";
    TrimRightSlash(dir);
  }

  /** PHP's `basename($name, $suffix)` on a name without slashes: the
      suffix is dropped when the name ends with it and is longer. */
  function WithoutSuffix(name: string, suffix: string): (r: string)
    ensures EndsWith(name, suffix) && |suffix| < |name| ==> r + suffix == name
    ensures !(EndsWith(name, suffix) && |suffix| < |name|) ==> r == name
  {
    if EndsWith(name, suffix) && |suffix| < |name| then name[..|name| - |suffix|] else name
  }

  /** The `extension` element of PHP's `pathinfo`: what follows the last
      dot of the base name, absent when there is no dot. */
  function Extension(base: string): (r: Option<string>)
    ensures r.Some? <==> '.' in base
    ensures r.Some? ==> '.' !in r.value
  {
    if '.' in base then Some(Last(Split(base, '.'))) else None
  }

  /** The number of bytes UTF-8 takes for one character (section 3 of
      RFC 3629). */
  function Utf8Width(c: char): (n: nat)
    ensures 1 <= n <= 4
    ensures n == 1 <==> (c as int) < 0x80
  {
    if (c as int) < 0x80 then 1
    else if (c as int) < 0x800 then 2
    else if (c as int) < 0x10000 then 3
    else 4
  }

  /** PHP's `strlen` on a UTF-8 string: its length in bytes. */
  function Utf8Length(s: string): (n: nat)
    ensures |s| <= n <= 4 * |s|
  {
    if s == [] then 0 else Utf8Width(s[0]) + Utf8Length(s[1..])
  }

  /** Only an ASCII string has as many bytes as characters. */
  lemma {:induction false} Utf8LengthAscii(s: string)
    ensures Utf8Length(s) == |s| <==> forall i :: 0 <= i < |s| ==> (s[i] as int) < 0x80
  {
    if s != [] {
      Utf8LengthAscii(s[1..]);
      assert forall i :: 1 <= i < |s| ==> s[i] == s[1..][i - 1];
    }
  }

  /** Characters from U+0080 to U+07FF (Cyrillic, Greek, Hebrew, ...)
      take two bytes each. */
  lemma {:induction false} Utf8LengthTwoByte(s: string)
    requires forall i :: 0 <= i < |s| ==> 0x80 <= (s[i] as int) < 0x800
    ensures Utf8Length(s) == 2 * |s|
  {
    if s != [] {
      assert forall i :: 0 <= i < |s[1..]| ==> s[1..][i] == s[i + 1];
      Utf8LengthTwoByte(s[1..]);
    }
  }
}
