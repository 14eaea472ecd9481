/** PHP values as the plugin sees them: scalars and ordered arrays, with the
    conversions (`empty`, `isset`, `??`, casts) the source relies on. */
module Php {
  import opened Wrappers
  import OrderedMap
  import opened Text

  /** An array key. PHP normalises decimal-integer strings to integer keys;
      callers build keys already normalised. */
  datatype Key = IntKey(n: int) | StrKey(s: string)

  datatype Value =
    | VNull
    | VBool(b: bool)
    | VInt(i: int)
    | VFloat(f: real)
    | VStr(s: string)
    | VArr(entries: seq<(Key, Value)>)

  /** PHP boolean conversion: `null`, `false`, `0`, `0.0`, `''`, `'0'` and the
      empty array are false, everything else is true. `empty($x)` is its negation. */
  predicate Truthy(v: Value) {
    match v
    case VNull => false
    case VBool(b) => b
    case VInt(i) => i != 0
    case VFloat(f) => f != 0.0
    case VStr(s) => s != "" && s != "0"
    case VArr(e) => |e| > 0
  }

  /** The entries of an array; a non-array has none. */
  function Entries(v: Value): seq<(Key, Value)> {
    if v.VArr? then v.entries else []
  }

  /** `$v[$k] ?? null`: the element under `k`, or `VNull` when `v` is not an
      array or has no such key. */
  function Get(v: Value, k: Key): (r: Value)
    ensures !v.VArr? ==> r == VNull
    ensures v.VArr? && k !in OrderedMap.Keys(v.entries) ==> r == VNull
    ensures v.VArr? && k in OrderedMap.Keys(v.entries) ==> (k, r) in v.entries
  {
    if v.VArr? then OrderedMap.Find(v.entries, k).GetOr(VNull) else VNull
  }

  /** The key `$a[$s]` uses for a string: a canonical decimal integer
      ("0", "42", "-7", but not "007" or "+1") becomes an integer key, any
      other string stays a string key. */
  function KeyOf(s: string): (k: Key)
    ensures k.StrKey? ==> k.s == s
    ensures k.IntKey? ==> IntText(k.n) == s
  {
    if s != [] && s[0] == '-' then
      match NatOfText(s[1..])
      case Some(n) => if n > 0 then IntKey(-(n as int)) else StrKey(s)
      case None => StrKey(s)
    else
      match NatOfText(s)
      case Some(n) => IntKey(n)
      case None => StrKey(s)
  }

  /** A key written back as a string, as `foreach ($a as $k => ...)` passes
      it to a function expecting a name. */
  function KeyText(k: Key): (s: string)
    ensures k.StrKey? ==> s == k.s
  {
    match k
    case IntKey(n) => IntText(n)
    case StrKey(s) => s
  }

  /** A name that starts with neither a digit nor a minus sign is a string
      key, and a normalised one. */
  lemma WordKey(s: string)
    requires s != [] && !IsDigit(s[0]) && s[0] != '-'
    ensures KeyOf(s) == StrKey(s) && Normalised(StrKey(s))
  {
  }

  /** Every integer key is normalised: its text reads back as itself. */
  lemma IntKeyNormalised(n: int)
    ensures Normalised(IntKey(n))
  {
    if n >= 0 {
      NatTextCanonical(n);
    } else {
      NatTextCanonical(-n);
      assert IntText(n)[1..] == NatText(-n);
    }
  }

  /** The key an arbitrary value selects when used as an array index: null is
      the empty string, booleans and floats become integers, strings are
      normalised by `KeyOf`. An array is not a valid key (`None`). */
  function ArrayKey(v: Value): (r: Option<Key>)
    ensures r.None? <==> v.VArr?
    ensures v.VInt? ==> r == Some(IntKey(v.i))
    ensures v.VStr? ==> r == Some(KeyOf(v.s))
  {
    match v
    case VNull => Some(StrKey(""))
    case VBool(b) => Some(IntKey(if b then 1 else 0))
    case VInt(i) => Some(IntKey(i))
    case VFloat(f) => Some(IntKey(Truncate(f)))
    case VStr(s) => Some(KeyOf(s))
    case VArr(_) => None
  }

  /** A key as PHP stores it: an integer-looking string is never a string key. */
  predicate Normalised(k: Key) {
    KeyOf(KeyText(k)) == k
  }

  /** Entries PHP could hold in one array: distinct, normalised keys. */
  predicate WellKeyed(e: seq<(Key, Value)>) {
    OrderedMap.Valid(e) && forall i :: 0 <= i < |e| ==> Normalised(e[i].0)
  }

  /** Writing a normalised key keeps an array well keyed. */
  lemma PutKeepsWellKeyed(e: seq<(Key, Value)>, k: Key, v: Value)
    requires WellKeyed(e) && Normalised(k)
    ensures WellKeyed(OrderedMap.Put(e, k, v))
  {
    OrderedMap.PutKeepsValid(e, k, v);
    var r := OrderedMap.Put(e, k, v);
    forall i | 0 <= i < |r| ensures Normalised(r[i].0) {
      assert OrderedMap.Keys(r)[i] == r[i].0;
      if i < |e| {
        assert OrderedMap.Keys(e)[i] == e[i].0;
      }
    }
  }

  /** A key as a value, as `foreach ($a as $k => ...)` or `array_keys`
      hands it out. */
  function KeyValue(k: Key): (v: Value)
    ensures ArrayKey(v) == Some(KeyOf(KeyText(k)))
  {
    match k
    case IntKey(n) => IntKeyNormalised(n); VInt(n)
    case StrKey(s) => VStr(s)
  }

  /** A value that could be a PHP array. */
  predicate PhpArray(v: Value) {
    v.VArr? && WellKeyed(v.entries)
  }

  /** Normalised keys with the same text are the same key. */
  lemma KeyTextInjective(a: Key, b: Key)
    requires Normalised(a) && Normalised(b) && KeyText(a) == KeyText(b)
    ensures a == b
  {
    assert a == KeyOf(KeyText(a)) == KeyOf(KeyText(b)) == b;
  }

  /** Reading a key back from its text gives the key. */
  lemma KeyOfKeyText(s: string)
    ensures KeyText(KeyOf(s)) == s
  {
  }

  /** Shorthand for a string key. */
  function At(v: Value, k: string): Value {
    Get(v, StrKey(k))
  }

  /** `isset($v[$k])`: the key exists and its value is not null. */
  predicate IsSet(v: Value, k: Key) {
    Get(v, k) != VNull
  }

  /** `$a ?? $d` once the left side has been read. */
  function Coalesce(v: Value, d: Value): (r: Value)
    ensures r == VNull ==> d == VNull
  {
    if v.VNull? then d else v
  }

  /** `$v[s0][s1]...[sn] ?? null`: descends while the current value is an array
      holding the next key. */
  function Path(v: Value, path: seq<Key>): (r: Value)
    decreases path
    ensures path == [] ==> r == v
  {
    if path == [] then v else Path(Get(v, path[0]), path[1..])
  }

  /** `$v[$k] = $x`. A non-array `v` is first replaced by an empty array, as
      PHP does for null. */
  function Set(v: Value, k: Key, x: Value): (r: Value)
    ensures r.VArr?
    ensures Get(r, k) == x
    ensures forall k' :: k' != k ==> Get(r, k') == Get(v, k')
    ensures KeysOf(r) == if k in KeysOf(v) then KeysOf(v) else KeysOf(v) + [k]
  {
    VArr(OrderedMap.Put(Entries(v), k, x))
  }

  /** Writing back the value an array already holds changes nothing. */
  lemma SetSame(v: Value, k: Key)
    requires v.VArr? && IsSet(v, k)
    ensures Set(v, k, Get(v, k)) == v
  {
    OrderedMap.PutSame(v.entries, k);
  }

  /** Writing keeps the keys distinct. */
  lemma SetKeepsValid(v: Value, k: Key, x: Value)
    requires OrderedMap.Valid(Entries(v))
    ensures OrderedMap.Valid(Set(v, k, x).entries)
  {
    OrderedMap.PutKeepsValid(Entries(v), k, x);
  }

  /** `unset($v[$k])`; a non-array is left as it is. */
  function Unset(v: Value, k: Key): (r: Value)
    ensures Get(r, k) == VNull
    ensures forall k' :: k' != k ==> Get(r, k') == Get(v, k')
  {
    if v.VArr? then VArr(OrderedMap.Remove(v.entries, k)) else v
  }

  /** The keys of an array in order (`array_keys`). */
  function KeysOf(v: Value): seq<Key> {
    OrderedMap.Keys(Entries(v))
  }

  /** The values of an array in order (`array_values`). */
  function ValuesOf(v: Value): seq<Value> {
    OrderedMap.Values(Entries(v))
  }

  /** A list: the values under keys 0, 1, 2, ... */
  function List(vs: seq<Value>): (r: Value)
    ensures r.VArr? && |r.entries| == |vs|
    ensures forall i :: 0 <= i < |vs| ==> r.entries[i] == (IntKey(i), vs[i])
  {
    VArr(seq(|vs|, i requires 0 <= i < |vs| => (IntKey(i), vs[i])))
  }

  lemma ListValues(vs: seq<Value>)
    ensures ValuesOf(List(vs)) == vs
  {
  }

  /** `(bool)` cast. */
  function ToBool(v: Value): bool {
    Truthy(v)
  }

  /** Decimal rendering of a float. Integral values are written without a
      fraction (PHP writes `480.0` as `480`); other values with up to 14
      fractional digits, trailing zeros dropped. */
  function FloatText(f: real): string {
    if f < 0.0 then "-" + MagnitudeText(-f) else MagnitudeText(f)
  }

  function MagnitudeText(f: real): string
    requires f >= 0.0
  {
    var whole := f.Floor;
    if whole as real == f then IntText(whole)
    else IntText(whole) + "." + TrimZeros(FractionDigits(f - whole as real, 14))
  }

  function FractionDigits(x: real, n: nat): string
    requires 0.0 <= x < 1.0
    decreases n
  {
    if n == 0 || x == 0.0 then ""
    else
      var d := (x * 10.0).Floor;
      [DigitChar(d)] + FractionDigits(x * 10.0 - d as real, n - 1)
  }

  function TrimZeros(s: string): string {
    if s != [] && s[|s| - 1] == '0' then TrimZeros(s[..|s| - 1]) else s
  }

  /** `(string)` cast. Arrays become the word "Array". */
  function ToStr(v: Value): string {
    match v
    case VNull => ""
    case VBool(b) => if b then "1" else ""
    case VInt(i) => IntText(i)
    case VFloat(f) => FloatText(f)
    case VStr(s) => s
    case VArr(_) => "Array"
  }

  /** The numeric prefix of a string after optional white space and sign,
      read as PHP's `(int)` and `floatval` read it: digits with an optional
      fraction and an optional exponent; 0 when there is no digit. */
  function LeadingNumber(s: string): real {
    var t := SkipSpace(s);
    var u := if t != [] && (t[0] == '-' || t[0] == '+') then t[1..] else t;
    match UnsignedDecimal(u)
    case None => 0.0
    case Some(p) => if t != [] && t[0] == '-' then -p.0 else p.0
  }

  /** The part of a numeric string after its sign: digits with an optional
      fraction, at least one digit in all, then an optional exponent. The
      value and the text after it, or `None` when there is no digit. */
  function UnsignedDecimal(u: string): (r: Option<(real, string)>)
    ensures r.Some? ==> |r.value.1| < |u|
  {
    var n := DigitRun(u);
    if n < |u| && u[n] == '.' then AfterPoint(DigitsValue(u[..n]) as real, n, u[n + 1..])
    else if n == 0 then None
    else Some(Exponent(DigitsValue(u[..n]) as real, u[n..]))
  }

  /** What follows the decimal point of a number with `n` digits before
      it and the value `whole`: the fraction's digits (at least one digit
      in all), then an optional exponent. */
  function AfterPoint(whole: real, n: nat, f: string): (r: Option<(real, string)>)
    ensures r.Some? ==> |r.value.1| <= |f|
  {
    var m := DigitRun(f);
    if n + m == 0 then None else Some(Exponent(whole + Fraction(f[..m]), f[m..]))
  }

  /** An exponent `e`/`E`, an optional sign and at least one digit scale
      the mantissa; anything else is left for the caller. */
  function Exponent(mantissa: real, rest: string): (r: (real, string))
    ensures |r.1| <= |rest|
    ensures rest == [] ==> r == (mantissa, rest)
  {
    if rest != [] && (rest[0] == 'e' || rest[0] == 'E') then
      var signed := |rest| > 1 && (rest[1] == '+' || rest[1] == '-');
      var ds := if signed then rest[2..] else rest[1..];
      var k := DigitRun(ds);
      if k == 0 then (mantissa, rest)
      else
        var e := DigitsValue(ds[..k]);
        (if signed && rest[1] == '-' then mantissa / Pow10(e) as real else mantissa * Pow10(e) as real, ds[k..])
    else (mantissa, rest)
  }

  predicate AllSpace(s: string) {
    forall i :: 0 <= i < |s| ==> IsSpace(s[i])
  }

  /** PHP 8's numeric strings: optional leading white space, an optional
      sign, a decimal number, optional trailing white space; the number it
      denotes, or `None` for any other string. */
  function NumericString(s: string): Option<real> {
    var t := SkipSpace(s);
    var u := if t != [] && (t[0] == '-' || t[0] == '+') then t[1..] else t;
    match UnsignedDecimal(u)
    case None => None
    case Some(p) =>
      if !AllSpace(p.1) then None
      else Some(if t != [] && t[0] == '-' then -p.0 else p.0)
  }

  /** `$i == $s` for an integer and a string under PHP 8: numerically when
      the string is numeric, otherwise as strings. */
  predicate LooseEqIntString(i: int, s: string) {
    match NumericString(s)
    case Some(v) => v == i as real
    case None => IntText(i) == s
  }

  /** A string that starts with a digit has nothing to skip. */
  lemma SkipDigitStart(s: string)
    requires s != [] && IsDigit(s[0])
    ensures SkipSpace(s) == s
  {
  }

  /** A decimal run of digits reads as its value, with nothing after it. */
  lemma {:induction false} UnsignedDecimalOfDigits(t: string)
    requires t != [] && forall i :: 0 <= i < |t| ==> IsDigit(t[i])
    ensures UnsignedDecimal(t) == Some((DigitsValue(t) as real, ""))
  {
    DigitRunOfDigits(t);
    assert t[..|t|] == t && t[|t|..] == "";
  }

  /** A number with a decimal point reads on after the point. */
  lemma DecimalPoint(u: string, n: nat)
    requires n < |u| && DigitRun(u) == n && u[n] == '.'
    ensures UnsignedDecimal(u) == AfterPoint(DigitsValue(u[..n]) as real, n, u[n + 1..])
  {
  }

  /** A fraction that is the single digit 0 adds nothing. */
  lemma AfterPointZero(whole: real, n: nat)
    ensures AfterPoint(whole, n, "0") == Some((whole, ""))
  {
    var f := "0";
    assert DigitRun(f) == 1;
    assert f[..1] == f && f[1..] == [];
    assert DigitsValue(f) == 0 by {
      assert DigitsValue(f) == DigitsValue(f[..0]) * 10 + DigitValue(f[0]);
    }
    assert Pow10(|f|) == 10;
    assert Fraction(f) == 0.0;
    var r := AfterPoint(whole, n, f);
    assert r.Some? && r.value.1 == [] && r.value.0 == whole;
  }

  /** The rendering of an integer is a numeric string denoting it. */
  lemma {:induction false} IntTextNumeric(i: int)
    ensures NumericString(IntText(i)) == Some(i as real)
  {
    var n: nat := if i < 0 then -i else i;
    var t := NatText(n);
    NatTextRoundTrip(n);
    UnsignedDecimalOfDigits(t);
    if i < 0 {
      var u := "-" + t;
      assert IntText(i) == u && u[1..] == t;
      assert SkipSpace(u) == u;
    } else {
      SkipDigitStart(t);
    }
  }

  /** A non-numeric string never loosely equals an integer: the integer's
      rendering is numeric. */
  lemma LooseEqIntNumeric(i: int, s: string)
    ensures LooseEqIntString(i, s) <==> NumericString(s) == Some(i as real)
  {
    if NumericString(s).None? {
      IntTextNumeric(i);
    }
  }

  /** The white-space characters PHP skips before a numeric string. */
  predicate IsSpace(c: char) {
    c == ' ' || c == '\t' || c == '\n' || c == '\r' || c == 11 as char || c == 12 as char
  }

  function SkipSpace(s: string): (t: string)
    ensures |t| <= |s|
  {
    if s != [] && IsSpace(s[0]) then SkipSpace(s[1..]) else s
  }

  /** The value of the digits after a decimal point. */
  function Fraction(digits: string): (r: real)
    requires forall i :: 0 <= i < |digits| ==> IsDigit(digits[i])
    ensures r >= 0.0
  {
    DigitsValue(digits) as real / Pow10(|digits|) as real
  }

  function Pow10(n: nat): (r: nat)
    ensures r >= 1
  {
    if n == 0 then 1 else 10 * Pow10(n - 1)
  }

  /** Truncation toward zero, as PHP's float-to-int conversion. */
  function Truncate(f: real): int {
    if f >= 0.0 then f.Floor else -((-f).Floor)
  }

  /** `floatval` / `(float)` cast. */
  function FloatVal(v: Value): real {
    match v
    case VNull => 0.0
    case VBool(b) => if b then 1.0 else 0.0
    case VInt(i) => i as real
    case VFloat(f) => f
    case VStr(s) => LeadingNumber(s)
    case VArr(e) => if |e| > 0 then 1.0 else 0.0
  }

  /** `(int)` cast. */
  function IntVal(v: Value): int {
    match v
    case VNull => 0
    case VBool(b) => if b then 1 else 0
    case VInt(i) => i
    case VFloat(f) => Truncate(f)
    case VStr(s) => Truncate(LeadingNumber(s))
    case VArr(e) => if |e| > 0 then 1 else 0
  }

  /** `(array)` cast: an array stays, null becomes [], a scalar becomes [scalar]. */
  function ToArray(v: Value): (r: Value)
    ensures r.VArr?
    ensures v.VArr? ==> r == v
    ensures v == VNull ==> r == VArr([])
    ensures !v.VArr? && v != VNull ==> r.entries == [(IntKey(0), v)]
  {
    match v
    case VArr(_) => v
    case VNull => VArr([])
    case _ => List([v])
  }

  /** A numeric string's prefix is the whole string: the casts read the
      number it denotes. */
  lemma LeadingNumberOfNumeric(s: string)
    requires NumericString(s).Some?
    ensures LeadingNumber(s) == NumericString(s).value
  {
  }

  /** Reading a rendered integer back gives the integer: `(int)(string)$i == $i`. */
  lemma IntTextRoundTrip(i: int)
    ensures IntVal(VStr(IntText(i))) == i
  {
    IntTextNumeric(i);
    LeadingNumberOfNumeric(IntText(i));
  }

  /** `floatval` reads an exponent: `floatval("1e5")` is 100000 and
      `floatval("1e3")` is 1000, not 1. */
  lemma FloatExponentRead()
    ensures FloatVal(VStr("1e5")) == 100000.0
    ensures FloatVal(VStr("1e3")) == 1000.0
  {
    ExponentOne("1e5", 5);
    ExponentOne("1e3", 3);
  }

  /** `(int)` reads an exponent: `(int)"1e3"` is 1000, not 1. */
  lemma IntExponentRead()
    ensures IntVal(VStr("1e3")) == 1000
  {
    ExponentOne("1e3", 3);
  }

  /** `1e<d>` for one digit d reads as 10 to the d. */
  lemma ExponentOne(s: string, d: nat)
    requires d < 10 && s == ['1', 'e', DigitChar(d)]
    ensures LeadingNumber(s) == Pow10(d) as real
  {
    assert SkipSpace(s) == s;
    assert DigitRun(s) == 1 by { assert DigitRun(s[1..]) == 0; }
    assert s[..1] == "1" && s[1..] == ['e', DigitChar(d)];
    assert DigitsValue("1") == 1 by { assert "1"[..0] == []; }
    var ds := [DigitChar(d)];
    assert DigitRun(ds) == 1 by { assert DigitRun(ds[1..]) == 0; }
    assert ds[..1] == ds && ds[1..] == [];
    assert DigitsValue(ds) == d by { assert ds[..0] == []; }
    assert Exponent(1.0, s[1..]) == (Pow10(d) as real, []);
  }

  /** `$v == 'w'` (PHP 8 loose comparison) for a word `w` that is not a
      numeric string, as `in_array` and `switch` compare: a string equals it
      when it is the same string, a boolean when it is the word's truth
      value, null only the empty word; numbers and arrays never do. */
  predicate LooseEqWord(v: Value, w: string) {
    v == VStr(w) || v == VBool(w != "" && w != "0") || (v == VNull && w == "")
  }
}
