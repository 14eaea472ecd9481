/** The user-defined responsive breakpoints: their defaults, the active
    subset, the sanitiser run when the settings page saves them, how a
    block's breakpoint name resolves to a switch width
    (CssMediaBreakpoints), and the list handed to the editor script. */
module Breakpoints {
  import opened Wrappers
  import OrderedMap
  import opened Php
  import opened Text
  import Wp
  import Settings

  type Arr = OrderedMap.Assoc<Key, Value>

  const NAME := StrKey("name")
  const VALUE := StrKey("value")
  const UNIT := StrKey("unit")
  const ACTIVE := StrKey("active")

  /** The units a breakpoint may use. */
  const UNITS: seq<string> := ["px", "em", "rem", "vw", "vh"]

  /** The reserved breakpoint name whose width the block supplies itself. */
  const CUSTOM := "custom"

  /** A default breakpoint: active, in pixels, with its width as a string. */
  function DefaultEntry(name: string, width: string): Value {
    Set(Set(Set(Set(VArr([]), NAME, VStr(name)), VALUE, VStr(width)), UNIT, VStr("px")), ACTIVE, VBool(true))
  }

  /** `get_default_user_defined_breakpoints` (names untranslated). */
  const DEFAULTS: Arr := OrderedMap.Put(OrderedMap.Put([], StrKey("mobile"), DefaultEntry("Mobile", "480")), StrKey("tablet"), DefaultEntry("Tablet", "960"))

  /** `get_user_defined_breakpoints`: the stored option cast to an array,
      the defaults while the option does not exist. */
  function Stored(o: Wp.Options): (r: Arr)
    ensures Settings.BREAKPOINTS_OPTION !in OrderedMap.Keys(o) ==> r == DEFAULTS
  {
    Entries(ToArray(Wp.GetOption(o, Settings.BREAKPOINTS_OPTION, VArr(DEFAULTS))))
  }

  /** Saving breakpoints and reading them back gives what was saved. */
  lemma StoredAfterSave(o: Wp.Options, e: Arr)
    ensures Stored(Wp.UpdateOption(o, Settings.BREAKPOINTS_OPTION, VArr(e))) == e
  {
  }

  /** The callback of `get_active_user_defined_breakpoints`: `$item['active']`. */
  predicate IsActive(b: Value) {
    Truthy(At(b, "active"))
  }

  /** `array_filter` with that callback: the active breakpoints, keys and
      order kept. */
  function Active(e: Arr): (r: Arr)
    ensures |r| <= |e|
    ensures forall k :: k in OrderedMap.Keys(r) ==> k in OrderedMap.Keys(e)
    ensures OrderedMap.Valid(e) ==> OrderedMap.Valid(r)
    ensures OrderedMap.Valid(e) ==> forall k ::
              OrderedMap.Find(r, k) == if OrderedMap.Find(e, k).Some? && IsActive(OrderedMap.Find(e, k).value) then OrderedMap.Find(e, k) else None
  {
    if e == [] then []
    else
      var rest := Active(e[1..]);
      assert OrderedMap.Keys(e) == [e[0].0] + OrderedMap.Keys(e[1..]);
      assert OrderedMap.Valid(e) ==> OrderedMap.Valid(e[1..]) && e[0].0 !in OrderedMap.Keys(e[1..]) by {
        if OrderedMap.Valid(e) {
          OrderedMap.ValidTail(e);
        }
      }
      if IsActive(e[0].1) then
        assert OrderedMap.Keys([e[0]] + rest) == [e[0].0] + OrderedMap.Keys(rest);
        [e[0]] + rest
      else rest
  }

  /** `get_active_user_defined_breakpoints`. */
  function ActiveBreakpoints(o: Wp.Options): Arr {
    Active(Stored(o))
  }

  /** `in_array($v, $words)` with PHP's loose comparison. */
  predicate InArrayLoose(v: Value, words: seq<string>)
    decreases |words|
  {
    words != [] && (LooseEqWord(v, words[0]) || InArrayLoose(v, words[1..]))
  }

  /** Against words that are neither empty nor "0", `in_array` holds for
      one of the words itself or for `true`. */
  lemma {:induction false} InArrayLooseWords(v: Value, words: seq<string>)
    requires forall i :: 0 <= i < |words| ==> words[i] != "" && words[i] != "0"
    decreases |words|
    ensures InArrayLoose(v, words) <==> words != [] && (v == VBool(true) || (v.VStr? && v.s in words))
  {
    if words != [] {
      InArrayLooseWords(v, words[1..]);
      assert v.VStr? && v.s in words ==> v.s == words[0] || v.s in words[1..];
    }
  }

  /** A unit passes `in_array` exactly when it is one of the unit strings
      or `true`, which loosely equals every non-empty string. */
  lemma UnitCheck(u: Value)
    ensures InArrayLoose(u, UNITS) <==> u == VBool(true) || (u.VStr? && u.s in UNITS)
  {
    var w := UNITS;
    assert forall i :: 0 <= i < |w| ==> |w[i]| >= 2;
    InArrayLooseWords(u, UNITS);
  }

  /** The copy the sanitiser checks and keeps: `name` cast to string,
      `value` through `floatval`, `active` set to true, every other field
      as submitted. */
  function Sanitized(d: Value): (s: Value)
    ensures Get(s, NAME) == VStr(ToStr(Get(d, NAME)))
    ensures Get(s, VALUE) == VFloat(FloatVal(Get(d, VALUE)))
    ensures Get(s, ACTIVE) == VBool(true)
    ensures forall k :: k != NAME && k != VALUE && k != ACTIVE ==> Get(s, k) == Get(d, k)
  {
    Set(Set(Set(d, NAME, VStr(ToStr(Get(d, NAME)))), VALUE, VFloat(FloatVal(Get(d, VALUE)))), ACTIVE, VBool(true))
  }

  /** The rejection test, on the sanitised copy, clause by clause. */
  predicate Rejects(s: Value) {
    RejectsFields(Get(s, UNIT), Get(s, NAME), Get(s, VALUE))
  }

  predicate RejectsFields(unit: Value, name: Value, width: Value) {
    || !InArrayLoose(unit, UNITS)
    || !Truthy(name) || Utf8Length(ToStr(name)) > 20
    || !Truthy(width) || FloatVal(width) < 0.0 || FloatVal(width) > 9999.0
  }

  /** A submitted breakpoint is accepted when its unit is allowed, its
      name is non-empty (and not "0") of at most 20 bytes in UTF-8, and its
      width is positive and at most 9999. */
  predicate Accepted(d: Value) {
    var name := ToStr(Get(d, NAME));
    var width := FloatVal(Get(d, VALUE));
    && (Get(d, UNIT) == VBool(true) || (Get(d, UNIT).VStr? && Get(d, UNIT).s in UNITS))
    && name != "" && name != "0" && Utf8Length(name) <= 20
    && 0.0 < width <= 9999.0
  }

  /** The test on the sanitised copy rejects exactly the entries that are
      not accepted. */
  lemma RejectsIffNotAccepted(d: Value)
    ensures Rejects(Sanitized(d)) <==> !Accepted(d)
  {
    var s := Sanitized(d);
    var name := ToStr(Get(d, NAME));
    var width := FloatVal(Get(d, VALUE));
    assert Rejects(s) == RejectsFields(Get(d, UNIT), VStr(name), VFloat(width));
    RejectsCast(Get(d, UNIT), name, width);
  }

  /** The test on a string name and a float width. */
  lemma RejectsCast(unit: Value, name: string, width: real)
    ensures RejectsFields(unit, VStr(name), VFloat(width)) <==>
              !((unit == VBool(true) || (unit.VStr? && unit.s in UNITS))
                && name != "" && name != "0" && Utf8Length(name) <= 20 && 0.0 < width <= 9999.0)
  {
    UnitCheck(unit);
  }

  /** The length limit counts bytes: eleven Cyrillic letters fit in 20
      characters but not in 20 bytes, so such a name is rejected. */
  lemma CyrillicNameTooLong(unit: Value, name: string, width: real)
    requires |name| == 11 && forall i :: 0 <= i < |name| ==> 0x400 <= (name[i] as int) < 0x500
    ensures RejectsFields(unit, VStr(name), VFloat(width))
  {
    Utf8LengthTwoByte(name);
  }

  /** `floatval` reads exponent notation: a width of "1e5" is 100000,
      above the limit, so the entry is refused. */
  lemma ExponentWidthRefused(d: Value)
    requires Get(d, VALUE) == VStr("1e5")
    ensures !Accepted(d) && Rejects(Sanitized(d))
  {
    var w := Get(d, VALUE);
    assert FloatVal(w) == 100000.0 by { FloatExponentRead(); }
    RejectsIffNotAccepted(d);
  }

  /** A width of "1e3" is kept as 1000, not 1. */
  lemma ExponentWidthKept(d: Value)
    requires Get(d, VALUE) == VStr("1e3")
    ensures Get(Sanitized(d), VALUE) == VFloat(1000.0)
  {
    var w := Get(d, VALUE);
    assert FloatVal(w) == 1000.0 by { FloatExponentRead(); }
  }

  /** One round of the first loop over the submitted entries: the
      sanitised copy is written under its key; when the test rejects it,
      the stored entry is put back, or the key is dropped when nothing
      was stored under it. */
  function Visit(opts: Arr, k: Key, d: Value, current: Arr): Arr {
    var s := Sanitized(d);
    var o := OrderedMap.Put(opts, k, s);
    if Rejects(s) then
      match OrderedMap.Find(current, k)
      case Some(c) => OrderedMap.Put(o, k, c)
      case None => OrderedMap.Remove(o, k)
    else o
  }

  /** The first loop: a `foreach` over the submitted entries (a copy taken
      before the loop) that edits the array in place. */
  function FirstPass(opts: Arr, todo: Arr, current: Arr): Arr
    decreases |todo|
  {
    if todo == [] then opts else FirstPass(Visit(opts, todo[0].0, todo[0].1, current), todo[1..], current)
  }

  /** The stored entry of a breakpoint that was removed: kept, but marked
      inactive. */
  function Deactivated(c: Value): (r: Value)
    ensures Get(r, ACTIVE) == VBool(false) && !IsActive(r)
    ensures forall k :: k != ACTIVE ==> Get(r, k) == Get(c, k)
  {
    Set(c, ACTIVE, VBool(false))
  }

  /** The second loop: every stored breakpoint missing from the result is
      written back, then its `active` flag set to false. */
  function MarkRemoved(opts: Arr, todo: Arr): Arr
    decreases |todo|
  {
    if todo == [] then opts
    else
      var k := todo[0].0;
      var o := OrderedMap.Put(opts, k, todo[0].1);
      MarkRemoved(OrderedMap.Put(o, k, Deactivated(OrderedMap.Find(o, k).GetOr(VNull))), todo[1..])
  }

  /** `sanitize_user_defined_breakpoints`, given the breakpoints saved so
      far and the submitted entries. */
  function Sanitize(current: Arr, submitted: Arr): Arr {
    var first := FirstPass(submitted, submitted, current);
    MarkRemoved(first, OrderedMap.DiffKey(current, first))
  }

  /** The sanitiser as the settings page runs it, reading the saved
      breakpoints from the option store. */
  function SanitizeBreakpoints(o: Wp.Options, submitted: Arr): Arr {
    Sanitize(Stored(o), submitted)
  }

  // The same result stated entry by entry.

  /** What the first loop leaves for one submitted entry. */
  function KeptOne(x: (Key, Value), current: Arr): (r: Arr)
    ensures |r| <= 1 && (r != [] ==> r[0].0 == x.0)
  {
    if Accepted(x.1) then [(x.0, Sanitized(x.1))]
    else
      match OrderedMap.Find(current, x.0)
      case Some(c) => [(x.0, c)]
      case None => []
  }

  /** What the first loop leaves for all submitted entries, in order. */
  function Kept(e: Arr, current: Arr): (r: Arr)
    decreases |e|
  {
    if e == [] then [] else Kept(e[..|e| - 1], current) + KeptOne(e[|e| - 1], current)
  }

  /** Only submitted keys are left. */
  lemma {:induction false} KeptKeys(e: Arr, current: Arr)
    decreases |e|
    ensures forall k :: k in OrderedMap.Keys(Kept(e, current)) ==> k in OrderedMap.Keys(e)
  {
    if e != [] {
      var p := e[..|e| - 1];
      OrderedMap.KeysSnoc(e);
      OrderedMap.KeysAppend(Kept(p, current), KeptOne(e[|e| - 1], current));
      KeptKeys(p, current);
    }
  }

  /** The removed stored entries, deactivated, in order. */
  function Inactive(e: Arr): (r: Arr)
    ensures OrderedMap.Keys(r) == OrderedMap.Keys(e)
    ensures forall k :: OrderedMap.Find(r, k) == if OrderedMap.Find(e, k).Some? then Some(Deactivated(OrderedMap.Find(e, k).value)) else None
  {
    if e == [] then [] else [(e[0].0, Deactivated(e[0].1))] + Inactive(e[1..])
  }

  /** A key of a well-formed concatenation occurs on neither side of its
      own position. */
  lemma ValidSplit(p: Arr, t: Arr)
    requires OrderedMap.Valid(p + t) && t != []
    ensures t[0].0 !in OrderedMap.Keys(p) && t[0].0 !in OrderedMap.Keys(t[1..])
    ensures OrderedMap.Valid((p + [t[0]]) + t[1..]) && (p + [t[0]]) + t[1..] == p + t
  {
    var ks := OrderedMap.Keys(p + t);
    OrderedMap.KeysAppend(p, t);
    assert ks[|p|] == t[0].0;
    forall i | 0 <= i < |p| ensures OrderedMap.Keys(p)[i] != t[0].0 {
      assert ks[i] == OrderedMap.Keys(p)[i];
    }
    forall i | 0 <= i < |t| - 1 ensures OrderedMap.Keys(t[1..])[i] != t[0].0 {
      assert OrderedMap.Keys(t[1..])[i] == t[i + 1].0 == ks[|p| + 1 + i];
    }
    OrderedMap.Snoc(p, t);
  }

  /** A round on an accepted entry leaves its sanitised copy in place. */
  lemma VisitAccepted(done: Arr, x: (Key, Value), t: Arr, current: Arr)
    requires x.0 !in OrderedMap.Keys(done) && Accepted(x.1)
    ensures Visit(done + ([x] + t), x.0, x.1, current) == done + (KeptOne(x, current) + t)
  {
    RejectsIffNotAccepted(x.1);
    OrderedMap.PutAtSplit(done, x.0, x.1, t, Sanitized(x.1));
  }

  /** A round on a rejected entry puts the stored entry back in place. */
  lemma VisitRestored(done: Arr, x: (Key, Value), t: Arr, current: Arr)
    requires x.0 !in OrderedMap.Keys(done) && !Accepted(x.1) && OrderedMap.Find(current, x.0).Some?
    ensures Visit(done + ([x] + t), x.0, x.1, current) == done + (KeptOne(x, current) + t)
  {
    RejectsIffNotAccepted(x.1);
    var s := Sanitized(x.1);
    OrderedMap.PutAtSplit(done, x.0, x.1, t, s);
    OrderedMap.PutAtSplit(done, x.0, s, t, OrderedMap.Find(current, x.0).value);
  }

  /** A round on a rejected entry with nothing stored drops it. */
  lemma VisitDropped(done: Arr, x: (Key, Value), t: Arr, current: Arr)
    requires x.0 !in OrderedMap.Keys(done) && x.0 !in OrderedMap.Keys(t)
    requires !Accepted(x.1) && OrderedMap.Find(current, x.0) == None
    ensures Visit(done + ([x] + t), x.0, x.1, current) == done + (KeptOne(x, current) + t)
  {
    var s := Sanitized(x.1);
    var put := OrderedMap.Put(done + ([x] + t), x.0, s);
    assert Visit(done + ([x] + t), x.0, x.1, current) == done + t by {
      assert Visit(done + ([x] + t), x.0, x.1, current) == OrderedMap.Remove(put, x.0) by {
        RejectsIffNotAccepted(x.1);
      }
      assert put == done + ([(x.0, s)] + t) by {
        OrderedMap.PutAtSplit(done, x.0, x.1, t, s);
      }
      OrderedMap.RemoveAtSplit(done, x.0, s, t);
    }
    assert KeptOne(x, current) == [];
    DropEmpty(done, KeptOne(x, current), t);
  }

  lemma DropEmpty(a: Arr, e: Arr, b: Arr)
    requires e == []
    ensures a + (e + b) == a + b
  {
  }

  /** One round of the loop on an entry not yet visited turns it into what
      it leaves. */
  lemma VisitKept(done: Arr, x: (Key, Value), t: Arr, current: Arr)
    requires x.0 !in OrderedMap.Keys(done) && x.0 !in OrderedMap.Keys(t)
    ensures Visit(done + ([x] + t), x.0, x.1, current) == done + (KeptOne(x, current) + t)
  {
    if Accepted(x.1) {
      VisitAccepted(done, x, t, current);
    } else if OrderedMap.Find(current, x.0).Some? {
      VisitRestored(done, x, t, current);
    } else {
      VisitDropped(done, x, t, current);
    }
  }

  /** One round of the first loop, with what the visited prefix left in
      front. */
  lemma FirstPassStep(p: Arr, t: Arr, current: Arr)
    requires OrderedMap.Valid(p + t) && t != []
    ensures FirstPass(Kept(p, current) + t, t, current) == FirstPass(Kept(p + [t[0]], current) + t[1..], t[1..], current)
  {
    var x := t[0];
    var rest := t[1..];
    ValidSplit(p, t);
    var done := Kept(p, current);
    KeptKeys(p, current);
    OrderedMap.Snoc(done, t);
    OrderedMap.Snoc(p, t);
    VisitKept(done, x, rest, current);
    OrderedMap.Assoc3(done, KeptOne(x, current), rest);
    assert Kept(p + [x], current) == done + KeptOne(x, current);
  }

  /** The first loop computes `Kept`: after visiting a prefix, the array
      holds what the prefix leaves followed by the unvisited entries. */
  lemma {:induction false} FirstPassKept(p: Arr, t: Arr, current: Arr)
    requires OrderedMap.Valid(p + t)
    decreases |t|
    ensures FirstPass(Kept(p, current) + t, t, current) == Kept(p + t, current)
  {
    if t == [] {
      assert p + t == p && Kept(p, current) + t == Kept(p, current);
    } else {
      ValidSplit(p, t);
      FirstPassStep(p, t, current);
      FirstPassKept(p + [t[0]], t[1..], current);
    }
  }

  /** One step of the second loop on a key not yet present: the entry is
      appended, deactivated. */
  lemma MarkOne(opts: Arr, k: Key, d: Value)
    requires k !in OrderedMap.Keys(opts)
    ensures var o := OrderedMap.Put(opts, k, d);
            OrderedMap.Put(o, k, Deactivated(OrderedMap.Find(o, k).GetOr(VNull))) == opts + [(k, Deactivated(d))]
  {
    OrderedMap.PutFresh(opts, k, d);
    var dd := Deactivated(d);
    assert [(k, d)] + [] == [(k, d)] && [(k, dd)] + [] == [(k, dd)];
    OrderedMap.PutAtSplit(opts, k, d, [], dd);
    assert OrderedMap.Find(opts + [(k, d)], k) == Some(d);
  }

  /** The second loop appends the removed entries, deactivated. */
  lemma {:induction false} MarkRemovedAppends(opts: Arr, todo: Arr)
    requires OrderedMap.Valid(todo)
    requires forall k :: k in OrderedMap.Keys(todo) ==> k !in OrderedMap.Keys(opts)
    decreases |todo|
    ensures MarkRemoved(opts, todo) == opts + Inactive(todo)
  {
    if todo != [] {
      var k := todo[0].0;
      var d := todo[0].1;
      var rest := todo[1..];
      assert OrderedMap.Keys(todo)[0] == k;
      OrderedMap.ValidTail(todo);
      var dd := Deactivated(d);
      MarkOne(opts, k, d);
      var o' := opts + [(k, dd)];
      assert MarkRemoved(opts, todo) == MarkRemoved(o', rest);
      assert OrderedMap.Keys(todo) == [k] + OrderedMap.Keys(rest);
      OrderedMap.KeysAppend(opts, [(k, dd)]);
      assert OrderedMap.Keys(o') == OrderedMap.Keys(opts) + [k];
      forall j | j in OrderedMap.Keys(rest) ensures j !in OrderedMap.Keys(o') {
        assert j in OrderedMap.Keys(todo) && j != k;
      }
      MarkRemovedAppends(o', rest);
      assert Inactive(todo) == [(k, dd)] + Inactive(rest);
      OrderedMap.Assoc3(opts, [(k, dd)], Inactive(rest));
    }
  }

  /** The sanitiser's result: what each submitted entry leaves, in
      submitted order, then the stored breakpoints missing from that,
      deactivated, in stored order. */
  lemma SanitizeClosedForm(current: Arr, submitted: Arr)
    requires OrderedMap.Valid(submitted) && OrderedMap.Valid(current)
    ensures var kept := Kept(submitted, current);
            Sanitize(current, submitted) == kept + Inactive(OrderedMap.DiffKey(current, kept))
  {
    assert [] + submitted == submitted;
    FirstPassKept([], submitted, current);
    var kept := Kept(submitted, current);
    MarkRemovedAppends(kept, OrderedMap.DiffKey(current, kept));
  }

  /** Looking a key up in what the first loop leaves. */
  lemma {:induction false} FindKept(e: Arr, current: Arr, k: Key)
    requires OrderedMap.Valid(e)
    decreases |e|
    ensures OrderedMap.Find(Kept(e, current), k) ==
              match OrderedMap.Find(e, k)
              case None => None
              case Some(d) => if Accepted(d) then Some(Sanitized(d)) else OrderedMap.Find(current, k)
  {
    if e != [] {
      var p := e[..|e| - 1];
      var x := e[|e| - 1];
      OrderedMap.ValidPrefix(e);
      FindKept(p, current, k);
      OrderedMap.FindAppend(Kept(p, current), KeptOne(x, current), k);
      if k == x.0 {
        OrderedMap.FindLastEntry(e);
      } else {
        OrderedMap.FindPrefix(e, k);
      }
    }
  }

  /** What the saved option holds under each key: an accepted submission
      its sanitised copy, a rejected one the stored entry (or nothing), a
      stored breakpoint that was not submitted its stored entry marked
      inactive, and any other key nothing. */
  lemma SanitizeOutcome(current: Arr, submitted: Arr, k: Key)
    requires OrderedMap.Valid(submitted) && OrderedMap.Valid(current)
    ensures var r := Sanitize(current, submitted);
            var s := OrderedMap.Find(submitted, k);
            var c := OrderedMap.Find(current, k);
            && (s.Some? && Accepted(s.value) ==> OrderedMap.Find(r, k) == Some(Sanitized(s.value)))
            && (s.Some? && !Accepted(s.value) ==> OrderedMap.Find(r, k) == c)
            && (s.None? ==> OrderedMap.Find(r, k) == if c.Some? then Some(Deactivated(c.value)) else None)
  {
    var kept := Kept(submitted, current);
    SanitizeClosedForm(current, submitted);
    FindKept(submitted, current, k);
    OrderedMap.FindAppend(kept, Inactive(OrderedMap.DiffKey(current, kept)), k);
  }

  /** No saved breakpoint is lost: every stored key is still there, active
      when it was submitted and accepted, inactive when it was not
      submitted; every key of the result was submitted or stored. */
  lemma NoBreakpointLost(current: Arr, submitted: Arr, k: Key)
    requires OrderedMap.Valid(submitted) && OrderedMap.Valid(current)
    ensures var r := Sanitize(current, submitted);
            && (k in OrderedMap.Keys(current) ==> k in OrderedMap.Keys(r))
            && (k in OrderedMap.Keys(r) ==> k in OrderedMap.Keys(current) || k in OrderedMap.Keys(submitted))
            && (k in OrderedMap.Keys(current) && k !in OrderedMap.Keys(submitted) ==>
                  OrderedMap.Find(r, k).Some? && !IsActive(OrderedMap.Find(r, k).value))
            && (OrderedMap.Find(submitted, k).Some? && Accepted(OrderedMap.Find(submitted, k).value) ==>
                  OrderedMap.Find(r, k).Some? && IsActive(OrderedMap.Find(r, k).value))
  {
    SanitizeOutcome(current, submitted, k);
    var r := Sanitize(current, submitted);
    var s := OrderedMap.Find(submitted, k);
    var c := OrderedMap.Find(current, k);
    if s.Some? && Accepted(s.value) {
      assert OrderedMap.Find(r, k) == Some(Sanitized(s.value));
      assert Get(Sanitized(s.value), ACTIVE) == VBool(true);
    } else if s.Some? {
      assert OrderedMap.Find(r, k) == c;
    } else if c.Some? {
      assert OrderedMap.Find(r, k) == Some(Deactivated(c.value));
    } else {
      assert OrderedMap.Find(r, k) == None;
    }
  }

  /** `CssMediaBreakpoints::getSwitchWidth` on the given breakpoints:
      'custom' gives the block's own value; a name stored (and not null)
      gives its value followed by its unit, active or not; anything else
      gives null. */
  function SwitchWidthIn(stored: Arr, breakpoint: Value, custom: Value): (r: Value)
    ensures breakpoint == VStr(CUSTOM) ==> r == custom
    ensures breakpoint != VStr(CUSTOM) ==> r == VNull || r.VStr?
  {
    if breakpoint == VStr(CUSTOM) then custom
    else
      var b := match ArrayKey(breakpoint) case Some(k) => OrderedMap.Find(stored, k).GetOr(VNull) case None => VNull;
      if b != VNull then VStr(ToStr(Get(b, VALUE)) + ToStr(Get(b, UNIT))) else VNull
  }

  /** `getSwitchWidth` reading the saved breakpoints from the option store. */
  function SwitchWidth(o: Wp.Options, breakpoint: Value, custom: Value): Value {
    SwitchWidthIn(Stored(o), breakpoint, custom)
  }

  /** A stored, non-null breakpoint switches at its value followed by its unit. */
  lemma StoredSwitches(stored: Arr, name: string, b: Value, custom: Value)
    requires name != CUSTOM && b != VNull
    requires OrderedMap.Find(stored, KeyOf(name)) == Some(b)
    ensures SwitchWidthIn(stored, VStr(name), custom) == VStr(ToStr(Get(b, VALUE)) + ToStr(Get(b, UNIT)))
  {
    assert ArrayKey(VStr(name)) == Some(KeyOf(name));
  }

  /** A name that is not 'custom' and not stored never switches. */
  lemma UnknownNeverSwitches(stored: Arr, breakpoint: Value, custom: Value)
    requires breakpoint != VStr(CUSTOM)
    requires ArrayKey(breakpoint).Some? ==> ArrayKey(breakpoint).value !in OrderedMap.Keys(stored)
    ensures SwitchWidthIn(stored, breakpoint, custom) == VNull
  {
  }

  /** The fields of a default breakpoint. */
  lemma DefaultEntryFields(name: string, width: string)
    ensures var e := DefaultEntry(name, width);
            Get(e, VALUE) == VStr(width) && Get(e, UNIT) == VStr("px") && Get(e, NAME) == VStr(name) && IsActive(e)
  {
    var e1 := Set(VArr([]), NAME, VStr(name));
    var e2 := Set(e1, VALUE, VStr(width));
    var e3 := Set(e2, UNIT, VStr("px"));
    var e4 := Set(e3, ACTIVE, VBool(true));
    assert e4 == DefaultEntry(name, width);
    assert Get(e3, VALUE) == VStr(width) && Get(e3, NAME) == VStr(name);
    assert Get(e4, ACTIVE) == VBool(true);
  }

  /** Where the defaults are found. */
  lemma DefaultsFound()
    ensures OrderedMap.Find(DEFAULTS, StrKey("mobile")) == Some(DefaultEntry("Mobile", "480"))
    ensures OrderedMap.Find(DEFAULTS, StrKey("tablet")) == Some(DefaultEntry("Tablet", "960"))
    ensures OrderedMap.Find(DEFAULTS, StrKey("")) == None
  {
    var none: Arr := [];
    assert OrderedMap.Find(none, StrKey("")) == None;
  }

  /** The default widths, written out. */
  lemma PixelWidths()
    ensures "480" + "px" == "480px" && "960" + "px" == "960px"
  {
    var a := "480" + "px";
    var b := "960" + "px";
    assert |a| == 5 && a[0] == '4' && a[1] == '8' && a[2] == '0' && a[3] == 'p' && a[4] == 'x';
    assert |b| == 5 && b[0] == '9' && b[1] == '6' && b[2] == '0' && b[3] == 'p' && b[4] == 'x';
  }

  /** A default breakpoint switches at its width in pixels. */
  lemma DefaultSwitches(key: string, name: string, width: string)
    requires key != CUSTOM && OrderedMap.Find(DEFAULTS, KeyOf(key)) == Some(DefaultEntry(name, width))
    ensures SwitchWidthIn(DEFAULTS, VStr(key), VNull) == VStr(width + "px")
  {
    DefaultEntryFields(name, width);
    StoredSwitches(DEFAULTS, key, DefaultEntry(name, width), VNull);
  }

  /** The off value '' is no default breakpoint. */
  lemma OffNeverSwitches(custom: Value)
    ensures SwitchWidthIn(DEFAULTS, VStr(""), custom) == VNull
  {
    DefaultsFound();
    assert NatOfText("") == None;
    assert ArrayKey(VStr("")) == Some(StrKey(""));
    UnknownNeverSwitches(DEFAULTS, VStr(""), custom);
  }

  /** On a site that never saved breakpoints: mobile switches at 480px,
      tablet at 960px, the off value '' never switches. */
  lemma DefaultWidths(o: Wp.Options)
    requires Settings.BREAKPOINTS_OPTION !in OrderedMap.Keys(o)
    ensures SwitchWidth(o, VStr("mobile"), VNull) == VStr("480px")
    ensures SwitchWidth(o, VStr("tablet"), VNull) == VStr("960px")
    ensures SwitchWidth(o, VStr(""), VStr("10px")) == VNull
  {
    assert Stored(o) == DEFAULTS;
    WordKey("mobile");
    WordKey("tablet");
    DefaultsFound();
    DefaultSwitches("mobile", "Mobile", "480");
    DefaultSwitches("tablet", "Tablet", "960");
    PixelWidths();
    OffNeverSwitches(VStr("10px"));
  }

  /** A breakpoint removed on the settings page keeps working for the
      blocks that use it: after sanitising, its name resolves to the same
      width as before. */
  lemma RemovedBreakpointStillResolves(current: Arr, submitted: Arr, name: string, custom: Value)
    requires OrderedMap.Valid(submitted) && OrderedMap.Valid(current)
    requires name != CUSTOM && KeyOf(name) !in OrderedMap.Keys(submitted)
    requires OrderedMap.Find(current, KeyOf(name)).Some? ==> OrderedMap.Find(current, KeyOf(name)).value.VArr?
    ensures SwitchWidthIn(Sanitize(current, submitted), VStr(name), custom) == SwitchWidthIn(current, VStr(name), custom)
  {
    var k := KeyOf(name);
    var r := Sanitize(current, submitted);
    SanitizeOutcome(current, submitted, k);
    var c := OrderedMap.Find(current, k);
    if c.Some? {
      var dc := Deactivated(c.value);
      assert OrderedMap.Find(r, k) == Some(dc);
      StoredSwitches(r, name, dc, custom);
      StoredSwitches(current, name, c.value, custom);
      assert Get(dc, VALUE) == Get(c.value, VALUE) && Get(dc, UNIT) == Get(c.value, UNIT);
    } else {
      assert OrderedMap.Find(r, k) == None;
      assert ArrayKey(VStr(name)) == Some(k);
      UnknownNeverSwitches(r, VStr(name), custom);
      UnknownNeverSwitches(current, VStr(name), custom);
    }
  }

  /** Saving the sanitised breakpoints and resolving a width reads what
      was saved. */
  lemma SavedSwitchWidth(o: Wp.Options, submitted: Arr, breakpoint: Value, custom: Value)
    ensures var saved := Wp.UpdateOption(o, Settings.BREAKPOINTS_OPTION, VArr(SanitizeBreakpoints(o, submitted)));
            SwitchWidth(saved, breakpoint, custom) == SwitchWidthIn(Sanitize(Stored(o), submitted), breakpoint, custom)
  {
    StoredAfterSave(o, SanitizeBreakpoints(o, submitted));
  }

  /** An accepted breakpoint, once sanitised, switches at its width as PHP
      prints the float, followed by its unit. */
  lemma SavedWidth(current: Arr, submitted: Arr, name: string)
    requires OrderedMap.Valid(submitted) && OrderedMap.Valid(current)
    requires name != CUSTOM
    requires OrderedMap.Find(submitted, KeyOf(name)).Some? && Accepted(OrderedMap.Find(submitted, KeyOf(name)).value)
    ensures var d := OrderedMap.Find(submitted, KeyOf(name)).value;
            SwitchWidthIn(Sanitize(current, submitted), VStr(name), VNull) == VStr(FloatText(FloatVal(Get(d, VALUE))) + ToStr(Get(d, UNIT)))
  {
    var k := KeyOf(name);
    var r := Sanitize(current, submitted);
    var d := OrderedMap.Find(submitted, k).value;
    var s := Sanitized(d);
    assert OrderedMap.Find(r, k) == Some(s) by {
      SanitizeOutcome(current, submitted, k);
    }
    assert s != VNull by {
      assert Get(s, ACTIVE) == VBool(true);
    }
    StoredSwitches(r, name, s, VNull);
    SanitizedWidth(d);
  }

  /** The sanitised copy's width prints as the float, and its unit is the
      submitted one. */
  lemma SanitizedWidth(d: Value)
    ensures ToStr(Get(Sanitized(d), VALUE)) + ToStr(Get(Sanitized(d), UNIT)) == FloatText(FloatVal(Get(d, VALUE))) + ToStr(Get(d, UNIT))
  {
    var s := Sanitized(d);
    assert UNIT != NAME && UNIT != VALUE && UNIT != ACTIVE by {
      assert UNIT.s[0] == 'u' && NAME.s[0] == 'n' && VALUE.s[0] == 'v' && ACTIVE.s[0] == 'a';
    }
    assert Get(s, UNIT) == Get(d, UNIT);
    assert ToStr(Get(s, VALUE)) == FloatText(FloatVal(Get(d, VALUE)));
  }

  /** One element of `get_user_defined_breakpoints_data`. */
  function ExportEntry(k: Key, b: Value): (r: Value)
    ensures At(r, "key") == KeyValue(k) && At(r, "name") == Get(b, NAME)
    ensures At(r, "value") == VStr(ToStr(Get(b, VALUE)) + ToStr(Get(b, UNIT)))
    ensures At(r, "active") == VBool(IsActive(b))
  {
    var e := Set(Set(VArr([]), StrKey("key"), KeyValue(k)), NAME, Get(b, NAME));
    Set(Set(e, VALUE, VStr(ToStr(Get(b, VALUE)) + ToStr(Get(b, UNIT)))), ACTIVE, VBool(IsActive(b)))
  }

  /** `get_user_defined_breakpoints_data` on the given breakpoints: one
      element per breakpoint, inactive ones included, in stored order. */
  function ExportData(stored: Arr): seq<Value> {
    seq(|stored|, i requires 0 <= i < |stored| => ExportEntry(stored[i].0, stored[i].1))
  }

  /** `get_user_defined_breakpoints_data` reading the option store. */
  function BreakpointsData(o: Wp.Options): seq<Value> {
    ExportData(Stored(o))
  }

  /** The editor sees the same widths the server resolves, and marks as
      active exactly the breakpoints the active filter keeps. */
  lemma ExportAgreesWithServer(stored: Arr, k: Key, b: Value)
    requires OrderedMap.Valid(stored) && OrderedMap.Find(stored, k) == Some(b)
    requires Normalised(k) && b != VNull && k != StrKey(CUSTOM)
    ensures var e := ExportEntry(k, b);
            && At(e, "value") == SwitchWidthIn(stored, At(e, "key"), VNull)
            && (At(e, "active") == VBool(true) <==> OrderedMap.Find(Active(stored), k).Some?)
  {
    assert KeyValue(k) != VStr(CUSTOM);
    assert ArrayKey(KeyValue(k)) == Some(k);
  }

  /** Each exported element is the export of the stored entry at its position. */
  lemma ExportDataAt(stored: Arr, i: nat)
    requires OrderedMap.Valid(stored) && i < |stored|
    ensures |ExportData(stored)| == |stored|
    ensures ExportData(stored)[i] == ExportEntry(stored[i].0, stored[i].1)
    ensures OrderedMap.Find(stored, stored[i].0) == Some(stored[i].1)
  {
    OrderedMap.FindAt(stored, i);
  }
}
