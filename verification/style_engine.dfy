/** The plugin's style engine (StyleEngine): preset references in CSS
    declarations rewritten to custom properties, and CSS rules filtered
    before they are compiled into a stylesheet. */
module StyleEngine {
  import opened Wrappers
  import opened Php
  import OrderedMap
  import opened Text
  import ColorUtils

  /** The literal that starts a preset reference. */
  const MARKER := "var:preset|"

  /** `[a-z0-9-]`, the characters of a preset slug. */
  predicate SlugChar(c: char) {
    'a' <= c <= 'z' || '0' <= c <= '9' || c == '-'
  }

  /** The first line break at or after `i`, or the end of `s`: without the
      `s` modifier `.` matches anything but a line break. */
  function LineEnd(s: string, i: nat): (n: nat)
    requires i <= |s|
    ensures i <= n <= |s|
    ensures forall k :: i <= k < n ==> s[k] != '\n'
    ensures n < |s| ==> s[n] == '\n'
    decreases |s| - i
  {
    if i == |s| || s[i] == '\n' then i else LineEnd(s, i + 1)
  }

  /** A bar at `j` followed by a slug character: where `\|([a-z0-9-]+)` can
      start matching. */
  predicate BarAt(s: string, j: nat) {
    j + 1 < |s| && s[j] == '|' && SlugChar(s[j + 1])
  }

  /** The last position in `[lo, hi)` where `BarAt` holds: the greedy `(.+)`
      gives characters back from the right until the rest matches. */
  function LastBar(s: string, lo: nat, hi: nat): (r: Option<nat>)
    ensures r.Some? ==> lo <= r.value < hi && BarAt(s, r.value)
    ensures r.Some? ==> forall j :: r.value < j < hi ==> !BarAt(s, j)
    ensures r.None? ==> forall j :: lo <= j < hi ==> !BarAt(s, j)
    decreases hi
  {
    if hi <= lo then None
    else if BarAt(s, hi - 1) then Some(hi - 1)
    else LastBar(s, lo, hi - 1)
  }

  /** The end of the run of slug characters starting at `i`: the greedy
      `([a-z0-9-]+)`. */
  function SlugEnd(s: string, i: nat): (n: nat)
    requires i <= |s|
    ensures i <= n <= |s|
    ensures forall k :: i <= k < n ==> SlugChar(s[k])
    ensures n < |s| ==> !SlugChar(s[n])
    decreases |s| - i
  {
    if i == |s| || !SlugChar(s[i]) then i else SlugEnd(s, i + 1)
  }

  /** A match of `var:preset\|(.+)\|([a-z0-9-]+)` at the start of `s`: the
      preset type, the slug, and the length matched. */
  function Match(s: string): (r: Option<(string, string, nat)>)
    requires StartsWith(s, MARKER)
    ensures r.Some? ==> |MARKER| + 3 <= r.value.2 <= |s|
    ensures r.Some? ==> s[..r.value.2] == MARKER + r.value.0 + "|" + r.value.1
  {
    match LastBar(s, |MARKER| + 1, LineEnd(s, |MARKER|))
    case None => None
    case Some(j) =>
      var n := SlugEnd(s, j + 1);
      assert s[..n] == s[..|MARKER|] + s[|MARKER|..j] + [s[j]] + s[j + 1..n];
      Some((s[|MARKER|..j], s[j + 1..n], n))
  }

  /** `preg_replace('/var:preset\|(.+)\|([a-z0-9-]+)/', 'var(--wp--preset--$1--$2)', s)`:
      matches are tried left to right, each replaced by the preset's custom
      property, and scanning resumes after the match. */
  function Rewrite(s: string): (r: string)
    decreases |s|
  {
    if s == [] then []
    else if StartsWith(s, MARKER) && Match(s).Some? then
      var m := Match(s).value;
      ColorUtils.PresetVar(m.0, m.1) + Rewrite(s[m.2..])
    else [s[0]] + Rewrite(s[1..])
  }

  /** A string without a preset reference is returned as it is. */
  lemma {:induction false} RewriteWithoutMarker(s: string)
    requires !Contains(s, MARKER)
    ensures Rewrite(s) == s
  {
    if s != [] {
      assert !OccursAt(s, MARKER, 0);
      assert !Contains(s[1..], MARKER) by {
        forall i | 0 <= i <= |s[1..]| ensures !OccursAt(s[1..], MARKER, i) {
          assert !OccursAt(s, MARKER, i + 1);
          if i + |MARKER| <= |s[1..]| {
            assert s[1..][i..i + |MARKER|] == s[i + 1..i + 1 + |MARKER|];
          }
        }
      }
      RewriteWithoutMarker(s[1..]);
    }
  }

  /** `var:preset|T|S`, for a type without line breaks and a slug of slug
      characters, becomes `var(--wp--preset--T--S)`. The type may itself
      hold bars: the last bar before the slug ends it. */
  lemma PresetReference(kind: string, slug: string)
    requires kind != [] && '\n' !in kind
    requires slug != [] && forall i :: 0 <= i < |slug| ==> SlugChar(slug[i])
    ensures Rewrite(MARKER + kind + "|" + slug) == ColorUtils.PresetVar(kind, slug)
  {
    var s := MARKER + kind + "|" + slug;
    MatchReference(kind, slug);
    RewriteWholeMatch(s, kind, slug);
  }

  /** A string matched to its end is replaced as a whole. */
  lemma RewriteWholeMatch(s: string, kind: string, slug: string)
    requires StartsWith(s, MARKER) && Match(s) == Some((kind, slug, |s|))
    ensures Rewrite(s) == ColorUtils.PresetVar(kind, slug)
  {
    assert s[|s|..] == [];
  }

  /** The match of a whole preset reference ends at the end of the string. */
  lemma MatchReference(kind: string, slug: string)
    requires kind != [] && '\n' !in kind
    requires slug != [] && forall i :: 0 <= i < |slug| ==> SlugChar(slug[i])
    ensures StartsWith(MARKER + kind + "|" + slug, MARKER)
    ensures Match(MARKER + kind + "|" + slug) == Some((kind, slug, |MARKER + kind + "|" + slug|))
  {
    var s := MARKER + kind + "|" + slug;
    var j := |MARKER| + |kind|;
    assert s[..|MARKER|] == MARKER;
    ReferenceBar(kind, slug);
    assert s[|MARKER|..j] == kind;
    assert s[j + 1..|s|] == slug;
  }

  /** In a whole preset reference the last bar before a slug character is
      the one after the type, and the slug runs to the end. */
  lemma ReferenceBar(kind: string, slug: string)
    requires kind != [] && '\n' !in kind
    requires slug != [] && forall i :: 0 <= i < |slug| ==> SlugChar(slug[i])
    ensures var s := MARKER + kind + "|" + slug;
            && LastBar(s, |MARKER| + 1, LineEnd(s, |MARKER|)) == Some(|MARKER| + |kind|)
            && SlugEnd(s, |MARKER| + |kind| + 1) == |s|
  {
    var s := MARKER + kind + "|" + slug;
    var j := |MARKER| + |kind|;
    assert forall k :: |MARKER| <= k < j ==> s[k] == kind[k - |MARKER|];
    assert forall k :: j < k < |s| ==> s[k] == slug[k - j - 1];
    assert s[j] == '|';
    assert LineEnd(s, |MARKER|) == |s|;
    assert BarAt(s, j);
    assert LastBar(s, |MARKER| + 1, |s|) == Some(j);
  }

  /** ... and the slug reads back from the result. */
  lemma PresetReferenceSlug(kind: string, slug: string)
    requires kind != [] && '\n' !in kind
    requires slug != [] && forall i :: 0 <= i < |slug| ==> SlugChar(slug[i])
    ensures ColorUtils.PresetSlug(kind, Rewrite(MARKER + kind + "|" + slug)) == Some(slug)
  {
    PresetReference(kind, slug);
    ColorUtils.PresetSlugOfVar(kind, slug);
  }

  const SELECTOR := StrKey("selector")
  const DECLARATIONS := StrKey("declarations")

  lemma RuleKeysDistinct()
    ensures SELECTOR != DECLARATIONS
  {
    assert "selector"[0] != "declarations"[0];
  }

  /** `preg_replace` on a value that is not a nested rule: a string (or a
      scalar read as one) is rewritten; for an array every element, read as
      a string, is rewritten under its key. */
  function ReplaceValue(v: Value): (r: Value)
    ensures v.VArr? ==> r.VArr? && KeysOf(r) == KeysOf(v)
    ensures !v.VArr? ==> r == VStr(Rewrite(ToStr(v)))
  {
    if v.VArr? then VArr(ReplaceEach(v.entries)) else VStr(Rewrite(ToStr(v)))
  }

  function ReplaceEach(e: seq<(Key, Value)>): (r: seq<(Key, Value)>)
    ensures OrderedMap.Keys(r) == OrderedMap.Keys(e)
  {
    if e == [] then []
    else [(e[0].0, VStr(Rewrite(ToStr(e[0].1))))] + ReplaceEach(e[1..])
  }

  /** One declaration value: an array whose `declarations` is an array is a
      nested rule (a media query) and is preprocessed as one; anything else
      has its preset references rewritten. */
  function PreprocessValue(v: Value): (r: Value)
    decreases v, 1
  {
    if v.VArr? && Get(v, DECLARATIONS).VArr? then PreprocessRule(v) else ReplaceValue(v)
  }

  /** The loop over one rule's declarations, keys kept in order. */
  function PreprocessDecls(d: Value, e: seq<(Key, Value)>): (r: seq<(Key, Value)>)
    requires d.VArr? && forall x :: x in e ==> x in d.entries
    ensures OrderedMap.Keys(r) == OrderedMap.Keys(e)
    decreases d, 2, |e|
  {
    if e == [] then []
    else
      assert e[0] in d.entries;
      [(e[0].0, PreprocessValue(e[0].1))] + PreprocessDecls(d, e[1..])
  }

  /** One rule of `preprocess_css_rules`: the selector is copied, and the
      declarations are copied under the same keys with their values
      preprocessed. A rule whose declarations are missing, not an array or
      empty comes out with no `declarations` entry at all. */
  function PreprocessRule(rule: Value): (r: Value)
    decreases rule, 0
    ensures r.VArr? && OrderedMap.Valid(r.entries)
    ensures Get(r, SELECTOR) == Get(rule, SELECTOR)
    ensures Get(rule, DECLARATIONS).VArr? ==> KeysOf(Get(r, DECLARATIONS)) == KeysOf(Get(rule, DECLARATIONS))
    ensures IsSet(r, DECLARATIONS) <==> Get(rule, DECLARATIONS).VArr? && Get(rule, DECLARATIONS).entries != []
  {
    RuleKeysDistinct();
    var d := Get(rule, DECLARATIONS);
    var ds := if d.VArr? then PreprocessDecls(d, d.entries) else [];
    if ds == [] then VArr([(SELECTOR, Get(rule, SELECTOR))])
    else VArr([(SELECTOR, Get(rule, SELECTOR)), (DECLARATIONS, VArr(ds))])
  }

  /** `preprocess_css_rules`: one preprocessed rule per rule, in order,
      appended to a list; a non-array is iterated as no rules. */
  function PreprocessCssRules(rules: Value): (r: Value)
    ensures r.VArr? && |r.entries| == |ValuesOf(rules)|
    ensures forall i :: 0 <= i < |r.entries| ==> r.entries[i].0 == IntKey(i)
    ensures forall i :: 0 <= i < |r.entries| ==>
              && Get(r.entries[i].1, SELECTOR) == Get(ValuesOf(rules)[i], SELECTOR)
              && (Get(ValuesOf(rules)[i], DECLARATIONS).VArr? ==>
                    KeysOf(Get(r.entries[i].1, DECLARATIONS)) == KeysOf(Get(ValuesOf(rules)[i], DECLARATIONS)))
  {
    var vs := ValuesOf(rules);
    List(seq(|vs|, i requires 0 <= i < |vs| => PreprocessRule(vs[i])))
  }

  /** A rule whose declarations are all strings without a preset reference. */
  predicate PlainRule(rule: Value) {
    && rule.VArr? && |rule.entries| == 2
    && rule.entries[0].0 == SELECTOR && rule.entries[1].0 == DECLARATIONS
    && rule.entries[1].1.VArr? && rule.entries[1].1.entries != []
    && forall x :: x in rule.entries[1].1.entries ==> x.1.VStr? && !Contains(x.1.s, MARKER)
  }

  /** Preprocessing leaves a plain rule exactly as it was. */
  lemma PlainRuleUnchanged(rule: Value)
    requires PlainRule(rule)
    ensures PreprocessRule(rule) == rule
  {
    RuleKeysDistinct();
    var d := rule.entries[1].1;
    OrderedMap.FindAt(rule.entries, 0);
    OrderedMap.FindAt(rule.entries, 1);
    assert Get(rule, SELECTOR) == rule.entries[0].1;
    assert Get(rule, DECLARATIONS) == d;
    PlainDeclsUnchanged(d, d.entries);
  }

  lemma {:induction false} PlainDeclsUnchanged(d: Value, e: seq<(Key, Value)>)
    requires d.VArr? && forall x :: x in e ==> x in d.entries
    requires forall x :: x in e ==> x.1.VStr? && !Contains(x.1.s, MARKER)
    ensures PreprocessDecls(d, e) == e
  {
    if e != [] {
      var x := e[0];
      assert x in e;
      assert PreprocessValue(x.1) == x.1 by {
        RewriteWithoutMarker(x.1.s);
      }
      assert forall y :: y in e[1..] ==> y in e;
      PlainDeclsUnchanged(d, e[1..]);
      assert e == [(x.0, x.1)] + e[1..];
    }
  }

  /** A rule `get_stylesheet_from_css_rules` keeps: a non-empty selector
      and a non-empty array of declarations. */
  predicate Renderable(rule: Value) {
    Truthy(Get(rule, SELECTOR)) && Get(rule, DECLARATIONS).VArr? && Get(rule, DECLARATIONS).entries != []
  }

  /** The rules the loop does not skip, in order. */
  function Renderables(rules: seq<Value>): (r: seq<Value>)
    ensures |r| <= |rules|
    ensures forall x :: x in r <==> x in rules && Renderable(x)
  {
    if rules == [] then []
    else if Renderable(rules[0]) then [rules[0]] + Renderables(rules[1..])
    else Renderables(rules[1..])
  }

  /** Nothing is skipped exactly when every rule is renderable. */
  lemma RenderablesAll(rules: seq<Value>)
    ensures Renderables(rules) == rules <==> forall x :: x in rules ==> Renderable(x)
  {
    if forall x :: x in rules ==> Renderable(x) {
      RenderablesKeepAll(rules);
    }
  }

  lemma {:induction false} RenderablesKeepAll(rules: seq<Value>)
    requires forall x :: x in rules ==> Renderable(x)
    ensures Renderables(rules) == rules
  {
    if rules != [] {
      assert Renderable(rules[0]) by {
        assert rules[0] in rules;
      }
      assert forall x :: x in rules[1..] ==> x in rules;
      RenderablesKeepAll(rules[1..]);
      assert Renderables(rules) == [rules[0]] + rules[1..];
    }
  }

  /** A `store_css_rule` call: the store (context), the selector and the
      declarations. */
  datatype Stored = Stored(context: Value, selector: Value, declarations: Value)

  datatype Sheet = Sheet(css: string, stored: seq<Stored>)

  function StoreAll(context: Value, rules: seq<Value>): (r: seq<Stored>)
    ensures |r| == |rules|
    ensures forall i :: 0 <= i < |r| ==> r[i] == Stored(context, Get(rules[i], SELECTOR), Get(rules[i], DECLARATIONS))
  {
    if rules == [] then []
    else [Stored(context, Get(rules[0], SELECTOR), Get(rules[0], DECLARATIONS))] + StoreAll(context, rules[1..])
  }

  /** `get_stylesheet_from_css_rules`: an empty collection gives ''; rules
      without a selector or declarations are skipped; the rest are stored
      when a context is given, and compiled (`compile`, the core style
      engine's compiler) unless none is left, which gives ''. */
  function GetStylesheetFromCssRules(rules: Value, context: Value, compile: seq<Value> -> string): (r: Sheet)
    ensures !Truthy(rules) ==> r == Sheet("", [])
    ensures Renderables(ValuesOf(rules)) == [] ==> r.css == ""
    ensures !Truthy(context) ==> r.stored == []
    ensures Truthy(rules) && Truthy(context) ==> r.stored == StoreAll(context, Renderables(ValuesOf(rules)))
    ensures Truthy(rules) && Renderables(ValuesOf(rules)) != [] ==> r.css == compile(Renderables(ValuesOf(rules)))
  {
    if !Truthy(rules) then Sheet("", [])
    else
      var kept := Renderables(ValuesOf(rules));
      var stored := if Truthy(context) then StoreAll(context, kept) else [];
      if kept == [] then Sheet("", stored) else Sheet(compile(kept), stored)
  }

  /** Every stored rule comes from a renderable rule of the collection, under
      the given context, one per renderable rule; with no renderable rule the
      stylesheet is empty. */
  lemma StylesheetOrigins(rules: Value, context: Value, compile: seq<Value> -> string)
    ensures var r := GetStylesheetFromCssRules(rules, context, compile);
            && ((forall x :: x in ValuesOf(rules) ==> !Renderable(x)) ==> r.css == "")
            && (Truthy(rules) && Truthy(context) ==>
                  |r.stored| == |Renderables(ValuesOf(rules))| &&
                  forall s :: s in r.stored ==>
                    s.context == context &&
                    exists x :: x in ValuesOf(rules) && Renderable(x) &&
                      s.selector == Get(x, SELECTOR) && s.declarations == Get(x, DECLARATIONS))
  {
    var r := GetStylesheetFromCssRules(rules, context, compile);
    var kept := Renderables(ValuesOf(rules));
    if kept != [] {
      assert kept[0] in kept;
    }
    if Truthy(rules) && Truthy(context) {
      forall s | s in r.stored
        ensures s.context == context
        ensures exists x :: x in ValuesOf(rules) && Renderable(x) &&
                  s.selector == Get(x, SELECTOR) && s.declarations == Get(x, DECLARATIONS)
      {
        var i :| 0 <= i < |r.stored| && r.stored[i] == s;
        assert kept[i] in kept;
      }
    }
  }

  /** A collection of one rule with a selector and declarations is stored
      as that one rule under a non-empty context. */
  lemma SingleRuleStored(rules: Value, rule: Value, context: Value, compile: seq<Value> -> string)
    requires ValuesOf(rules) == [rule] && Truthy(context)
    requires Truthy(Get(rule, SELECTOR))
    requires Get(rule, DECLARATIONS).VArr? && Get(rule, DECLARATIONS).entries != []
    ensures var s := GetStylesheetFromCssRules(PreprocessCssRules(rules), context, compile);
            |s.stored| == 1 && s.stored[0].context == context && s.stored[0].selector == Get(rule, SELECTOR)
  {
    var pre := PreprocessCssRules(rules);
    var p := pre.entries[0].1;
    assert ValuesOf(pre) == [p];
    assert Truthy(pre);
    assert Renderable(p);
    assert Renderables([p]) == [p];
    var st := StoreAll(context, [p]);
    assert st[0].selector == Get(rule, SELECTOR);
  }
}
