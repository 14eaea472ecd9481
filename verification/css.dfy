/** The CSS a block module emits, and what happens to it (BlockUtils'
    `add_styles_from_css_rules` and `add_style_for_media_query`): rules are
    encoded as PHP arrays, preprocessed, and stored under the `core`
    context. Markup changes are kept abstract: the classes appended to the
    first tag, the inline declarations and the attributes set on it. */
module Css {
  import opened Php
  import opened Wrappers
  import OrderedMap
  import StyleEngine

  /** Declarations in the order they are assigned: property and value. */
  type Decls = seq<(string, Value)>

  /** A selector with its declarations. */
  datatype Block = Block(selector: string, decls: Decls)

  /** A top-level rule: a plain block, or a media query wrapping blocks. */
  datatype CssRule = Plain(block: Block) | Media(query: string, blocks: seq<Block>)

  /** What one `render_block` filter does to the block's markup and to the
      style store: classes appended to the first tag, declarations added to
      its inline style, attributes set on it, and the rule lists passed to
      `add_styles_from_css_rules`, one list per call. */
  datatype Effect = Effect(classes: seq<string>, inline: Decls, attributes: seq<(string, string)>, styles: seq<seq<CssRule>>)

  /** The block is returned as it came. */
  const NO_EFFECT := Effect([], [], [], [])

  /** Two filters' changes one after the other: classes, declarations,
      attributes and style lists of the first, then of the second. */
  function Then(a: Effect, b: Effect): (r: Effect)
    ensures a == NO_EFFECT ==> r == b
    ensures b == NO_EFFECT ==> r == a
    ensures r == NO_EFFECT <==> a == NO_EFFECT && b == NO_EFFECT
  {
    Effect(a.classes + b.classes, a.inline + b.inline, a.attributes + b.attributes, a.styles + b.styles)
  }

  /** `@media screen and (width <= W)`, the query below a switch width. */
  function Below(width: Value): string {
    "@media screen and (width <= " + ToStr(width) + ")"
  }

  /** `@media screen and (width > W)`, the query above a switch width. */
  function Above(width: Value): string {
    "@media screen and (width > " + ToStr(width) + ")"
  }

  /** `add_style_for_media_query($media_query, $selector, $css_rules)`: one
      media rule wrapping one selector rule. */
  function ForMediaQuery(query: string, selector: string, decls: Decls): (r: seq<CssRule>) {
    [Media(query, [Block(selector, decls)])]
  }

  /** A rule as a PHP array: `selector` and `declarations`. */
  function Rule(selector: Value, decls: Value): (r: Value)
    ensures r.VArr? && OrderedMap.Valid(r.entries)
    ensures Get(r, StyleEngine.SELECTOR) == selector && Get(r, StyleEngine.DECLARATIONS) == decls
  {
    StyleEngine.RuleKeysDistinct();
    VArr([(StyleEngine.SELECTOR, selector), (StyleEngine.DECLARATIONS, decls)])
  }

  /** The value a property ends up with in a declaration list: its last
      assignment. */
  function Declared(d: Decls, p: string): (r: Option<Value>)
    ensures r.None? <==> p !in OrderedMap.Keys(d)
  {
    OrderedMap.FindLast(d, p)
  }

  /** A property's value in two lists given one after the other: the
      second list's when it sets the property, else the first's. */
  lemma {:induction false} DeclaredAppend(a: Decls, b: Decls, p: string)
    ensures Declared(a + b, p) == if Declared(b, p).Some? then Declared(b, p) else Declared(a, p)
  {
    if b != [] {
      var n := |b| - 1;
      assert (a + b)[..|a + b| - 1] == a + b[..n];
      DeclaredAppend(a, b[..n], p);
    } else {
      assert a + b == a;
    }
  }

  /** Lookups in a short list, one pair at a time from the end. */
  lemma DeclaredPair(d: Decls, p: string)
    requires d != []
    ensures Declared(d, p) == if d[|d| - 1].0 == p then Some(d[|d| - 1].1) else Declared(d[..|d| - 1], p)
  {
  }

  lemma DeclaredOne(a: (string, Value), p: string)
    ensures Declared([a], p) == if a.0 == p then Some(a.1) else None
  {
    DeclaredPair([a], p);
  }

  lemma DeclaredTwo(a: (string, Value), b: (string, Value), p: string)
    ensures Declared([a, b], p) == if b.0 == p then Some(b.1) else if a.0 == p then Some(a.1) else None
  {
    DeclaredPair([a, b], p);
    assert [a, b][..1] == [a];
    DeclaredPair([a], p);
  }

  lemma DeclaredThree(a: (string, Value), b: (string, Value), c: (string, Value), p: string)
    ensures Declared([a, b, c], p) ==
              if c.0 == p then Some(c.1) else if b.0 == p then Some(b.1) else if a.0 == p then Some(a.1) else None
  {
    DeclaredPair([a, b, c], p);
    assert [a, b, c][..2] == [a, b];
    DeclaredPair([a, b], p);
    assert [a, b][..1] == [a];
    DeclaredPair([a], p);
  }

  /** The declarations under their PHP array keys. */
  function Keyed(d: Decls): (r: seq<(Key, Value)>)
    ensures |r| == |d|
  {
    if d == [] then [] else Keyed(d[..|d| - 1]) + [(KeyOf(d[|d| - 1].0), d[|d| - 1].1)]
  }

  /** Declarations as a PHP array literal: a property given twice keeps
      its first position and its last value. */
  function EncodeDecls(d: Decls): (r: Value)
    ensures r.VArr?
  {
    VArr(OrderedMap.PutAll([], Keyed(d)))
  }

  /** The PHP array holds each property under its key with its last
      value, and nothing else. */
  lemma EncodeDeclsLookup(d: Decls, p: string)
    ensures Get(EncodeDecls(d), KeyOf(p)) == Declared(d, p).GetOr(VNull)
  {
    KeyedLast(d, p);
  }

  lemma {:induction false} KeyedLast(d: Decls, p: string)
    ensures OrderedMap.FindLast(Keyed(d), KeyOf(p)) == Declared(d, p)
  {
    if d != [] {
      var n := |d| - 1;
      KeyedLast(d[..n], p);
      KeyOfKeyText(p);
      KeyOfKeyText(d[n].0);
      assert Keyed(d)[..n] == Keyed(d[..n]);
    }
  }

  function EncodeBlock(b: Block): Value {
    Rule(VStr(b.selector), EncodeDecls(b.decls))
  }

  function EncodeBlocks(bs: seq<Block>): (r: seq<Value>)
    ensures |r| == |bs|
  {
    if bs == [] then [] else [EncodeBlock(bs[0])] + EncodeBlocks(bs[1..])
  }

  function EncodeRule(r: CssRule): Value {
    match r
    case Plain(b) => EncodeBlock(b)
    case Media(q, bs) => Rule(VStr(q), List(EncodeBlocks(bs)))
  }

  function EncodeRules(rs: seq<CssRule>): (r: seq<Value>)
    ensures |r| == |rs|
  {
    if rs == [] then [] else [EncodeRule(rs[0])] + EncodeRules(rs[1..])
  }

  /** A list of rules as the PHP array the modules build. */
  function Encode(rs: seq<CssRule>): (r: Value)
    ensures r.VArr? && |r.entries| == |rs|
  {
    List(EncodeRules(rs))
  }

  /** `add_styles_from_css_rules`: nothing for an empty list; otherwise the
      rules are preprocessed and handed to `get_stylesheet_from_css_rules`
      with the `core` context. */
  function AddStylesFromCssRules(rules: Value, compile: seq<Value> -> string): (r: StyleEngine.Sheet)
    ensures !Truthy(rules) ==> r == StyleEngine.Sheet("", [])
    ensures Truthy(rules) ==>
              r == StyleEngine.GetStylesheetFromCssRules(StyleEngine.PreprocessCssRules(rules), VStr("core"), compile)
  {
    if !Truthy(rules) then StyleEngine.Sheet("", [])
    else StyleEngine.GetStylesheetFromCssRules(StyleEngine.PreprocessCssRules(rules), VStr("core"), compile)
  }

  /** A media-query rule with a non-empty query always reaches the `core`
      store, as exactly one rule under that query. */
  lemma MediaQueryStored(query: string, selector: string, decls: Decls, compile: seq<Value> -> string)
    requires query != "" && query != "0"
    ensures var s := AddStylesFromCssRules(Encode(ForMediaQuery(query, selector, decls)), compile);
            |s.stored| == 1 && s.stored[0].context == VStr("core") && s.stored[0].selector == VStr(query)
  {
    var rules := Encode(ForMediaQuery(query, selector, decls));
    var media := MediaValue(query, selector, decls);
    EncodeMediaOne(query, selector, decls);
    assert Truthy(rules);
    assert Truthy(VStr("core"));
    assert Truthy(Get(media, StyleEngine.SELECTOR));
    StyleEngine.SingleRuleStored(rules, media, VStr("core"), compile);
    assert AddStylesFromCssRules(rules, compile) ==
           StyleEngine.GetStylesheetFromCssRules(StyleEngine.PreprocessCssRules(rules), VStr("core"), compile);
  }

  /** The encoded media rule around one block. */
  function MediaValue(query: string, selector: string, decls: Decls): Value {
    Rule(VStr(query), List([EncodeBlock(Block(selector, decls))]))
  }

  /** The encoding of one media query around one block is that single
      rule, selected by the query and holding the block. */
  lemma EncodeMediaOne(query: string, selector: string, decls: Decls)
    ensures ValuesOf(Encode(ForMediaQuery(query, selector, decls))) == [MediaValue(query, selector, decls)]
    ensures Get(MediaValue(query, selector, decls), StyleEngine.SELECTOR) == VStr(query)
    ensures var d := Get(MediaValue(query, selector, decls), StyleEngine.DECLARATIONS); d.VArr? && d.entries != []
  {
    var media := MediaValue(query, selector, decls);
    assert EncodeBlocks([Block(selector, decls)]) == [EncodeBlock(Block(selector, decls))];
    assert EncodeRules(ForMediaQuery(query, selector, decls)) == [media];
    ListValues([media]);
  }
}
