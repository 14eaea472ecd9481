/** The import page's URL helpers (`sanitizeUrl` and `normalizeUrl` in
    admin/js/demo-content/page.js), with the JavaScript regular expressions
    written out: `.` does not match a line terminator and `$` (without the
    `m` flag) matches only at the very end. */
module PageUrl {
  import opened Wrappers
  import opened Text

  const SCHEME := "https://"
  /** The characters that start a query or a fragment. */
  predicate Query(c: char) {
    c == '?' || c == '#'
  }

  /** The characters `.` does not match in a JavaScript regular expression. */
  predicate LineEnd(c: char) {
    c == '\n' || c == '\r' || c == '\U{2028}' || c == '\U{2029}'
  }

  predicate NoQuery(s: string) {
    forall k :: 0 <= k < |s| ==> !Query(s[k])
  }

  predicate SingleLine(s: string) {
    forall k :: 0 <= k < |s| ==> !LineEnd(s[k])
  }

  /** The first query character at or after `from`, `|s|` when there is none. */
  function FirstQuery(s: string, from: nat): (r: nat)
    requires from <= |s|
    decreases |s| - from
    ensures from <= r <= |s|
    ensures forall k :: from <= k < r ==> !Query(s[k])
    ensures r < |s| ==> Query(s[r])
  {
    if from == |s| || Query(s[from]) then from else FirstQuery(s, from + 1)
  }

  /** The first line terminator at or after `from`, `|s|` when there is none. */
  function FirstLineEnd(s: string, from: nat): (r: nat)
    requires from <= |s|
    decreases |s| - from
    ensures from <= r <= |s|
    ensures forall k :: from <= k < r ==> !LineEnd(s[k])
    ensures r < |s| ==> LineEnd(s[r])
  {
    if from == |s| || LineEnd(s[from]) then from else FirstLineEnd(s, from + 1)
  }

  /** `.replace(/[\?#].*\/, '')`: the first `?` or `#` and the rest of its
      line are dropped. */
  function DropQuery(s: string): (r: string)
    ensures NoQuery(s) ==> r == s
    ensures SingleLine(s) ==> StartsWith(s, r) && NoQuery(r) && (|r| < |s| ==> Query(s[|r|]))
    ensures SingleLine(s) ==> SingleLine(r)
  {
    var i := FirstQuery(s, 0);
    if i == |s| then
      assert s[..i] == s;
      s
    else
      var j := FirstLineEnd(s, i + 1);
      assert SingleLine(s) ==> j == |s| && s[..i] + s[j..] == s[..i];
      s[..i] + s[j..]
  }

  /** `.replace(/\/?$/, '/')`: a slash is added unless there is one at the end. */
  function WithSlash(s: string): (r: string)
    ensures EndsWith(r, "/") && StartsWith(r, s)
    ensures EndsWith(s, "/") ==> r == s
    ensures !EndsWith(s, "/") ==> r == s + "/"
  {
    if EndsWith(s, "/") then s else s + "/"
  }

  /** Removing one occurrence of a string brings in no new character. */
  lemma ReplaceFirstKeepsOut(t: string, from: string)
    ensures NoQuery(t) ==> NoQuery(ReplaceFirst(t, from, ""))
    ensures SingleLine(t) ==> SingleLine(ReplaceFirst(t, from, ""))
  {
    match IndexOf(t, from)
    case None =>
    case Some(i) =>
      var r := t[..i] + t[i + |from|..];
      assert ReplaceFirst(t, from, "") == r;
      forall k | 0 <= k < |r| ensures r[k] == t[if k < i then k else k + |from|] {
      }
  }

  /** The step-by-step text `sanitizeUrl` strips the scheme from. */
  function Slashed(url: string): (r: string)
    ensures EndsWith(r, "/")
  {
    WithSlash(DropQuery(url))
  }

  /** `sanitizeUrl`: query and fragment dropped, a trailing slash ensured,
      the first `https://` (wherever it is) removed, and `https://` put in
      front. */
  function SanitizeUrl(url: string): (r: string)
    ensures StartsWith(r, SCHEME)
    ensures SingleLine(url) ==> NoQuery(r) && SingleLine(r)
    ensures !Contains(Slashed(url), SCHEME) ==> r == SCHEME + Slashed(url)
    ensures !EndsWith(r, "/") ==> EndsWith(Slashed(url), SCHEME)
  {
    var t := Slashed(url);
    var u := ReplaceFirst(t, SCHEME, "");
    SchemeDropKeepsOut(url, t, u);
    SchemeDropKeepsSlash(t, u);
    SCHEME + u
  }

  /** On a single line nothing brought back by the scheme removal is a
      query, fragment or line break. */
  lemma SchemeDropKeepsOut(url: string, t: string, u: string)
    requires t == Slashed(url) && u == ReplaceFirst(t, SCHEME, "")
    ensures SingleLine(url) ==> NoQuery(SCHEME + u) && SingleLine(SCHEME + u)
  {
    if SingleLine(url) {
      var d := DropQuery(url);
      assert NoQuery(d) && SingleLine(d);
      SchemeClean();
      CleanConcat(d, "/");
      assert NoQuery(t) && SingleLine(t) by {
        assert t == d || t == d + "/";
      }
      ReplaceFirstKeepsOut(t, SCHEME);
      CleanConcat(SCHEME, u);
    }
  }

  /** A concatenation is clean when both parts are. */
  lemma CleanConcat(a: string, b: string)
    ensures NoQuery(a) && NoQuery(b) ==> NoQuery(a + b)
    ensures SingleLine(a) && SingleLine(b) ==> SingleLine(a + b)
  {
    forall k | |a| <= k < |a + b| ensures (a + b)[k] == b[k - |a|] {
    }
  }

  lemma SchemeClean()
    ensures NoQuery(SCHEME) && SingleLine(SCHEME) && NoQuery("/") && SingleLine("/")
  {
    forall k | 0 <= k < |SCHEME| ensures SCHEME[k] in "htps:/" {
      if k < 4 { assert SCHEME[k] == "http"[k]; } else { assert SCHEME[k] == "s://"[k - 4]; }
    }
  }

  /** Dropping the first `https://` from a text ending in a slash keeps the
      slash unless that occurrence ends the text. */
  lemma SchemeDropKeepsSlash(t: string, u: string)
    requires EndsWith(t, "/") && u == ReplaceFirst(t, SCHEME, "")
    ensures !EndsWith(SCHEME + u, "/") ==> EndsWith(t, SCHEME)
  {
    var idx := IndexOf(t, SCHEME);
    if idx.None? {
      SlashAfter(SCHEME, t);
    } else {
      DropAt(t, idx.value);
    }
  }

  /** Cutting `https://` out at `i`: the slash stays unless the occurrence
      ends the text. */
  lemma DropAt(t: string, i: nat)
    requires EndsWith(t, "/") && OccursAt(t, SCHEME, i)
    ensures !EndsWith(SCHEME + (t[..i] + "" + t[i + |SCHEME|..]), "/") ==> EndsWith(t, SCHEME)
  {
    if i + |SCHEME| < |t| {
      DropInside(t, i);
      SlashAfter(SCHEME, t[..i] + "" + t[i + |SCHEME|..]);
    } else {
      assert t[|t| - |SCHEME|..] == t[i..i + |SCHEME|];
    }
  }

  /** A text ending in a slash still does after a prefix. */
  lemma SlashAfter(p: string, u: string)
    requires EndsWith(u, "/")
    ensures EndsWith(p + u, "/")
  {
    assert (p + u)[|p + u| - 1..] == u[|u| - 1..];
  }

  /** Cutting out an occurrence that does not end the text keeps its last
      character. */
  lemma DropInside(t: string, i: nat)
    requires EndsWith(t, "/") && i + |SCHEME| < |t|
    ensures EndsWith(t[..i] + "" + t[i + |SCHEME|..], "/")
  {
    var u := t[..i] + "" + t[i + |SCHEME|..];
    assert u[|u| - 1..] == t[|t| - 1..];
  }

  /** A clean single-line URL ending in a slash comes back unchanged. */
  lemma SanitizeUrlFixed(s: string)
    requires StartsWith(s, SCHEME) && EndsWith(s, "/")
    requires NoQuery(s) && SingleLine(s)
    ensures SanitizeUrl(s) == s
  {
    assert DropQuery(s) == s;
    assert Slashed(s) == s;
    assert s[0..|SCHEME|] == SCHEME;
    assert IndexOf(s, SCHEME) == Some(0);
    assert s[..0] + "" + s[|SCHEME|..] == s[|SCHEME|..];
    assert SCHEME + s[|SCHEME|..] == s;
  }

  /** Sanitising a single-line URL twice is sanitising it once, unless the
      first pass lost the trailing slash. */
  lemma SanitizeUrlIdempotent(url: string)
    requires SingleLine(url) && EndsWith(SanitizeUrl(url), "/")
    ensures SanitizeUrl(SanitizeUrl(url)) == SanitizeUrl(url)
  {
    SanitizeUrlFixed(SanitizeUrl(url));
  }

  /** The slash is lost when the first `https://` ends the text: a URL
      ending in `https://` keeps only what came before it. */
  lemma SanitizeUrlLosesSlash()
    ensures SanitizeUrl("ahttps://") == "https://a"
  {
    var x := "ahttps://";
    assert x == "a" + SCHEME;
    SchemeClean();
    CleanConcat("a", SCHEME);
    assert DropQuery(x) == x;
    assert Slashed(x) == x;
    assert x[0..8][0] == 'a';
    assert IndexOf(x, SCHEME) == Some(1);
    assert x[..1] + "" + x[9..] == "a";
  }

  /** An `http://` URL keeps its scheme after the new one. */
  lemma SanitizeUrlHttp()
    ensures SanitizeUrl("http://a") == "https://http://a/"
  {
    HttpSlashed();
    assert SanitizeUrl("http://a") == SCHEME + "http://a/";
  }

  lemma HttpSlashed()
    ensures Slashed("http://a") == "http://a/" && !Contains("http://a/", SCHEME)
  {
    HttpClean();
    var t := "http://a" + "/";
    assert Slashed("http://a") == t;
    assert t == "http://a/";
    HttpNoScheme();
  }

  /** The example URL has no query and one line. */
  lemma HttpClean()
    ensures NoQuery("http://a") && SingleLine("http://a") && DropQuery("http://a") == "http://a"
  {
    var x := "http://a";
    forall k | 0 <= k < |x| ensures x[k] in "htp:/a" {
      if k < 4 { assert x[k] == "http"[k]; } else { assert x[k] == "://a"[k - 4]; }
    }
  }

  /** `https://` does not occur in the slashed example URL. */
  lemma HttpNoScheme()
    ensures !Contains("http://a/", SCHEME)
  {
    var t := "http://a/";
    assert !OccursAt(t, SCHEME, 0) by {
      assert t[0..8][4] == ':';
    }
    assert !OccursAt(t, SCHEME, 1) by {
      assert t[1..9][0] == 't';
    }
  }

  /** Everything after a `?` on a later line survives. */
  lemma DropQueryMultiLine()
    ensures DropQuery("a?\nb?") == "a\nb?"
  {
    var s := "a?\nb?";
    assert FirstQuery(s, 0) == 1;
    assert FirstLineEnd(s, 2) == 2;
    assert s[..1] + s[2..] == "a\nb?";
  }

  /** The non-empty strings of `s`, in order. */
  function NonEmpty(s: seq<string>): (r: seq<string>)
    ensures |r| <= |s|
    ensures forall i :: 0 <= i < |r| ==> r[i] != [] && r[i] in s
    ensures forall x :: x in s && x != [] ==> x in r
  {
    if s == [] then [] else (if s[0] == [] then [] else [s[0]]) + NonEmpty(s[1..])
  }

  /** The host and the first path segment of the sanitised URL, with empty
      pieces left out. */
  function Segments(url: string): (r: seq<string>)
    ensures |r| <= 2
    ensures forall i :: 0 <= i < |r| ==> r[i] != [] && '/' !in r[i]
  {
    var pieces := Split(ReplaceFirst(SanitizeUrl(url), SCHEME, ""), '/');
    var firstTwo := pieces[..if |pieces| < 2 then |pieces| else 2];
    NonEmpty(firstTwo)
  }

  /** `normalizeUrl`: the segments joined by `/`, and a final `/`. */
  function NormalizeUrl(url: string): (r: string)
    ensures EndsWith(r, "/")
    ensures Segments(url) == [] ==> r == "/"
    ensures Segments(url) != [] ==> Split(r[..|r| - 1], '/') == Segments(url)
  {
    var segs := Segments(url);
    var r := Join(segs, "/") + "/";
    assert r[..|r| - 1] == Join(segs, "/");
    assert segs != [] ==> Split(Join(segs, "/"), '/') == segs by {
      if segs != [] {
        SplitJoin(segs, '/');
      }
    }
    r
  }

  /** Normalising a sanitised URL is normalising the URL. */
  lemma NormalizeSanitized(url: string)
    requires SingleLine(url) && EndsWith(SanitizeUrl(url), "/")
    ensures NormalizeUrl(SanitizeUrl(url)) == NormalizeUrl(url)
  {
    SanitizeUrlIdempotent(url);
  }

  /** Splitting after a separator-free first piece. */
  lemma {:induction false} SplitAfter(x: string, y: string, sep: char)
    requires sep !in x
    ensures Split(x + [sep] + y, sep) == [x] + Split(y, sep)
  {
    if x == [] {
      assert x + [sep] + y == [sep] + y;
      assert ([sep] + y)[1..] == y;
    } else {
      var x' := x[1..];
      assert (x + [sep] + y)[1..] == x' + [sep] + y;
      SplitAfter(x', y, sep);
      assert [x[0]] + x' == x;
    }
  }

  /** Splitting undoes joining pieces that hold no separator. */
  lemma {:induction false} SplitJoin(parts: seq<string>, sep: char)
    requires |parts| >= 1
    requires forall i :: 0 <= i < |parts| ==> sep !in parts[i]
    ensures Split(Join(parts, [sep]), sep) == parts
  {
    if |parts| == 1 {
      SplitNoSep(parts[0], sep);
    } else {
      SplitJoin(parts[1..], sep);
      SplitAfter(parts[0], Join(parts[1..], [sep]), sep);
      assert [parts[0]] + parts[1..] == parts;
    }
  }

  /** A string without the separator splits into itself. */
  lemma {:induction false} SplitNoSep(x: string, sep: char)
    requires sep !in x
    ensures Split(x, sep) == [x]
  {
    if x != [] {
      SplitNoSep(x[1..], sep);
      assert [x[0]] + x[1..] == x;
    }
  }
}
