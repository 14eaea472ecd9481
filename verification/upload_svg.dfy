/** SVG upload (UploadSVG): lets users who may upload files add SVG and
    compressed SVG images, refuses files the sanitiser cannot clean, and
    adjusts how SVG attachments are typed, sized and rendered. The
    WordPress calls the module makes (the file type check, the capability
    check, the sanitiser, the attachment's MIME type) are parameters. */
module UploadSVG {
  import opened Wrappers
  import opened Php
  import Text

  const IMAGE_SVG_XML := "image/svg+xml"
  const TMP_NAME := StrKey("tmp_name")
  const ERROR := StrKey("error")
  const TYPE := StrKey("type")
  const EXT := StrKey("ext")
  const SIZES := StrKey("sizes")
  const SVG := "svg"
  const SVGZ := "svgz"
  const NOT_ALLOWED := "Sorry, you are not allowed to upload SVG files."
  const NOT_SANITIZED := "Sorry, this file couldn't be sanitized so for security reasons wasn't uploaded"

  /** The identification header of a gzip member: ID1, ID2 and the deflate
      compression method (section 2.3.1 of RFC 1952). */
  const GZIP_MAGIC: string := [31 as char, 139 as char, 8 as char]

  /** The type WordPress settled on, or '' when that is empty, compared
      strictly with the SVG type. */
  predicate IsSvgType(checkedType: Value) {
    (if Truthy(checkedType) then checkedType else VStr("")) == VStr(IMAGE_SVG_XML)
  }

  /** `handle_svg_file`: a file without a temporary name, or not typed as
      SVG, passes unchanged; an SVG gets an error when the user may not
      upload SVGs, or when the sanitiser fails on it. */
  function HandleSvgFile(file: Value, checkedType: Value, canUpload: bool, sanitized: bool): (r: Value)
    ensures !IsSet(file, TMP_NAME) || checkedType != VStr(IMAGE_SVG_XML) ==> r == file
    ensures IsSet(file, TMP_NAME) && checkedType == VStr(IMAGE_SVG_XML) && canUpload && sanitized ==> r == file
    ensures r != file ==> Get(r, ERROR) == VStr(if canUpload then NOT_SANITIZED else NOT_ALLOWED)
    ensures forall k :: k != ERROR ==> Get(r, k) == Get(file, k)
  {
    if !IsSet(file, TMP_NAME) then file
    else if !IsSvgType(checkedType) then file
    else if !canUpload then Set(file, ERROR, VStr(NOT_ALLOWED))
    else if !sanitized then Set(file, ERROR, VStr(NOT_SANITIZED))
    else file
  }

  /** An SVG upload is refused exactly when the user lacks the right or the
      file cannot be sanitised; running the filter a second time (it is
      hooked on both the upload and the sideload path) adds nothing. */
  lemma HandleSvgFileRefusal(file: Value, checkedType: Value, canUpload: bool, sanitized: bool)
    requires IsSet(file, TMP_NAME) && checkedType == VStr(IMAGE_SVG_XML)
    ensures var r := HandleSvgFile(file, checkedType, canUpload, sanitized);
            (Get(r, ERROR) == VStr(NOT_ALLOWED) || Get(r, ERROR) == VStr(NOT_SANITIZED)) <==>
              (!canUpload || !sanitized) || Get(file, ERROR) == VStr(NOT_ALLOWED) || Get(file, ERROR) == VStr(NOT_SANITIZED)
    ensures var r := HandleSvgFile(file, checkedType, canUpload, sanitized);
            HandleSvgFile(r, checkedType, canUpload, sanitized) == r
  {
    var r := HandleSvgFile(file, checkedType, canUpload, sanitized);
    if r != file {
      assert IsSet(r, TMP_NAME) && r.VArr? && IsSet(r, ERROR);
      SetSame(r, ERROR);
    }
  }

  /** `is_gzipped`: the header is found at position 0. */
  predicate IsGzipped(contents: string) {
    Text.IndexOf(contents, GZIP_MAGIC) == Some(0)
  }

  /** Being found first at position 0 is the same as starting with the
      header. */
  lemma IsGzippedStartsWith(contents: string)
    ensures IsGzipped(contents) <==> Text.StartsWith(contents, GZIP_MAGIC)
  {
    if Text.StartsWith(contents, GZIP_MAGIC) {
      assert Text.OccursAt(contents, GZIP_MAGIC, 0);
      assert Text.Contains(contents, GZIP_MAGIC);
    }
  }

  /** `zend_binary_strncmp(s1, |s1|, s2, |s2|, length) == 0`: the first
      `length` bytes agree, and both strings are at least `length` long or
      equally long. */
  predicate BinaryStrncmpZero(s1: string, s2: string, length: nat) {
    var k := Min(length, Min(|s1|, |s2|));
    s1[..k] == s2[..k] && Min(length, |s1|) == Min(length, |s2|)
  }

  function Min(a: nat, b: nat): nat {
    if a <= b then a else b
  }

  /** `substr_compare($main, $str, $offset, $length) === 0` as PHP 8
      evaluates it: a zero length compares equal; a negative offset counts
      from the end and is clamped at the start; an offset past the end
      throws, which is `None`. */
  function SubstrCompareZero(main: string, str: string, offset: int, length: nat): (r: Option<bool>)
    ensures r.None? <==> length != 0 && offset > |main|
  {
    if length == 0 then Some(true)
    else
      var start := if offset < 0 then (if |main| + offset < 0 then 0 else |main| + offset) else offset;
      if start > |main| then None
      else Some(BinaryStrncmpZero(main[start..], str, length))
  }

  /** `str_ends_with`, the module's own fallback: an empty haystack does
      not end with a non-empty needle; otherwise the last `strlen(needle)`
      bytes are compared. */
  predicate StrEndsWith(haystack: string, needle: string) {
    if haystack == "" && needle != "" then false
    else SubstrCompareZero(haystack, needle, -|needle|, |needle|) == Some(true)
  }

  /** The fallback agrees with the plain suffix test on every input,
      including needles longer than the haystack. */
  lemma StrEndsWithAgrees(haystack: string, needle: string)
    ensures StrEndsWith(haystack, needle) <==> Text.EndsWith(haystack, needle)
  {
    if needle != "" && haystack != "" {
      var n := |needle|;
      if n <= |haystack| {
        var tail := haystack[|haystack| - n..];
        assert SubstrCompareZero(haystack, needle, -n, n) == Some(BinaryStrncmpZero(tail, needle, n));
        assert tail[..n] == tail && needle[..n] == needle;
      } else {
        assert SubstrCompareZero(haystack, needle, -n, n) == Some(BinaryStrncmpZero(haystack, needle, n));
        assert Min(n, |haystack|) != Min(n, n);
      }
    }
  }

  /** `get_image_tag_override`: for an SVG attachment the placeholder
      `width="1" ` and `height="1" ` are filled from the requested size
      array, else from the stored dimensions, and removed when either is
      empty; every `/>` gains `role="img"`. Other images are unchanged. */
  function ImageTagOverride(html: string, isSvg: bool, size: Value, dimensions: Value): (r: string)
    ensures !isSvg ==> r == html
    ensures isSvg && !Text.Contains(html, "width=\"1\" ") && !Text.Contains(html, "height=\"1\" ") && !Text.Contains(html, "/>") ==> r == html
  {
    if !isSvg then html
    else
      var width := if size.VArr? then Get(size, IntKey(0)) else if Truthy(dimensions) then Get(dimensions, StrKey("width")) else VInt(0);
      var height := if size.VArr? then Get(size, IntKey(1)) else if Truthy(dimensions) then Get(dimensions, StrKey("height")) else VInt(0);
      var sized :=
        if Truthy(height) && Truthy(width) then
          Text.ReplaceAll(Text.ReplaceAll(html, "width=\"1\" ", "width=\"" + ToStr(width) + "\" "), "height=\"1\" ", "height=\"" + ToStr(height) + "\" ")
        else
          Text.ReplaceAll(Text.ReplaceAll(html, "width=\"1\" ", ""), "height=\"1\" ", "");
      Text.ReplaceAll(sized, "/>", " role=\"img\" />")
  }

  /** The extension `fix_mime_type_svg` decides on: the one WordPress
      found, or, when that is empty, the lower-cased text after the last
      dot of the file name. */
  function DetectedExt(data: Value, filename: Value): (ext: Value)
    ensures |ToStr(Get(data, EXT))| >= 1 ==> ext == Get(data, EXT)
    ensures |ToStr(Get(data, EXT))| < 1 ==> ext.VStr? && '.' !in ext.s
  {
    var ext := Get(data, EXT);
    if |ToStr(ext)| < 1 then VStr(Text.ToLower(Text.Last(Text.Split(ToStr(filename), '.'))))
    else ext
  }

  /** `fix_mime_type_svg`: an `svg` or `svgz` extension (compared strictly)
      sets the SVG type and that extension; anything else is returned as
      it came. */
  function FixMimeTypeSvg(data: Value, filename: Value): (r: Value)
    ensures DetectedExt(data, filename) !in {VStr(SVG), VStr(SVGZ)} ==> r == data
    ensures DetectedExt(data, filename) in {VStr(SVG), VStr(SVGZ)} ==>
              Get(r, TYPE) == VStr(IMAGE_SVG_XML) && Get(r, EXT) == DetectedExt(data, filename)
    ensures forall k :: k != TYPE && k != EXT ==> Get(r, k) == Get(data, k)
  {
    var ext := DetectedExt(data, filename);
    if ext == VStr(SVG) then Set(Set(data, TYPE, VStr(IMAGE_SVG_XML)), EXT, VStr(SVG))
    else if ext == VStr(SVGZ) then Set(Set(data, TYPE, VStr(IMAGE_SVG_XML)), EXT, VStr(SVGZ))
    else data
  }

  /** Fixing an already fixed result changes nothing (the filter runs for
      every file type check of one upload). */
  lemma FixMimeTypeSvgIdempotent(data: Value, filename: Value)
    ensures FixMimeTypeSvg(FixMimeTypeSvg(data, filename), filename) == FixMimeTypeSvg(data, filename)
  {
    var r := FixMimeTypeSvg(data, filename);
    if r != data {
      var ext := DetectedExt(data, filename);
      assert |ToStr(ext)| >= 1;
      assert DetectedExt(r, filename) == ext;
      SetSame(r, TYPE);
      SetSame(r, EXT);
    }
  }

  /** Without an extension from WordPress, a name whose last part reads
      `svg` in any letter case is typed as SVG. */
  lemma UpperCaseNameIsSvg(data: Value, stem: string, last: string)
    requires Get(data, EXT) == VNull
    requires '.' !in last && Text.ToLower(last) == SVG
    ensures var r := FixMimeTypeSvg(data, VStr(stem + "." + last));
            Get(r, TYPE) == VStr(IMAGE_SVG_XML) && Get(r, EXT) == VStr(SVG)
  {
    Text.SplitLastPiece(stem, last, '.');
  }

  /** An extension WordPress already found wins over the file name. */
  lemma FoundExtWins(data: Value, filename: Value)
    requires Get(data, EXT) == VStr("png")
    ensures FixMimeTypeSvg(data, filename) == data
  {
    assert "png"[0] != SVG[0];
  }

  /** `allow_svg_uploads`: with the DOM extension present and a user who may
      upload SVGs, both SVG extensions map to the SVG type; otherwise the
      list is returned unchanged. */
  function AllowSvgUploads(mimes: Value, hasDomDocument: bool, canUpload: bool): (r: Value)
    ensures !hasDomDocument || !canUpload ==> r == mimes
    ensures hasDomDocument && canUpload ==>
              Get(r, StrKey(SVG)) == VStr(IMAGE_SVG_XML) && Get(r, StrKey(SVGZ)) == VStr(IMAGE_SVG_XML)
    ensures forall k :: k != StrKey(SVG) && k != StrKey(SVGZ) ==> Get(r, k) == Get(mimes, k)
  {
    if !hasDomDocument then mimes
    else if canUpload then Set(Set(mimes, StrKey(SVG), VStr(IMAGE_SVG_XML)), StrKey(SVGZ), VStr(IMAGE_SVG_XML))
    else mimes
  }

  /** Allowing twice is allowing once. */
  lemma AllowSvgUploadsIdempotent(mimes: Value, hasDomDocument: bool, canUpload: bool)
    ensures var r := AllowSvgUploads(mimes, hasDomDocument, canUpload);
            AllowSvgUploads(r, hasDomDocument, canUpload) == r
  {
    var r := AllowSvgUploads(mimes, hasDomDocument, canUpload);
    if hasDomDocument && canUpload {
      assert "svg"[..3] != "svgz"[..3] || |"svg"| != |"svgz"|;
      SetSame(r, StrKey(SVG));
      SetSame(r, StrKey(SVGZ));
    }
  }

  /** `disable_srcset`: the image meta of an SVG attachment loses its
      sizes, so no `srcset` is built; any other meta is unchanged. */
  function DisableSrcset(meta: Value, attachmentId: Value, isSvg: bool): (r: Value)
    ensures Truthy(attachmentId) && isSvg && meta.VArr? ==> Get(r, SIZES) == VArr([]) && r.VArr?
    ensures !(Truthy(attachmentId) && isSvg && meta.VArr?) ==> r == meta
    ensures forall k :: k != SIZES ==> Get(r, k) == Get(meta, k)
  {
    if Truthy(attachmentId) && isSvg && meta.VArr? then Set(meta, SIZES, VArr([])) else meta
  }

  /** Clearing the sizes twice is clearing them once. */
  lemma DisableSrcsetIdempotent(meta: Value, attachmentId: Value, isSvg: bool)
    ensures var r := DisableSrcset(meta, attachmentId, isSvg);
            DisableSrcset(r, attachmentId, isSvg) == r
  {
    var r := DisableSrcset(meta, attachmentId, isSvg);
    if r != meta {
      SetSame(r, SIZES);
    }
  }
}
