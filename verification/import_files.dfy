/** Downloaded attachments (ContentImporter::fetch_remote_file and
    process_attachment): the checks a download must pass, the URL map it
    feeds, and the choice between generating image sizes locally and
    downloading the exporter's pre-generated ones. */
module ImportFiles {
  import opened Wrappers
  import OrderedMap
  import opened Php
  import opened Text
  import opened ImportSession

  /** The placeholder file `wp_upload_bits` creates, or its error. */
  datatype Upload = Upload(file: string, url: string)

  /** What the HTTP request produced: no response at all, or a status code,
      the (lower-cased) headers and the number of bytes written. */
  datatype Response =
    | NoResponse
    | Responded(code: int, headers: OrderedMap.Assoc<string, string>, size: int)

  datatype FetchError =
    | UploadDirError(message: string)
    | RemoteNotResponding
    | RemoteStatus(code: int)
    | IncorrectSize
    | ZeroSize
    | TooLarge(limit: int)

  /** The outcome of a download: the file or an error, the URL map after it,
      and whether the placeholder file was deleted. */
  datatype Fetched = Fetched(result: Result<Upload, FetchError>, urlRemap: OrderedMap.Assoc<string, string>, deleted: bool)

  /** The received size agrees with `Content-Length` under PHP 8's loose
      `!=` between an integer and a string: numerically when the header is
      a numeric string (white space around it, a sign, a fraction or an
      exponent allowed), never otherwise. */
  predicate LengthAgrees(size: int, contentLength: string) {
    LooseEqIntString(size, contentLength)
  }

  /** The size agrees with a header exactly when the header denotes it. */
  lemma LengthAgreesNumeric(size: int, contentLength: string)
    ensures LengthAgrees(size, contentLength) <==> NumericString(contentLength) == Some(size as real)
  {
    LooseEqIntNumeric(size, contentLength);
  }

  /** A run of digits followed by a non-digit ends there. */
  lemma DigitRunStops(t: string, rest: string)
    requires forall i :: 0 <= i < |t| ==> IsDigit(t[i])
    requires rest != [] && !IsDigit(rest[0])
    ensures DigitRun(t + rest) == |t|
  {
    var s := t + rest;
    assert s[|t|] == rest[0];
  }

  /** The plain decimal size (section 8.6 of RFC 9110) agrees. */
  lemma PlainLengthAgrees(size: nat)
    ensures LengthAgrees(size, NatText(size))
  {
    assert IntText(size) == NatText(size);
    IntTextNumeric(size);
    LooseEqIntNumeric(size, NatText(size));
  }

  /** The loose comparison also accepts the size after white space... */
  lemma PaddedLengthAgrees(size: nat)
    ensures LengthAgrees(size, " " + NatText(size))
  {
    var t := NatText(size);
    var s := " " + t;
    assert s[1..] == t;
    SkipDigitStart(t);
    assert SkipSpace(s) == t;
    NatTextRoundTrip(size);
    UnsignedDecimalOfDigits(t);
    assert NumericString(s) == Some(size as real);
    LooseEqIntNumeric(size, s);
  }

  /** ...after a plus sign... */
  lemma SignedLengthAgrees(size: nat)
    ensures LengthAgrees(size, "+" + NatText(size))
  {
    var t := NatText(size);
    var s := "+" + t;
    assert s[1..] == t;
    assert SkipSpace(s) == s;
    NatTextRoundTrip(size);
    UnsignedDecimalOfDigits(t);
    assert NumericString(s) == Some(size as real);
    LooseEqIntNumeric(size, s);
  }

  /** Digits with a zero fraction read as the digits' value. */
  lemma ZeroFraction(t: string)
    requires t != [] && forall i :: 0 <= i < |t| ==> IsDigit(t[i])
    ensures UnsignedDecimal(t + ".0") == Some((DigitsValue(t) as real, ""))
  {
    var s := t + ".0";
    assert DigitRun(s) == |t| && s[..|t|] == t && s[|t| + 1..] == "0" by {
      DigitRunStops(t, ".0");
    }
    DecimalPoint(s, |t|);
    AfterPointZero(DigitsValue(t) as real, |t|);
  }

  /** ...followed by white space... */
  lemma TrailingSpaceLengthAgrees(size: nat)
    ensures LengthAgrees(size, NatText(size) + " ")
  {
    var t := NatText(size);
    var s := t + " ";
    var n := |t|;
    assert DigitRun(s) == n && s[..n] == t && s[n..] == " " by {
      DigitRunStops(t, " ");
    }
    NatTextRoundTrip(size);
    var x := DigitsValue(s[..n]) as real;
    assert UnsignedDecimal(s) == Some(Exponent(x, " "));
    assert Exponent(x, " ") == (x, " ");
    assert AllSpace(" ");
    assert s[0] == t[0];
    SkipDigitStart(s);
    assert NumericString(s) == Some(size as real);
    LooseEqIntNumeric(size, s);
  }

  /** ...and with a zero fraction. */
  lemma FractionLengthAgrees(size: nat)
    ensures LengthAgrees(size, NatText(size) + ".0")
  {
    var t := NatText(size);
    var s := t + ".0";
    ZeroFraction(t);
    NatTextRoundTrip(size);
    assert s[0] == t[0];
    SkipDigitStart(s);
    assert NumericString(s) == Some(size as real);
    LooseEqIntNumeric(size, s);
  }

  /** The checks in the order the source makes them; the first failing one
      names the error. */
  function Check(resp: Response, maxSize: int): (r: Option<FetchError>)
    ensures r.None? <==> && resp.Responded? && resp.code == 200
                         && (OrderedMap.Find(resp.headers, "content-length").Some? ==>
                               LengthAgrees(resp.size, OrderedMap.Find(resp.headers, "content-length").value))
                         && resp.size != 0
                         && (maxSize == 0 || resp.size <= maxSize)
    ensures resp.NoResponse? ==> r == Some(RemoteNotResponding)
    ensures resp.Responded? && resp.code != 200 ==> r == Some(RemoteStatus(resp.code))
  {
    match resp
    case NoResponse => Some(RemoteNotResponding)
    case Responded(code, headers, size) =>
      if code != 200 then Some(RemoteStatus(code))
      else if OrderedMap.Find(headers, "content-length").Some? && !LengthAgrees(size, OrderedMap.Find(headers, "content-length").value) then Some(IncorrectSize)
      else if size == 0 then Some(ZeroSize)
      else if maxSize != 0 && size > maxSize then Some(TooLarge(maxSize))
      else None
  }

  /** `fetch_remote_file` with URL remapping on. Every rejection after the
      placeholder exists deletes it and leaves the URL map alone; success maps
      the URL, the guid and a differing final location to the local URL. */
  function FetchRemoteFile(remap: OrderedMap.Assoc<string, string>, url: string, guid: string,
                           upload: Result<Upload, string>, resp: Response, maxSize: int): (r: Fetched)
    ensures upload.Err? ==> r == Fetched(Err(UploadDirError(upload.error)), remap, false)
    ensures upload.Ok? ==> (r.result.Ok? <==> Check(resp, maxSize).None?)
    ensures r.result.Err? ==> r.urlRemap == remap
    ensures upload.Ok? && r.result.Err? ==> r.deleted && r.result == Err(Check(resp, maxSize).value)
    ensures r.result.Ok? ==>
              && !r.deleted && r.result.value == upload.value
              && OrderedMap.Find(r.urlRemap, url) == Some(upload.value.url)
              && OrderedMap.Find(r.urlRemap, guid) == Some(upload.value.url)
    ensures r.result.Ok? ==>
              var final := OrderedMap.Find(resp.headers, "x-final-location");
              final.Some? && final.value != url ==> OrderedMap.Find(r.urlRemap, final.value) == Some(upload.value.url)
    ensures r.result.Ok? ==>
              var final := OrderedMap.Find(resp.headers, "x-final-location");
              forall k :: k != url && k != guid && (final.None? || k != final.value) ==>
                OrderedMap.Find(r.urlRemap, k) == OrderedMap.Find(remap, k)
  {
    match upload
    case Err(message) => Fetched(Err(UploadDirError(message)), remap, false)
    case Ok(u) =>
      match Check(resp, maxSize)
      case Some(e) => Fetched(Err(e), remap, true)
      case None =>
        var m1 := OrderedMap.Put(OrderedMap.Put(remap, url, u.url), guid, u.url);
        var final := OrderedMap.Find(resp.headers, "x-final-location");
        var m2 := if final.Some? && final.value != url then OrderedMap.Put(m1, final.value, u.url) else m1;
        Fetched(Ok(u), m2, false)
  }

  /** A response that fails the status check is rejected whatever its size
      and headers: the checks are made in order. */
  lemma StatusCheckedBeforeSize(code: int, headers: OrderedMap.Assoc<string, string>, size: int, maxSize: int)
    requires code != 200
    ensures Check(Responded(code, headers, size), maxSize) == Some(RemoteStatus(code))
  {
  }

  /** What `wp_check_filetype` says about the downloaded file: extension and
      MIME type, each `false` when unknown. */
  datatype FileType = FileType(ext: Value, mime: Value)

  /** A MIME type in the `image` family. */
  predicate IsImage(t: FileType) {
    t.mime.VStr? && StartsWith(t.mime.s, "image/")
  }

  predicate IsSvg(t: FileType) {
    t.ext == VStr("svg") || t.mime == VStr("image/svg+xml")
  }

  /** Only raster images have sizes worth downloading. */
  predicate CanHaveResizes(t: FileType) {
    IsImage(t) && !IsSvg(t)
  }

  /** `predict_image_processing_time`: no prediction for an unknown size or
      with fewer than three samples; otherwise the predictor's estimate
      (`DownloadTimePredictor` is a parameter). */
  function Predict(stats: seq<(int, real)>, fileSize: int, predictor: (seq<(int, real)>, int) -> real): (r: Option<real>)
    ensures r.None? <==> fileSize <= 0 || |stats| < 3
    ensures r.Some? ==> r.value == predictor(stats, fileSize)
  {
    if fileSize <= 0 || |stats| < 3 then None else Some(predictor(stats, fileSize))
  }

  /** The result of importing one attachment after its download succeeded:
      the new post id (or error), whether pre-generated sizes are downloaded,
      and the statistics after the local path recorded its timing. */
  datatype Processed = Processed(postId: Result<int, string>, downloadResizes: bool, stats: seq<(int, real)>)

  /** The part of `process_attachment` after the download: the prediction is
      made only for raster images, the download path is taken only with a
      prediction above three seconds (and sizes allowed, meta present and the
      insert not failed), and a sample is recorded only on the local path for
      raster files of known size. */
  function AfterDownload(stats: seq<(int, real)>, t: FileType, allowResizes: bool, hasPostmeta: bool,
                         postId: Result<int, string>, fileSize: int,
                         predictor: (seq<(int, real)>, int) -> real, localTime: real): (r: Processed)
    ensures r.postId == postId
    ensures r.downloadResizes <==> && CanHaveResizes(t) && allowResizes && hasPostmeta && postId.Ok?
                                   && Predict(stats, fileSize, predictor).Some?
                                   && Predict(stats, fileSize, predictor).value > 3.0
    ensures r.downloadResizes || !CanHaveResizes(t) || fileSize <= 0 ==> r.stats == stats
    ensures !r.downloadResizes && CanHaveResizes(t) && fileSize > 0 ==> r.stats == stats + [(fileSize, localTime)]
  {
    var prediction := if CanHaveResizes(t) then Predict(stats, fileSize, predictor) else None;
    var download := CanHaveResizes(t) && allowResizes && hasPostmeta && postId.Ok?
                    && prediction.Some? && prediction.value > 3.0;
    if download then Processed(postId, true, stats)
    else if fileSize > 0 && CanHaveResizes(t) then Processed(postId, false, stats + [(fileSize, localTime)])
    else Processed(postId, false, stats)
  }

  /** A site-relative attachment URL is resolved against the exported
      site's base URL. */
  function AttachmentUrl(baseUrl: string, url: string): (r: string)
    ensures |url| >= 2 && url[0] == '/' ==> r == TrimRight(baseUrl, {'/'}) + url
    ensures !(|url| >= 2 && url[0] == '/') ==> r == url
  {
    if |url| >= 2 && url[0] == '/' then TrimRight(baseUrl, {'/'}) + url else url
  }

  /** The stub an image URL is remapped under: its directory and its base
      name without the extension (`pathinfo` followed by `basename` with
      the `.extension` suffix; without an extension the suffix is ".").
      Resized copies share the stub, so remapping it remaps them too. */
  function UrlStub(url: string): string {
    var base := Basename(url);
    var ext := Extension(base);
    Dirname(url) + "/" + WithoutSuffix(base, "." + (if ext.Some? then ext.value else ""))
  }

  /** The base name `name.ext` has extension `ext` and loses `.ext`. */
  lemma NameOfFile(name: string, ext: string)
    requires name != [] && '.' !in ext
    ensures Extension(name + "." + ext) == Some(ext)
    ensures WithoutSuffix(name + "." + ext, "." + ext) == name
  {
    var file := name + "." + ext;
    assert file == name + ['.'] + ext;
    SplitLastPiece(name, ext, '.');
    assert file[|name|] == '.';
    assert file[|file| - |"." + ext|..] == "." + ext;
    assert file[..|file| - |"." + ext|] == name;
  }

  /** For a URL `dir/name.ext` the stub is `dir/name`. */
  lemma UrlStubOf(dir: string, name: string, ext: string)
    requires dir != [] && dir[|dir| - 1] != '/'
    requires name != [] && '/' !in name && '/' !in ext && '.' !in ext
    ensures UrlStub(dir + "/" + name + "." + ext) == dir + "/" + name
  {
    var file := name + "." + ext;
    var url := dir + "/" + name + "." + ext;
    assert url == dir + "/" + file;
    assert '/' !in file;
    BasenameOfPath(dir, file);
    DirnameOfPath(dir, file);
    NameOfFile(name, ext);
    assert Basename(url) == file && Dirname(url) == dir;
  }

  /** After an image is imported, the stub of its source URL maps to the
      stub of its local URL; other attachments leave the map alone. */
  function RemapStub(remap: OrderedMap.Assoc<string, string>, t: FileType, url: string, localUrl: string): (r: OrderedMap.Assoc<string, string>)
    ensures IsImage(t) ==> OrderedMap.Find(r, UrlStub(url)) == Some(UrlStub(localUrl))
    ensures forall k :: k != UrlStub(url) || !IsImage(t) ==> OrderedMap.Find(r, k) == OrderedMap.Find(remap, k)
  {
    if IsImage(t) then OrderedMap.Put(remap, UrlStub(url), UrlStub(localUrl)) else remap
  }

  datatype AttachmentError = FetchingDisabled | DownloadFailed(reason: FetchError)

  /** `process_attachment`. With fetching disabled nothing happens; a failed
      download is returned as the error and leaves the session alone;
      otherwise the post is inserted, the resize decision is made, and the
      session takes the download's URL map (plus the stub entry for an
      image) and the new statistics. */
  function ProcessAttachment(s: Session, baseUrl: string, fetchEnabled: bool, allowResizes: bool, post: WxrPost,
                             url: string, hasPostmeta: bool, upload: Result<Upload, string>, resp: Response,
                             maxSize: int, t: FileType, insert: Result<int, string>, fileSize: int,
                             predictor: (seq<(int, real)>, int) -> real, localTime: real): (r: (Session, Result<Processed, AttachmentError>))
    ensures !fetchEnabled ==> r == (s, Err(FetchingDisabled))
    ensures fetchEnabled ==>
              var source := AttachmentUrl(baseUrl, url);
              var f := FetchRemoteFile(s.urlRemap, source, post.guid, upload, resp, maxSize);
              && (f.result.Err? ==> r == (s, Err(DownloadFailed(f.result.error))))
              && (f.result.Ok? ==> r.1.Ok?
                                   && r.0 == s.(urlRemap := RemapStub(f.urlRemap, t, source, f.result.value.url), stats := r.1.value.stats)
                                   && r.1.value == AfterDownload(s.stats, t, allowResizes, hasPostmeta, insert, fileSize, predictor, localTime))
  {
    if !fetchEnabled then (s, Err(FetchingDisabled))
    else
      var source := AttachmentUrl(baseUrl, url);
      var f := FetchRemoteFile(s.urlRemap, source, post.guid, upload, resp, maxSize);
      match f.result
      case Err(e) => (s, Err(DownloadFailed(e)))
      case Ok(u) =>
        var d := AfterDownload(s.stats, t, allowResizes, hasPostmeta, insert, fileSize, predictor, localTime);
        (s.(urlRemap := RemapStub(f.urlRemap, t, source, u.url), stats := d.stats), Ok(d))
  }

  /** An imported image's resized copies are found through the stub: the
      session maps `dir/name` of the source URL to `dir/name` of the local
      file. */
  lemma ImageStubRemapped(s: Session, baseUrl: string, allowResizes: bool, post: WxrPost,
                          url: string, hasPostmeta: bool, upload: Result<Upload, string>, resp: Response,
                          maxSize: int, t: FileType, insert: Result<int, string>, fileSize: int,
                          predictor: (seq<(int, real)>, int) -> real, localTime: real,
                          dir: string, name: string, ext: string)
    requires AttachmentUrl(baseUrl, url) == dir + "/" + name + "." + ext
    requires dir != [] && dir[|dir| - 1] != '/' && name != [] && '/' !in name && '/' !in ext && '.' !in ext
    requires upload.Ok? && Check(resp, maxSize).None? && IsImage(t)
    ensures var r := ProcessAttachment(s, baseUrl, true, allowResizes, post, url, hasPostmeta, upload, resp,
                                       maxSize, t, insert, fileSize, predictor, localTime);
            OrderedMap.Find(r.0.urlRemap, dir + "/" + name) == Some(UrlStub(upload.value.url))
  {
    UrlStubOf(dir, name, ext);
  }

  /** At most one timing sample per attachment, and only from a raster image
      processed locally. */
  lemma OneSamplePerAttachment(s: Session, baseUrl: string, fetchEnabled: bool, allowResizes: bool, post: WxrPost,
                               url: string, hasPostmeta: bool, upload: Result<Upload, string>, resp: Response,
                               maxSize: int, t: FileType, insert: Result<int, string>, fileSize: int,
                               predictor: (seq<(int, real)>, int) -> real, localTime: real)
    ensures var r := ProcessAttachment(s, baseUrl, fetchEnabled, allowResizes, post, url, hasPostmeta, upload, resp,
                                       maxSize, t, insert, fileSize, predictor, localTime);
            && (r.0.stats == s.stats || r.0.stats == s.stats + [(fileSize, localTime)])
            && (r.0.stats != s.stats ==> CanHaveResizes(t) && fileSize > 0 && r.1.Ok? && !r.1.value.downloadResizes)
  {
  }

  /** Pre-generated sizes are never downloaded before three samples exist. */
  lemma NoDownloadWithoutSamples(stats: seq<(int, real)>, t: FileType, allowResizes: bool, hasPostmeta: bool,
                                 postId: Result<int, string>, fileSize: int,
                                 predictor: (seq<(int, real)>, int) -> real, localTime: real)
    requires |stats| < 3
    ensures !AfterDownload(stats, t, allowResizes, hasPostmeta, postId, fileSize, predictor, localTime).downloadResizes
  {
  }
}
