/** Image input checks and normalisation: the size and MIME validators that raise
    `ValueError`, URL acceptance, the extension-probing download, base64 data-URI
    handling, and temporary-file cleanup. */
module ImageUtils {

  import opened Wrappers
  import opened Strings
  import opened Exceptions
  import opened Io
  import Config

  const TooLargeMessage: string := "Image file too large. Maximum size allowed is "
  const UnsupportedFormatMessage: string := "Unsupported image format. Allowed formats: "
  /** The subtypes of the allowed MIME types, in one of the orders Python's set
      iteration may produce. */
  const AllowedFormatsText: string := "jpeg, png, gif, webp"

  /** `validate_image_size`: returns `True`, or raises `ValueError` when the size
      exceeds the maximum. A size equal to the maximum is accepted. */
  function ValidateImageSize(fileSize: int, maxSize: int): (r: Result<bool, Exc>)
    ensures r.Success? <==> fileSize <= maxSize
    ensures r.Success? ==> r.value
    ensures r.Failure? ==> r.error.cls == ValueError && StartsWith(r.error.text, TooLargeMessage)
  {
    if fileSize > maxSize then Failure(Raise(ValueError, TooLargeMessage)) else Success(true)
  }

  /** `validate_image_format`: returns `True` for the four allowed MIME types and
      raises `ValueError` for anything else. `None` stands for a missing type. */
  function ValidateImageFormat(mimeType: Option<string>): (r: Result<bool, Exc>)
    ensures r.Success? <==> mimeType.Some? && mimeType.value in Config.AllowedMimeTypes
    ensures r.Success? ==> r.value
    ensures r.Failure? ==> r.error.cls == ValueError && StartsWith(r.error.text, UnsupportedFormatMessage)
  {
    if mimeType.Some? && mimeType.value in Config.AllowedMimeTypes then Success(true)
    else Failure(Raise(ValueError, UnsupportedFormatMessage + AllowedFormatsText))
  }

  /** `is_valid_url`: never raises. `data:` URLs are refused before parsing; other
      strings need an http(s) scheme, a host and a path, and a parse error counts
      as invalid. */
  function IsValidUrl(url: string, urlparse: string -> Result<ParsedUrl, Exc>): (ok: bool)
    ensures StartsWith(url, "data:") ==> !ok
    ensures ok <==>
      && !StartsWith(url, "data:")
      && urlparse(url).Success?
      && urlparse(url).value.scheme in {"http", "https"}
      && urlparse(url).value.netloc != ""
      && urlparse(url).value.path != ""
  {
    if StartsWith(url, "data:") then false
    else
      match urlparse(url)
      case Failure(_) => false
      case Success(p) => p.scheme in {"http", "https"} && p.netloc != "" && p.path != ""
  }

  /** `url.split('?')[0].split('#')[0]`: the URL cut at its first `?`, then at its
      first `#`. */
  function BaseUrl(url: string): (base: string)
    ensures StartsWith(url, base)
    ensures '?' !in base && '#' !in base
    ensures '?' !in url && '#' !in url ==> base == url
    ensures base == url || url[|base|] == '?' || url[|base|] == '#'
  {
    var noQuery := Split(url, '?')[0];
    FirstPieceIsPrefix(url, '?');
    FirstPieceIsPrefix(noQuery, '#');
    Split(noQuery, '#')[0]
  }

  /** Index of the last `.` in `s`. */
  function LastDot(s: string): (r: Option<nat>)
    ensures r.Some? ==> r.value < |s| && s[r.value] == '.' && forall k :: r.value < k < |s| ==> s[k] != '.'
    ensures r.None? ==> '.' !in s
    decreases |s|
  {
    if |s| == 0 then None
    else if s[|s| - 1] == '.' then Some(|s| - 1)
    else LastDot(s[..|s| - 1])
  }

  /** `re.sub(r'\.[^.]+$', '', s)`: removes the last `.` and everything after it,
      provided at least one character follows that dot. A string with no dot, or
      ending in a dot, is unchanged. */
  function DropLastSuffix(s: string): (r: string)
    ensures StartsWith(s, r)
    ensures r != s <==> exists i :: 0 <= i < |s| - 1 && s[i] == '.' && '.' !in s[i + 1..]
    ensures r != s ==> s[|r|] == '.' && '.' !in s[|r| + 1..] && |r| + 1 < |s|
  {
    match LastDot(s)
    case None => s
    case Some(i) =>
      if i == |s| - 1 then
        assert forall j :: 0 <= j < |s| - 1 && s[j] == '.' ==> s[|s| - 1] in s[j + 1..];
        s
      else
        var tail := s[i + 1..];
        assert forall k :: 0 <= k < |tail| ==> tail[k] == s[i + 1 + k];
        s[..i]
  }

  /** The candidate suffixes of `download_image`, in order; the first means "the
      URL as given". */
  const ProbeExtensions: seq<string> := ["", ".jpg", ".jpeg", ".png", ".gif", ".webp"]

  /** The base URL ends, ignoring case, with one of the known image extensions. */
  predicate HasImageExtension(base: string) {
    exists k :: 1 <= k < |ProbeExtensions| && EndsWith(Lower(base), ProbeExtensions[k])
  }

  /** The URLs `download_image` tries for `base`, in order: just `base` when it
      already has an image extension; otherwise `base` itself followed by `base`
      with its last dot-suffix replaced by each known extension in turn. */
  function Candidates(base: string): (r: seq<string>)
    ensures HasImageExtension(base) ==> r == [base]
    ensures !HasImageExtension(base) ==> |r| == |ProbeExtensions|
    ensures r[0] == base
    ensures forall k :: 1 <= k < |r| ==> r[k] == DropLastSuffix(base) + ProbeExtensions[k]
  {
    if HasImageExtension(base) then [base]
    else
      seq(|ProbeExtensions|, k requires 0 <= k < |ProbeExtensions| =>
        if ProbeExtensions[k] == "" then base else DropLastSuffix(base) + ProbeExtensions[k])
  }

  /** A string with no upper-case ASCII letter is its own lower-case form. */
  lemma LowerOfLowercase(e: string)
    requires forall k :: 0 <= k < |e| ==> !('A' <= e[k] <= 'Z')
    ensures Lower(e) == e
  {
  }

  /** Appending a lower-case extension leaves a string that ends with it even after
      lower-casing. */
  lemma LowerEndsWithAppended(p: string, e: string)
    requires Lower(e) == e
    ensures EndsWith(Lower(p + e), e)
  {
    LowerSlice(p + e, |p|, |p + e|);
    assert (p + e)[|p|..] == e;
  }

  /** No URL is tried twice: the candidates are pairwise distinct. */
  lemma CandidatesDistinct(base: string)
    ensures forall i, j :: 0 <= i < j < |Candidates(base)| ==> Candidates(base)[i] != Candidates(base)[j]
  {
    var r := Candidates(base);
    if !HasImageExtension(base) {
      var p := DropLastSuffix(base);
      forall k | 1 <= k < |ProbeExtensions|
        ensures r[k] != base
      {
        LowerOfLowercase(ProbeExtensions[k]);
        LowerEndsWithAppended(p, ProbeExtensions[k]);
      }
      forall i, j | 1 <= i < j < |ProbeExtensions|
        ensures r[i] != r[j]
      {
        assert r[i][|p|..] == ProbeExtensions[i];
        assert r[j][|p|..] == ProbeExtensions[j];
      }
    }
  }

  /** What one GET of a candidate URL gave: an image body, a response of another
      content type, or an error (raised by `requests.get` or `raise_for_status`). */
  datatype Attempt = GotImage(body: Bytes) | NotAnImage | Errored(error: Exc)

  const DownloadTimeout: int := 10

  /** One iteration of the download loop: a GET with a 10-second timeout, the
      status check, then the `content-type` must start with `image/` (a missing
      header reads as the empty string). */
  function Fetch(url: string, httpGet: GetRequest -> HttpOutcome): (a: Attempt)
    ensures var reply := httpGet(GetRequest(url, map[], DownloadTimeout));
      && (a.GotImage? <==>
            && reply.Replied? && !(400 <= reply.response.status < 600)
            && StartsWith(reply.response.contentType.GetOr(""), "image/"))
      && (a.GotImage? ==> a.body == reply.response.content)
      && (a.Errored? <==> reply.Raised? || 400 <= reply.response.status < 600)
      && (a.Errored? && reply.Raised? ==> a.error == reply.error)
      && (a.Errored? && reply.Replied? ==> a.error.cls == HTTPError)
  {
    match httpGet(GetRequest(url, map[], DownloadTimeout))
    case Raised(e) => Errored(e)
    case Replied(resp) =>
      match RaiseForStatus(resp)
      case Some(e) => Errored(e)
      case None =>
        if StartsWith(resp.contentType.GetOr(""), "image/") then GotImage(resp.content)
        else NotAnImage
  }

  /** Python's `str(last_error)` for the value the loop recorded. */
  function ErrorText(e: Option<Exc>): string {
    match e
    case None => "None"
    case Some(x) => x.text
  }

  function DownloadFailure(lastError: Option<Exc>): Exc {
    Raise(ValueError, "Failed to download image: " + ErrorText(lastError))
  }

  /** Index `j` holds the last error among `atts`. */
  predicate LastErrorAt(atts: seq<Attempt>, j: int) {
    0 <= j < |atts| && atts[j].Errored? && forall i :: j < i < |atts| ==> !atts[i].Errored?
  }

  /** Where the download loop stopped: its outcome and how many candidates it fetched. */
  datatype LoopEnd = LoopEnd(result: Result<Bytes, Exc>, count: nat)

  /** The loop of `download_image` over the attempts of its candidates, with
      `lastError` the error recorded so far. It stops at the first attempt that
      yields an image and returns that body; otherwise it has made every attempt
      and raises `ValueError` naming the last error seen, or `None` when no
      attempt failed. */
  function RunAttempts(atts: seq<Attempt>, lastError: Option<Exc>): (r: LoopEnd)
    ensures r.count <= |atts|
    ensures r.result.Success? <==> exists k :: 0 <= k < |atts| && atts[k].GotImage?
    ensures r.result.Success? ==>
      && r.count > 0
      && atts[r.count - 1] == GotImage(r.result.value)
      && forall j :: 0 <= j < r.count - 1 ==> !atts[j].GotImage?
    ensures r.result.Failure? ==> r.count == |atts|
    ensures r.result.Failure? ==> r.result.error.cls == ValueError
    ensures r.result.Failure? && (forall j :: 0 <= j < |atts| ==> !atts[j].Errored?) ==>
      r.result.error == DownloadFailure(lastError)
    ensures r.result.Failure? ==>
      forall j :: LastErrorAt(atts, j) ==> r.result.error == DownloadFailure(Some(atts[j].error))
    decreases |atts|
  {
    if |atts| == 0 then LoopEnd(Failure(DownloadFailure(lastError)), 0)
    else
      var rest := atts[1..];
      assert forall j :: 1 <= j < |atts| ==> atts[j] == rest[j - 1];
      assert forall j :: 1 <= j < |atts| && LastErrorAt(atts, j) ==> LastErrorAt(rest, j - 1);
      match atts[0]
      case GotImage(body) => LoopEnd(Success(body), 1)
      case NotAnImage =>
        var r := RunAttempts(rest, lastError);
        LoopEnd(r.result, r.count + 1)
      case Errored(e) =>
        var r := RunAttempts(rest, Some(e));
        LoopEnd(r.result, r.count + 1)
  }

  /** The URLs a download fetched, in order, and its outcome. */
  datatype Download = Download(result: Result<Bytes, Exc>, tried: seq<string>)

  /** The attempts of the candidates, as the loop would make them. */
  function AttemptsOf(cands: seq<string>, httpGet: GetRequest -> HttpOutcome): (atts: seq<Attempt>)
    ensures |atts| == |cands|
    ensures forall k :: 0 <= k < |cands| ==> atts[k] == Fetch(cands[k], httpGet)
  {
    seq(|cands|, k requires 0 <= k < |cands| => Fetch(cands[k], httpGet))
  }

  /** `download_image(url)`: fetches the candidates of the URL's base in order until
      one yields an image. */
  function DownloadImage(url: string, httpGet: GetRequest -> HttpOutcome): (d: Download)
    ensures d.tried <= Candidates(BaseUrl(url))
    ensures d.result.Failure? ==> d.tried == Candidates(BaseUrl(url))
    ensures d.result.Failure? ==> d.result.error.cls == ValueError
  {
    var cands := Candidates(BaseUrl(url));
    var e := RunAttempts(AttemptsOf(cands, httpGet), None);
    Download(e.result, cands[..e.count])
  }

  /** The download succeeds exactly when some candidate yields an image, and then
      returns the body of the first such candidate, the last URL it fetched. */
  lemma DownloadFindsFirstImage(url: string, httpGet: GetRequest -> HttpOutcome)
    ensures var cands := Candidates(BaseUrl(url));
      var d := DownloadImage(url, httpGet);
      && (d.result.Success? <==> exists k :: 0 <= k < |cands| && Fetch(cands[k], httpGet).GotImage?)
      && (d.result.Success? ==>
            && |d.tried| > 0
            && Fetch(d.tried[|d.tried| - 1], httpGet) == GotImage(d.result.value)
            && forall j :: 0 <= j < |d.tried| - 1 ==> !Fetch(d.tried[j], httpGet).GotImage?)
  {
    var cands := Candidates(BaseUrl(url));
    var atts := AttemptsOf(cands, httpGet);
    var e := RunAttempts(atts, None);
    assert forall k :: 0 <= k < |cands| ==> atts[k] == Fetch(cands[k], httpGet);
    if e.result.Success? {
      assert forall j :: 0 <= j < e.count ==> cands[..e.count][j] == cands[j];
    }
  }

  /** When every candidate answers with a non-image content type, the download
      raises `ValueError` with no recorded error: the message ends in `None`. */
  lemma DownloadAllNonImages(url: string, httpGet: GetRequest -> HttpOutcome)
    requires forall k :: 0 <= k < |Candidates(BaseUrl(url))| ==>
      Fetch(Candidates(BaseUrl(url))[k], httpGet).NotAnImage?
    ensures DownloadImage(url, httpGet).result == Failure(Raise(ValueError, "Failed to download image: None"))
  {
    var cands := Candidates(BaseUrl(url));
    var atts := AttemptsOf(cands, httpGet);
    assert forall k :: 0 <= k < |atts| ==> atts[k].NotAnImage?;
    var e := RunAttempts(atts, None);
    assert e.result.Failure?;
    assert e.result.error == DownloadFailure(None);
    assert ErrorText(None) == "None";
    assert "Failed to download image: " + "None" == "Failed to download image: None";
    assert DownloadImage(url, httpGet).result == e.result;
  }

  /** When the download fails after some fetch raised, the message carries the
      text of the last error raised. */
  lemma DownloadReportsLastError(url: string, httpGet: GetRequest -> HttpOutcome, j: nat)
    requires LastErrorAt(AttemptsOf(Candidates(BaseUrl(url)), httpGet), j)
    requires DownloadImage(url, httpGet).result.Failure?
    ensures DownloadImage(url, httpGet).result.error.text ==
      "Failed to download image: " + Fetch(Candidates(BaseUrl(url))[j], httpGet).error.text
  {
  }

  /** A URL whose base already carries an image extension is fetched exactly once,
      as given (minus query and fragment). */
  lemma KnownExtensionFetchedOnce(url: string, httpGet: GetRequest -> HttpOutcome)
    requires HasImageExtension(BaseUrl(url))
    ensures DownloadImage(url, httpGet).tried == [BaseUrl(url)]
  {
  }

  /** The base64 text of a data URI: the field between its first and second comma. */
  function Base64Field(data: string): Option<string> {
    Field(data, ',', 1)
  }

  /** The comma field exists exactly when the string contains a comma. */
  lemma Base64FieldIff(data: string)
    ensures Base64Field(data).Some? <==> ',' in data
  {
    FirstPieceIsPrefix(data, ',');
  }

  /** `is_base64_image`: never raises. Accepts exactly the strings that start with
      `data:image/` whose second comma field decodes as base64 to bytes the image
      library verifies. */
  function IsBase64Image(data: string, env: Env): (ok: bool)
    ensures ok ==> StartsWith(data, "data:image/") && ',' in data
    ensures ok <==>
      && StartsWith(data, "data:image/")
      && Base64Field(data).Some?
      && env.b64decode(Base64Field(data).value).Success?
      && env.verifyImage(env.b64decode(Base64Field(data).value).value).None?
  {
    Base64FieldIff(data);
    if !StartsWith(data, "data:image/") then false
    else
      match Base64Field(data)
      case None => false
      case Some(content) =>
        match env.b64decode(content)
        case Failure(_) => false
        case Success(bytes) => env.verifyImage(bytes).None?
  }

  /** `data.split(';')[0].split('/')[1]`: the MIME subtype written into the
      temporary file's name. */
  function Base64Extension(data: string): Option<string> {
    Field(Split(data, ';')[0], '/', 1)
  }

  function Base64TempPath(folder: string, ext: string): FilePath {
    FilePath(folder, "temp_base64." + ext)
  }

  const IndexErrorText: string := "list index out of range"

  /** What `save_base64_image` did: the path it returned or the exception it
      raised, and the directory afterwards. */
  datatype Saved = Saved(result: Result<FilePath, Exc>, fs: Fs)

  /** `save_base64_image`: derives the extension, then the base64 field, decodes it
      and writes the bytes to `temp_base64.<ext>` in the upload folder. A missing
      `/` or comma raises `IndexError`; decoding or writing errors propagate, and a
      failed write leaves behind what it wrote. */
  function SaveBase64Image(data: string, folder: string, env: Env, fs: Fs): (r: Saved)
    ensures r.result.Success? ==>
      && Base64Extension(data).Some?
      && Base64Field(data).Some?
      && env.b64decode(Base64Field(data).value).Success?
      && r.result.value == Base64TempPath(folder, Base64Extension(data).value)
      && r.fs == fs[r.result.value := env.b64decode(Base64Field(data).value).value]
    ensures Base64Extension(data).None? ==> r == Saved(Failure(Raise(IndexError, IndexErrorText)), fs)
    ensures Base64Extension(data).Some? && Base64Field(data).None? ==>
      r == Saved(Failure(Raise(IndexError, IndexErrorText)), fs)
    ensures Base64Extension(data).Some? && Base64Field(data).Some? && env.b64decode(Base64Field(data).value).Failure? ==>
      r == Saved(Failure(env.b64decode(Base64Field(data).value).error), fs)
    ensures Base64Extension(data).Some? && Base64Field(data).Some? && env.b64decode(Base64Field(data).value).Success? ==>
      var path := Base64TempPath(folder, Base64Extension(data).value);
      var w := WriteFile(fs, path, env.b64decode(Base64Field(data).value).value, env);
      && r.fs == w.fs
      && (r.result.Failure? <==> w.error.Some?)
      && (r.result.Failure? ==> r.result.error == w.error.value)
  {
    match Base64Extension(data)
    case None => Saved(Failure(Raise(IndexError, IndexErrorText)), fs)
    case Some(ext) =>
      match Base64Field(data)
      case None => Saved(Failure(Raise(IndexError, IndexErrorText)), fs)
      case Some(content) =>
        match env.b64decode(content)
        case Failure(e) => Saved(Failure(e), fs)
        case Success(bytes) =>
          var path := Base64TempPath(folder, ext);
          var w := WriteFile(fs, path, bytes, env);
          match w.error
          case Some(e) => Saved(Failure(e), w.fs)
          case None => Saved(Success(path), w.fs)
  }

  /** A string that passed `is_base64_image` can always be saved, unless the write
      itself fails: its extension is the text between `data:image/` and the first
      `/` or `;` after it, and contains neither. */
  lemma {:induction false} AcceptedBase64Saves(data: string, folder: string, env: Env, fs: Fs)
    requires IsBase64Image(data, env)
    ensures Base64Extension(data).Some?
    ensures '/' !in Base64Extension(data).value && ';' !in Base64Extension(data).value
    ensures SaveBase64Image(data, folder, env, fs).result.Failure? <==>
      env.writeError(Base64TempPath(folder, Base64Extension(data).value)).Some?
  {
    var head := Split(data, ';')[0];
    var prefix := "data:image/";
    assert data[..|prefix|] == prefix;
    assert ';' !in prefix;
    PrefixBeforeSeparator(data, ';', |prefix|);
    assert head[10] == prefix[10] == '/';
    FirstPieceIsPrefix(head, '/');
    assert |Split(head, '/')| >= 2;
    assert ';' !in head;
    SplitKeepsAbsent(head, '/', ';');
  }

  /** A separator-free prefix of `s` is a prefix of its first piece. */
  lemma {:induction false} PrefixBeforeSeparator(s: string, c: char, n: nat)
    requires n <= |s| && c !in s[..n]
    ensures |Split(s, c)[0]| >= n && Split(s, c)[0][..n] == s[..n]
  {
    FirstPieceIsPrefix(s, c);
  }

  /** `cleanup_image`: never raises. Deletes the file if it exists; if deleting
      fails the directory is left as it was. Nothing else changes. */
  function CleanupImage(fs: Fs, path: FilePath, env: Env): (r: Fs)
    ensures path !in r <==> (path !in fs || env.unlinkError(path).None?)
    ensures r - {path} == fs - {path}
    ensures path in r ==> path in fs && r[path] == fs[path]
  {
    if path in fs && env.unlinkError(path).None? then fs - {path} else fs
  }
}
