/** The `/classify` endpoint: picks the input (base64, then URL, then upload),
    validates it before anything is written or sent, runs the classifier on a
    temporary file that is removed afterwards on every path, and composes the JSON
    response, which always carries the request id. */
module App {

  import opened Wrappers
  import opened Strings
  import opened Exceptions
  import opened Io
  import Config
  import ImageUtils
  import ErrorHandlers
  import Classifier

  /** A multipart file part. `contentType` and `contentLength` are `None` when the
      part's headers do not give them. */
  datatype Upload = Upload(filename: string, contentType: Option<string>, contentLength: Option<int>, data: Bytes)

  datatype FormData = FormData(form: map<string, string>, files: map<string, Upload>)

  /** An incoming request: its parsed form, or the exception parsing raised. */
  datatype Request = Request(parsed: Result<FormData, Exc>)

  const HotdogLabel: string := "Hotdog! \U{1F32D}"
  const NotHotdogLabel: string := "Not Hotdog! \U{274C}"
  const InvalidBase64Message: string := "Invalid base64 image data"
  const InvalidUrlMessage: string := "Invalid URL provided"
  const NoFileMessage: string := "No file selected"
  const InvalidTypeMessage: string := "Invalid file type. Allowed types: "
  const NoImageMessage: string := "No image provided"
  const InternalErrorMessage: string := "Internal server error"
  const AcceptedInputs: seq<string> := ["file", "url", "base64"]

  /** The JSON body of a response. */
  datatype Body =
    | Classified(result: string, source: string, processedUrl: Option<string>, requestId: string)
    | Failed(error: string, details: Option<Details>, requestId: string)

  datatype Response = Response(status: int, body: Body)

  /** Observable effects of a request, in order. */
  datatype Event =
    | Fetched(url: string)
    | Wrote(path: FilePath)
    | Classifying(path: FilePath)
    | Api(call: Classifier.Call)
    | CleanedUp(path: FilePath)

  /** A branch's outcome before the response is composed: what the classifier
      returned or the exception raised, the effects, the upload folder afterwards,
      and the temporary file written, if any. */
  datatype Step = Step(result: Result<bool, Exc>, trace: seq<Event>, fs: Fs, temp: Option<FilePath>)

  /** A served request: the response, the effects, the upload folder afterwards,
      and the temporary file written, if any. */
  datatype Served = Served(response: Response, trace: seq<Event>, fs: Fs, temp: Option<FilePath>)

  /** Only the temporary file may differ between `before` and `after`. */
  ghost predicate OnlyTempChanged(before: Fs, after: Fs, temp: Option<FilePath>) {
    match temp
    case None => after == before
    case Some(p) => after - {p} == before - {p}
  }

  /** A file handed to `cleanup_image` as the last effect is gone unless deleting
      it failed. */
  ghost predicate RemovedIfCleaned(trace: seq<Event>, after: Fs, env: Env) {
    |trace| > 0 && trace[|trace| - 1].CleanedUp? && env.unlinkError(trace[|trace| - 1].path).None? ==>
      trace[|trace| - 1].path !in after
  }

  /** Every file written was handed to `cleanup_image` as the last effect. */
  ghost predicate CleansUpWrites(trace: seq<Event>) {
    forall i :: 0 <= i < |trace| && (trace[i].Wrote? || trace[i].Classifying?) ==>
      trace[|trace| - 1] == CleanedUp(trace[i].path)
  }

  /** A successful result is the verdict on the text of some chat reply the trace
      posted for. */
  ghost predicate VerdictOfReply(result: Result<bool, Exc>, trace: seq<Event>, env: Env) {
    result.Success? ==> SomeReplyGives(trace, env, result.value)
  }

  /** Some chat request of `trace` got a reply whose text gives verdict `v`. */
  ghost predicate SomeReplyGives(trace: seq<Event>, env: Env, v: bool) {
    exists i :: 0 <= i < |trace| && ReplyVerdictAt(trace, i, env, v)
  }

  /** Event `i` of `trace` posted a chat request whose reply text gives verdict `v`. */
  ghost predicate ReplyVerdictAt(trace: seq<Event>, i: int, env: Env, v: bool)
    requires 0 <= i < |trace|
  {
    && trace[i].Api? && trace[i].call.ChatPost?
    && env.httpPost(trace[i].call.post).Replied?
    && env.httpPost(trace[i].call.post).response.answer.Success?
    && v == Classifier.Verdict(env.httpPost(trace[i].call.post).response.answer.value)
  }

  /** Effects put in front of a trace do not hide the reply a verdict came from. */
  lemma ReplyKeptUnderPrefix(pre: seq<Event>, trace: seq<Event>, result: Result<bool, Exc>, env: Env)
    requires VerdictOfReply(result, trace, env)
    ensures VerdictOfReply(result, pre + trace, env)
  {
    if result.Success? {
      var i :| 0 <= i < |trace| && ReplyVerdictAt(trace, i, env, result.value);
      assert (pre + trace)[|pre| + i] == trace[i];
      assert ReplyVerdictAt(pre + trace, |pre| + i, env, result.value);
    }
  }

  /** `try: classifier.classify_image(path) ... finally: cleanup_image(path)`. */
  function ClassifyThenCleanup(s: Config.Settings, env: Env, fs: Fs, path: FilePath): (st: Step)
    ensures |st.trace| >= 2 && st.trace[0] == Classifying(path) && st.trace[|st.trace| - 1] == CleanedUp(path)
    ensures forall i :: 0 < i < |st.trace| - 1 ==> st.trace[i].Api?
    ensures st.fs == ImageUtils.CleanupImage(fs, path, env)
    ensures st.result == Classifier.ClassifyImage(s, env, fs, path).result
    ensures VerdictOfReply(st.result, st.trace, env)
  {
    var o := Classifier.ClassifyImage(s, env, fs, path);
    var calls := seq(|o.calls|, i requires 0 <= i < |o.calls| => Api(o.calls[i]));
    var trace := [Classifying(path)] + calls + [CleanedUp(path)];
    if o.result.Success? then
      assert trace[2] == Api(o.calls[1]);
      assert ReplyVerdictAt(trace, 2, env, o.result.value);
      Step(o.result, trace, ImageUtils.CleanupImage(fs, path, env), Some(path))
    else
      Step(o.result, trace, ImageUtils.CleanupImage(fs, path, env), Some(path))
  }

  /** A file just written to `path` is classified and then cleaned up. */
  function ClassifyWritten(s: Config.Settings, env: Env, ghost before: Fs, written: Fs, path: FilePath): (st: Step)
    requires written - {path} == before - {path}
    ensures st.temp == Some(path)
    ensures |st.trace| >= 3 && st.trace[0] == Wrote(path) && st.trace[1] == Classifying(path)
    ensures CleansUpWrites(st.trace)
    ensures OnlyTempChanged(before, st.fs, st.temp) && RemovedIfCleaned(st.trace, st.fs, env)
    ensures st.result == Classifier.ClassifyImage(s, env, written, path).result
    ensures VerdictOfReply(st.result, st.trace, env)
  {
    var c := ClassifyThenCleanup(s, env, written, path);
    var trace := [Wrote(path)] + c.trace;
    assert trace[|trace| - 1] == CleanedUp(path);
    assert forall i :: 1 <= i < |trace| ==> trace[i] == c.trace[i - 1];
    ReplyKeptUnderPrefix([Wrote(path)], c.trace, c.result, env);
    Step(c.result, trace, c.fs, Some(path))
  }

  /** Writes `bytes` to `path` and classifies it, or stops with the write error.
      The `try` whose `finally` cleans up begins only after the write, so a write
      that fails part-way leaves what it created at `path` behind. */
  function WriteThenClassify(s: Config.Settings, env: Env, fs: Fs, path: FilePath, bytes: Bytes): (st: Step)
    ensures st.temp == Some(path)
    ensures env.writeError(path).Some? ==>
      && st.result == Failure(env.writeError(path).value)
      && st.trace == []
      && (env.partialWrite(path).None? ==> st.fs == fs)
      && (env.partialWrite(path).Some? ==> path in st.fs && st.fs[path] == env.partialWrite(path).value)
    ensures env.writeError(path).None? ==>
      && |st.trace| >= 3 && st.trace[0] == Wrote(path) && st.trace[1] == Classifying(path)
      && st.result == Classifier.ClassifyImage(s, env, fs[path := bytes], path).result
    ensures CleansUpWrites(st.trace)
    ensures OnlyTempChanged(fs, st.fs, st.temp) && RemovedIfCleaned(st.trace, st.fs, env)
    ensures VerdictOfReply(st.result, st.trace, env)
  {
    var w := WriteFile(fs, path, bytes, env);
    match w.error
    case Some(e) => Step(Failure(e), [], w.fs, Some(path))
    case None =>
      assert w.fs == fs[path := bytes];
      ClassifyWritten(s, env, fs, w.fs, path)
  }

  /** The file `save_base64_image` writes to, once the data names an extension. */
  function Base64Target(data: string, folder: string): Option<FilePath> {
    match ImageUtils.Base64Extension(data)
    case None => None
    case Some(ext) => Some(ImageUtils.Base64TempPath(folder, ext))
  }

  /** Where the URL branch writes the downloaded image. */
  function UrlTempPath(folder: string, requestId: string): FilePath {
    FilePath(folder, "temp_url_" + requestId + ".jpg")
  }

  /** Where the upload branch saves the file: the request id, an underscore and
      the sanitised name. */
  function UploadPath(folder: string, requestId: string, safeName: string): FilePath {
    FilePath(folder, requestId + "_" + safeName)
  }

  /** The base64 branch: rejected before anything is written unless
      `is_base64_image` accepts it; then saved, classified and cleaned up. */
  function Base64Branch(s: Config.Settings, env: Env, data: string, fs: Fs): (st: Step)
    ensures !ImageUtils.IsBase64Image(data, env) ==>
      st == Step(Failure(NewImageProcessingError(InvalidBase64Message, None)), [], fs, None)
    ensures CleansUpWrites(st.trace)
    ensures OnlyTempChanged(fs, st.fs, st.temp) && RemovedIfCleaned(st.trace, st.fs, env)
    ensures VerdictOfReply(st.result, st.trace, env)
  {
    if !ImageUtils.IsBase64Image(data, env) then
      Step(Failure(NewImageProcessingError(InvalidBase64Message, None)), [], fs, None)
    else
      var saved := ImageUtils.SaveBase64Image(data, s.uploadFolder, env, fs);
      match saved.result
      case Failure(e) => Step(Failure(e), [], saved.fs, Base64Target(data, s.uploadFolder))
      case Success(path) => ClassifyWritten(s, env, fs, saved.fs, path)
  }

  /** The URL branch: the stripped URL must pass `is_valid_url` before any fetch;
      the downloaded bytes go to `temp_url_<request id>.jpg`. */
  function UrlBranch(s: Config.Settings, env: Env, url: string, requestId: string, fs: Fs): (st: Step)
    ensures !ImageUtils.IsValidUrl(url, env.urlparse) ==>
      st == Step(Failure(NewImageProcessingError(InvalidUrlMessage, None)), [], fs, None)
    ensures CleansUpWrites(st.trace)
    ensures OnlyTempChanged(fs, st.fs, st.temp) && RemovedIfCleaned(st.trace, st.fs, env)
    ensures VerdictOfReply(st.result, st.trace, env)
  {
    if !ImageUtils.IsValidUrl(url, env.urlparse) then
      Step(Failure(NewImageProcessingError(InvalidUrlMessage, None)), [], fs, None)
    else
      var d := ImageUtils.DownloadImage(url, env.httpGet);
      var fetched := seq(|d.tried|, i requires 0 <= i < |d.tried| => Fetched(d.tried[i]));
      match d.result
      case Failure(e) => Step(Failure(e), fetched, fs, None)
      case Success(bytes) =>
        var w := WriteThenClassify(s, env, fs, UrlTempPath(s.uploadFolder, requestId), bytes);
        FetchesThenStep(fetched, w, env)
  }

  /** The fetches of a download followed by what came after them. */
  function FetchesThenStep(fetched: seq<Event>, w: Step, env: Env): (st: Step)
    requires forall i :: 0 <= i < |fetched| ==> fetched[i].Fetched?
    requires CleansUpWrites(w.trace)
    requires VerdictOfReply(w.result, w.trace, env)
    requires RemovedIfCleaned(w.trace, w.fs, env)
    ensures st.result == w.result && st.fs == w.fs && st.temp == w.temp
    ensures |st.trace| >= |fetched| && st.trace[..|fetched|] == fetched
    ensures CleansUpWrites(st.trace)
    ensures RemovedIfCleaned(st.trace, st.fs, env)
    ensures VerdictOfReply(st.result, st.trace, env)
  {
    var trace := fetched + w.trace;
    assert forall i :: |fetched| <= i < |trace| ==> trace[i] == w.trace[i - |fetched|];
    ReplyKeptUnderPrefix(fetched, w.trace, w.result, env);
    Step(w.result, trace, w.fs, w.temp)
  }

  /** The checks of an upload, in source order: a name, an allowed suffix of the
      lower-cased name, an allowed MIME type, then the declared length (0 when
      absent) within the maximum. The first failing check names the error. */
  function CheckUpload(s: Config.Settings, up: Upload): (e: Option<Exc>)
    ensures up.filename == "" ==> e == Some(NewImageProcessingError(NoFileMessage, None))
    ensures e.Some? ==> e.value.cls in {ImageProcessingError, ValueError}
    ensures up.filename != "" && !EndsWithAny(Lower(up.filename), Config.AllowedExtensions) ==>
      e == Some(NewImageProcessingError(InvalidTypeMessage + "png, jpg, jpeg, gif, webp", None))
    ensures up.filename != "" && EndsWithAny(Lower(up.filename), Config.AllowedExtensions) ==>
      match ImageUtils.ValidateImageFormat(up.contentType)
      case Failure(f) => e == Some(f)
      case Success(_) =>
        var size := ImageUtils.ValidateImageSize(up.contentLength.GetOr(0), s.maxContentLength);
        e == if size.Failure? then Some(size.error) else None
    ensures e.None? <==>
      && up.filename != ""
      && EndsWithAny(Lower(up.filename), Config.AllowedExtensions)
      && ImageUtils.ValidateImageFormat(up.contentType).Success?
      && ImageUtils.ValidateImageSize(up.contentLength.GetOr(0), s.maxContentLength).Success?
  {
    if up.filename == "" then Some(NewImageProcessingError(NoFileMessage, None))
    else if !EndsWithAny(Lower(up.filename), Config.AllowedExtensions) then
      Some(NewImageProcessingError(InvalidTypeMessage + "png, jpg, jpeg, gif, webp", None))
    else
      match ImageUtils.ValidateImageFormat(up.contentType)
      case Failure(e) => Some(e)
      case Success(_) =>
        match ImageUtils.ValidateImageSize(up.contentLength.GetOr(0), s.maxContentLength)
        case Failure(e) => Some(e)
        case Success(_) => None
  }

  /** The upload branch: every check runs before the file is saved as
      `<request id>_<secure name>` and classified. */
  function FileBranch(s: Config.Settings, env: Env, up: Upload, requestId: string, fs: Fs): (st: Step)
    ensures CheckUpload(s, up).Some? ==> st == Step(Failure(CheckUpload(s, up).value), [], fs, None)
    ensures CleansUpWrites(st.trace)
    ensures OnlyTempChanged(fs, st.fs, st.temp) && RemovedIfCleaned(st.trace, st.fs, env)
    ensures VerdictOfReply(st.result, st.trace, env)
  {
    match CheckUpload(s, up)
    case Some(e) => Step(Failure(e), [], fs, None)
    case None =>
      WriteThenClassify(s, env, fs, UploadPath(s.uploadFolder, requestId, env.secureFilename(up.filename)), up.data)
  }

  /** `handle_image_error` plus the request id: its status, message and details,
      unchanged. */
  function ErrorResponse(e: Exc, sub: SubclassOf, requestId: string): (r: Response)
    ensures r.body.Failed? && r.body.requestId == requestId && r.status in {400, 500, 503}
    ensures r.status == ErrorHandlers.HandleImageError(e, sub).status
    ensures r.body.error == ErrorHandlers.HandleImageError(e, sub).body.error
    ensures r.body.details == ErrorHandlers.HandleImageError(e, sub).body.details
  {
    var h := ErrorHandlers.HandleImageError(e, sub);
    Response(h.status, Failed(h.body.error, h.body.details, requestId))
  }

  /** What every response of the endpoint keeps: the request id; a status of
      200 exactly for a classification, whose label is the verdict on some chat
      reply; every file written handed to cleanup last; and nothing else in the
      upload folder changed. */
  ghost predicate Answered(o: Served, before: Fs, env: Env, requestId: string) {
    && o.response.body.requestId == requestId
    && o.response.status in {200, 400, 500, 503}
    && (o.response.status == 200 <==> o.response.body.Classified?)
    && (o.response.body.Classified? ==>
          && o.response.body.result in {HotdogLabel, NotHotdogLabel}
          && SomeReplyGives(o.trace, env, o.response.body.result == HotdogLabel))
    && CleansUpWrites(o.trace)
    && OnlyTempChanged(before, o.fs, o.temp)
    && RemovedIfCleaned(o.trace, o.fs, env)
  }

  /** The `result` text of a classification. */
  function Label(v: bool): (l: string)
    ensures l in {HotdogLabel, NotHotdogLabel}
    ensures l == HotdogLabel <==> v
  {
    if v then HotdogLabel else NotHotdogLabel
  }

  /** The JSON response of a branch. */
  function Finish(st: Step, source: string, processedUrl: Option<string>, env: Env, requestId: string, ghost before: Fs): (o: Served)
    requires CleansUpWrites(st.trace) && OnlyTempChanged(before, st.fs, st.temp) && RemovedIfCleaned(st.trace, st.fs, env)
    requires VerdictOfReply(st.result, st.trace, env)
    ensures Answered(o, before, env, requestId)
    ensures o.trace == st.trace && o.fs == st.fs && o.temp == st.temp
    ensures st.result.Success? ==>
      o.response == Response(200, Classified(Label(st.result.value), source, processedUrl, requestId))
    ensures st.result.Failure? ==> o.response == ErrorResponse(st.result.error, env.sub, requestId)
  {
    match st.result
    case Success(v) =>
      Served(Response(200, Classified(Label(v), source, processedUrl, requestId)), st.trace, st.fs, st.temp)
    case Failure(e) => Served(ErrorResponse(e, env.sub, requestId), st.trace, st.fs, st.temp)
  }

  /** Which input a request is served from: `base64` over `url` over `file`,
      and none when the form has none of them. */
  function SelectedSource(fd: FormData): (src: Option<string>)
    ensures src.None? <==> "base64" !in fd.form && "url" !in fd.form && "file" !in fd.files
    ensures src.Some? ==> src.value in AcceptedInputs
    ensures src == Some("base64") <==> "base64" in fd.form
    ensures src == Some("url") <==> "base64" !in fd.form && "url" in fd.form
    ensures src == Some("file") <==> "base64" !in fd.form && "url" !in fd.form && "file" in fd.files
  {
    if "base64" in fd.form then Some("base64")
    else if "url" in fd.form then Some("url")
    else if "file" in fd.files then Some("file")
    else None
  }

  /** The URL echoed back as `processed_url`: the stripped `url` field, for the
      URL branch only. */
  function ProcessedUrl(fd: FormData): (u: Option<string>)
    ensures u.Some? <==> SelectedSource(fd) == Some("url")
    ensures u.Some? ==> "url" in fd.form && u.value == Strip(fd.form["url"])
  {
    if SelectedSource(fd) == Some("url") then Some(Strip(fd.form["url"])) else None
  }

  /** The branch run for the selected input. */
  function Branch(s: Config.Settings, env: Env, fd: FormData, requestId: string, fs: Fs): (st: Step)
    requires SelectedSource(fd).Some?
    ensures CleansUpWrites(st.trace)
    ensures OnlyTempChanged(fs, st.fs, st.temp) && RemovedIfCleaned(st.trace, st.fs, env)
    ensures VerdictOfReply(st.result, st.trace, env)
  {
    match SelectedSource(fd).value
    case "base64" => Base64Branch(s, env, fd.form["base64"], fs)
    case "url" => UrlBranch(s, env, ProcessedUrl(fd).value, requestId, fs)
    case _ => FileBranch(s, env, fd.files["file"], requestId, fs)
  }

  /** `classify_image()` of the endpoint. */
  function ClassifyRequest(s: Config.Settings, env: Env, req: Request, requestId: string, fs: Fs): (o: Served)
    ensures Answered(o, fs, env, requestId)
    ensures o.response.body.Classified? ==>
      && req.parsed.Success?
      && SelectedSource(req.parsed.value) == Some(o.response.body.source)
      && o.response.body.processedUrl == ProcessedUrl(req.parsed.value)
      && (o.response.body.source == "url" ==>
            o.response.body.processedUrl == Some(Strip(req.parsed.value.form["url"])))
    ensures req.parsed.Success? && SelectedSource(req.parsed.value).Some? ==>
      var st := Branch(s, env, req.parsed.value, requestId, fs);
      && o.trace == st.trace && o.fs == st.fs
      && (st.result.Success? ==> o.response == Response(200, Classified(Label(st.result.value),
            SelectedSource(req.parsed.value).value, ProcessedUrl(req.parsed.value), requestId)))
      && (st.result.Failure? ==> o.response == ErrorResponse(st.result.error, env.sub, requestId))
  {
    match req.parsed
    case Failure(_) => Served(Response(500, Failed(InternalErrorMessage, None, requestId)), [], fs, None)
    case Success(fd) =>
      match SelectedSource(fd)
      case Some(source) => Finish(Branch(s, env, fd, requestId, fs), source, ProcessedUrl(fd), env, requestId, fs)
      case None =>
        Served(Response(400, Failed(NoImageMessage, Some(map["accepted_inputs" := ListDetail(AcceptedInputs)]), requestId)),
          [], fs, None)
  }

  /** A form that could not be parsed reaches the outer handler: 500 with a fixed
      message, and nothing is fetched, written or posted. */
  lemma ParseFailureIsInternalError(s: Config.Settings, env: Env, e: Exc, requestId: string, fs: Fs)
    ensures ClassifyRequest(s, env, Request(Failure(e)), requestId, fs) ==
      Served(Response(500, Failed(InternalErrorMessage, None, requestId)), [], fs, None)
  {
  }

  /** Without any of the three inputs the request is refused with 400 and the list
      of accepted inputs, and nothing happens. */
  lemma NoInputRejected(s: Config.Settings, env: Env, fd: FormData, requestId: string, fs: Fs)
    requires "base64" !in fd.form && "url" !in fd.form && "file" !in fd.files
    ensures ClassifyRequest(s, env, Request(Success(fd)), requestId, fs) ==
      Served(Response(400, Failed(NoImageMessage,
        Some(map["accepted_inputs" := ListDetail(["file", "url", "base64"])]), requestId)), [], fs, None)
  {
  }

  /** A `base64` field decides the request alone: the URL field and the upload
      are never looked at. */
  lemma Base64TakesPrecedence(s: Config.Settings, env: Env, fd: FormData, requestId: string, fs: Fs)
    requires "base64" in fd.form
    ensures ClassifyRequest(s, env, Request(Success(fd)), requestId, fs) ==
      ClassifyRequest(s, env, Request(Success(FormData(map["base64" := fd.form["base64"]], map[]))), requestId, fs)
  {
  }

  /** Without `base64`, a `url` field decides the request alone: the upload is
      never looked at. */
  lemma UrlTakesPrecedenceOverFile(s: Config.Settings, env: Env, fd: FormData, requestId: string, fs: Fs)
    requires "base64" !in fd.form && "url" in fd.form
    ensures ClassifyRequest(s, env, Request(Success(fd)), requestId, fs) ==
      ClassifyRequest(s, env, Request(Success(FormData(map["url" := fd.form["url"]], map[]))), requestId, fs)
  {
    var fd' := FormData(map["url" := fd.form["url"]], map[]);
    assert "base64" !in fd'.form;
  }

  /** Base64 data that `is_base64_image` refuses gets 400 "Invalid base64 image
      data" with empty details; nothing is written or posted. */
  lemma InvalidBase64NeverWritten(s: Config.Settings, env: Env, fd: FormData, requestId: string, fs: Fs)
    requires PythonHierarchy(env.sub)
    requires "base64" in fd.form && !ImageUtils.IsBase64Image(fd.form["base64"], env)
    ensures ClassifyRequest(s, env, Request(Success(fd)), requestId, fs) ==
      Served(Response(400, Failed(InvalidBase64Message, Some(map[]), requestId)), [], fs, None)
  {
    ErrorHandlers.ImageProcessingErrorDefaultDetails(InvalidBase64Message, env.sub);
  }

  /** A URL that fails `is_valid_url` once stripped gets 400 "Invalid URL
      provided"; nothing is fetched, written or posted. */
  lemma InvalidUrlNeverFetched(s: Config.Settings, env: Env, fd: FormData, requestId: string, fs: Fs)
    requires PythonHierarchy(env.sub)
    requires "base64" !in fd.form && "url" in fd.form
    requires !ImageUtils.IsValidUrl(Strip(fd.form["url"]), env.urlparse)
    ensures ClassifyRequest(s, env, Request(Success(fd)), requestId, fs) ==
      Served(Response(400, Failed(InvalidUrlMessage, Some(map[]), requestId)), [], fs, None)
  {
    ErrorHandlers.ImageProcessingErrorDefaultDetails(InvalidUrlMessage, env.sub);
  }

  /** An upload that fails a check gets 400 with the failing check's message and
      nothing is saved or posted. */
  lemma RejectedUploadNeverSaved(s: Config.Settings, env: Env, fd: FormData, requestId: string, fs: Fs)
    requires PythonHierarchy(env.sub)
    requires "base64" !in fd.form && "url" !in fd.form && "file" in fd.files
    requires CheckUpload(s, fd.files["file"]).Some?
    ensures var o := ClassifyRequest(s, env, Request(Success(fd)), requestId, fs);
      && o.trace == [] && o.fs == fs && o.temp == None
      && o.response.status == 400
      && o.response.body.Failed?
      && o.response.body.error == CheckUpload(s, fd.files["file"]).value.text
  {
    var e := CheckUpload(s, fd.files["file"]).value;
    if e.cls == ImageProcessingError {
      ErrorHandlers.ImageProcessingErrorGets400(e, env.sub);
    } else {
      assert !env.sub(ValueError, UnidentifiedImageError) && !env.sub(ValueError, OSError);
      ErrorHandlers.ValueErrorShowsItsText(e, env.sub);
    }
  }

  /** `test.txt` is its own lower-case form and ends with no allowed extension. */
  lemma TextNameHasNoImageSuffix()
    ensures !EndsWithAny(Lower("test.txt"), Config.AllowedExtensions)
  {
    var low := Lower("test.txt");
    assert low == "test.txt" by {
      assert |low| == 8;
      forall k | 0 <= k < 8 ensures low[k] == "test.txt"[k] {
      }
    }
    var exts := Config.AllowedExtensions;
    forall k | 0 <= k < |exts| ensures !EndsWith(low, exts[k]) {
      var p := exts[k];
      assert p[|p| - 1] != 't';
      if |p| <= |low| {
        var tail := low[|low| - |p|..];
        assert tail[|p| - 1] == 't';
      }
    }
  }

  /** A file named `test.txt` is refused by its suffix, before its MIME type or
      size is looked at. */
  lemma TextFileRejected(s: Config.Settings, up: Upload)
    requires up.filename == "test.txt"
    ensures CheckUpload(s, up) == Some(NewImageProcessingError(InvalidTypeMessage + "png, jpg, jpeg, gif, webp", None))
  {
    TextNameHasNoImageSuffix();
  }

  /** The suffix check has no leading dot: a name such as `xjpg` passes it. */
  lemma SuffixCheckWithoutDot()
    ensures EndsWithAny(Lower("xjpg"), Config.AllowedExtensions)
  {
    var low := Lower("xjpg");
    assert low == "xjpg" by {
      assert |low| == 4;
      forall k | 0 <= k < 4 ensures low[k] == "xjpg"[k] {
      }
    }
    assert EndsWith(low, "jpg");
    assert "jpg" in Config.AllowedExtensions;
  }

  /** When the connectivity probe fails, a written image is still cleaned up, no
      chat request is posted, and under Python's class hierarchy the translated
      `ConnectionError` is answered by the `OSError` branch: 500 "Failed to read
      or process image file". */
  lemma FailedProbeAnswers500(s: Config.Settings, env: Env, before: Fs, written: Fs, path: FilePath,
                              source: string, processedUrl: Option<string>, requestId: string)
    requires PythonHierarchy(env.sub)
    requires written - {path} == before - {path}
    requires !Classifier.TestApiConnection(s, env)
    ensures var o := Finish(ClassifyWritten(s, env, before, written, path), source, processedUrl, env, requestId, before);
      && o.response == Response(500, Failed(ErrorHandlers.ReadFailureMessage, None, requestId))
      && o.trace == [Wrote(path), Classifying(path), Api(Classifier.ModelsGet(Classifier.ProbeRequest(s))), CleanedUp(path)]
  {
    Classifier.FailedProbeBlocksPost(s, env, written, path);
    var e := Raise(ConnectionError, Classifier.CannotConnectMessage);
    assert !env.sub(ConnectionError, UnidentifiedImageError) && env.sub(ConnectionError, OSError);
    ErrorHandlers.OSErrorShadowsLaterBranches(e, env.sub);
  }

  /** A valid URL whose download fails raises `ValueError`, which is not an
      `OSError`: the answer is 400 with the download error's text, after every
      candidate was fetched, and nothing is written or posted. */
  lemma FailedDownloadAnswers400(s: Config.Settings, env: Env, fd: FormData, requestId: string, fs: Fs)
    requires PythonHierarchy(env.sub)
    requires "base64" !in fd.form && "url" in fd.form
    requires ImageUtils.IsValidUrl(Strip(fd.form["url"]), env.urlparse)
    requires ImageUtils.DownloadImage(Strip(fd.form["url"]), env.httpGet).result.Failure?
    ensures var e := ImageUtils.DownloadImage(Strip(fd.form["url"]), env.httpGet).result.error;
      var o := ClassifyRequest(s, env, Request(Success(fd)), requestId, fs);
      && o.response == Response(400, Failed(e.text, None, requestId))
      && |o.trace| == |ImageUtils.Candidates(ImageUtils.BaseUrl(Strip(fd.form["url"])))|
      && o.fs == fs
  {
    var e := ImageUtils.DownloadImage(Strip(fd.form["url"]), env.httpGet).result.error;
    assert !env.sub(ValueError, UnidentifiedImageError) && !env.sub(ValueError, OSError);
    ErrorHandlers.ValueErrorShowsItsText(e, env.sub);
  }

  /** When reading a written image raises an `OSError` (permission denied, an I/O
      error), the error is re-raised unchanged, the file is still cleaned up, no
      chat request is posted, and the answer is 500 "Failed to read or process
      image file". */
  lemma FailedReadAnswers500(s: Config.Settings, env: Env, before: Fs, written: Fs, path: FilePath,
                             source: string, processedUrl: Option<string>, requestId: string, text: string)
    requires PythonHierarchy(env.sub)
    requires written - {path} == before - {path} && path in written
    requires Classifier.TestApiConnection(s, env)
    requires env.readError(path) == Some(Raise(OSError, text))
    ensures var o := Finish(ClassifyWritten(s, env, before, written, path), source, processedUrl, env, requestId, before);
      && o.response == Response(500, Failed(ErrorHandlers.ReadFailureMessage, None, requestId))
      && o.trace == [Wrote(path), Classifying(path), Api(Classifier.ModelsGet(Classifier.ProbeRequest(s))), CleanedUp(path)]
  {
    var e := Raise(OSError, text);
    assert !env.sub(OSError, RequestsConnectionError) && !env.sub(OSError, RequestsTimeout);
    assert Classifier.TranslateError(e, env.sub) == e;
    assert !env.sub(OSError, UnidentifiedImageError) && env.sub(OSError, OSError);
    ErrorHandlers.OSErrorShadowsLaterBranches(e, env.sub);
  }

  /** Under Python's class hierarchy the endpoint never answers 503. */
  lemma NoServiceUnavailable(s: Config.Settings, env: Env, req: Request, requestId: string, fs: Fs)
    requires PythonHierarchy(env.sub)
    ensures ClassifyRequest(s, env, req, requestId, fs).response.status in {200, 400, 500}
  {
    var o := ClassifyRequest(s, env, req, requestId, fs);
    if o.response.status == 503 {
      assert req.parsed.Success?;
      var fd := req.parsed.value;
      ErrorHandlers.No503UnderPython(Branch(s, env, fd, requestId, fs).result.error, env.sub);
    }
  }

  /** The service is reachable and answers the chat request carrying `bytes`
      with a status outside 400 to 599 and the reply text `t`. */
  ghost predicate ServiceAnswers(s: Config.Settings, env: Env, bytes: Bytes, t: string) {
    && Classifier.TestApiConnection(s, env)
    && var r := env.httpPost(Classifier.ChatRequest(s, env.b64encode(bytes)));
       && r.Replied?
       && !(400 <= r.response.status < 600)
       && r.response.answer == Success(t)
  }

  /** Bytes written to a file and read back without error, which the service
      then answers for, are classified by the verdict on the reply. */
  lemma WrittenImageClassified(s: Config.Settings, env: Env, fs: Fs, path: FilePath, bytes: Bytes, t: string)
    requires env.writeError(path).None? && env.readError(path).None? && ServiceAnswers(s, env, bytes, t)
    ensures WriteThenClassify(s, env, fs, path, bytes).result == Success(Classifier.Verdict(t))
  {
    assert fs[path := bytes][path] == bytes;
  }

  /** Accepted base64 data, written and read without error and answered with
      `t`, is answered 200 with the label of the verdict on `t`. */
  lemma Base64Classified(s: Config.Settings, env: Env, fd: FormData, requestId: string, fs: Fs, t: string)
    requires "base64" in fd.form && ImageUtils.IsBase64Image(fd.form["base64"], env)
    requires Base64Target(fd.form["base64"], s.uploadFolder).Some?
    requires env.writeError(Base64Target(fd.form["base64"], s.uploadFolder).value).None?
    requires env.readError(Base64Target(fd.form["base64"], s.uploadFolder).value).None?
    requires ServiceAnswers(s, env, env.b64decode(ImageUtils.Base64Field(fd.form["base64"]).value).value, t)
    ensures ClassifyRequest(s, env, Request(Success(fd)), requestId, fs).response ==
      Response(200, Classified(Label(Classifier.Verdict(t)), "base64", None, requestId))
  {
    var data := fd.form["base64"];
    ImageUtils.AcceptedBase64Saves(data, s.uploadFolder, env, fs);
    var saved := ImageUtils.SaveBase64Image(data, s.uploadFolder, env, fs);
    var path := saved.result.value;
    assert saved.fs[path] == env.b64decode(ImageUtils.Base64Field(data).value).value;
  }

  /** A valid URL whose download yields `bytes`, written and read without error
      and answered with `t`, is answered 200 with the label of the verdict on `t` and
      the stripped URL. */
  lemma UrlClassified(s: Config.Settings, env: Env, fd: FormData, requestId: string, fs: Fs, bytes: Bytes, t: string)
    requires "base64" !in fd.form && "url" in fd.form
    requires ImageUtils.IsValidUrl(Strip(fd.form["url"]), env.urlparse)
    requires ImageUtils.DownloadImage(Strip(fd.form["url"]), env.httpGet).result == Success(bytes)
    requires env.writeError(UrlTempPath(s.uploadFolder, requestId)).None?
    requires env.readError(UrlTempPath(s.uploadFolder, requestId)).None?
    requires ServiceAnswers(s, env, bytes, t)
    ensures ClassifyRequest(s, env, Request(Success(fd)), requestId, fs).response ==
      Response(200, Classified(Label(Classifier.Verdict(t)), "url", Some(Strip(fd.form["url"])), requestId))
  {
    WrittenImageClassified(s, env, fs, UrlTempPath(s.uploadFolder, requestId), bytes, t);
  }

  /** An upload that passes every check, saved and read without error and
      answered with `t`, is answered 200 with the label of the verdict on `t`. */
  lemma FileClassified(s: Config.Settings, env: Env, fd: FormData, requestId: string, fs: Fs, t: string)
    requires "base64" !in fd.form && "url" !in fd.form && "file" in fd.files
    requires CheckUpload(s, fd.files["file"]).None?
    requires env.writeError(UploadPath(s.uploadFolder, requestId, env.secureFilename(fd.files["file"].filename))).None?
    requires env.readError(UploadPath(s.uploadFolder, requestId, env.secureFilename(fd.files["file"].filename))).None?
    requires ServiceAnswers(s, env, fd.files["file"].data, t)
    ensures ClassifyRequest(s, env, Request(Success(fd)), requestId, fs).response ==
      Response(200, Classified(Label(Classifier.Verdict(t)), "file", None, requestId))
  {
    var up := fd.files["file"];
    WrittenImageClassified(s, env, fs, UploadPath(s.uploadFolder, requestId, env.secureFilename(up.filename)), up.data, t);
  }

  /** An upload whose save fails part-way is answered with the write error, and
      the partly written file stays in the upload folder: the save happens before
      the `try` whose `finally` cleans up, so `cleanup_image` never runs. */
  lemma FailedSaveLeavesFile(s: Config.Settings, env: Env, fd: FormData, requestId: string, fs: Fs)
    requires "base64" !in fd.form && "url" !in fd.form && "file" in fd.files
    requires CheckUpload(s, fd.files["file"]).None?
    requires var path := UploadPath(s.uploadFolder, requestId, env.secureFilename(fd.files["file"].filename));
      env.writeError(path).Some? && env.partialWrite(path).Some?
    ensures var path := UploadPath(s.uploadFolder, requestId, env.secureFilename(fd.files["file"].filename));
      var o := ClassifyRequest(s, env, Request(Success(fd)), requestId, fs);
      && o.response == ErrorResponse(env.writeError(path).value, env.sub, requestId)
      && o.trace == []
      && path in o.fs && o.fs[path] == env.partialWrite(path).value
  {
  }
}
