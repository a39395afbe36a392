/** `HotdogClassifier`: the connectivity probe, the chat-completion request built
    from an image file, the reduction of the reply to a verdict, and the
    translation of network errors. */
module Classifier {

  import opened Wrappers
  import opened Strings
  import opened Exceptions
  import opened Io
  import Config
  import ImageUtils

  const Prompt: string := "Does this image contain a hotdog? Please respond with only 'Hotdog' or 'Not Hotdog'."
  const ImageUriPrefix: string := "data:image/jpeg;base64,"
  const CannotConnectMessage: string := "Cannot connect to OpenRouter API"
  const TimedOutMessage: string := "API request timed out"
  /** The text of the `FileNotFoundError` that opening a missing file raises. */
  const NoSuchFileText: string := "No such file or directory"

  /** A network call the classifier made. */
  datatype Call = ModelsGet(get: GetRequest) | ChatPost(post: PostRequest)

  /** The verdict rule: the reply, stripped and lower-cased, contains `hotdog` and
      does not contain `not`. The strip does not matter: the verdict is decided by
      the lower-cased reply alone. */
  function Verdict(reply: string): (v: bool)
    ensures v <==> Contains(Lower(reply), "hotdog") && !Contains(Lower(reply), "not")
  {
    ContainsLowerStripIff(reply, "hotdog");
    ContainsLowerStripIff(reply, "not");
    var answer := Lower(Strip(reply));
    Contains(answer, "hotdog") && !Contains(answer, "not")
  }

  /** Any reply with `not` anywhere, in any case (`Not Hotdog`, `nothing`), is
      not a hotdog. */
  lemma {:induction false} NotAnywhereMeansNo(reply: string, i: nat)
    requires OccursAt(Lower(reply), "not", i)
    ensures !Verdict(reply)
  {
    ContainsIff(Lower(reply), "not");
  }

  /** A reply without the contiguous token `hotdog` (such as `hot dog`) is not a
      hotdog. */
  lemma {:induction false} NoTokenMeansNo(reply: string)
    requires forall i: nat :: !OccursAt(Lower(reply), "hotdog", i)
    ensures !Verdict(reply)
  {
    ContainsIff(Lower(reply), "hotdog");
  }

  /** `Hotdog`, in any case and with any surrounding white space, is a hotdog. */
  lemma {:induction false} HotdogMeansYes(reply: string)
    requires Lower(Strip(reply)) == "hotdog"
    ensures Verdict(reply)
  {
    var answer := Lower(Strip(reply));
    assert OccursAt(answer, "hotdog", 0);
    ContainsIff(answer, "hotdog");
    forall i: nat
      ensures !OccursAt(answer, "not", i)
    {
      if i + 3 <= |answer| {
        assert answer[i..i + 3][0] == answer[i] != 'n';
      }
    }
    ContainsIff(answer, "not");
  }

  /** `Hotdog` is a hotdog. */
  lemma HotdogExample()
    ensures Verdict("Hotdog")
  {
    assert !IsSpace('H') && !IsSpace('g');
    assert TrimStart("Hotdog") == "Hotdog";
    assert TrimEnd("Hotdog") == "Hotdog";
    var lower := Lower("Hotdog");
    assert lower[0] == 'h' && lower[1] == 'o' && lower[2] == 't';
    assert lower[3] == 'd' && lower[4] == 'o' && lower[5] == 'g';
    assert lower == "hotdog";
    HotdogMeansYes("Hotdog");
  }

  /** `Not Hotdog` is not a hotdog. */
  lemma NotHotdogExample()
    ensures !Verdict("Not Hotdog")
  {
    var lower := Lower("Not Hotdog");
    assert lower[0] == 'n' && lower[1] == 'o' && lower[2] == 't';
    assert lower[0..3] == "not";
    NotAnywhereMeansNo("Not Hotdog", 0);
  }

  /** `nothing` is not a hotdog: `not` need not be a word of its own. */
  lemma NothingExample()
    ensures !Verdict("nothing")
  {
    var lower := Lower("nothing");
    assert lower[0] == 'n' && lower[1] == 'o' && lower[2] == 't';
    assert lower[0..3] == "not";
    NotAnywhereMeansNo("nothing", 0);
  }

  /** `hot dog` is not a hotdog: the token must be contiguous. */
  lemma HotDogSpacedExample()
    ensures !Verdict("hot dog")
  {
    var lower := Lower("hot dog");
    assert lower[3] == ' ';
    forall i: nat
      ensures !OccursAt(lower, "hotdog", i)
    {
    }
    NoTokenMeansNo("hot dog");
  }

  /** The liveness probe: an authenticated GET of the model list. */
  function ProbeRequest(s: Config.Settings): GetRequest {
    GetRequest(Config.ModelsUrl, map["Authorization" := Config.ApiHeaders(s.apiKey)["Authorization"]],
      s.requestTimeout)
  }

  /** `test_api_connection`: never raises; true exactly when the probe returned a
      response whose status is not an error. */
  function TestApiConnection(s: Config.Settings, env: Env): (ok: bool)
    ensures ok <==> env.httpGet(ProbeRequest(s)).Replied? && !(400 <= env.httpGet(ProbeRequest(s)).response.status < 600)
  {
    match env.httpGet(ProbeRequest(s))
    case Raised(_) => false
    case Replied(resp) => RaiseForStatus(resp).None?
  }

  /** The chat-completion body: one user message holding the prompt and the image
      as a JPEG data URI, whatever the file's real format. */
  function BuildPayload(base64Image: string): (p: Payload)
    ensures p.model == Config.ModelName && p.maxTokens == Config.MaxTokens
    ensures |p.messages| == 1 && p.messages[0].role == "user"
    ensures |p.messages[0].content| == 2 && p.messages[0].content[0] == TextPart(Prompt)
    ensures p.messages[0].content[1] == ImageUrlPart("data:image/jpeg;base64," + base64Image)
  {
    Payload(Config.ModelName,
      [Message("user", [TextPart(Prompt), ImageUrlPart(ImageUriPrefix + base64Image)])],
      Config.MaxTokens)
  }

  /** The base64 field of the payload's image URI is the base64 text itself. */
  lemma {:induction false} ImageUriField(base64Image: string)
    requires ',' !in base64Image
    ensures ImageUtils.Base64Field(ImageUriPrefix + base64Image) == Some(base64Image)
  {
    var head := "data:image/jpeg;base64";
    assert ImageUriPrefix == head + [','];
    assert ImageUriPrefix + base64Image == head + [','] + base64Image;
    SplitAfterHead(head, ',', base64Image);
    SplitNoSeparator(base64Image, ',');
  }

  /** The MIME part of the payload's image URI, up to its first `;`. */
  lemma {:induction false} ImageUriMime(base64Image: string)
    ensures Split(ImageUriPrefix + base64Image, ';')[0] == "data:image/jpeg"
  {
    var mime := "data:image/jpeg";
    var rest := "base64," + base64Image;
    assert ImageUriPrefix == mime + [';'] + "base64,";
    assert ImageUriPrefix + base64Image == mime + [';'] + rest;
    assert ';' !in mime;
    SplitAfterHead(mime, ';', rest);
  }

  /** The subtype field of `data:image/jpeg` is `jpeg`. */
  lemma JpegSubtype()
    ensures Field("data:image/jpeg", '/', 1) == Some("jpeg")
  {
    assert "data:image/jpeg" == "data:image" + ['/'] + "jpeg";
    assert '/' !in "data:image";
    SplitAfterHead("data:image", '/', "jpeg");
    SplitNoSeparator("jpeg", '/');
  }

  /** The payload's image URI is labelled `jpeg` whatever the bytes are. */
  lemma ImageUriExtension(base64Image: string)
    ensures ImageUtils.Base64Extension(ImageUriPrefix + base64Image) == Some("jpeg")
  {
    ImageUriMime(base64Image);
    JpegSubtype();
  }

  /** The image URI of a payload, read back the way the service reads data URIs,
      gives the base64 text and the extension `jpeg`. */
  lemma PayloadImageRoundTrip(base64Image: string)
    requires ',' !in base64Image
    ensures var uri := BuildPayload(base64Image).messages[0].content[1].imageUrl;
      && ImageUtils.Base64Field(uri) == Some(base64Image)
      && ImageUtils.Base64Extension(uri) == Some("jpeg")
  {
    ImageUriField(base64Image);
    ImageUriExtension(base64Image);
  }

  function ChatRequest(s: Config.Settings, base64Image: string): PostRequest {
    PostRequest(Config.ApiUrl, Config.ApiHeaders(s.apiKey), BuildPayload(base64Image), s.requestTimeout)
  }

  /** The `except` clauses of `classify_image`: a requests connection error becomes
      `ConnectionError`, a requests timeout becomes `TimeoutError`, anything else
      is re-raised unchanged. */
  function TranslateError(e: Exc, sub: SubclassOf): (t: Exc)
    ensures IsInstance(sub, e, RequestsConnectionError) ==> t == Raise(ConnectionError, CannotConnectMessage)
    ensures !IsInstance(sub, e, RequestsConnectionError) && IsInstance(sub, e, RequestsTimeout) ==>
      t == Raise(TimeoutError, TimedOutMessage)
    ensures !IsInstance(sub, e, RequestsConnectionError) && !IsInstance(sub, e, RequestsTimeout) ==> t == e
  {
    if IsInstance(sub, e, RequestsConnectionError) then Raise(ConnectionError, CannotConnectMessage)
    else if IsInstance(sub, e, RequestsTimeout) then Raise(TimeoutError, TimedOutMessage)
    else e
  }

  /** Under Python's hierarchy translating twice is translating once: the
      translated exceptions are not requests exceptions. */
  lemma TranslateIdempotent(e: Exc, sub: SubclassOf)
    requires PythonHierarchy(sub)
    ensures TranslateError(TranslateError(e, sub), sub) == TranslateError(e, sub)
  {
    assert !sub(ConnectionError, RequestsConnectionError) && !sub(ConnectionError, RequestsTimeout);
    assert !sub(TimeoutError, RequestsConnectionError) && !sub(TimeoutError, RequestsTimeout);
  }

  /** What a classification returned or raised, and the calls it made. */
  datatype Outcome = Outcome(result: Result<bool, Exc>, calls: seq<Call>)

  /** The body of the `try` in `classify_image`, before error translation. */
  function TryClassify(s: Config.Settings, env: Env, fs: Fs, path: FilePath): Outcome {
    var probe := ModelsGet(ProbeRequest(s));
    if !TestApiConnection(s, env) then
      Outcome(Failure(Raise(ConnectionError, CannotConnectMessage)), [probe])
    else if path !in fs then
      Outcome(Failure(Raise(FileNotFoundError, NoSuchFileText)), [probe])
    else if env.readError(path).Some? then
      Outcome(Failure(env.readError(path).value), [probe])
    else
      var req := ChatRequest(s, env.b64encode(fs[path]));
      var calls := [probe, ChatPost(req)];
      match env.httpPost(req)
      case Raised(e) => Outcome(Failure(e), calls)
      case Replied(resp) =>
        match RaiseForStatus(resp)
        case Some(e) => Outcome(Failure(e), calls)
        case None =>
          match resp.answer
          case Failure(e) => Outcome(Failure(e), calls)
          case Success(text) => Outcome(Success(Verdict(text)), calls)
  }

  /** `classify_image(image_path)`: probes the API first and posts only when the
      probe succeeded and the file was read; the post carries the file's bytes as
      base64; a returned
      verdict is the verdict rule applied to the reply text. */
  function ClassifyImage(s: Config.Settings, env: Env, fs: Fs, path: FilePath): (o: Outcome)
    ensures 1 <= |o.calls| <= 2 && o.calls[0] == ModelsGet(ProbeRequest(s))
    ensures !TestApiConnection(s, env) ==>
      |o.calls| == 1 && o.result == Failure(TranslateError(Raise(ConnectionError, CannotConnectMessage), env.sub))
    ensures TestApiConnection(s, env) && path !in fs ==>
      |o.calls| == 1 && o.result == Failure(TranslateError(Raise(FileNotFoundError, NoSuchFileText), env.sub))
    ensures TestApiConnection(s, env) && path in fs && env.readError(path).Some? ==>
      |o.calls| == 1 && o.result == Failure(TranslateError(env.readError(path).value, env.sub))
    ensures |o.calls| == 2 <==> TestApiConnection(s, env) && path in fs && env.readError(path).None?
    ensures |o.calls| == 2 ==>
      && o.calls[1] == ChatPost(ChatRequest(s, env.b64encode(fs[path])))
      && match env.httpPost(o.calls[1].post)
         case Raised(e) => o.result == Failure(TranslateError(e, env.sub))
         case Replied(resp) =>
           if 400 <= resp.status < 600 then o.result == Failure(TranslateError(RaiseForStatus(resp).value, env.sub))
           else match resp.answer
                case Failure(e) => o.result == Failure(TranslateError(e, env.sub))
                case Success(text) => o.result == Success(Verdict(text))
    ensures o.result.Success? ==>
      && |o.calls| == 2
      && env.httpPost(o.calls[1].post).Replied?
      && env.httpPost(o.calls[1].post).response.answer.Success?
      && o.result.value == Verdict(env.httpPost(o.calls[1].post).response.answer.value)
  {
    var raw := TryClassify(s, env, fs, path);
    Outcome(raw.result.MapFailure(e => TranslateError(e, env.sub)), raw.calls)
  }

  /** Under Python's hierarchy a failed probe raises `ConnectionError` and no
      request is posted. */
  lemma FailedProbeBlocksPost(s: Config.Settings, env: Env, fs: Fs, path: FilePath)
    requires PythonHierarchy(env.sub)
    requires !TestApiConnection(s, env)
    ensures ClassifyImage(s, env, fs, path).result == Failure(Raise(ConnectionError, CannotConnectMessage))
    ensures forall c :: c in ClassifyImage(s, env, fs, path).calls ==> !c.ChatPost?
  {
    assert !env.sub(ConnectionError, RequestsConnectionError) && !env.sub(ConnectionError, RequestsTimeout);
  }
}
