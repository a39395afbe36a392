/** The service's boundary with code it does not own: HTTP (requests), URL parsing,
    base64, image decoding (Pillow), `secure_filename` and the file system. Each is
    an oracle field of `Env`; the model fixes only what is sent to it and how its
    answer is used. */
module Io {

  import opened Wrappers
  import opened Exceptions

  newtype byte = x: int | 0 <= x < 256

  type Bytes = seq<byte>

  /** A file `name` inside directory `folder` (Python's `Path(folder) / name`). */
  datatype FilePath = FilePath(folder: string, name: string)

  /** The upload directory's contents. */
  type Fs = map<FilePath, Bytes>

  /** The three `urlparse` fields the URL check reads. */
  datatype ParsedUrl = ParsedUrl(scheme: string, netloc: string, path: string)

  /** An HTTP response. `answer` is the outcome of reading
      `json()['choices'][0]['message']['content']` from its body. */
  datatype HttpResponse = HttpResponse(
    status: int,
    reason: string,
    contentType: Option<string>,
    content: Bytes,
    answer: Result<string, Exc>)

  /** What `requests.get`/`requests.post` did: a response, or a raised exception. */
  datatype HttpOutcome = Replied(response: HttpResponse) | Raised(error: Exc)

  datatype GetRequest = GetRequest(url: string, headers: map<string, string>, timeout: int)

  /** The JSON body of a chat-completion request. */
  datatype ContentPart = TextPart(text: string) | ImageUrlPart(imageUrl: string)
  datatype Message = Message(role: string, content: seq<ContentPart>)
  datatype Payload = Payload(model: string, messages: seq<Message>, maxTokens: int)

  datatype PostRequest = PostRequest(
    url: string,
    headers: map<string, string>,
    payload: Payload,
    timeout: int)

  /** `response.raise_for_status()`: requests raises `HTTPError` for every status
      from 400 to 599. */
  function RaiseForStatus(r: HttpResponse): (e: Option<Exc>)
    ensures e.Some? <==> 400 <= r.status < 600
    ensures e.Some? ==> e.value.cls == HTTPError
  {
    if 400 <= r.status < 600 then Some(Raise(HTTPError, r.reason)) else None
  }

  /** The oracles. `sub` is the exception class hierarchy. `writeError(p)` and
      `unlinkError(p)` say whether writing or deleting file `p` raises. When
      writing raises, `partialWrite(p)` is what the file holds afterwards: `None`
      when opening it failed and it was left alone, otherwise the bytes left in
      the file that `open(p, 'wb')` created or truncated. `readError(p)` says
      whether reading an existing file `p` raises. */
  datatype Env = Env(
    sub: SubclassOf,
    urlparse: string -> Result<ParsedUrl, Exc>,
    httpGet: GetRequest -> HttpOutcome,
    httpPost: PostRequest -> HttpOutcome,
    b64decode: string -> Result<Bytes, Exc>,
    b64encode: Bytes -> string,
    verifyImage: Bytes -> Option<Exc>,
    secureFilename: string -> string,
    writeError: FilePath -> Option<Exc>,
    partialWrite: FilePath -> Option<Bytes>,
    readError: FilePath -> Option<Exc>,
    unlinkError: FilePath -> Option<Exc>)

  /** A write and the folder it leaves: the exception it raised, if any. */
  datatype WriteOutcome = WriteOutcome(error: Option<Exc>, fs: Fs)

  /** `with open(p, 'wb') as f: f.write(bytes)`, and werkzeug's `save`, which does
      the same. A write that succeeds stores the bytes; one that raises after
      opening leaves whatever it had written; either way no other file changes. */
  function WriteFile(fs: Fs, p: FilePath, bytes: Bytes, env: Env): (w: WriteOutcome)
    ensures w.error == env.writeError(p)
    ensures w.fs - {p} == fs - {p}
    ensures w.error.None? ==> p in w.fs && w.fs[p] == bytes
    ensures w.error.Some? && env.partialWrite(p).None? ==> w.fs == fs
    ensures w.error.Some? && env.partialWrite(p).Some? ==> p in w.fs && w.fs[p] == env.partialWrite(p).value
  {
    match env.writeError(p)
    case None => WriteOutcome(None, fs[p := bytes])
    case Some(e) =>
      match env.partialWrite(p)
      case None => WriteOutcome(Some(e), fs)
      case Some(left) => WriteOutcome(Some(e), fs[p := left])
  }
}
