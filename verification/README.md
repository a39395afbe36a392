# Hotdog classifier: a Dafny model of the request path

The hotdog classifier is a small Flask service. A `/classify` request brings an
image in one of three ways: a base64 data URI, a URL, or an uploaded file. The
service validates the input and stores it in a temporary file. It then asks a
remote vision model (through OpenRouter) whether the image shows a hotdog,
deletes the temporary file, and answers with JSON.

This project models the part of the service that decides what reaches the
network and what the caller gets back:

- `ImageUtils` models the input validators, URL acceptance, the
  extension-probing download loop, data-URI handling and temporary-file cleanup.
- `ErrorHandlers` models the first-match-wins mapping from exceptions to HTTP
  statuses, plus its own pair of validators.
- `Classifier` models the verdict rule, the connectivity probe, the
  chat-completion payload and the translation of network errors.
- `App` models the dispatch of `classify_image()`: input precedence, the order
  of the checks, response composition, and the cleanup discipline.

Support modules:

- `Wrappers` defines `Option` and `Result`.
- `Strings` models Python's `str` operations: `split`, `strip`, ASCII `lower`,
  `in`, `startswith` and `endswith`.
- `Config` holds the constants.
- `Exceptions` holds exception values and the class hierarchy.
- `Io` holds the oracle types.

Everything outside the repository is a parameter of the model, bundled in
`Io.Env`:

- the HTTP client (`requests.get`/`post`);
- `urlparse`;
- the base64 codec;
- Pillow's `verify`;
- `secure_filename`;
- the outcome of writing, reading or deleting a file.

The upload folder is a map from paths to byte strings. Python's `isinstance`
is a parameter `sub` giving the subclass relation. `Exceptions.PythonHierarchy`
states what CPython, Pillow and requests fix about that relation:
`UnidentifiedImageError`, `ConnectionError`, `TimeoutError`,
`FileNotFoundError` and requests' `RequestException` all derive from `OSError`.

Where the code and the documented intent differ, the model follows the code:

- The verdict is a substring rule on the stripped, lower-cased reply: it
  contains `hotdog` and does not contain `not`. Any reply containing `not`
  (e.g. `nothing`) is "not a hotdog", and `hot dog` is too.
- `classify_image` probes `https://openrouter.ai/api/v1/models` before every
  classification. If the probe fails, it raises the built-in `ConnectionError`
  without posting.
- `handle_image_error` tests `OSError` before `RequestException`. Under
  Python's hierarchy its 503 branch is therefore unreachable
  (`ErrorHandlers.No503UnderPython`, `App.NoServiceUnavailable`).
- A failed download does not reach that branch at all: `download_image`
  raises `ValueError`, which is answered 400 with its own text
  (`App.FailedDownloadAnswers400`).
- The failures that do reach the `OSError` branch include:
  - a failed write of the temporary file (`open`/`write` or `file.save`), which
    is usually an `OSError`; a name with an embedded NUL byte makes `open` raise
    `ValueError` instead, which is answered 400 with its text;
  - a failed read of the temporary file in the classifier;
  - the classifier's translated `ConnectionError` and `TimeoutError`;
  - every other requests exception the chat POST raises (`HTTPError`, the JSON
    decode error, `TooManyRedirects`, `ChunkedEncodingError` and so on), since
    all requests exceptions derive from `OSError`.

  They answer 500 with "Failed to read or process image file"
  (`App.FailedProbeAnswers500`, `App.FailedReadAnswers500`), not 503 or 504.
- A reply whose JSON lacks `choices[0].message.content`, or whose content is
  not a string, raises `KeyError`, `IndexError`, `TypeError` or
  `AttributeError`. None of these is an `OSError`, so they answer 500 with
  "An unexpected error occurred".
- Each branch writes its temporary file before the `try` whose `finally`
  deletes it. Opening a file for writing creates or empties it, so a write that
  fails part-way leaves a file behind that is never deleted
  (`App.FailedSaveLeavesFile`).
- The chat payload always labels the image `data:image/jpeg`, whatever its
  real format.
- `save_base64_image` takes as its extension the text between the first and
  second `/` of the part before the first `;`.
- `download_image` removes the last `.` and what follows it only when at least
  one character follows it (`re.sub(r'\.[^.]+$', '', base)`).

## Model

| member | source | states |
|---|---|---|
| ImageUtils.ValidateImageSize | src/utils/image_utils.py:18-34 | accepts exactly when the size is at most the maximum (equality accepted); otherwise raises `ValueError` with the "too large" message |
| ImageUtils.ValidateImageFormat | src/utils/image_utils.py:36-52 | accepts exactly the four image MIME types; every other string, and a missing type, raises `ValueError` with the "Unsupported image format" message |
| ImageUtils.IsValidUrl | src/utils/image_utils.py:54-77 | false for every `data:` string; otherwise true exactly when parsing succeeds with scheme http/https and non-empty netloc and path; a parse exception gives false |
| ImageUtils.BaseUrl | src/utils/image_utils.py:90 | the base is a prefix of the URL with no `?` or `#`, and is the URL itself when it has neither; otherwise it ends right before the first `?` or `#` |
| ImageUtils.DropLastSuffix | src/utils/image_utils.py:99 | the result is a prefix of the input; it differs from the input exactly when some `.` is followed by at least one character and no later `.`, and then it stops right before that last `.` |
| ImageUtils.Candidates | src/utils/image_utils.py:89-101 | a base ending (ignoring case) with a known extension gives the single candidate base; otherwise six candidates: the base, then the base without its last suffix followed by `.jpg`, `.jpeg`, `.png`, `.gif`, `.webp` in that order |
| ImageUtils.CandidatesDistinct | src/utils/image_utils.py:89-101 | no candidate URL is tried twice |
| ImageUtils.RunAttempts | src/utils/image_utils.py:95-119 | the loop succeeds exactly when some attempt yields an image, returning the first such body; on failure all attempts ran and the `ValueError` names the last raised exception, or `None` when none raised |
| ImageUtils.Fetch | src/utils/image_utils.py:104-110 | one attempt yields the body exactly when the GET replies with a status outside 400–599 and a content type starting with `image/`; a 4xx/5xx reply raises `HTTPError`, a raised exception passes through, and any other reply is skipped without an error |
| ImageUtils.DownloadImage | src/utils/image_utils.py:79-119 | the URLs fetched are a prefix of the candidates, in order; a failed download fetched all of them and raises `ValueError` |
| ImageUtils.DownloadFindsFirstImage | src/utils/image_utils.py:96-112 | the download succeeds exactly when some candidate's GET replies with an image content type, and returns the body of the first such candidate |
| ImageUtils.DownloadAllNonImages | src/utils/image_utils.py:107-119 | when every candidate replies with a non-image type, the error is `ValueError("Failed to download image: None")` |
| ImageUtils.DownloadReportsLastError | src/utils/image_utils.py:114-119 | a failed download's message carries the text of the last exception a fetch raised |
| ImageUtils.KnownExtensionFetchedOnce | src/utils/image_utils.py:89-93 | a base with a known image extension is fetched exactly once, as is |
| ImageUtils.Base64FieldIff | src/utils/image_utils.py:135 | the second comma field exists exactly when the data contains a comma |
| ImageUtils.IsBase64Image | src/utils/image_utils.py:121-141 | true exactly when the data starts with `data:image/`, has a second comma field, that field decodes, and the decoded bytes verify as an image; never raises |
| ImageUtils.SaveBase64Image | src/utils/image_utils.py:143-168 | on success, writes the decoded second comma field to `temp_base64.<subtype>` and changes nothing else; with no subtype or no comma field it raises `IndexError` and a decoding error propagates, both before any file exists; a failed write re-raises the write's error and leaves what the write left |
| ImageUtils.AcceptedBase64Saves | src/utils/image_utils.py:121-168 | data accepted by `is_base64_image` always has a subtype free of `/` and `;`, and saving it can only fail by the write failing |
| ImageUtils.CleanupImage | src/utils/image_utils.py:170-183 | never raises; afterwards the path is absent exactly when it was absent or deleting it succeeded; no other file changes |
| Io.WriteFile | app.py:104-105 | a write that succeeds leaves exactly the bytes at the path; a failed write raises its error and leaves the folder unchanged when opening failed, or the path holding what was written before the failure; no other file changes |
| Exceptions.KnownAncestors | src/utils/error_handlers.py:29-42 | every class is among its own ancestors, and `OSError` is a proper ancestor of exactly `UnidentifiedImageError`, `FileNotFoundError`, `ConnectionError`, `TimeoutError` and the requests exceptions |
| Exceptions.KnownAncestorsClosed | src/utils/error_handlers.py:29-42 | an ancestor's ancestors are ancestors |
| Exceptions.KnownSubclassOfIsPythonHierarchy | src/utils/error_handlers.py:29-42 | the relation given by these ancestor sets is a Python hierarchy in the model's sense |
| ErrorHandlers.HandleImageError | src/utils/error_handlers.py:19-46 | the status is always 400, 500 or 503; 503 only for a `RequestException`; details only for an `ImageProcessingError`, and then its own details |
| ErrorHandlers.UnidentifiedImageWins | src/utils/error_handlers.py:29-30 | an `UnidentifiedImageError` gets 400 "Invalid image format or corrupted image file", although it is also an `OSError` |
| ErrorHandlers.OSErrorShadowsLaterBranches | src/utils/error_handlers.py:32-33 | any other `OSError` gets 500 before the `ValueError`, `RequestException` and `ImageProcessingError` branches are consulted |
| ErrorHandlers.ValueErrorShowsItsText | src/utils/error_handlers.py:35-36 | a `ValueError` that is not an `OSError` gets 400 with its own text |
| ErrorHandlers.ImageProcessingErrorGets400 | src/utils/error_handlers.py:41-42 | under Python's hierarchy an `ImageProcessingError` gets 400 with its message and details |
| ErrorHandlers.ImageProcessingErrorDefaultDetails | src/utils/error_handlers.py:14-16 | an `ImageProcessingError` raised without details is reported with an empty details map |
| ErrorHandlers.UnexpectedErrorHidesText | src/utils/error_handlers.py:44-46 | an exception matching no branch gets 500 and a fixed message; two such exceptions of one class get the same response whatever their text |
| ErrorHandlers.No503UnderPython | src/utils/error_handlers.py:32-39 | under Python's hierarchy no exception gets 503, because every `RequestException` is an `OSError` |
| ErrorHandlers.ValidateImageSize | src/utils/error_handlers.py:48-63 | raises `ImageProcessingError` exactly when the size exceeds the maximum, with details `max_size` and `received_size` |
| ErrorHandlers.ValidateImageFormat | src/utils/error_handlers.py:65-80 | raises `ImageProcessingError` exactly when the type is outside the four allowed, with details listing the allowed types and the received type |
| ErrorHandlers.ValidatorsAgree | src/utils/error_handlers.py:48-80 | these validators reject exactly the inputs the `ValueError` validators of the image utilities reject |
| ErrorHandlers.SizeRejectionReported | src/utils/error_handlers.py:59-63 | a too-large size is reported as 400 with both sizes in the details |
| Strings.ContainsLowerStripIff | src/classifier.py:111 | stripping white space before lower-casing does not change whether a non-empty, space-free token occurs |
| Strings.StripBounds | src/classifier.py:111 | `strip()` keeps a contiguous slice, and removes only white space on each side |
| Strings.JoinSplit | src/utils/image_utils.py:155-156 | joining the pieces of `split(c)` with `c` gives back the string |
| Strings.SplitJoin | src/utils/image_utils.py:155-156 | splitting pieces free of `c` that were joined with `c` gives back the pieces |
| Strings.FirstPieceIsPrefix | src/utils/image_utils.py:90 | the first piece of `split(c)` is the prefix before the first `c`, and is the whole string when `c` does not occur |
| Classifier.Verdict | src/classifier.py:111-117 | the verdict holds exactly when the lower-cased reply contains `hotdog` and does not contain `not`; stripping first makes no difference |
| Classifier.NotAnywhereMeansNo | src/classifier.py:117 | a reply with `not` anywhere, in any case, is not a hotdog |
| Classifier.NoTokenMeansNo | src/classifier.py:117 | a reply without the contiguous token `hotdog` is not a hotdog |
| Classifier.HotdogMeansYes | src/classifier.py:111-117 | `Hotdog` in any case with any surrounding white space is a hotdog |
| Classifier.HotdogExample | src/classifier.py:111-117 | the reply "Hotdog" is a hotdog |
| Classifier.NotHotdogExample | src/classifier.py:117 | the reply "Not Hotdog" is not a hotdog |
| Classifier.NothingExample | src/classifier.py:117 | the reply "nothing" is not a hotdog |
| Classifier.HotDogSpacedExample | src/classifier.py:117 | the reply "hot dog" is not a hotdog |
| Classifier.TestApiConnection | src/classifier.py:33-46 | true exactly when the models GET returns a reply whose status is not 4xx or 5xx; a raised exception gives false |
| Classifier.BuildPayload | src/classifier.py:72-90 | one user message whose first part is the prompt text and whose second is the image URL `data:image/jpeg;base64,` followed by the base64 text, with the configured model and token limit |
| Classifier.PayloadImageRoundTrip | src/classifier.py:84 | the payload's image URI, read back as a data URI, yields the base64 text (for base64 text without a comma, as real base64 output is) and the subtype `jpeg`, whatever the image really is |
| Classifier.ImageUriExtension | src/classifier.py:84 | the image URI's subtype field is always `jpeg` |
| Classifier.TranslateError | src/classifier.py:122-132 | a requests connection error becomes `ConnectionError("Cannot connect to OpenRouter API")`, a requests timeout becomes `TimeoutError("API request timed out")`, anything else is re-raised unchanged |
| Classifier.TranslateIdempotent | src/classifier.py:122-132 | under Python's hierarchy translating a translated error changes nothing |
| Classifier.ClassifyImage | src/classifier.py:48-132 | the probe is always the first call; a failed probe ends with one call and a `ConnectionError`; a missing file ends with one call and `FileNotFoundError`; a failed read of the file ends with one call and its error, translated; otherwise the file's bytes are posted as base64, and a raised error is translated, a 4xx/5xx reply raises `HTTPError`, a failed JSON lookup re-raises, and a reply text gives its verdict |
| Classifier.FailedProbeBlocksPost | src/classifier.py:61-63 | under Python's hierarchy a failed probe raises `ConnectionError` and nothing is posted |
| App.ClassifyThenCleanup | app.py:73-82 | classification is followed by cleanup of the same path whatever the outcome; the result is the classifier's, and a verdict comes from a posted chat reply |
| App.ClassifyWritten | app.py:107-117 | a written temporary file is classified, then handed to cleanup as the last effect; only that file may have changed, and it is gone unless deleting it failed |
| App.WriteThenClassify | app.py:102-117 | a failed write stops with its error, before classification and without cleanup, leaving at the path whatever the write left there; otherwise the file is classified as written, then cleaned up last, and nothing else changes |
| App.Base64Branch | app.py:61-88 | base64 data refused by `is_base64_image` gets "Invalid base64 image data" before anything is written; any saved file is cleaned up and nothing else changes |
| App.UrlBranch | app.py:90-123 | a URL refused by `is_valid_url` gets "Invalid URL provided" before any fetch; any downloaded file is cleaned up and nothing else changes |
| App.CheckUpload | app.py:130-141 | an upload passes exactly when it has a name, its lower-cased name ends with an allowed extension, its MIME type is allowed and its declared length (0 when absent) is within the maximum; the checks run in that order and the first failure is the error |
| App.FileBranch | app.py:125-164 | an upload failing a check is refused before it is saved; a saved upload is cleaned up and nothing else changes |
| App.ErrorResponse | app.py:84-88 | a branch error response has the status, message and details `handle_image_error` gives, plus the request id |
| App.Label | app.py:77 | the label is "Hotdog! 🌭" exactly for a true verdict, otherwise "Not Hotdog! ❌" |
| App.Finish | app.py:76-80 | a result of true gives 200 and "Hotdog! 🌭", false gives 200 and "Not Hotdog! ❌", with the branch's source; an exception goes through `handle_image_error`; the request id is always present |
| App.SelectedSource | app.py:62-126 | `base64` is chosen whenever present, `url` when `base64` is absent, `file` when both are absent; no input selects nothing |
| App.ProcessedUrl | app.py:92-113 | the echoed URL is present exactly for the URL source, and is the stripped `url` field |
| App.Branch | app.py:60-164 | whichever branch runs, every file written successfully is cleaned up last, nothing else changes, and a verdict comes from a posted chat reply |
| App.ClassifyRequest | app.py:50-181 | every response carries the request id; 200 exactly for a classification, whose source is the input chosen by precedence, whose label is the verdict on a posted chat reply, and which echoes the stripped `url` field only for the URL source; a selected branch's verdict is answered 200 with its label and its error through `handle_image_error`; every file handed to cleanup is gone unless deleting it failed, and no other file changes |
| App.ParseFailureIsInternalError | app.py:176-181 | an exception outside the branches gets 500 "Internal server error" with the request id |
| App.NoInputRejected | app.py:166-174 | with no `base64`, `url` or `file` input the answer is 400 "No image provided" with the accepted inputs `[file, url, base64]` |
| App.Base64TakesPrecedence | app.py:62-63 | a `base64` field decides the request alone |
| App.UrlTakesPrecedenceOverFile | app.py:91-92 | without `base64`, a `url` field decides the request alone |
| App.InvalidBase64NeverWritten | app.py:66-68 | refused base64 data gets 400 and nothing is written or posted |
| App.InvalidUrlNeverFetched | app.py:95-97 | a refused URL gets 400 and nothing is fetched, written or posted |
| App.RejectedUploadNeverSaved | app.py:130-141 | an upload failing a check gets 400 with that check's message; nothing is saved or posted |
| App.TextFileRejected | app.py:134-137 | `test.txt` is refused with the "Invalid file type" message |
| App.SuffixCheckWithoutDot | app.py:134 | the suffix check has no leading dot, so `xjpg` passes it |
| App.FailedProbeAnswers500 | app.py:107-123 | under Python's hierarchy a failed probe ends in 500 "Failed to read or process image file", after the temporary file is cleaned up and without a post |
| App.FailedReadAnswers500 | app.py:107-123 | under Python's hierarchy an `OSError` raised reading the written file ends in 500 "Failed to read or process image file", after the file is cleaned up and without a post |
| App.WrittenImageClassified | app.py:104-117 | bytes written and read back without error that the service answers with text `t` are classified by the verdict on `t` |
| App.Base64Classified | app.py:62-80 | accepted base64 data, saved and read without error and answered with `t`, gets 200 with the label of the verdict on `t` and source `base64` |
| App.UrlClassified | app.py:91-115 | a valid URL whose download succeeds, written and read without error and answered with `t`, gets 200 with the label of the verdict on `t`, source `url` and the stripped URL |
| App.FileClassified | app.py:126-156 | an upload passing every check, saved and read without error and answered with `t`, gets 200 with the label of the verdict on `t` and source `file` |
| App.FailedSaveLeavesFile | app.py:143-158 | an upload whose save fails part-way gets the write error's response, nothing is cleaned up, and the partly written file stays |
| App.FailedDownloadAnswers400 | app.py:95-123 | under Python's hierarchy a failed download is answered 400 with the download error's text, after every candidate was fetched and with nothing written |
| App.NoServiceUnavailable | app.py:60-181 | under Python's hierarchy the endpoint never answers 503 |

## Left out

- Flask routing, templates, the `/` and `/health` routes, and the 404, 405 and 413 handlers are framework plumbing. `/health` also shells out and sums file sizes as floats.
- The request id comes from `uuid.uuid4()`. It is a parameter of `App.ClassifyRequest`.
- HTTP, Pillow, `urlparse`, the base64 codec, `secure_filename` and file I/O are library calls. They are oracle parameters (`Io.Env`). What a failed write leaves at its path is an oracle too (`partialWrite`); a delete either succeeds or raises as a whole.
- Multipart form parsing is a library call. A request's form is either parsed or an exception; the model does not say which exceptions can arise.
- Environment loading and directory creation in `src/config.py` are left out. Only its constants are used, with the settings as a parameter.
- Logging (`src/utils/logger.py`) has no effect on results.
- `test_connection.py` and `list_models.py` are ad-hoc network scripts.
- `tests/test_classifier.py` imports functions that no longer exist.
- `temp_base64.<ext>` names can collide between concurrent requests. Concurrency is not modelled.
- ImageUtils.ValidateImageSize: the megabyte figure in the message is float formatting and is not modelled. The message is the fixed prefix only.
- ErrorHandlers.ValidateImageSize: the same megabyte figure is not modelled.
- ImageUtils.ValidateImageFormat: the message lists the subtypes in Python's set iteration order. That order is not fixed, and the model uses one possible order.
- ErrorHandlers.ValidateImageFormat: for the same reason, the `allowed_types` list is fixed to one order. The contract states only its set of elements.
- App.CheckUpload: the "Invalid file type" message joins a set of extensions. The model uses the order in which the set is written.
- Strings.Lower: lower-cases ASCII letters only. Python's `str.lower` also maps other Unicode letters.
- ImageUtils.DownloadImage: `str()` of an exception is modelled as the text it was raised with. An `HTTPError`'s text is its reason phrase only, without the status code and URL requests adds.
- The HTTP response's JSON decoding and the `choices[0].message.content` lookup are one oracle field, `answer`. That field gives the reply text or the exception the lookup raised.
