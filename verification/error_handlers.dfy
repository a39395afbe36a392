/** `ImageProcessingError`, the exception-to-HTTP mapping `handle_image_error`, and
    the pair of validators that raise `ImageProcessingError` with details. */
module ErrorHandlers {

  import opened Wrappers
  import opened Exceptions
  import Config
  import ImageUtils

  /** The JSON error body: `{"error": ..., "details"?: ...}`. */
  datatype ErrorBody = ErrorBody(error: string, details: Option<Details>)

  datatype Handled = Handled(body: ErrorBody, status: int)

  const CorruptImageMessage: string := "Invalid image format or corrupted image file"
  const ReadFailureMessage: string := "Failed to read or process image file"
  const DownloadFailureMessage: string := "Failed to download image from URL"
  const UnexpectedMessage: string := "An unexpected error occurred"

  /** `handle_image_error`: the first `isinstance` test that holds, in source
      order, decides the response. */
  function HandleImageError(e: Exc, sub: SubclassOf): (h: Handled)
    ensures h.status in {400, 500, 503}
    ensures h.status == 503 ==> IsInstance(sub, e, RequestException)
    ensures h.body.details.Some? ==> IsInstance(sub, e, ImageProcessingError) && h.body.details.value == e.details
  {
    if IsInstance(sub, e, UnidentifiedImageError) then Handled(ErrorBody(CorruptImageMessage, None), 400)
    else if IsInstance(sub, e, OSError) then Handled(ErrorBody(ReadFailureMessage, None), 500)
    else if IsInstance(sub, e, ValueError) then Handled(ErrorBody(e.text, None), 400)
    else if IsInstance(sub, e, RequestException) then Handled(ErrorBody(DownloadFailureMessage, None), 503)
    else if IsInstance(sub, e, ImageProcessingError) then Handled(ErrorBody(e.text, Some(e.details)), 400)
    else Handled(ErrorBody(UnexpectedMessage, None), 500)
  }

  /** An `UnidentifiedImageError` gets 400 whatever else it is an instance of,
      `OSError` included. */
  lemma UnidentifiedImageWins(e: Exc, sub: SubclassOf)
    requires IsInstance(sub, e, UnidentifiedImageError)
    ensures HandleImageError(e, sub) == Handled(ErrorBody(CorruptImageMessage, None), 400)
  {
  }

  /** Any other `OSError` gets 500 before the `ValueError`, `RequestException` and
      `ImageProcessingError` branches are consulted. */
  lemma OSErrorShadowsLaterBranches(e: Exc, sub: SubclassOf)
    requires !IsInstance(sub, e, UnidentifiedImageError) && IsInstance(sub, e, OSError)
    ensures HandleImageError(e, sub) == Handled(ErrorBody(ReadFailureMessage, None), 500)
  {
  }

  /** A `ValueError` that is not an `OSError` gets 400 and its own text. */
  lemma ValueErrorShowsItsText(e: Exc, sub: SubclassOf)
    requires IsInstance(sub, e, ValueError)
    requires !IsInstance(sub, e, UnidentifiedImageError) && !IsInstance(sub, e, OSError)
    ensures HandleImageError(e, sub) == Handled(ErrorBody(e.text, None), 400)
  {
  }

  /** Under Python's class hierarchy an `ImageProcessingError` reaches its own
      branch: 400 with its message and details. */
  lemma ImageProcessingErrorGets400(e: Exc, sub: SubclassOf)
    requires PythonHierarchy(sub)
    requires e.cls == ImageProcessingError
    ensures HandleImageError(e, sub) == Handled(ErrorBody(e.text, Some(e.details)), 400)
  {
    assert !sub(ImageProcessingError, UnidentifiedImageError);
    assert !sub(ImageProcessingError, OSError);
    assert !sub(ImageProcessingError, ValueError);
    assert !sub(ImageProcessingError, RequestException);
  }

  /** An `ImageProcessingError` raised without details is reported with an empty
      details map. */
  lemma ImageProcessingErrorDefaultDetails(message: string, sub: SubclassOf)
    requires PythonHierarchy(sub)
    ensures HandleImageError(NewImageProcessingError(message, None), sub) ==
      Handled(ErrorBody(message, Some(map[])), 400)
  {
    ImageProcessingErrorGets400(NewImageProcessingError(message, None), sub);
  }

  /** An exception no branch recognises gets 500 and a fixed message: two such
      exceptions of one class get the same response whatever their text or
      details, so nothing of them reaches the caller. */
  lemma UnexpectedErrorHidesText(e1: Exc, e2: Exc, sub: SubclassOf)
    requires e1.cls == e2.cls
    requires !IsInstance(sub, e1, UnidentifiedImageError) && !IsInstance(sub, e1, OSError)
    requires !IsInstance(sub, e1, ValueError) && !IsInstance(sub, e1, RequestException)
    requires !IsInstance(sub, e1, ImageProcessingError)
    ensures HandleImageError(e1, sub) == HandleImageError(e2, sub)
    ensures HandleImageError(e1, sub) == Handled(ErrorBody(UnexpectedMessage, None), 500)
  {
  }

  /** Under Python's class hierarchy the 503 branch is dead: requests'
      `RequestException` derives from `OSError`, so the `OSError` branch answers
      first with 500. */
  lemma {:induction false} No503UnderPython(e: Exc, sub: SubclassOf)
    requires PythonHierarchy(sub)
    ensures HandleImageError(e, sub).status != 503
  {
    if sub(e.cls, RequestException) {
      assert sub(RequestException, OSError);
      assert sub(e.cls, OSError);
    }
  }

  /** The validator of this module: raises `ImageProcessingError` when the size
      exceeds the maximum, with both numbers in its details. */
  function ValidateImageSize(fileSize: int, maxSize: int): (r: Option<Exc>)
    ensures r.Some? <==> fileSize > maxSize
    ensures r.Some? ==>
      && r.value.cls == ImageProcessingError
      && r.value.details == map["max_size" := IntDetail(maxSize), "received_size" := IntDetail(fileSize)]
  {
    if fileSize > maxSize then
      Some(NewImageProcessingError(ImageUtils.TooLargeMessage,
        Some(map["max_size" := IntDetail(maxSize), "received_size" := IntDetail(fileSize)])))
    else None
  }

  /** The validator of this module: raises `ImageProcessingError` for a MIME type
      outside the four allowed, listing them and the received type in its details. */
  function ValidateImageFormat(mimeType: string): (r: Option<Exc>)
    ensures r.Some? <==> mimeType !in Config.AllowedMimeTypes
    ensures r.Some? ==>
      && r.value.cls == ImageProcessingError
      && "received_type" in r.value.details && r.value.details["received_type"] == TextDetail(mimeType)
      && "allowed_types" in r.value.details && r.value.details["allowed_types"].ListDetail?
      && (set t | t in r.value.details["allowed_types"].items) == Config.AllowedMimeTypes
  {
    if mimeType !in Config.AllowedMimeTypes then
      Some(NewImageProcessingError(ImageUtils.UnsupportedFormatMessage + ImageUtils.AllowedFormatsText,
        Some(map["allowed_types" := ListDetail(Config.AllowedMimeList),
                 "received_type" := TextDetail(mimeType)])))
    else None
  }

  /** The two validator pairs accept and reject exactly the same inputs. */
  lemma ValidatorsAgree(fileSize: int, maxSize: int, mimeType: string)
    ensures ImageUtils.ValidateImageSize(fileSize, maxSize).Success? <==> ValidateImageSize(fileSize, maxSize).None?
    ensures ImageUtils.ValidateImageFormat(Some(mimeType)).Success? <==> ValidateImageFormat(mimeType).None?
  {
  }

  /** A size rejection from this module reaches the caller as 400 with both
      numbers. */
  lemma SizeRejectionReported(fileSize: int, maxSize: int, sub: SubclassOf)
    requires PythonHierarchy(sub)
    requires fileSize > maxSize
    ensures HandleImageError(ValidateImageSize(fileSize, maxSize).value, sub).status == 400
    ensures HandleImageError(ValidateImageSize(fileSize, maxSize).value, sub).body.details ==
      Some(map["max_size" := IntDetail(maxSize), "received_size" := IntDetail(fileSize)])
  {
    ImageProcessingErrorGets400(ValidateImageSize(fileSize, maxSize).value, sub);
  }
}
