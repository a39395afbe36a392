/** Python exceptions as values. A value records its concrete class, its `str()`
    text and, for `ImageProcessingError`, its `details` map. Which class is a
    subclass of which is a parameter (`SubclassOf`), so every `isinstance` test of
    the code is a call of that parameter. */
module Exceptions {

  import opened Wrappers

  /** The exception classes the code raises or tests for; any other class is
      `OtherClass`. */
  datatype ExcClass =
    | UnidentifiedImageError
    | OSError
    | FileNotFoundError
    | ValueError
    | RequestException
    | HTTPError
    | RequestsConnectionError
    | RequestsTimeout
    | ConnectionError
    | TimeoutError
    | IndexError
    | ImageProcessingError
    | OtherClass(name: string)

  /** A value in an error `details` map. */
  datatype Detail = IntDetail(i: int) | TextDetail(s: string) | ListDetail(items: seq<string>)

  type Details = map<string, Detail>

  datatype Exc = Exc(cls: ExcClass, text: string, details: Details)

  /** `sub(a, b)` holds when class `a` is `b` or derives from it. */
  type SubclassOf = (ExcClass, ExcClass) -> bool

  /** Python's `isinstance(e, c)`. */
  predicate IsInstance(sub: SubclassOf, e: Exc, c: ExcClass) {
    sub(e.cls, c)
  }

  /** An exception raised with a message and no extra data. */
  function Raise(cls: ExcClass, text: string): Exc {
    Exc(cls, text, map[])
  }

  /** `ImageProcessingError(message, details)`: `str()` of it is the message, and
      missing details become an empty map. */
  function NewImageProcessingError(message: string, details: Option<Details>): Exc {
    Exc(ImageProcessingError, message, details.GetOr(map[]))
  }

  /** The classes a named class derives from, among the named ones, in CPython,
      Pillow and requests: `UnidentifiedImageError`, `ConnectionError`,
      `TimeoutError` and `FileNotFoundError` derive from `OSError`, and requests'
      `RequestException` derives from `IOError`, which is `OSError`. */
  function KnownAncestors(c: ExcClass): (r: set<ExcClass>)
    ensures c in r
    ensures c != OSError && OSError in r <==>
      c in {UnidentifiedImageError, FileNotFoundError, RequestException, HTTPError,
            RequestsConnectionError, RequestsTimeout, ConnectionError, TimeoutError}
  {
    match c
    case UnidentifiedImageError => {UnidentifiedImageError, OSError}
    case OSError => {OSError}
    case FileNotFoundError => {FileNotFoundError, OSError}
    case ValueError => {ValueError}
    case RequestException => {RequestException, OSError}
    case HTTPError => {HTTPError, RequestException, OSError}
    case RequestsConnectionError => {RequestsConnectionError, RequestException, OSError}
    case RequestsTimeout => {RequestsTimeout, RequestException, OSError}
    case ConnectionError => {ConnectionError, OSError}
    case TimeoutError => {TimeoutError, OSError}
    case IndexError => {IndexError}
    case ImageProcessingError => {ImageProcessingError}
    case OtherClass(_) => {c}
  }

  /** The subclass relation of the running Python: transitive, and on the named
      classes exactly `KnownAncestors`. Classes outside the list may derive from
      anything. */
  ghost predicate PythonHierarchy(sub: SubclassOf) {
    && (forall a: ExcClass, b: ExcClass :: !a.OtherClass? && !b.OtherClass? ==> (sub(a, b) <==> b in KnownAncestors(a)))
    && (forall a: ExcClass, b: ExcClass, c: ExcClass :: sub(a, b) && sub(b, c) ==> sub(a, c))
  }

  /** `KnownAncestors` read as a relation; it satisfies `PythonHierarchy`. */
  function KnownSubclassOf(a: ExcClass, b: ExcClass): bool {
    if a.OtherClass? then a == b else b in KnownAncestors(a)
  }

  /** The ancestor sets are closed: an ancestor's ancestors are ancestors. */
  lemma KnownAncestorsClosed(a: ExcClass, b: ExcClass)
    requires b in KnownAncestors(a)
    ensures KnownAncestors(b) <= KnownAncestors(a)
  {
  }

  lemma KnownSubclassOfIsPythonHierarchy()
    ensures PythonHierarchy(KnownSubclassOf)
  {
  }
}
