/**
 Shared vocabulary of the webhook model: raw bytes, optional values, and the
 Python exception kinds that the modelled code can raise.
 */
module Base {

  /** One octet of a raw HTTP request body. */
  newtype byte = x: int | 0 <= x < 256

  /** The raw, unparsed bytes of a request body. */
  type Bytes = seq<byte>

  datatype Option<+T> = None | Some(value: T)

  /** Either a value or the exception that the Python code raises instead. */
  datatype Result<+T> = Ok(value: T) | Raised(fault: Fault)

  /**
   The exceptions the modelled code can raise, named after their cause.
   - UnpackError: `a, b = s.split('=')` when the split does not give two parts (ValueError)
   - NonAsciiCompare: `hmac.compare_digest` on a str holding a non-ASCII character (TypeError)
   - NotADict: `.get` called on a decoded JSON value that is not an object (AttributeError)
   - LoadFailed: any exception other than JSONDecodeError from `json.loads` on the body
     or from re-encoding the payload with `json.dumps(payload, indent=2)` for the debug
     log: a UnicodeDecodeError for bytes that are not text, a RecursionError for nesting
     too deep for the decoder or for the encoder, or a ValueError for an integer literal
     over the interpreter's digit limit
   - HttpError: `raise_for_status` on a 4xx or 5xx reply (requests.HTTPError)
   - ExchangeFailed: anything raised while obtaining the installation token
   - RequestFailed: the approval POST itself raised (connection error, timeout)
   */
  datatype Fault =
    | UnpackError
    | NonAsciiCompare
    | NotADict
    | LoadFailed
    | HttpError(status: int)
    | ExchangeFailed
    | RequestFailed

  /** Python's notion of an ASCII-only str: every code point below 128. */
  predicate IsAscii(s: string) {
    forall i :: 0 <= i < |s| ==> s[i] as int < 128
  }
}
