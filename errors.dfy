/** The binding's error taxonomy (node-api/src/error.rs): the error value every
    fallible operation returns, the closed set of error kinds, and the
    conversions into it from Node-API statuses, the host's extended error
    record and Rust's string conversion errors. */
module Errors {
  import opened Text

  type U32 = x: nat | x < 0x1_0000_0000

  /** Node-API's `napi_status`. Codes this binding does not name (later
      Node-API versions add some) are `OtherStatus`. */
  datatype NapiStatus =
    | NapiOk
    | NapiInvalidArg
    | NapiObjectExpected
    | NapiStringExpected
    | NapiNameExpected
    | NapiFunctionExpected
    | NapiNumberExpected
    | NapiBooleanExpected
    | NapiArrayExpected
    | NapiGenericFailure
    | NapiPendingException
    | NapiCancelled
    | NapiStatusLast
    | OtherStatus(code: nat)

  /** `NapiErrorType`: the kind carried by every `NapiError`. */
  datatype NapiErrorType =
    | InvalidArg
    | ObjectExpected
    | StringExpected
    | NameExpected
    | FunctionExpected
    | NumberExpected
    | BooleanExpected
    | ArrayExpected
    | GenericFailure
    | PendingException
    | Cancelled
    | StatusLast

  datatype NapiError = NapiError(errorMessage: string, engineErrorCode: U32, errorCode: NapiErrorType)

  /** `Result<T> = result::Result<T, NapiError>`, usable with `:-`. */
  datatype Result<+T> = Ok(value: T) | Err(error: NapiError) {
    predicate IsFailure() {
      Err?
    }

    function PropagateFailure<U>(): Result<U>
      requires Err?
    {
      Err(error)
    }

    function Extract(): T
      requires Ok?
    {
      value
    }
  }

  /** The eleven failure statuses the conversion table names. */
  predicate IsNamedFailure(s: NapiStatus) {
    !(s.NapiOk? || s.NapiStatusLast? || s.OtherStatus?)
  }

  /** The status the host reports for a kind: the partner of `KindOfStatus`. */
  function StatusOfKind(k: NapiErrorType): (s: Option<NapiStatus>)
  {
    match k
    case InvalidArg => Some(NapiInvalidArg)
    case ObjectExpected => Some(NapiObjectExpected)
    case StringExpected => Some(NapiStringExpected)
    case NameExpected => Some(NapiNameExpected)
    case FunctionExpected => Some(NapiFunctionExpected)
    case NumberExpected => Some(NapiNumberExpected)
    case BooleanExpected => Some(NapiBooleanExpected)
    case ArrayExpected => Some(NapiArrayExpected)
    case GenericFailure => Some(NapiGenericFailure)
    case PendingException => Some(NapiPendingException)
    case Cancelled => Some(NapiCancelled)
    case StatusLast => None
  }

  datatype Option<+T> = None | Some(value: T)

  /** `impl From<napi_status> for NapiErrorType`: each named failure status
      becomes the kind of the same name; every other status, `napi_ok`
      included, becomes `GenericFailure`. `StatusLast` is never produced. */
  function KindOfStatus(s: NapiStatus): (k: NapiErrorType)
    ensures k != StatusLast
    ensures IsNamedFailure(s) ==> StatusOfKind(k) == Some(s)
    ensures !IsNamedFailure(s) ==> k == GenericFailure
  {
    match s
    case NapiInvalidArg => InvalidArg
    case NapiObjectExpected => ObjectExpected
    case NapiStringExpected => StringExpected
    case NapiNameExpected => NameExpected
    case NapiFunctionExpected => FunctionExpected
    case NapiNumberExpected => NumberExpected
    case NapiBooleanExpected => BooleanExpected
    case NapiArrayExpected => ArrayExpected
    case NapiGenericFailure => GenericFailure
    case NapiPendingException => PendingException
    case NapiCancelled => Cancelled
    case _ => GenericFailure
  }

  /** Every kind but `StatusLast` is reached, from exactly one named status. */
  lemma KindOfStatusOnto(k: NapiErrorType)
    requires k != StatusLast
    ensures StatusOfKind(k).Some?
    ensures IsNamedFailure(StatusOfKind(k).value)
    ensures KindOfStatus(StatusOfKind(k).value) == k
  {
  }

  /** On the named statuses the table is one-to-one. */
  lemma KindOfStatusInjective(s: NapiStatus, t: NapiStatus)
    requires IsNamedFailure(s) && IsNamedFailure(t)
    ensures KindOfStatus(s) == KindOfStatus(t) <==> s == t
  {
  }

  /** `make_generic_napi_error`: the message is kept, the engine code is 0 and
      the kind is `GenericFailure`. */
  function MakeGenericNapiError(message: string): (e: NapiError)
    ensures e.errorMessage == message
    ensures e.engineErrorCode == 0 && e.errorCode == GenericFailure
  {
    NapiError(message, 0, GenericFailure)
  }

  /** Node-API's `napi_extended_error_info`: the host's record of the last
      failure (the C string pointer is modelled as the text it points to). */
  datatype ExtendedErrorInfo = ExtendedErrorInfo(errorMessage: string, engineErrorCode: U32, errorCode: NapiStatus)

  /** `impl From<napi_extended_error_info> for NapiError`. */
  function FromExtendedErrorInfo(info: ExtendedErrorInfo): (e: NapiError)
    ensures e.errorMessage == info.errorMessage
    ensures e.engineErrorCode == info.engineErrorCode
    ensures e.errorCode == KindOfStatus(info.errorCode) && e.errorCode != StatusLast
  {
    NapiError(info.errorMessage, info.engineErrorCode, KindOfStatus(info.errorCode))
  }

  /** Rust's `ffi::NulError`: where the first NUL byte is, and the bytes. */
  datatype NulError = NulError(nulPosition: nat, bytes: Bytes)

  const NulErrorMessage: string := "string must not contain 0 byte"

  /** `impl From<ffi::NulError> for NapiError`: position and bytes are dropped. */
  function FromNulError(err: NulError): (e: NapiError)
    ensures e == MakeGenericNapiError(NulErrorMessage)
    ensures e.errorCode == GenericFailure && e.engineErrorCode == 0
  {
    MakeGenericNapiError(NulErrorMessage)
  }

  /** Rust's `string::FromUtf8Error`: the rejected bytes and the length of
      their longest well-formed prefix. */
  datatype FromUtf8Error = FromUtf8Error(bytes: Bytes, validUpTo: nat)

  /** The `{:?}` rendering of a `FromUtf8Error`, reduced to the offset of
      the first ill-formed byte. */
  function Utf8ErrorDebug(err: FromUtf8Error): string
  {
    "FromUtf8Error { valid_up_to: " + NatToString(err.validUpTo) + " }"
  }

  /** `impl From<string::FromUtf8Error> for NapiError`. */
  function FromUtf8ErrorToNapi(err: FromUtf8Error): (e: NapiError)
    ensures e.errorCode == GenericFailure && e.engineErrorCode == 0
    ensures e.errorMessage == Utf8ErrorDebug(err)
  {
    MakeGenericNapiError(Utf8ErrorDebug(err))
  }

  /** `String::from_utf8`: the bytes themselves when well-formed, otherwise
      the error reporting the well-formed prefix. */
  function StringFromUtf8(bytes: Bytes): (r: Result<Bytes>)
    ensures r.Ok? <==> ValidUtf8(bytes)
    ensures r.Ok? ==> r.value == bytes
    ensures r.Err? ==> r.error == FromUtf8ErrorToNapi(FromUtf8Error(bytes, ValidUpTo(bytes)))
  {
    if ValidUpTo(bytes) == |bytes| then Ok(bytes)
    else Err(FromUtf8ErrorToNapi(FromUtf8Error(bytes, ValidUpTo(bytes))))
  }

  /** `CString::new`: the bytes with a terminating NUL appended, or the
      `NulError` locating the first interior NUL. */
  function CStringNew(bytes: Bytes): (r: Result<Bytes>)
    ensures r.Ok? <==> !HasNul(bytes)
    ensures r.Ok? ==> r.value == bytes + [0] && FirstNul(r.value) == |bytes|
    ensures r.Err? ==> r.error == FromNulError(NulError(FirstNul(bytes), bytes))
  {
    FirstNulFindsNul(bytes);
    if FirstNul(bytes) < |bytes| then Err(FromNulError(NulError(FirstNul(bytes), bytes)))
    else
      var c := bytes + [0];
      assert forall i :: 0 <= i < |bytes| ==> c[i] == bytes[i];
      FirstNulOfTerminated(bytes);
      Ok(c)
  }

  lemma {:induction false} FirstNulOfTerminated(bytes: Bytes)
    requires !HasNul(bytes)
    ensures FirstNul(bytes + [0]) == |bytes|
  {
    if bytes != [] {
      assert (bytes + [0])[1..] == bytes[1..] + [0];
      FirstNulOfTerminated(bytes[1..]);
    }
  }
}
