/** The Node-API host as the binding reaches it (src/napi.rs).

    The host's value space is a map from handles to host values. Every
    `napi_*` entry point the binding wraps is a member of `Host`: one that
    only reads the host is a function, one that changes it is a method. Each
    entry point obeys its Node-API contract (an invalid handle gives
    `napi_invalid_arg`, a value of the wrong kind the matching `*_expected`
    status), and on a call its contract allows the host may still refuse
    with any status: which calls it refuses is the host's `refusal` oracle.
    A refused call changes nothing. After a failure the binding asks the host
    for its last-error record; that record is `LastErrorInfo(status)`. */
module Napi {
  import opened Text
  import opened Errors
  import opened NativeTypes

  type Handle = nat

  /** A native heap allocation handed to the host as a raw pointer (a
      `Box::into_raw`); 0 is the null pointer and never allocated. */
  type BoxId = nat

  const U32Limit: nat := 0x1_0000_0000

  /** `usize::MAX` on a 64-bit target, which Node-API reads as
      `NAPI_AUTO_LENGTH`: the string ends at its NUL terminator. */
  const NapiAutoLength: nat := 0xFFFF_FFFF_FFFF_FFFF

  /** `n as u32`: truncation to the low 32 bits. */
  function AsU32(n: nat): (r: U32)
    ensures n < U32Limit ==> r == n
  {
    n % U32Limit
  }

  /** The host's values. Arrays hold handles of their elements, objects
      handles of their properties; a function carries the user-data pointer it
      was created with, an external the pointer it wraps. */
  datatype HostValue =
    | JsUndefined
    | JsNull
    | JsBoolean(b: bool)
    | JsNumber(n: int)
    | JsString(bytes: Bytes)
    | JsSymbol(id: nat)
    | JsArray(elems: seq<Handle>)
    | JsObject(props: map<Bytes, Handle>)
    | JsFunction(name: Bytes, data: BoxId)
    | JsExternal(data: BoxId)

  /** Node-API's `napi_valuetype` as the host reports it. */
  datatype RawValueType =
    | RawUndefined | RawNull | RawBoolean | RawNumber | RawString
    | RawSymbol | RawObject | RawFunction | RawExternal

  /** The binding's `NapiValueType`. */
  datatype NapiValueType =
    | Undefined | Null | Boolean | Number | String
    | Symbol | Object | Function | External

  /** What `napi_typeof` reports for a value: arrays are objects. */
  function RawTypeOf(v: HostValue): RawValueType {
    match v
    case JsUndefined => RawUndefined
    case JsNull => RawNull
    case JsBoolean(_) => RawBoolean
    case JsNumber(_) => RawNumber
    case JsString(_) => RawString
    case JsSymbol(_) => RawSymbol
    case JsArray(_) => RawObject
    case JsObject(_) => RawObject
    case JsFunction(_, _) => RawFunction
    case JsExternal(_) => RawExternal
  }

  /** The inverse of `NapiValueType::from`. */
  function RawOfValueType(t: NapiValueType): RawValueType {
    match t
    case Undefined => RawUndefined
    case Null => RawNull
    case Boolean => RawBoolean
    case Number => RawNumber
    case String => RawString
    case Symbol => RawSymbol
    case Object => RawObject
    case Function => RawFunction
    case External => RawExternal
  }

  /** `impl From<napi_valuetype> for NapiValueType`: each of the nine tags
      becomes the tag of the same name. */
  function ValueTypeFromRaw(raw: RawValueType): (t: NapiValueType)
    ensures RawOfValueType(t) == raw
  {
    match raw
    case RawUndefined => Undefined
    case RawNull => Null
    case RawBoolean => Boolean
    case RawNumber => Number
    case RawString => String
    case RawSymbol => Symbol
    case RawObject => Object
    case RawFunction => Function
    case RawExternal => External
  }

  /** The tag mapping is one-to-one and onto. */
  lemma ValueTypeFromRawBijective(a: RawValueType, b: RawValueType, t: NapiValueType)
    ensures ValueTypeFromRaw(a) == ValueTypeFromRaw(b) <==> a == b
    ensures ValueTypeFromRaw(RawOfValueType(t)) == t
  {
  }

  /** The `{:?}` rendering of a `NapiValueType`. */
  function ValueTypeName(t: NapiValueType): string {
    match t
    case Undefined => "Undefined"
    case Null => "Null"
    case Boolean => "Boolean"
    case Number => "Number"
    case String => "String"
    case Symbol => "Symbol"
    case Object => "Object"
    case Function => "Function"
    case External => "External"
  }

  /** `napi_either`: the value when the status is `napi_ok`, otherwise the
      error built from the host's last-error record. */
  function NapiEither<T(==)>(status: NapiStatus, val: T, lastError: ExtendedErrorInfo): (r: Result<T>)
    ensures r.Ok? <==> status == NapiOk
    ensures r.Ok? ==> r.value == val
    ensures r.Err? ==> r.error == FromExtendedErrorInfo(lastError)
  {
    match status
    case NapiOk => Ok(val)
    case _ => Err(FromExtendedErrorInfo(lastError))
  }

  /** A native closure `Fn(NapiEnv, NapiValue, T) -> R`: its argument and
      result types and what it computes from the receiver and the decoded
      argument. */
  datatype Callback = Callback(argType: NativeType, retType: NativeType, body: (Handle, Native) -> Native)

  /** The closure's result has its declared type whenever its argument
      has, as Rust's typing of `F` guarantees. */
  ghost predicate WellTyped(f: Callback) {
    forall receiver: Handle, x: Native :: HasType(x, f.argType) ==> HasType(f.body(receiver, x), f.retType)
  }

  type TypedCallback = f: Callback | WellTyped(f)
    witness Callback(TUnit, TUnit, (receiver, x) => NUnit)

  /** What a native box holds: the `Option<F>` of a function adapter, or a
      value handed to `create_external`/`wrap`. */
  datatype Payload = ClosureSlot(slot: Option<TypedCallback>) | ValueBox(value: Native)

  datatype BoxState = Live(payload: Payload) | Freed

  /** One call into Node-API, with the arguments the host sees. */
  datatype Call =
    | CallGetUndefined
    | CallGetNull
    | CallGetBoolean(b: bool)
    | CallCreateObject
    | CallCreateArray
    | CallCreateArrayWithLength(size: nat)
    | CallCreateNumber(n: int)
    | CallCreateStringUtf8(cstr: Bytes, length: nat)
    | CallCreateFunction(cname: Bytes, data: BoxId)
    | CallTypeOf(value: Handle)
    | CallGetValueDouble(value: Handle)
    | CallGetValueUint32(value: Handle)
    | CallGetValueInt64(value: Handle)
    | CallGetValueBool(value: Handle)
    | CallGetValueStringUtf8(value: Handle, withBuffer: bool, bufsize: nat)
    | CallSetNamedProperty(object: Handle, name: Bytes, value: Handle)
    | CallGetNamedProperty(object: Handle, name: Bytes)
    | CallSetElement(array: Handle, index: U32, value: Handle)
    | CallGetElement(array: Handle, index: U32)
    | CallIsArray(value: Handle)
    | CallGetArrayLength(value: Handle)
    | CallCreateExternal(data: BoxId)
    | CallWrap(object: Handle, data: BoxId)
    | CallGetCbInfo

  /** The host's fixed behaviour beyond the Node-API contract: which calls it
      refuses, and what its last-error record says for each status. */
  datatype HostConfig = HostConfig(
    refusal: Call -> NapiStatus,
    lastErrorMessage: NapiStatus -> string,
    lastEngineCode: NapiStatus -> U32)

  /** A host that refuses no call its contract allows. */
  ghost predicate Reliable(cfg: HostConfig) {
    forall c :: cfg.refusal(c) == NapiOk
  }

  /** A host value whose array length fits the `u32` Node-API reports it in. */
  predicate LengthFits(v: HostValue) {
    v.JsArray? ==> |v.elems| < U32Limit
  }

  /** The array after `napi_set_element` at a (32-bit) index: an element is
      replaced, or the array grows with holes (read as `undefined`) up to it.
      Index 2^32 - 1 is not an array index: it names a plain property, which
      this model does not track. */
  function ElementsAfterSet(elems: seq<Handle>, idx: U32, value: Handle, hole: Handle): (r: seq<Handle>)
    requires |elems| < U32Limit
    ensures |r| < U32Limit
    ensures idx < |elems| ==> r == elems[idx := value]
    ensures |elems| <= idx < U32Limit - 1 ==> |r| == idx + 1 && r[idx] == value && r[..|elems|] == elems
  {
    if idx < |elems| then elems[idx := value]
    else if idx < U32Limit - 1 then elems + seq(idx - |elems|, _ => hole) + [value]
    else elems
  }

  /** The outcome of a call that creates a value: a fresh handle bound to it,
      or nothing changed. */
  ghost predicate Creates(heap0: map<Handle, HostValue>, next0: Handle, r: Result<Handle>, v: HostValue,
                          heap: map<Handle, HostValue>, next: Handle)
  {
    && (r.Ok? ==> r.value == next0 && heap == heap0[next0 := v] && next == next0 + 1)
    && (r.Err? ==> heap == heap0 && next == next0)
  }

  class Host {
    var heap: map<Handle, HostValue>
    var next: Handle
    var boxes: map<BoxId, BoxState>
    var nextBox: BoxId
    /** Values whose collection makes the host call `finalize_box` on a box. */
    var finalizers: map<Handle, BoxId>
    var nextRef: nat

    const undefinedHandle: Handle
    const nullHandle: Handle
    const trueHandle: Handle
    const falseHandle: Handle
    const cfg: HostConfig

    ghost predicate Valid()
      reads this
    {
      && undefinedHandle in heap && heap[undefinedHandle] == JsUndefined
      && nullHandle in heap && heap[nullHandle] == JsNull
      && trueHandle in heap && heap[trueHandle] == JsBoolean(true)
      && falseHandle in heap && heap[falseHandle] == JsBoolean(false)
      && (forall h :: h in heap ==> h < next && LengthFits(heap[h]) && DataOf(heap[h]) < nextBox)
      && (forall b :: b in boxes ==> 0 < b < nextBox)
      && (forall h :: h in finalizers ==> finalizers[h] in boxes)
      && 0 < nextBox
    }

    /** Some host value or finalizer refers to box `b`: the host owns it. */
    ghost predicate Owned(b: BoxId)
      reads this
    {
      (exists h :: h in heap && DataOf(heap[h]) == b) || b in finalizers.Values
    }

    constructor (config: HostConfig)
      ensures Valid()
      ensures cfg == config && boxes == map[] && finalizers == map[]
      ensures heap == map[0 := JsUndefined, 1 := JsNull, 2 := JsBoolean(true), 3 := JsBoolean(false)]
    {
      heap := map[0 := JsUndefined, 1 := JsNull, 2 := JsBoolean(true), 3 := JsBoolean(false)];
      next := 4;
      boxes := map[];
      nextBox := 1;
      finalizers := map[];
      nextRef := 0;
      undefinedHandle, nullHandle, trueHandle, falseHandle := 0, 1, 2, 3;
      cfg := config;
    }

    /** The status of a call: the contract's failure if it has one, otherwise
        whatever the host's refusal oracle says. */
    function Status(c: Call, contract: NapiStatus): (st: NapiStatus)
      ensures st == NapiOk <==> contract == NapiOk && cfg.refusal(c) == NapiOk
      ensures contract != NapiOk ==> st == contract
    {
      if contract != NapiOk then contract else cfg.refusal(c)
    }

    /** `napi_get_last_error_info` after a call that returned `st`. */
    function LastErrorInfo(st: NapiStatus): (info: ExtendedErrorInfo)
      ensures info.errorCode == st
    {
      ExtendedErrorInfo(cfg.lastErrorMessage(st), cfg.lastEngineCode(st), st)
    }

    /** The error `napi_either` builds after a call that returned `st`. */
    function HostError(st: NapiStatus): (e: NapiError)
      ensures e.errorCode == KindOfStatus(st)
    {
      FromExtendedErrorInfo(LastErrorInfo(st))
    }

    function Either<T(==)>(st: NapiStatus, val: T): Result<T> {
      NapiEither(st, val, LastErrorInfo(st))
    }

    // -------------------------------------------------------------------
    // Entry points that only read the host.

    /** `get_undefined`. */
    function GetUndefined(): (r: Result<Handle>)
      reads this
      ensures r.Ok? <==> cfg.refusal(CallGetUndefined) == NapiOk
      ensures r.Ok? ==> r.value == undefinedHandle
      ensures r.Err? ==> r.error == HostError(cfg.refusal(CallGetUndefined))
    {
      Either(Status(CallGetUndefined, NapiOk), undefinedHandle)
    }

    /** `get_null`. */
    function GetNull(): (r: Result<Handle>)
      ensures r.Ok? <==> cfg.refusal(CallGetNull) == NapiOk
      ensures r.Ok? ==> r.value == nullHandle
    {
      Either(Status(CallGetNull, NapiOk), nullHandle)
    }

    /** `get_boolean`. */
    function GetBoolean(b: bool): (r: Result<Handle>)
      ensures r.Ok? <==> cfg.refusal(CallGetBoolean(b)) == NapiOk
      ensures r.Ok? ==> r.value == if b then trueHandle else falseHandle
      ensures r.Err? ==> r.error == HostError(cfg.refusal(CallGetBoolean(b)))
    {
      Either(Status(CallGetBoolean(b), NapiOk), if b then trueHandle else falseHandle)
    }

    /** `type_of`: the host's tag, through `NapiValueType::from`. */
    function TypeOf(v: Handle): (r: Result<NapiValueType>)
      reads this
      ensures r.Ok? <==> v in heap && cfg.refusal(CallTypeOf(v)) == NapiOk
      ensures r.Ok? ==> RawOfValueType(r.value) == RawTypeOf(heap[v])
      ensures v !in heap ==> r == Err(HostError(NapiInvalidArg))
    {
      // the out-parameter starts as napi_undefined
      var raw := if v in heap then RawTypeOf(heap[v]) else RawUndefined;
      Either(Status(CallTypeOf(v), if v in heap then NapiOk else NapiInvalidArg), ValueTypeFromRaw(raw))
    }

    /** The contract of the number accessors. */
    function NumberContract(v: Handle): NapiStatus
      reads this
    {
      if v !in heap then NapiInvalidArg
      else if heap[v].JsNumber? then NapiOk
      else NapiNumberExpected
    }

    /** `get_value_double`. */
    function GetValueDouble(v: Handle): (r: Result<int>)
      reads this
      ensures r.Ok? <==> v in heap && heap[v].JsNumber? && cfg.refusal(CallGetValueDouble(v)) == NapiOk
      ensures r.Ok? ==> r.value == heap[v].n
    {
      var n := if v in heap && heap[v].JsNumber? then heap[v].n else 0;
      Either(Status(CallGetValueDouble(v), NumberContract(v)), n)
    }

    /** `get_value_uint32`: the number modulo 2^32, as ECMAScript's
        ToUint32 gives it. */
    function GetValueUint32(v: Handle): (r: Result<U32>)
      reads this
      ensures r.Ok? <==> v in heap && heap[v].JsNumber? && cfg.refusal(CallGetValueUint32(v)) == NapiOk
      ensures r.Ok? ==> r.value < U32Limit && (r.value - heap[v].n) % U32Limit == 0
    {
      var n := if v in heap && heap[v].JsNumber? then heap[v].n % U32Limit else 0;
      Either(Status(CallGetValueUint32(v), NumberContract(v)), n)
    }

    /** `get_value_int64`: the number, saturated to the `i64` range. */
    function GetValueInt64(v: Handle): (r: Result<int>)
      reads this
      ensures r.Ok? <==> v in heap && heap[v].JsNumber? && cfg.refusal(CallGetValueInt64(v)) == NapiOk
      ensures r.Ok? ==> -0x8000_0000_0000_0000 <= r.value < 0x8000_0000_0000_0000
      ensures r.Ok? && -0x8000_0000_0000_0000 <= heap[v].n < 0x8000_0000_0000_0000 ==> r.value == heap[v].n
    {
      var n :=
        if v in heap && heap[v].JsNumber? then
          (if heap[v].n < -0x8000_0000_0000_0000 then -0x8000_0000_0000_0000
           else if heap[v].n >= 0x8000_0000_0000_0000 then 0x7FFF_FFFF_FFFF_FFFF
           else heap[v].n)
        else 0;
      Either(Status(CallGetValueInt64(v), NumberContract(v)), n)
    }

    /** `get_value_bool`. */
    function GetValueBool(v: Handle): (r: Result<bool>)
      reads this
      ensures r.Ok? <==> v in heap && heap[v].JsBoolean? && cfg.refusal(CallGetValueBool(v)) == NapiOk
      ensures r.Ok? ==> r.value == heap[v].b
    {
      var contract := if v !in heap then NapiInvalidArg else if heap[v].JsBoolean? then NapiOk else NapiBooleanExpected;
      var b := if v in heap && heap[v].JsBoolean? then heap[v].b else false;
      Either(Status(CallGetValueBool(v), contract), b)
    }

    /** `is_array`. */
    function IsArray(v: Handle): (r: Result<bool>)
      reads this
      ensures r.Ok? <==> v in heap && cfg.refusal(CallIsArray(v)) == NapiOk
      ensures r.Ok? ==> (r.value <==> heap[v].JsArray?)
    {
      var contract := if v in heap then NapiOk else NapiInvalidArg;
      Either(Status(CallIsArray(v), contract), v in heap && heap[v].JsArray?)
    }

    /** `get_array_length`: the host's `u32` length, widened. */
    function GetArrayLength(v: Handle): (r: Result<nat>)
      reads this
      ensures r.Ok? <==> v in heap && heap[v].JsArray? && cfg.refusal(CallGetArrayLength(v)) == NapiOk
      ensures r.Ok? ==> r.value < U32Limit && r.value == AsU32(|heap[v].elems|)
    {
      var contract := if v !in heap then NapiInvalidArg else if heap[v].JsArray? then NapiOk else NapiArrayExpected;
      var len: U32 := if v in heap && heap[v].JsArray? then AsU32(|heap[v].elems|) else 0;
      Either(Status(CallGetArrayLength(v), contract), len as nat)
    }

    /** The contract of the element accessors (this model keeps elements on
        arrays only). */
    function ElementContract(a: Handle): NapiStatus
      reads this
    {
      if a !in heap then NapiInvalidArg
      else if heap[a].JsArray? then NapiOk
      else NapiObjectExpected
    }

    /** `get_element`: the index is cast to `u32`; reading past the end gives
        `undefined`. */
    function GetElement(a: Handle, index: nat): (r: Result<Handle>)
      reads this
      ensures r.Ok? <==> a in heap && heap[a].JsArray? && cfg.refusal(CallGetElement(a, AsU32(index))) == NapiOk
      ensures r.Ok? && AsU32(index) < |heap[a].elems| ==> r.value == heap[a].elems[AsU32(index)]
      ensures r.Ok? && AsU32(index) >= |heap[a].elems| ==> r.value == undefinedHandle
    {
      var idx := AsU32(index);
      var h := if a in heap && heap[a].JsArray? && idx < |heap[a].elems| then heap[a].elems[idx] else undefinedHandle;
      Either(Status(CallGetElement(a, idx), ElementContract(a)), h)
    }

    /** The contract of the named-property accessors. */
    function PropertyContract(o: Handle): NapiStatus
      reads this
    {
      if o !in heap then NapiInvalidArg
      else if heap[o].JsObject? then NapiOk
      else NapiObjectExpected
    }

    /** `get_named_property`: the name must convert to a C string first; a
        missing property reads as `undefined`. */
    function GetNamedProperty(o: Handle, name: Bytes): (r: Result<Handle>)
      reads this
      ensures HasNul(name) ==> r == Err(FromNulError(NulError(FirstNul(name), name)))
      ensures r.Ok? <==> !HasNul(name) && o in heap && heap[o].JsObject?
                         && cfg.refusal(CallGetNamedProperty(o, name)) == NapiOk
      ensures r.Ok? ==> r.value == if name in heap[o].props then heap[o].props[name] else undefinedHandle
    {
      var c := CStringNew(name);
      if c.Err? then Err(c.error)
      else
        var h := if o in heap && heap[o].JsObject? && name in heap[o].props then heap[o].props[name] else undefinedHandle;
        Either(Status(CallGetNamedProperty(o, name), PropertyContract(o)), h)
    }

    // -------------------------------------------------------------------
    // `get_value_string_utf8`: the length probe, then the read into a buffer.

    function StringContract(v: Handle): NapiStatus
      reads this
    {
      if v !in heap then NapiInvalidArg
      else if heap[v].JsString? then NapiOk
      else NapiStringExpected
    }

    /** The host string's bytes, or nothing when it is not a string. */
    function StringBytes(v: Handle): Bytes
      reads this
    {
      if v in heap && heap[v].JsString? then heap[v].bytes else []
    }

    /** `napi_get_value_string_utf8`: with no buffer it reports the length
        in bytes; with a buffer of `bufsize` bytes it copies at most
        `bufsize - 1` of them, terminates them with NUL and reports how many
        it copied; the bytes past the terminator are untouched. A failed
        call leaves the buffer and `result` alone. */
    method NapiGetValueStringUtf8(v: Handle, buf: array?<byte>, bufsize: nat, result0: nat)
      returns (status: NapiStatus, result: nat)
      requires buf != null ==> bufsize <= buf.Length
      modifies buf
      ensures status == Status(CallGetValueStringUtf8(v, buf != null, bufsize), StringContract(v))
      ensures status != NapiOk ==> result == result0 && (buf != null ==> buf[..] == old(buf[..]))
      ensures status == NapiOk && buf == null ==> result == |StringBytes(v)|
      ensures status == NapiOk && buf != null ==>
                && result == (if bufsize == 0 then 0 else Min(|StringBytes(v)|, bufsize - 1))
                && buf[..result] == StringBytes(v)[..result]
                && (bufsize > 0 ==> buf[result] == 0)
      ensures status == NapiOk && buf != null && 0 < bufsize && result + 1 <= buf.Length ==>
                buf[result + 1..] == old(buf[result + 1..])
      ensures status == NapiOk && buf != null && bufsize == 0 ==> buf[..] == old(buf[..])
    {
      status := Status(CallGetValueStringUtf8(v, buf != null, bufsize), StringContract(v));
      result := result0;
      if status == NapiOk {
        var s := StringBytes(v);
        if buf == null {
          result := |s|;
        } else if bufsize > 0 {
          var n := Min(|s|, bufsize - 1);
          var i := 0;
          while i < n
            invariant 0 <= i <= n
            invariant buf[..i] == s[..i]
            invariant buf[n..] == old(buf[n..])
          {
            buf[i] := s[i];
            i := i + 1;
          }
          buf[n] := 0;
          assert buf[..n] == s[..n];
          result := n;
        } else {
          result := 0;
        }
      }
    }

    /** What `get_value_string_utf8` returns: the length probe's failure,
        the size-mismatch error, the UTF-8 check of the bytes read (done
        before the read's status is looked at), or the read's status. */
    function StringUtf8(v: Handle): (r: Result<Bytes>)
      reads this
      ensures r.Ok? ==> v in heap && heap[v].JsString? && r.value == heap[v].bytes && ValidUtf8(r.value)
      ensures (v in heap && heap[v].JsString?
               && cfg.refusal(CallGetValueStringUtf8(v, false, 0)) == NapiOk
               && cfg.refusal(CallGetValueStringUtf8(v, true, |heap[v].bytes| + 1)) == NapiOk)
              ==> r == StringFromUtf8(heap[v].bytes)
      ensures Status(CallGetValueStringUtf8(v, false, 0), StringContract(v)) != NapiOk ==>
                r == Err(HostError(Status(CallGetValueStringUtf8(v, false, 0), StringContract(v))))
      ensures (v in heap && heap[v].JsString? && |heap[v].bytes| > 0
               && cfg.refusal(CallGetValueStringUtf8(v, false, 0)) == NapiOk
               && cfg.refusal(CallGetValueStringUtf8(v, true, |heap[v].bytes| + 1)) != NapiOk)
              ==> r == Err(BufferSizeMismatch(|heap[v].bytes|, 0))
    {
      var probe := Status(CallGetValueStringUtf8(v, false, 0), StringContract(v));
      if probe != NapiOk then Err(HostError(probe))
      else
        var size := |StringBytes(v)|;
        var fill := Status(CallGetValueStringUtf8(v, true, size + 1), StringContract(v));
        var written := if fill == NapiOk then size else 0;
        if written == size then
          var buffer := if fill == NapiOk then StringBytes(v) else [];
          var s := StringFromUtf8(buffer);
          if s.Err? then Err(s.error) else Either(fill, s.value)
        else
          Err(BufferSizeMismatch(size, written))
    }

    /** `get_value_string_utf8`: probe the length with a null buffer, read
        into a buffer of `size + 1` bytes, accept the read only when it
        reports exactly `size` bytes, then check UTF-8. */
    method GetValueStringUtf8(v: Handle) returns (r: Result<Bytes>)
      ensures r == StringUtf8(v)
    {
      var sizeStatus, size0 := NapiGetValueStringUtf8(v, null, 0, 0);
      var probe := Either(sizeStatus, size0);
      if probe.Err? {
        return Err(probe.error);
      }
      var size := probe.value;
      var buffer := new byte[size + 1];
      var status, written := NapiGetValueStringUtf8(v, buffer, size + 1, 0);
      if written == size {
        // `buffer.set_len(size)`, then `String::from_utf8(buffer)?`
        assert buffer[..size] == if status == NapiOk then StringBytes(v) else [];
        var s := StringFromUtf8(buffer[..size]);
        if s.Err? {
          return Err(s.error);
        }
        r := Either(status, s.value);
      } else {
        r := Err(BufferSizeMismatch(size, written));
      }
    }

    // -------------------------------------------------------------------
    // Entry points that change the host.

    method Allocate(v: HostValue) returns (h: Handle)
      requires Valid() && LengthFits(v) && DataOf(v) < nextBox
      modifies this`heap, this`next
      ensures Valid()
      ensures h == old(next) && h !in old(heap)
      ensures heap == old(heap)[h := v] && next == old(next) + 1
    {
      h := next;
      heap := heap[h := v];
      next := next + 1;
    }

    /** `create_object`. */
    method CreateObject() returns (r: Result<Handle>)
      requires Valid()
      modifies this`heap, this`next
      ensures Valid()
      ensures r.Ok? <==> cfg.refusal(CallCreateObject) == NapiOk
      ensures Creates(old(heap), old(next), r, JsObject(map[]), heap, next)
      ensures r.Err? ==> r.error == HostError(cfg.refusal(CallCreateObject))
    {
      var st := Status(CallCreateObject, NapiOk);
      var h: Handle := 0;
      if st == NapiOk {
        h := Allocate(JsObject(map[]));
      }
      r := Either(st, h);
    }

    /** `create_array`. */
    method CreateArray() returns (r: Result<Handle>)
      requires Valid()
      modifies this`heap, this`next
      ensures Valid()
      ensures r.Ok? <==> cfg.refusal(CallCreateArray) == NapiOk
      ensures Creates(old(heap), old(next), r, JsArray([]), heap, next)
    {
      var st := Status(CallCreateArray, NapiOk);
      var h: Handle := 0;
      if st == NapiOk {
        h := Allocate(JsArray([]));
      }
      r := Either(st, h);
    }

    /** `array_with_length`: an array of `size` holes, which read as
        `undefined`. A length that is not an array length is refused with
        `napi_invalid_arg`. */
    method ArrayWithLength(size: nat) returns (r: Result<Handle>)
      requires Valid()
      modifies this`heap, this`next
      ensures Valid()
      ensures r.Ok? <==> size < U32Limit && cfg.refusal(CallCreateArrayWithLength(size)) == NapiOk
      ensures Creates(old(heap), old(next), r, JsArray(seq(size, _ => undefinedHandle)), heap, next)
      ensures r.Err? ==> r.error == HostError(Status(CallCreateArrayWithLength(size), if size < U32Limit then NapiOk else NapiInvalidArg))
    {
      var st := Status(CallCreateArrayWithLength(size), if size < U32Limit then NapiOk else NapiInvalidArg);
      var h: Handle := 0;
      if st == NapiOk {
        h := Allocate(JsArray(seq(size, _ => undefinedHandle)));
      }
      r := Either(st, h);
    }

    /** `create_number` (and the `create_u32`, `create_i64` and
        `create_double` it stands for): a host number. */
    method CreateNumber(n: int) returns (r: Result<Handle>)
      requires Valid()
      modifies this`heap, this`next
      ensures Valid()
      ensures r.Ok? <==> cfg.refusal(CallCreateNumber(n)) == NapiOk
      ensures Creates(old(heap), old(next), r, JsNumber(n), heap, next)
      ensures r.Err? ==> r.error == HostError(cfg.refusal(CallCreateNumber(n)))
    {
      var st := Status(CallCreateNumber(n), NapiOk);
      var h: Handle := 0;
      if st == NapiOk {
        h := Allocate(JsNumber(n));
      }
      r := Either(st, h);
    }

    /** `napi_create_string_utf8`: with `NAPI_AUTO_LENGTH` the host reads up to
        the terminating NUL, otherwise `length` bytes. */
    method NapiCreateStringUtf8(cstr: Bytes, length: nat) returns (status: NapiStatus, h: Handle)
      requires Valid()
      requires length == NapiAutoLength ==> HasNul(cstr)
      requires length != NapiAutoLength ==> length <= |cstr|
      modifies this`heap, this`next
      ensures Valid()
      ensures status == Status(CallCreateStringUtf8(cstr, length), NapiOk)
      ensures Creates(old(heap), old(next), NapiEither(status, h, LastErrorInfo(status)),
                      JsString(if length == NapiAutoLength then cstr[..FirstNul(cstr)] else cstr[..length]),
                      heap, next)
    {
      status := Status(CallCreateStringUtf8(cstr, length), NapiOk);
      h := 0;
      if status == NapiOk {
        var s := if length == NapiAutoLength then cstr[..FirstNul(cstr)] else cstr[..length];
        h := Allocate(JsString(s));
      }
    }

    /** `create_string_utf8`: a string with a NUL byte is rejected before the
        host is called; otherwise the C string goes to the host with
        `usize::MAX` (`NAPI_AUTO_LENGTH`) as its length, and the host stores
        exactly the original bytes. */
    method CreateStringUtf8(s: Bytes) returns (r: Result<Handle>)
      requires Valid()
      modifies this`heap, this`next
      ensures Valid()
      ensures HasNul(s) ==> r == Err(FromNulError(NulError(FirstNul(s), s)))
      ensures r.Ok? <==> !HasNul(s) && cfg.refusal(CallCreateStringUtf8(s + [0], NapiAutoLength)) == NapiOk
      ensures Creates(old(heap), old(next), r, JsString(s), heap, next)
      ensures !HasNul(s) && r.Err? ==> r.error == HostError(cfg.refusal(CallCreateStringUtf8(s + [0], NapiAutoLength)))
    {
      var c := CStringNew(s);
      if c.Err? {
        return Err(c.error);
      }
      var cstr := c.value;
      assert cstr[..FirstNul(cstr)] == s;
      var status, h := NapiCreateStringUtf8(cstr, NapiAutoLength);
      r := Either(status, h);
    }

    /** `set_named_property`. */
    method SetNamedProperty(o: Handle, name: Bytes, value: Handle) returns (r: Result<()>)
      requires Valid()
      modifies this`heap
      ensures Valid()
      ensures HasNul(name) ==> r == Err(FromNulError(NulError(FirstNul(name), name)))
      ensures r.Ok? <==> !HasNul(name) && o in old(heap) && old(heap)[o].JsObject? && value in old(heap)
                         && cfg.refusal(CallSetNamedProperty(o, name, value)) == NapiOk
      ensures r.Ok? ==> heap == old(heap)[o := JsObject(old(heap)[o].props[name := value])]
      ensures r.Err? ==> heap == old(heap)
      ensures !HasNul(name) && r.Err? ==> r.error == HostError(Status(CallSetNamedProperty(o, name, value),
                                                               if value !in old(heap) then NapiInvalidArg else old(PropertyContract(o))))
    {
      var c := CStringNew(name);
      if c.Err? {
        return Err(c.error);
      }
      var contract := if value !in heap then NapiInvalidArg else PropertyContract(o);
      var status := Status(CallSetNamedProperty(o, name, value), contract);
      if status == NapiOk {
        heap := heap[o := JsObject(heap[o].props[name := value])];
      }
      r := Either(status, ());
    }

    /** `set_element`: the index is cast to `u32`. */
    method SetElement(a: Handle, index: nat, value: Handle) returns (r: Result<()>)
      requires Valid()
      modifies this`heap
      ensures Valid()
      ensures r.Ok? <==> a in old(heap) && old(heap)[a].JsArray? && value in old(heap)
                         && cfg.refusal(CallSetElement(a, AsU32(index), value)) == NapiOk
      ensures r.Ok? ==> heap == old(heap)[a := JsArray(ElementsAfterSet(old(heap)[a].elems, AsU32(index), value, undefinedHandle))]
      ensures r.Err? ==> heap == old(heap)
      ensures r.Err? ==> r.error == HostError(Status(CallSetElement(a, AsU32(index), value),
                                                     if value !in old(heap) then NapiInvalidArg else ElementContract(a)))
    {
      var idx := AsU32(index);
      var contract := if value !in heap then NapiInvalidArg else ElementContract(a);
      var status := Status(CallSetElement(a, idx, value), contract);
      if status == NapiOk {
        heap := heap[a := JsArray(ElementsAfterSet(heap[a].elems, idx, value, undefinedHandle))];
      }
      r := Either(status, ());
    }

    // -------------------------------------------------------------------
    // Native boxes handed to the host.

    /** `Box::into_raw(Box::new(p))`: a fresh non-null pointer to a live box. */
    method BoxIntoRaw(p: Payload) returns (b: BoxId)
      requires Valid()
      modifies this`boxes, this`nextBox
      ensures Valid()
      ensures b == old(nextBox) && b != 0 && b !in old(boxes)
      ensures boxes == old(boxes)[b := Live(p)] && nextBox == old(nextBox) + 1
    {
      b := nextBox;
      boxes := boxes[b := Live(p)];
      nextBox := nextBox + 1;
    }

    /** `finalize_box::<T>`: `Box::from_raw` on the pointer, dropped at once.
        `wasLive` is false when the box had already been freed: a double free
        in the source. */
    method FinalizeBox(b: BoxId) returns (wasLive: bool)
      requires Valid() && b in boxes
      modifies this`boxes
      ensures Valid()
      ensures wasLive <==> old(boxes)[b].Live?
      ensures boxes.Keys == old(boxes).Keys && boxes[b].Freed?
      ensures forall c :: c in boxes && c != b ==> boxes[c] == old(boxes)[c]
    {
      wasLive := boxes[b].Live?;
      boxes := boxes[b := Freed];
    }

    /** `create_external`: boxes the value and hands the raw pointer to the
        host with `finalize_box` as its finalizer. When the host refuses, the
        box stays allocated and nothing owns it. */
    method CreateExternal(value: Native) returns (r: Result<Handle>, b: BoxId)
      requires Valid()
      modifies this`heap, this`next, this`finalizers, this`boxes, this`nextBox
      ensures Valid()
      ensures b == old(nextBox) && boxes == old(boxes)[b := Live(ValueBox(value))]
      ensures r.Ok? <==> cfg.refusal(CallCreateExternal(b)) == NapiOk
      ensures Creates(old(heap), old(next), r, JsExternal(b), heap, next)
      ensures r.Ok? ==> finalizers == old(finalizers)[r.value := b]
      ensures r.Err? ==> finalizers == old(finalizers) && !Owned(b)
    {
      b := BoxIntoRaw(ValueBox(value));
      var status := Status(CallCreateExternal(b), NapiOk);
      var h: Handle := 0;
      if status == NapiOk {
        h := Allocate(JsExternal(b));
        finalizers := finalizers[h := b];
      }
      r := Either(status, h);
    }

    /** `wrap`: boxes the value and attaches the raw pointer to an object
        with `finalize_box` as its finalizer, returning a fresh reference.
        A handle that is not an object, or an object already carrying a
        native pointer, is refused with `napi_invalid_arg`, as Node-API's
        `napi_wrap` does. When the host refuses, the box stays allocated and
        nothing owns it. */
    method Wrap(o: Handle, value: Native) returns (r: Result<nat>, b: BoxId)
      requires Valid()
      modifies this`finalizers, this`nextRef, this`boxes, this`nextBox
      ensures Valid()
      ensures b == old(nextBox) && boxes == old(boxes)[b := Live(ValueBox(value))]
      ensures r.Ok? <==> o in heap && heap[o].JsObject? && o !in old(finalizers)
                         && cfg.refusal(CallWrap(o, b)) == NapiOk
      ensures r.Ok? ==> finalizers == old(finalizers)[o := b] && r.value == old(nextRef)
      ensures r.Err? ==> finalizers == old(finalizers) && !Owned(b)
    {
      b := BoxIntoRaw(ValueBox(value));
      var contract :=
        if o !in heap then NapiInvalidArg
        else if !heap[o].JsObject? then NapiInvalidArg
        else if o in finalizers then NapiInvalidArg
        else NapiOk;
      var status := Status(CallWrap(o, b), contract);
      var ref := 0;
      if status == NapiOk {
        finalizers := finalizers[o := b];
        ref := nextRef;
        nextRef := nextRef + 1;
      }
      r := Either(status, ref);
    }

    /** The host collecting a value that has a finalizer: it calls
        `finalize_box` on the value's box, which reclaims it. */
    method Collect(h: Handle) returns (wasLive: bool)
      requires Valid() && h in finalizers
      modifies this`boxes, this`finalizers
      ensures Valid()
      ensures finalizers == old(finalizers) - {h}
      ensures old(finalizers)[h] in boxes && boxes[old(finalizers)[h]].Freed?
      ensures wasLive <==> old(boxes)[old(finalizers)[h]].Live?
      ensures boxes.Keys == old(boxes).Keys
      ensures forall c :: c in old(boxes) && c != old(finalizers)[h] ==> boxes[c] == old(boxes)[c]
    {
      var b := finalizers[h];
      wasLive := FinalizeBox(b);
      finalizers := finalizers - {h};
    }

    /** `napi_create_function`: a function value carrying the user data. */
    method NapiCreateFunction(cname: Bytes, data: BoxId) returns (status: NapiStatus, h: Handle)
      requires Valid() && data < nextBox
      modifies this`heap, this`next
      ensures Valid()
      ensures status == Status(CallCreateFunction(cname, data), NapiOk)
      ensures Creates(old(heap), old(next), NapiEither(status, h, LastErrorInfo(status)),
                      JsFunction(cname[..FirstNul(cname)], data), heap, next)
    {
      status := Status(CallCreateFunction(cname, data), NapiOk);
      h := 0;
      if status == NapiOk {
        h := Allocate(JsFunction(cname[..FirstNul(cname)], data));
      }
    }
  }

  /** The native pointer a host value carries, 0 for none. */
  function DataOf(v: HostValue): BoxId {
    match v
    case JsFunction(_, data) => data
    case JsExternal(data) => data
    case _ => 0
  }

  function Min(a: nat, b: nat): nat {
    if a <= b then a else b
  }

  /** The error `get_value_string_utf8` gives when the read does not report
      the probed size. */
  function BufferSizeMismatch(size: nat, written: nat): (e: NapiError)
    ensures e.errorCode == GenericFailure && e.engineErrorCode == 0
  {
    NapiError("buffer size mismatch, expected " + NatToString(size) + ", got " + NatToString(written), 0, GenericFailure)
  }
}
