/** The type-directed marshaling engine (node-api/src/napi_value.rs):
    decoders that turn a receiver and a slice of host handles into a native
    value of a given type, and encoders that turn a native value into a host
    handle. The native type that directs the conversion is a parameter here
    where Rust picks the impl by type. */
module NapiValue {
  import opened Text
  import opened Errors
  import opened NativeTypes
  import opened Napi

  // ---------------------------------------------------------------------
  // The argument checks.

  /** The message of `check_napi_args_length`. */
  function ArityMessage(expected: nat, got: nat): string {
    "expected " + NatToString(expected) + " argument, got " + NatToString(got)
  }

  /** `check_napi_args_length`: the slice must have exactly the expected
      length; otherwise `InvalidArg`, engine code 0, naming both counts. */
  function CheckArgsLength(args: seq<Handle>, expected: nat): (r: Result<()>)
    ensures r.Ok? <==> |args| == expected
    ensures r.Err? ==> r.error == NapiError(ArityMessage(expected, |args|), 0, InvalidArg)
  {
    if |args| == expected then Ok(())
    else Err(NapiError(ArityMessage(expected, |args|), 0, InvalidArg))
  }

  /** The arity message can be read back: the two counts it names are the
      expected and the actual length, in that order. */
  lemma ArityMessageNamesCounts(expected: nat, got: nat)
    ensures var m := ArityMessage(expected, got);
            var x := NatToString(expected);
            var y := NatToString(got);
            && m == "expected " + x + " argument, got " + y
            && ParseDecimal(x) == expected && ParseDecimal(y) == got
  {
    NatToStringReadsBack(expected);
    NatToStringReadsBack(got);
  }

  /** The message of `check_napi_type`. */
  function TypeMessage(expected: NapiValueType, found: NapiValueType): string {
    "expected argument to be of type " + ValueTypeName(expected)
      + ", but found it to be of type " + ValueTypeName(found)
  }

  /** `check_napi_type`: the host's tag must be the expected one. A
      mismatch is an `InvalidArg` error naming both tags, not the host's
      `*_expected` status. */
  function CheckType(host: Host, expected: NapiValueType, v: Handle): (r: Result<()>)
    reads host
    ensures r.Ok? <==> host.TypeOf(v).Ok? && host.TypeOf(v).value == expected
    ensures host.TypeOf(v).Err? ==> r == Err(host.TypeOf(v).error)
    ensures host.TypeOf(v).Ok? && host.TypeOf(v).value != expected ==>
              r == Err(NapiError(TypeMessage(expected, host.TypeOf(v).value), 0, InvalidArg))
  {
    var found :- host.TypeOf(v);
    if expected == found then Ok(())
    else Err(NapiError(TypeMessage(expected, found), 0, InvalidArg))
  }

  // ---------------------------------------------------------------------
  // Decoding.

  /** The scalar types with a decoder: `String`, `i64`, `u64`, `bool`, `f64`. */
  predicate IsDecodableScalar(t: NativeType) {
    t == TString || t == TSigned(W64) || t == TUnsigned(W64) || t == TBool || t == TF64
  }

  /** The types `FromNapiValues` is implemented for. */
  predicate Decodable(t: NativeType) {
    match t
    case TUnit => true
    case TVec(e) => Decodable(e)
    case _ => IsDecodableScalar(t)
  }

  /** The host tag each scalar decoder demands. */
  function ScalarTag(t: NativeType): (tag: NapiValueType)
    requires IsDecodableScalar(t)
    ensures tag == String <==> t == TString
    ensures tag == Boolean <==> t == TBool
    ensures tag == Number <==> t in {TSigned(W64), TUnsigned(W64), TF64}
  {
    if t == TString then String
    else if t == TBool then Boolean
    else Number
  }

  /** `get_value_uint64`: the 32-bit accessor, widened. It succeeds and
      fails exactly when `get_value_uint32` does, with the same error, and
      never gives a value of 2^32 or more. */
  function GetValueUint64(host: Host, v: Handle): (r: Result<nat>)
    reads host
    ensures r.Ok? <==> host.GetValueUint32(v).Ok?
    ensures r.Ok? ==> r.value < U32Limit && r.value == host.GetValueUint32(v).value
    ensures r.Err? ==> r.error == host.GetValueUint32(v).error
  {
    var u :- host.GetValueUint32(v);
    Ok(u as nat)
  }

  /** The accessor of each scalar decoder. */
  function ReadScalar(host: Host, t: NativeType, v: Handle): (r: Result<Native>)
    requires IsDecodableScalar(t)
    reads host
    ensures r.Ok? ==> HasType(r.value, t)
  {
    match t
    case TString =>
      var s :- host.StringUtf8(v);
      Ok(NString(s))
    case TSigned(_) =>
      var i :- host.GetValueInt64(v);
      Ok(NSigned(W64, i))
    case TUnsigned(_) =>
      var u :- GetValueUint64(host, v);
      Ok(NUnsigned(W64, u))
    case TBool =>
      var b :- host.GetValueBool(v);
      Ok(NBool(b))
    case TF64 =>
      var x :- host.GetValueDouble(v);
      Ok(NFloat(x))
  }

  /** `from_napi_values` for type `t`: what decoding `args` with receiver
      `receiver` gives against the current host. Every decoded value is a
      well-typed native value. */
  function DecodeSpec(host: Host, t: NativeType, receiver: Handle, args: seq<Handle>): (r: Result<Native>)
    requires Decodable(t)
    reads host
    ensures r.Ok? ==> HasType(r.value, t)
    decreases t, 0, 0
  {
    match t
    case TUnit => Ok(NUnit)
    case TVec(e) =>
      var _ :- CheckArgsLength(args, 1);
      var isArray :- host.IsArray(args[0]);
      if !isArray then Err(NotAnArray)
      else
        var size :- host.GetArrayLength(args[0]);
        var items :- DecodeElements(host, e, receiver, args[0], size);
        Ok(NVec(items))
    case _ =>
      var _ :- CheckArgsLength(args, 1);
      var _ :- CheckType(host, ScalarTag(t), args[0]);
      ReadScalar(host, t, args[0])
  }

  /** The error of the `Vec<T>` decoder for an argument that is no array. */
  const NotAnArray: NapiError := NapiError("expected array", 0, InvalidArg)

  /** One turn of the `Vec<T>` decoder's loop: element `i`, decoded as a
      one-element slice with the receiver passed through. */
  function ElementStep(host: Host, e: NativeType, receiver: Handle, arr: Handle, i: nat): (r: Result<Native>)
    requires Decodable(e)
    reads host
    ensures r.Ok? ==> HasType(r.value, e)
    decreases e, 1, 0
  {
    var ival :- host.GetElement(arr, i);
    DecodeSpec(host, e, receiver, [ival])
  }

  /** The first `k` turns of the loop: the decoded elements, or the first
      failing turn's error. */
  function DecodeElements(host: Host, e: NativeType, receiver: Handle, arr: Handle, k: nat): (r: Result<seq<Native>>)
    requires Decodable(e)
    reads host
    ensures r.Ok? ==> |r.value| == k && forall i :: 0 <= i < k ==> HasType(r.value[i], e)
    decreases e, 2, k
  {
    if k == 0 then Ok([])
    else
      var prefix :- DecodeElements(host, e, receiver, arr, k - 1);
      var item :- ElementStep(host, e, receiver, arr, k - 1);
      Ok(prefix + [item])
  }

  /** A failed turn ends the loop: later turns do not change the outcome. */
  lemma {:induction false} ElementsFailureSticks(host: Host, e: NativeType, receiver: Handle, arr: Handle, k: nat, m: nat)
    requires Decodable(e) && k <= m
    requires DecodeElements(host, e, receiver, arr, k).Err?
    ensures DecodeElements(host, e, receiver, arr, m) == DecodeElements(host, e, receiver, arr, k)
    decreases m
  {
    if k < m {
      ElementsFailureSticks(host, e, receiver, arr, k, m - 1);
    }
  }

  /** The `Vec<T>` decoder (and every scalar and `()` decoder on the way),
      reading the host without changing it. */
  method FromNapiValues(host: Host, t: NativeType, receiver: Handle, args: seq<Handle>) returns (r: Result<Native>)
    requires Decodable(t)
    ensures r == DecodeSpec(host, t, receiver, args)
    decreases t
  {
    if t == TUnit {
      return Ok(NUnit);
    } else if t.TVec? {
      var e := t.elem;
      var _ :- CheckArgsLength(args, 1);
      var value := args[0];
      var isArray :- host.IsArray(value);
      if !isArray {
        return Err(NotAnArray);
      }
      var size :- host.GetArrayLength(value);
      var result: seq<Native> := [];
      for i := 0 to size
        invariant DecodeElements(host, e, receiver, value, i) == Ok(result)
      {
        var ival := host.GetElement(value, i);
        if ival.Err? {
          ElementsFailureSticks(host, e, receiver, value, i + 1, size);
          return Err(ival.error);
        }
        var item := FromNapiValues(host, e, receiver, [ival.value]);
        if item.Err? {
          ElementsFailureSticks(host, e, receiver, value, i + 1, size);
          return Err(item.error);
        }
        result := result + [item.value];
      }
      return Ok(NVec(result));
    } else {
      var _ :- CheckArgsLength(args, 1);
      var value := args[0];
      var _ :- CheckType(host, ScalarTag(t), value);
      if t == TString {
        var s :- host.GetValueStringUtf8(value);
        return Ok(NString(s));
      }
      return ReadScalar(host, t, value);
    }
  }

  // ---------------------------------------------------------------------
  // What the decoders promise.

  /** Every decoder but `()`'s checks the arity first: with any slice length
      but one it fails with the arity error, whatever the host holds and
      without asking the host anything. */
  lemma ArityCheckedFirst(host: Host, t: NativeType, receiver: Handle, args: seq<Handle>)
    requires Decodable(t) && t != TUnit && |args| != 1
    ensures DecodeSpec(host, t, receiver, args) == Err(NapiError(ArityMessage(1, |args|), 0, InvalidArg))
  {
  }

  /** `()` decodes from any receiver and any slice, with no host call. */
  lemma UnitAlwaysDecodes(host: Host, receiver: Handle, args: seq<Handle>)
    ensures DecodeSpec(host, TUnit, receiver, args) == Ok(NUnit)
  {
  }

  /** A scalar decoder given one argument whose tag is not the one it
      demands fails with `InvalidArg` naming both tags. */
  lemma ScalarTypeMismatch(host: Host, t: NativeType, receiver: Handle, v: Handle)
    requires IsDecodableScalar(t)
    requires host.TypeOf(v).Ok? && host.TypeOf(v).value != ScalarTag(t)
    ensures DecodeSpec(host, t, receiver, [v]) == Err(NapiError(TypeMessage(ScalarTag(t), host.TypeOf(v).value), 0, InvalidArg))
    ensures DecodeSpec(host, t, receiver, [v]).error.errorCode == InvalidArg
  {
  }

  /** A decoded `u64` is below 2^32: it is the host number modulo 2^32. */
  lemma DecodedU64Truncated(host: Host, receiver: Handle, v: Handle)
    requires DecodeSpec(host, TUnsigned(W64), receiver, [v]).Ok?
    ensures v in host.heap && host.heap[v].JsNumber?
    ensures var u := DecodeSpec(host, TUnsigned(W64), receiver, [v]).value.u;
            u < U32Limit && u == host.heap[v].n % U32Limit
  {
  }

  /** The decoded vector has one element per turn of the loop, and its
      element `i` is the element type decoded from `[get_element(i)]`. */
  lemma {:induction false} DecodeElementsPointwise(host: Host, e: NativeType, receiver: Handle, arr: Handle, k: nat)
    requires Decodable(e)
    requires DecodeElements(host, e, receiver, arr, k).Ok?
    ensures var items := DecodeElements(host, e, receiver, arr, k).value;
            forall i :: 0 <= i < k ==>
              && host.GetElement(arr, i).Ok?
              && DecodeSpec(host, e, receiver, [host.GetElement(arr, i).value]) == Ok(items[i])
  {
    if k > 0 {
      DecodeElementsPointwise(host, e, receiver, arr, k - 1);
      var items := DecodeElements(host, e, receiver, arr, k).value;
      var prefix := DecodeElements(host, e, receiver, arr, k - 1).value;
      var last := ElementStep(host, e, receiver, arr, k - 1);
      assert items == prefix + [last.value];
      forall i | 0 <= i < k
        ensures host.GetElement(arr, i).Ok?
        ensures DecodeSpec(host, e, receiver, [host.GetElement(arr, i).value]) == Ok(items[i])
      {
        if i < k - 1 {
          assert items[i] == prefix[i];
        }
      }
    }
  }

  /** A failed vector decode is the error of its first failing element:
      all turns before it succeed. */
  lemma {:induction false} DecodeElementsFirstFailure(host: Host, e: NativeType, receiver: Handle, arr: Handle, k: nat)
    requires Decodable(e)
    requires DecodeElements(host, e, receiver, arr, k).Err?
    ensures exists j :: 0 <= j < k
              && DecodeElements(host, e, receiver, arr, j).Ok?
              && ElementStep(host, e, receiver, arr, j).Err?
              && DecodeElements(host, e, receiver, arr, k).error == ElementStep(host, e, receiver, arr, j).error
  {
    if DecodeElements(host, e, receiver, arr, k - 1).Err? {
      DecodeElementsFirstFailure(host, e, receiver, arr, k - 1);
      var j :| 0 <= j < k - 1
              && DecodeElements(host, e, receiver, arr, j).Ok?
              && ElementStep(host, e, receiver, arr, j).Err?
              && DecodeElements(host, e, receiver, arr, k - 1).error == ElementStep(host, e, receiver, arr, j).error;
      assert DecodeElements(host, e, receiver, arr, k).error == ElementStep(host, e, receiver, arr, j).error;
    } else {
      assert DecodeElements(host, e, receiver, arr, k).error == ElementStep(host, e, receiver, arr, k - 1).error;
    }
  }

  /** The `Vec<T>` decoder on one array argument: as many elements as the
      array is long, each decoded pointwise; an argument that is no array
      gives the "expected array" error. */
  lemma DecodeVec(host: Host, e: NativeType, receiver: Handle, v: Handle)
    requires host.Valid() && Decodable(e)
    requires host.GetArrayLength(v).Ok?
    requires DecodeSpec(host, TVec(e), receiver, [v]).Ok?
    ensures var items := DecodeSpec(host, TVec(e), receiver, [v]).value.items;
            && |items| == |host.heap[v].elems|
            && forall i :: 0 <= i < |items| ==>
                 host.GetElement(v, i).Ok? && DecodeSpec(host, e, receiver, [host.GetElement(v, i).value]) == Ok(items[i])
  {
    DecodeElementsPointwise(host, e, receiver, v, |host.heap[v].elems|);
  }

  lemma DecodeNonArray(host: Host, e: NativeType, receiver: Handle, v: Handle)
    requires Decodable(e)
    requires v in host.heap && !host.heap[v].JsArray? && host.cfg.refusal(CallIsArray(v)) == NapiOk
    ensures DecodeSpec(host, TVec(e), receiver, [v]) == Err(NotAnArray)
  {
  }

  // ---------------------------------------------------------------------
  // Encoding.

  /** The two revisions of the encoder: `IntoNapiValue` here and the
      earlier `ToNapiValue` (src/napi_value.rs). Both build the same host
      values; they differ in which types they cover. */
  datatype Revision = NodeApi | Legacy

  /** The types each revision encodes: `()`, `String`/`&str`, the unsigned
      integers (`u64` only in the earlier revision), `i8`..`i64`, `f32`,
      `f64`, `bool`, and `Vec<T>`/`&[T]`. */
  predicate Encodable(rev: Revision, t: NativeType) {
    match t
    case TUnsigned(w) => w != W64 || rev == Legacy
    case TVec(e) => Encodable(rev, e)
    case _ => true
  }

  /** Some string inside `v` has a NUL byte. */
  predicate HasNulString(v: Native) {
    match v
    case NString(s) => HasNul(s)
    case NVec(items) => exists i :: 0 <= i < |items| && HasNulString(items[i])
    case _ => false
  }

  /** Every vector inside `v` is shorter than 2^32, the longest host array. */
  predicate LengthsFit(v: Native) {
    match v
    case NVec(items) => |items| < U32Limit && forall i :: 0 <= i < |items| ==> LengthsFit(items[i])
    case _ => true
  }

  /** Handle `h` of `heap` holds the host image of `v`: `undefined` for
      `()`, the boolean, the string's bytes, the number, or an array of
      exactly as many elements each holding the image of the matching item.
      Every handle of the image but the shared `undefined` and boolean
      values is at least `lo`. */
  ghost predicate Represents(heap: map<Handle, HostValue>, h: Handle, v: Native, lo: nat)
    decreases v
  {
    h in heap &&
    match v
    case NUnit => heap[h] == JsUndefined
    case NBool(b) => heap[h] == JsBoolean(b)
    case NString(s) => lo <= h && heap[h] == JsString(s)
    case NUnsigned(_, u) => lo <= h && heap[h] == JsNumber(u)
    case NSigned(_, i) => lo <= h && heap[h] == JsNumber(i)
    case NFloat(x) => lo <= h && heap[h] == JsNumber(x)
    case NVec(items) =>
      && lo <= h && heap[h].JsArray? && |heap[h].elems| == |items|
      && forall j :: 0 <= j < |items| ==> Represents(heap, heap[h].elems[j], items[j], lo)
  }

  /** Every handle of `heap0` is still bound, to the same value. */
  ghost predicate Preserves(heap0: map<Handle, HostValue>, heap1: map<Handle, HostValue>) {
    forall k :: k in heap0 ==> k in heap1 && heap1[k] == heap0[k]
  }

  /** An image stays an image while the handles it may use keep their
      values. */
  lemma {:induction false} RepresentsFrame(heap0: map<Handle, HostValue>, heap1: map<Handle, HostValue>, h: Handle, v: Native, lo: nat)
    requires Represents(heap0, h, v, lo)
    requires forall k :: k in heap0 && (lo <= k || heap0[k].JsUndefined? || heap0[k].JsBoolean?) ==>
                           k in heap1 && heap1[k] == heap0[k]
    ensures Represents(heap1, h, v, lo)
    decreases v
  {
    if v.NVec? {
      forall j | 0 <= j < |v.items|
        ensures Represents(heap1, heap1[h].elems[j], v.items[j], lo)
      {
        RepresentsFrame(heap0, heap1, heap0[h].elems[j], v.items[j], lo);
      }
    }
  }

  /** An image above `lo` is an image above any lower bound. */
  lemma {:induction false} RepresentsWeaken(heap: map<Handle, HostValue>, h: Handle, v: Native, lo: nat, lo2: nat)
    requires Represents(heap, h, v, lo) && lo2 <= lo
    ensures Represents(heap, h, v, lo2)
    decreases v
  {
    if v.NVec? {
      forall j | 0 <= j < |v.items|
        ensures Represents(heap, heap[h].elems[j], v.items[j], lo2)
      {
        RepresentsWeaken(heap, heap[h].elems[j], v.items[j], lo, lo2);
      }
    }
  }

  /** An error the host reported through `napi_either`. */
  ghost predicate IsHostError(host: Host, e: NapiError) {
    exists st :: st != NapiOk && e == host.HostError(st)
  }

  /** `into_napi_value` for a value of type `t`. On success the result is a
      fresh image of the value and no handle that existed before changed;
      the only failures are a string with a NUL byte and an error the host
      reported, and a host that refuses nothing encodes every NUL-free value
      whose vectors fit. `Vec<T>` and `&[T]` build an array of the right
      length and write item `i` at index `i`, in order, stopping at the
      first failing encode or `set_element`. */
  method IntoNapiValue(host: Host, v: Native, ghost t: NativeType, ghost rev: Revision) returns (r: Result<Handle>)
    requires host.Valid() && Encodable(rev, t) && HasType(v, t)
    modifies host`heap, host`next
    ensures host.Valid()
    ensures Preserves(old(host.heap), host.heap) && old(host.next) <= host.next
    ensures r.Ok? ==> Represents(host.heap, r.value, v, old(host.next))
    ensures r.Err? ==> (HasNulString(v) && r.error == MakeGenericNapiError(NulErrorMessage)) || IsHostError(host, r.error)
    ensures Reliable(host.cfg) && !HasNulString(v) && LengthsFit(v) ==> r.Ok?
    ensures r.Ok? ==> !HasNulString(v)
    ensures v.NUnit? && r.Ok? ==> r.value == host.undefinedHandle
    ensures v.NBool? && r.Ok? ==> r.value == if v.b then host.trueHandle else host.falseHandle
    decreases v, 2
  {
    match v
    case NUnit =>
      r := host.GetUndefined();
    case NBool(b) =>
      r := host.GetBoolean(b);
    case NString(s) =>
      r := host.CreateStringUtf8(s);
    case NUnsigned(_, u) =>
      // `create_u32(s as u32)`; earlier `create_number(s as f64)`
      r := host.CreateNumber(u);
    case NSigned(_, i) =>
      // `create_i64(s as i64)`; earlier `create_number(s as f64)`
      r := host.CreateNumber(i);
    case NFloat(x) =>
      // `create_double(s as f64)`; earlier `create_number(s as f64)`
      r := host.CreateNumber(x);
    case NVec(items) =>
      ghost var failedAt;
      r, failedAt := EncodeArray(host, items, t.elem, rev);
  }

  /** The array encoder of `Vec<T>` and `&[T]`. When it fails after the
      array exists, `failedAt` is the item whose encode or `set_element`
      failed: the items before it are written and the slots from it on are
      still holes. */
  method EncodeArray(host: Host, items: seq<Native>, ghost e: NativeType, ghost rev: Revision)
    returns (r: Result<Handle>, ghost failedAt: nat)
    requires host.Valid() && Encodable(rev, e) && forall i :: 0 <= i < |items| ==> HasType(items[i], e)
    modifies host`heap, host`next
    ensures host.Valid()
    ensures Preserves(old(host.heap), host.heap) && old(host.next) <= host.next
    ensures r.Ok? ==> Represents(host.heap, r.value, NVec(items), old(host.next))
    ensures r.Err? ==> (HasNulString(NVec(items)) && r.error == MakeGenericNapiError(NulErrorMessage)) || IsHostError(host, r.error)
    ensures Reliable(host.cfg) && !HasNulString(NVec(items)) && LengthsFit(NVec(items)) ==> r.Ok?
    ensures r.Ok? ==> !HasNulString(NVec(items))
    ensures host.Status(CallCreateArrayWithLength(|items|), if |items| < U32Limit then NapiOk else NapiInvalidArg) != NapiOk ==>
              r.Err? && host.heap == old(host.heap) && host.next == old(host.next)
    ensures r.Err? && old(host.next) < host.next ==>
              && failedAt < |items| && FilledUpTo(host.heap, old(host.next), items, failedAt)
              && (forall j :: failedAt <= j < |items| ==> host.heap[old(host.next)].elems[j] == host.undefinedHandle)
              && ((HasNulString(items[failedAt]) && r.error == MakeGenericNapiError(NulErrorMessage))
                  || IsHostError(host, r.error))
    decreases NVec(items), 1
  {
    failedAt := 0;
    var created := host.ArrayWithLength(|items|);
    if created.Err? {
      return Err(created.error), failedAt;
    }
    var arr := created.value;
    for index := 0 to |items|
      invariant host.Valid()
      invariant arr == old(host.next) < host.next
      invariant Preserves(old(host.heap), host.heap)
      invariant FilledUpTo(host.heap, arr, items, index)
      invariant forall j :: index <= j < |items| ==> host.heap[arr].elems[j] == host.undefinedHandle
      invariant forall j :: 0 <= j < index ==> !HasNulString(items[j])
    {
      var written := EncodeElement(host, arr, items, index, e, rev);
      if written.Err? {
        assert items[index] in items;
        assert FilledUpTo(host.heap, arr, items, index);
        return Err(written.error), index;
      }
    }
    forall j | 0 <= j < |items|
      ensures Represents(host.heap, host.heap[arr].elems[j], items[j], arr)
    {
      RepresentsWeaken(host.heap, host.heap[arr].elems[j], items[j], arr + 1, arr);
    }
    return Ok(arr), failedAt;
  }

  /** The images of the first `k` items are in place in array `arr`, whose
      length is the number of items. */
  ghost predicate FilledUpTo(heap: map<Handle, HostValue>, arr: Handle, items: seq<Native>, k: nat) {
    && arr in heap && heap[arr].JsArray? && |heap[arr].elems| == |items|
    && forall j :: 0 <= j < k && j < |items| ==> Represents(heap, heap[arr].elems[j], items[j], arr + 1)
  }

  /** One turn of the array encoder's loop: encode item `index`, then
      `set_element` it at `index`. */
  method EncodeElement(host: Host, arr: Handle, items: seq<Native>, index: nat, ghost e: NativeType, ghost rev: Revision) returns (r: Result<()>)
    requires host.Valid() && Encodable(rev, e) && index < |items| < U32Limit && HasType(items[index], e)
    requires arr < host.next && FilledUpTo(host.heap, arr, items, index)
    modifies host`heap, host`next
    ensures host.Valid() && old(host.next) <= host.next
    ensures forall k :: k in old(host.heap) && k != arr ==> k in host.heap && host.heap[k] == old(host.heap)[k]
    ensures FilledUpTo(host.heap, arr, items, if r.Ok? then index + 1 else index)
    ensures forall j :: 0 <= j < |items| && (r.Err? || j != index) ==>
              host.heap[arr].elems[j] == old(host.heap)[arr].elems[j]
    ensures r.Err? ==> (HasNulString(items[index]) && r.error == MakeGenericNapiError(NulErrorMessage)) || IsHostError(host, r.error)
    ensures Reliable(host.cfg) && !HasNulString(items[index]) && LengthsFit(items[index]) ==> r.Ok?
    ensures r.Ok? ==> !HasNulString(items[index])
    decreases NVec(items), 0
  {
    ghost var heap0 := host.heap;
    ghost var next0 := host.next;
    var converted := IntoNapiValue(host, items[index], e, rev);
    forall j | 0 <= j < index
      ensures Represents(host.heap, host.heap[arr].elems[j], items[j], arr + 1)
    {
      RepresentsFrame(heap0, host.heap, heap0[arr].elems[j], items[j], arr + 1);
    }
    if converted.Err? {
      return Err(converted.error);
    }
    RepresentsWeaken(host.heap, converted.value, items[index], next0, arr + 1);
    ghost var heap1 := host.heap;
    var written := host.SetElement(arr, index, converted.value);
    if written.Err? {
      return Err(written.error);
    }
    ElementWritten(heap1, host.heap, arr, items, index, converted.value);
    r := Ok(());
  }

  /** Writing the image of item `index` into the array keeps the images of
      the items before it, and completes one more. */
  lemma ElementWritten(heap1: map<Handle, HostValue>, heap2: map<Handle, HostValue>, arr: Handle,
                       items: seq<Native>, index: nat, h: Handle)
    requires index < |items| < U32Limit
    requires arr in heap1 && heap1[arr].JsArray? && |heap1[arr].elems| == |items|
    requires heap2 == heap1[arr := JsArray(heap1[arr].elems[index := h])]
    requires forall j :: 0 <= j < index ==> Represents(heap1, heap1[arr].elems[j], items[j], arr + 1)
    requires Represents(heap1, h, items[index], arr + 1)
    ensures forall j :: 0 <= j < index + 1 ==> Represents(heap2, heap2[arr].elems[j], items[j], arr + 1)
  {
    forall j | 0 <= j < index + 1
      ensures Represents(heap2, heap2[arr].elems[j], items[j], arr + 1)
    {
      if j < index {
        RepresentsFrame(heap1, heap2, heap1[arr].elems[j], items[j], arr + 1);
      } else {
        RepresentsFrame(heap1, heap2, h, items[index], arr + 1);
      }
    }
  }

  // ---------------------------------------------------------------------
  // Round trip.

  /** Every host array's length fits a `u32` (part of `Host.Valid`). */
  ghost predicate ArraysFit(heap: map<Handle, HostValue>) {
    forall h :: h in heap ==> LengthFits(heap[h])
  }

  /** Encode, then decode: the handle an encoder returns, passed back as the
      single argument of a function taking the same type, decodes to the
      value that was encoded, on a host that refuses nothing. For
      `Vec<String>` this is the array the tests hand back and forth. */
  method EncodeThenDecode(host: Host, v: Native, ghost t: NativeType, ghost rev: Revision, receiver: Handle)
    returns (r: Result<Handle>)
    requires host.Valid() && Encodable(rev, t) && HasType(v, t) && Decodable(t) && FreeOfU64(t)
    modifies host`heap, host`next
    ensures host.Valid()
    ensures Reliable(host.cfg) && !HasNulString(v) && LengthsFit(v) ==> r.Ok?
    ensures Reliable(host.cfg) && r.Ok? ==> DecodeSpec(host, t, receiver, [r.value]) == Ok(v)
  {
    r := IntoNapiValue(host, v, t, rev);
    if Reliable(host.cfg) && r.Ok? {
      DecodeRoundTrip(host, t, v, r.value, receiver, old(host.next));
    }
  }

  /** Decoding the image of a value gives the value back, for every type
      both directions handle (`u64`, which is only decoded, is
      `DecodedU64Truncated`'s business), on a host that refuses nothing. */
  lemma {:induction false} DecodeRoundTrip(host: Host, t: NativeType, v: Native, h: Handle, receiver: Handle, lo: nat)
    requires ArraysFit(host.heap) && Reliable(host.cfg)
    requires Decodable(t) && FreeOfU64(t) && HasType(v, t)
    requires Represents(host.heap, h, v, lo)
    ensures DecodeSpec(host, t, receiver, [h]) == Ok(v)
    decreases t, 0, 0, 0
  {
    if t.TVec? {
      var elems := host.heap[h].elems;
      assert host.IsArray(h) == Ok(true);
      assert host.GetArrayLength(h) == Ok(|elems|);
      DecodeElementsRoundTrip(host, t.elem, v.items, h, receiver, lo, |elems|);
      assert DecodeElements(host, t.elem, receiver, h, |elems|) == Ok(v.items[..|elems|]);
      assert v.items[..|elems|] == v.items;
    } else if t != TUnit {
      assert host.TypeOf(h) == Ok(ScalarTag(t));
    }
  }

  /** The first `k` turns of the `Vec<T>` decoder on the image of a vector
      give its first `k` items. */
  lemma {:induction false} DecodeElementsRoundTrip(host: Host, e: NativeType, items: seq<Native>, arr: Handle,
                                                   receiver: Handle, lo: nat, k: nat)
    requires ArraysFit(host.heap) && Reliable(host.cfg)
    requires Decodable(e) && FreeOfU64(e) && forall i :: 0 <= i < |items| ==> HasType(items[i], e)
    requires Represents(host.heap, arr, NVec(items), lo) && k <= |items|
    ensures DecodeElements(host, e, receiver, arr, k) == Ok(items[..k])
    decreases e, 2, k, 1
  {
    if k == 0 {
      assert items[..0] == [];
    } else {
      DecodeElementsRoundTrip(host, e, items, arr, receiver, lo, k - 1);
      ElementsRoundTripStep(host, e, items, arr, receiver, lo, k);
    }
  }

  /** The inductive step: `k - 1` turns giving the first `k - 1` items, and
      one more turn, give the first `k` items. */
  lemma ElementsRoundTripStep(host: Host, e: NativeType, items: seq<Native>, arr: Handle,
                              receiver: Handle, lo: nat, k: nat)
    requires ArraysFit(host.heap) && Reliable(host.cfg)
    requires Decodable(e) && FreeOfU64(e) && 0 < k <= |items| && HasType(items[k - 1], e)
    requires Represents(host.heap, arr, NVec(items), lo)
    requires DecodeElements(host, e, receiver, arr, k - 1) == Ok(items[..k - 1])
    ensures DecodeElements(host, e, receiver, arr, k) == Ok(items[..k])
    decreases e, 2, k, 0
  {
    ElementRoundTrip(host, e, items, arr, receiver, lo, k - 1);
    DecodeElementsExtends(host, e, receiver, arr, k);
    assert items[..k - 1] + [items[k - 1]] == items[..k];
  }

  /** A turn of the `Vec<T>` decoder on the image of a vector gives the
      matching item. */
  lemma ElementRoundTrip(host: Host, e: NativeType, items: seq<Native>, arr: Handle,
                         receiver: Handle, lo: nat, i: nat)
    requires ArraysFit(host.heap) && Reliable(host.cfg)
    requires Decodable(e) && FreeOfU64(e) && i < |items| && HasType(items[i], e)
    requires Represents(host.heap, arr, NVec(items), lo)
    ensures ElementStep(host, e, receiver, arr, i) == Ok(items[i])
    decreases e, 1, 0, 0
  {
    var elems := host.heap[arr].elems;
    assert Represents(host.heap, elems[i], items[i], lo);
    assert host.GetElement(arr, i) == Ok(elems[i]);
    DecodeRoundTrip(host, e, items[i], elems[i], receiver, lo);
  }

  /** One more successful turn appends its element. */
  lemma DecodeElementsExtends(host: Host, e: NativeType, receiver: Handle, arr: Handle, k: nat)
    requires Decodable(e) && k > 0
    requires DecodeElements(host, e, receiver, arr, k - 1).Ok?
    requires ElementStep(host, e, receiver, arr, k - 1).Ok?
    ensures DecodeElements(host, e, receiver, arr, k)
            == Ok(DecodeElements(host, e, receiver, arr, k - 1).value + [ElementStep(host, e, receiver, arr, k - 1).value])
  {
  }
}
