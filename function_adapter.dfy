/** The function adapter of `create_function` (src/napi.rs): a native
    closure is boxed and handed to the host as the user data of a new
    function value; each call of that function runs the adapter, which
    reads the call's arguments, decodes them, runs the closure and encodes
    its result. */
module FunctionAdapter {
  import opened Text
  import opened Errors
  import opened NativeTypes
  import opened Napi
  import opened NapiValue

  /** The slots of the adapter's `argv` buffer. */
  const ArgvSlots: nat := 16

  /** What the host knows about one call: the receiver, the arguments the
      caller passed and the user data of the function called. */
  datatype CallbackInfo = CallbackInfo(receiver: Handle, args: seq<Handle>, data: BoxId)

  /** The out-parameters of `napi_get_cb_info`. */
  datatype CbInfo = CbInfo(status: NapiStatus, argc: nat, argv: seq<Handle>, receiver: Handle, data: BoxId)

  /** `napi_get_cb_info` with `argc` set to the `slots` of `argv`: on
      success it reports how many arguments were passed, copies as many as
      fit and fills the remaining slots with `undefined`; on failure the
      out-parameters keep their initial values (`argc` the slot count, `this`
      0, `user_data` null, `argv` uninitialised, here 0). */
  function GetCbInfo(host: Host, info: CallbackInfo, slots: nat): (r: CbInfo)
    ensures |r.argv| == slots
    ensures r.status == NapiOk <==> host.cfg.refusal(CallGetCbInfo) == NapiOk
    ensures r.status == NapiOk ==> r.argc == |info.args| && r.receiver == info.receiver && r.data == info.data
    ensures r.status == NapiOk ==>
              forall i :: 0 <= i < slots ==> r.argv[i] == if i < |info.args| then info.args[i] else host.undefinedHandle
    ensures r.status != NapiOk ==> r.argc == slots && r.receiver == 0 && r.data == 0
  {
    var status := host.Status(CallGetCbInfo, NapiOk);
    if status == NapiOk then
      CbInfo(status, |info.args|, seq(slots, i => if 0 <= i < |info.args| then info.args[i] else host.undefinedHandle),
             info.receiver, info.data)
    else
      CbInfo(status, slots, seq(slots, _ => 0), 0, 0)
  }

  /** Why the adapter panics. */
  datatype Panic =
    | StatusAssertion                        // `assert!(status == napi_ok)`
    | UserDataAssertion                      // `assert!(user_data != null)`
    | ArgvOutOfRange(argc: nat)              // `&argv[0..argc]` with `argc` > 16
    | CannotConvertArguments(error: NapiError)
    | NoCallbackFound
    | UndefinedUnwrap(error: NapiError)      // `get_undefined(env).unwrap()`

  /** How a call of the adapter ends: it returns a handle to the host, it
      panics, or it reads a box that is freed or holds something else. */
  datatype Outcome = Returned(value: Handle) | Panicked(panic: Panic) | UndefinedBehaviour

  /** How far a call gets before the closure runs: a panic, undefined
      behaviour at `Box::from_raw`, or the closure with its receiver and
      decoded argument. */
  datatype Entry = EntryPanics(panic: Panic) | EntryUndefined | EntryCalls(f: TypedCallback, receiver: Handle, arg: Native)

  /** The box at `data` is a live function-adapter box. */
  predicate IsClosureBox(boxes: map<BoxId, BoxState>, data: BoxId) {
    data in boxes && boxes[data].Live? && boxes[data].payload.ClosureSlot?
  }

  /** The adapter `wrapper::<F, T, R>` up to the closure: cb-info, the two
      assertions, the `argv[0..argc]` slice, the decoding of `T` (whose
      failure panics through `expect`), then `Box::from_raw` on the user
      data and `expect` on the `Option<F>` it holds. A closure whose types
      are not `T` and `R` means the box belongs to another instantiation. */
  function Enter(host: Host, info: CallbackInfo, argType: NativeType, retType: NativeType): (e: Entry)
    requires Decodable(argType)
    reads host
    ensures e.EntryCalls? ==> e.f.argType == argType && e.f.retType == retType && HasType(e.arg, argType)
    ensures e.EntryCalls? ==> IsClosureBox(host.boxes, info.data) && host.boxes[info.data].payload.slot == Some(e.f)
  {
    var cb := GetCbInfo(host, info, ArgvSlots);
    if cb.status != NapiOk then EntryPanics(StatusAssertion)
    else if cb.data == 0 then EntryPanics(UserDataAssertion)
    else if cb.argc > ArgvSlots then EntryPanics(ArgvOutOfRange(cb.argc))
    else
      var args := DecodeSpec(host, argType, cb.receiver, cb.argv[..cb.argc]);
      if args.Err? then EntryPanics(CannotConvertArguments(args.error))
      else if !IsClosureBox(host.boxes, cb.data) then EntryUndefined
      else
        var slot := host.boxes[cb.data].payload.slot;
        if slot.None? then EntryPanics(NoCallbackFound)
        else if slot.value.argType != argType || slot.value.retType != retType then EntryUndefined
        else EntryCalls(slot.value, cb.receiver, args.value)
  }

  /** The decoder sees exactly the arguments the caller passed, when there
      are at most 16 of them; with more, the slice panics. */
  lemma {:induction false} ArgumentsPassedThrough(host: Host, info: CallbackInfo, argType: NativeType, retType: NativeType)
    requires Decodable(argType)
    requires host.cfg.refusal(CallGetCbInfo) == NapiOk && info.data != 0
    ensures |info.args| > ArgvSlots ==> Enter(host, info, argType, retType) == EntryPanics(ArgvOutOfRange(|info.args|))
    ensures |info.args| <= ArgvSlots && DecodeSpec(host, argType, info.receiver, info.args).Err? ==>
              Enter(host, info, argType, retType) == EntryPanics(CannotConvertArguments(DecodeSpec(host, argType, info.receiver, info.args).error))
    ensures |info.args| <= ArgvSlots && DecodeSpec(host, argType, info.receiver, info.args).Ok?
            && IsClosureBox(host.boxes, info.data) && host.boxes[info.data].payload.slot.Some?
            && host.boxes[info.data].payload.slot.value.argType == argType
            && host.boxes[info.data].payload.slot.value.retType == retType
            ==> Enter(host, info, argType, retType)
                == EntryCalls(host.boxes[info.data].payload.slot.value, info.receiver,
                              DecodeSpec(host, argType, info.receiver, info.args).value)
  {
    var cb := GetCbInfo(host, info, ArgvSlots);
    if |info.args| <= ArgvSlots {
      assert cb.argv[..cb.argc] == info.args;
    }
  }

  /** Once the box is freed, no call reaches the closure again: a call
      that gets past decoding reads freed memory. */
  lemma CallAfterFreeIsUndefined(host: Host, info: CallbackInfo, argType: NativeType, retType: NativeType)
    requires Decodable(argType)
    requires info.data in host.boxes && host.boxes[info.data].Freed?
    requires host.cfg.refusal(CallGetCbInfo) == NapiOk && info.data != 0 && |info.args| <= ArgvSlots
    requires DecodeSpec(host, argType, info.receiver, info.args).Ok?
    ensures Enter(host, info, argType, retType) == EntryUndefined
  {
    ArgumentsPassedThrough(host, info, argType, retType);
  }

  /** The adapter's entry, run against the host: it only reads it. */
  method EnterCall(host: Host, info: CallbackInfo, argType: NativeType, retType: NativeType) returns (e: Entry)
    requires Decodable(argType)
    ensures e == Enter(host, info, argType, retType)
  {
    var cb := GetCbInfo(host, info, ArgvSlots);
    if cb.status != NapiOk {
      return EntryPanics(StatusAssertion);
    }
    if cb.data == 0 {
      return EntryPanics(UserDataAssertion);
    }
    if cb.argc > ArgvSlots {
      return EntryPanics(ArgvOutOfRange(cb.argc));
    }
    var args := FromNapiValues(host, argType, cb.receiver, cb.argv[..cb.argc]);
    if args.Err? {
      return EntryPanics(CannotConvertArguments(args.error));
    }
    if !IsClosureBox(host.boxes, cb.data) {
      return EntryUndefined;
    }
    var slot := host.boxes[cb.data].payload.slot;
    if slot.None? {
      return EntryPanics(NoCallbackFound);
    }
    if slot.value.argType != argType || slot.value.retType != retType {
      return EntryUndefined;
    }
    e := EntryCalls(slot.value, cb.receiver, args.value);
  }

  /** The adapter after the closure: the result is encoded, with
      `get_undefined` evaluated eagerly as the fallback; the fallback's own
      failure panics, whether or not the encoding succeeded, and an encoding
      failure returns `undefined`. `encoded` is the encoding's own result. */
  method Finish(host: Host, f: TypedCallback, receiver: Handle, arg: Native)
    returns (outcome: Outcome, ghost encoded: Result<Handle>)
    requires host.Valid() && Encodable(NodeApi, f.retType) && HasType(arg, f.argType)
    modifies host`heap, host`next
    ensures host.Valid() && Preserves(old(host.heap), host.heap)
    ensures outcome != UndefinedBehaviour
    ensures outcome.Panicked? <==> host.cfg.refusal(CallGetUndefined) != NapiOk
    ensures outcome.Panicked? ==> outcome.panic == UndefinedUnwrap(host.HostError(host.cfg.refusal(CallGetUndefined)))
    ensures outcome.Returned? ==>
              outcome.value == host.undefinedHandle || Represents(host.heap, outcome.value, f.body(receiver, arg), old(host.next))
    ensures Reliable(host.cfg) && !HasNulString(f.body(receiver, arg)) && LengthsFit(f.body(receiver, arg)) ==>
              outcome.Returned? && Represents(host.heap, outcome.value, f.body(receiver, arg), old(host.next))
    ensures outcome.Returned? ==> outcome.value == if encoded.Ok? then encoded.value else host.undefinedHandle
    ensures encoded.Ok? ==> Represents(host.heap, encoded.value, f.body(receiver, arg), old(host.next))
    ensures encoded.Ok? ==> !HasNulString(f.body(receiver, arg))
    ensures encoded.Err? ==> (HasNulString(f.body(receiver, arg)) && encoded.error == MakeGenericNapiError(NulErrorMessage))
                             || IsHostError(host, encoded.error)
  {
    var ret := f.body(receiver, arg);
    assert WellTyped(f);
    var image := IntoNapiValue(host, ret, f.retType, NodeApi);
    encoded := image;
    var fallback := host.GetUndefined();
    if fallback.Err? {
      return Panicked(UndefinedUnwrap(fallback.error)), encoded;
    }
    outcome := Returned(if image.Ok? then image.value else fallback.value);
  }

  /** `wrapper::<F, T, R>` as written: the box taken back with
      `Box::from_raw` is dropped when the call ends, so every call that
      reaches the closure frees it. */
  method Invoke(host: Host, info: CallbackInfo, argType: NativeType, retType: NativeType) returns (outcome: Outcome)
    requires host.Valid() && Decodable(argType) && Encodable(NodeApi, retType)
    modifies host`heap, host`next, host`boxes
    ensures host.Valid() && Preserves(old(host.heap), host.heap)
    ensures var e := old(Enter(host, info, argType, retType));
            && (e.EntryPanics? && e.panic != NoCallbackFound ==>
                  outcome == Panicked(e.panic) && host.heap == old(host.heap) && host.boxes == old(host.boxes))
            && (e == EntryPanics(NoCallbackFound) ==>
                  outcome == Panicked(NoCallbackFound) && host.boxes == old(host.boxes)[info.data := Freed])
            && (e.EntryUndefined? ==> outcome == UndefinedBehaviour)
            && (e.EntryCalls? ==> host.boxes == old(host.boxes)[info.data := Freed] && outcome != UndefinedBehaviour)
            && (e.EntryCalls? && outcome.Returned? ==>
                  outcome.value == host.undefinedHandle
                  || Represents(host.heap, outcome.value, e.f.body(e.receiver, e.arg), old(host.next)))
  {
    var e := EnterCall(host, info, argType, retType);
    if e.EntryUndefined? {
      return UndefinedBehaviour;
    }
    if e.EntryPanics? {
      if e.panic == NoCallbackFound {
        // the box was taken back; it is dropped while the panic unwinds
        var _ := host.FinalizeBox(info.data);
      }
      return Panicked(e.panic);
    }
    ghost var encoded;
    outcome, encoded := Finish(host, e.f, e.receiver, e.arg);
    var _ := host.FinalizeBox(info.data);
  }

  /** The adapter with the box borrowed instead of taken back: the closure
      stays live for the function's later calls. */
  method InvokeBorrowing(host: Host, info: CallbackInfo, argType: NativeType, retType: NativeType) returns (outcome: Outcome)
    requires host.Valid() && Decodable(argType) && Encodable(NodeApi, retType)
    modifies host`heap, host`next
    ensures host.Valid() && Preserves(old(host.heap), host.heap)
    ensures var e := old(Enter(host, info, argType, retType));
            && (e.EntryPanics? ==> outcome == Panicked(e.panic) && host.heap == old(host.heap))
            && (e.EntryUndefined? ==> outcome == UndefinedBehaviour)
            && (e.EntryCalls? ==> outcome != UndefinedBehaviour && IsClosureBox(host.boxes, info.data)
                                  && host.boxes[info.data] == old(host.boxes[info.data]))
            && (e.EntryCalls? && outcome.Returned? ==>
                  outcome.value == host.undefinedHandle
                  || Represents(host.heap, outcome.value, e.f.body(e.receiver, e.arg), old(host.next)))
  {
    var e := EnterCall(host, info, argType, retType);
    if e.EntryUndefined? {
      return UndefinedBehaviour;
    }
    if e.EntryPanics? {
      return Panicked(e.panic);
    }
    ghost var encoded;
    outcome, encoded := Finish(host, e.f, e.receiver, e.arg);
  }

  /** `create_function` as written: the closure is boxed before the name
      is checked, so a name with a NUL byte, or a host that refuses the
      function, leaves the box allocated with nothing owning it. */
  method CreateFunction(host: Host, name: Bytes, f: TypedCallback) returns (r: Result<Handle>, b: BoxId)
    requires host.Valid()
    modifies host`heap, host`next, host`boxes, host`nextBox
    ensures host.Valid()
    ensures b == old(host.nextBox) && host.boxes == old(host.boxes)[b := Live(ClosureSlot(Some(f)))]
    ensures HasNul(name) ==> r == Err(FromNulError(NulError(FirstNul(name), name)))
    ensures r.Ok? <==> !HasNul(name) && host.cfg.refusal(CallCreateFunction(name + [0], b)) == NapiOk
    ensures Creates(old(host.heap), old(host.next), r, JsFunction(name, b), host.heap, host.next)
    ensures r.Err? ==> host.boxes[b].Live? && !host.Owned(b)
  {
    b := host.BoxIntoRaw(ClosureSlot(Some(f)));
    var cname := CStringNew(name);
    if cname.Err? {
      return Err(cname.error), b;
    }
    assert cname.value[..FirstNul(cname.value)] == name;
    var status, h := host.NapiCreateFunction(cname.value, b);
    r := host.Either(status, h);
  }

  /** `create_function` with the name checked before the closure is boxed
      and the box reclaimed when the host refuses the function: a failure
      leaves no live box behind. */
  method CreateFunctionChecked(host: Host, name: Bytes, f: TypedCallback) returns (r: Result<Handle>, b: BoxId)
    requires host.Valid()
    modifies host`heap, host`next, host`boxes, host`nextBox
    ensures host.Valid()
    ensures HasNul(name) ==> r == Err(FromNulError(NulError(FirstNul(name), name))) && host.boxes == old(host.boxes)
    ensures r.Ok? <==> !HasNul(name) && host.cfg.refusal(CallCreateFunction(name + [0], b)) == NapiOk
    ensures Creates(old(host.heap), old(host.next), r, JsFunction(name, b), host.heap, host.next)
    ensures r.Ok? ==> host.boxes == old(host.boxes)[b := Live(ClosureSlot(Some(f)))]
    ensures r.Err? ==> forall c :: c in host.boxes && c !in old(host.boxes) ==> host.boxes[c].Freed?
    ensures r.Err? ==> forall c :: c in old(host.boxes) ==> c in host.boxes && host.boxes[c] == old(host.boxes)[c]
  {
    var cname := CStringNew(name);
    if cname.Err? {
      return Err(cname.error), 0;
    }
    b := host.BoxIntoRaw(ClosureSlot(Some(f)));
    assert cname.value[..FirstNul(cname.value)] == name;
    var status, h := host.NapiCreateFunction(cname.value, b);
    r := host.Either(status, h);
    if r.Err? {
      var _ := host.FinalizeBox(b);
    }
  }
}
