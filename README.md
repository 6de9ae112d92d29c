# Node-API marshaling engine, modelled in Dafny

This project models the type-directed marshaling engine of a Rust binding to
Node-API. The engine converts Rust values into JavaScript host values and back,
driven by the Rust type:

- **Decoders** (`FromNapiValues`) turn a receiver and a slice of host handles
  into a typed native value. They check the arity, then the host type tag,
  then read the value. `Vec<T>` is decoded element by element from a host
  array.
- **Encoders** (`IntoNapiValue`, and the earlier `ToNapiValue`) turn a native
  value into a host handle. `Vec<T>` and `&[T]` fill a fresh host array
  element by element.
- **Error taxonomy** (`NapiError`, `NapiErrorType`) is built from Node-API
  statuses, the host's last-error record, `NulError` and `FromUtf8Error`.
- **Protocol pieces of the host wrapper** (`src/napi.rs`):
  - the status-to-`Result` rule `napi_either`;
  - the value-type tag mapping;
  - the two-phase UTF-8 string read;
  - NUL rejection before `napi_create_string_utf8`;
  - element and named-property access;
  - native boxes handed to the host with `finalize_box`;
  - the `create_function` adapter, which decodes a call's arguments, runs the
    closure and encodes its result.

The host is the class `Napi.Host`. Its state is a map from handles to host
values plus the table of native boxes it was handed. Each wrapped `napi_*`
entry point is a member of it:

- A **function** when the entry point only reads. A **method** with a
  `modifies` clause when it creates values, writes properties or elements,
  or takes or frees boxes.
- Each entry point follows its Node-API contract: an unknown handle gives
  `napi_invalid_arg`, a value of the wrong kind gives the `*_expected`
  status.
- Beyond that contract the host may refuse any call. Which calls it refuses
  is the host's fixed `refusal` oracle (`HostConfig`). A refused call
  changes nothing.
- `Reliable(cfg)` names a host that refuses nothing. Several contracts say
  what is guaranteed then.

Modules:

| module | file | content |
|---|---|---|
| `Text` | text.dfy | bytes, NUL search, UTF-8 well-formedness and the valid prefix, decimal rendering |
| `Errors` | errors.dfy | `NapiStatus`, `NapiErrorType`, `NapiError`, the `From` conversions, `CString::new`, `String::from_utf8` |
| `NativeTypes` | native_types.dfy | native types and values, and typing |
| `Napi` | napi.dfy | host values, tags, `napi_either`, the `Host` class and its entry points |
| `NapiValue` | napi_value.dfy | decoders, encoders of both revisions, the decode/encode round trip |
| `FunctionAdapter` | function_adapter.dfy | the `create_function` adapter and `create_function` itself |
| `ReturnsObjects` | returns_objects.dfy | the test extension's hand-written object encoder |

The decoders are pure functions of the host state (`NapiValue.DecodeSpec`).
The method `NapiValue.FromNapiValues` runs the `Vec<T>` decoding loop and
is proved equal to that function. The encoders are methods that allocate
host values. They are proved to build a fresh image of the native value
(`NapiValue.Represents`) and to leave every existing handle alone. The
round-trip lemma then shows that decoding such an image gives the value
back.

## Model

| member | source | states |
|---|---|---|
| Errors.MakeGenericNapiError | node-api/src/error.rs:7-13 | the message is kept; the engine code is 0 and the kind is `GenericFailure` |
| Errors.FromExtendedErrorInfo | node-api/src/error.rs:22-34 | message and engine code are kept; the status goes through the status-to-kind table, so the kind is never `StatusLast` |
| Errors.FromNulError | node-api/src/error.rs:36-40 | a `NulError` becomes `GenericFailure`, engine code 0, message "string must not contain 0 byte" |
| Errors.FromUtf8ErrorToNapi | node-api/src/error.rs:42-46 | a `FromUtf8Error` becomes `GenericFailure`, engine code 0, with its debug rendering as the message |
| Errors.KindOfStatus | node-api/src/error.rs:64-81 | each of the eleven named failure statuses maps to the kind of the same name; every other status, `napi_ok` included, maps to `GenericFailure`; `StatusLast` is never produced |
| Errors.KindOfStatusOnto | node-api/src/error.rs:66-77 | every kind but `StatusLast` is the image of a named failure status |
| Errors.KindOfStatusInjective | node-api/src/error.rs:66-77 | two named failure statuses map to the same kind exactly when they are equal |
| Errors.StringFromUtf8 | src/napi.rs:299 | `String::from_utf8` succeeds exactly on well-formed UTF-8 and keeps the bytes; otherwise its error carries the length of the well-formed prefix |
| Errors.CStringNew | src/napi.rs:164 | `CString::new` succeeds exactly when the bytes hold no NUL; the C string is the bytes plus a terminator, and its first NUL is that terminator |
| Napi.ValueTypeFromRaw | src/napi.rs:36-50 | each of the nine host tags becomes the tag of the same name (`RawOfValueType` inverts it) |
| Napi.ValueTypeFromRawBijective | src/napi.rs:36-50 | the tag mapping is one-to-one and onto |
| Napi.NapiEither | src/napi.rs:52-57 | the result is `Ok(val)` exactly when the status is `napi_ok`; otherwise it is the error built from the host's last-error record |
| Napi.Host.LastErrorInfo | src/napi.rs:59-69 | the last-error record after a failed call carries that call's status |
| Napi.Host.HostError | src/napi.rs:71-75 | the error built from the last-error record has the kind the status maps to |
| Napi.Host.GetUndefined | src/napi.rs:96-102 | the shared `undefined` handle, or the host's error when it refuses |
| Napi.Host.GetNull | src/napi.rs:104-110 | the shared `null` handle unless the host refuses |
| Napi.Host.GetBoolean | src/napi.rs:120-126 | the shared `true` or `false` handle matching the argument, or the host's error |
| Napi.Host.CreateObject | src/napi.rs:128-134 | succeeds exactly when the host does not refuse; then a fresh handle is bound to an empty object and nothing else changes; otherwise nothing changes |
| Napi.Host.CreateArray | src/napi.rs:136-142 | a fresh handle bound to an empty array, or nothing changed |
| Napi.Host.ArrayWithLength | src/napi.rs:144-150 | a fresh array of `size` holes; a length of 2^32 or more is refused with `napi_invalid_arg`; a refusal changes nothing |
| Napi.Host.CreateNumber | src/napi.rs:152-158 | a fresh handle bound to the number, or nothing changed with the host's error |
| Napi.Host.NapiCreateStringUtf8 | src/napi.rs:165-170 | with `NAPI_AUTO_LENGTH` the host stores the bytes up to the first NUL, otherwise `length` bytes |
| Napi.Host.CreateStringUtf8 | src/napi.rs:160-172 | a string with a NUL byte fails with the `NulError` conversion before any host call; otherwise the host is called with `NAPI_AUTO_LENGTH` and stores exactly the original bytes under a fresh handle, or reports its error |
| Napi.Host.TypeOf | src/napi.rs:238-242 | the tag of the value, through `NapiValueType::from`, with arrays reported as objects; an unknown handle gives `napi_invalid_arg` |
| Napi.Host.GetValueDouble | src/napi.rs:244-248 | succeeds exactly on a number the host does not refuse to read, and gives that number |
| Napi.Host.GetValueUint32 | src/napi.rs:254-258 | succeeds exactly on a number; the result is below 2^32 and congruent to the number modulo 2^32 |
| Napi.Host.GetValueInt64 | src/napi.rs:260-264 | succeeds exactly on a number; the result is in the `i64` range and equals the number whenever the number is in range |
| Napi.Host.GetValueBool | src/napi.rs:268-272 | succeeds exactly on a boolean and gives it |
| Napi.Host.NapiGetValueStringUtf8 | src/napi.rs:283-294 | with a null buffer it reports the byte length; with a buffer it copies at most `bufsize - 1` bytes, NUL-terminates them and reports the count, leaving the bytes past the terminator untouched; a failure leaves the buffer and count alone |
| Napi.Host.StringUtf8 | src/napi.rs:280-312 | a successful read is a host string, exactly its bytes, and well-formed UTF-8; when the host serves both calls on a string, the result is `String::from_utf8` of its bytes; a failed length probe gives the host's error for that status; when only the read of a non-empty string is refused, nothing is written and the result is "buffer size mismatch" with `GenericFailure`, engine code 0 and a count of 0 written |
| Napi.Host.GetValueStringUtf8 | src/napi.rs:280-312 | probing with a null buffer, then reading into a buffer of `size + 1` bytes, and accepting only a read of exactly `size` bytes, gives `StringUtf8` |
| Napi.BufferSizeMismatch | src/napi.rs:302-310 | the size-mismatch error is `GenericFailure` with engine code 0 |
| Napi.Host.SetNamedProperty | src/napi.rs:363-371 | a name with a NUL fails before the host call; success happens exactly on an object, a known value and no refusal, and binds the name to the value; a failure changes nothing and carries the host's error |
| Napi.Host.GetNamedProperty | src/napi.rs:377-382 | a name with a NUL fails before the host call; on an object it gives the property's handle, or `undefined` when it is missing |
| Napi.Host.SetElement | src/napi.rs:384-387 | the index is cast to `u32`; on an array the element is replaced or the array grows with holes up to it; a failure changes nothing and carries the host's error |
| Napi.AsU32 | src/napi.rs:385 | `index as u32` keeps every index below 2^32 unchanged |
| Napi.ElementsAfterSet | src/napi.rs:385 | writing at a 32-bit index replaces that element, or extends the array to the index with the old elements as its prefix |
| Napi.Host.GetElement | src/napi.rs:393-397 | the index is cast to `u32`; on an array it gives the element, or `undefined` past the end |
| Napi.Host.IsArray | src/napi.rs:405-409 | on a known handle it tells whether the value is an array |
| Napi.Host.GetArrayLength | src/napi.rs:411-415 | on an array it gives the length, below 2^32 |
| Napi.Host.BoxIntoRaw | src/napi.rs:211-212 | `Box::into_raw` gives a fresh non-null pointer to a live box and changes no other box |
| Napi.Host.FinalizeBox | src/napi.rs:519-524 | `finalize_box` frees the box and no other; it reports whether the box was still live, so a second call is a double free |
| Napi.Host.CreateExternal | src/napi.rs:506-517 | the value is boxed first; on success a fresh external holds the pointer with `finalize_box` registered; on a refusal the box stays live and nothing owns it |
| Napi.Host.Wrap | src/napi.rs:479-490 | the value is boxed first; wrapping an object that carries no native pointer registers `finalize_box` for it and gives a fresh reference; a refusal leaves the box live and unowned |
| Napi.Host.Collect | src/napi.rs:519-524 | when the host collects a value with a finalizer, `finalize_box` frees its box and the finalizer is gone; every other box keeps its state |
| Napi.Host.NapiCreateFunction | src/napi.rs:215-221 | a fresh function value carrying the user-data pointer and the name up to the first NUL, or nothing changed |
| NapiValue.CheckArgsLength | node-api/src/napi_value.rs:70-81 | succeeds exactly when the slice has the expected length; otherwise `InvalidArg` with engine code 0 and the arity message |
| NapiValue.ArityMessageNamesCounts | node-api/src/napi_value.rs:70-81 | both counts in the arity message read back to the expected and actual counts |
| NapiValue.CheckType | node-api/src/napi_value.rs:83-94 | passes exactly when the host tag equals the expected tag; a mismatch is `InvalidArg` naming both tags; a failed `type_of` passes its error on |
| NapiValue.ScalarTag | node-api/src/napi_value.rs:31-35 | `String` for `String`, `Boolean` for `bool`, `Number` exactly for `i64`, `u64` and `f64` |
| NapiValue.GetValueUint64 | node-api/src/napi_value.rs:38-40 | `u64` is read through the 32-bit accessor: same success, same error, and a value below 2^32 |
| NapiValue.ReadScalar | node-api/src/napi_value.rs:31-35 | each scalar accessor gives a well-typed value of its type |
| NapiValue.DecodeSpec | node-api/src/napi_value.rs:18-68 | every decoded value, scalar or `Vec<T>`, has the type it was decoded at |
| NapiValue.DecodeElements | node-api/src/napi_value.rs:59-65 | after `k` turns of the loop the result has exactly `k` elements, each of the element type |
| NapiValue.ElementStep | node-api/src/napi_value.rs:61-62 | a decoded element has the element type |
| NapiValue.ElementsFailureSticks | node-api/src/napi_value.rs:61-62 | once a turn fails, later turns do not change the outcome |
| NapiValue.FromNapiValues | node-api/src/napi_value.rs:18-68 | the decoders as run: scalars check arity, then the tag, then read; the `Vec<T>` loop pushes each decoded element and returns the first error; the result is `DecodeSpec` |
| NapiValue.ArityCheckedFirst | node-api/src/napi_value.rs:18-29 | with any slice length but one every decoder except `()` fails with the arity error, whatever the host holds |
| NapiValue.UnitAlwaysDecodes | node-api/src/napi_value.rs:42-46 | `()` decodes from any receiver and any slice (the earlier revision's `()` decoder, src/napi_value.rs lines 10-14, is the same) |
| NapiValue.ScalarTypeMismatch | node-api/src/napi_value.rs:83-94 | one argument of the wrong tag gives `InvalidArg` naming the expected and the found tag |
| NapiValue.DecodedU64Truncated | node-api/src/napi_value.rs:38-40 | a decoded `u64` is below 2^32: the host number modulo 2^32 |
| NapiValue.DecodeElementsPointwise | node-api/src/napi_value.rs:59-65 | element `i` of the result is `T` decoded from `[get_element(i)]` with the receiver passed through |
| NapiValue.DecodeElementsFirstFailure | node-api/src/napi_value.rs:59-65 | a failed loop returns the error of its first failing turn, and every earlier turn succeeded |
| NapiValue.DecodeVec | node-api/src/napi_value.rs:48-68 | a decoded vector is as long as the array, and each element is decoded pointwise |
| NapiValue.DecodeNonArray | node-api/src/napi_value.rs:52-57 | an argument that is not an array gives `InvalidArg` "expected array" |
| NapiValue.IntoNapiValue | node-api/src/napi_value.rs:101-132 | `()` gives the shared `undefined` handle, `bool` the shared `true` or `false` handle, strings a fresh host string of the same bytes, numbers a fresh host number of the same value; a value holding a string with a NUL byte always fails, with the `NulError` conversion or a host error met before it; `u64` is encodable only in the earlier revision (src/napi_value.rs lines 20-102, all numbers through `create_number`); existing handles are untouched, the only failures are a NUL byte and a host error, and a reliable host encodes every NUL-free value whose arrays all have fewer than 2^32 elements |
| NapiValue.EncodeArray | node-api/src/napi_value.rs:135-165 | `&[T]` and `Vec<T>` build an array of the input's length holding item `i`'s image at index `i`, as a fresh image with existing handles untouched; a failed `array_with_length` writes nothing; a failure after it names the failing item `k` (a ghost result): items `0..k-1` are written, the slots from `k` on are still holes, and the error is item `k`'s NUL byte or a host error; the only failures are a NUL byte and a host error, and a vector holding a string with a NUL byte always fails; a reliable host encodes every NUL-free vector whose arrays all have fewer than 2^32 elements; the earlier revision (src/napi_value.rs lines 104-144) does the same |
| NapiValue.EncodeElement | src/napi_value.rs:108-111 | one turn of the fill: the item is encoded, then written at its index; on success the first `index + 1` slots hold their items' images, on failure the error is returned, and an item holding a string with a NUL byte never succeeds |
| NapiValue.ElementWritten | node-api/src/napi_value.rs:141-146 | writing an item's image at index `k` extends the filled prefix by one and keeps the earlier images |
| NapiValue.EncodeThenDecode | node-api/src/napi_value.rs:101-165 | on a host that refuses nothing, the handle the encoder returns for a NUL-free value, passed back as a function's single argument of the same type, decodes to that value; for `Vec<String>` this is the array tests/index.js lines 18-20 expect back; lines 47-50 test the reverse direction, decode then encode |
| NapiValue.DecodeRoundTrip | node-api/src/napi_value.rs:48-68 | decoding a host image of a well-typed value, `u64` aside, gives that value back; `NapiValue.EncodeThenDecode` applies it to the encoders' results |
| NapiValue.DecodeElementsRoundTrip | node-api/src/napi_value.rs:59-65 | the loop over an array image decodes the items in order |
| NapiValue.ElementsRoundTripStep | node-api/src/napi_value.rs:61-63 | a turn over an array image pushes the matching item after those already decoded |
| NapiValue.ElementRoundTrip | node-api/src/napi_value.rs:61-62 | one turn over an array image decodes that item |
| FunctionAdapter.GetCbInfo | src/napi.rs:187-196 | with 16 slots: the argument count, as many arguments as fit padded with `undefined`, the receiver and the user data; on failure the initial values |
| FunctionAdapter.Enter | src/napi.rs:197-205 | only a live closure box of the right types reaches the closure, with a decoded argument of its type |
| FunctionAdapter.ArgumentsPassedThrough | src/napi.rs:200-201 | with at most 16 arguments the decoder sees exactly the caller's arguments; more panics at the slice; a decode failure panics |
| FunctionAdapter.EnterCall | src/napi.rs:187-205 | the adapter's entry, which only reads the host, computes `Enter` |
| FunctionAdapter.Finish | src/napi.rs:205-208 | the closure's result is encoded; `get_undefined` is evaluated eagerly and its failure panics; otherwise the returned handle is the encoding's handle when the encoding succeeded and the shared `undefined` handle when it failed, with the encoding's failure a NUL byte or a host error; a result holding a string with a NUL byte never encodes, so it returns `undefined`; a reliable host returns the result's image when it is NUL-free and its arrays all have fewer than 2^32 elements |
| FunctionAdapter.Invoke | src/napi.rs:182-209 | as written: every call that reaches the closure, or finds an empty slot, frees the box |
| FunctionAdapter.CallAfterFreeIsUndefined | src/napi.rs:203 | after the box is freed, a call that decodes its arguments reads freed memory |
| FunctionAdapter.InvokeBorrowing | src/napi.rs:182-209 | with the box borrowed: a call that reaches the closure leaves the box live for the next call |
| FunctionAdapter.CreateFunction | src/napi.rs:211-222 | as written: the closure is boxed before the name is checked, so a NUL name or a refusal leaves a live box that nothing owns |
| FunctionAdapter.CreateFunctionChecked | src/napi.rs:211-222 | with the name checked first and the box reclaimed on refusal, a failure leaves no live box behind and every box that existed before the call keeps its state |
| ReturnsObjects.FieldsToNapiValues | tests/src/lib.rs:41-42 | the string field becomes a fresh host string and the integer a fresh host number, in that order; a string with a NUL byte always fails |
| ReturnsObjects.SetFields | tests/src/lib.rs:43-44 | setting "foo" then "bar" on an empty object leaves exactly those two properties |
| ReturnsObjects.ReturnsObjectsToNapiValue | tests/src/lib.rs:38-47 | a fresh object holding exactly "foo" and "bar", bound to the fields' images, which tests/index.js line 7 expects to deep-equal `{foo: "hello", bar: 42}`; the only failures are a NUL byte and a host error; a `foo` with a NUL byte always fails, and a reliable host succeeds whenever `foo` is NUL-free |
| ReturnsObjects.ReturnsObjectsResult | tests/src/lib.rs:20-25 | the test function's result `{ foo: "hello", bar: 42 }` encodes to an object whose "foo" is the string "hello" and whose "bar" is the number 42, as tests/index.js line 7 expects; its only failure is a host error, and a host that refuses nothing always succeeds |

## Left out

- Asynchronous values: the `BoxFuture` encoder and the futures, executor and channel modules. Their point is concurrency.
- Module registration (`module_register`, the `napi_module!` section glue) and `get_global`. These are load-time linker glue.
- `call_function`, `unwrap` and `get_value_external`. They transfer ownership of raw pointers, and ownership is modelled only as far as `finalize_box` and the function adapter's box.
- `get_last_error_info`'s own failure, which panics inside `napi_either`. The last-error record is an abstract value of the host (`LastErrorInfo`).
- Floating point. Numbers are integers. `f32`/`f64` values, `as f64` conversions and `create_number` precision are not modelled. The earlier revision's `u64` encoding is modelled as exact.
- `create_u32`, `create_i64` and `create_double`. The module that defines them is not part of this model. All three are modelled by `Napi.Host.CreateNumber`, with the casts on the way left out like floating point.
- Host failures beyond the Node-API contract. They come from a fixed refusal oracle, not from the engine's state or the environment.
- Named properties are modelled on plain objects only. Node-API also sets them on arrays and functions and converts primitives with ToObject; the engine only sets them on objects it has just created.
- Proxies, getters and prototype chains. The host's accessors are modelled on JavaScript's ordinary values.
- Elements live only on arrays. Index 2^32 - 1, which JavaScript treats as a plain property, is not tracked. The host refuses array lengths of 2^32 or more with `napi_invalid_arg`.
- The host stores string bytes as given. Node-API's replacement of ill-formed UTF-8 is not modelled, so `NapiValue.DecodeRoundTrip` assumes well-formed strings, as Rust's `String` guarantees.
- `Errors.FromUtf8ErrorToNapi`: the debug text of a `FromUtf8Error` is reduced to its `valid_up_to` field. Rust also prints the rejected bytes and an inner error.
- `NapiValue.IntoNapiValue`: when it fails with a host error, the contract names the error but not which call failed. The order of element writes is observed only through the final state.
- `NapiValue.EncodeArray`: after a failed element write, the contract names the failing item and the written prefix, but not which of that item's calls (its encode or `set_element`) failed.
- `NapiValue.DecodeRoundTrip` excludes `u64`. Its decoder truncates to 32 bits (`NapiValue.DecodedU64Truncated`), so a round trip holds only for values below 2^32.
- `FunctionAdapter.Enter`: uninitialised `argv` slots and the `mem::uninitialized` out-parameters are modelled as handle 0.
- `FunctionAdapter.Invoke`: dropping the box before or after the closure runs is not distinguished, because the closure's body is a pure function here.
- `FunctionAdapter.CreateFunction`: the `CString` handed over with `into_raw` is never reclaimed, and that leak is not modelled.
- Printing and logging.

## Findings

| source | as written | input that shows it | evidently intended | confidence | as-written member | corrected member |
|---|---|---|---|---|---|---|
| src/napi.rs:203 | the adapter takes the closure box back with `Box::from_raw`, so it is dropped when the first call returns | any function made by `create_function` and called twice: the second call reads the freed box | borrow the box so that every call finds the closure | high, not executed | FunctionAdapter.Invoke (with FunctionAdapter.CallAfterFreeIsUndefined) | FunctionAdapter.InvokeBorrowing |
| src/napi.rs:211-214 | the closure is boxed and leaked with `Box::into_raw` before `CString::new(utf8name)?`, and the box is not reclaimed when the host refuses the function | `create_function(env, "a\0b", f)`: the call returns the NUL error and the box is live with no owner | check the name first, and reclaim the box when the host refuses | high, not executed | FunctionAdapter.CreateFunction | FunctionAdapter.CreateFunctionChecked |
