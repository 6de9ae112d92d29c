/** The hand-written encoder of the test extension's `returns_objects`
    (tests/src/lib.rs): a struct `{ foo: String, bar: u64 }` becomes a host
    object with the two properties, each field encoded by the earlier
    revision's `ToNapiValue` (`create_string_utf8` for the string,
    `create_number` for the integer). */
module ReturnsObjects {
  import opened Text
  import opened Errors
  import opened NativeTypes
  import opened Napi
  import opened NapiValue

  /** The property names, as the bytes of "foo" and "bar". */
  const Foo: Bytes := [0x66, 0x6F, 0x6F]
  const Bar: Bytes := [0x62, 0x61, 0x72]

  /** Handle `h` holds an object with exactly the properties "foo" and
      "bar", bound to fresh images of the two fields. */
  ghost predicate IsReturnsObject(heap: map<Handle, HostValue>, h: Handle, foo: Bytes, bar: nat, lo: nat) {
    && h in heap && heap[h].JsObject?
    && heap[h].props.Keys == {Foo, Bar}
    && Represents(heap, heap[h].props[Foo], NString(foo), lo)
    && Represents(heap, heap[h].props[Bar], NUnsigned(W64, bar), lo)
  }

  /** The two fields' images, in field order: the string through
      `create_string_utf8`, then the integer through `create_number`. */
  method FieldsToNapiValues(host: Host, foo: Bytes, bar: nat) returns (r: Result<(Handle, Handle)>)
    requires host.Valid()
    modifies host`heap, host`next
    ensures host.Valid()
    ensures Preserves(old(host.heap), host.heap) && old(host.next) <= host.next
    ensures r.Ok? ==> && r.value == (old(host.next), old(host.next) + 1)
                      && host.heap == old(host.heap)[r.value.0 := JsString(foo)][r.value.1 := JsNumber(bar)]
    ensures r.Err? ==> (HasNul(foo) && r.error == MakeGenericNapiError(NulErrorMessage)) || IsHostError(host, r.error)
    ensures Reliable(host.cfg) && !HasNul(foo) ==> r.Ok?
    ensures HasNul(foo) ==> r.Err?
  {
    var fooValue := host.CreateStringUtf8(foo);
    if fooValue.Err? {
      if !HasNul(foo) {
        assert host.cfg.refusal(CallCreateStringUtf8(foo + [0], NapiAutoLength)) != NapiOk;
      }
      return Err(fooValue.error);
    }
    var barValue := host.CreateNumber(bar);
    if barValue.Err? {
      assert host.cfg.refusal(CallCreateNumber(bar)) != NapiOk;
      return Err(barValue.error);
    }
    return Ok((fooValue.value, barValue.value));
  }

  /** The two `set_named_property` calls on an empty object: "foo", then
      "bar". On success the object holds exactly those two properties; on
      a failure it may already hold "foo". No other handle changes. */
  method SetFields(host: Host, obj: Handle, f: Handle, b: Handle) returns (r: Result<()>)
    requires host.Valid()
    requires obj in host.heap && host.heap[obj] == JsObject(map[]) && f in host.heap && b in host.heap
    modifies host`heap
    ensures host.Valid()
    ensures r.Ok? ==> host.heap == old(host.heap)[obj := JsObject(map[Foo := f, Bar := b])]
    ensures r.Err? ==> Preserves(old(host.heap) - {obj}, host.heap) && obj in host.heap && IsHostError(host, r.error)
    ensures Reliable(host.cfg) ==> r.Ok?
  {
    assert !HasNul(Foo) && !HasNul(Bar);
    var setFoo := host.SetNamedProperty(obj, Foo, f);
    if setFoo.Err? {
      assert host.cfg.refusal(CallSetNamedProperty(obj, Foo, f)) != NapiOk;
      return Err(setFoo.error);
    }
    var setBar := host.SetNamedProperty(obj, Bar, b);
    if setBar.Err? {
      assert host.cfg.refusal(CallSetNamedProperty(obj, Bar, b)) != NapiOk;
      return Err(setBar.error);
    }
    return Ok(());
  }

  /** `ReturnsObjectsReturn::to_napi_value`: create the object, encode both
      fields, then set "foo" and "bar"; the first failure is returned. On
      success the object is fresh and holds exactly the two fields' images,
      and no handle that existed before changed; the only failures are a
      NUL byte in the string and an error the host reported. */
  method ReturnsObjectsToNapiValue(host: Host, foo: Bytes, bar: nat) returns (r: Result<Handle>)
    requires host.Valid() && ValidUtf8(foo) && bar < WidthLimit(W64)
    modifies host`heap, host`next
    ensures host.Valid()
    ensures Preserves(old(host.heap), host.heap) && old(host.next) <= host.next
    ensures r.Ok? ==> old(host.next) <= r.value && IsReturnsObject(host.heap, r.value, foo, bar, old(host.next))
    ensures r.Err? ==> (HasNul(foo) && r.error == MakeGenericNapiError(NulErrorMessage)) || IsHostError(host, r.error)
    ensures Reliable(host.cfg) && !HasNul(foo) ==> r.Ok?
    ensures HasNul(foo) ==> r.Err?
  {
    ghost var heap0 := host.heap;
    var created := host.CreateObject();
    if created.Err? {
      assert host.cfg.refusal(CallCreateObject) != NapiOk;
      return Err(created.error);
    }
    var obj := created.value;
    ghost var heap1 := host.heap;
    var fields := FieldsToNapiValues(host, foo, bar);
    if fields.Err? {
      PreservesOutside(heap0, heap1, host.heap, host.heap, obj);
      return Err(fields.error);
    }
    var (f, b) := fields.value;
    ghost var heap2 := host.heap;
    var written := SetFields(host, obj, f, b);
    PreservesOutside(heap0, heap1, heap2, host.heap, obj);
    if written.Err? {
      return Err(written.error);
    }
    FieldsInPlace(heap2, host.heap, obj, f, b, foo, bar, old(host.next));
    return Ok(obj);
  }

  /** The bytes of "hello". */
  const Hello: Bytes := [0x68, 0x65, 0x6C, 0x6C, 0x6F]

  /** `returns_objects` and the encoding of its result: the struct
      `{ foo: "hello", bar: 42 }` becomes an object whose "foo" is the string
      "hello" and whose "bar" is the number 42; a host that refuses nothing
      always gives it. */
  method ReturnsObjectsResult(host: Host) returns (r: Result<Handle>)
    requires host.Valid()
    modifies host`heap, host`next
    ensures host.Valid()
    ensures r.Ok? ==> IsReturnsObject(host.heap, r.value, Hello, 42, old(host.next))
    ensures r.Err? ==> IsHostError(host, r.error)
    ensures Reliable(host.cfg) ==> r.Ok?
  {
    AsciiIsValidUtf8(Hello);
    assert !HasNul(Hello) by {
      assert forall i :: 0 <= i < |Hello| ==> Hello[i] != 0;
    }
    r := ReturnsObjectsToNapiValue(host, Hello, 42);
  }

  /** Setting the two properties to the fields' fresh images builds the
      object `returns_objects` promises. */
  lemma FieldsInPlace(heap2: map<Handle, HostValue>, heap3: map<Handle, HostValue>, obj: Handle, f: Handle, b: Handle,
                      foo: Bytes, bar: nat, lo: nat)
    requires f in heap2 && heap2[f] == JsString(foo) && b in heap2 && heap2[b] == JsNumber(bar)
    requires lo <= obj < f && obj < b
    requires heap3 == heap2[obj := JsObject(map[Foo := f, Bar := b])]
    ensures IsReturnsObject(heap3, obj, foo, bar, lo)
  {
  }

  /** Handles of `heap0` survive a step that may change only `obj`, which
      `heap0` does not have. */
  lemma PreservesOutside(heap0: map<Handle, HostValue>, heap1: map<Handle, HostValue>, heap2: map<Handle, HostValue>,
                         heap3: map<Handle, HostValue>, obj: Handle)
    requires obj !in heap0
    requires Preserves(heap0, heap1) && Preserves(heap1, heap2) && Preserves(heap2 - {obj}, heap3)
    ensures Preserves(heap0, heap3)
  {
  }
}
