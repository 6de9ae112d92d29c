/** The native (Rust-side) values the marshaling engine converts, and the
    static types that direct the conversion. */
module NativeTypes {
  import opened Text

  datatype IntWidth = W8 | W16 | W32 | W64

  /** 2 to the power of the width in bits. */
  function WidthLimit(w: IntWidth): (n: nat)
    ensures n >= 0x100
  {
    match w
    case W8 => 0x100
    case W16 => 0x1_0000
    case W32 => 0x1_0000_0000
    case W64 => 0x1_0000_0000_0000_0000
  }

  /** A native type: `()`, `bool`, `String`/`&str`, `u8`..`u64`, `i8`..`i64`,
      `f32`, `f64`, and `Vec<T>`/`&[T]`. */
  datatype NativeType =
    | TUnit
    | TBool
    | TString
    | TUnsigned(uw: IntWidth)
    | TSigned(sw: IntWidth)
    | TF32
    | TF64
    | TVec(elem: NativeType)

  /** A native value. Floating-point values are kept integral (see README). */
  datatype Native =
    | NUnit
    | NBool(b: bool)
    | NString(bytes: Bytes)
    | NUnsigned(uw: IntWidth, u: nat)
    | NSigned(sw: IntWidth, i: int)
    | NFloat(x: int)
    | NVec(items: seq<Native>)

  /** `v` is a value of type `t`: integers within their width, strings
      well-formed UTF-8 (Rust's `String` invariant), vectors element-wise. */
  predicate HasType(v: Native, t: NativeType)
    decreases v
  {
    match t
    case TUnit => v.NUnit?
    case TBool => v.NBool?
    case TString => v.NString? && ValidUtf8(v.bytes)
    case TUnsigned(w) => v.NUnsigned? && v.uw == w && v.u < WidthLimit(w)
    case TSigned(w) => v.NSigned? && v.sw == w && -(WidthLimit(w) / 2) <= v.i < WidthLimit(w) / 2
    case TF32 => v.NFloat?
    case TF64 => v.NFloat?
    case TVec(e) => v.NVec? && forall i :: 0 <= i < |v.items| ==> HasType(v.items[i], e)
  }

  /** No type contains `u64`: the types whose values survive a round trip
      through the host unchanged. */
  predicate FreeOfU64(t: NativeType) {
    match t
    case TUnsigned(w) => w != W64
    case TVec(e) => FreeOfU64(e)
    case _ => true
  }
}
