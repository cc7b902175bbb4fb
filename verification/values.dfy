/** The closed set of Go value shapes the core inspects at run time: the
    values bound to named parameters and the values scanned into a row. */
module Values {

  newtype byte = x: int | 0 <= x < 256

  /** Go's integer types as far as the core distinguishes them. `GoInt` is
      the platform `int` (64 bits); `U8` is the element type of `[]byte`. */
  datatype IntKind = I8 | I16 | I32 | I64 | GoInt | U8

  datatype FloatKind = F32 | F64

  /** A dynamically typed Go value (`any`). Floats keep only their width
      and an uninterpreted IEEE-754 bit pattern. `ByteSlice` is `[]byte`;
      `Slice` is any other slice (`[]any`, `[]int64`, ...). */
  datatype Value =
    | Nil
    | Integer(kind: IntKind, n: int)
    | Floating(fkind: FloatKind, bits: nat)
    | Boolean(b: bool)
    | Str(s: string)
    | ByteSlice(bytes: seq<byte>)
    | Slice(elems: seq<Value>)

  /** The kinds admitted by the IntegerType constraint (~int8 | ~int16 | ~int32 | ~int64). */
  predicate IsSized(k: IntKind) {
    k == I8 || k == I16 || k == I32 || k == I64
  }

  /** 2^bits for a signed sized kind. */
  function Modulus(k: IntKind): (m: int)
    requires IsSized(k)
    ensures m > 1 && m % 2 == 0
  {
    match k
    case I8 => 0x100
    case I16 => 0x1_0000
    case I32 => 0x1_0000_0000
    case I64 => 0x1_0000_0000_0000_0000
  }

  predicate InRange(k: IntKind, n: int)
    requires IsSized(k)
  {
    -(Modulus(k) / 2) <= n < Modulus(k) / 2
  }

  /** Go's conversion `T(x)` of an integer to the signed type of kind `k`:
      two's-complement truncation when narrowing, exact when widening. */
  function Wrap(k: IntKind, n: int): (r: int)
    requires IsSized(k)
    ensures InRange(k, r)
    ensures (r - n) % Modulus(k) == 0
    ensures InRange(k, n) ==> r == n
  {
    var m := Modulus(k);
    var t := n % m;
    if t >= m / 2 then t - m else t
  }

  /** Every value of a narrower sized kind survives conversion to a wider one. */
  lemma WideningIsExact(from: IntKind, to: IntKind, n: int)
    requires IsSized(from) && IsSized(to)
    requires Modulus(from) <= Modulus(to)
    requires InRange(from, n)
    ensures Wrap(to, n) == n
  {
  }

  /** reflect's `Kind() == reflect.Slice`. */
  predicate IsSlice(v: Value) {
    v.Slice? || v.ByteSlice?
  }

  /** The number of positional slots a parameter value takes: the slice
      length for slices, one for everything else (nil included). */
  function SlotCount(v: Value): nat {
    match v
    case Slice(elems) => |elems|
    case ByteSlice(bytes) => |bytes|
    case _ => 1
  }

  /** The positional arguments one parameter value becomes: the elements of
      a slice in order (a `[]byte` yields its bytes as `uint8` values), or
      the value itself. */
  function Expand(v: Value): (r: seq<Value>)
    ensures |r| == SlotCount(v)
    ensures !IsSlice(v) ==> r == [v]
    ensures v.Slice? ==> r == v.elems
    ensures v.ByteSlice? ==> forall i :: 0 <= i < |r| ==> r[i] == Integer(U8, v.bytes[i] as int)
  {
    match v
    case Slice(elems) => elems
    case ByteSlice(bytes) => seq(|bytes|, i requires 0 <= i < |bytes| => Integer(U8, bytes[i] as int))
    case _ => [v]
  }
}
