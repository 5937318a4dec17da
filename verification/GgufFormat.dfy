/** The GGUF metadata format: values, their encoding, and the text the header reader shows
    for each of them. The layout is that of the "File Structure" section of the GGUF
    specification (ggml's docs/gguf.md).
 */
module GgufFormat {

  type Byte = b: int | 0 <= b < 256

  /** Go strings are byte strings. */
  type Text = seq<Byte>

  // ----- Little-endian integers -----

  function Pow256(width: nat): (p: nat)
    ensures p >= 1
  {
    if width == 0 then 1 else 256 * Pow256(width - 1)
  }

  function Le(n: nat, width: nat): (bs: seq<Byte>)
    ensures |bs| == width
  {
    if width == 0 then [] else [n % 256] + Le(n / 256, width - 1)
  }

  function FromLe(bs: seq<Byte>): nat {
    if bs == [] then 0 else bs[0] + 256 * FromLe(bs[1..])
  }

  lemma {:induction false} FromLeOfLe(n: nat, width: nat)
    requires n < Pow256(width)
    ensures FromLe(Le(n, width)) == n
  {
    if width > 0 {
      FromLeOfLe(n / 256, width - 1);
      assert Le(n, width)[1..] == Le(n / 256, width - 1);
    }
  }

  lemma {:induction false} LeOfFromLe(bs: seq<Byte>)
    ensures FromLe(bs) < Pow256(|bs|) && Le(FromLe(bs), |bs|) == bs
  {
    if bs != [] {
      LeOfFromLe(bs[1..]);
      assert FromLe(bs) % 256 == bs[0] && FromLe(bs) / 256 == FromLe(bs[1..]);
    }
  }

  /** Two's complement. */
  function Unsigned(i: int, width: nat): int {
    if i < 0 then i + Pow256(width) else i
  }

  function Signed(n: nat, width: nat): int {
    if 2 * n < Pow256(width) then n else n - Pow256(width)
  }

  predicate FitsUnsigned(n: int, width: nat) {
    0 <= n < Pow256(width)
  }

  predicate FitsSigned(i: int, width: nat) {
    0 - Pow256(width) <= 2 * i < Pow256(width)
  }

  // ----- Decimal text -----

  function Digits(n: nat): (t: Text)
    ensures t != [] && forall i :: 0 <= i < |t| ==> 48 <= t[i] <= 57
  {
    if n < 10 then [48 + n] else Digits(n / 10) + [48 + n % 10]
  }

  function Decimal(i: int): (t: Text)
    ensures t != []
  {
    if i < 0 then [45] + Digits(-i) else Digits(i)
  }

  function ReadDigits(t: Text): int {
    if t == [] then 0 else 10 * ReadDigits(t[..|t| - 1]) + t[|t| - 1] - 48
  }

  function ReadDecimal(t: Text): int {
    if t != [] && t[0] == 45 then -ReadDigits(t[1..]) else ReadDigits(t)
  }

  lemma {:induction false} DigitsReadBack(n: nat)
    ensures ReadDigits(Digits(n)) == n
  {
    if n >= 10 {
      DigitsReadBack(n / 10);
      assert Digits(n)[..|Digits(n)| - 1] == Digits(n / 10);
    } else {
      assert ReadDigits(Digits(n)[..0]) == 0;
    }
  }

  /** Decimal text determines the integer. */
  lemma DecimalReadsBack(i: int)
    ensures ReadDecimal(Decimal(i)) == i
  {
    if i < 0 {
      DigitsReadBack(-i);
      assert Decimal(i)[1..] == Digits(-i);
    } else {
      DigitsReadBack(i);
    }
  }

  // ----- Values -----

  const UINT8 := 0
  const INT8 := 1
  const UINT16 := 2
  const INT16 := 3
  const UINT32 := 4
  const INT32 := 5
  const FLOAT32 := 6
  const BOOL := 7
  const STRING := 8
  const ARRAY := 9
  const UINT64 := 10
  const INT64 := 11
  const FLOAT64 := 12

  const MAX_STRING := 1_048_576

  datatype Value =
    | U8(u8: int)
    | I8(i8: int)
    | U16(u16: int)
    | I16(i16: int)
    | U32(u32: int)
    | I32(i32: int)
    | F32(bits32: int)
    | Bool(flag: int)
    | Str(bytes: Text)
    | Arr(elemType: int, elems: seq<Value>)
    | U64(u64: int)
    | I64(i64: int)
    | F64(bits64: int)

  /** How floats are printed is left open: a function of the bit pattern for each width. */
  datatype Floats = Floats(show32: int -> Text, show64: int -> Text)

  function Tag(v: Value): (t: nat)
    ensures t < 13
  {
    match v
    case U8(_) => UINT8
    case I8(_) => INT8
    case U16(_) => UINT16
    case I16(_) => INT16
    case U32(_) => UINT32
    case I32(_) => INT32
    case F32(_) => FLOAT32
    case Bool(_) => BOOL
    case Str(_) => STRING
    case Arr(_, _) => ARRAY
    case U64(_) => UINT64
    case I64(_) => INT64
    case F64(_) => FLOAT64
  }

  /** The number of bytes of a fixed-size type, zero for the others. */
  function Width(ty: int): (w: nat)
    ensures w <= 8
  {
    if ty == UINT8 || ty == INT8 || ty == BOOL then 1
    else if ty == UINT16 || ty == INT16 then 2
    else if ty == UINT32 || ty == INT32 || ty == FLOAT32 then 4
    else if ty == UINT64 || ty == INT64 || ty == FLOAT64 then 8
    else 0
  }

  /** The unsigned integer whose little-endian bytes encode a fixed-size value. */
  function Raw(v: Value): int {
    match v
    case U8(n) => n
    case I8(i) => Unsigned(i, 1)
    case U16(n) => n
    case I16(i) => Unsigned(i, 2)
    case U32(n) => n
    case I32(i) => Unsigned(i, 4)
    case F32(n) => n
    case Bool(n) => n
    case U64(n) => n
    case I64(i) => Unsigned(i, 8)
    case F64(n) => n
    case _ => 0
  }

  /** The fixed-size value of type `ty` encoded by the unsigned integer n. */
  function OfRaw(ty: int, n: nat): Value {
    if ty == UINT8 then U8(n)
    else if ty == INT8 then I8(Signed(n, 1))
    else if ty == UINT16 then U16(n)
    else if ty == INT16 then I16(Signed(n, 2))
    else if ty == UINT32 then U32(n)
    else if ty == INT32 then I32(Signed(n, 4))
    else if ty == FLOAT32 then F32(n)
    else if ty == BOOL then Bool(n)
    else if ty == UINT64 then U64(n)
    else if ty == INT64 then I64(Signed(n, 8))
    else F64(n)
  }

  predicate WellFormed(v: Value) {
    match v
    case U8(n) => FitsUnsigned(n, 1)
    case I8(i) => FitsSigned(i, 1)
    case U16(n) => FitsUnsigned(n, 2)
    case I16(i) => FitsSigned(i, 2)
    case U32(n) => FitsUnsigned(n, 4)
    case I32(i) => FitsSigned(i, 4)
    case F32(n) => FitsUnsigned(n, 4)
    case Bool(n) => FitsUnsigned(n, 1)
    case U64(n) => FitsUnsigned(n, 8)
    case I64(i) => FitsSigned(i, 8)
    case F64(n) => FitsUnsigned(n, 8)
    case Str(bytes) => |bytes| <= MAX_STRING
    case Arr(ty, elems) =>
      FitsUnsigned(ty, 4) && FitsUnsigned(|elems|, 8) && forall e :: e in elems ==> WellFormed(e) && Tag(e) == ty
  }

  /** The text the reader shows for a value. Both 8-bit types are printed before they are
      read, so they always show zero; arrays show nothing. */
  function Shown(f: Floats, v: Value): Text {
    match v
    case U8(_) => Decimal(0)
    case I8(_) => Decimal(0)
    case U16(n) => Decimal(n)
    case I16(i) => Decimal(i)
    case U32(n) => Decimal(n)
    case I32(i) => Decimal(i)
    case F32(n) => f.show32(n)
    case Bool(n) => if n != 0 then TRUE else FALSE
    case Str(bytes) => bytes
    case Arr(_, _) => []
    case U64(n) => Decimal(n)
    case I64(i) => Decimal(i)
    case F64(n) => f.show64(n)
  }

  const TRUE: Text := [116, 114, 117, 101]
  const FALSE: Text := [102, 97, 108, 115, 101]

  // ----- Encoding -----

  function EncodeStr(bytes: Text): seq<Byte> {
    Le(|bytes|, 8) + bytes
  }

  function Encode(v: Value): seq<Byte>
    requires WellFormed(v)
    decreases v, 0
  {
    match v
    case Str(bytes) => EncodeStr(bytes)
    case Arr(ty, elems) => Le(ty, 4) + Le(|elems|, 8) + EncodeAll(elems)
    case _ => RawFits(v); Le(Raw(v), Width(Tag(v)))
  }

  function EncodeAll(vs: seq<Value>): seq<Byte>
    requires forall v :: v in vs ==> WellFormed(v)
    decreases vs, 0
  {
    if vs == [] then [] else Encode(vs[0]) + EncodeAll(vs[1..])
  }

  datatype Pair = Pair(key: Text, value: Value)

  predicate PairOk(p: Pair) {
    |p.key| <= MAX_STRING && WellFormed(p.value)
  }

  function EncodePair(p: Pair): seq<Byte>
    requires PairOk(p)
  {
    EncodeStr(p.key) + (Le(Tag(p.value), 4) + Encode(p.value))
  }

  predicate PairsOk(ps: seq<Pair>) {
    forall i :: 0 <= i < |ps| ==> PairOk(ps[i])
  }

  function EncodePairs(ps: seq<Pair>): seq<Byte>
    requires PairsOk(ps)
  {
    if ps == [] then [] else EncodePair(ps[0]) + EncodePairs(ps[1..])
  }

  const MAGIC: Text := [71, 71, 85, 70]

  function EncodeHeader(version: nat, tensors: nat, pairs: nat): (bs: seq<Byte>)
    ensures |bs| == 24
  {
    MAGIC + Le(version, 4) + Le(tensors, 8) + Le(pairs, 8)
  }

  predicate IsScalar(v: Value) {
    !v.Str? && !v.Arr?
  }

  lemma RawFits(v: Value)
    requires WellFormed(v) && IsScalar(v)
    ensures FitsUnsigned(Raw(v), Width(Tag(v))) && OfRaw(Tag(v), Raw(v)) == v
  {
  }

  lemma OfRawFits(ty: int, n: nat)
    requires Width(ty) > 0 && FitsUnsigned(n, Width(ty))
    ensures
      var v := OfRaw(ty, n);
      WellFormed(v) && IsScalar(v) && Tag(v) == ty && Raw(v) == n
  {
  }

  /** The text of an 8-bit value is right only when the value is zero. */
  lemma EightBitTextIsLost(f: Floats, n: int)
    ensures Shown(f, U8(n)) == Decimal(n) <==> n == 0
    ensures Shown(f, I8(n)) == Decimal(n) <==> n == 0
  {
    DecimalReadsBack(n);
    DecimalReadsBack(0);
  }
}
