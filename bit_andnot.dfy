/**
  The `i_bit_andnot` overload family: a & ~b for every vector type.

  Every overload takes the target's features `c` (the `SIMDPP_USE_*` macros)
  and follows the `#if` chain of its source. Data vectors are registers of
  bytes; the lane count N of a source type such as uint32<N> is |a| / 4.
  Masks are one truth value per lane. Where the target keeps a mask in a data
  register, the conversions `uint8<16>(mask)` and `mask_int8<16>(data)` are
  `MaskToData` and `DataToMask`.

  Every native overload is proved equal to the byte-wise reference
  `ByteAndNot`, and to the lane-wise reference on its own lane width, on every
  code path the target can take.
*/
module BitAndNot {
  import opened Registers
  import opened Isa

  // ---------------------------------------------------------------------------
  // Shared proof steps

  /** Converting masks to their patterns, applying the data AND-NOT and
      reading the register back as a mask gives a[i] && !b[i]; the register
      is itself a well-formed mask pattern. */
  lemma MaskAndNotViaPattern(a: seq<bool>, b: seq<bool>, w: nat)
    requires LaneWidth(w) && |a| == |b|
    ensures IsPattern(ByteAndNot(MaskToData(a, w), MaskToData(b, w)), w)
    ensures DataToMask(ByteAndNot(MaskToData(a, w), MaskToData(b, w)), w) == MaskAndNot(a, b)
  {
    PatternAndNot(a, b, w);
    PatternAndNotIsPattern(a, b, w);
    MaskRoundTrip(MaskAndNot(a, b), w);
  }

  /** The first operand of `_mm_andnot_si128` is the complemented one: called
      in the natural order it would compute b & ~a. */
  lemma OperandOrderMatters()
    ensures exists a: Bytes, b: Bytes :: |a| == |b| == 16 && X86AndNotSi(a, b) != ByteAndNot(a, b)
  {
    var z: Bytes := seq(16, _ => 0x00);
    var o: Bytes := seq(16, _ => 0xFF);
    assert X86AndNotSi(z, o)[0] == 0xFF;
    assert ByteAndNot(z, o)[0] == 0x00;
  }

  // ---------------------------------------------------------------------------
  // uint8

  /** uint8<16> and uint8<32>. */
  function U8AndNot(c: Caps, a: Bytes, b: Bytes): (r: Bytes)
    requires ValidCaps(c) && |a| == |b| && NativeBytes(c, U8, |a|)
    ensures r == ByteAndNot(a, b)
  {
    if |a| == 32 then X86AndNotSi(b, a)
    else match IntBackend(c)
      case NullBackend => NullAndNot(a, b, 1)
      case Sse2Backend => X86AndNotSi(b, a)
      case NeonBackend => NeonBic(a, b, 1)
      case AltivecBackend => AltivecAndc(a, b, 1)
  }

  /** uint8<16> and uint8<32> with a mask_int8 operand. */
  function U8AndNotMask(c: Caps, a: Bytes, m: seq<bool>): (r: Bytes)
    requires ValidCaps(c) && |a| == |m| && NativeBytes(c, U8, |a|)
    ensures r == ByteAndNot(a, MaskToData(m, 1))
    ensures |Lanes(a, 1)| == |m|
    ensures Lanes(r, 1) == ClearMasked(Lanes(a, 1), m)
  {
    LanesOfAndNotPattern(a, m, 1);
    if |a| == 32 then U8AndNot(c, a, MaskToData(m, 1))
    else if Null in c then NullAndNotVm(a, m, 1)
    else U8AndNot(c, a, MaskToData(m, 1))
  }

  /** mask_int8<16> and mask_int8<32>. The scalar path is
      `null::bit_andnot_mm`, which is `MaskAndNot` itself. */
  function Mask8AndNot(c: Caps, a: seq<bool>, b: seq<bool>): (r: seq<bool>)
    requires ValidCaps(c) && |a| == |b| && NativeBytes(c, U8, |a|)
    ensures r == MaskAndNot(a, b)
  {
    MaskAndNotViaPattern(a, b, 1);
    if |a| == 32 then DataToMask(U8AndNot(c, MaskToData(a, 1), MaskToData(b, 1)), 1)
    else if Null in c then MaskAndNot(a, b)
    else DataToMask(U8AndNot(c, MaskToData(a, 1), MaskToData(b, 1)), 1)
  }

  // ---------------------------------------------------------------------------
  // uint16

  /** uint16<8> (through uint8<16>) and uint16<16>. */
  function U16AndNot(c: Caps, a: Bytes, b: Bytes): (r: Bytes)
    requires ValidCaps(c) && |a| == |b| && NativeBytes(c, U16, |a|)
    ensures r == ByteAndNot(a, b)
    ensures Lanes(r, 2) == LaneAndNot(Lanes(a, 2), Lanes(b, 2))
  {
    LanesOfByteAndNot(a, b, 2);
    if |a| == 32 then X86AndNotSi(b, a)
    else U8AndNot(c, a, b)
  }

  /** uint16<8> and uint16<16> with a mask_int16 operand. */
  function U16AndNotMask(c: Caps, a: Bytes, m: seq<bool>): (r: Bytes)
    requires ValidCaps(c) && |a| == 2 * |m| && NativeBytes(c, U16, |a|)
    ensures r == ByteAndNot(a, MaskToData(m, 2))
    ensures |Lanes(a, 2)| == |m|
    ensures Lanes(r, 2) == ClearMasked(Lanes(a, 2), m)
  {
    LanesOfAndNotPattern(a, m, 2);
    if |a| == 32 then U16AndNot(c, a, MaskToData(m, 2))
    else if Null in c then NullAndNotVm(a, m, 2)
    else U16AndNot(c, a, MaskToData(m, 2))
  }

  /** mask_int16<8> (through uint8<16>) and mask_int16<16>. */
  function Mask16AndNot(c: Caps, a: seq<bool>, b: seq<bool>): (r: seq<bool>)
    requires ValidCaps(c) && |a| == |b| && NativeBytes(c, U16, 2 * |a|)
    ensures r == MaskAndNot(a, b)
  {
    MaskAndNotViaPattern(a, b, 2);
    if |a| == 16 then DataToMask(U16AndNot(c, MaskToData(a, 2), MaskToData(b, 2)), 2)
    else if Null in c then MaskAndNot(a, b)
    else DataToMask(U8AndNot(c, MaskToData(a, 2), MaskToData(b, 2)), 2)
  }

  // ---------------------------------------------------------------------------
  // uint32

  /** uint32<4> (through uint8<16>), uint32<8> and uint32<16>. */
  function U32AndNot(c: Caps, a: Bytes, b: Bytes): (r: Bytes)
    requires ValidCaps(c) && |a| == |b| && NativeBytes(c, U32, |a|)
    ensures r == ByteAndNot(a, b)
    ensures Lanes(r, 4) == LaneAndNot(Lanes(a, 4), Lanes(b, 4))
  {
    LanesOfByteAndNot(a, b, 4);
    if |a| == 64 then X86AndNotLanes(b, a, 4)
    else if |a| == 32 then X86AndNotSi(b, a)
    else U8AndNot(c, a, b)
  }

  /** uint32<4>, uint32<8> and uint32<16> with a mask_int32 operand. */
  function U32AndNotMask(c: Caps, a: Bytes, m: seq<bool>): (r: Bytes)
    requires ValidCaps(c) && |a| == 4 * |m| && NativeBytes(c, U32, |a|)
    ensures r == ByteAndNot(a, MaskToData(m, 4))
    ensures |Lanes(a, 4)| == |m|
    ensures Lanes(r, 4) == ClearMasked(Lanes(a, 4), m)
  {
    LanesOfAndNotPattern(a, m, 4);
    if |a| == 64 then MaskzMovKnot(a, m, 4); MaskzMov(Knot(m), a, 4)
    else if |a| == 32 then U32AndNot(c, a, MaskToData(m, 4))
    else if Null in c then NullAndNotVm(a, m, 4)
    else U32AndNot(c, a, MaskToData(m, 4))
  }

  /** mask_int32<4> (through uint8<16>), mask_int32<8> and mask_int32<16>. */
  function Mask32AndNot(c: Caps, a: seq<bool>, b: seq<bool>): (r: seq<bool>)
    requires ValidCaps(c) && |a| == |b| && NativeBytes(c, U32, 4 * |a|)
    ensures r == MaskAndNot(a, b)
  {
    MaskAndNotViaPattern(a, b, 4);
    if |a| == 16 then Kandn(b, a)
    else if |a| == 8 then DataToMask(U32AndNot(c, MaskToData(a, 4), MaskToData(b, 4)), 4)
    else if Null in c then MaskAndNot(a, b)
    else DataToMask(U8AndNot(c, MaskToData(a, 4), MaskToData(b, 4)), 4)
  }

  // ---------------------------------------------------------------------------
  // uint64

  /** uint64<2> (through uint8<16>), uint64<4> and uint64<8>. */
  function U64AndNot(c: Caps, a: Bytes, b: Bytes): (r: Bytes)
    requires ValidCaps(c) && |a| == |b| && NativeBytes(c, U64, |a|)
    ensures r == ByteAndNot(a, b)
    ensures Lanes(r, 8) == LaneAndNot(Lanes(a, 8), Lanes(b, 8))
  {
    LanesOfByteAndNot(a, b, 8);
    if |a| == 64 then X86AndNotLanes(b, a, 8)
    else if |a| == 32 then X86AndNotSi(b, a)
    else U8AndNot(c, a, b)
  }

  /** uint64<2>, uint64<4> and uint64<8> with a mask_int64 operand. */
  function U64AndNotMask(c: Caps, a: Bytes, m: seq<bool>): (r: Bytes)
    requires ValidCaps(c) && |a| == 8 * |m| && NativeBytes(c, U64, |a|)
    ensures r == ByteAndNot(a, MaskToData(m, 8))
    ensures |Lanes(a, 8)| == |m|
    ensures Lanes(r, 8) == ClearMasked(Lanes(a, 8), m)
  {
    LanesOfAndNotPattern(a, m, 8);
    if |a| == 64 then MaskzMovKnot(a, m, 8); MaskzMov(Knot(m), a, 8)
    else if |a| == 32 then U64AndNot(c, a, MaskToData(m, 8))
    else if Null in c then NullAndNotVm(a, m, 8)
    else U64AndNot(c, a, MaskToData(m, 8))
  }

  /** mask_int64<2> (through uint8<16>), mask_int64<4> and mask_int64<8>. */
  function Mask64AndNot(c: Caps, a: seq<bool>, b: seq<bool>): (r: seq<bool>)
    requires ValidCaps(c) && |a| == |b| && NativeBytes(c, U64, 8 * |a|)
    ensures r == MaskAndNot(a, b)
  {
    MaskAndNotViaPattern(a, b, 8);
    if |a| == 8 then Kandn(b, a)
    else if |a| == 4 then DataToMask(U64AndNot(c, MaskToData(a, 8), MaskToData(b, 8)), 8)
    else if Null in c then MaskAndNot(a, b)
    else DataToMask(U8AndNot(c, MaskToData(a, 8), MaskToData(b, 8)), 8)
  }

  // ---------------------------------------------------------------------------
  // float32: only the bit patterns of the lanes take part

  /** float32<4>, float32<8> and float32<16> (through uint32<16>). */
  function F32AndNot(c: Caps, a: Bytes, b: Bytes): (r: Bytes)
    requires ValidCaps(c) && |a| == |b| && NativeBytes(c, F32, |a|)
    ensures r == ByteAndNot(a, b)
    ensures Lanes(r, 4) == LaneAndNot(Lanes(a, 4), Lanes(b, 4))
  {
    LanesOfByteAndNot(a, b, 4);
    if |a| == 64 then U32AndNot(c, a, b)
    else if |a| == 32 then X86AndNotLanes(b, a, 4)
    else match Float32Backend(c)
      case NullBackend => NullAndNot(a, b, 4)
      case Sse2Backend => X86AndNotLanes(b, a, 4)
      case NeonBackend => NeonBic(a, b, 4)
      case AltivecBackend => AltivecAndc(a, b, 4)
  }

  /** float32<4>, float32<8> and float32<16> with a mask_float32 operand. */
  function F32AndNotMask(c: Caps, a: Bytes, m: seq<bool>): (r: Bytes)
    requires ValidCaps(c) && |a| == 4 * |m| && NativeBytes(c, F32, |a|)
    ensures r == ByteAndNot(a, MaskToData(m, 4))
    ensures |Lanes(a, 4)| == |m|
    ensures Lanes(r, 4) == ClearMasked(Lanes(a, 4), m)
  {
    LanesOfAndNotPattern(a, m, 4);
    if |a| == 64 then MaskzMovKnot(a, m, 4); MaskzMov(Knot(m), a, 4)
    else if |a| == 32 then F32AndNot(c, a, MaskToData(m, 4))
    else if Null in c then NullAndNotVm(a, m, 4)
    else F32AndNot(c, a, MaskToData(m, 4))
  }

  /** mask_float32<4>, mask_float32<8> and mask_float32<16>; NEON without
      single-precision support takes the scalar path. */
  function MaskF32AndNot(c: Caps, a: seq<bool>, b: seq<bool>): (r: seq<bool>)
    requires ValidCaps(c) && |a| == |b| && NativeBytes(c, F32, 4 * |a|)
    ensures r == MaskAndNot(a, b)
  {
    MaskAndNotViaPattern(a, b, 4);
    if |a| == 16 then Kandn(b, a)
    else if |a| == 8 then DataToMask(F32AndNot(c, MaskToData(a, 4), MaskToData(b, 4)), 4)
    else if Null in c || NeonNoFltSp in c then MaskAndNot(a, b)
    else DataToMask(F32AndNot(c, MaskToData(a, 4), MaskToData(b, 4)), 4)
  }

  // ---------------------------------------------------------------------------
  // float64

  /** float64<2>, float64<4> and float64<8> (through uint64<8>); 32-bit NEON
      and Altivec take the scalar path. */
  function F64AndNot(c: Caps, a: Bytes, b: Bytes): (r: Bytes)
    requires ValidCaps(c) && |a| == |b| && NativeBytes(c, F64, |a|)
    ensures r == ByteAndNot(a, b)
    ensures Lanes(r, 8) == LaneAndNot(Lanes(a, 8), Lanes(b, 8))
  {
    LanesOfByteAndNot(a, b, 8);
    if |a| == 64 then U64AndNot(c, a, b)
    else if |a| == 32 then X86AndNotLanes(b, a, 8)
    else
      var path := Float64Backend(c);
      if path == NullBackend then NullAndNot(a, b, 8)
      else if path == Sse2Backend then X86AndNotLanes(b, a, 8)
      else NeonBic(a, b, 8)
  }

  /** float64<2>, float64<4> and float64<8> with a mask_float64 operand. */
  function F64AndNotMask(c: Caps, a: Bytes, m: seq<bool>): (r: Bytes)
    requires ValidCaps(c) && |a| == 8 * |m| && NativeBytes(c, F64, |a|)
    ensures r == ByteAndNot(a, MaskToData(m, 8))
    ensures |Lanes(a, 8)| == |m|
    ensures Lanes(r, 8) == ClearMasked(Lanes(a, 8), m)
  {
    LanesOfAndNotPattern(a, m, 8);
    if |a| == 64 then MaskzMovKnot(a, m, 8); MaskzMov(Knot(m), a, 8)
    else if |a| == 32 then F64AndNot(c, a, MaskToData(m, 8))
    else if Null in c then NullAndNotVm(a, m, 8)
    else F64AndNot(c, a, MaskToData(m, 8))
  }

  /** mask_float64<2>, mask_float64<4> and mask_float64<8>. */
  function MaskF64AndNot(c: Caps, a: seq<bool>, b: seq<bool>): (r: seq<bool>)
    requires ValidCaps(c) && |a| == |b| && NativeBytes(c, F64, 8 * |a|)
    ensures r == MaskAndNot(a, b)
  {
    MaskAndNotViaPattern(a, b, 8);
    if |a| == 8 then Kandn(b, a)
    else if |a| == 4 then DataToMask(F64AndNot(c, MaskToData(a, 8), MaskToData(b, 8)), 8)
    else if Null in c || Neon32 in c || Altivec in c then MaskAndNot(a, b)
    else DataToMask(F64AndNot(c, MaskToData(a, 8), MaskToData(b, 8)), 8)
  }

  // ---------------------------------------------------------------------------
  // Overload resolution on the element kind

  /** The native data/data overload for kind k. */
  function NativeAndNot(c: Caps, k: Kind, a: Bytes, b: Bytes): (r: Bytes)
    requires ValidCaps(c) && |a| == |b| && NativeBytes(c, k, |a|)
    ensures r == ByteAndNot(a, b)
    ensures Lanes(r, Width(k)) == LaneAndNot(Lanes(a, Width(k)), Lanes(b, Width(k)))
  {
    LanesOfByteAndNot(a, b, Width(k));
    match k
    case U8 => U8AndNot(c, a, b)
    case U16 => U16AndNot(c, a, b)
    case U32 => U32AndNot(c, a, b)
    case U64 => U64AndNot(c, a, b)
    case F32 => F32AndNot(c, a, b)
    case F64 => F64AndNot(c, a, b)
  }

  /** The native data/mask overload for kind k. */
  function NativeAndNotMask(c: Caps, k: Kind, a: Bytes, m: seq<bool>): (r: Bytes)
    requires ValidCaps(c) && |a| == Width(k) * |m| && NativeBytes(c, k, |a|)
    ensures r == ByteAndNot(a, MaskToData(m, Width(k)))
    ensures |Lanes(a, Width(k))| == |m|
    ensures Lanes(r, Width(k)) == ClearMasked(Lanes(a, Width(k)), m)
  {
    LanesOfAndNotPattern(a, m, Width(k));
    match k
    case U8 => U8AndNotMask(c, a, m)
    case U16 => U16AndNotMask(c, a, m)
    case U32 => U32AndNotMask(c, a, m)
    case U64 => U64AndNotMask(c, a, m)
    case F32 => F32AndNotMask(c, a, m)
    case F64 => F64AndNotMask(c, a, m)
  }

  /** The native mask/mask overload for kind k. */
  function NativeMaskAndNot(c: Caps, k: Kind, a: seq<bool>, b: seq<bool>): (r: seq<bool>)
    requires ValidCaps(c) && |a| == |b| && NativeBytes(c, k, Width(k) * |a|)
    ensures r == MaskAndNot(a, b)
  {
    match k
    case U8 => Mask8AndNot(c, a, b)
    case U16 => Mask16AndNot(c, a, b)
    case U32 => Mask32AndNot(c, a, b)
    case U64 => Mask64AndNot(c, a, b)
    case F32 => MaskF32AndNot(c, a, b)
    case F64 => MaskF64AndNot(c, a, b)
  }

  // ---------------------------------------------------------------------------
  // Vectors longer than the native width

  /** `SIMDPP_VEC_ARRAY_IMPL2`: a vector longer than the widest native
      register is an array of native segments; the operation is applied to
      the segments pairwise, in order, and the results form the result's
      segments. */
  function VecArrayImpl2<A, B>(sa: seq<A>, sb: seq<B>, op: (A, B) --> A): (r: seq<A>)
    requires |sa| == |sb|
    requires forall i :: 0 <= i < |sa| ==> op.requires(sa[i], sb[i])
    ensures |r| == |sa|
    ensures forall i :: 0 <= i < |r| ==> r[i] == op(sa[i], sb[i])
  {
    if sa == [] then [] else [op(sa[0], sb[0])] + VecArrayImpl2(sa[1..], sb[1..], op)
  }

  /** The `template<unsigned N>` data/data overloads. */
  function AndNotVec(c: Caps, k: Kind, sa: seq<Bytes>, sb: seq<Bytes>): (r: seq<Bytes>)
    requires ValidCaps(c) && |sa| == |sb|
    requires forall i :: 0 <= i < |sa| ==> |sa[i]| == BaseBytes(c, k) && |sb[i]| == BaseBytes(c, k)
    ensures |r| == |sa|
    ensures forall i :: 0 <= i < |r| ==> NativeBytes(c, k, |sa[i]|) && r[i] == NativeAndNot(c, k, sa[i], sb[i])
    ensures |Concat(sa)| == |Concat(sb)|
    ensures Concat(r) == ByteAndNot(Concat(sa), Concat(sb))
    ensures Lanes(Concat(r), Width(k)) == LaneAndNot(Lanes(Concat(sa), Width(k)), Lanes(Concat(sb), Width(k)))
  {
    assert NativeBytes(c, k, BaseBytes(c, k));
    var r := VecArrayImpl2(sa, sb,
      (x: Bytes, y: Bytes) requires ValidCaps(c) && |x| == |y| && NativeBytes(c, k, |x|) => NativeAndNot(c, k, x, y));
    ConcatByteAndNot(r, sa, sb);
    LanesOfByteAndNot(Concat(sa), Concat(sb), Width(k));
    r
  }

  /** The `template<unsigned N>` data/mask overloads. */
  function AndNotMaskVec(c: Caps, k: Kind, sa: seq<Bytes>, sm: seq<seq<bool>>): (r: seq<Bytes>)
    requires ValidCaps(c) && |sa| == |sm|
    requires forall i :: 0 <= i < |sa| ==> |sa[i]| == BaseBytes(c, k) && |sa[i]| == Width(k) * |sm[i]|
    ensures |r| == |sa|
    ensures forall i :: 0 <= i < |r| ==> NativeBytes(c, k, |sa[i]|) && r[i] == NativeAndNotMask(c, k, sa[i], sm[i])
    ensures |Concat(sa)| == Width(k) * |Concat(sm)|
    ensures Concat(r) == ByteAndNot(Concat(sa), MaskToData(Concat(sm), Width(k)))
    ensures |Lanes(Concat(sa), Width(k))| == |Concat(sm)|
    ensures Lanes(Concat(r), Width(k)) == ClearMasked(Lanes(Concat(sa), Width(k)), Concat(sm))
  {
    assert NativeBytes(c, k, BaseBytes(c, k));
    var w := Width(k);
    var r := VecArrayImpl2(sa, sm,
      (x: Bytes, m: seq<bool>) requires ValidCaps(c) && |x| == w * |m| && NativeBytes(c, k, |x|) => NativeAndNotMask(c, k, x, m));
    var sp := seq(|sm|, i requires 0 <= i < |sm| => MaskToData(sm[i], w));
    ConcatByteAndNot(r, sa, sp);
    ConcatMaskToData(sm, sp, w);
    LanesOfAndNotPattern(Concat(sa), Concat(sm), w);
    r
  }

  /** The `template<unsigned N>` mask/mask overloads. */
  function MaskAndNotVec(c: Caps, k: Kind, sa: seq<seq<bool>>, sb: seq<seq<bool>>): (r: seq<seq<bool>>)
    requires ValidCaps(c) && |sa| == |sb|
    requires forall i :: 0 <= i < |sa| ==> Width(k) * |sa[i]| == BaseBytes(c, k) && |sb[i]| == |sa[i]|
    ensures |r| == |sa|
    ensures forall i :: 0 <= i < |r| ==> NativeBytes(c, k, Width(k) * |sa[i]|) && r[i] == NativeMaskAndNot(c, k, sa[i], sb[i])
    ensures |Concat(sa)| == |Concat(sb)|
    ensures Concat(r) == MaskAndNot(Concat(sa), Concat(sb))
  {
    assert NativeBytes(c, k, BaseBytes(c, k));
    var r := VecArrayImpl2(sa, sb,
      (x: seq<bool>, y: seq<bool>) requires ValidCaps(c) && |x| == |y| && NativeBytes(c, k, Width(k) * |x|) => NativeMaskAndNot(c, k, x, y));
    ConcatMaskAndNot(r, sa, sb);
    r
  }
}
