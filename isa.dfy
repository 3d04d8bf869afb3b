/**
  Instruction sets and the intrinsics the AND-NOT overloads are built from.

  The library is compiled once per target; the `SIMDPP_USE_*` macros of a
  target become a set of `Feature`s here, passed to every operation that the
  macros select a code path for. Each intrinsic is given the meaning its
  vendor documents, stated on the register's bytes.
*/
module Isa {
  import opened Registers

  /** One `SIMDPP_USE_*` macro. */
  datatype Feature =
    | Null          // no SIMD unit: every vector is an array of scalars
    | Sse2
    | Avx
    | Avx2
    | Avx512
    | Neon
    | Neon32        // NEON on 32-bit ARM
    | Neon64        // NEON on AArch64
    | NeonNoFltSp   // NEON whose single-precision float ops are not used
    | Altivec

  type Caps = set<Feature>

  function Count(b: bool): nat { if b then 1 else 0 }

  /** The macro combinations a target can define: the x86 extensions each
      imply the previous one, NEON is either the 32-bit or the 64-bit flavour,
      and exactly one instruction-set family (or none, i.e. Null) is in use. */
  predicate ValidCaps(c: Caps)
  {
    && (Avx512 in c ==> Avx2 in c)
    && (Avx2 in c ==> Avx in c)
    && (Avx in c ==> Sse2 in c)
    && (Neon in c <==> Neon32 in c || Neon64 in c)
    && !(Neon32 in c && Neon64 in c)
    && (NeonNoFltSp in c ==> Neon32 in c)
    && Count(Null in c) + Count(Sse2 in c) + Count(Neon in c) + Count(Altivec in c) == 1
  }

  /** The code path an `#if` chain picks for a 128-bit overload. */
  datatype Backend = NullBackend | Sse2Backend | NeonBackend | AltivecBackend

  /** The chain `SIMDPP_USE_NULL`, `SSE2`, `NEON`, `ALTIVEC` of the integer
      overloads: each target takes the path of its own family. */
  function IntBackend(c: Caps): (b: Backend)
    requires ValidCaps(c)
    ensures b == NullBackend <==> Null in c
    ensures b == Sse2Backend <==> Sse2 in c
    ensures b == NeonBackend <==> Neon in c
    ensures b == AltivecBackend <==> Altivec in c
  {
    if Null in c then NullBackend
    else if Sse2 in c then Sse2Backend
    else if Neon in c then NeonBackend
    else AltivecBackend
  }

  /** The chain of the float32 overload: NEON without single-precision
      support takes the scalar path together with Null. */
  function Float32Backend(c: Caps): (b: Backend)
    requires ValidCaps(c)
    ensures b == NullBackend <==> Null in c || NeonNoFltSp in c
    ensures b == Sse2Backend <==> Sse2 in c
    ensures b == NeonBackend <==> Neon in c && NeonNoFltSp !in c
    ensures b == AltivecBackend <==> Altivec in c
  {
    if Null in c || NeonNoFltSp in c then NullBackend
    else if Sse2 in c then Sse2Backend
    else if Neon in c then NeonBackend
    else AltivecBackend
  }

  /** The chain of the float64 overload: 32-bit NEON and Altivec have no
      double-precision vectors and take the scalar path; only AArch64 NEON
      uses the NEON instruction. */
  function Float64Backend(c: Caps): (b: Backend)
    requires ValidCaps(c)
    ensures b == NullBackend <==> Null in c || Neon32 in c || Altivec in c
    ensures b == Sse2Backend <==> Sse2 in c
    ensures b == NeonBackend <==> Neon64 in c
    ensures b != AltivecBackend
  {
    if Null in c || Neon32 in c || Altivec in c then NullBackend
    else if Sse2 in c then Sse2Backend
    else NeonBackend
  }

  /** The element kinds of the data vectors. */
  datatype Kind = U8 | U16 | U32 | U64 | F32 | F64

  /** Bytes per lane of each kind. */
  function Width(k: Kind): (w: nat)
    ensures LaneWidth(w)
  {
    match k
    case U8 => 1
    case U16 => 2
    case U32 | F32 => 4
    case U64 | F64 => 8
  }

  predicate IsFloat(k: Kind) { k == F32 || k == F64 }

  /** The register sizes, in bytes, for which a kind has a native overload:
      128 bits always, 256 bits under AVX2 (integers) or AVX (floats), 512
      bits under AVX-512 for the 32- and 64-bit kinds. */
  predicate NativeBytes(c: Caps, k: Kind, n: nat)
  {
    || n == 16
    || (n == 32 && (if IsFloat(k) then Avx in c else Avx2 in c))
    || (n == 64 && Avx512 in c && Width(k) >= 4)
  }

  /** The widest native register of a kind: the size of each segment of a
      longer vector. */
  function BaseBytes(c: Caps, k: Kind): (n: nat)
    requires ValidCaps(c)
    ensures NativeBytes(c, k, n)
    ensures forall m: nat :: NativeBytes(c, k, m) ==> m <= n
  {
    if Avx512 in c && Width(k) >= 4 then 64
    else if (if IsFloat(k) then Avx in c else Avx2 in c) then 32
    else 16
  }

  // ---------------------------------------------------------------------------
  // Intrinsics by their documented meaning

  /** `_mm_andnot_si128(x, y)` and `_mm256_andnot_si256(x, y)`: ~x & y on
      every bit. The complemented operand is the FIRST one. */
  function X86AndNotSi(x: Bytes, y: Bytes): (r: Bytes)
    requires |x| == |y| && (|x| == 16 || |x| == 32)
    ensures r == ByteAndNot(y, x)
  {
    seq(|x|, i requires 0 <= i < |x| => !x[i] & y[i])
  }

  /** `_mm_andnot_ps/pd`, `_mm256_andnot_ps/pd`, `_mm512_andnot_epi32/epi64`
      (x, y): ~x & y on every w-byte lane. */
  function X86AndNotLanes(x: Bytes, y: Bytes, w: nat): (r: Bytes)
    requires LaneWidth(w) && |x| == |y| && |x| % w == 0
    ensures r == ByteAndNot(y, x)
  {
    var lx, ly := Lanes(x, w), Lanes(y, w);
    var lr := seq(|lx|, i requires 0 <= i < |lx| => !lx[i] & ly[i]);
    assert lr == LaneAndNot(ly, lx);
    LanewiseIsBytewise(y, x, w);
    FromLanes(lr, w)
  }

  /** `vbicq_u8/u32/u64(x, y)`: x & ~y on every w-byte lane (bit clear). */
  function NeonBic(x: Bytes, y: Bytes, w: nat): (r: Bytes)
    requires LaneWidth(w) && |x| == |y| && |x| % w == 0
    ensures r == ByteAndNot(x, y)
  {
    var lx, ly := Lanes(x, w), Lanes(y, w);
    LanewiseIsBytewise(x, y, w);
    FromLanes(seq(|lx|, i requires 0 <= i < |lx| => lx[i] & !ly[i]), w)
  }

  /** `vec_andc(x, y)` on a vector of w-byte elements: x & ~y on every
      element. */
  function AltivecAndc(x: Bytes, y: Bytes, w: nat): (r: Bytes)
    requires LaneWidth(w) && |x| == |y| && |x| % w == 0
    ensures r == ByteAndNot(x, y)
  {
    var lx, ly := Lanes(x, w), Lanes(y, w);
    LanewiseIsBytewise(x, y, w);
    FromLanes(seq(|lx|, i requires 0 <= i < |lx| => lx[i] & !ly[i]), w)
  }

  /** `detail::null::bit_andnot(a, b)`: a & ~b on each scalar element of
      w bytes. */
  function NullAndNot(a: Bytes, b: Bytes, w: nat): (r: Bytes)
    requires LaneWidth(w) && |a| == |b| && |a| % w == 0
    ensures r == ByteAndNot(a, b)
  {
    LanewiseIsBytewise(a, b, w);
    FromLanes(LaneAndNot(Lanes(a, w), Lanes(b, w)), w)
  }

  /** `detail::null::bit_andnot_vm(a, m)`: each element of a, or 0 where the
      mask element is set. */
  function NullAndNotVm(a: Bytes, m: seq<bool>, w: nat): (r: Bytes)
    requires LaneWidth(w) && |a| == w * |m|
    ensures r == ByteAndNot(a, MaskToData(m, w))
  {
    LanesOfAndNotPattern(a, m, w);
    FromLanesOfLanes(ByteAndNot(a, MaskToData(m, w)), w);
    FromLanes(ClearMasked(Lanes(a, w), m), w)
  }

  /** `_mm512_knot(k)`: every bit of a packed mask inverted. */
  function Knot(k: seq<bool>): (r: seq<bool>)
    ensures |r| == |k|
    ensures forall i :: 0 <= i < |k| ==> r[i] != k[i]
  {
    seq(|k|, i requires 0 <= i < |k| => !k[i])
  }

  /** `_mm512_kandn(x, y)`: ~x & y on packed masks. */
  function Kandn(x: seq<bool>, y: seq<bool>): (r: seq<bool>)
    requires |x| == |y|
    ensures r == MaskAndNot(y, x)
  {
    seq(|x|, i requires 0 <= i < |x| => !x[i] && y[i])
  }

  /** `_mm512_maskz_mov_epi32/epi64/ps/pd(k, a)`: lane i of a where bit i of
      k is set, zero elsewhere. */
  function MaskzMov(k: seq<bool>, a: Bytes, w: nat): (r: Bytes)
    requires LaneWidth(w) && |a| == w * |k|
    ensures |r| == |a|
    ensures |Lanes(a, w)| == |k|
    ensures Lanes(r, w) == ClearMasked(Lanes(a, w), Knot(k))
  {
    LaneCountMul(|k|, w);
    var la := Lanes(a, w);
    var lr := seq(|k|, i requires 0 <= i < |k| => if k[i] then la[i] else 0);
    assert lr == ClearMasked(la, Knot(k));
    MulAligned(|k|, w);
    LanesFit(a, w);
    LanesOfFromLanes(lr, w);
    FromLanes(lr, w)
  }

  /** The AVX-512 path `maskz_mov(knot(m), a)` computes what the expanded-mask
      path computes: a AND-NOT the mask's all-ones/all-zeros pattern, i.e.
      lane i of a where m[i] is false and zero where it is true. */
  lemma MaskzMovKnot(a: Bytes, m: seq<bool>, w: nat)
    requires LaneWidth(w) && |a| == w * |m|
    ensures MaskzMov(Knot(m), a, w) == ByteAndNot(a, MaskToData(m, w))
    ensures |Lanes(a, w)| == |m|
    ensures Lanes(MaskzMov(Knot(m), a, w), w) == ClearMasked(Lanes(a, w), m)
  {
    LaneCountMul(|m|, w);
    var la := Lanes(a, w);
    var k := Knot(m);
    assert seq(|k|, i requires 0 <= i < |k| => if k[i] then la[i] else 0) == ClearMasked(la, m);
    LanesOfAndNotPattern(a, m, w);
    FromLanesOfLanes(ByteAndNot(a, MaskToData(m, w)), w);
  }
}
