/**
  Raw vector registers and their lane views.

  A native vector register (a 128-, 256- or 512-bit value) is modelled as the
  sequence of its bytes, least significant byte first. The typed views that the
  library builds on top of a register (uint8<16>, uint16<8>, uint32<4>,
  float64<2>, ...) are all the same bytes read with a different lane width, so a
  reinterpreting cast such as uint8<16>(uint64<2>) is the identity on `Bytes`.
  A lane of width w (1, 2, 4 or 8 bytes) is read as the `bv64` whose low w bytes
  are the lane's bytes. Floating-point lanes are handled by their bit patterns
  only.

  A mask is one truth value per lane. Where the hardware keeps a mask in a data
  register, the register holds the mask's pattern: every byte of a true lane is
  0xFF, every byte of a false lane is 0x00 (`MaskToData`).
*/
module Registers {

  type Bytes = seq<bv8>

  /** The lane widths, in bytes, of the element kinds of the library. */
  predicate LaneWidth(w: nat) {
    w == 1 || w == 2 || w == 4 || w == 8
  }

  // ---------------------------------------------------------------------------
  // Reference meanings

  /** a & ~b, byte by byte: the meaning of AND-NOT on a whole register. */
  function ByteAndNot(a: Bytes, b: Bytes): Bytes
    requires |a| == |b|
  {
    seq(|a|, i requires 0 <= i < |a| => a[i] & !b[i])
  }

  /** a & ~b, lane by lane. */
  function LaneAndNot(x: seq<bv64>, y: seq<bv64>): seq<bv64>
    requires |x| == |y|
  {
    seq(|x|, i requires 0 <= i < |x| => x[i] & !y[i])
  }

  /** a && !b, lane by lane, on masks. */
  function MaskAndNot(a: seq<bool>, b: seq<bool>): seq<bool>
    requires |a| == |b|
  {
    seq(|a|, i requires 0 <= i < |a| => a[i] && !b[i])
  }

  /** The lanes of x, with every lane whose mask bit is set cleared to zero. */
  function ClearMasked(x: seq<bv64>, m: seq<bool>): seq<bv64>
    requires |x| == |m|
  {
    seq(|x|, i requires 0 <= i < |x| => if m[i] then 0 else x[i])
  }

  // ---------------------------------------------------------------------------
  // One lane: bytes <-> value

  /** The value of a lane whose bytes are s, least significant byte first. */
  function Assemble(s: Bytes): bv64
    requires |s| <= 8
  {
    if s == [] then 0 else (s[0] as bv64) | (Assemble(s[1..]) << 8)
  }

  /** The w low bytes of x, least significant first. */
  function Disassemble(x: bv64, w: nat): (s: Bytes)
    requires w <= 8
    ensures |s| == w
  {
    if w == 0 then [] else [(x & 0xFF) as bv8] + Disassemble(x >> 8, w - 1)
  }

  /** x can be stored in w bytes. */
  predicate Fits(x: bv64, w: nat)
  {
    match w
    case 0 => x == 0
    case 1 => x < 0x100
    case 2 => x < 0x1_0000
    case 3 => x < 0x100_0000
    case 4 => x < 0x1_0000_0000
    case 5 => x < 0x100_0000_0000
    case 6 => x < 0x1_0000_0000_0000
    case 7 => x < 0x100_0000_0000_0000
    case _ => true
  }

  lemma FitsBelowTopByte(x: bv64, w: nat)
    requires w < 8 && Fits(x, w)
    ensures x < 0x100_0000_0000_0000
  {
  }

  lemma FitsShift(x: bv64, w: nat)
    requires 0 < w <= 8 && Fits(x, w)
    ensures Fits(x >> 8, w - 1)
  {
  }

  lemma SplitLowByte(lo: bv8, hi: bv64)
    requires hi < 0x100_0000_0000_0000
    ensures ((lo as bv64) | (hi << 8)) >> 8 == hi
    ensures (((lo as bv64) | (hi << 8)) & 0xFF) as bv8 == lo
  {
  }

  lemma JoinLowByte(x: bv64, lo: bv8, hi: bv64)
    requires lo == (x & 0xFF) as bv8 && hi == x >> 8
    ensures (lo as bv64) | (hi << 8) == x
  {
  }

  /** A lane read from w bytes fits in w bytes. */
  lemma {:induction false} AssembleFits(s: Bytes)
    requires |s| <= 8
    ensures Fits(Assemble(s), |s|)
  {
    if s != [] {
      AssembleFits(s[1..]);
    }
  }

  /** Byte-wise AND-NOT of a lane's bytes is AND-NOT of the lane's value. */
  lemma {:induction false} AssembleAndNot(s: Bytes, t: Bytes)
    requires |s| == |t| <= 8
    ensures Assemble(ByteAndNot(s, t)) == Assemble(s) & !Assemble(t)
  {
    if s != [] {
      assert ByteAndNot(s, t)[1..] == ByteAndNot(s[1..], t[1..]);
      AssembleAndNot(s[1..], t[1..]);
    }
  }

  lemma AssembleDisassembleStep(x: bv64, w: nat)
    requires 0 < w <= 8
    requires Assemble(Disassemble(x >> 8, w - 1)) == x >> 8
    ensures Assemble(Disassemble(x, w)) == x
  {
    var d := Disassemble(x, w);
    assert d[1..] == Disassemble(x >> 8, w - 1);
    JoinLowByte(x, d[0], x >> 8);
  }

  /** Writing a value that fits into w bytes and reading it back gives the value. */
  lemma {:induction false} AssembleDisassemble(x: bv64, w: nat)
    requires w <= 8 && Fits(x, w)
    ensures Assemble(Disassemble(x, w)) == x
  {
    if w > 0 {
      FitsShift(x, w);
      AssembleDisassemble(x >> 8, w - 1);
      AssembleDisassembleStep(x, w);
    }
  }

  /** Reading a lane and writing it back gives the same bytes. */
  lemma {:induction false} DisassembleAssemble(s: Bytes)
    requires |s| <= 8
    ensures Disassemble(Assemble(s), |s|) == s
  {
    if s != [] {
      var rest := Assemble(s[1..]);
      AssembleFits(s[1..]);
      FitsBelowTopByte(rest, |s| - 1);
      SplitLowByte(s[0], rest);
      DisassembleAssemble(s[1..]);
    }
  }

  // ---------------------------------------------------------------------------
  // A whole register: bytes <-> lanes

  /** Removing one lane from a whole number of lanes leaves a whole number of lanes. */
  lemma AlignedTail(n: nat, w: nat)
    requires LaneWidth(w) && n % w == 0 && n > 0
    ensures n >= w && (n - w) % w == 0
  {
  }

  /** The number of whole w-byte lanes in n bytes. */
  function LaneCount(n: nat, w: nat): nat
    requires 0 < w
    decreases n
  {
    if n < w then 0 else 1 + LaneCount(n - w, w)
  }

  /** A register of k lanes of w bytes holds exactly k lanes. */
  lemma {:induction false} LaneCountMul(k: nat, w: nat)
    requires LaneWidth(w)
    ensures LaneCount(w * k, w) == k
  {
    if k > 0 {
      MulTail(k, w);
      LaneCountMul(k - 1, w);
    }
  }

  /** The lanes of register v read with lane width w (a reinterpretation);
      v is meant to hold a whole number of lanes. */
  function Lanes(v: Bytes, w: nat): (r: seq<bv64>)
    requires 0 < w <= 8
    ensures |r| == LaneCount(|v|, w)
    decreases |v|
  {
    if |v| < w then [] else [Assemble(v[..w])] + Lanes(v[w..], w)
  }

  /** The register whose w-byte lanes are ls. */
  function FromLanes(ls: seq<bv64>, w: nat): (v: Bytes)
    requires LaneWidth(w)
    ensures |v| == w * |ls|
  {
    if ls == [] then [] else Disassemble(ls[0], w) + FromLanes(ls[1..], w)
  }

  lemma {:induction false} LanesFit(v: Bytes, w: nat)
    requires LaneWidth(w) && |v| % w == 0
    ensures forall i :: 0 <= i < |Lanes(v, w)| ==> Fits(Lanes(v, w)[i], w)
    decreases |v|
  {
    if |v| > 0 {
      AssembleFits(v[..w]);
      AlignedTail(|v|, w);
      LanesFit(v[w..], w);
    }
  }

  /** Reinterpreting lanes as bytes and back gives the same lanes. */
  lemma {:induction false} LanesOfFromLanes(ls: seq<bv64>, w: nat)
    requires LaneWidth(w) && forall i :: 0 <= i < |ls| ==> Fits(ls[i], w)
    ensures Lanes(FromLanes(ls, w), w) == ls
  {
    if ls != [] {
      var v := FromLanes(ls, w);
      assert v[..w] == Disassemble(ls[0], w);
      assert v[w..] == FromLanes(ls[1..], w);
      AssembleDisassemble(ls[0], w);
      LanesOfFromLanes(ls[1..], w);
    }
  }

  /** Reinterpreting bytes as lanes and back gives the same bytes. */
  lemma {:induction false} FromLanesOfLanes(v: Bytes, w: nat)
    requires LaneWidth(w) && |v| % w == 0
    ensures FromLanes(Lanes(v, w), w) == v
    decreases |v|
  {
    if |v| > 0 {
      AlignedTail(|v|, w);
      var h, t := v[..w], v[w..];
      var ls := Lanes(v, w);
      assert ls == [Assemble(h)] + Lanes(t, w);
      assert ls[0] == Assemble(h) && ls[1..] == Lanes(t, w);
      DisassembleAssemble(h);
      FromLanesOfLanes(t, w);
      assert FromLanes(ls, w) == h + t;
      assert v == h + t;
    }
  }

  lemma ByteAndNotAppend(x1: Bytes, x2: Bytes, y1: Bytes, y2: Bytes)
    requires |x1| == |y1| && |x2| == |y2|
    ensures ByteAndNot(x1 + x2, y1 + y2) == ByteAndNot(x1, y1) + ByteAndNot(x2, y2)
  {
  }

  lemma LanesCons(v: Bytes, w: nat)
    requires 0 < w <= 8 && |v| >= w
    ensures Lanes(v, w) == [Assemble(v[..w])] + Lanes(v[w..], w)
  {
  }

  lemma LaneAndNotCons(x: seq<bv64>, y: seq<bv64>)
    requires |x| == |y| > 0
    ensures LaneAndNot(x, y) == [x[0] & !y[0]] + LaneAndNot(x[1..], y[1..])
  {
  }

  /** Reinterpretation commutes with AND-NOT: the lanes of a byte-wise AND-NOT
      are the lane-wise AND-NOT of the lanes, for every lane width. */
  lemma {:induction false} LanesOfByteAndNot(a: Bytes, b: Bytes, w: nat)
    requires 0 < w <= 8 && |a| == |b|
    ensures |Lanes(a, w)| == |Lanes(b, w)|
    ensures Lanes(ByteAndNot(a, b), w) == LaneAndNot(Lanes(a, w), Lanes(b, w))
    decreases |a|
  {
    if |a| >= w {
      var r := ByteAndNot(a, b);
      LanesCons(a, w);
      LanesCons(b, w);
      LanesCons(r, w);
      var la, lb, lr := Lanes(a, w), Lanes(b, w), Lanes(r, w);
      assert r[..w] == ByteAndNot(a[..w], b[..w]) && r[w..] == ByteAndNot(a[w..], b[w..]) by {
        assert a == a[..w] + a[w..] && b == b[..w] + b[w..];
        ByteAndNotAppend(a[..w], a[w..], b[..w], b[w..]);
      }
      assert lr[0] == la[0] & !lb[0] by {
        AssembleAndNot(a[..w], b[..w]);
      }
      assert lr[1..] == LaneAndNot(la[1..], lb[1..]) by {
        LanesOfByteAndNot(a[w..], b[w..], w);
      }
      LaneAndNotCons(la, lb);
    }
  }

  /** An AND-NOT computed lane by lane on w-byte lanes and written back is the
      byte-wise AND-NOT of the registers. */
  lemma LanewiseIsBytewise(a: Bytes, b: Bytes, w: nat)
    requires LaneWidth(w) && |a| == |b| && |a| % w == 0
    ensures |Lanes(a, w)| == |Lanes(b, w)|
    ensures FromLanes(LaneAndNot(Lanes(a, w), Lanes(b, w)), w) == ByteAndNot(a, b)
  {
    LanesOfByteAndNot(a, b, w);
    FromLanesOfLanes(ByteAndNot(a, b), w);
  }

  // ---------------------------------------------------------------------------
  // Masks and their data-register pattern

  /** The bytes of one lane of a mask's pattern. */
  function LanePattern(t: bool, w: nat): Bytes
  {
    seq(w, _ => if t then 0xFF else 0x00)
  }

  /** The data-register pattern of mask m for w-byte lanes: all-ones lanes
      where m is true, all-zeros lanes where it is false. */
  function MaskToData(m: seq<bool>, w: nat): (v: Bytes)
    requires LaneWidth(w)
    ensures |v| == w * |m|
  {
    if m == [] then [] else LanePattern(m[0], w) + MaskToData(m[1..], w)
  }

  /** Reading a data register as a mask: a lane is true when it is non-zero. */
  function DataToMask(v: Bytes, w: nat): seq<bool>
    requires LaneWidth(w)
  {
    var ls := Lanes(v, w);
    seq(|ls|, i requires 0 <= i < |ls| => ls[i] != 0)
  }

  /** v is a well-formed mask pattern: every lane is all-ones or all-zeros. */
  ghost predicate IsPattern(v: Bytes, w: nat)
    requires LaneWidth(w)
  {
    exists m: seq<bool> :: w * |m| == |v| && MaskToData(m, w) == v
  }

  lemma {:induction false} AssemblePattern(t: bool, w: nat)
    requires 0 < w <= 8
    ensures (Assemble(LanePattern(t, w)) != 0) == t
  {
    var p := LanePattern(t, w);
    if !t {
      if w > 1 {
        assert p[1..] == LanePattern(false, w - 1);
        AssemblePattern(false, w - 1);
      }
    } else {
      assert p[0] == 0xFF;
    }
  }

  /** Converting a mask to its data pattern and back gives the mask. */
  lemma {:induction false} MaskRoundTrip(m: seq<bool>, w: nat)
    requires LaneWidth(w)
    ensures DataToMask(MaskToData(m, w), w) == m
  {
    if m != [] {
      var v := MaskToData(m, w);
      assert v[..w] == LanePattern(m[0], w);
      assert v[w..] == MaskToData(m[1..], w);
      AssemblePattern(m[0], w);
      MaskRoundTrip(m[1..], w);
      assert Lanes(v, w) == [Assemble(v[..w])] + Lanes(v[w..], w);
    }
  }

  lemma MulTail(n: nat, w: nat)
    requires LaneWidth(w) && n > 0
    ensures w * n >= w && w * n - w == w * (n - 1)
  {
  }

  lemma MulAligned(n: nat, w: nat)
    requires LaneWidth(w)
    ensures (w * n) % w == 0
  {
  }

  lemma PatternLaneAndNot(s: bool, t: bool, w: nat)
    ensures ByteAndNot(LanePattern(s, w), LanePattern(t, w)) == LanePattern(s && !t, w)
  {
  }

  /** The AND-NOT of two mask patterns is the pattern of the masks' AND-NOT. */
  lemma {:induction false} PatternAndNot(a: seq<bool>, b: seq<bool>, w: nat)
    requires LaneWidth(w) && |a| == |b|
    ensures ByteAndNot(MaskToData(a, w), MaskToData(b, w)) == MaskToData(MaskAndNot(a, b), w)
  {
    if a != [] {
      var m := MaskAndNot(a, b);
      PatternAndNot(a[1..], b[1..], w);
      assert MaskAndNot(a[1..], b[1..]) == m[1..];
      ByteAndNotAppend(LanePattern(a[0], w), MaskToData(a[1..], w), LanePattern(b[0], w), MaskToData(b[1..], w));
      PatternLaneAndNot(a[0], b[0], w);
    }
  }

  /** The data-pattern AND-NOT of two masks is again a well-formed mask. */
  lemma PatternAndNotIsPattern(a: seq<bool>, b: seq<bool>, w: nat)
    requires LaneWidth(w) && |a| == |b|
    ensures IsPattern(ByteAndNot(MaskToData(a, w), MaskToData(b, w)), w)
  {
    PatternAndNot(a, b, w);
    var m := MaskAndNot(a, b);
    assert w * |m| == |MaskToData(m, w)|;
  }

  lemma {:induction false} AssembleZeros(s: Bytes)
    requires |s| <= 8 && forall i :: 0 <= i < |s| ==> s[i] == 0
    ensures Assemble(s) == 0
  {
    if s != [] {
      AssembleZeros(s[1..]);
    }
  }

  lemma ClearMaskedCons(x: seq<bv64>, m: seq<bool>)
    requires |x| == |m| > 0
    ensures ClearMasked(x, m) == [if m[0] then 0 else x[0]] + ClearMasked(x[1..], m[1..])
  {
  }

  lemma AndNotPatternLane(s: Bytes, t: bool)
    requires |s| <= 8
    ensures Assemble(ByteAndNot(s, LanePattern(t, |s|))) == if t then 0 else Assemble(s)
  {
    var r := ByteAndNot(s, LanePattern(t, |s|));
    if t {
      AssembleZeros(r);
    } else {
      assert r == s;
    }
  }

  /** AND-NOT with a mask pattern clears exactly the lanes whose mask bit is set. */
  lemma {:induction false} LanesOfAndNotPattern(a: Bytes, m: seq<bool>, w: nat)
    requires LaneWidth(w) && |a| == w * |m|
    ensures |a| % w == 0 && |Lanes(a, w)| == |m|
    ensures Lanes(ByteAndNot(a, MaskToData(m, w)), w) == ClearMasked(Lanes(a, w), m)
  {
    MulAligned(|m|, w);
    if m != [] {
      MulTail(|m|, w);
      var p, r := MaskToData(m, w), ByteAndNot(a, MaskToData(m, w));
      assert p == LanePattern(m[0], w) + MaskToData(m[1..], w);
      assert a == a[..w] + a[w..];
      ByteAndNotAppend(a[..w], a[w..], LanePattern(m[0], w), MaskToData(m[1..], w));
      LanesOfAndNotPattern(a[w..], m[1..], w);
      LanesCons(a, w);
      LanesCons(r, w);
      assert r[..w] == ByteAndNot(a[..w], LanePattern(m[0], w));
      assert r[w..] == ByteAndNot(a[w..], MaskToData(m[1..], w));
      AndNotPatternLane(a[..w], m[0]);
      ClearMaskedCons(Lanes(a, w), m);
    }
  }

  // ---------------------------------------------------------------------------
  // Composite vectors: a sequence of native segments

  /** The lanes of a composite vector, in order: its segments laid end to end. */
  function Concat<T>(ss: seq<seq<T>>): seq<T>
  {
    if ss == [] then [] else ss[0] + Concat(ss[1..])
  }

  lemma {:induction false} ConcatByteAndNot(r: seq<Bytes>, sa: seq<Bytes>, sb: seq<Bytes>)
    requires |r| == |sa| == |sb|
    requires forall i :: 0 <= i < |r| ==> |sa[i]| == |sb[i]| && r[i] == ByteAndNot(sa[i], sb[i])
    ensures |Concat(sa)| == |Concat(sb)|
    ensures Concat(r) == ByteAndNot(Concat(sa), Concat(sb))
  {
    if r != [] {
      ConcatByteAndNot(r[1..], sa[1..], sb[1..]);
      ByteAndNotAppend(sa[0], Concat(sa[1..]), sb[0], Concat(sb[1..]));
    }
  }

  lemma {:induction false} ConcatMaskAndNot(r: seq<seq<bool>>, sa: seq<seq<bool>>, sb: seq<seq<bool>>)
    requires |r| == |sa| == |sb|
    requires forall i :: 0 <= i < |r| ==> |sa[i]| == |sb[i]| && r[i] == MaskAndNot(sa[i], sb[i])
    ensures |Concat(sa)| == |Concat(sb)|
    ensures Concat(r) == MaskAndNot(Concat(sa), Concat(sb))
  {
    if r != [] {
      ConcatMaskAndNot(r[1..], sa[1..], sb[1..]);
    }
  }

  /** The pattern of a composite mask is its segments' patterns laid end to end. */
  lemma {:induction false} ConcatMaskToData(ms: seq<seq<bool>>, ps: seq<Bytes>, w: nat)
    requires LaneWidth(w) && |ps| == |ms|
    requires forall i :: 0 <= i < |ms| ==> ps[i] == MaskToData(ms[i], w)
    ensures Concat(ps) == MaskToData(Concat(ms), w)
  {
    if ms != [] {
      ConcatMaskToData(ms[1..], ps[1..], w);
      MaskToDataAppend(ms[0], Concat(ms[1..]), w);
    }
  }

  lemma {:induction false} MaskToDataAppend(m1: seq<bool>, m2: seq<bool>, w: nat)
    requires LaneWidth(w)
    ensures MaskToData(m1 + m2, w) == MaskToData(m1, w) + MaskToData(m2, w)
  {
    if m1 != [] {
      assert (m1 + m2)[0] == m1[0] && (m1 + m2)[1..] == m1[1..] + m2;
      MaskToDataAppend(m1[1..], m2, w);
      var p := LanePattern(m1[0], w);
      assert MaskToData(m1 + m2, w) == p + (MaskToData(m1[1..], w) + MaskToData(m2, w));
      assert p + (MaskToData(m1[1..], w) + MaskToData(m2, w)) == (p + MaskToData(m1[1..], w)) + MaskToData(m2, w);
    } else {
      assert m1 + m2 == m2;
    }
  }
}
