/**
  The differential test oracle.

  A test case run on one target records a list of typed results (`push`);
  the runs of the same test on two targets are then compared result by
  result (`test_equal`). Float results may differ by a tolerance counted in
  units in the last place (ULP): the comparison walks each element of A
  towards the element of B with `nextafter` as many times as the tolerance
  allows and then compares the two as floats. That walk and the float
  comparison are the parameters of `FloatOps`, keyed by the element width
  (4 bytes for `float`, 8 for `double`), since the two are different
  operations on the same bit patterns.
*/
module TestOracle {
  import opened Registers

  datatype Option<T> = None | Some(value: T)

  /** The result tags of `TestCase::Type` that the test harness handles;
      `Other` stands for any tag the switches do not list. */
  datatype Type =
    | Uint16
    | Uint8x16 | Int8x16 | Uint16x8 | Int16x8 | Uint32x4 | Int32x4
    | Uint64x2 | Int64x2 | Float32x4 | Float64x2
    | Uint8x32 | Int8x32 | Uint16x16 | Int16x16 | Uint32x8 | Int32x8
    | Uint64x4 | Int64x4 | Float32x8 | Float64x4
    | Other(code: int)

  predicate Is128(t: Type)
  {
    || t.Uint8x16? || t.Int8x16? || t.Uint16x8? || t.Int16x8? || t.Uint32x4?
    || t.Int32x4? || t.Uint64x2? || t.Int64x2? || t.Float32x4? || t.Float64x2?
  }

  predicate Is256(t: Type)
  {
    || t.Uint8x32? || t.Int8x32? || t.Uint16x16? || t.Int16x16? || t.Uint32x8?
    || t.Int32x8? || t.Uint64x4? || t.Int64x4? || t.Float32x8? || t.Float64x4?
  }

  predicate IsFloat(t: Type)
  {
    t.Float32x4? || t.Float64x2? || t.Float32x8? || t.Float64x4?
  }

  /** `TestCase::size_for_type`: the payload size of a tag in bytes; `None`
      where the source calls `std::abort()`. */
  function SizeForType(t: Type): (n: Option<nat>)
    ensures t == Uint16 ==> n == Some(2)
    ensures Is128(t) ==> n == Some(16)
    ensures Is256(t) ==> n == Some(32)
    ensures n.None? <==> t.Other?
  {
    match t
    case Uint16 => Some(2)
    case Uint8x16 | Int8x16 | Uint16x8 | Int16x8 | Uint32x4 | Int32x4
       | Uint64x2 | Int64x2 | Float32x4 | Float64x2 => Some(16)
    case Uint8x32 | Int8x32 | Uint16x16 | Int16x16 | Uint32x8 | Int32x8
       | Uint64x4 | Int64x4 | Float32x8 | Float64x4 => Some(32)
    case Other(_) => None
  }

  /** One recorded result: `TestCase::Result`. */
  datatype Result = Result(tag: Type, payload: Bytes, line: nat, seqNo: nat, precUlp: nat)

  /** The payload holds exactly the bytes its tag calls for. */
  predicate WellSized(r: Result)
  {
    SizeForType(r.tag) == Some(|r.payload|)
  }

  /** `TestCase::precision_for_result`: the recorded tolerance for float
      results, none for the others. */
  function PrecisionForResult(r: Result): (p: nat)
    ensures IsFloat(r.tag) ==> p == r.precUlp
    ensures !IsFloat(r.tag) ==> p == 0
  {
    match r.tag
    case Float32x4 | Float64x2 | Float32x8 | Float64x4 => r.precUlp
    case _ => 0
  }

  /** The float operations the comparison is built on, on the bit patterns
      of the elements and for an element width w (4: `float`, 8: `double`):
      `nextafter(x, y)` and float equality `x == y` of that type (which is
      not bit equality: NaN differs from itself, -0 equals +0). */
  datatype FloatOps = FloatOps(nextAfter: (nat, bv64, bv64) -> bv64, equal: (nat, bv64, bv64) -> bool)

  /** x after n steps of `nextafter` towards y, on elements of w bytes. */
  function Walk(x: bv64, y: bv64, n: nat, w: nat, f: FloatOps): bv64
    decreases n
  {
    if n == 0 then x else Walk(f.nextAfter(w, x, y), y, n - 1, w, f)
  }

  /** Every element of a, walked prec steps towards the element of b at the
      same index, equals it as a float of w bytes. */
  predicate ArraysClose(a: seq<bv64>, b: seq<bv64>, prec: nat, w: nat, f: FloatOps)
    requires |a| == |b|
  {
    forall i :: 0 <= i < |a| ==> f.equal(w, Walk(a[i], b[i], prec, w, f), b[i])
  }

  /** `cmpeq_arrays`: the element loop with the inner `nextafter` loop; it
      stops at the first element that is still unequal after the walk. */
  method CmpEqArrays(a: seq<bv64>, b: seq<bv64>, prec: nat, w: nat, f: FloatOps) returns (eq: bool)
    requires |a| == |b|
    ensures eq <==> ArraysClose(a, b, prec, w, f)
  {
    var i := 0;
    while i < |a|
      invariant 0 <= i <= |a|
      invariant forall j :: 0 <= j < i ==> f.equal(w, Walk(a[j], b[j], prec, w, f), b[j])
    {
      var ia, ib := a[i], b[i];
      var k := 0;
      while k < prec
        invariant 0 <= k <= prec
        invariant Walk(ia, ib, prec - k, w, f) == Walk(a[i], b[i], prec, w, f)
      {
        ia := f.nextAfter(w, ia, ib);
        k := k + 1;
      }
      if !f.equal(w, ia, ib) {
        return false;
      }
      i := i + 1;
    }
    return true;
  }

  /** The float elements of a float result: lanes of 4 or 8 bytes. */
  function ElementBytes(t: Type): (w: nat)
    requires IsFloat(t)
    ensures LaneWidth(w)
  {
    if t == Float32x4 || t == Float32x8 then 4 else 8
  }

  /** The element counts `cmpeq_result` passes to `cmpeq_arrays` cover the
      whole payload of each float tag: 4 x 4, 2 x 8, 8 x 4 and 4 x 8 bytes. */
  lemma FloatElementsCoverPayload(r: Result)
    requires WellSized(r) && IsFloat(r.tag)
    ensures |r.payload| == ElementBytes(r.tag) * |Lanes(r.payload, ElementBytes(r.tag))|
  {
    var w := ElementBytes(r.tag);
    var n := |r.payload| / w;
    assert |r.payload| == w * n;
    LaneCountMul(n, w);
  }

  /** `cmpeq_result`: byte-identical payloads are equal; otherwise only a
      float result compared with a non-zero tolerance can still be equal,
      through the `nextafter` walk of its elements. The source compares the
      first `size_for_type` bytes of both; the results of a test case always
      hold exactly that many (`TestCase.Valid`), and the comparison loop only
      reaches this for two results of the same tag, so the whole payloads are
      compared here. */
  function CmpEqResult(ia: Result, ib: Result, prec: nat, f: FloatOps): (eq: bool)
    ensures ia.payload == ib.payload ==> eq
    ensures prec == 0 || !IsFloat(ia.tag) ==> (eq <==> ia.payload == ib.payload)
  {
    if ia.payload == ib.payload then true
    else if prec == 0 then false
    else if IsFloat(ia.tag) && |ia.payload| == |ib.payload| then
      FloatPayloadsClose(ia.tag, ia.payload, ib.payload, prec, f)
    else false
  }

  /** The `cmpeq_arrays` call of `cmpeq_result` for a float tag: the
      payloads read as elements of the tag's float type. */
  predicate FloatPayloadsClose(t: Type, a: Bytes, b: Bytes, prec: nat, f: FloatOps)
    requires IsFloat(t) && |a| == |b|
  {
    var w := ElementBytes(t);
    ArraysClose(Lanes(a, w), Lanes(b, w), prec, w, f)
  }

  /** The float32 and float64 readings of one payload are compared with the
      operations of their own width: with float operations under which every
      4-byte element pair is equal and no 8-byte one is, the same two
      payloads compare equal as Float32x4 and unequal as Float64x2. */
  lemma ElementWidthFollowsTag()
    ensures var f := FloatOps((w: nat, x: bv64, y: bv64) => x, (w: nat, x: bv64, y: bv64) => w == 4);
            var a: Bytes := [0, 0, 0, 0x80] + seq(12, _ => 0);
            var b: Bytes := seq(16, _ => 0);
            && CmpEqResult(Result(Float32x4, a, 1, 0, 1), Result(Float32x4, b, 1, 0, 1), 1, f)
            && !CmpEqResult(Result(Float64x2, a, 1, 0, 1), Result(Float64x2, b, 1, 0, 1), 1, f)
  {
    var f := FloatOps((w: nat, x: bv64, y: bv64) => x, (w: nat, x: bv64, y: bv64) => w == 4);
    var a: Bytes := [0, 0, 0, 0x80] + seq(12, _ => 0);
    var b: Bytes := seq(16, _ => 0);
    assert a[3] != b[3];
    LaneCountMul(2, 8);
    assert |Lanes(a, 8)| == 2;
    assert !f.equal(8, Walk(Lanes(a, 8)[0], Lanes(b, 8)[0], 1, 8, f), Lanes(b, 8)[0]);
  }

  /** `TestCase`: the results one run of a test records. */
  class TestCase {
    const name: string
    const file: string
    var results: seq<Result>
    /** The first sequence number, the one `reset_seq()` sets. */
    const seqStart: nat
    var seqCounter: nat
    var precisionUlp: nat

    /** Every result was recorded by `Push`: it has a listed tag, the
        payload size of that tag, and the sequence number of its position,
        counted from `seqStart`. */
    ghost predicate Valid()
      reads this
    {
      && seqCounter == seqStart + |results|
      && (forall i :: 0 <= i < |results| ==> WellSized(results[i]))
      && (forall i :: 0 <= i < |results| ==> results[i].seqNo == seqStart + i)
    }

    /** `TestCase::TestCase`: the given name and file, no results, tolerance
        0, and the sequence counter at the first sequence number `seqStart`
        that `reset_seq()` sets. */
    constructor(name: string, file: string, seqStart: nat)
      ensures this.name == name && this.file == file && this.seqStart == seqStart
      ensures results == [] && seqCounter == seqStart && precisionUlp == 0
      ensures Valid()
    {
      this.name := name;
      this.file := file;
      this.seqStart := seqStart;
      results := [];
      seqCounter := seqStart;
      precisionUlp := 0;
    }

    /** The tolerance for the results recorded from now on. */
    method SetPrecision(ulp: nat)
      requires Valid()
      modifies this
      ensures Valid()
      ensures precisionUlp == ulp
      ensures results == old(results) && seqCounter == old(seqCounter)
    {
      precisionUlp := ulp;
    }

    /** `TestCase::push`: records the first size-for-type bytes of `data`
        under the next sequence number with the current tolerance; an
        unlisted tag aborts the process, recording nothing. */
    method Push(t: Type, data: Bytes, line: nat) returns (aborted: bool)
      requires Valid()
      requires SizeForType(t).Some? ==> |data| >= SizeForType(t).value
      modifies this
      ensures Valid()
      ensures aborted <==> t.Other?
      ensures aborted ==> results == old(results) && seqCounter == old(seqCounter)
      ensures !aborted ==> |results| == |old(results)| + 1 && results[..|old(results)|] == old(results)
      ensures !aborted ==> results[|old(results)|] == Result(t, data[..SizeForType(t).value], line, old(seqCounter), precisionUlp)
      ensures !aborted ==> seqCounter == old(seqCounter) + 1
      ensures precisionUlp == old(precisionUlp)
    {
      var size := SizeForType(t);
      if size.None? {
        return true;
      }
      results := results + [Result(t, data[..size.value], line, seqCounter, precisionUlp)];
      seqCounter := seqCounter + 1;
      return false;
    }
  }

  /** A message `test_equal` writes to its error stream. */
  datatype Report =
    | NameMismatch
    | CountMismatch(countA: nat, countB: nat)
    | LineMismatch(index: nat, lineA: nat, lineB: nat)
    | TypeMismatch(index: nat, tagA: Type, tagB: Type)
    | ValueMismatch(index: nat, line: nat, seqNo: nat, prec: nat)

  /** The tolerance of a pair of results: the larger of the two. */
  function PairPrecision(ia: Result, ib: Result): (p: nat)
    ensures p >= PrecisionForResult(ia) && p >= PrecisionForResult(ib)
    ensures p == PrecisionForResult(ia) || p == PrecisionForResult(ib)
  {
    if PrecisionForResult(ia) >= PrecisionForResult(ib) then PrecisionForResult(ia) else PrecisionForResult(ib)
  }

  /** The index of the first pair with different lines or tags, or the count
      when there is none. */
  function FirstStructuralMismatch(ra: seq<Result>, rb: seq<Result>, from: nat): (k: nat)
    requires |ra| == |rb| && from <= |ra|
    ensures from <= k <= |ra|
    ensures forall j :: from <= j < k ==> ra[j].line == rb[j].line && ra[j].tag == rb[j].tag
    ensures k < |ra| ==> ra[k].line != rb[k].line || ra[k].tag != rb[k].tag
    decreases |ra| - from
  {
    if from == |ra| then from
    else if ra[from].line != rb[from].line || ra[from].tag != rb[from].tag then from
    else FirstStructuralMismatch(ra, rb, from + 1)
  }

  /** Pair j of two result lists compares equal under the pair's tolerance,
      as `cmpeq_result` decides. */
  predicate PairEqual(ra: seq<Result>, rb: seq<Result>, j: nat, f: FloatOps)
    requires j < |ra| && j < |rb|
  {
    CmpEqResult(ra[j], rb[j], PairPrecision(ra[j], rb[j]), f)
  }

  /** The report for pair j when its values differ. */
  function PairReport(ra: seq<Result>, rb: seq<Result>, j: nat, f: FloatOps): seq<Report>
    requires j < |ra| && j < |rb|
  {
    if PairEqual(ra, rb, j, f) then []
    else [ValueMismatch(j, ra[j].line, ra[j].seqNo, PairPrecision(ra[j], rb[j]))]
  }

  /** The reports for the pairs before index n whose values differ, in index
      order. */
  function ValueMismatches(ra: seq<Result>, rb: seq<Result>, n: nat, f: FloatOps): seq<Report>
    requires n <= |ra| && n <= |rb|
  {
    if n == 0 then []
    else ValueMismatches(ra, rb, n - 1, f) + PairReport(ra, rb, n - 1, f)
  }

  /** Pairs that all compare equal produce no value report. */
  lemma {:induction false} NoReportWhenAllEqual(ra: seq<Result>, rb: seq<Result>, n: nat, f: FloatOps)
    requires n <= |ra| && n <= |rb|
    requires forall j :: 0 <= j < n ==> PairEqual(ra, rb, j, f)
    ensures ValueMismatches(ra, rb, n, f) == []
  {
    if n > 0 {
      NoReportWhenAllEqual(ra, rb, n - 1, f);
      assert PairEqual(ra, rb, n - 1, f);
    }
  }

  /** A pair that compares unequal produces a value report. */
  lemma {:induction false} ReportWhenUnequal(ra: seq<Result>, rb: seq<Result>, n: nat, j: nat, f: FloatOps)
    requires n <= |ra| && n <= |rb|
    requires j < n && !PairEqual(ra, rb, j, f)
    ensures ValueMismatches(ra, rb, n, f) != []
  {
    var v0, p := ValueMismatches(ra, rb, n - 1, f), PairReport(ra, rb, n - 1, f);
    assert ValueMismatches(ra, rb, n, f) == v0 + p;
    if j < n - 1 {
      ReportWhenUnequal(ra, rb, n - 1, j, f);
      assert |v0 + p| >= |v0| > 0;
    } else {
      assert p != [];
    }
  }

  /** No value report is written exactly when every pair compares equal. */
  lemma {:induction false} ValueMismatchesEmpty(ra: seq<Result>, rb: seq<Result>, n: nat, f: FloatOps)
    requires n <= |ra| && n <= |rb|
    ensures ValueMismatches(ra, rb, n, f) == [] <==> forall j :: 0 <= j < n ==> PairEqual(ra, rb, j, f)
  {
    if forall j :: 0 <= j < n ==> PairEqual(ra, rb, j, f) {
      NoReportWhenAllEqual(ra, rb, n, f);
    } else {
      var j :| 0 <= j < n && !PairEqual(ra, rb, j, f);
      ReportWhenUnequal(ra, rb, n, j, f);
    }
  }

  /** Each value report names a pair below n that compares unequal, with
      that pair's tolerance, and the reports come in increasing index order. */
  lemma {:induction false} ValueMismatchesSound(ra: seq<Result>, rb: seq<Result>, n: nat, f: FloatOps)
    requires n <= |ra| && n <= |rb|
    ensures forall k :: 0 <= k < |ValueMismatches(ra, rb, n, f)| ==>
      && ValueMismatches(ra, rb, n, f)[k].ValueMismatch?
      && ValueMismatches(ra, rb, n, f)[k].index < n
      && ValueMismatches(ra, rb, n, f)[k].prec == PairPrecision(ra[ValueMismatches(ra, rb, n, f)[k].index], rb[ValueMismatches(ra, rb, n, f)[k].index])
      && !PairEqual(ra, rb, ValueMismatches(ra, rb, n, f)[k].index, f)
    ensures forall k :: 0 < k < |ValueMismatches(ra, rb, n, f)| ==>
      ValueMismatches(ra, rb, n, f)[k - 1].index < ValueMismatches(ra, rb, n, f)[k].index
  {
    if n > 0 {
      ValueMismatchesSound(ra, rb, n - 1, f);
      var v0, p := ValueMismatches(ra, rb, n - 1, f), PairReport(ra, rb, n - 1, f);
      var v := v0 + p;
      assert ValueMismatches(ra, rb, n, f) == v;
      if p != [] {
        assert !PairEqual(ra, rb, n - 1, f);
        assert v[|v0|] == p[0] && p[0].index == n - 1;
        assert forall k :: 0 <= k < |v0| ==> v[k] == v0[k] && v0[k].index < n - 1;
      }
    }
  }

  /** The structural report for the first pair with a different line or tag;
      a line mismatch is reported before a tag mismatch. */
  function StructuralReport(ia: Result, ib: Result, i: nat): Report
  {
    if ia.line != ib.line then LineMismatch(i, ia.line, ib.line)
    else TypeMismatch(i, ia.tag, ib.tag)
  }

  /** Everything the comparison loop reports for two result lists of equal
      length: the value mismatches before the first structural mismatch,
      then that structural mismatch if there is one. */
  function LoopReports(ra: seq<Result>, rb: seq<Result>, f: FloatOps): seq<Report>
    requires |ra| == |rb|
  {
    var k := FirstStructuralMismatch(ra, rb, 0);
    ValueMismatches(ra, rb, k, f) + (if k < |ra| then [StructuralReport(ra[k], rb[k], k)] else [])
  }

  /** The loop reports nothing exactly when every pair agrees in line, tag
      and value. */
  lemma LoopReportsEmpty(ra: seq<Result>, rb: seq<Result>, f: FloatOps)
    requires |ra| == |rb|
    ensures LoopReports(ra, rb, f) == [] <==>
      forall j :: 0 <= j < |ra| ==>
        && ra[j].line == rb[j].line
        && ra[j].tag == rb[j].tag
        && PairEqual(ra, rb, j, f)
  {
    var k := FirstStructuralMismatch(ra, rb, 0);
    ValueMismatchesEmpty(ra, rb, k, f);
  }

  /** The comparison loop of `TestEqualImpl::run`: a line or tag mismatch
      returns at once, a value mismatch is reported and the loop goes on. */
  method CompareResults(ra: seq<Result>, rb: seq<Result>, f: FloatOps) returns (ok: bool, reports: seq<Report>)
    requires |ra| == |rb|
    ensures reports == LoopReports(ra, rb, f)
    ensures ok <==> reports == []
  {
    ok := true;
    reports := [];
    var i := 0;
    while i < |ra|
      invariant 0 <= i <= |ra|
      invariant i <= FirstStructuralMismatch(ra, rb, 0)
      invariant reports == ValueMismatches(ra, rb, i, f)
      invariant ok <==> reports == []
    {
      var ia, ib := ra[i], rb[i];
      if ia.line != ib.line || ia.tag != ib.tag {
        assert FirstStructuralMismatch(ra, rb, 0) == i;
        return false, reports + [StructuralReport(ia, ib, i)];
      }
      var r := PairReport(ra, rb, i, f);
      if r != [] {
        reports := reports + r;
        ok := false;
      }
      i := i + 1;
    }
    assert FirstStructuralMismatch(ra, rb, 0) == |ra|;
  }

  /** `test_equal` (`TestEqualImpl::run`): different names or result counts
      are fatal before any result is looked at; then the pairs are compared
      in order. The outcome is true exactly when the names, the counts, and
      every pair's line, tag and value agree. */
  method TestEqual(a: TestCase, b: TestCase, f: FloatOps) returns (ok: bool, reports: seq<Report>)
    ensures a.name != b.name ==> reports == [NameMismatch]
    ensures a.name == b.name && |a.results| != |b.results| ==>
      reports == [CountMismatch(|a.results|, |b.results|)]
    ensures a.name == b.name && |a.results| == |b.results| ==>
      reports == LoopReports(a.results, b.results, f)
    ensures ok <==> reports == []
    ensures ok <==>
      && a.name == b.name
      && |a.results| == |b.results|
      && forall j :: 0 <= j < |a.results| ==>
           && a.results[j].line == b.results[j].line
           && a.results[j].tag == b.results[j].tag
           && PairEqual(a.results, b.results, j, f)
  {
    if a.name != b.name {
      return false, [NameMismatch];
    }
    var ra, rb := a.results, b.results;
    if |ra| != |rb| {
      return false, [CountMismatch(|ra|, |rb|)];
    }
    ok, reports := CompareResults(ra, rb, f);
    LoopReportsEmpty(ra, rb, f);
  }
}
