# libsimdpp: AND-NOT, the differential test oracle, and x86 detection

This project models three parts of libsimdpp, a C++ library that wraps SIMD
instruction sets behind one vector type system. The models are written and
verified in Dafny.

- **The `i_bit_andnot` overload family** computes `a & ~b` for every vector type:
  - uint8/16/32/64 and float32/64 data vectors;
  - data with a mask operand;
  - mask with mask.

  A native vector is a register of 16, 32 or 64 bytes, least significant byte
  first (`Registers`). A typed view such as `uint32<4>` is the same bytes read
  in lanes of 4 bytes, so a reinterpreting cast is the identity.

  The target's `SIMDPP_USE_*` macros are a feature set (`Isa.Caps`). Every
  overload follows its `#if` chain over that set and is built from intrinsics
  given their vendor-documented meaning.

  Each overload is proved to equal:
  - the byte-wise AND-NOT on every path the target can take;
  - the lane-wise AND-NOT (data) on its own lane width;
  - `a[i] && !b[i]` (masks).

  Vectors longer than the widest native register are sequences of native
  segments. The generic template applies the native overload segment by
  segment (`BitAndNot.VecArrayImpl2`). The whole result is proved equal to the
  AND-NOT of the whole operands.
- **The differential test oracle (`test/test_case.cc`).**
  - A `TestCase` records typed results with sequence numbers and a ULP
    tolerance (units in the last place).
  - `TestEqual` compares the results of two runs: structural checks first,
    then the values, aggregating value mismatches.
  - The float `nextafter` walk and float equality are the parameters of
    `FloatOps`, keyed by the element width (4 bytes for float, 8 for double),
    so `cmpeq_arrays<float>` and `cmpeq_arrays<double>` may differ.
- **Run-time x86 detection** with GCC's `__builtin_cpu_supports`.
  - The builtin's answers and the value of the preprocessor guard are inputs.
    The guard's value for a given compiler is computed by `GuardAsWritten`
    (the condition as it stands) and `GuardIntended` (the corrected one).
  - The result is the set of flags of the first supported instruction set and
    of every older one.

## Model

| member | source | states |
|---|---|---|
| Registers.LanesOfByteAndNot | simdpp/detail/insn/bit_andnot.h:106-109 | reading a register's w-byte lanes (w = 1 to 8) commutes with AND-NOT: the lanes of the byte-wise AND-NOT are the lane-wise AND-NOT of the lanes |
| Registers.LanewiseIsBytewise | simdpp/detail/insn/bit_andnot.h:264-267 | an AND-NOT done lane by lane and written back as bytes is the byte-wise AND-NOT, so a wide-lane overload may go through uint8<16> |
| Registers.FromLanesOfLanes | simdpp/detail/insn/bit_andnot.h:174-177 | reinterpreting bytes as lanes and back gives the same bytes |
| Registers.LanesOfFromLanes | simdpp/detail/insn/bit_andnot.h:174-177 | reinterpreting lanes that fit their width as bytes and back gives the same lanes |
| Registers.MaskRoundTrip | simdpp/detail/insn/bit_andnot.h:82-89 | a mask converted to its all-ones/all-zeros data pattern and read back is the same mask |
| Registers.PatternAndNot | simdpp/detail/insn/bit_andnot.h:82-89 | the byte-wise AND-NOT of two mask patterns is the pattern of `a[i] && !b[i]` |
| Registers.PatternAndNotIsPattern | simdpp/detail/insn/bit_andnot.h:150-157 | the data result of a mask AND-NOT is again a well-formed mask pattern |
| Registers.LanesOfAndNotPattern | simdpp/detail/insn/bit_andnot.h:58-65 | AND-NOT with a mask's pattern keeps lane i of a where the mask is false and makes it zero where it is true |
| Registers.ConcatByteAndNot | simdpp/detail/insn/bit_andnot.h:50-54 | segment-wise AND-NOT, laid end to end, is the AND-NOT of the whole vectors |
| Registers.ConcatMaskToData | simdpp/detail/insn/bit_andnot.h:74-78 | the pattern of a composite mask is its segments' patterns laid end to end |
| Registers.ConcatMaskAndNot | simdpp/detail/insn/bit_andnot.h:98-102 | segment-wise mask AND-NOT, laid end to end, is the mask AND-NOT of the whole masks |
| Isa.IntBackend | simdpp/detail/insn/bit_andnot.h:30-41 | the integer chain takes the NULL, SSE2, NEON or Altivec path exactly when the target is of that family |
| Isa.Float32Backend | simdpp/detail/insn/bit_andnot.h:354-366 | float32 takes the scalar path on NULL and on NEON without single-precision support, else its family's path |
| Isa.Float64Backend | simdpp/detail/insn/bit_andnot.h:452-462 | float64 takes the scalar path on NULL, 32-bit NEON and Altivec, SSE2 on x86, NEON only on AArch64, never Altivec |
| Isa.BaseBytes | simdpp/detail/insn/bit_andnot.h:179-197 | the segment size of a long vector is a native size of its kind and the largest one the target has |
| Isa.X86AndNotSi | simdpp/detail/insn/bit_andnot.h:34-35 | `_mm_andnot_si128(x, y)` complements its first operand: it is the reference AND-NOT of y and x |
| Isa.X86AndNotLanes | simdpp/detail/insn/bit_andnot.h:187-190 | the lane-wise `_mm*_andnot_ps/pd/epi32/epi64(x, y)` is the byte-wise AND-NOT of y and x |
| Isa.NeonBic | simdpp/detail/insn/bit_andnot.h:36-37 | the lane-wise bit clear `vbicq(x, y)` is the byte-wise AND-NOT of x and y |
| Isa.NullAndNot | simdpp/detail/insn/bit_andnot.h:32-33 | the scalar element-by-element AND-NOT is the byte-wise AND-NOT |
| Isa.NullAndNotVm | simdpp/detail/insn/bit_andnot.h:60-61 | the scalar data/mask AND-NOT equals the AND-NOT with the mask's data pattern |
| Isa.Kandn | simdpp/detail/insn/bit_andnot.h:249-252 | `_mm512_kandn(b, a)` is `a[i] && !b[i]` |
| Isa.MaskzMovKnot | simdpp/detail/insn/bit_andnot.h:217-221 | `maskz_mov(knot(m), a)` equals the expanded-mask path, a AND-NOT the mask's pattern: a[i] where m[i] is false, zero where it is true |
| BitAndNot.MaskAndNotViaPattern | simdpp/detail/insn/bit_andnot.h:150-157 | mask to pattern, data AND-NOT, and back to mask gives `a[i] && !b[i]`, and the register in between is a well-formed pattern |
| BitAndNot.OperandOrderMatters | simdpp/detail/insn/bit_andnot.h:34-35 | calling `_mm_andnot_si128(a, b)` in the natural order would not compute a & ~b, which is why the source passes (b, a) |
| BitAndNot.U8AndNot | simdpp/detail/insn/bit_andnot.h:30-48 | uint8<16> on every backend, and uint8<32>, give byte i = a[i] & ~b[i] |
| BitAndNot.U8AndNotMask | simdpp/detail/insn/bit_andnot.h:58-72 | uint8 with mask_int8: the AND-NOT with the mask's pattern; lane i is a[i] or zero where the mask is set |
| BitAndNot.Mask8AndNot | simdpp/detail/insn/bit_andnot.h:82-96 | mask_int8 AND-NOT mask_int8 is `a[i] && !b[i]` on the scalar and the data path |
| BitAndNot.U16AndNot | simdpp/detail/insn/bit_andnot.h:106-116 | uint16 through uint8<16> or with the AVX2 instruction: byte-wise and 2-byte lane-wise AND-NOT |
| BitAndNot.U16AndNotMask | simdpp/detail/insn/bit_andnot.h:126-140 | uint16 with mask_int16: the AND-NOT with the mask's pattern, lanes cleared where the mask is set |
| BitAndNot.Mask16AndNot | simdpp/detail/insn/bit_andnot.h:150-164 | mask_int16 AND-NOT mask_int16 is `a[i] && !b[i]` |
| BitAndNot.U32AndNot | simdpp/detail/insn/bit_andnot.h:174-191 | uint32 at 128, 256 and 512 bits: byte-wise and 4-byte lane-wise AND-NOT |
| BitAndNot.U32AndNotMask | simdpp/detail/insn/bit_andnot.h:201-222 | uint32 with mask_int32, including the AVX-512 `maskz_mov(knot(b), a)` path: lanes cleared exactly where the mask is set |
| BitAndNot.Mask32AndNot | simdpp/detail/insn/bit_andnot.h:232-253 | mask_int32 AND-NOT on the scalar, data-pattern and `kandn` paths is `a[i] && !b[i]` |
| BitAndNot.U64AndNot | simdpp/detail/insn/bit_andnot.h:264-281 | uint64 at 128, 256 and 512 bits: byte-wise and 8-byte lane-wise AND-NOT |
| BitAndNot.U64AndNotMask | simdpp/detail/insn/bit_andnot.h:291-312 | uint64 with mask_int64 on every path: lanes cleared exactly where the mask is set |
| BitAndNot.Mask64AndNot | simdpp/detail/insn/bit_andnot.h:322-343 | mask_int64 AND-NOT on every path is `a[i] && !b[i]` |
| BitAndNot.F32AndNot | simdpp/detail/insn/bit_andnot.h:354-380 | float32 acts on bit patterns only: every path, including float32<16> through uint32<16>, is the byte-wise and 4-byte lane-wise AND-NOT |
| BitAndNot.F32AndNotMask | simdpp/detail/insn/bit_andnot.h:390-411 | float32 with mask_float32 on every path: lanes cleared exactly where the mask is set |
| BitAndNot.MaskF32AndNot | simdpp/detail/insn/bit_andnot.h:421-442 | mask_float32 AND-NOT on every path is `a[i] && !b[i]` |
| BitAndNot.F64AndNot | simdpp/detail/insn/bit_andnot.h:452-476 | float64 on bit patterns: every path, the scalar fallback and float64<8> through uint64<8> included, is the byte-wise and 8-byte lane-wise AND-NOT |
| BitAndNot.F64AndNotMask | simdpp/detail/insn/bit_andnot.h:486-507 | float64 with mask_float64 on every path: lanes cleared exactly where the mask is set |
| BitAndNot.MaskF64AndNot | simdpp/detail/insn/bit_andnot.h:517-538 | mask_float64 AND-NOT on every path is `a[i] && !b[i]` |
| Isa.AltivecAndc | simdpp/detail/insn/bit_andnot.h:38-39 | the lane-wise `vec_andc(x, y)` (on bytes, or on float lanes at line 364) is the byte-wise AND-NOT of x and y |
| Isa.Knot | simdpp/detail/insn/bit_andnot.h:217-221 | `_mm512_knot(k)` has one bit per lane of k and each bit is the opposite of k's |
| Isa.MaskzMov | simdpp/detail/insn/bit_andnot.h:217-221 | `_mm512_maskz_mov(k, a)` keeps lane i of a where k[i] is set and makes it zero elsewhere, with one mask bit per lane |
| BitAndNot.NativeAndNot | simdpp/detail/insn/bit_andnot.h:50-54 | the native data overload chosen by element kind and register size is the byte-wise AND-NOT and the lane-wise AND-NOT at that kind's width |
| BitAndNot.NativeAndNotMask | simdpp/detail/insn/bit_andnot.h:74-78 | the native data/mask overload is the AND-NOT with the mask's pattern, clearing exactly the lanes whose mask bit is set |
| BitAndNot.NativeMaskAndNot | simdpp/detail/insn/bit_andnot.h:98-102 | the native mask overload is `a[i] && !b[i]` |
| BitAndNot.VecArrayImpl2 | simdpp/detail/insn/bit_andnot.h:50-54 | the result has as many segments as the operands and segment i is the operation on segment i of each operand |
| BitAndNot.AndNotVec | simdpp/detail/insn/bit_andnot.h:193-197 | a long data vector: segment i is the native AND-NOT of segment i, and the whole result is the byte-wise and lane-wise AND-NOT of the whole operands |
| BitAndNot.AndNotMaskVec | simdpp/detail/insn/bit_andnot.h:224-228 | a long data vector with a mask: segment i is the native overload on segment i, and the whole result clears exactly the lanes whose mask bit is set |
| BitAndNot.MaskAndNotVec | simdpp/detail/insn/bit_andnot.h:255-259 | a long mask: segment i is the native mask AND-NOT of segment i, and the whole result is `a[i] && !b[i]` |
| TestOracle.SizeForType | test/test_case.cc:50-76 | 2 bytes for the uint16 tag, 16 for every 128-bit tag, 32 for every 256-bit tag; any other tag aborts |
| TestOracle.PrecisionForResult | test/test_case.cc:78-89 | the recorded tolerance exactly for the float tags (the four the switch lists), 0 for every integer or unlisted tag |
| TestOracle.CmpEqArrays | test/test_case.cc:138-154 | true exactly when every element of a, walked prec `nextafter` steps towards b's element, equals it |
| TestOracle.FloatElementsCoverPayload | test/test_case.cc:337-345 | the element counts passed to `cmpeq_arrays` for the four float tags cover the whole payload |
| TestOracle.CmpEqResult | test/test_case.cc:326-349 | byte-identical payloads are equal whatever the tolerance; differing payloads are unequal when the tolerance is 0 or the tag is not a float tag; float tags compare elements with the float operations of their own element width |
| TestOracle.ElementWidthFollowsTag | test/test_case.cc:337-345 | the same payload, tolerance and operations can compare equal as float32<4> and unequal as float64<2>, so the element width the tag selects matters |
| TestOracle.TestCase.constructor | test/test_case.cc:36-42 | a new test case has the given name and file, no results, tolerance 0, and its counter at `seqStart`, the first sequence number `reset_seq()` sets |
| TestOracle.TestCase.Push | test/test_case.cc:44-48 | appends exactly one result with the current counter, the current tolerance and the tag's size; the counter goes up by one, earlier results are unchanged; an unlisted tag aborts |
| TestOracle.PairPrecision | test/test_case.cc:402-403 | the tolerance of a pair is the larger of the two sides' `precision_for_result` |
| TestOracle.FirstStructuralMismatch | test/test_case.cc:375-400 | the first index whose lines or tags differ; every earlier pair agrees in both |
| TestOracle.NoReportWhenAllEqual | test/test_case.cc:402-417 | pairs that all compare equal under their tolerance produce no value report |
| TestOracle.ReportWhenUnequal | test/test_case.cc:402-417 | a pair that compares unequal under its tolerance produces a value report |
| TestOracle.ValueMismatchesEmpty | test/test_case.cc:402-418 | no value mismatch is reported exactly when every compared pair is equal under its tolerance |
| TestOracle.ValueMismatchesSound | test/test_case.cc:402-416 | every value report names a compared pair that is unequal under that pair's tolerance, in increasing index order |
| TestOracle.LoopReportsEmpty | test/test_case.cc:373-418 | the comparison loop reports nothing exactly when every pair agrees in line, tag and value |
| TestOracle.CompareResults | test/test_case.cc:373-418 | the loop reports the value mismatches before the first line or tag mismatch, then that mismatch, and is true iff it reported nothing |
| TestOracle.TestEqual | test/test_case.cc:351-419 | a name mismatch, then a count mismatch, is reported alone; otherwise the loop's reports; true exactly when names, counts and every pair's line, tag and value agree |
| ArchDetect.FirstSupported | simdpp/dispatch/get_arch_gcc_builtin_cpu_supports.h:23-50 | the first query in priority order the CPU supports; every query before it is unsupported |
| ArchDetect.DetectedLevel | simdpp/dispatch/get_arch_gcc_builtin_cpu_supports.h:23-50 | the detected level belongs to a supported query and every query above it is unsupported |
| ArchDetect.GetArchGccBuiltinCpuSupports | simdpp/dispatch/get_arch_gcc_builtin_cpu_supports.h:18-54 | when the preprocessor guard holds, the flags of the first supported query and every older one; when it does not, the empty set |
| ArchDetect.DetectWithGcc91 | simdpp/dispatch/get_arch_gcc_builtin_cpu_supports.h:18-54 | under GCC 9.1 the function as written detects nothing, while with the corrected guard it detects the first supported query and every older one (all six flags on an AVX2 CPU) |
| ArchDetect.DetectedDownwardClosed | simdpp/dispatch/get_arch_gcc_builtin_cpu_supports.h:23-50 | a detected flag implies every older flag |
| ArchDetect.Avx2SelectsAll | simdpp/dispatch/get_arch_gcc_builtin_cpu_supports.h:23-29 | AVX2 support yields SSE2, SSE3, SSSE3, SSE4.1, AVX and AVX2 |
| ArchDetect.FirstSupportedDecides | simdpp/dispatch/get_arch_gcc_builtin_cpu_supports.h:23-50 | two CPUs with the same first supported query get the same flags |
| ArchDetect.NoFlagAboveDetected | simdpp/dispatch/get_arch_gcc_builtin_cpu_supports.h:36-40 | without AVX2 and AVX support, neither AVX nor AVX2 is set |
| ArchDetect.NothingSupported | simdpp/dispatch/get_arch_gcc_builtin_cpu_supports.h:48-53 | when no query is supported, the result is empty |
| ArchDetect.GuardAsWrittenRejectsNewerGcc | simdpp/dispatch/get_arch_gcc_builtin_cpu_supports.h:21 | the guard as written accepts GCC 4.8 but rejects GCC 9.1 |
| ArchDetect.GuardIntendedMonotone | simdpp/dispatch/get_arch_gcc_builtin_cpu_supports.h:21 | the corrected guard accepts every compiler newer than one it accepts |

## Left out

- Hardware intrinsics are modelled by their documented bit-level meaning, not by their implementations.
- `SIMDPP_VEC_ARRAY_IMPL2` and the `detail::null` functions are defined outside these files. They are modelled only by what the overloads rely on:
  - element-wise AND-NOT;
  - element-wise AND-NOT with a mask element;
  - per-segment application.
- Mask and data conversions:
  - `mask → data` casts are modelled as the mask's all-ones/all-zeros lane pattern.
  - `data → mask` casts are modelled as "lane non-zero". The two agree on every well-formed pattern, and every pattern the model produces is well-formed.
  - A NULL-backend mask is one truth value per element.
- Floats are handled only by their bit patterns. In `cmpeq_arrays`, `nextafter` and float `==` are parameters (`FloatOps`). Tolerance monotonicity is not stated.
- `simdpp/core/load.h` is not part of this model. It is an aligned load through a dispatcher that is not shown.
- `test/test_case.h` is not part of this model:
  - `reset_seq()` is defined there, so the first sequence number it sets is the constructor parameter `seqStart`. The diagnostic at test/test_case.cc:200 notes that numbers start from one, which is `seqStart` = 1.
  - `TestOracle.TestCase.SetPrecision` stands in for its tolerance setter.
  - The `Type` enumeration is taken as the 21 tags the switches list, plus `Other` for anything else.
- `TestOracle.TestCase.Push`: `std::abort()` on an unlisted tag is modelled as an `aborted` result with nothing recorded. The process itself does not continue.
- The diagnostic text (`fmt_*`, `type_str`, the architecture labels and the file name) is output formatting. Only the list of reports is modelled.
- TestOracle.CmpEqResult: compares the whole payloads, where the source compares the first `size_for_type(ia.type)` bytes. The two agree because every recorded result holds exactly that many bytes (`TestCase.Valid`) and the loop compares only results with the same tag. Payloads of different lengths, which cannot occur, are unequal.
- `Arch` (the flag set type of `simdpp/dispatch/arch.h`) is not part of this model. Only the six x86 flags this function sets are modelled.
- The preprocessor's evaluation of the guard is not modelled as compilation: `ArchDetect.GetArchGccBuiltinCpuSupports` takes the guard's value as an input, and `ArchDetect.GuardAsWritten` and `ArchDetect.GuardIntended` compute it from the compiler version (the input is both `#if` lines together; `ArchDetect.DetectWithGcc91` takes an x86 target, where the second line holds).

## Findings

| source | as written | input that shows it | evidently intended | confidence | as-written member | corrected member |
|---|---|---|---|---|---|---|
| simdpp/dispatch/get_arch_gcc_builtin_cpu_supports.h:21 | `(__GNUC__ >= 4) && (__GNUC_MINOR__ >= 8)` tests the minor version on its own | GCC 9.1 (`__GNUC__` 9, `__GNUC_MINOR__` 1): the guard is false, so detection returns the empty set on a newer compiler than 4.8 | GCC 4.8 or newer: `__GNUC__ > 4 \|\| (__GNUC__ == 4 && __GNUC_MINOR__ >= 8)` | high; not executed | ArchDetect.DetectWithGcc91 | ArchDetect.GuardIntendedMonotone |
