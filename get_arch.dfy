/**
  Run-time detection of the x86 instruction sets with GCC's
  `__builtin_cpu_supports`.

  The builtin's answers are the parameter `supports`; the preprocessor
  guard around the detection (a test of `__GNUC__`/`__GNUC_MINOR__` and of
  `__i386__`/`__amd64__`) is the parameter `guard`, evaluated by the
  compiler. The queries are tried from the most
  capable instruction set down, and the first one the CPU supports selects
  that instruction set together with every older one.
*/
module ArchDetect {

  /** The x86 flags of `Arch`, from the oldest instruction set up. */
  datatype ArchFlag = X86Sse2 | X86Sse3 | X86Ssse3 | X86Sse4_1 | X86Avx | X86Avx2

  /** The position of a flag in SSE2 < SSE3 < SSSE3 < SSE4.1 < AVX < AVX2. */
  function Rank(f: ArchFlag): nat
  {
    match f
    case X86Sse2 => 0
    case X86Sse3 => 1
    case X86Ssse3 => 2
    case X86Sse4_1 => 3
    case X86Avx => 4
    case X86Avx2 => 5
  }

  const AllFlags: set<ArchFlag> := {X86Sse2, X86Sse3, X86Ssse3, X86Sse4_1, X86Avx, X86Avx2}

  /** The builtin's feature names, in the order the chain tries them. */
  const Queries: seq<string> := ["avx2", "avx", "sse4.1", "ssse3", "sse3", "sse2"]

  /** The index in `Queries` of the first supported feature, searching from
      `from`; |Queries| when none is. */
  function FirstSupported(supports: string -> bool, from: nat): (i: nat)
    requires from <= |Queries|
    ensures from <= i <= |Queries|
    ensures i < |Queries| ==> supports(Queries[i])
    ensures forall j :: from <= j < i ==> !supports(Queries[j])
    decreases |Queries| - from
  {
    if from == |Queries| then from
    else if supports(Queries[from]) then from
    else FirstSupported(supports, from + 1)
  }

  /** How many flags the detected instruction set brings: 6 for AVX2 down to
      1 for SSE2, 0 when no query is supported. */
  function DetectedLevel(supports: string -> bool): (l: nat)
    ensures l <= 6
    ensures l > 0 ==> supports(Queries[6 - l])
    ensures forall j :: 0 <= j < 6 - l ==> !supports(Queries[j])
  {
    6 - FirstSupported(supports, 0)
  }

  /** The flags of the lowest `l` instruction sets. */
  function FlagsBelow(l: nat): (s: set<ArchFlag>)
    ensures forall f :: f in s <==> Rank(f) < l
  {
    set f | f in AllFlags && Rank(f) < l
  }

  /** The version test of the preprocessor guard as written:
      `(__GNUC__ >= 4) && (__GNUC_MINOR__ >= 8)`. */
  predicate GuardAsWritten(major: int, minor: int)
  {
    major >= 4 && minor >= 8
  }

  /** The guard as written rejects GCC 9.1 although it accepts the older 4.8:
      it compares the minor number on its own. */
  lemma GuardAsWrittenRejectsNewerGcc()
    ensures GuardAsWritten(4, 8) && !GuardAsWritten(9, 1)
  {
  }

  /** "GCC 4.8 or newer": the version test the guard is meant to make. */
  predicate GuardIntended(major: int, minor: int)
  {
    major > 4 || (major == 4 && minor >= 8)
  }

  /** The intended guard is monotone in the version: a compiler newer than
      an accepted one is accepted. */
  lemma GuardIntendedMonotone(major: int, minor: int, major': int, minor': int)
    requires GuardIntended(major, minor)
    requires major' > major || (major' == major && minor' >= minor)
    ensures GuardIntended(major', minor')
  {
  }

  /** `get_arch_gcc_builtin_cpu_supports`: when the guard holds, the
      if/else-if chain over the queries, each branch adding its flags one at
      a time; otherwise the empty set. */
  method GetArchGccBuiltinCpuSupports(guard: bool, supports: string -> bool)
    returns (arch: set<ArchFlag>)
    ensures !guard ==> arch == {}
    ensures guard ==> arch == FlagsBelow(DetectedLevel(supports))
  {
    arch := {};
    if guard {
      if supports("avx2") {
        arch := arch + {X86Sse2};
        arch := arch + {X86Sse3};
        arch := arch + {X86Ssse3};
        arch := arch + {X86Sse4_1};
        arch := arch + {X86Avx};
        arch := arch + {X86Avx2};
      } else if supports("avx") {
        arch := arch + {X86Sse2};
        arch := arch + {X86Sse3};
        arch := arch + {X86Ssse3};
        arch := arch + {X86Sse4_1};
        arch := arch + {X86Avx};
      } else if supports("sse4.1") {
        arch := arch + {X86Sse2};
        arch := arch + {X86Sse3};
        arch := arch + {X86Ssse3};
        arch := arch + {X86Sse4_1};
      } else if supports("ssse3") {
        arch := arch + {X86Sse2};
        arch := arch + {X86Sse3};
        arch := arch + {X86Ssse3};
      } else if supports("sse3") {
        arch := arch + {X86Sse3};
        arch := arch + {X86Sse2};
      } else if supports("sse2") {
        arch := arch + {X86Sse2};
      }
    }
  }

  /** Detection on x86 with GCC 9.1: the guard as written is false there, so
      nothing is detected; the intended guard holds, so a CPU with AVX2 gets
      every flag. */
  method DetectWithGcc91(supports: string -> bool) returns (asWritten: set<ArchFlag>, intended: set<ArchFlag>)
    ensures asWritten == {}
    ensures supports("avx2") ==> intended == AllFlags
    ensures intended == FlagsBelow(DetectedLevel(supports))
  {
    GuardAsWrittenRejectsNewerGcc();
    asWritten := GetArchGccBuiltinCpuSupports(GuardAsWritten(9, 1), supports);
    intended := GetArchGccBuiltinCpuSupports(GuardIntended(9, 1), supports);
    if supports("avx2") {
      Avx2SelectsAll(supports);
    }
  }

  /** Every detected set is downward closed: a flag implies every older one. */
  lemma DetectedDownwardClosed(supports: string -> bool, f: ArchFlag, g: ArchFlag)
    requires f in FlagsBelow(DetectedLevel(supports)) && Rank(g) <= Rank(f)
    ensures g in FlagsBelow(DetectedLevel(supports))
  {
  }

  /** AVX2 support selects all six flags, whatever the other answers. */
  lemma Avx2SelectsAll(supports: string -> bool)
    requires supports("avx2")
    ensures FlagsBelow(DetectedLevel(supports)) == AllFlags
  {
    assert Queries[0] == "avx2";
    assert DetectedLevel(supports) == 6;
  }

  /** The first supported query alone decides the result: two CPUs that answer
      the queries before it, and it, alike get the same flags. */
  lemma FirstSupportedDecides(s1: string -> bool, s2: string -> bool, i: nat)
    requires i < |Queries| && s1(Queries[i]) && s2(Queries[i])
    requires forall j :: 0 <= j < i ==> !s1(Queries[j]) && !s2(Queries[j])
    ensures DetectedLevel(s1) == DetectedLevel(s2) == 6 - i
  {
  }

  /** No flag above the highest supported query is set; in particular a CPU
      without AVX support never gets the AVX flag. */
  lemma NoFlagAboveDetected(supports: string -> bool)
    requires !supports("avx2") && !supports("avx")
    ensures X86Avx !in FlagsBelow(DetectedLevel(supports))
    ensures X86Avx2 !in FlagsBelow(DetectedLevel(supports))
  {
    assert Queries[0] == "avx2" && Queries[1] == "avx";
  }

  /** No supported query at all: nothing is detected. */
  lemma NothingSupported(supports: string -> bool)
    requires forall j :: 0 <= j < |Queries| ==> !supports(Queries[j])
    ensures FlagsBelow(DetectedLevel(supports)) == {}
  {
    assert FirstSupported(supports, 0) == |Queries|;
  }
}
