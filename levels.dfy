/**
 * The logging levels of `include/rdk_debug.h`: the `rdk_LogLevel` ordinals,
 * the `rdk_logLevelStrings` name table indexed by them, and the 32-bit word
 * with one bit per level that the control table stores for each module.
 */
module Levels {
  import opened Chars

  /** `ENUM_RDK_LOG_COUNT`: the number of levels. */
  const LogCount: nat := 15

  /** An `rdk_LogLevel` ordinal, `ENUM_RDK_LOG_BEGIN` up to but excluding the count. */
  type Level = l: nat | l < LogCount

  const Fatal: Level := 0
  const Error: Level := 1
  const Warn: Level := 2
  const Notice: Level := 3
  const Info: Level := 4
  const Debug: Level := 5
  const Trace1: Level := 6
  const Trace2: Level := 7
  const Trace3: Level := 8
  const Trace4: Level := 9
  const Trace5: Level := 10
  const Trace6: Level := 11
  const Trace7: Level := 12
  const Trace8: Level := 13
  const Trace9: Level := 14

  /** `rdk_logLevelStrings`: entry `i` is the name of level `i`. */
  const LevelStrings: seq<string> := [
    "FATAL", "ERROR", "WARNING", "NOTICE", "INFO", "DEBUG",
    "TRACE1", "TRACE2", "TRACE3", "TRACE4", "TRACE5",
    "TRACE6", "TRACE7", "TRACE8", "TRACE9"
  ]

  /** A `uint32_t` entry of the control table. */
  type Mask = bv32

  /** `1 << l`: the bit of a level in a mask. */
  function Bit(l: nat): (r: Mask)
    requires l < 32
  {
    (1 as bv32) << l
  }

  /** A mask with no bit at or above `ENUM_RDK_LOG_COUNT`. */
  predicate ValidMask(m: Mask) {
    m & 0xFFFF_8000 == 0
  }

  /** `BIT(l)` of a valid mask can only be set for an actual level. */
  lemma ValidMaskBits(m: Mask, l: nat)
    requires ValidMask(m) && l < 32
    requires m & Bit(l) != 0
    ensures l < LogCount
  {
  }

  /** The bit of a level lies within the fifteen levels. */
  lemma LevelBitValid(l: Level)
    ensures ValidMask(Bit(l))
  {
  }

  /** The ordinals run contiguously from FATAL to TRACE9 and the count follows. */
  lemma OrdinalsContiguous()
    ensures Fatal == 0 && Error == 1 && Warn == 2 && Notice == 3 && Info == 4 && Debug == 5
    ensures Trace1 == 6 && Trace9 == 14 && LogCount == Trace9 + 1
  {
  }

  /**
   * The table has one entry per level, entry `i` names level `i`, WARN is
   * spelled "WARNING", and every name is a non-empty upper-case word
   * without white space.
   */
  lemma LevelStringsShape()
    ensures |LevelStrings| == LogCount
    ensures LevelStrings[Fatal] == "FATAL" && LevelStrings[Error] == "ERROR"
    ensures LevelStrings[Warn] == "WARNING" && LevelStrings[Notice] == "NOTICE"
    ensures LevelStrings[Info] == "INFO" && LevelStrings[Debug] == "DEBUG"
    ensures forall l: Level :: Trace1 <= l ==> LevelStrings[l] == "TRACE" + [(l - Trace1 + '1' as int) as char]
    ensures forall i :: 0 <= i < |LevelStrings| ==> LevelStrings[i] != "" && IsUpperCase(LevelStrings[i])
    ensures forall i :: 0 <= i < |LevelStrings| ==> !exists k :: 0 <= k < |LevelStrings[i]| && IsSpace(LevelStrings[i][k])
  {
  }

  /** No two levels share a name, so the name table can be searched either way. */
  lemma LevelStringsDistinct()
    ensures forall i, j :: 0 <= i < j < |LevelStrings| ==> LevelStrings[i] != LevelStrings[j]
  {
  }
}
