/**
 * The control table of `src/rdk_debug_priv.c`: `rdk_g_logControlTbl` holds
 * one level mask per module number, filled from the registry at start-up
 * (`rdk_dbg_priv_LogControlInit`), changed at run time
 * (`rdk_dbg_priv_SetLogLevelString`), described as text
 * (`rdk_dbg_priv_LogQueryOpSysIntf`) and consulted by the gate (`WANT_LOG`,
 * `rdk_dbg_enabled`, `rdk_debug_priv_log_msg`).
 *
 * What the table holds is first defined on values (`seq<Mask>`); the class
 * `LogControl` keeps the array and is proved to compute those values.
 */
module Control {
  import opened Wrappers
  import opened Levels
  import opened LevelParser
  import opened Registry
  import ParseFacts

  // ---------------------------------------------------------------------------
  // The table as a value

  /**
   * The invariant of the table: slot 0, the number of the reserved keys,
   * enables nothing, and no mask has a bit at or above `ENUM_RDK_LOG_COUNT`.
   */
  predicate TableValid(t: seq<Mask>): (r: bool)
    ensures r ==> forall i, l :: 0 <= i < |t| && 0 <= l < 32 && t[i] & Bit(l) != 0 ==> i != 0 && l < LogCount
  {
    |t| > 0 && t[0] == 0 && forall i :: 0 <= i < |t| ==> ValidMask(t[i])
  }

  /** `parseLogConfig(v, &m, &msg)` when the value is set and non-empty; otherwise `m` stays. */
  function Layer(v: Option<string>, m: Mask): (r: Mask) {
    if v.Some? && v.value != "" then Parse(v.value, m).mask else m
  }

  /** `defaultConfig` at start-up: `LOG.RDK.DEFAULT` parsed from 0, or 0 when it is unset or empty. */
  function DefaultMask(nodes: seq<EnvVarNode>): (r: Mask) {
    Layer(ValueOf(nodes, DefaultKey), LogNone)
  }

  /** Slot `i` after start-up: the module's own value layered on the default, for modules 1 to `count`. */
  function InitSlot(nodes: seq<EnvVarNode>, count: int, i: nat): (r: Mask)
    ensures ValidMask(r)
    ensures r != 0 ==> 1 <= i <= count
  {
    LayerValid(ValueOf(nodes, DefaultKey), LogNone);
    LayerValid(ValueOfNumber(nodes, i), DefaultMask(nodes));
    if 1 <= i <= count then Layer(ValueOfNumber(nodes, i), DefaultMask(nodes)) else 0
  }

  /** The whole table after `rdk_dbg_priv_LogControlInit`. */
  function InitTable(nodes: seq<EnvVarNode>, count: int, size: nat): (t: seq<Mask>)
    ensures |t| == size
  {
    seq(size, i requires 0 <= i < size => InitSlot(nodes, count, i))
  }

  /** Layering a value onto a valid mask gives a valid mask. */
  lemma LayerValid(v: Option<string>, m: Mask)
    requires ValidMask(m)
    ensures ValidMask(Layer(v, m))
  {
    if v.Some? && v.value != "" {
      ParseFacts.ParseValid(v.value, m);
    }
  }

  /** Start-up produces a valid table of any non-zero size. */
  lemma InitTableValid(nodes: seq<EnvVarNode>, count: int, size: nat)
    requires size > 0
    ensures TableValid(InitTable(nodes, count, size))
  {
    var t := InitTable(nodes, count, size);
    forall i | 0 <= i < size
      ensures ValidMask(t[i])
    {
      LayerValid(ValueOf(nodes, DefaultKey), LogNone);
      LayerValid(ValueOfNumber(nodes, i), DefaultMask(nodes));
    }
  }

  /**
   * The table after start-up in the registry's terms: slot 0 and the slots
   * past the counter are 0, and every registered module's slot holds its
   * own value layered on the default.
   */
  lemma InitTableModules(st: CacheState, size: nat, name: string)
    requires WellFormed(st) && st.number < size
    ensures InitTable(st.nodes, st.number, size)[0] == 0
    ensures forall i :: st.number < i < size ==> InitTable(st.nodes, st.number, size)[i] == 0
    ensures ValueOf(st.nodes, name).Some? && !Reserved(name) ==>
      InitTable(st.nodes, st.number, size)[NumberOf(st.nodes, name)] ==
        Layer(ValueOf(st.nodes, name), DefaultMask(st.nodes))
  {
    if ValueOf(st.nodes, name).Some? && !Reserved(name) {
      NameRoundTrip(st, name);
      var n := NumberOf(st.nodes, name);
      assert IndexOfNumber(st.nodes, n) == IndexOfName(st.nodes, name) by {
        IndexOfNameDistinct(st, IndexOfNumber(st.nodes, n));
      }
    }
  }

  /**
   * The documented layering: with `LOG.RDK.DEFAULT` set to the name of level
   * `d` and a module set to the name of level `l`, the module's slot enables
   * exactly `d` and `l`.
   */
  lemma InitDefaultThenModule(nodes: seq<EnvVarNode>, count: int, i: nat, d: Level, l: Level)
    requires 1 <= i <= count
    requires ValueOf(nodes, DefaultKey) == Some(LevelStrings[d])
    requires ValueOfNumber(nodes, i) == Some(LevelStrings[l])
    ensures InitSlot(nodes, count, i) == Bit(d) | Bit(l)
  {
    assert DefaultMask(nodes) == Bit(d) by {
      ParseFacts.ParseLevelName(d, LogNone);
      assert LogNone | Bit(d) == Bit(d);
    }
    ParseFacts.ParseLevelName(l, Bit(d));
  }

  // ---------------------------------------------------------------------------
  // Run-time changes

  /** `LOG.RDK.DEFAULT` at run time: slots 1 to `count` get the expression parsed from 0. */
  function SetDefault(t: seq<Mask>, count: int, levels: string): (r: seq<Mask>)
    ensures |r| == |t|
  {
    seq(|t|, i requires 0 <= i < |t| => if 1 <= i <= count then Parse(levels, LogNone).mask else t[i])
  }

  /** The first module number from `mod` to `count` whose name is `name`, or -1. */
  function FindModule(nodes: seq<EnvVarNode>, name: string, mod: nat, count: int): (r: int)
    ensures r == -1 || (mod <= r <= count && NameOfNumber(nodes, r) == Some(name))
    ensures forall k :: mod <= k <= count && (r == -1 || k < r) ==> NameOfNumber(nodes, k) != Some(name)
    decreases count - mod
  {
    if mod > count then -1
    else if NameOfNumber(nodes, mod) == Some(name) then mod
    else FindModule(nodes, name, mod + 1, count)
  }

  /** The table and the success flag after `rdk_dbg_priv_SetLogLevelString(name, levels)`. */
  function SetLevel(nodes: seq<EnvVarNode>, count: int, t: seq<Mask>, name: string, levels: string): (r: (seq<Mask>, bool))
    requires count < |t|
    ensures |r.0| == |t|
    ensures !r.1 ==> r.0 == t
    ensures forall i :: 0 <= i < |t| && (i == 0 || i > count) ==> r.0[i] == t[i]
  {
    if name == DefaultKey then (SetDefault(t, count, levels), true)
    else if levels == "" then (t, false)
    else
      var k := FindModule(nodes, name, 1, count);
      if k < 0 then (t, false) else (t[k := Parse(levels, t[k]).mask], true)
  }

  /** In a well-formed registry the search by name finds exactly the module's own number. */
  lemma FindModuleNumber(st: CacheState, name: string)
    requires WellFormed(st)
    ensures FindModule(st.nodes, name, 1, st.number) ==
      if ValueOf(st.nodes, name).Some? && !Reserved(name) then NumberOf(st.nodes, name) else -1
  {
    var r := FindModule(st.nodes, name, 1, st.number);
    if r != -1 {
      NumberRoundTrip(st, r);
      NumberOfOthers(st, name);
    }
    if ValueOf(st.nodes, name).Some? && !Reserved(name) {
      NameRoundTrip(st, name);
    }
  }

  /** Setting `LOG.RDK.DEFAULT` succeeds and overwrites slots 1 to `count`; an empty expression zeroes them. */
  lemma SetDefaultEffect(nodes: seq<EnvVarNode>, count: int, t: seq<Mask>, levels: string)
    requires count < |t|
    ensures SetLevel(nodes, count, t, DefaultKey, levels).1
    ensures forall i :: 0 <= i < |t| ==>
      SetLevel(nodes, count, t, DefaultKey, levels).0[i] ==
        if 1 <= i <= count then Parse(levels, LogNone).mask else t[i]
    ensures Chars.AllSpace(levels) ==>
      forall i :: 1 <= i <= count ==> SetLevel(nodes, count, t, DefaultKey, levels).0[i] == 0
  {
    ParseFacts.EmptyExpression(levels, LogNone);
  }

  /**
   * Setting a registered module with a non-empty expression succeeds and
   * changes only that module's slot, which gets the expression layered on
   * its current mask.
   */
  lemma SetModuleEffect(st: CacheState, t: seq<Mask>, name: string, levels: string)
    requires WellFormed(st) && st.number < |t|
    requires name != DefaultKey && ValueOf(st.nodes, name).Some? && !Reserved(name) && levels != ""
    ensures 1 <= NumberOf(st.nodes, name) <= st.number
    ensures SetLevel(st.nodes, st.number, t, name, levels) ==
      (t[NumberOf(st.nodes, name) := Parse(levels, t[NumberOf(st.nodes, name)]).mask], true)
  {
    FindModuleNumber(st, name);
    NameRoundTrip(st, name);
  }

  /** An unknown name, a reserved key other than the default, or an empty expression changes nothing and fails. */
  lemma SetOtherEffect(st: CacheState, t: seq<Mask>, name: string, levels: string)
    requires WellFormed(st) && st.number < |t| && name != DefaultKey
    requires ValueOf(st.nodes, name).None? || Reserved(name) || levels == ""
    ensures SetLevel(st.nodes, st.number, t, name, levels) == (t, false)
  {
    FindModuleNumber(st, name);
  }

  /** Run-time changes keep the table valid. */
  lemma SetLevelValid(nodes: seq<EnvVarNode>, count: int, t: seq<Mask>, name: string, levels: string)
    requires count < |t| && TableValid(t)
    ensures TableValid(SetLevel(nodes, count, t, name, levels).0)
  {
    ParseFacts.ParseValid(levels, LogNone);
    if name != DefaultKey && levels != "" {
      var k := FindModule(nodes, name, 1, count);
      if k >= 0 {
        ParseFacts.ParseValid(levels, t[k]);
      }
    }
  }

  // ---------------------------------------------------------------------------
  // Describing a mask

  const UnknownModuleMsg: string := "Unknown module specified."
  const OkMsg: string := "OK"
  const TooLongMsg: string := "Warning: Config string too long, config concatenated."
  const NoneStr: string := "NONE"

  /** What `rdk_dbg_priv_LogQueryOpSysIntf` leaves in `cfgStr` and returns. */
  datatype QueryResult = QueryResult(cfgStr: string, reply: string)

  /** Which of the bits 0 to `ENUM_RDK_LOG_COUNT` a mask has, as the query loop tests them. */
  function LevelsSet(m: Mask): (b: seq<bool>)
    ensures |b| == LogCount + 1
  {
    seq(LogCount + 1, l requires 0 <= l < LogCount + 1 => m & Bit(l) != 0)
  }

  /** The flag of level `l` is the loop's test of bit `l`. */
  lemma LevelsSetAt(m: Mask, l: nat)
    requires l <= LogCount
    ensures LevelsSet(m)[l] == (m & Bit(l) != 0)
  {
  }

  /** Bit `ENUM_RDK_LOG_COUNT` of a valid mask is clear, so the loop's last test never finds a name to read. */
  lemma TopBitClear(m: Mask)
    requires ValidMask(m)
    ensures !LevelsSet(m)[LogCount]
  {
  }

  /** The bits the loop tests, of which the one past the levels is clear. */
  predicate LevelFlags(bits: seq<bool>) {
    |bits| == LogCount + 1 && !bits[LogCount]
  }

  /** A name table with an entry for every level, such as `rdk_logLevelStrings`. */
  predicate NameTable(table: seq<string>) {
    |table| == LogCount
  }

  /** The reference listing: the names of the set levels from `level` on, ascending, each after a space. */
  function Names(table: seq<string>, bits: seq<bool>, level: nat): (r: string)
    requires NameTable(table) && LevelFlags(bits) && level <= LogCount
    ensures r == "" <==> forall k :: level <= k < LogCount ==> !bits[k]
    ensures r != "" ==> r[0] == ' '
    decreases LogCount - level
  {
    if level == LogCount then ""
    else (if bits[level] then " " + table[level] else "") + Names(table, bits, level + 1)
  }

  /**
   * The query loop from `level` to `ENUM_RDK_LOG_COUNT` inclusive, with
   * `cfg` built so far and room for `limit` characters. Before a name is
   * appended the length check charges `sep` for the separating space: 0 as
   * written, 1 when the space is counted.
   */
  function Listing(table: seq<string>, bits: seq<bool>, level: nat, cfg: string, limit: int, sep: nat): (r: QueryResult)
    requires NameTable(table) && LevelFlags(bits) && level <= LogCount + 1
    ensures cfg <= r.cfgStr
    decreases LogCount + 1 - level
  {
    if level > LogCount then QueryResult(cfg, OkMsg)
    else if !bits[level] then Listing(table, bits, level + 1, cfg, limit, sep)
    else if |cfg| + |table[level]| + sep > limit then QueryResult(cfg, TooLongMsg)
    else Listing(table, bits, level + 1, cfg + " " + table[level], limit, sep)
  }

  /** The loop answers one of the two replies. */
  lemma {:induction false} ListingReply(table: seq<string>, bits: seq<bool>, level: nat, cfg: string, limit: int, sep: nat)
    requires NameTable(table) && LevelFlags(bits) && level <= LogCount + 1
    ensures Listing(table, bits, level, cfg, limit, sep).reply in {OkMsg, TooLongMsg}
    decreases LogCount + 1 - level
  {
    if level <= LogCount {
      ListingReply(table, bits, level + 1, cfg, limit, sep);
      if level < LogCount {
        ListingReply(table, bits, level + 1, cfg + " " + table[level], limit, sep);
      }
    }
  }

  /**
   * The loop answers OK exactly when every length check passes, which is
   * when the rest of the listing is empty or, counting `sep`, it ends at
   * most one character over `limit`.
   */
  lemma {:induction false} ListingOk(table: seq<string>, bits: seq<bool>, level: nat, cfg: string, limit: int, sep: nat)
    requires NameTable(table) && LevelFlags(bits) && level <= LogCount
    ensures Listing(table, bits, level, cfg, limit, sep).reply == OkMsg <==>
      Names(table, bits, level) == "" || |cfg| + |Names(table, bits, level)| + sep <= limit + 1
    decreases LogCount - level
  {
    if level < LogCount {
      var cfg' := if bits[level] then cfg + " " + table[level] else cfg;
      ListingOk(table, bits, level + 1, cfg', limit, sep);
      assert |cfg'| + |Names(table, bits, level + 1)| == |cfg| + |Names(table, bits, level)|;
    }
  }

  /** When the loop answers OK it has built the whole listing. */
  lemma {:induction false} ListingWhole(table: seq<string>, bits: seq<bool>, level: nat, cfg: string, limit: int, sep: nat)
    requires NameTable(table) && LevelFlags(bits) && level <= LogCount
    ensures Listing(table, bits, level, cfg, limit, sep).reply == OkMsg ==>
      Listing(table, bits, level, cfg, limit, sep).cfgStr == cfg + Names(table, bits, level)
    decreases LogCount - level
  {
    if level < LogCount {
      var rest := Names(table, bits, level + 1);
      if bits[level] {
        ListingWhole(table, bits, level + 1, cfg + " " + table[level], limit, sep);
        assert (cfg + " " + table[level]) + rest == cfg + ((" " + table[level]) + rest);
      } else {
        ListingWhole(table, bits, level + 1, cfg, limit, sep);
        assert "" + rest == rest;
      }
    }
  }

  /** What the loop has built is always a prefix of the whole listing. */
  lemma {:induction false} ListingPrefix(table: seq<string>, bits: seq<bool>, level: nat, cfg: string, limit: int, sep: nat)
    requires NameTable(table) && LevelFlags(bits) && level <= LogCount
    ensures cfg <= Listing(table, bits, level, cfg, limit, sep).cfgStr <= cfg + Names(table, bits, level)
    decreases LogCount - level
  {
    if level < LogCount {
      var cfg' := if bits[level] then cfg + " " + table[level] else cfg;
      var all := cfg + Names(table, bits, level);
      assert cfg' + Names(table, bits, level + 1) == all;
      var r := Listing(table, bits, level, cfg, limit, sep).cfgStr;
      if r != cfg {
        ListingPrefix(table, bits, level + 1, cfg', limit, sep);
        assert r == Listing(table, bits, level + 1, cfg', limit, sep).cfgStr;
        assert cfg' <= r <= all;
        assert cfg == cfg'[..|cfg|];
      }
    }
  }

  /** The loop never builds more than the length check allows, once it starts within it. */
  lemma {:induction false} ListingBound(table: seq<string>, bits: seq<bool>, level: nat, cfg: string, limit: int, sep: nat)
    requires NameTable(table) && LevelFlags(bits) && level <= LogCount
    requires |cfg| + sep <= limit + 1
    ensures |Listing(table, bits, level, cfg, limit, sep).cfgStr| + sep <= limit + 1
    decreases LogCount - level
  {
    if level < LogCount {
      if !bits[level] {
        ListingBound(table, bits, level + 1, cfg, limit, sep);
      } else if |cfg| + |table[level]| + sep <= limit {
        ListingBound(table, bits, level + 1, cfg + " " + table[level], limit, sep);
      }
    }
  }

  /** The query loop over the whole control word `m`. */
  function MaskListing(m: Mask, limit: int, sep: nat): (r: QueryResult)
    requires ValidMask(m)
    ensures r.reply in {OkMsg, TooLongMsg}
    ensures r.cfgStr <= MaskNames(m)
    ensures r.reply == OkMsg ==> r.cfgStr == MaskNames(m)
  {
    TopBitClear(m);
    ListingReply(LevelStrings, LevelsSet(m), 0, "", limit, sep);
    ListingPrefix(LevelStrings, LevelsSet(m), 0, "", limit, sep);
    ListingWhole(LevelStrings, LevelsSet(m), 0, "", limit, sep);
    Listing(LevelStrings, LevelsSet(m), 0, "", limit, sep)
  }

  /** What the query returns for module `name` over table `t` with a buffer of `maxLen` bytes. */
  function Query(nodes: seq<EnvVarNode>, t: seq<Mask>, name: string, maxLen: int, sep: nat): (r: QueryResult)
    requires NumberOf(nodes, name) < |t| && forall i :: 0 <= i < |t| ==> ValidMask(t[i])
    ensures r.reply in {OkMsg, TooLongMsg, UnknownModuleMsg}
    ensures r.reply == UnknownModuleMsg <==> NumberOf(nodes, name) < 0
  {
    var mod := NumberOf(nodes, name);
    if mod < 0 then QueryResult("", UnknownModuleMsg)
    else if t[mod] == 0 then QueryResult(NoneStr, OkMsg)
    else MaskListing(t[mod], maxLen - 1, sep)
  }

  /**
   * The loop of `rdk_dbg_priv_LogQueryOpSysIntf` over a control word: each
   * set bit from 0 to `ENUM_RDK_LOG_COUNT` appends a space and the level's
   * name, unless the length check (as written, without the space) fails.
   */
  method DescribeLevels(modCfg: Mask, limit: int) returns (cfgStr: string, reply: string)
    requires ValidMask(modCfg)
    ensures QueryResult(cfgStr, reply) == MaskListing(modCfg, limit, 0)
  {
    TopBitClear(modCfg);
    ghost var bits := LevelsSet(modCfg);
    cfgStr := "";
    var level := 0;
    while level <= LogCount
      invariant 0 <= level <= LogCount + 1
      invariant Listing(LevelStrings, bits, level, cfgStr, limit, 0) == Listing(LevelStrings, bits, 0, "", limit, 0)
      decreases LogCount + 1 - level
    {
      LevelsSetAt(modCfg, level);
      if modCfg & Bit(level) != 0 {
        if |cfgStr| + |LevelStrings[level]| > limit {
          return cfgStr, TooLongMsg;
        }
        cfgStr := cfgStr + " " + LevelStrings[level];
      }
      level := level + 1;
    }
    reply := OkMsg;
  }

  /** The names of the levels a valid mask enables, ascending, each after a space. */
  function MaskNames(m: Mask): (r: string)
    requires ValidMask(m)
  {
    TopBitClear(m);
    Names(LevelStrings, LevelsSet(m), 0)
  }

  /**
   * The query as written: an unknown module is reported, a zero mask reads
   * "NONE"; otherwise the names of the set levels are listed in ascending
   * order and, on OK, the listing is complete; on the warning it is a
   * prefix of the complete listing. The listing can reach `maxLen`
   * characters, one more than the buffer holds beside its NUL.
   */
  lemma QuerySpec(nodes: seq<EnvVarNode>, t: seq<Mask>, name: string, maxLen: int)
    requires NumberOf(nodes, name) < |t| && forall i :: 0 <= i < |t| ==> ValidMask(t[i])
    requires maxLen > 32
    ensures NumberOf(nodes, name) < 0 ==> Query(nodes, t, name, maxLen, 0) == QueryResult("", UnknownModuleMsg)
    ensures NumberOf(nodes, name) >= 0 && t[NumberOf(nodes, name)] == 0 ==>
      Query(nodes, t, name, maxLen, 0) == QueryResult(NoneStr, OkMsg)
    ensures NumberOf(nodes, name) >= 0 && t[NumberOf(nodes, name)] != 0 ==>
      var r := Query(nodes, t, name, maxLen, 0);
      var all := MaskNames(t[NumberOf(nodes, name)]);
      && r.reply in {OkMsg, TooLongMsg}
      && r.cfgStr <= all
      && (r.reply == OkMsg <==> |all| <= maxLen)
      && (r.reply == OkMsg ==> r.cfgStr == all)
      && |r.cfgStr| <= maxLen
  {
    var mod := NumberOf(nodes, name);
    if mod >= 0 && t[mod] != 0 {
      TopBitClear(t[mod]);
      ListingReply(LevelStrings, LevelsSet(t[mod]), 0, "", maxLen - 1, 0);
      ListingOk(LevelStrings, LevelsSet(t[mod]), 0, "", maxLen - 1, 0);
      ListingWhole(LevelStrings, LevelsSet(t[mod]), 0, "", maxLen - 1, 0);
      ListingPrefix(LevelStrings, LevelsSet(t[mod]), 0, "", maxLen - 1, 0);
      ListingBound(LevelStrings, LevelsSet(t[mod]), 0, "", maxLen - 1, 0);
    }
  }

  /** The query with the space counted: every answer fits the buffer beside its NUL. */
  lemma QueryFits(nodes: seq<EnvVarNode>, t: seq<Mask>, name: string, maxLen: int)
    requires NumberOf(nodes, name) < |t| && forall i :: 0 <= i < |t| ==> ValidMask(t[i])
    requires maxLen > 32
    ensures |Query(nodes, t, name, maxLen, 1).cfgStr| < maxLen
    ensures NumberOf(nodes, name) >= 0 && t[NumberOf(nodes, name)] != 0 ==>
      var r := Query(nodes, t, name, maxLen, 1);
      var all := MaskNames(t[NumberOf(nodes, name)]);
      && r.cfgStr <= all
      && (r.reply == OkMsg <==> |all| < maxLen)
      && (r.reply == OkMsg ==> r.cfgStr == all)
  {
    var mod := NumberOf(nodes, name);
    if mod >= 0 && t[mod] != 0 {
      TopBitClear(t[mod]);
      ListingReply(LevelStrings, LevelsSet(t[mod]), 0, "", maxLen - 1, 1);
      ListingOk(LevelStrings, LevelsSet(t[mod]), 0, "", maxLen - 1, 1);
      ListingWhole(LevelStrings, LevelsSet(t[mod]), 0, "", maxLen - 1, 1);
      ListingPrefix(LevelStrings, LevelsSet(t[mod]), 0, "", maxLen - 1, 1);
      ListingBound(LevelStrings, LevelsSet(t[mod]), 0, "", maxLen - 1, 1);
    }
  }

  /** The levels of mask 0x2F: FATAL, ERROR, WARNING, NOTICE and DEBUG. */
  const Flags2F: seq<bool> := [true, true, true, true, false, true, false, false, false, false, false, false, false, false, false, false]

  lemma LevelsSet2F()
    ensures LevelsSet(0x2F) == Flags2F
  {
  }

  /** The full listing of mask 0x2F is 33 characters long. */
  lemma Names2F()
    ensures LevelFlags(Flags2F)
    ensures |Names(LevelStrings, Flags2F, 0)| == 33
  {
    var f := Flags2F;
    assert Names(LevelStrings, f, 6) == "";
    assert |Names(LevelStrings, f, 4)| == 6;
    assert |Names(LevelStrings, f, 3)| == 13;
    assert |Names(LevelStrings, f, 2)| == 21;
    assert |Names(LevelStrings, f, 1)| == 27;
  }

  /**
   * The overrun as written: FATAL, ERROR, WARNING, NOTICE and DEBUG (mask
   * 0x2F) with the smallest buffer the query accepts, 33 bytes, are listed
   * in full as 33 characters, so the NUL lands one byte past the buffer.
   */
  lemma QueryOverrun()
    ensures |MaskNames(0x2F)| == 33
    ensures MaskListing(0x2F, 32, 0) == QueryResult(MaskNames(0x2F), OkMsg)
  {
    LevelsSet2F();
    Names2F();
    ListingOk(LevelStrings, Flags2F, 0, "", 32, 0);
    ListingWhole(LevelStrings, Flags2F, 0, "", 32, 0);
  }

  /**
   * With the space counted, the same query stops before DEBUG and reports
   * the truncation, having listed FATAL, ERROR, WARNING and NOTICE in 27
   * characters.
   */
  lemma QueryCheckedStops()
    ensures MaskListing(0x2F, 32, 1).reply == TooLongMsg
    ensures |MaskListing(0x2F, 32, 1).cfgStr| == 27
    ensures MaskListing(0x2F, 32, 1).cfgStr <= MaskNames(0x2F)
  {
    LevelsSet2F();
    CheckedStopsFrom0();
    ListingPrefix(LevelStrings, Flags2F, 0, "", 32, 1);
  }

  lemma CheckedStopsFrom0()
    ensures Listing(LevelStrings, Flags2F, 0, "", 32, 1).reply == TooLongMsg
    ensures |Listing(LevelStrings, Flags2F, 0, "", 32, 1).cfgStr| == 27
  {
    var c1 := " " + LevelStrings[Fatal];
    var c2 := c1 + " " + LevelStrings[Error];
    assert Listing(LevelStrings, Flags2F, 0, "", 32, 1) == Listing(LevelStrings, Flags2F, 1, c1, 32, 1);
    assert Listing(LevelStrings, Flags2F, 1, c1, 32, 1) == Listing(LevelStrings, Flags2F, 2, c2, 32, 1);
    CheckedStopsFrom2(c2);
  }

  /** The tail of that query: WARNING and NOTICE fit, DEBUG does not. */
  lemma CheckedStopsFrom2(c2: string)
    requires |c2| == 12
    ensures Listing(LevelStrings, Flags2F, 2, c2, 32, 1).reply == TooLongMsg
    ensures |Listing(LevelStrings, Flags2F, 2, c2, 32, 1).cfgStr| == 27
  {
    var c4 := c2 + " " + LevelStrings[Warn] + " " + LevelStrings[Notice];
    assert |c4| == 27;
    assert Listing(LevelStrings, Flags2F, 2, c2, 32, 1) == Listing(LevelStrings, Flags2F, 4, c4, 32, 1);
    assert Listing(LevelStrings, Flags2F, 4, c4, 32, 1) == QueryResult(c4, TooLongMsg);
  }

  // ---------------------------------------------------------------------------
  // The gate

  /** `WANT_LOG(mod, lvl)`: bit `lvl` of slot `mod`; the macro does no bounds check, so the caller must. */
  function WantLog(t: seq<Mask>, mod: int, lvl: nat): (b: bool)
    requires 0 <= mod < |t| && lvl < 32
    requires TableValid(t)
    ensures b ==> mod != 0 && lvl < LogCount
  {
    if t[mod] & Bit(lvl) != 0 then ValidMaskBits(t[mod], lvl); true else false
  }

  /**
   * `rdk_dbg_enabled` hands `WANT_LOG` the number `rdk_logger_envGetNum`
   * reports, which is -1 for a name that is not registered: outside the
   * table, whatever its size.
   */
  lemma UnknownModuleIndex(st: CacheState, t: seq<Mask>, moduleName: string)
    requires WellFormed(st) && ValueOf(st.nodes, moduleName).None?
    ensures NumberOf(st.nodes, moduleName) == -1
    ensures !(0 <= NumberOf(st.nodes, moduleName) < |t|)
  {
    NumberOfOthers(st, moduleName);
  }

  /** The example of an empty registry: any module name reads index -1. */
  lemma UnknownModuleExample()
    ensures NumberOf([], "LOG.RDK.UNKNOWN") == -1
  {
  }

  /** The log4c priorities `rdk_debug_priv_log_msg` maps the levels to. */
  datatype Priority = PriorityFatal | PriorityError | PriorityWarn | PriorityNotice
                    | PriorityInfo | PriorityDebug | PriorityTrace

  /** The level switch of `rdk_debug_priv_log_msg`: TRACE1 to TRACE9 share one priority, anything else is DEBUG. */
  function PriorityOf(level: nat): (p: Priority)
    ensures p == PriorityTrace <==> Trace1 <= level <= Trace9
    ensures p == PriorityDebug <==> level == Debug || level >= LogCount
    ensures level == Fatal <==> p == PriorityFatal
    ensures level == Error <==> p == PriorityError
    ensures level == Warn <==> p == PriorityWarn
    ensures level == Notice <==> p == PriorityNotice
    ensures level == Info <==> p == PriorityInfo
  {
    if level == Fatal then PriorityFatal
    else if level == Error then PriorityError
    else if level == Warn then PriorityWarn
    else if level == Notice then PriorityNotice
    else if level == Info then PriorityInfo
    else if level == Debug then PriorityDebug
    else if level <= Trace9 then PriorityTrace
    else PriorityDebug
  }

  // ---------------------------------------------------------------------------
  // The table in place

  /** `rdk_g_logControlTbl` of `RDK_MAX_MOD_COUNT` slots, and `g_debugEnabled`. */
  class LogControl {
    const tbl: array<Mask>
    var debugEnabled: bool

    ghost predicate Valid()
      reads this, tbl
    {
      TableValid(tbl[..])
    }

    /** The zeroed static table of `size` slots, with messages enabled as `g_debugEnabled` starts. */
    constructor (size: nat)
      requires size > 0
      ensures Valid() && tbl.Length == size && fresh(tbl)
      ensures tbl[..] == seq(size, i => 0) && debugEnabled
    {
      tbl := new Mask[size](i => 0);
      debugEnabled := true;
    }

    /**
     * `rdk_dbg_priv_LogControlInit`: zero the table, copy the default into
     * slots 1 to `global_count`, then layer each module's own value on top.
     */
    method LogControlInit(reg: EnvCache)
      requires Valid() && reg.Valid() && reg.globalCount < tbl.Length
      modifies tbl
      ensures Valid()
      ensures tbl[..] == InitTable(reg.nodes, reg.globalCount, tbl.Length)
    {
      forall i | 0 <= i < tbl.Length {
        tbl[i] := 0;
      }
      var count := reg.globalCount;
      var defaultConfig: Mask := LogNone;
      var envVarValue := reg.EnvGet(DefaultKey);
      if envVarValue.Some? && envVarValue.value != "" {
        var rc, msg;
        rc, defaultConfig, msg := ParseLogConfig(envVarValue.value, defaultConfig);
        CopyToModules(defaultConfig, count);
      }
      assert forall i :: 0 <= i < tbl.Length ==> tbl[i] == if 1 <= i <= count then DefaultMask(reg.nodes) else 0;
      LayerModules(reg, count);
      assert tbl[..] == InitTable(reg.nodes, count, tbl.Length);
      InitTableValid(reg.nodes, count, tbl.Length);
    }

    /** The copy loop of start-up and of a run-time default: slots 1 to `count` get `config`. */
    method CopyToModules(config: Mask, count: int)
      requires 0 <= count < tbl.Length
      modifies tbl
      ensures forall i :: 0 <= i < tbl.Length ==> tbl[i] == if 1 <= i <= count then config else old(tbl[i])
    {
      var mod := 1;
      while mod <= count
        invariant 1 <= mod <= count + 1
        invariant forall i :: 0 <= i < tbl.Length ==> tbl[i] == if 1 <= i < mod then config else old(tbl[i])
      {
        tbl[mod] := config;
        mod := mod + 1;
      }
    }

    /** The second loop of start-up: each module's own non-empty value is parsed onto its slot. */
    method LayerModules(reg: EnvCache, count: int)
      requires 0 <= count < tbl.Length
      modifies tbl
      ensures forall i :: 0 <= i < tbl.Length ==>
        tbl[i] == if 1 <= i <= count then Layer(ValueOfNumber(reg.nodes, i), old(tbl[i])) else old(tbl[i])
    {
      var mod := 1;
      while mod <= count
        invariant 1 <= mod <= count + 1
        invariant forall i :: 0 <= i < tbl.Length ==>
          tbl[i] == if 1 <= i < mod then Layer(ValueOfNumber(reg.nodes, i), old(tbl[i])) else old(tbl[i])
      {
        var value := reg.EnvGetValueFromNum(mod);
        if value.Some? && value.value != "" {
          var rc, entry, msg := ParseLogConfig(value.value, tbl[mod]);
          tbl[mod] := entry;
        }
        mod := mod + 1;
      }
    }

    /**
     * `rdk_dbg_priv_SetLogLevelString`: the default is parsed from 0 into
     * slots 1 to `global_count`; otherwise the first module number with
     * that name gets a non-empty expression layered onto its slot. `ok`
     * tells the success message from the failure message.
     */
    method SetLogLevelString(reg: EnvCache, moduleName: string, logLevels: string) returns (ok: bool)
      requires Valid() && reg.Valid() && reg.globalCount < tbl.Length
      modifies tbl
      ensures Valid()
      ensures (tbl[..], ok) == SetLevel(reg.nodes, reg.globalCount, old(tbl[..]), moduleName, logLevels)
    {
      SetLevelValid(reg.nodes, reg.globalCount, tbl[..], moduleName, logLevels);
      var count := reg.globalCount;
      if moduleName == DefaultKey {
        var rc, defaultConfig, msg := ParseLogConfig(logLevels, LogNone);
        CopyToModules(defaultConfig, count);
        assert tbl[..] == SetDefault(old(tbl[..]), count, logLevels);
        return true;
      }
      var mod := 1;
      while mod <= count
        invariant 1 <= mod <= count + 1
        invariant tbl[..] == old(tbl[..])
        invariant logLevels != "" ==> FindModule(reg.nodes, moduleName, mod, count) == FindModule(reg.nodes, moduleName, 1, count)
      {
        var envVarName := reg.EnvGetModFromNum(mod);
        if envVarName == Some(moduleName) && logLevels != "" {
          var rc, entry, msg := ParseLogConfig(logLevels, tbl[mod]);
          tbl[mod] := entry;
          return true;
        }
        mod := mod + 1;
      }
      return false;
    }

    /**
     * `rdk_dbg_priv_LogQueryOpSysIntf`, as written: upper-cases the caller's
     * module name in place, looks it up and describes its slot.
     */
    method LogQueryOpSysIntf(reg: EnvCache, modName: array<char>, cfgStrMaxLen: int) returns (cfgStr: string, reply: string)
      requires Valid() && reg.Valid() && reg.globalCount < tbl.Length
      requires cfgStrMaxLen > 32
      // Always true, since the element types differ; Dafny's frame reasoning does not derive it from the types.
      requires modName as object != tbl as object
      modifies modName
      ensures modName[..] == Chars.Upper(old(modName[..]))
      ensures NumberOf(reg.nodes, modName[..]) < tbl.Length
      ensures QueryResult(cfgStr, reply) == Query(reg.nodes, tbl[..], modName[..], cfgStrMaxLen, 0)
    {
      var limit := cfgStrMaxLen - 1;
      cfgStr := "";
      ForceUpperCase(modName);
      assert TableValid(tbl[..]);
      NumberOfRange(reg.State(), modName[..]);
      var mod := reg.EnvGetNum(modName[..]);
      if mod < 0 {
        return cfgStr, UnknownModuleMsg;
      }
      var modCfg := tbl[mod];
      if modCfg == 0 {
        return NoneStr, OkMsg;
      }
      assert modCfg == tbl[..][mod];
      cfgStr, reply := DescribeLevels(modCfg, limit);
    }

    /**
     * `rdk_dbg_enabled` with the index checked: true exactly when the name
     * has a module number and that slot enables the level; so never for an
     * unknown name or a reserved key.
     */
    function DbgEnabled(reg: EnvCache, moduleName: string, level: Level): (b: bool)
      reads this, tbl, reg
      requires Valid() && reg.Valid() && reg.globalCount < tbl.Length
      ensures b <==> var n := NumberOf(reg.nodes, moduleName); 1 <= n <= reg.globalCount && tbl[n] & Bit(level) != 0
      ensures b ==> ValueOf(reg.nodes, moduleName).Some? && !Reserved(moduleName)
    {
      NumberOfRange(reg.State(), moduleName);
      NumberOfOthers(reg.State(), moduleName);
      var number := NumberOf(reg.nodes, moduleName);
      0 <= number && WantLog(tbl[..], number, level)
    }

    /**
     * The gate of `rdk_debug_priv_log_msg` and its level switch: the
     * priority a line is logged at, or nothing when messages are disabled or
     * the slot does not enable the level. `mod` is what `rdk_dbg_MsgRaw`
     * gets from `rdk_logger_envGetNum`, -1 for an unregistered name. With
     * messages disabled the gate returns before the table is read; with
     * them enabled the source reads slot -1, which the model answers, as
     * intended, with no output. The switch's default case is never reached.
     */
    function LogMsg(level: nat, mod: int): (p: Option<Priority>)
      reads this, tbl
      requires Valid() && -1 <= mod < tbl.Length && level < 32
      ensures p.Some? <==> debugEnabled && 0 <= mod && tbl[mod] & Bit(level) != 0
      ensures !debugEnabled || mod == -1 ==> p.None?
      ensures p.Some? ==> mod != 0 && level < LogCount && p.value == PriorityOf(level)
    {
      if !debugEnabled then None
      else if mod < 0 || !WantLog(tbl[..], mod, level) then None
      else Some(PriorityOf(level))
    }
  }
}
