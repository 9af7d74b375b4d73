/**
 * The configuration registry of `src/rdk_logger_util.c`: the `key = value`
 * lines of the configuration file, cached in a linked list with a number for
 * every module, and the four lookups the rest of the logger relies on.
 *
 * The list is a `seq` whose first element is the head of the list; every
 * insertion is at the front. `CacheState` with `AddEntry`, `AddLine` and
 * `AddLines` is the meaning of reading a file, and `WellFormed` is the
 * invariant it keeps: distinct names, number 0 for exactly the reserved keys,
 * and the numbers of the modules counting down from the counter to 1 along
 * the list, so that 1 to `global_count` name the modules one to one.
 */
module Registry {
  import opened Wrappers
  import opened Chars

  // ---------------------------------------------------------------------------
  // trim

  /** The first position from `i` on that does not hold white space, or the end. */
  function SkipSpace(s: string, i: nat): (j: nat)
    requires i <= |s|
    ensures i <= j <= |s|
    ensures forall k :: i <= k < j ==> IsSpace(s[k])
    ensures j < |s| ==> !IsSpace(s[j])
    decreases |s| - i
  {
    if i < |s| && IsSpace(s[i]) then SkipSpace(s, i + 1) else i
  }

  /** The position just after the last character before `j` that is not white space, or 0. */
  function BackSpace(s: string, j: nat): (i: nat)
    requires j <= |s|
    ensures i <= j
    ensures forall k :: i <= k < j ==> IsSpace(s[k])
    ensures i > 0 ==> !IsSpace(s[i - 1])
    decreases j
  {
    if j > 0 && IsSpace(s[j - 1]) then BackSpace(s, j - 1) else j
  }

  /** What `trim` writes to `outstr`: `instr` without white space at either end. */
  function Trimmed(s: string): (r: string)
  {
    var a := SkipSpace(s, 0);
    if a == |s| then [] else s[a..BackSpace(s, |s|)]
  }

  /**
   * `trim` cuts `s` to the slice between its first and its last character that
   * is not white space, and to nothing when there is none.
   */
  lemma TrimmedSpec(s: string)
    ensures Trimmed(s) == [] <==> AllSpace(s)
    ensures Trimmed(s) != [] ==> !IsSpace(Trimmed(s)[0]) && !IsSpace(Trimmed(s)[|Trimmed(s)| - 1])
    ensures Trimmed(s) != [] ==>
      var a := SkipSpace(s, 0);
      var b := BackSpace(s, |s|);
      && Trimmed(s) == s[a..b]
      && (forall k :: 0 <= k < a ==> IsSpace(s[k]))
      && (forall k :: b <= k < |s| ==> IsSpace(s[k]))
  {
  }

  /** A string with no white space at either end is its own trimmed form. */
  lemma TrimmedUnchanged(t: string)
    requires t != [] && !IsSpace(t[0]) && !IsSpace(t[|t| - 1])
    ensures Trimmed(t) == t
  {
    assert SkipSpace(t, 0) == 0;
    assert BackSpace(t, |t|) == |t|;
  }

  /** Trimming twice trims no more than once. */
  lemma TrimmedIdempotent(s: string)
    ensures Trimmed(Trimmed(s)) == Trimmed(s)
  {
    TrimmedSpec(s);
    if Trimmed(s) != [] {
      TrimmedUnchanged(Trimmed(s));
    }
  }

  /**
   * `trim`: skip the leading white space, give up with an empty string when
   * nothing else is left, then walk back from the end over the trailing white
   * space and copy what lies between.
   */
  method Trim(instr: string) returns (outstr: string)
    ensures outstr == Trimmed(instr)
  {
    var ptr := 0;
    while ptr < |instr| && IsSpace(instr[ptr])
      invariant 0 <= ptr <= |instr|
      invariant SkipSpace(instr, ptr) == SkipSpace(instr, 0)
    {
      ptr := ptr + 1;
    }
    var endptr := |instr| - 1;
    if ptr > endptr {
      return "";
    }
    while IsSpace(instr[endptr])
      invariant ptr <= endptr < |instr|
      invariant BackSpace(instr, endptr + 1) == BackSpace(instr, |instr|)
      decreases endptr
    {
      endptr := endptr - 1;
    }
    outstr := instr[ptr..endptr + 1];
  }

  // ---------------------------------------------------------------------------
  // Reading the file: what fgets returns

  /** `line_buf_len`: the size of every line buffer. */
  const LineBufLen: nat := 256

  /** `fgets(lineBuffer, line_buf_len, f)` reads at most this many characters. */
  const MaxChunk: nat := LineBufLen - 1

  /** Where the `fgets` read that starts at `start` ends, having looked at `k`. */
  function ChunkEndFrom(text: string, start: nat, k: nat): (j: nat)
    requires start <= k < |text| && k - start < MaxChunk
    ensures k < j <= |text| && j - start <= MaxChunk
    ensures forall p :: k <= p < j - 1 ==> text[p] != '\n'
    ensures j < |text| && j - start < MaxChunk ==> text[j - 1] == '\n'
    decreases |text| - k
  {
    if text[k] == '\n' || k + 1 == |text| || k + 1 - start == MaxChunk then k + 1
    else ChunkEndFrom(text, start, k + 1)
  }

  /**
   * Where one `fgets` read from `start` ends: after the first newline, after
   * `MaxChunk` characters, or at the end of the file, whichever comes first.
   */
  function ChunkEnd(text: string, start: nat): (j: nat)
    requires start < |text|
    ensures start < j <= |text| && j - start <= MaxChunk
    ensures forall p :: start <= p < j - 1 ==> text[p] != '\n'
    ensures j < |text| && j - start < MaxChunk ==> text[j - 1] == '\n'
  {
    ChunkEndFrom(text, start, start)
  }

  /** The successive buffers `fgets` fills from position `i` of the file to its end. */
  function Chunks(text: string, i: nat): (r: seq<string>)
    requires i <= |text|
    decreases |text| - i
  {
    if i == |text| then [] else [text[i..ChunkEnd(text, i)]] + Chunks(text, ChunkEnd(text, i))
  }

  function Concat(ss: seq<string>): (r: string)
  {
    if ss == [] then [] else ss[0] + Concat(ss[1..])
  }

  /**
   * The reads cover the file exactly, in order; each is non-empty, fits the
   * buffer with its terminator, and holds a newline only as its last character.
   */
  lemma {:induction false} ChunksSpec(text: string, i: nat)
    requires i <= |text|
    ensures Concat(Chunks(text, i)) == text[i..]
    ensures forall c :: c in Chunks(text, i) ==> 0 < |c| < LineBufLen && forall p :: 0 <= p < |c| - 1 ==> c[p] != '\n'
    decreases |text| - i
  {
    if i < |text| {
      var j := ChunkEnd(text, i);
      var c := text[i..j];
      ChunksSpec(text, j);
      assert ([c] + Chunks(text, j))[1..] == Chunks(text, j);
      assert text[i..] == c + text[j..];
    }
  }

  // ---------------------------------------------------------------------------
  // One line

  /** A `key = value` setting of the file. */
  datatype Entry = Entry(name: string, value: string)

  /** `strchr(s, c)`: the first position of `c` in `s`, or -1. */
  function IndexOfChar(s: string, c: char): (r: int)
    ensures r == -1 || 0 <= r < |s|
    ensures r >= 0 ==> s[r] == c
    ensures forall k :: 0 <= k < |s| && (r == -1 || k < r) ==> s[k] != c
  {
    if s == [] then -1
    else if s[0] == c then 0
    else var r := IndexOfChar(s[1..], c); if r == -1 then -1 else r + 1
  }

  /**
   * What a line contributes: nothing for a comment (a `#` in the first column)
   * or a line without `=`, and else the trimmed text before the first `=`
   * and the trimmed text after it.
   */
  function ParseLine(line: string): (r: Option<Entry>)
    ensures r.Some? ==> (|line| == 0 || line[0] != '#') && '=' in line
    ensures r.Some? ==> Trimmed(r.value.name) == r.value.name && Trimmed(r.value.value) == r.value.value
  {
    if |line| > 0 && line[0] == '#' then None
    else
      var e := IndexOfChar(line, '=');
      if e < 0 then None
      else
        TrimmedIdempotent(line[..e]);
        TrimmedIdempotent(line[e + 1..]);
        Some(Entry(Trimmed(line[..e]), Trimmed(line[e + 1..])))
  }

  /** Trimming keeps only characters of the original. */
  lemma TrimmedWithin(s: string)
    ensures forall c :: c in Trimmed(s) ==> c in s
  {
    TrimmedSpec(s);
    if Trimmed(s) != [] {
      var a := SkipSpace(s, 0);
      var b := BackSpace(s, |s|);
      assert forall k :: 0 <= k < b - a ==> Trimmed(s)[k] == s[a + k];
    }
  }

  /**
   * A line is a setting exactly when it is not a comment and holds an `=`;
   * the name is then free of `=`, so the first `=` is where it was split.
   */
  lemma ParseLineSpec(line: string)
    ensures ParseLine(line).Some? <==> (|line| == 0 || line[0] != '#') && '=' in line
    ensures ParseLine(line).Some? ==> '=' !in ParseLine(line).value.name
  {
    var e := IndexOfChar(line, '=');
    if e >= 0 {
      var before := line[..e];
      assert '=' !in before;
      TrimmedWithin(before);
    }
  }

  /**
   * The number of characters after `=` that `length` counts for the value, as
   * written: the pointer expression `lineBuffer + strlen(lineBuffer) - equals + 1`
   * adds one where `equals + 1` was meant, two more than there are.
   */
  function ValueLengthAsWritten(line: string, e: nat): (n: int)
    ensures e < |line| ==> n == |line[e + 1..]| + 2
  {
    |line| - e + 1
  }

  /** Where the value's terminator goes, as intended: the number of characters after `=`. */
  function ValueLength(line: string, e: nat): (n: nat)
    requires e < |line|
    ensures n == |line[e + 1..]|
  {
    |line| - (e + 1)
  }

  /** The intended count always leaves room for the terminator of `value`. */
  lemma ValueLengthFits(line: string, e: nat)
    requires |line| < LineBufLen && e < |line|
    ensures ValueLength(line, e) < LineBufLen
    ensures ValueLengthAsWritten(line, e) == ValueLength(line, e) + 2
  {
  }

  /**
   * As written, a full buffer whose first character is `=` puts the terminator
   * of `value` at index 256 of a 256-character array.
   */
  lemma ValueTerminatorOverrun()
    ensures var line := "=" + seq(MaxChunk - 1, _ => 'x');
      && |line| == MaxChunk
      && IndexOfChar(line, '=') == 0
      && ValueLengthAsWritten(line, 0) == LineBufLen
  {
    var line := "=" + seq(MaxChunk - 1, _ => 'x');
    assert line[0] == '=';
  }

  // ---------------------------------------------------------------------------
  // The cache

  /** An `EnvVarNode` without its `next` pointer: the list is the sequence. */
  datatype EnvVarNode = EnvVarNode(number: int, name: string, value: string)

  const DefaultKey: string := "LOG.RDK.DEFAULT"
  const MpeLogKey: string := "EnableMPELog"
  const SeparateLogKey: string := "SEPARATE.LOGFILE.SUPPORT"

  /** The keys that are settings rather than modules and get number 0. */
  predicate Reserved(name: string) {
    name == DefaultKey || name == MpeLogKey || name == SeparateLogKey
  }

  /** The list from its head, and the `static int number` counter of `rdk_logger_env_add_conf_file`. */
  datatype CacheState = CacheState(nodes: seq<EnvVarNode>, number: int)

  /** The first node called `name`, or -1. */
  function IndexOfName(nodes: seq<EnvVarNode>, name: string): (r: int)
    ensures r == -1 || 0 <= r < |nodes|
    ensures r >= 0 ==> nodes[r].name == name
    ensures forall k :: 0 <= k < |nodes| && (r == -1 || k < r) ==> nodes[k].name != name
  {
    if nodes == [] then -1
    else if nodes[0].name == name then 0
    else var r := IndexOfName(nodes[1..], name); if r == -1 then -1 else r + 1
  }

  /** The first node numbered `n`, or -1. */
  function IndexOfNumber(nodes: seq<EnvVarNode>, n: int): (r: int)
    ensures r == -1 || 0 <= r < |nodes|
    ensures r >= 0 ==> nodes[r].number == n
    ensures forall k :: 0 <= k < |nodes| && (r == -1 || k < r) ==> nodes[k].number != n
  {
    if nodes == [] then -1
    else if nodes[0].number == n then 0
    else var r := IndexOfNumber(nodes[1..], n); if r == -1 then -1 else r + 1
  }

  /** What `rdk_logger_envGet(name)` returns. */
  function ValueOf(nodes: seq<EnvVarNode>, name: string): (r: Option<string>)
    ensures r.None? <==> forall k :: 0 <= k < |nodes| ==> nodes[k].name != name
    ensures r.Some? ==> exists k :: 0 <= k < |nodes| && nodes[k].name == name && nodes[k].value == r.value
  {
    var i := IndexOfName(nodes, name);
    if i < 0 then None else Some(nodes[i].value)
  }

  /** What `rdk_logger_envGetNum(name)` returns: -1 for a name that is not there. */
  function NumberOf(nodes: seq<EnvVarNode>, name: string): (r: int)
    ensures (forall k :: 0 <= k < |nodes| ==> nodes[k].name != name) ==> r == -1
    ensures r != -1 ==> exists k :: 0 <= k < |nodes| && nodes[k].name == name && nodes[k].number == r
  {
    var i := IndexOfName(nodes, name);
    if i < 0 then -1 else nodes[i].number
  }

  /** What `rdk_logger_envGetValueFromNum(n)` returns. */
  function ValueOfNumber(nodes: seq<EnvVarNode>, n: int): (r: Option<string>)
    ensures r.None? <==> forall k :: 0 <= k < |nodes| ==> nodes[k].number != n
    ensures r.Some? ==> exists k :: 0 <= k < |nodes| && nodes[k].number == n && nodes[k].value == r.value
  {
    var i := IndexOfNumber(nodes, n);
    if i < 0 then None else Some(nodes[i].value)
  }

  /** What `rdk_logger_envGetModFromNum(n)` returns. */
  function NameOfNumber(nodes: seq<EnvVarNode>, n: int): (r: Option<string>)
    ensures r.None? <==> forall k :: 0 <= k < |nodes| ==> nodes[k].number != n
    ensures r.Some? ==> exists k :: 0 <= k < |nodes| && nodes[k].number == n && nodes[k].name == r.value
  {
    var i := IndexOfNumber(nodes, n);
    if i < 0 then None else Some(nodes[i].name)
  }

  /**
   * One setting stored: a name already in the list gets the new value in
   * place and keeps its number; a new reserved key is put at the front with
   * number 0; any other new name is put at the front with the next number.
   */
  function AddEntry(st: CacheState, e: Entry): (r: CacheState)
    ensures IndexOfName(st.nodes, e.name) >= 0 ==> |r.nodes| == |st.nodes| && r.number == st.number
    ensures IndexOfName(st.nodes, e.name) < 0 ==> |r.nodes| == |st.nodes| + 1 && r.nodes[0].name == e.name && r.nodes[1..] == st.nodes
    ensures r.number == if IndexOfName(st.nodes, e.name) < 0 && !Reserved(e.name) then st.number + 1 else st.number
  {
    var k := IndexOfName(st.nodes, e.name);
    if k >= 0 then CacheState(st.nodes[k := st.nodes[k].(value := e.value)], st.number)
    else if Reserved(e.name) then CacheState([EnvVarNode(0, e.name, e.value)] + st.nodes, st.number)
    else CacheState([EnvVarNode(st.number + 1, e.name, e.value)] + st.nodes, st.number + 1)
  }

  /** One `fgets` buffer: comments and lines without `=` leave the cache as it was. */
  function AddLine(st: CacheState, line: string): (r: CacheState)
    ensures (|line| > 0 && line[0] == '#') || '=' !in line ==> r == st
    ensures st.number <= r.number && r.number - st.number <= |r.nodes| - |st.nodes| <= 1
  {
    match ParseLine(line)
    case None => st
    case Some(e) => AddEntry(st, e)
  }

  /** The buffers of a file, stored one after the other. */
  function AddLines(st: CacheState, lines: seq<string>): (r: CacheState)
    ensures st.number <= r.number && r.number - st.number <= |r.nodes| - |st.nodes| <= |lines|
    decreases |lines|
  {
    if lines == [] then st else AddLines(AddLine(st, lines[0]), lines[1..])
  }

  /** What `rdk_logger_env_add_conf_file` makes of a file it could open. */
  function ReadConfFile(st: CacheState, text: string): (r: CacheState)
    ensures text == "" ==> r == st
    ensures st.number <= r.number && r.number - st.number <= |r.nodes| - |st.nodes|
  {
    AddLines(st, Chunks(text, 0))
  }

  /**
   * The invariant of the cache: names are distinct; a node has number 0
   * exactly when its name is reserved; module numbers run from 1 to the
   * counter, every one of them is used, and they decrease from the head of
   * the list, newest first (the reserved nodes, numbered 0, may sit anywhere).
   */
  ghost predicate WellFormed(st: CacheState): (r: bool)
    ensures r ==> forall n :: 1 <= n <= st.number ==> NameOfNumber(st.nodes, n).Some? && !Reserved(NameOfNumber(st.nodes, n).value)
  {
    && st.number >= 0
    && NamesDistinct(st.nodes)
    && ZeroIffReserved(st.nodes)
    && NumbersInRange(st.nodes, st.number)
    && NumbersDecrease(st.nodes)
    && NumbersUsed(st.nodes, st.number)
  }

  ghost predicate NamesDistinct(nodes: seq<EnvVarNode>) {
    forall i, j :: 0 <= i < j < |nodes| ==> nodes[i].name != nodes[j].name
  }

  ghost predicate ZeroIffReserved(nodes: seq<EnvVarNode>) {
    forall i :: 0 <= i < |nodes| ==> (nodes[i].number == 0 <==> Reserved(nodes[i].name))
  }

  ghost predicate NumbersInRange(nodes: seq<EnvVarNode>, counter: int) {
    forall i :: 0 <= i < |nodes| ==> 0 <= nodes[i].number <= counter
  }

  ghost predicate NumbersDecrease(nodes: seq<EnvVarNode>) {
    forall i, j :: 0 <= i < j < |nodes| && nodes[i].number != 0 && nodes[j].number != 0 ==> nodes[i].number > nodes[j].number
  }

  ghost predicate NumbersUsed(nodes: seq<EnvVarNode>, counter: int) {
    forall n :: 1 <= n <= counter ==> IndexOfNumber(nodes, n) >= 0
  }

  // ---------------------------------------------------------------------------
  // Lookups in a well-formed cache

  /** Lists with the same names, in the same order, find a name at the same place. */
  lemma {:induction false} IndexOfNameSameNames(a: seq<EnvVarNode>, b: seq<EnvVarNode>, x: string)
    requires |a| == |b| && forall i :: 0 <= i < |a| ==> a[i].name == b[i].name
    ensures IndexOfName(a, x) == IndexOfName(b, x)
    decreases |a|
  {
    if a != [] && a[0].name != x {
      IndexOfNameSameNames(a[1..], b[1..], x);
    }
  }

  /** Lists with the same numbers, in the same order, find a number at the same place. */
  lemma {:induction false} IndexOfNumberSameNumbers(a: seq<EnvVarNode>, b: seq<EnvVarNode>, n: int)
    requires |a| == |b| && forall i :: 0 <= i < |a| ==> a[i].number == b[i].number
    ensures IndexOfNumber(a, n) == IndexOfNumber(b, n)
    decreases |a|
  {
    if a != [] && a[0].number != n {
      IndexOfNumberSameNumbers(a[1..], b[1..], n);
    }
  }

  /** In a list of distinct names, the node at `i` is the one its name finds. */
  lemma IndexOfNameDistinct(st: CacheState, i: nat)
    requires WellFormed(st) && i < |st.nodes|
    ensures IndexOfName(st.nodes, st.nodes[i].name) == i
  {
  }

  /** In a well-formed cache, the module numbered `n` is the one its number finds. */
  lemma IndexOfNumberDistinct(st: CacheState, i: nat)
    requires WellFormed(st) && i < |st.nodes| && st.nodes[i].number != 0
    ensures IndexOfNumber(st.nodes, st.nodes[i].number) == i
  {
  }

  /**
   * `rdk_logger_envGetModFromNum` and `rdk_logger_envGetNum` are inverse on
   * the module numbers 1 to the counter: every such number names a module,
   * and looking that module up gives the number back.
   */
  lemma NumberRoundTrip(st: CacheState, n: int)
    requires WellFormed(st) && 1 <= n <= st.number
    ensures NameOfNumber(st.nodes, n).Some?
    ensures !Reserved(NameOfNumber(st.nodes, n).value)
    ensures NumberOf(st.nodes, NameOfNumber(st.nodes, n).value) == n
  {
    var r := IndexOfNumber(st.nodes, n);
    IndexOfNameDistinct(st, r);
  }

  /**
   * A registered module has a number from 1 to the counter, and that number
   * gives its name back.
   */
  lemma NameRoundTrip(st: CacheState, name: string)
    requires WellFormed(st) && ValueOf(st.nodes, name).Some? && !Reserved(name)
    ensures 1 <= NumberOf(st.nodes, name) <= st.number
    ensures NameOfNumber(st.nodes, NumberOf(st.nodes, name)) == Some(name)
  {
    var i := IndexOfName(st.nodes, name);
    IndexOfNumberDistinct(st, i);
  }

  /** Every number `rdk_logger_envGetNum` reports lies between -1 and the counter. */
  lemma NumberOfRange(st: CacheState, name: string)
    requires WellFormed(st)
    ensures -1 <= NumberOf(st.nodes, name) <= st.number
  {
  }

  /** A reserved key that is set has number 0; an unset name has number -1 and no value. */
  lemma NumberOfOthers(st: CacheState, name: string)
    requires WellFormed(st)
    ensures ValueOf(st.nodes, name).Some? && Reserved(name) ==> NumberOf(st.nodes, name) == 0
    ensures ValueOf(st.nodes, name).None? <==> NumberOf(st.nodes, name) == -1
  {
  }

  /**
   * Numbers outside 1 to the counter name no module: a negative or too large
   * number finds nothing, and number 0 finds a reserved key when one is set.
   */
  lemma NumberOutOfRange(st: CacheState, n: int)
    requires WellFormed(st) && (n < 1 || n > st.number)
    ensures n != 0 ==> NameOfNumber(st.nodes, n).None? && ValueOfNumber(st.nodes, n).None?
    ensures n == 0 && NameOfNumber(st.nodes, n).Some? ==> Reserved(NameOfNumber(st.nodes, n).value)
  {
  }

  // ---------------------------------------------------------------------------
  // Storing a setting

  /** Storing a setting keeps the cache well formed. */
  lemma AddEntryWellFormed(st: CacheState, e: Entry)
    requires WellFormed(st)
    ensures WellFormed(AddEntry(st, e))
  {
    var k := IndexOfName(st.nodes, e.name);
    if k >= 0 {
      assert AddEntry(st, e) == CacheState(st.nodes[k := st.nodes[k].(value := e.value)], st.number);
      UpdateWellFormed(st, k, e.value);
    } else if Reserved(e.name) {
      var node := EnvVarNode(0, e.name, e.value);
      assert AddEntry(st, e) == CacheState([node] + st.nodes, st.number);
      InsertWellFormed(st, node, st.number);
    } else {
      var node := EnvVarNode(st.number + 1, e.name, e.value);
      assert AddEntry(st, e) == CacheState([node] + st.nodes, st.number + 1);
      InsertWellFormed(st, node, st.number + 1);
    }
  }

  /** A new value in place changes neither names nor numbers. */
  lemma UpdateWellFormed(st: CacheState, k: nat, v: string)
    requires WellFormed(st) && k < |st.nodes|
    ensures WellFormed(CacheState(st.nodes[k := st.nodes[k].(value := v)], st.number))
  {
    var nodes' := st.nodes[k := st.nodes[k].(value := v)];
    assert forall i :: 0 <= i < |nodes'| ==> nodes'[i].name == st.nodes[i].name && nodes'[i].number == st.nodes[i].number;
    forall n | 1 <= n <= st.number
      ensures IndexOfNumber(nodes', n) >= 0
    {
      IndexOfNumberSameNumbers(st.nodes, nodes', n);
    }
  }

  /** A new name at the front, numbered 0 if reserved and else the new counter, keeps the invariant. */
  lemma InsertWellFormed(st: CacheState, node: EnvVarNode, counter: int)
    requires WellFormed(st) && IndexOfName(st.nodes, node.name) == -1
    requires if Reserved(node.name) then node.number == 0 && counter == st.number
             else node.number == st.number + 1 && counter == node.number
    ensures WellFormed(CacheState([node] + st.nodes, counter))
  {
    var nodes' := [node] + st.nodes;
    assert forall i :: 1 <= i < |nodes'| ==> nodes'[i] == st.nodes[i - 1];
    assert NamesDistinct(nodes');
    assert ZeroIffReserved(nodes');
    assert NumbersInRange(nodes', counter);
    assert NumbersDecrease(nodes');
    InsertUsed(st.nodes, node, st.number, counter);
  }

  /** The numbers in use stay in use when a node is put at the front, and its own number joins them. */
  lemma InsertUsed(nodes: seq<EnvVarNode>, node: EnvVarNode, old_counter: int, counter: int)
    requires NumbersUsed(nodes, old_counter)
    requires counter == old_counter || (counter == old_counter + 1 && node.number == counter)
    ensures NumbersUsed([node] + nodes, counter)
  {
    var nodes' := [node] + nodes;
    assert nodes'[1..] == nodes;
    forall n | 1 <= n <= counter
      ensures IndexOfNumber(nodes', n) >= 0
    {
      if n != node.number {
        assert IndexOfNumber(nodes, n) >= 0;
      }
    }
  }

  /**
   * The value stored for the setting's name is the new one (the last line
   * wins), and every other name keeps its value.
   */
  lemma AddEntryValue(st: CacheState, e: Entry, x: string)
    ensures ValueOf(AddEntry(st, e).nodes, x) == if x == e.name then Some(e.value) else ValueOf(st.nodes, x)
  {
    var k := IndexOfName(st.nodes, e.name);
    var st' := AddEntry(st, e);
    if k >= 0 {
      IndexOfNameSameNames(st.nodes, st'.nodes, x);
    } else {
      assert st'.nodes[1..] == st.nodes;
    }
  }

  /**
   * Numbers: a name seen before keeps its number and the counter does not
   * move; a new reserved key gets 0; any other new name gets the counter plus
   * one, which becomes the counter. Every other name keeps its number.
   */
  lemma AddEntryNumber(st: CacheState, e: Entry, x: string)
    ensures x != e.name ==> NumberOf(AddEntry(st, e).nodes, x) == NumberOf(st.nodes, x)
    ensures NumberOf(AddEntry(st, e).nodes, e.name) ==
      if NumberOf(st.nodes, e.name) != -1 || ValueOf(st.nodes, e.name).Some? then NumberOf(st.nodes, e.name)
      else if Reserved(e.name) then 0
      else st.number + 1
    ensures AddEntry(st, e).number ==
      if ValueOf(st.nodes, e.name).None? && !Reserved(e.name) then st.number + 1 else st.number
  {
    var k := IndexOfName(st.nodes, e.name);
    var st' := AddEntry(st, e);
    if k >= 0 {
      IndexOfNameSameNames(st.nodes, st'.nodes, x);
      IndexOfNameSameNames(st.nodes, st'.nodes, e.name);
    } else {
      assert st'.nodes[1..] == st.nodes;
    }
  }

  /** Reading any sequence of buffers keeps the cache well formed and never lowers the counter. */
  lemma {:induction false} AddLinesWellFormed(st: CacheState, lines: seq<string>)
    requires WellFormed(st)
    ensures WellFormed(AddLines(st, lines))
    ensures AddLines(st, lines).number >= st.number
    decreases |lines|
  {
    if lines != [] {
      var st1 := AddLine(st, lines[0]);
      if ParseLine(lines[0]).Some? {
        AddEntryWellFormed(st, ParseLine(lines[0]).value);
      }
      AddLinesWellFormed(st1, lines[1..]);
    }
  }

  /** Reading a file keeps the cache well formed. */
  lemma ReadConfFileWellFormed(st: CacheState, text: string)
    requires WellFormed(st)
    ensures WellFormed(ReadConfFile(st, text))
  {
    AddLinesWellFormed(st, Chunks(text, 0));
  }

  // ---------------------------------------------------------------------------
  // The cache object

  /** `g_envCache` with its counters; the mutex is not modelled. */
  class EnvCache {
    /** The list, head first. */
    var nodes: seq<EnvVarNode>
    /** The `static int number` of `rdk_logger_env_add_conf_file`: the last module number given out. */
    var number: int
    /** `global_count`: the counter as of the last file that was read. */
    var globalCount: int

    function State(): (r: CacheState)
      reads this
    {
      CacheState(nodes, number)
    }

    ghost predicate Valid()
      reads this
    {
      WellFormed(State()) && globalCount == number
    }

    /** The empty cache of a fresh process. */
    constructor ()
      ensures Valid() && nodes == [] && number == 0 && globalCount == 0
    {
      nodes := [];
      number := 0;
      globalCount := 0;
    }

    /**
     * `rdk_logger_env_add_conf_file`: `file` is the text of the file, or
     * `None` when `fopen` fails, which is reported with -1 and changes
     * nothing. Otherwise every buffer `fgets` returns is stored in turn, the
     * counter is published to `global_count`, and `RDK_SUCCESS` (0) returned.
     */
    method AddConfFile(file: Option<string>) returns (rc: int)
      requires Valid()
      modifies this
      ensures Valid()
      ensures file.None? ==> rc == -1 && State() == old(State())
      ensures file.Some? ==> rc == 0 && State() == ReadConfFile(old(State()), file.value)
    {
      if file.None? {
        return -1;
      }
      var text := file.value;
      var pos := 0;
      while pos < |text|
        invariant 0 <= pos <= |text|
        invariant AddLines(State(), Chunks(text, pos)) == ReadConfFile(old(State()), text)
        decreases |text| - pos
      {
        var next := ChunkEnd(text, pos);
        var lineBuffer := text[pos..next];
        assert ([lineBuffer] + Chunks(text, next))[1..] == Chunks(text, next);
        ReadLine(lineBuffer);
        pos := next;
      }
      globalCount := number;
      ReadConfFileWellFormed(old(State()), text);
      rc := 0;
    }

    /** The body of the read loop: skip a comment or a line without `=`, else split, trim and store. */
    method ReadLine(lineBuffer: string)
      modifies this
      ensures State() == AddLine(old(State()), lineBuffer)
      ensures globalCount == old(globalCount)
    {
      if |lineBuffer| > 0 && lineBuffer[0] == '#' {
        return;
      }
      var equals := IndexOfChar(lineBuffer, '=');
      if equals < 0 {
        return;
      }
      var name := lineBuffer[..equals];
      var value := lineBuffer[equals + 1..equals + 1 + ValueLength(lineBuffer, equals)];
      assert value == lineBuffer[equals + 1..];
      var trimname := Trim(name);
      var trimvalue := Trim(value);
      Store(trimname, trimvalue);
    }

    /**
     * Storing one split line: walk the list for the
     * name; replace the value of a node found, else put a new node at the
     * front, numbered 0 for a reserved key and with the next number otherwise.
     */
    method Store(trimname: string, trimvalue: string)
      modifies this
      ensures State() == AddEntry(old(State()), Entry(trimname, trimvalue))
      ensures globalCount == old(globalCount)
    {
      var k := 0;
      while k < |nodes| && nodes[k].name != trimname
        invariant 0 <= k <= |nodes|
        invariant forall j :: 0 <= j < k ==> nodes[j].name != trimname
      {
        k := k + 1;
      }
      if k < |nodes| {
        nodes := nodes[k := nodes[k].(value := trimvalue)];
        return;
      }
      var node;
      if !Reserved(trimname) {
        number := number + 1;
        node := EnvVarNode(number, trimname, trimvalue);
      } else {
        node := EnvVarNode(0, trimname, trimvalue);
      }
      nodes := [node] + nodes;
    }

    /** `rdk_logger_envGet`: the value of the first node called `name`. */
    method EnvGet(name: string) returns (v: Option<string>)
      ensures v == ValueOf(nodes, name)
    {
      var i := 0;
      while i < |nodes|
        invariant 0 <= i <= |nodes|
        invariant forall j :: 0 <= j < i ==> nodes[j].name != name
      {
        if name == nodes[i].name {
          return Some(nodes[i].value);
        }
        i := i + 1;
      }
      return None;
    }

    /** `rdk_logger_envGetValueFromNum`: the value of the first node numbered `n`. */
    method EnvGetValueFromNum(n: int) returns (v: Option<string>)
      ensures v == ValueOfNumber(nodes, n)
    {
      var i := 0;
      while i < |nodes|
        invariant 0 <= i <= |nodes|
        invariant forall j :: 0 <= j < i ==> nodes[j].number != n
      {
        if n == nodes[i].number {
          return Some(nodes[i].value);
        }
        i := i + 1;
      }
      return None;
    }

    /** `rdk_logger_envGetNum`: the number of the first node called `mod`, or -1. */
    method EnvGetNum(mod: string) returns (r: int)
      ensures r == NumberOf(nodes, mod)
    {
      var i := 0;
      while i < |nodes|
        invariant 0 <= i <= |nodes|
        invariant forall j :: 0 <= j < i ==> nodes[j].name != mod
      {
        if mod == nodes[i].name {
          return nodes[i].number;
        }
        i := i + 1;
      }
      return -1;
    }

    /** `rdk_logger_envGetModFromNum`: the name of the first node numbered `num`. */
    method EnvGetModFromNum(num: int) returns (v: Option<string>)
      ensures v == NameOfNumber(nodes, num)
    {
      var i := 0;
      while i < |nodes|
        invariant 0 <= i <= |nodes|
        invariant forall j :: 0 <= j < i ==> nodes[j].number != num
      {
        if num == nodes[i].number {
          return Some(nodes[i].name);
        }
        i := i + 1;
      }
      return None;
    }
  }
}

