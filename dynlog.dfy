/**
 * The remote control listener of `src/rdk_dynamic_logger.c`. A process bound
 * to UDP port 12035 drains the datagrams queued on its socket; each one from
 * 127.0.0.1 whose size matches its length byte is decoded as
 *
 *   "COMC" | length | level | app length | app name | component length | component name
 *
 * and, when it names this process and a known level, handed to
 * `RDK_LOG_ControlCB` as a component name and a level expression.
 *
 * The socket is a flag and a queue of datagrams; the callback is a sink that
 * records what it was given. The receive buffer is the 128-byte array the
 * drain loop reuses, so a field that runs past the bytes just received reads
 * what an earlier datagram left there.
 */
module DynamicLogger {
  import opened Wrappers
  import opened Chars
  import opened Levels
  import opened LevelParser
  import ParseFacts

  /** An `unsigned char`. */
  type Byte = b: int | 0 <= b < 256

  /** `DL_SIGNATURE`, the bytes of "COMC". */
  const Signature: seq<Byte> := [0x43, 0x4F, 0x4D, 0x43]
  /** `DL_SIGNATURE_LEN` */
  const SignatureLen: nat := 4
  /** Offsets of the single-byte fields and of the application name. */
  const LengthAt: nat := 4
  const LevelAt: nat := 5
  const AppLenAt: nat := 6
  const AppAt: nat := 7
  /** The `char buf[128]` the drain loop receives into. */
  const BufSize: nat := 128
  /** The `char comp_name[64]` the component name is copied into. */
  const CompNameSize: nat := 64
  /** The bit of the level byte that asks for `!` in front of the name. */
  const NegateMask: nat := 0x80

  function Min(a: int, b: int): (r: int) {
    if a < b then a else b
  }

  // ---------------------------------------------------------------------------
  // The level byte

  /**
   * The names the remote path gives the levels, FATAL to TRACE9: the name
   * table's, except that WARN is spelled "WARN".
   */
  const RemoteNames: seq<string> := [
    "FATAL", "ERROR", "WARN", "NOTICE", "INFO", "DEBUG",
    "TRACE1", "TRACE2", "TRACE3", "TRACE4", "TRACE5",
    "TRACE6", "TRACE7", "TRACE8", "TRACE9"
  ]

  /** The remote names are the table's names with WARNING shortened to WARN. */
  lemma RemoteNamesTable()
    ensures |RemoteNames| == LogCount
    ensures RemoteNames == LevelStrings[Warn := "WARN"]
    ensures RemoteNames[Warn] != LevelStrings[Warn]
  {
  }

  /**
   * `rdk_dyn_log_logLevelToString`: bit 7 asks for a `!` in front, the other
   * seven bits are the level; a level past TRACE9 has no name.
   */
  function LogLevelToString(logLevel: Byte): (r: Option<string>)
    ensures r.Some? <==> LevelPart(logLevel) < LogCount
  {
    var negate := logLevel >= NegateMask;
    var level := LevelPart(logLevel);
    if level < LogCount then
      Some((if negate then "!" else "") + RemoteNames[level])
    else
      None
  }

  /** `log_level & ~negate_mask`: the level without the negation bit. */
  function LevelPart(logLevel: Byte): (l: nat)
    ensures l < NegateMask
  {
    if logLevel >= NegateMask then logLevel - NegateMask else logLevel
  }

  /** The byte a sender writes for level `l`, negated or not. */
  function EncodeLevel(l: Level, negate: bool): (r: Byte) {
    if negate then l + NegateMask else l
  }

  /** Decoding the byte written for a level gives that level's remote name, with `!` when negated. */
  lemma LevelByteRoundTrip(l: Level, negate: bool)
    ensures LogLevelToString(EncodeLevel(l, negate)) == Some((if negate then "!" else "") + RemoteNames[l])
  {
  }

  /** Every byte that decodes is the byte written for its level, so nothing else is accepted. */
  lemma LevelByteComplete(b: Byte)
    requires LogLevelToString(b).Some?
    ensures LevelPart(b) < LogCount
    ensures b == EncodeLevel(LevelPart(b), b >= NegateMask)
  {
  }

  /**
   * What the level expression a remote request carries means to `parseLogConfig`:
   * a level's name sets it and `!` with the name clears it, both accepted, except
   * that "WARN" and "!WARN" are not level names and change nothing.
   */
  lemma RemoteLevelMeaning(l: Level, negate: bool, m: Mask)
    ensures var p := Parse(LogLevelToString(EncodeLevel(l, negate)).value, m);
      if l == Warn then p == ParseResult(RcError, m, InvalidLogNameMsg)
      else if negate then p == ParseResult(RcOk, m & !Bit(l), "")
      else p == ParseResult(RcOk, m | Bit(l), "")
  {
    LevelByteRoundTrip(l, negate);
    var s := LogLevelToString(EncodeLevel(l, negate)).value;
    if l == Warn {
      assert s == (if negate then "!" else "") + "WARN";
      WarnUnknown(negate, m);
    } else {
      RemoteNamesTable();
      assert RemoteNames[l] == LevelStrings[Warn := "WARN"][l] == LevelStrings[l];
      if negate {
        assert s == "!" + LevelStrings[l];
        NegatedNameParses(l, m);
      } else {
        assert s == "" + LevelStrings[l] == LevelStrings[l];
        ParseFacts.ParseLevelName(l, m);
      }
    }
  }

  /** "WARN" is no level's name. */
  lemma WarnNotAName()
    ensures NameToLevel("WARN") == -1
  {
    assert "WARN" !in LevelStrings;
    NameToLevelSpec("WARN");
  }

  lemma WarnUnknown(negate: bool, m: Mask)
    ensures Parse((if negate then "!" else "") + "WARN", m) == ParseResult(RcError, m, InvalidLogNameMsg)
  {
    if negate {
      assert "!" + "WARN" == "!WARN";
      NegatedWarnUnknown(m);
    } else {
      assert "" + "WARN" == "WARN";
      PlainWarnUnknown(m);
    }
  }

  lemma PlainWarnUnknown(m: Mask)
    ensures Parse("WARN", m) == ParseResult(RcError, m, InvalidLogNameMsg)
  {
    var tok := "WARN";
    WarnNotAName();
    assert TokenName(tok) == "WARN";
    assert |tok| == 4 && tok[0] != 'N';
    ParseFacts.NameTokenValue(tok, m);
    ParseFacts.ParseOneToken(tok, m);
  }

  lemma NegatedWarnUnknown(m: Mask)
    ensures Parse("!WARN", m) == ParseResult(RcError, m, InvalidLogNameMsg)
  {
    var tok := "!WARN";
    WarnNotAName();
    assert tok[1..] == "WARN";
    assert TokenName(tok) == "WARN";
    assert |tok| == 5 && tok[0] != 'T';
    ParseFacts.NameTokenValue(tok, m);
    ParseFacts.ParseOneToken(tok, m);
  }

  lemma NegatedNameParses(l: Level, m: Mask)
    ensures Parse("!" + LevelStrings[l], m) == ParseResult(RcOk, m & !Bit(l), "")
  {
    var name := LevelStrings[l];
    var tok := "!" + name;
    NameIsWord(l);
    assert forall k :: 1 <= k < |tok| ==> tok[k] == name[k - 1];
    assert IsUpperCase(tok);
    assert forall k :: 0 <= k < |tok| ==> !IsSpace(tok[k]);
    ParseFacts.NotNameValue(l, m);
    ParseFacts.ParseOneToken(tok, m);
  }

  /** A level's name is a non-empty upper-case word. */
  lemma NameIsWord(l: Level)
    ensures LevelStrings[l] != [] && IsUpperCase(LevelStrings[l])
    ensures forall k :: 0 <= k < |LevelStrings[l]| ==> !IsSpace(LevelStrings[l][k])
  {
    Levels.LevelStringsShape();
  }

  // ---------------------------------------------------------------------------
  // The datagram

  /** One `RDK_LOG_ControlCB(comp_name, NULL, loggingLevel, 0)` call. */
  datatype Request = Request(component: seq<Byte>, level: string)

  /** The C string a zero-filled copy of `s` holds: the bytes before the first NUL. */
  function CString(s: seq<Byte>): (r: seq<Byte>)
    ensures r <= s && 0 !in r
    ensures |r| == |s| || s[|r|] == 0
  {
    if s == [] || s[0] == 0 then [] else [s[0]] + CString(s[1..])
  }

  /**
   * `memcmp(name, __progname, app_len) == 0` for the `app_len` bytes of `name`,
   * comparing with the NUL-terminated `__progname`. A name longer than that
   * would be compared with whatever follows the string in memory; the model
   * counts it as a mismatch.
   */
  predicate AppMatches(name: seq<Byte>, prog: seq<Byte>): (r: bool)
    ensures r ==> forall k :: 0 <= k < |name| ==> name[k] == if k < |prog| then prog[k] else 0
  {
    |name| <= |prog| + 1 && name == (prog + [0])[..|name|]
  }

  /** The name in a request matches exactly when it is the start of the process name, or all of it with its NUL. */
  lemma AppMatchesPrefix(name: seq<Byte>, prog: seq<Byte>)
    ensures AppMatches(name, prog) <==> name <= prog || name == prog + [0]
  {
    if |name| <= |prog| && AppMatches(name, prog) {
      assert name == prog[..|name|];
    }
    if name <= prog {
      assert (prog + [0])[..|name|] == prog[..|name|];
    }
  }

  function AppLength(buf: seq<Byte>): (r: nat)
    requires |buf| == BufSize
  {
    buf[AppLenAt]
  }

  /**
   * `rdk_dyn_log_validateComponentName(buf)` on the 128-byte buffer: the
   * request it passes to the callback, if any. A datagram that does not start
   * with "COMC", does not name this process, or carries no known level is
   * dropped. Reads that would leave the buffer, and a component length that
   * does not fit `comp_name` with its NUL, are undefined in C; the model drops
   * those datagrams too.
   */
  function Decode(buf: seq<Byte>, prog: seq<Byte>): (r: Option<Request>)
    requires |buf| == BufSize
    ensures r.Some? ==> buf[..SignatureLen] == Signature
    ensures r.Some? ==> AppAt + AppLength(buf) < BufSize && AppMatches(buf[AppAt..AppAt + AppLength(buf)], prog)
    ensures r.Some? ==> LogLevelToString(buf[LevelAt]) == Some(r.value.level)
    ensures r.Some? ==> |r.value.component| < CompNameSize && 0 !in r.value.component
  {
    var appLen := AppLength(buf);
    if buf[..SignatureLen] != Signature then None
    else if AppAt + appLen >= BufSize then None
    else if !AppMatches(buf[AppAt..AppAt + appLen], prog) then None
    else
      var compAt := AppAt + appLen + 1;
      var compLen := buf[AppAt + appLen];
      match LogLevelToString(buf[LevelAt])
      case None => None
      case Some(name) =>
        if compLen >= CompNameSize || compAt + compLen > BufSize then None
        else Some(Request(CString(buf[compAt..compAt + compLen]), name))
  }

  /** The buffer after `recvfrom` wrote datagram `d` into it: at most 128 bytes, the rest as they were. */
  function Received(buf: seq<Byte>, d: seq<Byte>): (r: seq<Byte>)
    requires |buf| == BufSize
    ensures |r| == BufSize
    ensures forall k :: 0 <= k < BufSize ==> r[k] == if k < |d| then d[k] else buf[k]
  {
    var n := Min(|d|, BufSize);
    d[..n] + buf[n..]
  }

  /** The check of `rdk_dyn_log_processPendingRequest`: `numbytes == buf[4] + DL_SIGNATURE_LEN + 1`. */
  predicate LengthOk(numbytes: int, buf: seq<Byte>): (r: bool)
    requires |buf| == BufSize
    ensures r ==> SignatureLen + 1 <= numbytes <= 255 + SignatureLen + 1
  {
    numbytes == buf[LengthAt] + SignatureLen + 1
  }

  /** The callback made for a decoded request: one call, or none. */
  function Emitted(r: Option<Request>): (s: seq<Request>)
    ensures |s| <= 1 && (s == [] <==> r.None?)
    ensures r.Some? ==> s[0] == r.value
  {
    if r.Some? then [r.value] else []
  }

  // ---------------------------------------------------------------------------
  // Draining the socket

  /** A queued datagram and whether it came from 127.0.0.1, or a failing `recvfrom`. */
  datatype Incoming = Packet(fromLoopback: bool, bytes: seq<Byte>) | RecvFailure

  /** The callbacks made, and the datagrams left queued. */
  datatype DrainResult = DrainResult(calls: seq<Request>, rest: seq<Incoming>)

  /**
   * The drain loop from buffer contents `buf`: datagrams are taken in arrival
   * order until none is left; a failing receive ends the call there.
   */
  function Drain(buf: seq<Byte>, q: seq<Incoming>, prog: seq<Byte>): (r: DrainResult)
    requires |buf| == BufSize
    ensures |r.rest| <= |q| && r.rest == q[|q| - |r.rest|..]
    decreases |q|
  {
    if q == [] then DrainResult([], [])
    else match q[0]
      case RecvFailure => DrainResult([], q[1..])
      case Packet(fromLoopback, d) =>
        var tail := Drain(Received(buf, d), q[1..], prog);
        DrainResult(Here(buf, fromLoopback, d, prog) + tail.calls, tail.rest)
  }

  /**
   * The call one datagram makes once received into `buf`: none unless it
   * came from 127.0.0.1 and its size matches its length byte.
   */
  function Here(buf: seq<Byte>, fromLoopback: bool, d: seq<Byte>, prog: seq<Byte>): (r: seq<Request>)
    requires |buf| == BufSize
    ensures |r| <= 1
    ensures r != [] ==> fromLoopback && Min(|d|, BufSize) == Received(buf, d)[LengthAt] + SignatureLen + 1
    ensures r != [] ==> Decode(Received(buf, d), prog) == Some(r[0])
  {
    var b := Received(buf, d);
    if fromLoopback && LengthOk(Min(|d|, BufSize), b) then Emitted(Decode(b, prog)) else []
  }

  /** One datagram off the front of the queue: its own call, if any, then the rest drained from the buffer it left. */
  lemma DrainPacket(buf: seq<Byte>, fromLoopback: bool, d: seq<Byte>, q: seq<Incoming>, prog: seq<Byte>)
    requires |buf| == BufSize
    ensures var tail := Drain(Received(buf, d), q, prog);
      Drain(buf, [Packet(fromLoopback, d)] + q, prog) == DrainResult(Here(buf, fromLoopback, d, prog) + tail.calls, tail.rest)
  {
    assert ([Packet(fromLoopback, d)] + q)[1..] == q;
  }

  /**
   * Regrouping the calls made so far. Stated on its own so that the drain
   * loop's proof does not have to reason about sequence equality in its
   * larger context, where the same assertion runs out of resource.
   */
  lemma AppendAssoc(a: seq<Request>, b: seq<Request>, c: seq<Request>)
    ensures (a + b) + c == a + (b + c)
  {
  }

  /** The buffer as the drain loop declares it. */
  function Zeros(): (z: seq<Byte>)
    ensures |z| == BufSize
  {
    seq(BufSize, _ => 0)
  }

  /** The position of the first failing receive in a queue that has one. */
  function FirstFailure(q: seq<Incoming>): (i: nat)
    requires RecvFailure in q
    ensures i < |q| && q[i] == RecvFailure && RecvFailure !in q[..i]
  {
    if q[0] == RecvFailure then 0
    else
      assert RecvFailure in q[1..] by { assert q == [q[0]] + q[1..]; }
      var i := FirstFailure(q[1..]) + 1;
      assert q[..i] == [q[0]] + q[1..][..i - 1];
      i
  }

  /** A call stops at the first failing receive and leaves what follows it queued; it empties a queue without one. */
  lemma {:induction false} DrainRest(buf: seq<Byte>, q: seq<Incoming>, prog: seq<Byte>)
    requires |buf| == BufSize
    ensures Drain(buf, q, prog).rest == if RecvFailure in q then q[FirstFailure(q) + 1..] else []
    decreases |q|
  {
    if q != [] && q[0] != RecvFailure {
      assert q == [q[0]] + q[1..];
      assert (RecvFailure in q) == (RecvFailure in q[1..]);
      DrainRest(Received(buf, q[0].bytes), q[1..], prog);
    }
  }

  /** A datagram from another host, or of the wrong size, makes no call itself. */
  lemma DropsForeign(buf: seq<Byte>, d: seq<Byte>, q: seq<Incoming>, prog: seq<Byte>)
    requires |buf| == BufSize
    requires !LengthOk(Min(|d|, BufSize), Received(buf, d))
    ensures Drain(buf, [Packet(true, d)] + q, prog).calls == Drain(Received(buf, d), q, prog).calls
    ensures Drain(buf, [Packet(false, d)] + q, prog).calls == Drain(Received(buf, d), q, prog).calls
  {
    assert ([Packet(true, d)] + q)[1..] == q;
    assert ([Packet(false, d)] + q)[1..] == q;
  }

  // ---------------------------------------------------------------------------
  // Datagrams that describe themselves

  /**
   * The datagram a sender builds for process `app`: the length byte counts
   * the bytes after it, and each name is preceded by its length.
   */
  function Encode(app: seq<Byte>, comp: seq<Byte>, level: Byte): (d: seq<Byte>)
    requires AppAt + |app| + 1 + |comp| <= BufSize
    ensures |d| == AppAt + |app| + 1 + |comp|
  {
    Signature + [(3 + |app| + |comp|) as Byte, level, |app| as Byte] + app + [|comp| as Byte] + comp
  }

  /** Every field the datagram's own length bytes describe lies within what was received. */
  predicate Fits(d: seq<Byte>) {
    && AppAt <= |d| <= BufSize
    && AppAt + d[AppLenAt] < |d|
    && AppAt + d[AppLenAt] + 1 + d[AppAt + d[AppLenAt]] <= |d|
  }

  /**
   * The intended decoder, on the datagram alone: also dropped are a datagram
   * longer than the buffer, one whose fields run past its end, and one whose
   * application name is not the whole process name.
   */
  function DecodeChecked(d: seq<Byte>, prog: seq<Byte>): (r: Option<Request>)
    ensures r.Some? ==> Fits(d) && d[..SignatureLen] == Signature
    ensures r.Some? ==> d[AppAt..AppAt + d[AppLenAt]] == prog
    ensures r.Some? ==> LogLevelToString(d[LevelAt]) == Some(r.value.level)
    ensures r.Some? ==> |r.value.component| < CompNameSize && 0 !in r.value.component
  {
    if !Fits(d) || d[..SignatureLen] != Signature then None
    else
      var appLen := d[AppLenAt];
      var compAt := AppAt + appLen + 1;
      var compLen := d[AppAt + appLen];
      if d[AppAt..AppAt + appLen] != prog || compLen >= CompNameSize then None
      else match LogLevelToString(d[LevelAt])
        case None => None
        case Some(name) => Some(Request(CString(d[compAt..compAt + compLen]), name))
  }

  /** The names in a built datagram come back out of its fields. */
  lemma EncodeFields(app: seq<Byte>, comp: seq<Byte>, level: Byte)
    requires AppAt + |app| + 1 + |comp| <= BufSize
    ensures var d := Encode(app, comp, level);
      && d[..SignatureLen] == Signature && d[LengthAt] + SignatureLen + 1 == |d|
      && d[LevelAt] == level && d[AppLenAt] == |app|
      && d[AppAt..AppAt + |app|] == app && d[AppAt + |app|] == |comp|
      && d[AppAt + |app| + 1..] == comp
  {
    var d := Encode(app, comp, level);
    var head := Signature + [(3 + |app| + |comp|) as Byte, level, |app| as Byte];
    assert d == head + app + [|comp| as Byte] + comp;
    assert d[..SignatureLen] == Signature;
    assert d[AppAt..AppAt + |app|] == app;
    assert d[AppAt + |app| + 1..] == comp;
  }

  /**
   * A datagram built for this process carries its component and level
   * through the intended decoder, with the length byte matching its size.
   */
  lemma EncodeDecodeChecked(prog: seq<Byte>, comp: seq<Byte>, level: Byte)
    requires AppAt + |prog| + 1 + |comp| <= BufSize
    requires |comp| < CompNameSize && 0 !in comp
    ensures var d := Encode(prog, comp, level);
      && Fits(d) && LengthOk(|d|, Received(Zeros(), d))
      && DecodeChecked(d, prog) == (if LogLevelToString(level).Some? then Some(Request(comp, LogLevelToString(level).value)) else None)
  {
    var d := Encode(prog, comp, level);
    EncodeFields(prog, comp, level);
    assert d[AppAt + |prog| + 1..AppAt + |prog| + 1 + |comp|] == comp;
    CStringNoNul(comp);
    assert Received(Zeros(), d)[LengthAt] == d[LengthAt];
  }

  lemma {:induction false} CStringNoNul(s: seq<Byte>)
    requires 0 !in s
    ensures CString(s) == s
  {
    if s != [] {
      assert 0 !in s[1..] by { assert forall k :: 0 <= k < |s[1..]| ==> s[1..][k] == s[k + 1]; }
      CStringNoNul(s[1..]);
    }
  }

  /**
   * Where the datagram describes itself and its application name is no mere
   * start of the process name, the decoder as written, on the buffer it was
   * received into whatever that held before, agrees with the intended one.
   */
  lemma CheckedAgrees(buf: seq<Byte>, d: seq<Byte>, prog: seq<Byte>)
    requires |buf| == BufSize && Fits(d)
    requires var app := d[AppAt..AppAt + d[AppLenAt]]; AppMatches(app, prog) ==> app == prog
    ensures Decode(Received(buf, d), prog) == DecodeChecked(d, prog)
  {
    var b := Received(buf, d);
    var appLen := d[AppLenAt];
    assert b[..|d|] == d[..|d|];
    assert b[..SignatureLen] == d[..SignatureLen];
    assert b[AppAt..AppAt + appLen] == d[AppAt..AppAt + appLen];
    var compAt := AppAt + appLen + 1;
    var compLen := d[AppAt + appLen];
    assert b[compAt..compAt + compLen] == d[compAt..compAt + compLen];
    if d[AppAt..AppAt + appLen] == prog {
      assert AppMatches(prog, prog) by { assert (prog + [0])[..|prog|] == prog; }
    }
  }

  /** The intended calls of a queue: one per well-sized loopback datagram the intended decoder accepts. */
  function CheckedCalls(q: seq<Incoming>, prog: seq<Byte>): (r: seq<Request>)
    decreases |q|
  {
    if q == [] then []
    else match q[0]
      case RecvFailure => []
      case Packet(fromLoopback, d) =>
        (if fromLoopback && |d| == LengthByte(d) + SignatureLen + 1 then Emitted(DecodeChecked(d, prog)) else [])
        + CheckedCalls(q[1..], prog)
  }

  /** The length byte of a datagram long enough to have one. */
  function LengthByte(d: seq<Byte>): (r: int) {
    if |d| > LengthAt then d[LengthAt] else -1
  }

  /** A datagram the intended decoder can judge on its own bytes. */
  predicate SelfContained(i: Incoming, prog: seq<Byte>) {
    i.Packet? ==>
      && Fits(i.bytes)
      && var app := i.bytes[AppAt..AppAt + i.bytes[AppLenAt]]; AppMatches(app, prog) ==> app == prog
  }

  /**
   * Draining a queue of self-contained datagrams makes exactly the intended
   * calls, in order, whatever the buffer held before.
   */
  lemma {:induction false} DrainSelfContained(buf: seq<Byte>, q: seq<Incoming>, prog: seq<Byte>)
    requires |buf| == BufSize
    requires forall i :: 0 <= i < |q| ==> SelfContained(q[i], prog)
    ensures Drain(buf, q, prog).calls == CheckedCalls(q, prog)
    decreases |q|
  {
    if q != [] && q[0].Packet? {
      var lb, d := q[0].fromLoopback, q[0].bytes;
      var b := Received(buf, d);
      assert SelfContained(q[0], prog);
      CheckedAgrees(buf, d, prog);
      assert b[LengthAt] == d[LengthAt];
      var own := if lb && |d| == LengthByte(d) + SignatureLen + 1 then Emitted(DecodeChecked(d, prog)) else [];
      assert Min(|d|, BufSize) == |d| && (LengthOk(|d|, b) <==> |d| == LengthByte(d) + SignatureLen + 1);
      assert Here(buf, lb, d, prog) == own;
      assert q == [Packet(lb, d)] + q[1..];
      DrainPacket(buf, lb, d, q[1..], prog);
      assert CheckedCalls(q, prog) == own + CheckedCalls(q[1..], prog);
      assert forall i :: 0 <= i < |q[1..]| ==> SelfContained(q[1..][i], prog) by {
        forall i | 0 <= i < |q[1..]| ensures SelfContained(q[1..][i], prog) {
          assert q[1..][i] == q[i + 1];
        }
      }
      DrainSelfContained(b, q[1..], prog);
    }
  }

  // ---------------------------------------------------------------------------
  // Findings

  /**
   * A datagram that names this process and level FATAL, with a component
   * length of 2 but no component bytes: its size, 9, matches its length byte.
   */
  const Truncated: seq<Byte> := [0x43, 0x4F, 0x4D, 0x43, 4, 0, 1, 0x61, 2]

  /** Process "a"; the datagram before it named component "AB". */
  const ProgA: seq<Byte> := [0x61]
  const NamesAB: seq<Byte> := [0x43, 0x4F, 0x4D, 0x43, 6, 0, 1, 0x61, 2, 0x41, 0x42]

  /**
   * As written, the truncated datagram is accepted, and its component is read
   * from the bytes the datagram before it left in the buffer.
   */
  lemma StaleComponent(buf: seq<Byte>)
    requires |buf| == BufSize
    ensures var b := Received(Received(buf, NamesAB), Truncated);
      LengthOk(|Truncated|, b) && Decode(b, ProgA) == Some(Request([0x41, 0x42], "FATAL"))
  {
    var b1 := Received(buf, NamesAB);
    var b := Received(b1, Truncated);
    assert b[..SignatureLen] == Signature;
    assert b[AppAt..AppAt + 1] == [0x61];
    assert AppMatches([0x61], ProgA) by { assert (ProgA + [0])[..1] == [0x61]; }
    assert b[9..11] == [0x41, 0x42];
    assert CString([0x41, 0x42]) == [0x41, 0x42] by { CStringNoNul([0x41, 0x42]); }
    assert RemoteNames[0] == "FATAL" && "" + "FATAL" == "FATAL";
    assert LogLevelToString(0) == Some("FATAL");
  }

  /** The intended decoder drops the truncated datagram. */
  lemma TruncatedDropped()
    ensures !Fits(Truncated) && DecodeChecked(Truncated, ProgA) == None
  {
  }

  /**
   * As written, a datagram with an empty application name reaches every
   * process: the comparison covers only the bytes the sender supplied.
   */
  lemma EmptyAppAccepted(prog: seq<Byte>, comp: seq<Byte>, level: Byte, buf: seq<Byte>)
    requires |buf| == BufSize && AppAt + 1 + |comp| <= BufSize
    requires |comp| < CompNameSize && 0 !in comp && LogLevelToString(level).Some?
    ensures Decode(Received(buf, Encode([], comp, level)), prog) == Some(Request(comp, LogLevelToString(level).value))
  {
    var d := Encode([], comp, level);
    EncodeFields([], comp, level);
    var b := Received(buf, d);
    assert b[..SignatureLen] == d[..SignatureLen];
    assert b[AppAt..AppAt] == [];
    assert AppMatches([], prog);
    assert b[AppAt + 1..AppAt + 1 + |comp|] == d[AppAt + 1..AppAt + 1 + |comp|] == comp;
    CStringNoNul(comp);
  }

  /** The intended decoder delivers a request only to the process it names in full. */
  lemma CheckedNamesProcess(d: seq<Byte>, prog: seq<Byte>, other: seq<Byte>)
    requires DecodeChecked(d, prog).Some? && other != prog
    ensures DecodeChecked(d, other) == None
  {
  }

  // ---------------------------------------------------------------------------
  // The listener

  class DynLogger {
    /** `g_dl_socket != -1`. */
    var socketOpen: bool
    /** The datagrams queued on the socket, oldest first. */
    var pending: seq<Incoming>
    /** The `RDK_LOG_ControlCB` calls made so far. */
    var calls: seq<Request>
    /** `__progname`. */
    const progname: seq<Byte>

    /** `__progname` is a C string, and a closed socket holds no datagrams. */
    ghost predicate Valid()
      reads this
    {
      0 !in progname && (!socketOpen ==> pending == [])
    }

    /** The listener before `rdk_dyn_log_init`: `g_dl_socket` is -1. */
    constructor (prog: seq<Byte>)
      requires 0 !in prog
      ensures Valid() && progname == prog
      ensures !socketOpen && pending == [] && calls == []
    {
      progname := prog;
      socketOpen := false;
      pending := [];
      calls := [];
    }

    /**
     * `rdk_dyn_log_init`: the socket stays open only when `socket`,
     * `setsockopt` and `bind` all succeed; a new socket has nothing queued.
     */
    method Init(socketOk: bool, setsockoptOk: bool, bindOk: bool)
      requires Valid()
      modifies this
      ensures Valid()
      ensures socketOpen == (socketOk && setsockoptOk && bindOk)
      ensures pending == [] && calls == old(calls)
    {
      if !socketOk {
        socketOpen := false;
        pending := [];
        return;
      }
      socketOpen := true;
      pending := [];
      if !setsockoptOk {
        socketOpen := false;
        return;
      }
      if !bindOk {
        socketOpen := false;
        return;
      }
    }

    /** `rdk_dyn_log_deInit`: the socket is closed and what it held is gone. */
    method DeInit()
      requires Valid()
      modifies this
      ensures Valid()
      ensures !socketOpen && pending == [] && calls == old(calls)
    {
      socketOpen := false;
      pending := [];
    }

    /** A datagram sent to port 12035: queued while the socket is bound, lost otherwise. */
    method Deliver(i: Incoming)
      requires Valid()
      modifies this
      ensures Valid()
      ensures socketOpen == old(socketOpen) && calls == old(calls)
      ensures pending == old(pending) + (if socketOpen then [i] else [])
    {
      if socketOpen {
        pending := pending + [i];
      }
    }

    /** `rdk_dyn_log_validateComponentName(buf)`, which reports to the callback sink. */
    method ValidateComponentName(buf: array<Byte>)
      requires buf.Length == BufSize
      modifies this
      ensures socketOpen == old(socketOpen) && pending == old(pending)
      ensures calls == old(calls) + Emitted(Decode(buf[..], progname))
    {
      ghost var s := buf[..];
      var i := SignatureLen;
      assert buf[..i] == s[..SignatureLen];
      if buf[..i] != Signature {
        assert Decode(s, progname) == None;
        return;
      }
      i := i + 1;
      var logLevel := buf[i];
      i := i + 1;
      var appLen := buf[i];
      i := i + 1;
      if i + appLen >= BufSize {
        assert Decode(s, progname) == None;
        return;
      }
      assert buf[i..i + appLen] == s[AppAt..AppAt + appLen];
      if !AppMatches(buf[i..i + appLen], progname) {
        assert Decode(s, progname) == None;
        return;
      }
      i := i + appLen;
      var compLen := buf[i];
      var loggingLevel := LogLevelToString(logLevel);
      if loggingLevel.Some? {
        i := i + 1;
        if compLen >= CompNameSize || i + compLen > BufSize {
          assert Decode(s, progname) == None;
          return;
        }
        assert buf[i..i + compLen] == s[i..i + compLen];
        var compName := CString(buf[i..i + compLen]);
        assert Decode(s, progname) == Some(Request(compName, loggingLevel.value));
        calls := calls + [Request(compName, loggingLevel.value)];
      } else {
        assert Decode(s, progname) == None;
      }
    }

    /**
     * `rdk_dyn_log_processPendingRequest`: nothing while the socket is
     * closed; otherwise the queued datagrams are drained into one buffer.
     */
    method ProcessPendingRequest()
      requires Valid()
      modifies this
      ensures Valid() && socketOpen == old(socketOpen)
      ensures !old(socketOpen) ==> pending == old(pending) && calls == old(calls)
      ensures old(socketOpen) ==>
        var r := Drain(Zeros(), old(pending), progname);
        calls == old(calls) + r.calls && pending == r.rest
    {
      if !socketOpen {
        return;
      }
      var buf := new Byte[BufSize](_ => 0);
      assert buf[..] == Zeros();
      DrainSocket(buf);
    }

    /** The `while(1)` loop of `rdk_dyn_log_processPendingRequest`, receiving into `buf`. */
    method DrainSocket(buf: array<Byte>)
      requires buf.Length == BufSize && socketOpen && Valid()
      modifies this, buf
      ensures Valid() && socketOpen
      ensures var r := Drain(old(buf[..]), old(pending), progname);
        calls == old(calls) + r.calls && pending == r.rest
    {
      ghost var r0 := Drain(buf[..], pending, progname);
      while true
        invariant socketOpen && Valid()
        invariant old(calls) + r0.calls == calls + Drain(buf[..], pending, progname).calls
        invariant Drain(buf[..], pending, progname).rest == r0.rest
        decreases |pending|
      {
        if pending == [] {
          break;
        }
        var datagram := pending[0];
        ghost var before := buf[..];
        assert pending == [datagram] + pending[1..];
        pending := pending[1..];
        if datagram.RecvFailure? {
          return;
        }
        DrainPacket(before, datagram.fromLoopback, datagram.bytes, pending, progname);
        ghost var callsBefore := calls;
        ghost var here := Here(before, datagram.fromLoopback, datagram.bytes, progname);
        ReceiveOne(buf, datagram.fromLoopback, datagram.bytes);
        ghost var tail := Drain(buf[..], pending, progname).calls;
        AppendAssoc(callsBefore, here, tail);
      }
    }

    /** One pass of the drain loop's body: receive the datagram into `buf`, check it, decode it. */
    method ReceiveOne(buf: array<Byte>, fromLoopback: bool, d: seq<Byte>)
      requires buf.Length == BufSize
      modifies this, buf
      ensures socketOpen == old(socketOpen) && pending == old(pending)
      ensures buf[..] == Received(old(buf[..]), d)
      ensures calls == old(calls) + Here(old(buf[..]), fromLoopback, d, progname)
    {
      var numbytes := Receive(buf, d);
      if fromLoopback && numbytes == buf[LengthAt] + SignatureLen + 1 {
        ValidateComponentName(buf);
      }
    }
  }

  /** `recvfrom(g_dl_socket, buf, sizeof(buf), ...)`: at most 128 bytes of the datagram, and how many. */
  method Receive(buf: array<Byte>, d: seq<Byte>) returns (numbytes: nat)
    requires buf.Length == BufSize
    modifies buf
    ensures numbytes == Min(|d|, BufSize)
    ensures buf[..] == Received(old(buf[..]), d)
  {
    numbytes := Min(|d|, BufSize);
    forall k | 0 <= k < numbytes {
      buf[k] := d[k];
    }
  }
}
