/**
 * Three string rules of the log4c glue in `src/rdk_debug_priv.c` that decide
 * something before any output happens: the module name a layout prints for a
 * category, the `host:port` check `createUDPSocket` makes before it opens a
 * socket, and the `$(VAR)` expansion `stream_env_open` applies to a stream
 * name, with `getenv` given as a map.
 */
module LayoutHelpers {
  import opened Wrappers
  import opened Chars
  import Registry

  // ---------------------------------------------------------------------------
  // The module of a category: the last dotted component, or UNKNOWN

  const UnknownModule := "UNKNOWN"

  /** The position of the last `.` of `s` before `j`, or -1. */
  function LastDot(s: string, j: nat): (r: int)
    requires j <= |s|
    ensures r == -1 || (0 <= r < j && s[r] == '.')
    ensures forall k :: r < k < j ==> s[k] != '.'
  {
    if j == 0 then -1 else if s[j - 1] == '.' then j - 1 else LastDot(s, j - 1)
  }

  /** A category the layout can take a module from: non-empty, not starting or ending with `.`. */
  predicate Dotted(s: string) {
    |s| > 0 && s[0] != '.' && s[|s| - 1] != '.'
  }

  /** The `mod=` field the layouts print for a category name that may be NULL. */
  function CategoryModule(cat: Option<string>): (r: string)
    ensures r != [] && '.' !in r
  {
    if cat.Some? && Dotted(cat.value) then cat.value[LastDot(cat.value, |cat.value|) + 1..]
    else UnknownModule
  }

  /** For a usable category the module is its last component: a suffix after a `.`, or the whole name. */
  lemma CategoryModuleSuffix(s: string)
    requires Dotted(s)
    ensures var r := CategoryModule(Some(s));
      s == s[..|s| - |r|] + r && (|r| == |s| || s[|s| - |r| - 1] == '.')
  {
  }

  /** A name such as `LOG.RDK.DEFAULT` gives its last component. */
  lemma CategoryModuleExample()
    ensures CategoryModule(Some("LOG.RDK.DEFAULT")) == "DEFAULT"
  {
    var s := "LOG.RDK.DEFAULT";
    assert s[7] == '.' && forall k :: 7 < k < |s| ==> s[k] != '.';
    assert LastDot(s, |s|) == 7;
    assert s[8..] == "DEFAULT";
  }

  /** A NULL, empty or dot-ended category gives UNKNOWN. */
  lemma CategoryModuleUnknown(cat: Option<string>)
    requires cat.None? || !Dotted(cat.value)
    ensures CategoryModule(cat) == UnknownModule
  {
  }

  /** The backward scan of the layouts: from the last character back to a `.` or the start. */
  method ModuleOfCategory(cat: Option<string>) returns (p: string)
    ensures p == CategoryModule(cat)
  {
    if cat.None? {
      return UnknownModule;
    }
    var s := cat.value;
    if !(|s| > 0 && s[0] != '.' && s[|s| - 1] != '.') {
      return UnknownModule;
    }
    var i := |s| - 1;
    while i != 0 && s[i] != '.'
      invariant 0 <= i < |s|
      invariant forall k :: i < k < |s| ==> s[k] != '.'
      decreases i
    {
      i := i - 1;
    }
    if s[i] == '.' {
      i := i + 1;
    }
    p := s[i..];
  }

  // ---------------------------------------------------------------------------
  // createUDPSocket: the host:port check

  /** `HOSTADDR_STR_MAX`: `hostaddr` holds this many characters and a NUL. */
  const HostAddrMax: nat := 255

  /** `SHRT_MAX`. */
  const ShrtMax: int := 32767

  predicate IsDigit(c: char) {
    '0' as int <= c as int <= '9' as int
  }

  /** The end of the run of digits that starts at `i`. */
  function DigitsEnd(s: string, i: nat): (j: nat)
    requires i <= |s|
    ensures i <= j <= |s|
    ensures forall k :: i <= k < j ==> IsDigit(s[k])
    ensures j == |s| || !IsDigit(s[j])
    decreases |s| - i
  {
    if i < |s| && IsDigit(s[i]) then DigitsEnd(s, i + 1) else i
  }

  /** The digits from `i` end at `j` when all between are digits and `s[j]` is not. */
  lemma DigitsEndAt(s: string, i: nat, j: nat)
    requires i <= j <= |s|
    requires forall k :: i <= k < j ==> IsDigit(s[k])
    requires j == |s| || !IsDigit(s[j])
    ensures DigitsEnd(s, i) == j
  {
  }

  /** The value of a string of decimal digits. */
  function DecimalValue(ds: string): (r: nat)
    requires forall k :: 0 <= k < |ds| ==> IsDigit(ds[k])
  {
    if ds == [] then 0
    else
      assert IsDigit(ds[|ds| - 1]);
      DecimalValue(ds[..|ds| - 1]) * 10 + (ds[|ds| - 1] as int - '0' as int)
  }

  /**
   * `strtol(s, &end, 10)`: white space, an optional sign and the digits that
   * follow; with no digits the value is 0 and the end is the start. The
   * saturation at `LONG_MAX` and `LONG_MIN` is not modelled, and the check
   * below decides the same either way.
   */
  function Strtol(s: string): (r: (int, nat))
    ensures r.1 <= |s|
  {
    var a := Registry.SkipSpace(s, 0);
    var b := if a < |s| && (s[a] == '+' || s[a] == '-') then a + 1 else a;
    var e := DigitsEnd(s, b);
    if e == b then (0, 0)
    else
      var v: int := DecimalValue(s[b..e]);
      if b > a && s[a] == '-' then (-v, e) else (v, e)
  }

  /**
   * What `createUDPSocket` accepts, as written: the text before the first `:`
   * as host, and after it a port of 1 to `SHRT_MAX - 1` with nothing after
   * the number.
   */
  function HostPort(cfg: string): (r: Option<(string, int)>)
    ensures r.Some? ==> ':' !in r.value.0 && 0 < r.value.1 < ShrtMax
    ensures r.Some? ==> |r.value.0| < |cfg| && cfg[..|r.value.0|] == r.value.0 && cfg[|r.value.0|] == ':'
  {
    var c := Registry.IndexOfChar(cfg, ':');
    if c == -1 then None
    else
      var portStr := cfg[c + 1..];
      if portStr == [] then None
      else
        var (port, end) := Strtol(portStr);
        if port <= 0 || end != |portStr| || port >= ShrtMax then None
        else
          assert forall k :: 0 <= k < c ==> cfg[..c][k] != ':';
          Some((cfg[..c], port))
  }

  /** The host check as intended: a host that does not fit `hostaddr` is refused too. */
  function HostPortChecked(cfg: string): (r: Option<(string, int)>)
    ensures r.Some? ==> |r.value.0| <= HostAddrMax && r == HostPort(cfg)
    ensures r.None? && HostPort(cfg).Some? ==> |HostPort(cfg).value.0| > HostAddrMax
  {
    var c := Registry.IndexOfChar(cfg, ':');
    if c > HostAddrMax then None else HostPort(cfg)
  }

  /** The decimal digits of `n`, most significant first. */
  function DecimalString(n: nat): (s: string)
    ensures |s| > 0 && forall k :: 0 <= k < |s| ==> IsDigit(s[k])
  {
    var d := [(n % 10 + '0' as int) as char];
    if n < 10 then d else DecimalString(n / 10) + d
  }

  /** Reading the digits of `n` back gives `n`. */
  lemma {:induction false} DecimalRoundTrip(n: nat)
    ensures DecimalValue(DecimalString(n)) == n
    decreases n
  {
    var s := DecimalString(n);
    if n >= 10 {
      DecimalRoundTrip(n / 10);
      assert s[..|s| - 1] == DecimalString(n / 10);
    }
  }

  /** `strtol` reads the digits of `n` wholly and gives `n`; with a character other than a digit after them it stops there. */
  lemma StrtolDecimal(n: nat, tail: string)
    requires tail == [] || !IsDigit(tail[0])
    ensures Strtol(DecimalString(n) + tail) == (n, |DecimalString(n)|)
  {
    var ds := DecimalString(n);
    var s := ds + tail;
    assert !IsSpace(s[0]) && s[0] != '+' && s[0] != '-';
    assert Registry.SkipSpace(s, 0) == 0;
    forall k | 0 <= k < |ds| ensures IsDigit(s[k]) {
      assert s[k] == ds[k];
    }
    DigitsEndAt(s, 0, |ds|);
    assert s[0..|ds|] == ds;
    DecimalRoundTrip(n);
  }

  /** A host and a number split at the colon: accepted exactly when the port is in range. */
  lemma HostPortOf(host: string, n: nat)
    requires ':' !in host
    ensures HostPort(host + ":" + DecimalString(n)) == if 0 < n < ShrtMax then Some((host, n)) else None
  {
    var cfg := host + ":" + DecimalString(n);
    FirstColon(host, cfg);
    assert cfg[|host| + 1..] == DecimalString(n) + [];
    StrtolDecimal(n, []);
    assert cfg[..|host|] == host;
  }

  /** A character other than a digit after the port makes the whole setting invalid. */
  lemma TrailingGarbage(host: string, n: nat, c: char)
    requires ':' !in host && !IsDigit(c)
    ensures HostPort(host + ":" + DecimalString(n) + [c]) == None
  {
    var cfg := host + ":" + DecimalString(n) + [c];
    FirstColon(host, cfg);
    assert cfg[|host| + 1..] == DecimalString(n) + [c];
    StrtolDecimal(n, [c]);
  }

  /** Without a colon, or with nothing after it, there is no setting. */
  lemma NoPort(cfg: string, host: string)
    requires ':' !in host
    ensures ':' !in cfg ==> HostPort(cfg) == None
    ensures HostPort(host + ":") == None
  {
    var h := host + ":";
    FirstColon(host, h);
    assert h[|host| + 1..] == [];
  }

  /** With the length of the host checked, a host that fits and a valid port come back out. */
  lemma HostPortCheckedRoundTrip(host: string, n: nat)
    requires ':' !in host && |host| <= HostAddrMax && 0 < n < ShrtMax
    ensures HostPortChecked(host + ":" + DecimalString(n)) == Some((host, n))
  {
    HostPortOf(host, n);
    var cfg := host + ":" + DecimalString(n);
    FirstColon(host, cfg);
  }

  /** The first `:` of a setting that starts with a host without one is just after the host. */
  lemma FirstColon(host: string, cfg: string)
    requires ':' !in host && |host| < |cfg| && cfg[..|host|] == host && cfg[|host|] == ':'
    ensures Registry.IndexOfChar(cfg, ':') == |host|
  {
    forall k | 0 <= k < |host| ensures cfg[k] != ':' {
      assert cfg[k] == cfg[..|host|][k];
    }
  }

  /** A host of 300 characters. */
  function LongHost(): (h: string)
    ensures |h| == 300 && ':' !in h
  {
    seq(300, _ => 'h')
  }

  /**
   * As written, a host longer than `HOSTADDR_STR_MAX` is accepted, and
   * `strncpy(hostaddr, cfgStr, portStr - cfgStr)` copies all of it into the
   * 256-byte `hostaddr`; the intended check refuses it.
   */
  lemma LongHostAccepted(n: nat)
    requires 0 < n < ShrtMax
    ensures HostPort(LongHost() + ":" + DecimalString(n)) == Some((LongHost(), n))
    ensures |LongHost()| > HostAddrMax + 1
    ensures HostPortChecked(LongHost() + ":" + DecimalString(n)) == None
  {
    HostPortOf(LongHost(), n);
  }

  // ---------------------------------------------------------------------------
  // stream_env_open: $(VAR) expansion

  /** `MAX_VAR_LEN`: `newName` holds this many characters and a NUL. */
  const MaxVarLen: nat := 1024

  /** The name `stream_env_open` opens, or the reason it gives up. */
  datatype Expansion = Expanded(path: string) | ParseError | LengthError

  /** The outcome, and the longest `newName` got on the way. */
  datatype ExpandRun = ExpandRun(outcome: Expansion, peak: nat)

  /** `strchr(s + i, c)`: the first position of `c` from `i` on, or -1. */
  function Find(s: string, c: char, i: nat): (r: int)
    requires i <= |s|
    ensures r == -1 || (i <= r < |s| && s[r] == c)
    ensures forall k :: i <= k < |s| && (r == -1 || k < r) ==> s[k] != c
    decreases |s| - i
  {
    if i == |s| then -1 else if s[i] == c then i else Find(s, c, i + 1)
  }

  /** `c` first occurs at `j` from `i` on when it is there and nowhere between. */
  lemma FindAt(s: string, c: char, i: nat, j: nat)
    requires i <= j < |s| && s[j] == c
    requires forall k :: i <= k < j ==> s[k] != c
    ensures Find(s, c, i) == j
  {
  }

  /** `c` does not occur from `i` on. */
  lemma FindNone(s: string, c: char, i: nat)
    requires i <= |s|
    requires forall k :: i <= k < |s| ==> s[k] != c
    ensures Find(s, c, i) == -1
  {
  }

  predicate TooLong(out: string, piece: string) {
    |out| + |piece| > MaxVarLen
  }

  /**
   * A piece that does not fit: as written it is appended first and the
   * length checked after; with `checkFirst` the check comes before.
   */
  function Overflow(out: string, piece: string, checkFirst: bool): (r: ExpandRun) {
    ExpandRun(LengthError, if checkFirst then |out| else |out| + |piece|)
  }

  /**
   * The expansion loop from position `t` of `name`, with `out` already in
   * `newName`: copy up to the next `$`, which must not end the name and must
   * be followed by `(`; at the end copy the rest.
   */
  function ExpandFrom(name: string, env: map<string, string>, t: nat, out: string, checkFirst: bool): (r: ExpandRun)
    requires t <= |name|
    ensures r.outcome.Expanded? ==> |r.outcome.path| <= MaxVarLen && r.peak == |r.outcome.path|
    ensures r.peak >= |out|
    ensures |out| <= MaxVarLen && r.outcome != LengthError ==> r.peak <= MaxVarLen
    decreases |name| - t, 1
  {
    var d := Find(name, '$', t);
    if d == -1 then
      if TooLong(out, name[t..]) then Overflow(out, name[t..], checkFirst)
      else ExpandRun(Expanded(out + name[t..]), |out| + |name[t..]|)
    else if d + 1 >= |name| || name[d + 1] != '(' then ExpandRun(ParseError, |out|)
    else if TooLong(out, name[t..d]) then Overflow(out, name[t..d], checkFirst)
    else ExpandVar(name, env, d + 2, out + name[t..d], checkFirst)
  }

  /**
   * After `$(` at `b`: the variable is named up to the next `)`, and its value
   * is appended; a missing `)` or an unset variable is a parse error.
   */
  function ExpandVar(name: string, env: map<string, string>, b: nat, out: string, checkFirst: bool): (r: ExpandRun)
    requires b <= |name|
    ensures r.outcome.Expanded? ==> |r.outcome.path| <= MaxVarLen && r.peak == |r.outcome.path|
    ensures r.peak >= |out|
    ensures |out| <= MaxVarLen && r.outcome != LengthError ==> r.peak <= MaxVarLen
    decreases |name| - b, 0
  {
    var e := Find(name, ')', b);
    if e == -1 then ExpandRun(ParseError, |out|)
    else if name[b..e] !in env then ExpandRun(ParseError, |out|)
    else if TooLong(out, env[name[b..e]]) then Overflow(out, env[name[b..e]], checkFirst)
    else ExpandFrom(name, env, e + 1, out + env[name[b..e]], checkFirst)
  }

  /** `stream_env_open` as written. */
  function Expand(name: string, env: map<string, string>): (r: ExpandRun)
    ensures r.outcome.Expanded? ==> |r.outcome.path| <= MaxVarLen
    ensures r.outcome != LengthError ==> r.peak <= MaxVarLen
  {
    ExpandFrom(name, env, 0, "", false)
  }

  /** The same expansion with every length check made before the append. */
  function ExpandChecked(name: string, env: map<string, string>): (r: ExpandRun)
    ensures r.outcome.Expanded? ==> |r.outcome.path| <= MaxVarLen
    ensures r.peak <= MaxVarLen
  {
    CheckFirstFrom(name, env, 0, "");
    ExpandFrom(name, env, 0, "", true)
  }

  /** Checking first changes no outcome, and keeps `newName` within its `MAX_VAR_LEN` characters. */
  lemma {:induction false} CheckFirstFrom(name: string, env: map<string, string>, t: nat, out: string)
    requires t <= |name| && |out| <= MaxVarLen
    ensures ExpandFrom(name, env, t, out, true).outcome == ExpandFrom(name, env, t, out, false).outcome
    ensures ExpandFrom(name, env, t, out, true).peak <= MaxVarLen
    decreases |name| - t, 1
  {
    var d := Find(name, '$', t);
    if d != -1 && d + 1 < |name| && name[d + 1] == '(' && !TooLong(out, name[t..d]) {
      CheckFirstVar(name, env, d + 2, out + name[t..d]);
    }
  }

  lemma {:induction false} CheckFirstVar(name: string, env: map<string, string>, b: nat, out: string)
    requires b <= |name| && |out| <= MaxVarLen
    ensures ExpandVar(name, env, b, out, true).outcome == ExpandVar(name, env, b, out, false).outcome
    ensures ExpandVar(name, env, b, out, true).peak <= MaxVarLen
    decreases |name| - b, 0
  {
    var e := Find(name, ')', b);
    if e != -1 && name[b..e] in env && !TooLong(out, env[name[b..e]]) {
      CheckFirstFrom(name, env, e + 1, out + env[name[b..e]]);
    }
  }

  /** With the check first, `newName` never holds more than it has room for, and the outcome is as written. */
  lemma CheckFirst(name: string, env: map<string, string>)
    ensures ExpandChecked(name, env).outcome == Expand(name, env).outcome
    ensures ExpandChecked(name, env).peak <= MaxVarLen
  {
    CheckFirstFrom(name, env, 0, "");
  }

  /** A name without `$` is opened as it is, when it fits. */
  lemma ExpandPlain(name: string, env: map<string, string>)
    requires '$' !in name
    ensures Expand(name, env).outcome == if |name| <= MaxVarLen then Expanded(name) else LengthError
  {
    FindNone(name, '$', 0);
    assert name[0..] == name;
  }

  /** One variable: the text around it is kept and `$(v)` becomes its value. */
  lemma ExpandOne(p: string, v: string, q: string, env: map<string, string>)
    requires '$' !in p && '$' !in q && ')' !in v && v in env
    requires |p| + |env[v]| + |q| <= MaxVarLen
    ensures Expand(p + "$(" + v + ")" + q, env).outcome == Expanded(p + env[v] + q)
  {
    var name := p + "$(" + v + ")" + q;
    var d := |p|;
    var e := |p| + 2 + |v|;
    FirstDollar(p, name);
    assert name[0..d] == p && name[d + 1] == '(';
    forall k | d + 2 <= k < e ensures name[k] != ')' {
      assert name[k] == v[k - d - 2];
    }
    FindAt(name, ')', d + 2, e);
    assert name[d + 2..e] == v;
    forall k | e + 1 <= k < |name| ensures name[k] != '$' {
      assert name[k] == q[k - e - 1];
    }
    FindNone(name, '$', e + 1);
    assert name[e + 1..] == q;
    assert "" + name[0..d] == p;
    assert Expand(name, env) == ExpandVar(name, env, d + 2, p, false);
    assert ExpandVar(name, env, d + 2, p, false) == ExpandFrom(name, env, e + 1, p + env[v], false);
  }

  /** A `$` that ends the name and a `$` without `(` are parse errors. */
  lemma ExpandBadDollar(p: string, env: map<string, string>, c: char)
    requires '$' !in p && c != '('
    ensures Expand(p + "$", env).outcome == ParseError
    ensures Expand(p + "$" + [c], env).outcome == ParseError
  {
    FirstDollar(p, p + "$");
    FirstDollar(p, p + "$" + [c]);
  }

  /** An unterminated `$(` and an unset variable are parse errors. */
  lemma ExpandBadVariable(p: string, v: string, env: map<string, string>)
    requires '$' !in p && |p| <= MaxVarLen && ')' !in v
    ensures Expand(p + "$(" + v, env).outcome == ParseError
    ensures v !in env ==> Expand(p + "$(" + v + ")", env).outcome == ParseError
  {
    var d := |p|;
    var n3 := p + "$(" + v;
    FirstDollar(p, n3);
    assert n3[0..d] == p;
    forall k | d + 2 <= k < |n3| ensures n3[k] != ')' {
      assert n3[k] == v[k - d - 2];
    }
    FindNone(n3, ')', d + 2);
    assert "" + n3[0..d] == p;
    assert Expand(n3, env) == ExpandVar(n3, env, d + 2, p, false);
    var n4 := p + "$(" + v + ")";
    FirstDollar(p, n4);
    assert n4[0..d] == p;
    forall k | d + 2 <= k < |n4| - 1 ensures n4[k] != ')' {
      assert n4[k] == v[k - d - 2];
    }
    FindAt(n4, ')', d + 2, |n4| - 1);
    assert n4[d + 2..|n4| - 1] == v;
    assert "" + n4[0..d] == p;
    assert Expand(n4, env) == ExpandVar(n4, env, d + 2, p, false);
  }

  /** The first `$` of a name that starts with `p` and then has a `$` is just after `p`. */
  lemma FirstDollar(p: string, name: string)
    requires '$' !in p && |p| < |name| && name[..|p|] == p && name[|p|] == '$'
    ensures Find(name, '$', 0) == |p|
  {
    forall k | 0 <= k < |p| ensures name[k] != '$' {
      assert name[k] == name[..|p|][k];
    }
    FindAt(name, '$', 0, |p|);
  }

  /** A name of 1100 characters. */
  function LongName(): (n: string)
    ensures |n| == 1100 && '$' !in n
  {
    seq(1100, _ => 'a')
  }

  /**
   * As written, a name without variables longer than `MAX_VAR_LEN` is copied
   * into the 1025-byte `newName` before its length is checked; the check
   * made first refuses it with nothing copied.
   */
  lemma AppendBeforeCheck()
    ensures Expand(LongName(), map[]) == ExpandRun(LengthError, 1100)
    ensures ExpandChecked(LongName(), map[]) == ExpandRun(LengthError, 0)
    ensures 1100 > MaxVarLen + 1
  {
    var n := LongName();
    FindNone(n, '$', 0);
    assert n[0..] == n;
  }

  /** The `$` loop of `stream_env_open`, reporting how it ends. */
  method StreamEnvName(name: string, env: map<string, string>) returns (r: Expansion)
    ensures r == Expand(name, env).outcome
  {
    var temp := 0;
    var newName := "";
    ghost var goal := Expand(name, env);
    while true
      invariant temp <= |name| && |newName| <= MaxVarLen
      invariant ExpandFrom(name, env, temp, newName, false) == goal
      decreases |name| - temp
    {
      var varBegin := Find(name, '$', temp);
      if varBegin == -1 {
        break;
      }
      if varBegin + 1 >= |name| || name[varBegin + 1] != '(' {
        return ParseError;
      }
      if TooLong(newName, name[temp..varBegin]) {
        return LengthError;
      }
      newName := newName + name[temp..varBegin];
      assert ExpandVar(name, env, varBegin + 2, newName, false) == goal;
      var stop, next;
      stop, newName, next := AppendVariable(name, env, varBegin + 2, newName);
      if stop.Some? {
        return stop.value;
      }
      assert ExpandFrom(name, env, next, newName, false) == goal;
      temp := next;
    }
    assert Find(name, '$', temp) == -1;
    if TooLong(newName, name[temp..]) {
      return LengthError;
    }
    r := Expanded(newName + name[temp..]);
  }

  /**
   * The part of the loop after `$(` at `b`: find the `)`, look the variable up
   * and append its value; `stop` is the error the loop ends with, if any.
   */
  method AppendVariable(name: string, env: map<string, string>, b: nat, newName: string)
    returns (stop: Option<Expansion>, newName': string, next: nat)
    requires b <= |name| && |newName| <= MaxVarLen
    ensures stop.Some? ==> stop.value == ExpandVar(name, env, b, newName, false).outcome
    ensures stop.None? ==> b < next <= |name| && |newName'| <= MaxVarLen
    ensures stop.None? ==> ExpandFrom(name, env, next, newName', false) == ExpandVar(name, env, b, newName, false)
  {
    var varEnd := Find(name, ')', b);
    if varEnd == -1 {
      return Some(ParseError), newName, b;
    }
    var variable := name[b..varEnd];
    if variable !in env {
      return Some(ParseError), newName, b;
    }
    if TooLong(newName, env[variable]) {
      return Some(LengthError), newName, b;
    }
    newName' := newName + env[variable];
    next := varEnd + 1;
    stop := None;
  }
}
