/**
 * The level-expression parser of `src/rdk_debug_priv.c`: `forceUpperCase`,
 * `logNameToEnum`, `extractToken` and `parseLogConfig`, which folds a
 * whitespace-separated list of level tokens into a mask on top of a base mask.
 *
 * `Parse` is the meaning of an expression: the tokens of `Tokens`, each
 * upper-cased and applied by `TokenMask` from left to right. The method
 * `ParseLogConfig` walks the characters with a cursor as the C code does and
 * is proved to compute `Parse`; the lemmas state what `Parse` promises.
 */
module LevelParser {
  import opened Chars
  import opened Levels

  /** `LOG_TRACE`: TRACE1 through TRACE9, bits 6 to 14. */
  const LogTrace: Mask := 0x7FC0

  /** `LOG_ALL`: FATAL, ERROR, WARN, NOTICE and INFO, bits 0 to 4. */
  const LogAll: Mask := 0x1F

  /** `LOG_NONE`. */
  const LogNone: Mask := 0

  /** The return code of `parseLogConfig`: `RC_ERROR` is 0, `RC_OK` is 1. */
  datatype Rc = RcError | RcOk

  const EmptyMsg: string := "Warning: Empty log level confguration."
  const InvalidLogNameMsg: string := "Warning: Ignoring invalid log name(s)."

  /** The return code, the value written to `*configEntry`, and `*msg`. */
  datatype ParseResult = ParseResult(rc: Rc, mask: Mask, msg: string)

  // ---------------------------------------------------------------------------
  // logNameToEnum

  /** The first entry of `table` from `i` on that equals `name`, or -1. */
  function IndexFrom(table: seq<string>, name: string, i: nat): (r: int)
    requires i <= |table|
    ensures r == -1 || i <= r < |table|
    decreases |table| - i
  {
    if i == |table| then -1
    else if table[i] == name then i
    else IndexFrom(table, name, i + 1)
  }

  /** What `logNameToEnum` returns: the level called `name`, or -1. */
  function NameToLevel(name: string): (r: int)
    ensures r == -1 || 0 <= r < LogCount
  {
    IndexFrom(LevelStrings, name, 0)
  }

  /** `IndexFrom` finds the first matching entry, and -1 means there is none. */
  lemma {:induction false} IndexFromSpec(table: seq<string>, name: string, i: nat)
    requires i <= |table|
    ensures IndexFrom(table, name, i) == -1 <==> forall j :: i <= j < |table| ==> table[j] != name
    ensures IndexFrom(table, name, i) != -1 ==> table[IndexFrom(table, name, i)] == name
    ensures forall j :: i <= j < IndexFrom(table, name, i) ==> table[j] != name
    decreases |table| - i
  {
    if i < |table| && table[i] != name {
      IndexFromSpec(table, name, i + 1);
    }
  }

  /** `logNameToEnum` answers -1 exactly for names outside the table, and else the level so named. */
  lemma NameToLevelSpec(name: string)
    ensures NameToLevel(name) == -1 <==> name !in LevelStrings
    ensures NameToLevel(name) != -1 ==> LevelStrings[NameToLevel(name)] == name
  {
    IndexFromSpec(LevelStrings, name, 0);
  }

  /** `logNameToEnum`: a linear search of `rdk_logLevelStrings`. */
  method LogNameToEnum(name: string) returns (r: int)
    ensures r == NameToLevel(name)
  {
    var i := 0;
    while i < LogCount
      invariant 0 <= i <= LogCount
      invariant IndexFrom(LevelStrings, name, i) == NameToLevel(name)
    {
      if name == LevelStrings[i] {
        return i;
      }
      i := i + 1;
    }
    return -1;
  }

  /** Every name of the table is found at its own level. */
  lemma NameToLevelOfName(l: Level)
    ensures NameToLevel(LevelStrings[l]) == l
  {
    LevelStringsDistinct();
    IndexFromSpec(LevelStrings, LevelStrings[l], 0);
  }

  // ---------------------------------------------------------------------------
  // forceUpperCase

  /** `forceUpperCase`: upper-cases the buffer in place. */
  method ForceUpperCase(token: array<char>)
    modifies token
    ensures token[..] == Upper(old(token[..]))
  {
    var k := 0;
    while k < token.Length
      invariant 0 <= k <= token.Length
      invariant forall j :: 0 <= j < k ==> token[j] == ToUpper(old(token[j]))
      invariant forall j :: k <= j < token.Length ==> token[j] == old(token[j])
    {
      if IsLower(token[k]) {
        token[k] := (token[k] as int - 32) as char;
      }
      k := k + 1;
    }
  }

  // ---------------------------------------------------------------------------
  // Tokens

  /** Where the token that starts at `i` ends: the next white space or the end. */
  function TokenEnd(s: string, i: nat): (j: nat)
    requires i <= |s|
    ensures i <= j <= |s|
    ensures forall k :: i <= k < j ==> !IsSpace(s[k])
    ensures j == |s| || IsSpace(s[j])
    decreases |s| - i
  {
    if i == |s| || IsSpace(s[i]) then i else TokenEnd(s, i + 1)
  }

  /** The whitespace-separated tokens of `s` from position `i` on. */
  function TokensFrom(s: string, i: nat): (r: seq<string>)
    requires i <= |s|
    ensures |r| <= |s| - i
    ensures forall k :: 0 <= k < |r| ==> r[k] != "" && forall c :: 0 <= c < |r[k]| ==> !IsSpace(r[k][c])
    decreases |s| - i
  {
    if i == |s| then []
    else if IsSpace(s[i]) then TokensFrom(s, i + 1)
    else
      var j := TokenEnd(s, i);
      [s[i..j]] + TokensFrom(s, j)
  }

  /** The whitespace-separated tokens of `s`: non-empty words without white space. */
  function Tokens(s: string): (r: seq<string>)
    ensures |r| <= |s|
    ensures forall k :: 0 <= k < |r| ==> r[k] != "" && forall c :: 0 <= c < |r[k]| ==> !IsSpace(r[k][c])
  {
    TokensFrom(s, 0)
  }

  /** `extractToken`: copies the characters up to the next white space. */
  method ExtractToken(s: string, start: nat) returns (tok: string, next: nat)
    requires start <= |s|
    ensures next == TokenEnd(s, start)
    ensures tok == s[start..next]
  {
    next := start;
    tok := "";
    while next < |s| && !IsSpace(s[next])
      invariant start <= next <= |s|
      invariant TokenEnd(s, next) == TokenEnd(s, start)
      invariant tok == s[start..next]
    {
      tok := tok + [s[next]];
      next := next + 1;
    }
  }

  // ---------------------------------------------------------------------------
  // The meaning of an expression

  /** The effect of one upper-cased token on the mask; a token that is not accepted changes nothing. */
  function TokenMask(tok: string, m: Mask): (r: Mask)
    ensures !TokenValid(tok) ==> r == m
  {
    if tok == "ALL" then m | LogAll
    else if tok == "NONE" then LogNone
    else if tok == "TRACE" then m | LogTrace
    else if tok == "!TRACE" then m & !LogTrace
    else NameTokenMask(tok, m)
  }

  /** The effect of a `NAME` or `!NAME` token: set or clear the bit of that level, if there is one. */
  function NameTokenMask(tok: string, m: Mask): (r: Mask)
  {
    LevelNameMask(Inverted(tok), TokenName(tok), m)
  }

  /** Sets, or if `invert` clears, the bit of the level called `name`; an unknown name changes nothing. */
  function LevelNameMask(invert: bool, name: string, m: Mask): (r: Mask)
  {
    LevelBits(invert, NameToLevel(name), m)
  }

  /** Sets, or if `invert` clears, the bit of level `l`; the level -1 of an unknown name changes nothing. */
  function LevelBits(invert: bool, l: int, m: Mask): (r: Mask)
    requires -1 <= l < LogCount
  {
    if l == -1 then m
    else if invert then m & !Bit(l)
    else m | Bit(l)
  }

  /** A token that starts with `!` negates the level it names. */
  predicate Inverted(tok: string) {
    |tok| > 0 && tok[0] == '!'
  }

  /** The level name a token refers to, without its `!`. */
  function TokenName(tok: string): (r: string) {
    if Inverted(tok) then tok[1..] else tok
  }

  /** An upper-cased token that `parseLogConfig` accepts: a meta name, or `NAME` or `!NAME` of a level. */
  predicate TokenValid(tok: string) {
    || tok in ["ALL", "NONE", "TRACE", "!TRACE"]
    || NameToLevel(TokenName(tok)) != -1
  }

  /**
   * Folds the tokens, each upper-cased, into `m` from left to right; tokens
   * none of which is accepted leave the mask as it was.
   */
  function RunMask(toks: seq<string>, m: Mask): (r: Mask)
    ensures (forall k :: 0 <= k < |toks| ==> !TokenValid(Upper(toks[k]))) ==> r == m
    decreases |toks|
  {
    if toks == [] then m else RunMask(toks[1..], TokenMask(Upper(toks[0]), m))
  }

  /** Every token, upper-cased, is accepted. */
  predicate AllValid(toks: seq<string>)
    decreases |toks|
  {
    toks == [] || (TokenValid(Upper(toks[0])) && AllValid(toks[1..]))
  }

  /** What `parseLogConfig(s, &base, &msg)` returns, writes and reports. */
  function Parse(s: string, base: Mask): (r: ParseResult)
    ensures r.rc == RcOk <==> r.msg == ""
    ensures r.msg in {"", EmptyMsg, InvalidLogNameMsg}
    ensures r.msg == EmptyMsg ==> r.mask == base
  {
    var toks := Tokens(s);
    if toks == [] then ParseResult(RcError, base, EmptyMsg)
    else if AllValid(toks) then ParseResult(RcOk, RunMask(toks, base), "")
    else ParseResult(RcError, RunMask(toks, base), InvalidLogNameMsg)
  }

  /** Taking the token at `i` off the front: its mask applies first, and it must be valid too. */
  lemma TokensStep(s: string, i: nat, m: Mask)
    requires i < |s| && !IsSpace(s[i])
    ensures RunMask(TokensFrom(s, i), m) == RunMask(TokensFrom(s, TokenEnd(s, i)), TokenMask(Upper(s[i..TokenEnd(s, i)]), m))
    ensures AllValid(TokensFrom(s, i)) == (TokenValid(Upper(s[i..TokenEnd(s, i)])) && AllValid(TokensFrom(s, TokenEnd(s, i))))
  {
    var j := TokenEnd(s, i);
    var rest := TokensFrom(s, j);
    assert TokensFrom(s, i) == [s[i..j]] + rest;
    assert ([s[i..j]] + rest)[1..] == rest;
  }

  // ---------------------------------------------------------------------------
  // parseLogConfig

  /** The body of the token loop of `parseLogConfig`: meta names first, then `NAME` or `!NAME`. */
  method ApplyOneToken(tok: string, config: Mask) returns (next: Mask, valid: bool)
    ensures next == TokenMask(tok, config)
    ensures valid == TokenValid(tok)
  {
    valid := true;
    if tok == "ALL" {
      next := config | LogAll;
    } else if tok == "NONE" {
      next := LogNone;
    } else if tok == "TRACE" {
      next := config | LogTrace;
    } else if tok == "!TRACE" {
      next := config & !LogTrace;
    } else {
      var invert := |tok| > 0 && tok[0] == '!';
      var name := if invert then tok[1..] else tok;
      next, valid := ApplyLevelName(invert, name, config);
    }
  }

  /** The `NAME` or `!NAME` branch: look the name up and set or clear its bit. */
  method ApplyLevelName(invert: bool, name: string, config: Mask) returns (next: Mask, valid: bool)
    ensures next == LevelNameMask(invert, name, config)
    ensures valid == (NameToLevel(name) != -1)
  {
    var level := LogNameToEnum(name);
    valid := level != -1;
    next := ApplyLevel(invert, level, config);
  }

  /** `config &= ~(1 << level)` or `config |= 1 << level`, when the lookup found a level. */
  method ApplyLevel(invert: bool, level: int, config: Mask) returns (next: Mask)
    requires -1 <= level < LogCount
    ensures next == LevelBits(invert, level, config)
  {
    if level != -1 {
      if invert {
        next := config & !Bit(level);
      } else {
        next := config | Bit(level);
      }
    } else {
      next := config;
    }
  }

  /** `SKIPWHITE`: advances past white space, which separates tokens and so drops none. */
  method SkipWhite(s: string, start: nat) returns (i: nat)
    requires start <= |s|
    ensures start <= i <= |s|
    ensures i == |s| || !IsSpace(s[i])
    ensures forall k :: start <= k < i ==> IsSpace(s[k])
    ensures TokensFrom(s, i) == TokensFrom(s, start)
  {
    i := start;
    while i < |s| && IsSpace(s[i])
      invariant start <= i <= |s|
      invariant forall k :: start <= k < i ==> IsSpace(s[k])
      invariant TokensFrom(s, i) == TokensFrom(s, start)
    {
      i := i + 1;
    }
  }

  /**
   * `parseLogConfig`: skips white space, reports an empty expression, then
   * extracts, upper-cases and applies one token at a time.
   */
  method ParseLogConfig(cfgStr: string, configEntry: Mask) returns (rc: Rc, entry: Mask, msg: string)
    ensures ParseResult(rc, entry, msg) == Parse(cfgStr, configEntry)
  {
    var config := configEntry;
    rc := RcOk;
    msg := "";
    var i := SkipWhite(cfgStr, 0);
    if i == |cfgStr| {
      return RcError, configEntry, EmptyMsg;
    }
    while i < |cfgStr|
      invariant 0 <= i <= |cfgStr|
      invariant i < |cfgStr| ==> !IsSpace(cfgStr[i])
      invariant msg == (if rc == RcOk then "" else InvalidLogNameMsg)
      invariant RunMask(TokensFrom(cfgStr, i), config) == RunMask(Tokens(cfgStr), configEntry)
      invariant (rc == RcOk && AllValid(TokensFrom(cfgStr, i))) == AllValid(Tokens(cfgStr))
      decreases |cfgStr| - i
    {
      var word, j := ExtractToken(cfgStr, i);
      var buf := new char[|word|](k requires 0 <= k < |word| => word[k]);
      assert buf[..] == word;
      ForceUpperCase(buf);
      var tok := buf[..];
      TokensStep(cfgStr, i, config);

      var valid;
      config, valid := ApplyOneToken(tok, config);
      if !valid {
        msg := InvalidLogNameMsg;
        rc := RcError;
      }

      i := SkipWhite(cfgStr, j);
    }
    entry := config;
  }
}
