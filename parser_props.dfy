/**
 * What a level expression means, proved about `Parse`: when it is empty, when
 * it is accepted, how each kind of token acts on the bits of the mask, that an
 * invalid token is skipped while the rest still apply, that `NONE` discards
 * everything before it, that case does not matter, and that no bit outside
 * the fifteen levels is ever set.
 */
module ParseFacts {
  import opened Chars
  import opened Levels
  import opened LevelParser

  // ---------------------------------------------------------------------------
  // Empty expressions

  /** There are no tokens from `i` on exactly when only white space is left. */
  lemma {:induction false} TokensEmptyIff(s: string, i: nat)
    requires i <= |s|
    ensures TokensFrom(s, i) == [] <==> forall k :: i <= k < |s| ==> IsSpace(s[k])
    decreases |s| - i
  {
    if i < |s| && IsSpace(s[i]) {
      TokensEmptyIff(s, i + 1);
    }
  }

  /**
   * An expression of white space only is reported as empty, with `RC_ERROR`,
   * and leaves the mask as it was; no other expression gets that message.
   */
  lemma EmptyExpression(s: string, base: Mask)
    ensures AllSpace(s) ==> Parse(s, base) == ParseResult(RcError, base, EmptyMsg)
    ensures Parse(s, base).msg == EmptyMsg <==> AllSpace(s)
  {
    TokensEmptyIff(s, 0);
  }

  // ---------------------------------------------------------------------------
  // Acceptance

  /** `AllValid` holds exactly when every token, upper-cased, is valid. */
  lemma {:induction false} AllValidIff(toks: seq<string>)
    ensures AllValid(toks) <==> forall k :: 0 <= k < |toks| ==> TokenValid(Upper(toks[k]))
    decreases |toks|
  {
    if toks != [] {
      AllValidIff(toks[1..]);
      assert forall k :: 1 <= k < |toks| ==> toks[1..][k - 1] == toks[k];
    }
  }

  /** `parseLogConfig` returns `RC_OK` exactly for a non-empty expression all of whose tokens are valid. */
  lemma RcOkIff(s: string, base: Mask)
    ensures Parse(s, base).rc == RcOk <==>
      Tokens(s) != [] && forall k :: 0 <= k < |Tokens(s)| ==> TokenValid(Upper(Tokens(s)[k]))
    ensures Parse(s, base).rc == RcError && Tokens(s) != [] ==> Parse(s, base).msg == InvalidLogNameMsg
  {
    AllValidIff(Tokens(s));
  }

  // ---------------------------------------------------------------------------
  // Folding

  /** Tokens are applied left to right: a concatenation runs the first part, then the second. */
  lemma {:induction false} RunMaskAppend(a: seq<string>, b: seq<string>, m: Mask)
    ensures RunMask(a + b, m) == RunMask(b, RunMask(a, m))
    decreases |a|
  {
    if a != [] {
      var m' := TokenMask(Upper(a[0]), m);
      assert (a + b)[0] == a[0];
      assert (a + b)[1..] == a[1..] + b;
      assert RunMask(a + b, m) == RunMask(a[1..] + b, m');
      RunMaskAppend(a[1..], b, m');
      assert RunMask(a, m) == RunMask(a[1..], m');
    } else {
      assert a + b == b;
    }
  }

  /** An invalid token does not change the mask. */
  lemma InvalidTokenNoEffect(tok: string, m: Mask)
    requires !TokenValid(tok)
    ensures TokenMask(tok, m) == m
  {
  }

  /** An invalid token is skipped and the tokens around it still apply. */
  lemma InvalidTokenSkipped(a: seq<string>, t: string, b: seq<string>, m: Mask)
    requires !TokenValid(Upper(t))
    ensures RunMask(a + [t] + b, m) == RunMask(a + b, m)
    ensures !AllValid(a + [t] + b)
  {
    RunMaskAppend(a, [t] + b, m);
    assert a + [t] + b == a + ([t] + b);
    assert ([t] + b)[1..] == b;
    InvalidTokenNoEffect(Upper(t), RunMask(a, m));
    RunMaskAppend(a, b, m);
    AllValidIff(a + [t] + b);
    assert (a + [t] + b)[|a|] == t;
  }

  /** `NONE`, in any case, discards the base and every token before it. */
  lemma NoneResets(a: seq<string>, t: string, b: seq<string>, m: Mask)
    requires Upper(t) == "NONE"
    ensures RunMask(a + [t] + b, m) == RunMask(b, LogNone)
  {
    RunMaskAppend(a, [t] + b, m);
    assert a + [t] + b == a + ([t] + b);
    assert ([t] + b)[1..] == b;
  }

  // ---------------------------------------------------------------------------
  // The effect of each token on each bit

  /** `LOG_ALL` is bits 0 to 4, FATAL through INFO. */
  lemma LogAllBits(k: nat)
    requires k < 32
    ensures LogAll & Bit(k) != 0 <==> k <= Info
  {
  }

  /** `LOG_TRACE` is bits 6 to 14, TRACE1 through TRACE9. */
  lemma LogTraceBits(k: nat)
    requires k < 32
    ensures LogTrace & Bit(k) != 0 <==> Trace1 <= k <= Trace9
  {
  }

  /** `ALL` sets every bit of `LOG_ALL` and keeps every other bit as it was. */
  lemma AllEffect(m: Mask)
    ensures TokenMask("ALL", m) & LogAll == LogAll
    ensures TokenMask("ALL", m) & !LogAll == m & !LogAll
  {
  }

  /** `TRACE` sets every bit of `LOG_TRACE` and keeps every other bit as it was. */
  lemma TraceEffect(m: Mask)
    ensures TokenMask("TRACE", m) & LogTrace == LogTrace
    ensures TokenMask("TRACE", m) & !LogTrace == m & !LogTrace
  {
  }

  /** `!TRACE` clears every bit of `LOG_TRACE` and keeps every other bit as it was. */
  lemma NotTraceEffect(m: Mask)
    ensures TokenMask("!TRACE", m) & LogTrace == 0
    ensures TokenMask("!TRACE", m) & !LogTrace == m & !LogTrace
  {
  }

  /** The name of a level is none of the meta names. */
  lemma LevelNameNotMeta(l: Level)
    ensures LevelStrings[l] !in ["ALL", "NONE", "TRACE", "!TRACE"]
    ensures !Inverted(LevelStrings[l])
  {
    LevelStringsShape();
  }

  /** A token other than the meta names acts through the level it names. */
  lemma NameTokenValue(tok: string, m: Mask)
    requires tok !in ["ALL", "NONE", "TRACE", "!TRACE"]
    ensures TokenMask(tok, m) == LevelBits(Inverted(tok), NameToLevel(TokenName(tok)), m)
  {
    assert tok != "ALL" && tok != "NONE" && tok != "TRACE" && tok != "!TRACE";
  }

  /** Setting the bit of `l` adds `l` and keeps every other bit as it was. */
  lemma SetLevelEffect(l: Level, m: Mask)
    ensures LevelBits(false, l, m) & Bit(l) == Bit(l)
    ensures LevelBits(false, l, m) & !Bit(l) == m & !Bit(l)
  {
  }

  /** Clearing the bit of `l` removes `l` and keeps every other bit as it was. */
  lemma ClearLevelEffect(l: Level, m: Mask)
    ensures LevelBits(true, l, m) & Bit(l) == 0
    ensures LevelBits(true, l, m) & !Bit(l) == m & !Bit(l)
  {
  }

  /** A level's name is accepted and acts as setting that level. */
  lemma NameValue(l: Level, m: Mask)
    ensures TokenValid(LevelStrings[l])
    ensures TokenMask(LevelStrings[l], m) == LevelBits(false, l, m)
  {
    var tok := LevelStrings[l];
    LevelNameNotMeta(l);
    NameToLevelOfName(l);
    NameTokenValue(tok, m);
  }

  /** The negated name of a level is not a meta name and names that level. */
  lemma NotNameToken(l: Level)
    ensures "!" + LevelStrings[l] !in ["ALL", "NONE", "TRACE", "!TRACE"]
    ensures Inverted("!" + LevelStrings[l]) && TokenName("!" + LevelStrings[l]) == LevelStrings[l]
  {
    var tok := "!" + LevelStrings[l];
    assert tok[1..] == LevelStrings[l];
    LevelStringsShape();
  }

  /** A level's name after `!` is accepted and acts as clearing that level. */
  lemma NotNameValue(l: Level, m: Mask)
    ensures TokenValid("!" + LevelStrings[l])
    ensures TokenMask("!" + LevelStrings[l], m) == LevelBits(true, l, m)
  {
    var tok := "!" + LevelStrings[l];
    NotNameToken(l);
    NameToLevelOfName(l);
    NameTokenValue(tok, m);
  }

  // ---------------------------------------------------------------------------
  // Case does not matter

  /** Upper-casing keeps white space where it was, so tokens end at the same place. */
  lemma {:induction false} TokenEndUpper(s: string, i: nat)
    requires i <= |s|
    ensures TokenEnd(Upper(s), i) == TokenEnd(s, i)
    decreases |s| - i
  {
    if i < |s| && !IsSpace(s[i]) {
      TokenEndUpper(s, i + 1);
    }
  }

  /** The tokens of the upper-cased text, applied, give what the original tokens give. */
  lemma {:induction false} TokensFromUpper(s: string, i: nat, m: Mask)
    requires i <= |s|
    ensures TokensFrom(Upper(s), i) == [] <==> TokensFrom(s, i) == []
    ensures RunMask(TokensFrom(Upper(s), i), m) == RunMask(TokensFrom(s, i), m)
    ensures AllValid(TokensFrom(Upper(s), i)) == AllValid(TokensFrom(s, i))
    decreases |s| - i
  {
    var u := Upper(s);
    if i == |s| {
    } else if IsSpace(s[i]) {
      TokensFromUpper(s, i + 1, m);
    } else {
      var j := TokenEnd(s, i);
      TokenEndUpper(s, i);
      assert u[i..j] == Upper(s[i..j]);
      UpperIdempotent(s[i..j]);
      TokensStep(s, i, m);
      TokensStep(u, i, m);
      TokensFromUpper(s, j, TokenMask(Upper(s[i..j]), m));
    }
  }

  /** Level expressions are case-insensitive. */
  lemma ParseUpper(s: string, base: Mask)
    ensures Parse(Upper(s), base) == Parse(s, base)
  {
    TokensFromUpper(s, 0, base);
  }

  // ---------------------------------------------------------------------------
  // No stray bits

  /** Every token keeps the mask within the fifteen levels. */
  lemma TokenMaskValid(tok: string, m: Mask)
    requires ValidMask(m)
    ensures ValidMask(TokenMask(tok, m))
  {
    var l := NameToLevel(TokenName(tok));
    if l != -1 {
      LevelBitValid(l);
    }
  }

  /** A whole expression keeps a valid mask valid. */
  lemma {:induction false} RunMaskValid(toks: seq<string>, m: Mask)
    requires ValidMask(m)
    ensures ValidMask(RunMask(toks, m))
    decreases |toks|
  {
    if toks != [] {
      TokenMaskValid(Upper(toks[0]), m);
      RunMaskValid(toks[1..], TokenMask(Upper(toks[0]), m));
    }
  }

  /** `parseLogConfig` never sets a bit outside the fifteen levels. */
  lemma ParseValid(s: string, base: Mask)
    requires ValidMask(base)
    ensures ValidMask(Parse(s, base).mask)
  {
    RunMaskValid(Tokens(s), base);
  }

  // ---------------------------------------------------------------------------
  // Worked cases

  /** Text without white space is a single token. */
  lemma SingleToken(s: string)
    requires s != [] && forall k :: 0 <= k < |s| ==> !IsSpace(s[k])
    ensures Tokens(s) == [s]
  {
    assert TokenEnd(s, 0) == |s|;
    assert s[0..|s|] == s;
    assert TokensFrom(s, |s|) == [];
  }

  /** A single upper-case token is applied once; the expression is accepted when the token is valid. */
  lemma ParseOneToken(tok: string, base: Mask)
    requires tok != [] && IsUpperCase(tok) && forall k :: 0 <= k < |tok| ==> !IsSpace(tok[k])
    ensures Parse(tok, base).mask == TokenMask(tok, base)
    ensures Parse(tok, base).rc == RcOk <==> TokenValid(tok)
  {
    SingleToken(tok);
    UpperIdempotent(tok);
    assert [tok][1..] == [];
    assert RunMask([tok], base) == RunMask([], TokenMask(tok, base));
    assert AllValid([tok]) == (TokenValid(tok) && AllValid([]));
  }

  /** A level name on its own is accepted and sets exactly the bit of that level. */
  lemma ParseLevelName(l: Level, m: Mask)
    ensures Parse(LevelStrings[l], m) == ParseResult(RcOk, m | Bit(l), "")
  {
    LevelStringsShape();
    NameValue(l, m);
    ParseOneToken(LevelStrings[l], m);
  }

  /** `DEBUG` from nothing is accepted and enables exactly DEBUG. */
  lemma DebugFromNone()
    ensures Parse("DEBUG", LogNone) == ParseResult(RcOk, Bit(Debug), "")
  {
    LevelStringsShape();
    NameValue(Debug, LogNone);
    ParseOneToken("DEBUG", LogNone);
  }

  /** `!DEBUG` undoes `DEBUG`: the enabled DEBUG bit is cleared again. */
  lemma NotDebugUndoes()
    ensures Parse("!DEBUG", Bit(Debug)) == ParseResult(RcOk, LogNone, "")
  {
    LevelStringsShape();
    assert "!" + LevelStrings[Debug] == "!DEBUG";
    NotNameValue(Debug, Bit(Debug));
    ParseOneToken("!DEBUG", Bit(Debug));
  }

  /** `NONE` alone always clears the mask. */
  lemma NoneAlone(base: Mask)
    ensures Parse("NONE", base) == ParseResult(RcOk, LogNone, "")
  {
    SingleToken("NONE");
  }
}
