/** What the Konklav productions accept and build: literal scans and their
    round trips, the leniency of `ReadExact`, the shape of boolean
    expressions, text payloads and activity lists, and the concrete cases of
    the parser's own tests. */
module KonklavGrammarFacts {
  import opened Text
  import opened KonklavAst
  import opened KonklavGrammar
  import opened Options

  /* ---------- character runs ---------- */

  /** A run of n characters of the charset, ended by the input's end or by a
      character outside it, is exactly what `RunEnd` consumes when the
      limit allows n characters. */
  lemma RunEndOfRun(s: string, p: nat, charset: string, limit: nat, n: nat)
    requires p + n <= |s| && n <= limit
    requires forall i :: p <= i < p + n ==> s[i] in charset
    requires p + n == |s| || s[p + n] !in charset
    ensures RunEnd(s, p, charset, limit) == p + n
  {
  }

  /** `ReadCharsMaybe(charset, atMost)` stops after `atMost + 1`
      characters, not `atMost`: on "--5" a sign run with `atMost = 1` takes
      both dashes. */
  lemma SignRunTakesTwo()
    ensures ReadCharsMaybe("--5", 0, "+-", 1) == Step(Ok("--"), 2)
  {
    RunEndOfRun("--5", 0, "+-", 2, 2);
    assert "--5"[0..2] == "--";
  }

  /* ---------- errors ---------- */

  /** Only two errors mention "EOF": reading past the end, and an unknown
      command whose name contains "EOF". */
  lemma MentionsEofCases(e: ParseError)
    ensures MentionsEof(Eof)
    ensures MentionsEof(UnexpectedCommand("xEOFx"))
    ensures !MentionsEof(UnexpectedCommand("EO"))
    ensures !e.Eof? && !e.UnexpectedCommand? ==> !MentionsEof(e)
  {
    assert OccursAt("xEOFx", "EOF", 1) by {
      assert "xEOFx"[1..4] == "EOF";
    }
  }

  /* ---------- ReadExact ---------- */

  /** `ReadExact(word)` succeeds when the input agrees with the word on
      every position both have, leaving the cursor after the shorter of the
      two: a word cut short by the end of the input is accepted. */
  lemma {:induction false} ReadExactFromAgrees(s: string, p: nat, word: string, k: nat)
    requires p <= |s| && k <= |word|
    requires s[p..p + Min(|word| - k, |s| - p)] == word[k..k + Min(|word| - k, |s| - p)]
    ensures ReadExactFrom(s, p, word, k) == Step(Ok(()), p + Min(|word| - k, |s| - p))
    decreases |word| - k
  {
    var m := Min(|word| - k, |s| - p);
    if m > 0 {
      assert s[p] == s[p..p + m][0] == word[k..k + m][0] == word[k];
      assert s[p + 1..p + m] == s[p..p + m][1..];
      assert word[k + 1..k + m] == word[k..k + m][1..];
      ReadExactFromAgrees(s, p + 1, word, k + 1);
    }
  }

  /** Otherwise `ReadExact(word)` fails on the first character that
      disagrees with the word, having consumed it. */
  lemma {:induction false} ReadExactFromDisagrees(s: string, p: nat, word: string, k: nat, j: nat)
    requires p <= |s| && k <= |word|
    requires j < Min(|word| - k, |s| - p)
    requires s[p..p + j] == word[k..k + j] && s[p + j] != word[k + j]
    ensures ReadExactFrom(s, p, word, k) == Step(Err(UnexpectedSymbol(s[p + j], word)), p + j + 1)
    decreases |word| - k
  {
    if j > 0 {
      assert s[p] == s[p..p + j][0] == word[k..k + j][0] == word[k];
      assert s[p + 1..p + j] == s[p..p + j][1..];
      assert word[k + 1..k + j] == word[k..k + j][1..];
      ReadExactFromDisagrees(s, p + 1, word, k + 1, j - 1);
    }
  }

  function Min(a: int, b: int): int { if a < b then a else b }

  /** `ReadLiteralTrue` accepts "tr" and the empty remainder, since
      `ReadExact` stops quietly at the end of the input. */
  lemma LiteralTrueAcceptsTruncations()
    ensures ReadLiteralTrue("tr", 0) == Step(Ok(LiteralTrueExpression), 2)
    ensures ReadLiteralTrue("", 0) == Step(Ok(LiteralTrueExpression), 0)
    ensures ReadLiteralTrue("tx", 0) == Step(Err(UnexpectedSymbol('x', "true")), 2)
  {
    assert "tr"[0..2] == "true"[0..2];
    ReadExactFromAgrees("tr", 0, "true", 0);
    ReadExactFromAgrees("", 0, "true", 0);
    assert "tx"[0..1] == "true"[0..1];
    ReadExactFromDisagrees("tx", 0, "true", 0, 1);
  }

  /* ---------- words ---------- */

  /** A word that ends at white space or at the end of the input is read
      whole. */
  lemma WordRead(s: string, p: nat, q: nat)
    requires p < q <= |s|
    requires forall i :: p <= i < q ==> s[i] !in AnyWhitespace
    requires q == |s| || s[q] in AnyWhitespace
    requires !IsWhiteSpace(s[p])
    ensures ReadNonEmptyStringUntilWhitespace(s, p) == Step(Ok(s[p..q]), q)
  {
    assert s[p..q][0] == s[p];
  }

  /** The parser's tests for `ReadNonEmptyStringUntilWhitespace` that
      succeed: the word ends at a space, tab, CR or LF. */
  lemma WordTestCases(s: string)
    requires s == "kek pek" || s == "kek\r\n" || s == "kek\t" || s == "this is ok" || s == "this_is_ok"
    ensures var n := if s == "this is ok" then 4 else if s == "this_is_ok" then 10 else 3;
      ReadNonEmptyStringUntilWhitespace(s, 0) == Step(Ok(s[..n]), n)
  {
    var n := if s == "this is ok" then 4 else if s == "this_is_ok" then 10 else 3;
    WordRead(s, 0, n);
  }

  /** The cases that fail: an empty word before white space or the end. */
  lemma BlankWordTestCases()
    ensures ReadNonEmptyStringUntilWhitespace("", 0).result.Err?
    ensures ReadNonEmptyStringUntilWhitespace("\r\n", 0).result.Err?
    ensures ReadNonEmptyStringUntilWhitespace(" asdkl", 0).result.Err?
    ensures ReadNonEmptyStringUntilWhitespace("\t", 0).result.Err?
  {
  }

  /* ---------- int literals ---------- */

  /** A run of 1 to 10001 digits, not followed by a digit, is read whole
      by `ReadMoreThanOneChar(Digits)`. */
  lemma DigitRunRead(s: string, q: nat, d: string)
    requires q + |d| <= |s| && 0 < |d| <= 10001 && AllDigits(d)
    requires s[q..q + |d|] == d
    requires q + |d| == |s| || !IsDigit(s[q + |d|])
    ensures ReadMoreThanOneChar(s, q, Digits) == Step(Ok(d), q + |d|)
  {
    forall i | q <= i < q + |d| ensures s[i] in Digits {
      assert s[i] == s[q..q + |d|][i - q];
      DigitsAreDigits(s[i]);
    }
    if q + |d| < |s| {
      DigitsAreDigits(s[q + |d|]);
    }
    RunEndOfRun(s, q + 1, Digits, 10001, |d| - 1);
  }

  /** A slice that reads `x + y` reads `x` and then `y`. */
  lemma SliceOfConcat(s: string, p: nat, x: string, y: string)
    requires p + |x| + |y| <= |s| && s[p..p + |x| + |y|] == x + y
    ensures s[p..p + |x|] == x && s[p + |x|..p + |x| + |y|] == y
  {
    forall i | 0 <= i < |x| ensures s[p..p + |x|][i] == x[i] {
      assert s[p + i] == s[p..p + |x| + |y|][i];
    }
    forall i | 0 <= i < |y| ensures s[p + |x|..p + |x| + |y|][i] == y[i] {
      assert s[p + |x| + i] == s[p..p + |x| + |y|][|x| + i];
    }
  }

  /** A run of at most two signs, not followed by a sign, is what
      `ReadCharsMaybe("+-", 1)` takes. */
  lemma SignRunRead(s: string, p: nat, sign: string)
    requires |sign| <= 2 && p + |sign| <= |s| && s[p..p + |sign|] == sign
    requires forall i :: 0 <= i < |sign| ==> sign[i] in "+-"
    requires p + |sign| == |s| || s[p + |sign|] !in "+-"
    ensures ReadCharsMaybe(s, p, "+-", 1) == Step(Ok(sign), p + |sign|)
  {
    forall i | p <= i < p + |sign| ensures s[i] in "+-" {
      assert s[i] == s[p..p + |sign|][i - p];
    }
    RunEndOfRun(s, p, "+-", 2, |sign|);
  }

  /** An int lexeme: a run of at most two signs, then 1 to 10001 digits
      not followed by a digit. `ReadIntLiteral` consumes it whole and
      yields what `int.TryParse` makes of it. */
  lemma IntLexemeRead(s: string, p: nat, sign: string, d: string)
    requires |sign| <= 2 && forall i :: 0 <= i < |sign| ==> sign[i] in "+-"
    requires 0 < |d| <= 10001 && AllDigits(d)
    requires p + |sign| + |d| <= |s| && s[p..p + |sign| + |d|] == sign + d
    requires p + |sign| + |d| == |s| || !IsDigit(s[p + |sign| + |d|])
    ensures ReadIntLiteral(s, p) ==
      if ParseInt32(sign, d).Some? then Step(Ok(ParseInt32(sign, d).value), p + |sign| + |d|)
      else Step(Err(InvalidIntLiteral(sign + d)), p + |sign| + |d|)
  {
    var sp := p + |sign|;
    SliceOfConcat(s, p, sign, d);
    assert s[sp] == d[0];
    DigitsAreDigits(d[0]);
    SignRunRead(s, p, sign);
    DigitRunRead(s, sp, d);
    assert ReadCharsMaybe(s, p, "+-", 1).pos == sp;
    assert ReadMoreThanOneChar(s, sp, Digits).result == Ok(d);
  }

  /** Every int32 value written in decimal (as `int.ToString()` writes it)
      reads back as itself, whatever follows as long as it is not a digit. */
  lemma IntLiteralRoundTrip(s: string, p: nat, v: int)
    requires -2147483648 <= v <= 2147483647
    requires p + |IntToString(v)| <= |s| && s[p..p + |IntToString(v)|] == IntToString(v)
    requires p + |IntToString(v)| == |s| || !IsDigit(s[p + |IntToString(v)|])
    ensures ReadIntLiteral(s, p) == Step(Ok(v), p + |IntToString(v)|)
  {
    Int32Text(v);
    Int32LexemeRead(s, p, if v < 0 then "-" else "", NatToString(if v < 0 then -v else v), v);
  }

  /** `int.ToString()` of an int32: an optional '-' and at most ten digits,
      which `int.TryParse` reads back as the same value. */
  lemma Int32Text(v: int)
    requires -2147483648 <= v <= 2147483647
    ensures var sign: string, d := if v < 0 then "-" else "", NatToString(if v < 0 then -v else v);
      0 < |d| <= 10 && AllDigits(d) && IntToString(v) == sign + d && ParseInt32(sign, d) == Some(v)
  {
    Int32MagnitudeDigits(if v < 0 then -v else v);
  }

  /** An optional '-' and at most ten digits that `int.TryParse` accepts as v. */
  lemma Int32LexemeRead(s: string, p: nat, sign: string, d: string, v: int)
    requires sign == "" || sign == "-"
    requires 0 < |d| <= 10 && AllDigits(d) && ParseInt32(sign, d) == Some(v)
    requires p + |sign + d| <= |s| && s[p..p + |sign + d|] == sign + d
    requires p + |sign + d| == |s| || !IsDigit(s[p + |sign + d|])
    ensures ReadIntLiteral(s, p) == Step(Ok(v), p + |sign + d|)
  {
    IntLexemeRead(s, p, sign, d);
  }

  /** The parser's tests "100" and "100a": the digit run ends at the first
      non-digit. */
  lemma IntLiteralHundredCases(s: string)
    requires s == "100" || s == "100a"
    ensures ReadIntLiteral(s, 0) == Step(Ok(100), 3)
  {
    assert DigitsValue("100") == 100 by {
      assert "100"[..2] == "10";
      assert "10"[..1] == "1";
    }
    assert ParseInt32("", "100") == Some(100);
    assert s[0..3] == "" + "100";
    IntLexemeRead(s, 0, "", "100");
  }

  /** The parser's tests "1" and "1  asdasd". */
  lemma IntLiteralOneCases(s: string)
    requires s == "1" || s == "1  asdasd"
    ensures ReadIntLiteral(s, 0) == Step(Ok(1), 1)
  {
    OneDigitRead(s, 0);
  }

  /** The parser's test "-10000-1": one sign, and the second '-' ends the
      digit run. */
  lemma IntLiteralSignedCase(s: string)
    requires s == "-10000-1"
    ensures ReadIntLiteral(s, 0) == Step(Ok(-10000), 6)
  {
    assert DigitsValue("10000") == 10000 by {
      assert "10000"[..4] == "1000";
      assert "1000"[..3] == "100";
      assert "100"[..2] == "10";
      assert "10"[..1] == "1";
    }
    assert ParseInt32("-", "10000") == Some(-10000);
    assert s[0..6] == "-" + "10000";
    IntLexemeRead(s, 0, "-", "10000");
  }

  /** Two signs are a lexeme that `int.TryParse` rejects: the sign run takes
      both dashes of "--5". */
  lemma IntLiteralTwoSigns(s: string)
    requires s == "--5"
    ensures ReadIntLiteral(s, 0) == Step(Err(InvalidIntLiteral("--5")), 3)
  {
    assert s[0..3] == "--" + "5";
    assert ParseInt32("--", "5") == None;
    assert "--" + "5" == "--5";
    IntLexemeRead(s, 0, "--", "5");
  }

  /** One past `int.MaxValue` is rejected. */
  lemma IntLiteralOverflow(s: string)
    requires s == "2147483648"
    ensures ReadIntLiteral(s, 0) == Step(Err(InvalidIntLiteral("2147483648")), 10)
  {
    BeyondInt32Value();
    assert s[0..10] == "" + s;
    IntLexemeRead(s, 0, "", s);
  }

  lemma BeyondInt32Value()
    ensures DigitsValue("2147483648") == 2147483648
  {
    assert "2147483648"[..9] == "214748364";
    assert "214748364"[..8] == "21474836";
    assert "21474836"[..7] == "2147483";
    assert "2147483"[..6] == "214748";
    assert "214748"[..5] == "21474";
    assert "21474"[..4] == "2147";
    assert "2147"[..3] == "214";
    assert "214"[..2] == "21";
    assert "21"[..1] == "2";
  }

  /* ---------- boolean expressions ---------- */

  predicate IsAtom(e: BoolExpr) {
    !e.AndExpression? && !e.OrExpression?
  }

  /** The shape the parser builds: every And/Or node has exactly two
      children, the left one an atom (right recursion only). */
  predicate RightLeaning(e: BoolExpr)
    decreases e
  {
    match e
    case AndExpression(cs) => |cs| == 2 && IsAtom(cs[0]) && RightLeaning(cs[1])
    case OrExpression(cs) => |cs| == 2 && IsAtom(cs[0]) && RightLeaning(cs[1])
    case _ => true
  }

  lemma ElementIsAtom(s: string, p: nat)
    requires p <= |s|
    ensures ReadOneBoolExpressionElement(s, p).result.Ok? ==> IsAtom(ReadOneBoolExpressionElement(s, p).result.value)
  {
  }

  /** "a and b or c" parses as And(a, Or(b, c)): whatever `ReadBoolExpression`
      returns leans right and has two children per node. */
  lemma {:induction false} BoolExpressionRightLeaning(s: string, p: nat)
    requires p <= |s|
    ensures ReadBoolExpression(s, p).result.Ok? ==> RightLeaning(ReadBoolExpression(s, p).result.value)
    decreases |s| - p, 1
  {
    BinaryRightLeaning(s, p, "and");
    BinaryRightLeaning(s, p, "or");
    ElementIsAtom(s, p);
  }

  lemma {:induction false} BinaryRightLeaning(s: string, p: nat, keyword: string)
    requires p <= |s|
    ensures var b := ReadBinary(s, p, keyword);
      b.result.Ok? ==> IsAtom(b.result.value.0) && RightLeaning(b.result.value.1)
    decreases |s| - p, 0
  {
    var first := ReadOneBoolExpressionElement(s, p);
    ElementIsAtom(s, p);
    if first.result.Ok? {
      var w1 := ReadNonBreakingWhitespace(s, first.pos);
      if w1.result.Ok? {
        var kw := ReadExact(s, w1.pos, keyword);
        if kw.result.Ok? {
          var w2 := ReadNonBreakingWhitespace(s, kw.pos);
          if w2.result.Ok? {
            BoolExpressionRightLeaning(s, w2.pos);
          }
        }
      }
    }
  }

  /** A single digit d at p, not followed by a digit, reads as that value. */
  lemma OneDigitRead(s: string, p: nat)
    requires p < |s| && IsDigit(s[p])
    requires p + 1 == |s| || !IsDigit(s[p + 1])
    ensures ReadIntLiteral(s, p) == Step(Ok(DigitValue(s[p])), p + 1)
  {
    assert s[p..p + 1] == "" + [s[p]];
    assert DigitsValue([s[p]]) == DigitValue(s[p]) by {
      assert [s[p]][..0] == [];
    }
    IntLexemeRead(s, p, "", [s[p]]);
  }

  /** "d-e" with single digits, not followed by a digit, is a range. */
  lemma SmallRangeRead(s: string, p: nat)
    requires p + 3 <= |s| && IsDigit(s[p]) && s[p + 1] == '-' && IsDigit(s[p + 2])
    requires p + 3 == |s| || !IsDigit(s[p + 3])
    ensures ReadRangeDiceResultExpression(s, p) ==
      Step(Ok(RangeDiceResultExpression(DigitValue(s[p]), DigitValue(s[p + 2]))), p + 3)
  {
    OneDigitRead(s, p);
    assert s[p + 1..p + 2] == "-"[0..1];
    ReadExactFromAgrees(s, p + 1, "-", 0);
    OneDigitRead(s, p + 2);
  }

  /** `ReadRangeDiceResultExpression` from its three pieces: an int
      literal, the dash, a second int literal. */
  lemma RangeRead(s: string, p: nat, rangeFrom: int, q1: nat, q2: nat, rangeTo: int, q3: nat)
    requires p <= |s| && q3 <= |s|
    requires ReadIntLiteral(s, p) == Step(Ok(rangeFrom), q1)
    requires ReadExact(s, q1, "-") == Step(Ok(()), q2)
    requires ReadIntLiteral(s, q2) == Step(Ok(rangeTo), q3)
    ensures ReadRangeDiceResultExpression(s, p) == Step(Ok(RangeDiceResultExpression(rangeFrom, rangeTo)), q3)
  {
  }

  /** The parser's tests for dice ranges: "1-1" and "2-5 kek". */
  lemma RangeTestCase(s: string)
    requires s == "1-1" || s == "2-5 kek"
    ensures ReadRangeDiceResultExpression(s, 0) ==
      Step(Ok(RangeDiceResultExpression(if s == "1-1" then 1 else 2, if s == "1-1" then 1 else 5)), 3)
  {
    SmallRangeRead(s, 0);
  }

  /** The parser's tests for exact dice values: "1" and "2 kek". */
  lemma ExactTestCases(s: string)
    requires s == "1" || s == "2 kek"
    ensures ReadExactDiceResultExpression(s, 0) == Step(Ok(ExactDiceResultExpression(if s == "1" then 1 else 2)), 1)
  {
    OneDigitRead(s, 0);
  }

  /* ---------- boolean expression tests ---------- */

  /** A word whose first character differs is rejected by `ReadExact`. */
  lemma ExactRejectsFirst(s: string, p: nat, word: string)
    requires p < |s| && 0 < |word| && s[p] != word[0]
    ensures ReadExact(s, p, word).result.Err?
  {
    ReadExactFromDisagrees(s, p, word, 0, 0);
  }

  /** A whole keyword present at p is read, and nothing more. */
  lemma KeywordRead(s: string, p: nat, word: string)
    requires p + |word| <= |s| && s[p..p + |word|] == word
    ensures ReadExact(s, p, word) == Step(Ok(()), p + |word|)
  {
    assert word[0..|word|] == word;
    ReadExactFromAgrees(s, p, word, 0);
  }

  /** No number starts at a character that is neither a sign nor a digit,
      or at the end of the input. */
  lemma NoNumberAt(s: string, p: nat)
    requires p <= |s| && (p == |s| || (!IsDigit(s[p]) && s[p] !in "+-"))
    ensures ReadIntLiteral(s, p).result.Err?
    ensures ReadExactDiceResultExpression(s, p).result.Err?
    ensures ReadRangeDiceResultExpression(s, p).result.Err?
  {
    RunEndOfRun(s, p, "+-", 1, 0);
    if p < |s| {
      DigitsAreDigits(s[p]);
    }
  }

  /** One blank, then a character that is not blank or the end. */
  lemma OneBlankRead(s: string, q: nat)
    requires q < |s| && (s[q] == ' ' || s[q] == '\t')
    requires q + 1 == |s| || (s[q + 1] != ' ' && s[q + 1] != '\t')
    ensures ReadNonBreakingWhitespace(s, q) == Step(Ok(()), q + 1)
  {
    RunEndOfRun(s, q + 1, AnyNonBreakingWhitespace, 10000, 0);
  }

  /** No blank at q: a binary expression whose first element ends at q is
      not there. */
  lemma NoBlankAt(s: string, q: nat)
    requires q <= |s| && (q == |s| || (s[q] != ' ' && s[q] != '\t'))
    ensures ReadNonBreakingWhitespace(s, q).result.Err?
  {
  }

  /** `true` at p is the literal true: every earlier alternative of the
      element fails on its first or second character. */
  lemma TrueElement(s: string, p: nat)
    requires p + 4 <= |s| && s[p..p + 4] == "true"
    ensures ReadOneBoolExpressionElement(s, p) == Step(Ok(LiteralTrueExpression), p + 4)
  {
    assert s[p] == 't' && s[p + 1] == 'r' by {
      assert s[p] == s[p..p + 4][0] && s[p + 1] == s[p..p + 4][1];
    }
    ExactRejectsFirst(s, p, "visited");
    assert s[p..p + 1] == "tagged"[0..1];
    ReadExactFromDisagrees(s, p, "tagged", 0, 1);
    NoNumberAt(s, p);
    KeywordRead(s, p, "true");
  }

  /** `false` at p is the literal false. */
  lemma FalseElement(s: string, p: nat)
    requires p + 5 <= |s| && s[p..p + 5] == "false"
    ensures ReadOneBoolExpressionElement(s, p) == Step(Ok(LiteralFalseExpression), p + 5)
  {
    assert s[p] == 'f' by {
      assert s[p] == s[p..p + 5][0];
    }
    ExactRejectsFirst(s, p, "visited");
    ExactRejectsFirst(s, p, "tagged");
    NoNumberAt(s, p);
    ExactRejectsFirst(s, p, "true");
    KeywordRead(s, p, "false");
  }

  /** A single digit followed by neither a digit nor '-' is an exact dice
      value: the range alternative fails on the missing dash. */
  lemma DigitElement(s: string, p: nat)
    requires p < |s| && IsDigit(s[p])
    requires p + 1 == |s| || (!IsDigit(s[p + 1]) && s[p + 1] != '-')
    ensures ReadOneBoolExpressionElement(s, p) == Step(Ok(ExactDiceResultExpression(DigitValue(s[p]))), p + 1)
  {
    ExactRejectsFirst(s, p, "visited");
    ExactRejectsFirst(s, p, "tagged");
    OneDigitRead(s, p);
    if p + 1 < |s| {
      ExactRejectsFirst(s, p + 1, "-");
    } else {
      KeywordRead(s, p + 1, "");
      NoNumberAt(s, p + 1);
    }
  }

  /** "d-e" with single digits is a range element. */
  lemma RangeElement(s: string, p: nat)
    requires p + 3 <= |s| && IsDigit(s[p]) && s[p + 1] == '-' && IsDigit(s[p + 2])
    requires p + 3 == |s| || !IsDigit(s[p + 3])
    ensures ReadOneBoolExpressionElement(s, p) ==
      Step(Ok(RangeDiceResultExpression(DigitValue(s[p]), DigitValue(s[p + 2]))), p + 3)
  {
    ExactRejectsFirst(s, p, "visited");
    ExactRejectsFirst(s, p, "tagged");
    SmallRangeRead(s, p);
  }

  /** When neither binary form can be read at p, the expression is its
      first element. */
  lemma ExpressionIsElement(s: string, p: nat)
    requires p <= |s|
    requires ReadBinary(s, p, "and").result.Err? && ReadBinary(s, p, "or").result.Err?
    ensures ReadBoolExpression(s, p) == ReadOneBoolExpressionElement(s, p)
  {
  }

  /** A binary form fails when no blank follows its first element. */
  lemma BinaryNeedsBlank(s: string, p: nat, keyword: string, e1: BoolExpr, q1: nat)
    requires p <= |s|
    requires ReadOneBoolExpressionElement(s, p) == Step(Ok(e1), q1)
    requires ReadNonBreakingWhitespace(s, q1).result.Err?
    ensures ReadBinary(s, p, keyword).result.Err?
  {
  }

  /** A binary form fails when its keyword does not follow the blanks. */
  lemma BinaryNeedsKeyword(s: string, p: nat, keyword: string, e1: BoolExpr, q1: nat, q2: nat)
    requires p <= |s|
    requires ReadOneBoolExpressionElement(s, p) == Step(Ok(e1), q1)
    requires ReadNonBreakingWhitespace(s, q1) == Step(Ok(()), q2)
    requires ReadExact(s, q2, keyword).result.Err?
    ensures ReadBinary(s, p, keyword).result.Err?
  {
  }

  /** An element with no blank after it is a whole boolean expression. */
  lemma LoneElement(s: string, p: nat, e: BoolExpr, q: nat)
    requires p <= |s|
    requires ReadOneBoolExpressionElement(s, p) == Step(Ok(e), q)
    requires q == |s| || (s[q] != ' ' && s[q] != '\t')
    ensures ReadBoolExpression(s, p) == Step(Ok(e), q)
  {
    NoBlankAt(s, q);
    BinaryNeedsBlank(s, p, "and", e, q);
    BinaryNeedsBlank(s, p, "or", e, q);
    ExpressionIsElement(s, p);
  }

  /** An element, blanks, the keyword, blanks, then an expression. */
  lemma BinaryRead(s: string, p: nat, keyword: string, e1: BoolExpr, q1: nat, q2: nat, q3: nat, e2: BoolExpr, r: nat)
    requires p <= |s|
    requires ReadOneBoolExpressionElement(s, p) == Step(Ok(e1), q1)
    requires ReadNonBreakingWhitespace(s, q1) == Step(Ok(()), q2)
    requires q2 <= |s| && ReadExact(s, q2, keyword).result.Ok?
    requires ReadNonBreakingWhitespace(s, ReadExact(s, q2, keyword).pos) == Step(Ok(()), q3)
    requires ReadBoolExpression(s, q3) == Step(Ok(e2), r)
    ensures ReadBinary(s, p, keyword) == Step(Ok((e1, e2)), r)
  {
  }

  /** A digit and one blank: the first element of a binary expression. */
  lemma DigitThenBlank(s: string, p: nat)
    requires p + 2 <= |s| && IsDigit(s[p]) && s[p + 1] == ' '
    requires p + 2 == |s| || (s[p + 2] != ' ' && s[p + 2] != '\t')
    ensures ReadOneBoolExpressionElement(s, p) == Step(Ok(ExactDiceResultExpression(DigitValue(s[p]))), p + 1)
    ensures ReadNonBreakingWhitespace(s, p + 1) == Step(Ok(()), p + 2)
  {
    DigitElement(s, p);
    OneBlankRead(s, p + 1);
  }

  /** One blank, then a word that starts neither with "o" nor with "an":
      neither `and` nor `or` can follow. */
  predicate BlankThenOtherWord(s: string, n: nat)
  {
    n + 2 < |s| && s[n] == ' ' && s[n + 1] != ' ' && s[n + 1] != '\t' && s[n + 1] != 'o'
    && (s[n + 1] == 'a' ==> s[n + 2] != 'n')
  }

  lemma BlankThenOtherWordRead(s: string, n: nat)
    requires BlankThenOtherWord(s, n)
    ensures ReadNonBreakingWhitespace(s, n) == Step(Ok(()), n + 1)
    ensures ReadExact(s, n + 1, "and").result.Err? && ReadExact(s, n + 1, "or").result.Err?
  {
    OneBlankRead(s, n);
    if s[n + 1] == 'a' {
      assert s[n + 1..n + 2] == "and"[0..1];
      ReadExactFromDisagrees(s, n + 1, "and", 0, 1);
    } else {
      ExactRejectsFirst(s, n + 1, "and");
    }
    ExactRejectsFirst(s, n + 1, "or");
  }

  /** A literal followed by a blank and a word that is not a keyword is the
      whole expression. */
  lemma LiteralThenOtherWord(s: string, n: nat, e: BoolExpr)
    requires BlankThenOtherWord(s, n)
    requires ReadOneBoolExpressionElement(s, 0) == Step(Ok(e), n)
    ensures ReadBoolExpression(s, 0) == Step(Ok(e), n)
  {
    BlankThenOtherWordRead(s, n);
    BinaryNeedsKeyword(s, 0, "and", e, n, n + 1);
    BinaryNeedsKeyword(s, 0, "or", e, n, n + 1);
    ExpressionIsElement(s, 0);
  }

  /** `true` alone, or followed by a word that is not a keyword, is read by
      `ReadBoolExpression` as the literal true (the parser's tests "true"
      and "true asdasd"). */
  lemma TrueExpressionRead(s: string)
    requires 4 <= |s| && s[..4] == "true" && (|s| == 4 || BlankThenOtherWord(s, 4))
    ensures ReadBoolExpression(s, 0) == Step(Ok(LiteralTrueExpression), 4)
  {
    assert s[0..4] == s[..4];
    TrueElement(s, 0);
    if |s| == 4 {
      LoneElement(s, 0, LiteralTrueExpression, 4);
    } else {
      LiteralThenOtherWord(s, 4, LiteralTrueExpression);
    }
  }

  /** The same for `false` (the tests "false" and "false asdasd"). */
  lemma FalseExpressionRead(s: string)
    requires 5 <= |s| && s[..5] == "false" && (|s| == 5 || BlankThenOtherWord(s, 5))
    ensures ReadBoolExpression(s, 0) == Step(Ok(LiteralFalseExpression), 5)
  {
    assert s[0..5] == s[..5];
    FalseElement(s, 0);
    if |s| == 5 {
      LoneElement(s, 0, LiteralFalseExpression, 5);
    } else {
      LiteralThenOtherWord(s, 5, LiteralFalseExpression);
    }
  }

  /** The keyword `or` between blanks, then a digit ending the input. */
  lemma OrThenDigit(s: string)
    requires |s| == 6 && s[2..4] == "or" && s[4] == ' ' && IsDigit(s[5])
    ensures ReadExact(s, 2, "or") == Step(Ok(()), 4)
    ensures ReadNonBreakingWhitespace(s, 4) == Step(Ok(()), 5)
    ensures ReadBoolExpression(s, 5) == Step(Ok(ExactDiceResultExpression(DigitValue(s[5]))), 6)
  {
    KeywordRead(s, 2, "or");
    OneBlankRead(s, 4);
    DigitElement(s, 5);
    LoneElement(s, 5, ExactDiceResultExpression(DigitValue(s[5])), 6);
  }

  /** Two single digits joined by `or` (the parser's test "1 or 5"). */
  lemma DigitOrDigit(s: string)
    requires |s| == 6 && IsDigit(s[0]) && s[1] == ' ' && s[2..4] == "or" && s[4] == ' ' && IsDigit(s[5])
    ensures ReadOrExpression(s, 0) == Step(Ok(OrExpression(
      [ExactDiceResultExpression(DigitValue(s[0])), ExactDiceResultExpression(DigitValue(s[5]))])), 6)
  {
    DigitThenBlank(s, 0);
    OrThenDigit(s);
    BinaryRead(s, 0, "or", ExactDiceResultExpression(DigitValue(s[0])), 1, 2, 5,
      ExactDiceResultExpression(DigitValue(s[5])), 6);
  }

  /** `true` ending the input is a whole expression. */
  lemma TrueAlone(s: string, q: nat)
    requires q + 4 == |s| && s[q..q + 4] == "true"
    ensures ReadBoolExpression(s, q) == Step(Ok(LiteralTrueExpression), q + 4)
  {
    TrueElement(s, q);
    LoneElement(s, q, LiteralTrueExpression, q + 4);
  }

  /** A single-digit range ending the input is a whole expression. */
  lemma RangeAlone(s: string, q: nat)
    requires q + 3 == |s| && IsDigit(s[q]) && s[q + 1] == '-' && IsDigit(s[q + 2])
    ensures ReadBoolExpression(s, q) == Step(Ok(RangeDiceResultExpression(DigitValue(s[q]), DigitValue(s[q + 2]))), q + 3)
  {
    RangeElement(s, q);
    LoneElement(s, q, RangeDiceResultExpression(DigitValue(s[q]), DigitValue(s[q + 2])), q + 3);
  }

  /** The keyword `and` between blanks, then `true` ending the input. */
  lemma AndThenTrue(s: string)
    requires |s| == 10 && s[2..5] == "and" && s[5] == ' ' && s[6..10] == "true"
    ensures ReadExact(s, 2, "and") == Step(Ok(()), 5)
    ensures ReadNonBreakingWhitespace(s, 5) == Step(Ok(()), 6)
    ensures ReadBoolExpression(s, 6) == Step(Ok(LiteralTrueExpression), 10)
  {
    KeywordRead(s, 2, "and");
    OneBlankRead(s, 5);
    TrueAlone(s, 6);
  }

  /** The keyword `and` between blanks, then a range ending the input. */
  lemma AndThenRange(s: string)
    requires |s| == 13 && s[6..9] == "and" && s[9] == ' '
    requires IsDigit(s[10]) && s[11] == '-' && IsDigit(s[12])
    ensures ReadExact(s, 6, "and") == Step(Ok(()), 9)
    ensures ReadNonBreakingWhitespace(s, 9) == Step(Ok(()), 10)
    ensures ReadBoolExpression(s, 10) ==
      Step(Ok(RangeDiceResultExpression(DigitValue(s[10]), DigitValue(s[12]))), 13)
  {
    KeywordRead(s, 6, "and");
    OneBlankRead(s, 9);
    RangeAlone(s, 10);
  }

  /** A single digit and `true` joined by `and` (the parser's test
      "1 and true"). */
  lemma DigitAndTrue(s: string)
    requires |s| == 10 && IsDigit(s[0]) && s[1] == ' ' && s[2..5] == "and" && s[5] == ' ' && s[6..10] == "true"
    ensures ReadAndExpression(s, 0) == Step(Ok(AndExpression(
      [ExactDiceResultExpression(DigitValue(s[0])), LiteralTrueExpression])), 10)
  {
    DigitThenBlank(s, 0);
    AndThenTrue(s);
    BinaryRead(s, 0, "and", ExactDiceResultExpression(DigitValue(s[0])), 1, 2, 6, LiteralTrueExpression, 10);
  }

  /** `false` and a single-digit range joined by `and` (the parser's test
      "false and 1-2"). */
  lemma FalseAndRange(s: string)
    requires |s| == 13 && s[0..5] == "false" && s[5] == ' ' && s[6..9] == "and" && s[9] == ' '
    requires IsDigit(s[10]) && s[11] == '-' && IsDigit(s[12])
    ensures ReadAndExpression(s, 0) == Step(Ok(AndExpression(
      [LiteralFalseExpression, RangeDiceResultExpression(DigitValue(s[10]), DigitValue(s[12]))])), 13)
  {
    FalseElement(s, 0);
    OneBlankRead(s, 5);
    AndThenRange(s);
    BinaryRead(s, 0, "and", LiteralFalseExpression, 5, 6, 10,
      RangeDiceResultExpression(DigitValue(s[10]), DigitValue(s[12])), 13);
  }

  /* ---------- text payloads ---------- */

  /** Every line that `ReadTextAction` collects stops before a line break,
      so the lines it joins with "\n" carry no carriage return. */
  lemma {:induction false} TextLinesHaveNoCarriageReturn(s: string, p: nat, text: string)
    requires p <= |s| && '\r' !in text
    ensures '\r' !in ReadTextLines(s, p, text).result.value
    ensures |ReadTextLines(s, p, text).result.value| >= |text|
    ensures ReadTextLines(s, p, text).result.value[..|text|] == text
    decreases |s| - p
  {
    var line := ReadTextContinuation(s, p);
    if line.result.Ok? {
      var next := text + "\n" + line.result.value;
      assert '\r' !in line.result.value by {
        var ws := ReadCharsMaybe(s, p, AnyWhitespace, Unbounded);
        var dash := ReadExactChar(s, ws.pos, '-');
        var blanks := ReadCharsMaybe(s, dash.pos, AnyNonBreakingWhitespace, Unbounded);
        NoCarriageReturnInLine(s, blanks.pos);
      }
      TextLinesHaveNoCarriageReturn(s, line.pos, next);
      assert next[..|text|] == text;
    }
  }

  /** A line read up to a line break holds no carriage return. */
  lemma NoCarriageReturnInLine(s: string, p: nat)
    requires p <= |s|
    ensures var r := ReadNonEmptyStringUntilLineBreak(s, p);
      r.result.Ok? ==> '\r' !in r.result.value
  {
    var r := ReadNonEmptyStringUntilLineBreak(s, p);
    if r.result.Ok? {
      forall i | 0 <= i < |r.result.value| ensures r.result.value[i] != '\r' {
        assert r.result.value[i] == s[p + i];
        assert s[p + i] !in LineBreak;
      }
    }
  }

  /** The payload of a text action starts with its first line and contains
      no carriage return: multi-line text is joined with "\n" alone. */
  lemma TextActionPayload(s: string, p: nat)
    requires p <= |s|
    ensures var r := ReadTextAction(s, p);
      r.result.Ok? ==> r.result.value.TextAction? && '\r' !in r.result.value.text
  {
    var dash := ReadExactChar(s, p, '-');
    if dash.result.Ok? {
      var ws := ReadCharsMaybe(s, dash.pos, AnyWhitespace, Unbounded);
      var first := ReadNonEmptyStringUntilLineBreak(s, ws.pos);
      NoCarriageReturnInLine(s, ws.pos);
      if first.result.Ok? {
        TextLinesHaveNoCarriageReturn(s, first.pos, first.result.value);
      }
    }
  }

  /* ---------- activity lists ---------- */

  /** What `ReadActivity` guarantees of an activity it returns. */
  predicate WellFormedActivity(a: ActivityAst)
  {
    0 < |a.name| && !IsBlank(a.name)
    && (forall i :: 0 <= i < |a.name| ==> a.name[i] !in AnyWhitespace)
    && a.body.CompositeAction? && 0 < |a.body.actions|
  }

  /** An activity read successfully has a non-blank one-word name and a
      non-empty composite body. */
  lemma ActivityIsWellFormed(s: string, p: nat)
    requires p <= |s|
    ensures ReadActivity(s, p).result.Ok? ==> WellFormedActivity(ReadActivity(s, p).result.value)
  {
    var hash := ReadExactChar(s, p, '#');
    if hash.result.Ok? {
      var w := ReadNonBreakingWhitespace(s, hash.pos);
      if w.result.Ok? {
        var name := ReadNonEmptyStringUntilWhitespace(s, w.pos);
        if name.result.Ok? {
          forall i | 0 <= i < |name.result.value| ensures name.result.value[i] !in AnyWhitespace {
            assert name.result.value[i] == s[w.pos + i];
          }
        }
      }
    }
  }

  /** The loop of `ReadActivities` adds only well-formed activities. */
  lemma {:induction false} MoreActivitiesAreWellFormed(s: string, p: nat, acts: seq<ActivityAst>)
    requires p <= |s|
    requires forall i :: 0 <= i < |acts| ==> WellFormedActivity(acts[i])
    ensures var r := ReadMoreActivities(s, p, acts);
      r.result.Ok? ==> forall i :: 0 <= i < |r.result.value| ==> WellFormedActivity(r.result.value[i])
    decreases |s| - p
  {
    var lb := ReadLineBreaks(s, p);
    if lb.result.Ok? {
      var next := ReadActivity(s, lb.pos);
      if next.result.Ok? {
        ActivityIsWellFormed(s, lb.pos);
        MoreActivitiesAreWellFormed(s, next.pos, acts + [next.result.value]);
      }
    }
  }

  /** The loop of `ReadActivities` keeps the activities read so far, in
      order, ahead of the ones it adds. */
  lemma {:induction false} MoreActivitiesKeepPrefix(s: string, p: nat, acts: seq<ActivityAst>)
    requires p <= |s|
    ensures var r := ReadMoreActivities(s, p, acts);
      r.result.Ok? ==> |r.result.value| >= |acts| && r.result.value[..|acts|] == acts
    decreases |s| - p
  {
    var lb := ReadLineBreaks(s, p);
    if lb.result.Ok? {
      var next := ReadActivity(s, lb.pos);
      if next.result.Ok? {
        var acts' := acts + [next.result.value];
        MoreActivitiesKeepPrefix(s, next.pos, acts');
        var r := ReadMoreActivities(s, next.pos, acts');
        if r.result.Ok? {
          assert r.result.value[..|acts'|][..|acts|] == r.result.value[..|acts|];
          assert acts'[..|acts|] == acts;
        }
      }
    }
  }

  /** The loop of `ReadActivities` raises only errors that do not mention
      EOF: those end the list instead. */
  lemma {:induction false} MoreActivitiesRaiseNoEof(s: string, p: nat, acts: seq<ActivityAst>)
    requires p <= |s|
    ensures var r := ReadMoreActivities(s, p, acts);
      r.result.Err? ==> !MentionsEof(r.result.error)
    decreases |s| - p
  {
    var lb := ReadLineBreaks(s, p);
    if lb.result.Ok? {
      var next := ReadActivity(s, lb.pos);
      if next.result.Ok? {
        MoreActivitiesRaiseNoEof(s, next.pos, acts + [next.result.value]);
      }
    }
  }

  /** One turn of the loop of `ReadActivities`: line breaks, then an
      activity; the error is that of whichever read fails. */
  function NextActivity(s: string, p: nat): (r: Step<ActivityAst>)
    requires p <= |s|
    ensures p <= r.pos <= |s|
    ensures r.result.Ok? ==> r.pos > p
  {
    var lb := ReadLineBreaks(s, p);
    if lb.result.Err? then Propagate(lb) else ReadActivity(s, lb.pos)
  }

  /** The loop of `ReadActivities`, one turn at a time: a turn that reads an
      activity appends it and goes on; a turn that fails ends the list when
      its error mentions EOF, and otherwise raises that same error, with
      the cursor where the turn left it either way. */
  lemma MoreActivitiesStep(s: string, p: nat, acts: seq<ActivityAst>)
    requires p <= |s|
    ensures var n, r := NextActivity(s, p), ReadMoreActivities(s, p, acts);
      && (n.result.Ok? ==> r == ReadMoreActivities(s, n.pos, acts + [n.result.value]))
      && (n.result.Err? && MentionsEof(n.result.error) ==> r == Step(Ok(acts), n.pos))
      && (n.result.Err? && !MentionsEof(n.result.error) ==> r == Step(Err(n.result.error), n.pos))
  {
  }

  /** Where the loop of `ReadActivities` stops: the turn at q fails, the
      loop ends at the cursor that turn left, and its result is a list of
      activities when the error mentions EOF and that error otherwise. */
  predicate StopsAt(s: string, q: nat, r: Step<seq<ActivityAst>>)
    requires q <= |s|
  {
    var n := NextActivity(s, q);
    && n.result.Err?
    && r.pos == n.pos
    && (MentionsEof(n.result.error) ==> r.result.Ok?)
    && (!MentionsEof(n.result.error) ==> r.result == Err(n.result.error))
  }

  /** The loop of `ReadActivities` always ends at a turn that fails, at or
      after where it started: it succeeds exactly when that turn's error
      mentions EOF, and otherwise raises that turn's error. */
  lemma {:induction false} MoreActivitiesStopAtFailure(s: string, p: nat, acts: seq<ActivityAst>)
    requires p <= |s|
    ensures exists q :: p <= q <= |s| && StopsAt(s, q, ReadMoreActivities(s, p, acts))
    decreases |s| - p
  {
    MoreActivitiesStep(s, p, acts);
    var n := NextActivity(s, p);
    if n.result.Ok? {
      MoreActivitiesStopAtFailure(s, n.pos, acts + [n.result.value]);
    } else {
      assert StopsAt(s, p, ReadMoreActivities(s, p, acts));
    }
  }

  /** A story read successfully holds at least one activity, and every one
      of them is well formed. */
  lemma ActivitiesAreWellFormed(s: string, p: nat)
    requires p <= |s|
    ensures var r := ReadActivities(s, p);
      r.result.Ok? ==> 0 < |r.result.value| && forall i :: 0 <= i < |r.result.value| ==> WellFormedActivity(r.result.value[i])
  {
    var ws := ReadCharsMaybe(s, p, AnyWhitespace, Unbounded);
    var first := ReadActivity(s, ws.pos);
    if first.result.Ok? {
      ActivityIsWellFormed(s, ws.pos);
      MoreActivitiesAreWellFormed(s, first.pos, [first.result.value]);
      MoreActivitiesKeepPrefix(s, first.pos, [first.result.value]);
    }
  }
}
