/** What each `Read*` method of the Konklav `Parser` computes, as a function
    of the source text and the cursor position it starts from. Each function
    returns the value read or the `ParserError` raised, together with where
    the cursor is afterwards (a C# exception leaves the cursor where the
    failing read stopped). The imperative parser in module `KonklavParser` is
    proved to compute exactly these. */
module KonklavGrammar {
  import opened Text
  import opened KonklavAst
  import opened Options

  /** `ParserError`, reduced to the kind of failure and the data its
      message interpolates (the message text and line number are not
      modelled). */
  datatype ParseError =
    | Eof                                        // TakeChar past the end
    | NonEmptyExpected                           // blank word or line
    | OrFailed                                   // every alternative of ReadOr failed
    | NotInCharset(charset: string, got: char)   // ReadMoreThanOneChar
    | UnexpectedSymbol(got: char, word: string)  // ReadExact(string)
    | UnexpectedChar(got: char, expected: char)  // ReadExact(char)
    | InvalidIntLiteral(raw: string)
    | InvalidFloatLiteral(raw: string)
    | UnexpectedCommand(name: string)

  /** `e.Message.Contains("EOF")`: the message of a `TakeChar` past the end,
      or of an unknown command whose name itself contains "EOF" (the other
      messages interpolate only digits, charsets, single characters and
      fixed keywords). */
  predicate MentionsEof(e: ParseError) {
    e.Eof? || (e.UnexpectedCommand? && ContainsText(e.name, "EOF"))
  }

  datatype Result<T> = Ok(value: T) | Err(error: ParseError)

  /** The outcome of a read and the cursor position after it. */
  datatype Step<T> = Step(result: Result<T>, pos: nat)

  /** Re-raises a failed read's error from a read of another type. */
  function Propagate<T, U>(st: Step<U>): (r: Step<T>)
    requires st.result.Err?
    ensures r.result.Err? && r.result.error == st.result.error && r.pos == st.pos
  {
    Step(Err(st.result.error), st.pos)
  }

  const AnyWhitespace := " \t\n\r"
  const AnyNonBreakingWhitespace := " \t"
  const LineBreak := "\r\n"
  const Digits := "0123456789"
  /** The default `atMost` of `ReadCharsMaybe`. */
  const Unbounded: nat := 10000000

  lemma DigitsAreDigits(c: char)
    ensures c in Digits <==> IsDigit(c)
  {
  }

  /** `TakeChar`. */
  function TakeChar(s: string, p: nat): (r: Step<char>)
    requires p <= |s|
    ensures p <= r.pos <= |s|
  {
    if p >= |s| then Step(Err(Eof), p) else Step(Ok(s[p]), p + 1)
  }

  /** Where the `ReadCharsMaybe` loop stops: after the longest run of
      characters of `charset` starting at p, but after at most `limit`
      characters. */
  function RunEnd(s: string, p: nat, charset: string, limit: nat): (q: nat)
    requires p <= |s|
    ensures p <= q <= |s| && q - p <= limit
    ensures forall i :: p <= i < q ==> s[i] in charset
    ensures q < |s| && q - p < limit ==> s[q] !in charset
    decreases limit
  {
    if limit == 0 || p >= |s| || s[p] !in charset then p
    else RunEnd(s, p + 1, charset, limit - 1)
  }

  /** `ReadCharsMaybe(charset, to, atMost)`. The loop breaks only after the
      post-increment test `collected++ >= atMost`, so it takes up to
      `atMost + 1` characters. It never fails. */
  function ReadCharsMaybe(s: string, p: nat, charset: string, atMost: nat): (r: Step<string>)
    requires p <= |s|
    ensures p <= r.pos <= |s| && r.result.Ok?
    ensures r.result.value == s[p..r.pos]
  {
    var q := RunEnd(s, p, charset, atMost + 1);
    Step(Ok(s[p..q]), q)
  }

  /** `ReadMoreThanOneChar`: one character of the charset (consumed even
      when it does not belong), then `ReadCharsMaybe(charset, 10000)`. */
  function ReadMoreThanOneChar(s: string, p: nat, charset: string): (r: Step<string>)
    requires p <= |s|
    ensures p <= r.pos <= |s|
    ensures r.result.Ok? ==> r.pos > p && r.result.value == s[p..r.pos]
    ensures r.result.Ok? ==> forall i :: 0 <= i < |r.result.value| ==> r.result.value[i] in charset
  {
    if p >= |s| then Step(Err(Eof), p)
    else if s[p] !in charset then Step(Err(NotInCharset(charset, s[p])), p + 1)
    else
      var rest := ReadCharsMaybe(s, p + 1, charset, 10000);
      assert [s[p]] + rest.result.value == s[p..rest.pos];
      Step(Ok([s[p]] + rest.result.value), rest.pos)
  }

  /** The loop of `ReadExact(string)` after `k` characters of the word were
      matched: it stops with success at the end of the input or of the word. */
  function ReadExactFrom(s: string, p: nat, word: string, k: nat): (r: Step<()>)
    requires p <= |s| && k <= |word|
    ensures p <= r.pos <= |s|
    decreases |word| - k
  {
    if p >= |s| || k >= |word| then Step(Ok(()), p)
    else if s[p] != word[k] then Step(Err(UnexpectedSymbol(s[p], word)), p + 1)
    else ReadExactFrom(s, p + 1, word, k + 1)
  }

  /** `ReadExact(string)`. */
  function ReadExact(s: string, p: nat, word: string): (r: Step<()>)
    requires p <= |s|
    ensures p <= r.pos <= |s|
  {
    ReadExactFrom(s, p, word, 0)
  }

  /** `ReadExact(char)`. */
  function ReadExactChar(s: string, p: nat, c: char): (r: Step<()>)
    requires p <= |s|
    ensures p <= r.pos <= |s|
    ensures r.result.Ok? ==> r.pos == p + 1
  {
    if p >= |s| then Step(Err(Eof), p)
    else if s[p] != c then Step(Err(UnexpectedChar(s[p], c)), p + 1)
    else Step(Ok(()), p + 1)
  }

  /** Where a scan that stops at the first character of `stops` ends. */
  function ScanUntil(s: string, p: nat, stops: string): (q: nat)
    requires p <= |s|
    ensures p <= q <= |s|
    ensures forall i :: p <= i < q ==> s[i] !in stops
    ensures q < |s| ==> s[q] in stops
    decreases |s| - p
  {
    if p >= |s| || s[p] in stops then p else ScanUntil(s, p + 1, stops)
  }

  /** `ReadNonEmptyStringUntilWhitespace`. */
  function ReadNonEmptyStringUntilWhitespace(s: string, p: nat): (r: Step<string>)
    requires p <= |s|
    ensures p <= r.pos <= |s|
    ensures forall i :: p <= i < r.pos ==> s[i] !in AnyWhitespace
    ensures r.pos == |s| || s[r.pos] in AnyWhitespace
    ensures r.result.Ok? <==> !IsBlank(s[p..r.pos])
    ensures r.result.Ok? ==> r.result.value == s[p..r.pos]
    ensures r.result.Err? ==> r.result.error == NonEmptyExpected
    ensures r.result.Ok? ==> r.pos > p
  {
    var q := ScanUntil(s, p, AnyWhitespace);
    if IsBlank(s[p..q]) then Step(Err(NonEmptyExpected), q) else Step(Ok(s[p..q]), q)
  }

  /** `ReadNonEmptyStringUntilLineBreak`. */
  function ReadNonEmptyStringUntilLineBreak(s: string, p: nat): (r: Step<string>)
    requires p <= |s|
    ensures p <= r.pos <= |s|
    ensures forall i :: p <= i < r.pos ==> s[i] !in LineBreak
    ensures r.pos == |s| || s[r.pos] in LineBreak
    ensures r.result.Ok? <==> !IsBlank(s[p..r.pos])
    ensures r.result.Ok? ==> r.result.value == s[p..r.pos]
    ensures r.result.Err? ==> r.result.error == NonEmptyExpected
    ensures r.result.Ok? ==> r.pos > p
  {
    var q := ScanUntil(s, p, LineBreak);
    if IsBlank(s[p..q]) then Step(Err(NonEmptyExpected), q) else Step(Ok(s[p..q]), q)
  }

  /** `ReadSingleLineBreak`: blanks, up to two '\r', then a '\n'. */
  function ReadSingleLineBreak(s: string, p: nat): (r: Step<()>)
    requires p <= |s|
    ensures p <= r.pos <= |s|
  {
    var blanks := ReadCharsMaybe(s, p, AnyNonBreakingWhitespace, Unbounded);
    var cr := ReadCharsMaybe(s, blanks.pos, "\r", 1);
    ReadExactChar(s, cr.pos, '\n')
  }

  /** `ReadLineBreaks`: a single line break, then any white space. */
  function ReadLineBreaks(s: string, p: nat): (r: Step<()>)
    requires p <= |s|
    ensures p <= r.pos <= |s|
  {
    var lb := ReadSingleLineBreak(s, p);
    if lb.result.Err? then lb
    else
      var ws := ReadCharsMaybe(s, lb.pos, AnyWhitespace, Unbounded);
      Step(Ok(()), ws.pos)
  }

  /** `ReadNonBreakingWhitespace`: at least one space or tab. */
  function ReadNonBreakingWhitespace(s: string, p: nat): (r: Step<()>)
    requires p <= |s|
    ensures p <= r.pos <= |s|
    ensures r.result.Ok? ==> r.pos > p
  {
    var run := ReadMoreThanOneChar(s, p, AnyNonBreakingWhitespace);
    if run.result.Err? then Propagate(run) else Step(Ok(()), run.pos)
  }

  /** `int.TryParse(raw, NumberStyles.Any, InvariantCulture)` for a lexeme
      made of a sign run and a digit run: more than one sign is rejected,
      and so is a value outside the 32-bit range. */
  function ParseInt32(signs: string, digits: string): (r: Option<int>)
    requires AllDigits(digits)
    ensures |signs| > 1 ==> r.None?
    ensures r.Some? ==> -2147483648 <= r.value <= 2147483647
    ensures r.Some? ==> (if signs == "-" then -r.value else r.value) == DigitsValue(digits)
    ensures |signs| <= 1 && DigitsValue(digits) <= 2147483647 ==> r.Some?
    ensures signs == "-" && DigitsValue(digits) == 2147483648 ==> r.Some?
  {
    if |signs| > 1 then None
    else
      var magnitude: int := DigitsValue(digits);
      var v := if signs == "-" then -magnitude else magnitude;
      if -2147483648 <= v <= 2147483647 then Some(v) else None
  }

  /** `ReadIntLiteral`. */
  function ReadIntLiteral(s: string, p: nat): (r: Step<int>)
    requires p <= |s|
    ensures p <= r.pos <= |s|
    ensures r.result.Ok? ==> r.pos > p
  {
    var signs := ReadCharsMaybe(s, p, "+-", 1);
    var digits := ReadMoreThanOneChar(s, signs.pos, Digits);
    if digits.result.Err? then Propagate(digits)
    else
      assert AllDigits(digits.result.value) by {
        forall i | 0 <= i < |digits.result.value| ensures IsDigit(digits.result.value[i]) {
          DigitsAreDigits(digits.result.value[i]);
        }
      }
      match ParseInt32(signs.result.value, digits.result.value)
      case Some(v) => Step(Ok(v), digits.pos)
      case None => Step(Err(InvalidIntLiteral(signs.result.value + digits.result.value)), digits.pos)
  }

  /** `float.TryParse(raw, NumberStyles.Any, InvariantCulture)` for a lexeme
      made of a sign run, a digit run, a dot run and a digit run: at most
      one sign, at most one dot and at least one digit. The value is the
      exact decimal; its rounding to a 32-bit float is not modelled. */
  function ParseFloat(signs: string, intDigits: string, dots: string, fracDigits: string): (r: Option<NumberExpr>)
    requires AllDigits(intDigits) && AllDigits(fracDigits)
    ensures r.Some? <==> |signs| <= 1 && |dots| <= 1 && |intDigits| + |fracDigits| > 0
    ensures r.Some? ==> r.value.lexeme == signs + intDigits + dots + fracDigits
    ensures r.Some? && dots == "." ==>
      r.value.value == Signed(signs, DecimalValue(intDigits, fracDigits))
    ensures r.Some? && dots == "" ==>
      r.value.value == Signed(signs, (DigitsValue(intDigits) * Pow10(|fracDigits|) + DigitsValue(fracDigits)) as real)
  {
    if |signs| > 1 || |dots| > 1 || |intDigits| + |fracDigits| == 0 then None
    else
      var ds := intDigits + fracDigits;
      DigitsValueAppend(intDigits, fracDigits);
      ShiftedDecimal(DigitsValue(intDigits), DigitsValue(fracDigits), Pow10(|fracDigits|));
      var magnitude := if dots == "." then DigitsValue(ds) as real / Pow10(|fracDigits|) as real
                       else DigitsValue(ds) as real;
      Some(ExactFloatValue(signs + intDigits + dots + fracDigits,
                           if signs == "-" then -magnitude else magnitude))
  }

  /** Dividing `a * scale + b` by the scale puts the decimal point back. */
  lemma ShiftedDecimal(a: nat, b: nat, scale: nat)
    requires scale >= 1
    ensures (a * scale + b) as real / scale as real == a as real + b as real / scale as real
  {
    assert (a * scale) as real == a as real * scale as real;
  }

  /** The decimal `intDigits.fracDigits`. */
  function DecimalValue(intDigits: string, fracDigits: string): real
    requires AllDigits(intDigits) && AllDigits(fracDigits)
  {
    DigitsValue(intDigits) as real + DigitsValue(fracDigits) as real / Pow10(|fracDigits|) as real
  }

  /** A magnitude under a sign run of at most one character. */
  function Signed(signs: string, magnitude: real): real {
    if signs == "-" then -magnitude else magnitude
  }

  /** `ReadFloatLiteral`: signs, up to 11 digits, up to two dots, up to 11
      digits (each run capped at `atMost + 1`), then `float.TryParse`. */
  function ReadFloatLiteral(s: string, p: nat): (r: Step<NumberExpr>)
    requires p <= |s|
    ensures p <= r.pos <= |s|
  {
    var signs := ReadCharsMaybe(s, p, "+-", 1);
    var intDigits := ReadCharsMaybe(s, signs.pos, Digits, 10);
    var dots := ReadCharsMaybe(s, intDigits.pos, ".", 1);
    var fracDigits := ReadCharsMaybe(s, dots.pos, Digits, 10);
    assert AllDigits(intDigits.result.value) && AllDigits(fracDigits.result.value) by {
      forall i | 0 <= i < |intDigits.result.value| ensures IsDigit(intDigits.result.value[i]) {
        assert intDigits.result.value[i] == s[signs.pos + i];
        DigitsAreDigits(intDigits.result.value[i]);
      }
      forall i | 0 <= i < |fracDigits.result.value| ensures IsDigit(fracDigits.result.value[i]) {
        assert fracDigits.result.value[i] == s[dots.pos + i];
        DigitsAreDigits(fracDigits.result.value[i]);
      }
    }
    FinishFloat(signs.result.value, intDigits.result.value, dots.result.value, fracDigits.result.value, fracDigits.pos)
  }

  /** The end of `ReadFloatLiteral`: `float.TryParse` on the scanned
      lexeme, with the cursor left after it either way. */
  function FinishFloat(signs: string, intDigits: string, dots: string, fracDigits: string, pos: nat): (r: Step<NumberExpr>)
    requires AllDigits(intDigits) && AllDigits(fracDigits)
    ensures r.pos == pos
  {
    match ParseFloat(signs, intDigits, dots, fracDigits)
    case Some(n) => Step(Ok(n), pos)
    case None => Step(Err(InvalidFloatLiteral(signs + intDigits + dots + fracDigits)), pos)
  }

  /** `ReadOr`: every alternative starts from the same cursor; the first
      that succeeds wins; when all fail, "Or failed" is raised from where
      the last alternative stopped. */
  function ReadOr<T>(alts: seq<Step<T>>): (r: Step<T>)
    requires |alts| > 0
    ensures r.result.Ok? <==> exists i :: 0 <= i < |alts| && alts[i].result.Ok?
    ensures r.result.Ok? ==> exists i :: 0 <= i < |alts| && r == alts[i] && forall j :: 0 <= j < i ==> alts[j].result.Err?
    ensures r.result.Err? ==> r == Step(Err(OrFailed), alts[|alts| - 1].pos)
  {
    if alts[0].result.Ok? then alts[0]
    else if |alts| == 1 then Step(Err(OrFailed), alts[0].pos)
    else
      var r := ReadOr(alts[1..]);
      assert forall i :: 1 <= i < |alts| ==> alts[i] == alts[1..][i - 1];
      r
  }

  /** One step of `ReadOr` (a helper): the first alternative if it
      succeeded, otherwise the outcome of the remaining ones. */
  function OrElse<T>(first: Step<T>, rest: Step<T>): Step<T> {
    if first.result.Ok? then first else rest
  }

  /** The last step of `ReadOr` (a helper): the last alternative if it
      succeeded, otherwise "Or failed" from where it stopped. */
  function OrLast<T>(last: Step<T>): Step<T> {
    if last.result.Ok? then last else Step(Err(OrFailed), last.pos)
  }

  /** The productions spell `ReadOr` over a fixed list of alternatives as a
      chain of `OrElse` ending in `OrLast`; this is that unfolding. */
  lemma ReadOrChain<T>(a: Step<T>, rest: seq<Step<T>>)
    ensures rest == [] ==> ReadOr([a]) == OrLast(a)
    ensures rest != [] ==> ReadOr([a] + rest) == OrElse(a, ReadOr(rest))
  {
    if rest != [] {
      assert ([a] + rest)[1..] == rest;
    }
  }

  /** `ReadBoolExpression`: an And, else an Or, else a single element. */
  function ReadBoolExpression(s: string, p: nat): (r: Step<BoolExpr>)
    requires p <= |s|
    ensures p <= r.pos <= |s|
    decreases |s| - p, 3
  {
    OrElse(ReadAndExpression(s, p), OrElse(ReadOrExpression(s, p), OrLast(ReadOneBoolExpressionElement(s, p))))
  }

  /** `ReadAndExpression` and `ReadOrExpression`: an element, blanks, the
      keyword, blanks, then a whole boolean expression (right recursion). */
  function ReadBinary(s: string, p: nat, keyword: string): (r: Step<(BoolExpr, BoolExpr)>)
    requires p <= |s|
    ensures p <= r.pos <= |s|
    decreases |s| - p, 1
  {
    var first := ReadOneBoolExpressionElement(s, p);
    if first.result.Err? then Propagate(first) else
    var w1 := ReadNonBreakingWhitespace(s, first.pos);
    if w1.result.Err? then Propagate(w1) else
    var kw := ReadExact(s, w1.pos, keyword);
    if kw.result.Err? then Propagate(kw) else
    var w2 := ReadNonBreakingWhitespace(s, kw.pos);
    if w2.result.Err? then Propagate(w2) else
    var second := ReadBoolExpression(s, w2.pos);
    if second.result.Err? then Propagate(second) else
    Step(Ok((first.result.value, second.result.value)), second.pos)
  }

  function ReadAndExpression(s: string, p: nat): (r: Step<BoolExpr>)
    requires p <= |s|
    ensures p <= r.pos <= |s|
    decreases |s| - p, 2
  {
    var b := ReadBinary(s, p, "and");
    if b.result.Err? then Propagate(b)
    else Step(Ok(AndExpression([b.result.value.0, b.result.value.1])), b.pos)
  }

  function ReadOrExpression(s: string, p: nat): (r: Step<BoolExpr>)
    requires p <= |s|
    ensures p <= r.pos <= |s|
    decreases |s| - p, 2
  {
    var b := ReadBinary(s, p, "or");
    if b.result.Err? then Propagate(b)
    else Step(Ok(OrExpression([b.result.value.0, b.result.value.1])), b.pos)
  }

  /** `ReadOneBoolExpressionElement`: visited, tagged, a dice range, an
      exact dice value, true, false, tried in that order. */
  function ReadOneBoolExpressionElement(s: string, p: nat): (r: Step<BoolExpr>)
    requires p <= |s|
    ensures p <= r.pos <= |s|
    decreases |s| - p, 0
  {
    OrElse(ReadVisitedExpression(s, p), OrElse(ReadHasTag(s, p), OrElse(ReadRangeDiceResultExpression(s, p),
    OrElse(ReadExactDiceResultExpression(s, p), OrElse(ReadLiteralTrue(s, p), OrLast(ReadLiteralFalse(s, p)))))))
  }

  /** `ReadHasTag` and `ReadVisitedExpression`: a keyword, blanks, a word. */
  function ReadKeywordAndName(s: string, p: nat, keyword: string): (r: Step<string>)
    requires p <= |s|
    ensures p <= r.pos <= |s|
  {
    var kw := ReadExact(s, p, keyword);
    if kw.result.Err? then Propagate(kw) else
    ReadWordArgument(s, kw.pos)
  }

  /** Blanks followed by a word: the argument of `tagged`, `visited`,
      `/image`, `/goto` and `/tag`. */
  function ReadWordArgument(s: string, p: nat): (r: Step<string>)
    requires p <= |s|
    ensures p <= r.pos <= |s|
  {
    var w := ReadNonBreakingWhitespace(s, p);
    if w.result.Err? then Propagate(w) else
    ReadNonEmptyStringUntilWhitespace(s, w.pos)
  }

  function ReadHasTag(s: string, p: nat): (r: Step<BoolExpr>)
    requires p <= |s|
    ensures p <= r.pos <= |s|
  {
    var n := ReadKeywordAndName(s, p, "tagged");
    if n.result.Err? then Propagate(n) else Step(Ok(HasTagExpression(n.result.value)), n.pos)
  }

  function ReadVisitedExpression(s: string, p: nat): (r: Step<BoolExpr>)
    requires p <= |s|
    ensures p <= r.pos <= |s|
  {
    var n := ReadKeywordAndName(s, p, "visited");
    if n.result.Err? then Propagate(n) else Step(Ok(VisitedExpression(n.result.value)), n.pos)
  }

  function ReadLiteralTrue(s: string, p: nat): (r: Step<BoolExpr>)
    requires p <= |s|
    ensures p <= r.pos <= |s|
  {
    var kw := ReadExact(s, p, "true");
    if kw.result.Err? then Propagate(kw) else Step(Ok(LiteralTrueExpression), kw.pos)
  }

  function ReadLiteralFalse(s: string, p: nat): (r: Step<BoolExpr>)
    requires p <= |s|
    ensures p <= r.pos <= |s|
  {
    var kw := ReadExact(s, p, "false");
    if kw.result.Err? then Propagate(kw) else Step(Ok(LiteralFalseExpression), kw.pos)
  }

  function ReadExactDiceResultExpression(s: string, p: nat): (r: Step<BoolExpr>)
    requires p <= |s|
    ensures p <= r.pos <= |s|
  {
    var v := ReadIntLiteral(s, p);
    if v.result.Err? then Propagate(v) else Step(Ok(ExactDiceResultExpression(v.result.value)), v.pos)
  }

  function ReadRangeDiceResultExpression(s: string, p: nat): (r: Step<BoolExpr>)
    requires p <= |s|
    ensures p <= r.pos <= |s|
  {
    var v1 := ReadIntLiteral(s, p);
    if v1.result.Err? then Propagate(v1) else
    var dash := ReadExact(s, v1.pos, "-");
    if dash.result.Err? then Propagate(dash) else
    var v2 := ReadIntLiteral(s, dash.pos);
    if v2.result.Err? then Propagate(v2) else
    Step(Ok(RangeDiceResultExpression(v1.result.value, v2.result.value)), v2.pos)
  }

  /** `a` is the action the `switch` case of command word `word` builds. */
  predicate IsActionOf(a: Action, word: string) {
    match a
    case RollableAttribAction(_) => word == "rollable"
    case ImageAction(_) => word == "image"
    case WeighAttribAction(_) => word == "weight"
    case GotoAction(_) => word == "goto"
    case TagAction(_) => word == "tag"
    case EndAction => word == "end"
    case _ => false
  }

  /** The six command words of `ReadCommand`'s `switch`. */
  predicate IsCommandWord(name: string) {
    name == "rollable" || name == "image" || name == "weight" || name == "goto" || name == "tag" || name == "end"
  }

  /** `ReadCommand`: '/', a command word, then that command's argument. */
  function ReadCommand(s: string, p: nat): (r: Step<Action>)
    requires p <= |s|
    ensures p <= r.pos <= |s|
    ensures r.result.Ok? ==> r.pos > p && s[p] == '/' && exists word :: IsCommandWord(word) && IsActionOf(r.result.value, word)
  {
    var slash := ReadExactChar(s, p, '/');
    if slash.result.Err? then Propagate(slash) else
    var name := ReadNonEmptyStringUntilWhitespace(s, slash.pos);
    if name.result.Err? then Propagate(name) else
    ReadCommandArgument(s, name.pos, name.result.value)
  }

  /** The argument of /rollable: blanks, then the roll condition. */
  function ReadRollableArgument(s: string, q: nat): (r: Step<Action>)
    requires q <= |s|
    ensures q <= r.pos <= |s|
    ensures r.result.Ok? ==> r.result.value.RollableAttribAction?
  {
    var w := ReadNonBreakingWhitespace(s, q);
    if w.result.Err? then Propagate(w) else
    var e := ReadBoolExpression(s, w.pos);
    if e.result.Err? then Propagate(e) else Step(Ok(RollableAttribAction(e.result.value)), e.pos)
  }

  /** The argument of /weight: blanks, then the float weight. */
  function ReadWeightArgument(s: string, q: nat): (r: Step<Action>)
    requires q <= |s|
    ensures q <= r.pos <= |s|
    ensures r.result.Ok? ==> r.result.value.WeighAttribAction?
  {
    var w := ReadNonBreakingWhitespace(s, q);
    if w.result.Err? then Propagate(w) else
    var n := ReadFloatLiteral(s, w.pos);
    if n.result.Err? then Propagate(n) else Step(Ok(WeighAttribAction(n.result.value)), n.pos)
  }

  /** The argument of /image: blanks, then a word. */
  function ReadImageArgument(s: string, q: nat): (r: Step<Action>)
    requires q <= |s|
    ensures q <= r.pos <= |s|
    ensures r.result.Ok? ==> r.result.value.ImageAction?
  {
    var n := ReadWordArgument(s, q);
    if n.result.Err? then Propagate(n) else Step(Ok(ImageAction(n.result.value)), n.pos)
  }

  /** The argument of /goto: blanks, then a word. */
  function ReadGotoArgument(s: string, q: nat): (r: Step<Action>)
    requires q <= |s|
    ensures q <= r.pos <= |s|
    ensures r.result.Ok? ==> r.result.value.GotoAction?
  {
    var n := ReadWordArgument(s, q);
    if n.result.Err? then Propagate(n) else Step(Ok(GotoAction(n.result.value)), n.pos)
  }

  /** The argument of /tag: blanks, then a word. */
  function ReadTagArgument(s: string, q: nat): (r: Step<Action>)
    requires q <= |s|
    ensures q <= r.pos <= |s|
    ensures r.result.Ok? ==> r.result.value.TagAction?
  {
    var n := ReadWordArgument(s, q);
    if n.result.Err? then Propagate(n) else Step(Ok(TagAction(n.result.value)), n.pos)
  }

  /** The `switch` of `ReadCommand` on the command word, reading from q. */
  function ReadCommandArgument(s: string, q: nat, commandName: string): (r: Step<Action>)
    requires q <= |s|
    ensures q <= r.pos <= |s|
    ensures r.result.Ok? ==> IsActionOf(r.result.value, commandName)
    ensures !IsCommandWord(commandName) ==> r == Step(Err(UnexpectedCommand(commandName)), q)
    ensures commandName == "end" ==> r == Step(Ok(EndAction), q)
  {
    match commandName
    case "rollable" => ReadRollableArgument(s, q)
    case "image" => ReadImageArgument(s, q)
    case "weight" => ReadWeightArgument(s, q)
    case "goto" => ReadGotoArgument(s, q)
    case "tag" => ReadTagArgument(s, q)
    case "end" => Step(Ok(EndAction), q)
    case other => Step(Err(UnexpectedCommand(other)), q)
  }

  /** `ReadDebug`: "//" and the rest of the line, trimmed. */
  function ReadDebug(s: string, p: nat): (r: Step<Action>)
    requires p <= |s|
    ensures p <= r.pos <= |s|
    ensures r.result.Ok? ==> r.pos > p
  {
    var kw := ReadExact(s, p, "//");
    if kw.result.Err? then Propagate(kw) else
    var line := ReadNonEmptyStringUntilLineBreak(s, kw.pos);
    if line.result.Err? then Propagate(line) else
    Step(Ok(DebugAction(Trim(line.result.value))), line.pos)
  }

  /** One more line of `ReadTextAction`: white space, '-', blanks and a
      non-blank rest of line. */
  function ReadTextContinuation(s: string, p: nat): (r: Step<string>)
    requires p <= |s|
    ensures p <= r.pos <= |s|
    ensures r.result.Ok? ==> r.pos > p
  {
    var ws := ReadCharsMaybe(s, p, AnyWhitespace, Unbounded);
    var dash := ReadExactChar(s, ws.pos, '-');
    if dash.result.Err? then Propagate(dash) else
    var blanks := ReadCharsMaybe(s, dash.pos, AnyNonBreakingWhitespace, Unbounded);
    ReadNonEmptyStringUntilLineBreak(s, blanks.pos)
  }

  /** The loop of `ReadTextAction`: appends "\n" and each further line
      until one fails, then puts the cursor back before it. */
  function ReadTextLines(s: string, p: nat, text: string): (r: Step<string>)
    requires p <= |s|
    ensures p <= r.pos <= |s| && r.result.Ok?
    decreases |s| - p
  {
    var line := ReadTextContinuation(s, p);
    if line.result.Err? then Step(Ok(text), p)
    else ReadTextLines(s, line.pos, text + "\n" + line.result.value)
  }

  /** `ReadTextAction`. */
  function ReadTextAction(s: string, p: nat): (r: Step<Action>)
    requires p <= |s|
    ensures p <= r.pos <= |s|
    ensures r.result.Ok? ==> r.pos > p
  {
    var dash := ReadExactChar(s, p, '-');
    if dash.result.Err? then Propagate(dash) else
    var ws := ReadCharsMaybe(s, dash.pos, AnyWhitespace, Unbounded);
    var first := ReadNonEmptyStringUntilLineBreak(s, ws.pos);
    if first.result.Err? then Propagate(first) else
    var lines := ReadTextLines(s, first.pos, first.result.value);
    Step(Ok(TextAction(lines.result.value)), lines.pos)
  }

  /** `ReadAction` (not called by the other productions). */
  function ReadAction(s: string, p: nat): (r: Step<Action>)
    requires p <= |s|
    ensures p <= r.pos <= |s|
    decreases |s| - p, 3
  {
    OrElse(ReadCompositeAction(s, p), OrLast(ReadOneAction(s, p)))
  }

  /** `ReadOneAction`: a command, a debug line, a conditional or text. */
  function ReadOneAction(s: string, p: nat): (r: Step<Action>)
    requires p <= |s|
    ensures p <= r.pos <= |s|
    ensures r.result.Ok? ==> r.pos > p
    decreases |s| - p, 1
  {
    OrElse(ReadCommand(s, p), OrElse(ReadDebug(s, p), OrElse(ReadConditional(s, p), OrLast(ReadTextAction(s, p)))))
  }

  /** `ReadConditional`: "if", blanks, a condition, a line break, a
      composite action, white space and "end". */
  function ReadConditional(s: string, p: nat): (r: Step<Action>)
    requires p <= |s|
    ensures p <= r.pos <= |s|
    ensures r.result.Ok? ==> r.pos > p
    decreases |s| - p, 0
  {
    var kw := ReadExact(s, p, "if");
    if kw.result.Err? then Propagate(kw) else
    var w := ReadNonBreakingWhitespace(s, kw.pos);
    if w.result.Err? then Propagate(w) else
    var cond := ReadBoolExpression(s, w.pos);
    if cond.result.Err? then Propagate(cond) else
    var lb := ReadSingleLineBreak(s, cond.pos);
    if lb.result.Err? then Propagate(lb) else
    var body := ReadCompositeAction(s, lb.pos);
    if body.result.Err? then Propagate(body) else
    var ws := ReadCharsMaybe(s, body.pos, AnyWhitespace, Unbounded);
    var end := ReadExact(s, ws.pos, "end");
    if end.result.Err? then Propagate(end) else
    Step(Ok(ConditionalAction(cond.result.value, body.result.value)), end.pos)
  }

  /** `ReadCompositeAction`: blanks, one action, then as many further
      actions (each after white space) as can be read. */
  function ReadCompositeAction(s: string, p: nat): (r: Step<Action>)
    requires p <= |s|
    ensures p <= r.pos <= |s|
    ensures r.result.Ok? ==> r.pos > p && r.result.value.CompositeAction? && |r.result.value.actions| > 0
    decreases |s| - p, 2
  {
    var blanks := ReadCharsMaybe(s, p, AnyNonBreakingWhitespace, Unbounded);
    var first := ReadOneAction(s, blanks.pos);
    if first.result.Err? then Propagate(first) else
    var rest := ReadMoreActions(s, first.pos, [first.result.value]);
    Step(Ok(CompositeAction(rest.result.value)), rest.pos)
  }

  /** The loop of `ReadCompositeAction`: a failed attempt puts the cursor
      back where the attempt started. */
  function ReadMoreActions(s: string, p: nat, actions: seq<Action>): (r: Step<seq<Action>>)
    requires p <= |s|
    ensures p <= r.pos <= |s| && r.result.Ok?
    ensures |r.result.value| >= |actions| && r.result.value[..|actions|] == actions
    decreases |s| - p, 2
  {
    var ws := ReadCharsMaybe(s, p, AnyWhitespace, Unbounded);
    var next := ReadOneAction(s, ws.pos);
    if next.result.Err? then Step(Ok(actions), p)
    else
      var r := ReadMoreActions(s, next.pos, actions + [next.result.value]);
      assert r.result.value[..|actions|] == (actions + [next.result.value])[..|actions|];
      r
  }

  /** `ReadActivity`: '#', blanks, the name, line breaks, the body. */
  function ReadActivity(s: string, p: nat): (r: Step<ActivityAst>)
    requires p <= |s|
    ensures p <= r.pos <= |s|
    ensures r.result.Ok? ==> r.pos > p
  {
    var hash := ReadExactChar(s, p, '#');
    if hash.result.Err? then Propagate(hash) else
    var w := ReadNonBreakingWhitespace(s, hash.pos);
    if w.result.Err? then Propagate(w) else
    var name := ReadNonEmptyStringUntilWhitespace(s, w.pos);
    if name.result.Err? then Propagate(name) else
    var lb := ReadLineBreaks(s, name.pos);
    if lb.result.Err? then Propagate(lb) else
    var body := ReadCompositeAction(s, lb.pos);
    if body.result.Err? then Propagate(body) else
    Step(Ok(ActivityAst(name.result.value, body.result.value)), body.pos)
  }

  /** The loop of `ReadActivities`: line breaks and another activity, until
      a read fails; an error mentioning EOF ends the list, any other error
      is raised again. */
  function ReadMoreActivities(s: string, p: nat, acts: seq<ActivityAst>): (r: Step<seq<ActivityAst>>)
    requires p <= |s|
    ensures p <= r.pos <= |s|
    decreases |s| - p
  {
    var lb := ReadLineBreaks(s, p);
    if lb.result.Err? then
      (if MentionsEof(lb.result.error) then Step(Ok(acts), lb.pos) else Propagate(lb))
    else
      var next := ReadActivity(s, lb.pos);
      if next.result.Err? then
        (if MentionsEof(next.result.error) then Step(Ok(acts), next.pos) else Propagate(next))
      else ReadMoreActivities(s, next.pos, acts + [next.result.value])
  }

  /** `ReadActivities`: leading white space, a first activity, then the loop. */
  function ReadActivities(s: string, p: nat): (r: Step<seq<ActivityAst>>)
    requires p <= |s|
    ensures p <= r.pos <= |s|
  {
    var ws := ReadCharsMaybe(s, p, AnyWhitespace, Unbounded);
    var first := ReadActivity(s, ws.pos);
    if first.result.Err? then Propagate(first)
    else ReadMoreActivities(s, first.pos, [first.result.value])
  }
}
