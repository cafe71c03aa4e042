/** The Konklav `Parser`: a backtracking recursive-descent parser over a
    source string with a mutable cursor. Each `Read*` method reads from the
    cursor, moves it, and either returns what it read or fails with a
    `ParserError` (an `Err` result here, where C# throws). Every method is
    proved to return, and to leave the cursor, exactly as the function of the
    same name in `KonklavGrammar` says. */
module KonklavParser {
  import opened Text
  import opened KonklavAst
  import opened G = KonklavGrammar

  class Parser {
    const source: string
    var position: nat

    ghost predicate Valid()
      reads this
    {
      position <= |source|
    }

    constructor (source: string)
      ensures this.source == source && position == 0 && Valid()
    {
      this.source := source;
      position := 0;
    }

    /** `TakeChar`: the character under the cursor, or "EOF" at the end. */
    method TakeChar() returns (r: Result<char>)
      requires Valid()
      modifies this
      ensures Valid() && Step(r, position) == G.TakeChar(source, old(position))
    {
      if position >= |source| {
        return Err(Eof);
      }
      r := Ok(source[position]);
      position := position + 1;
    }

    /** `ReadCharsMaybe`: returns the characters it appends. */
    method ReadCharsMaybe(charset: string, atMost: nat) returns (taken: string)
      requires Valid()
      modifies this
      ensures Valid() && Step(Ok(taken), position) == G.ReadCharsMaybe(source, old(position), charset, atMost)
    {
      var collected := 0;
      taken := "";
      while position < |source|
        invariant Valid() && old(position) <= position
        invariant collected == position - old(position) && collected <= atMost
        invariant taken == source[old(position)..position]
        invariant G.RunEnd(source, old(position), charset, atMost + 1) == G.RunEnd(source, position, charset, atMost + 1 - collected)
        decreases |source| - position
      {
        if source[position] in charset {
          assert source[old(position)..position + 1] == source[old(position)..position] + [source[position]];
          taken := taken + [source[position]];
          position := position + 1;
          if collected >= atMost {
            collected := collected + 1;
            break;
          }
          collected := collected + 1;
        } else {
          break;
        }
      }
      assert position == G.RunEnd(source, old(position), charset, atMost + 1);
    }

    /** `ReadMoreThanOneChar`: returns the characters it appends. */
    method ReadMoreThanOneChar(charset: string) returns (r: Result<string>)
      requires Valid()
      modifies this
      ensures Valid() && Step(r, position) == G.ReadMoreThanOneChar(source, old(position), charset)
    {
      var ch := TakeChar();
      if ch.Err? {
        return Err(ch.error);
      }
      if ch.value !in charset {
        return Err(NotInCharset(charset, ch.value));
      }
      var rest := ReadCharsMaybe(charset, 10000);
      r := Ok([ch.value] + rest);
    }

    /** `ReadExact(string)`. */
    method ReadExact(word: string) returns (r: Result<()>)
      requires Valid()
      modifies this
      ensures Valid() && Step(r, position) == G.ReadExact(source, old(position), word)
    {
      var collected := 0;
      while position < |source| && collected < |word|
        invariant Valid() && collected <= |word|
        invariant G.ReadExactFrom(source, position, word, collected) == G.ReadExact(source, old(position), word)
        decreases |word| - collected
      {
        var ch := source[position];
        position := position + 1;
        if ch != word[collected] {
          return Err(UnexpectedSymbol(ch, word));
        }
        collected := collected + 1;
      }
      r := Ok(());
    }

    /** `ReadExact(char)`. */
    method ReadExactChar(c: char) returns (r: Result<()>)
      requires Valid()
      modifies this
      ensures Valid() && Step(r, position) == G.ReadExactChar(source, old(position), c)
    {
      var taken := TakeChar();
      if taken.Err? {
        return Err(taken.error);
      }
      if taken.value != c {
        return Err(UnexpectedChar(taken.value, c));
      }
      r := Ok(());
    }

    /** The loop shared by the two `ReadNonEmptyString*` methods: collects
        characters until one of `stops` or the end. */
    method ReadUntil(stops: string) returns (value: string)
      requires Valid()
      modifies this
      ensures Valid() && position == G.ScanUntil(source, old(position), stops)
      ensures value == source[old(position)..position]
    {
      value := "";
      while position < |source|
        invariant Valid() && old(position) <= position
        invariant value == source[old(position)..position]
        invariant G.ScanUntil(source, old(position), stops) == G.ScanUntil(source, position, stops)
        decreases |source| - position
      {
        if source[position] in stops {
          break;
        }
        value := value + [source[position]];
        position := position + 1;
      }
    }

    /** `ReadNonEmptyStringUntilWhitespace`. */
    method ReadNonEmptyStringUntilWhitespace() returns (r: Result<string>)
      requires Valid()
      modifies this
      ensures Valid() && Step(r, position) == G.ReadNonEmptyStringUntilWhitespace(source, old(position))
    {
      var value := ReadUntil(AnyWhitespace);
      if IsBlank(value) {
        return Err(NonEmptyExpected);
      }
      r := Ok(value);
    }

    /** `ReadNonEmptyStringUntilLineBreak`. */
    method ReadNonEmptyStringUntilLineBreak() returns (r: Result<string>)
      requires Valid()
      modifies this
      ensures Valid() && Step(r, position) == G.ReadNonEmptyStringUntilLineBreak(source, old(position))
    {
      var value := ReadUntil(LineBreak);
      if IsBlank(value) {
        return Err(NonEmptyExpected);
      }
      r := Ok(value);
    }

    /** `ReadSingleLineBreak`. */
    method ReadSingleLineBreak() returns (r: Result<()>)
      requires Valid()
      modifies this
      ensures Valid() && Step(r, position) == G.ReadSingleLineBreak(source, old(position))
    {
      var _ := ReadCharsMaybe(AnyNonBreakingWhitespace, Unbounded);
      var _ := ReadCharsMaybe("\r", 1);
      r := ReadExactChar('\n');
    }

    /** `ReadLineBreaks`. */
    method ReadLineBreaks() returns (r: Result<()>)
      requires Valid()
      modifies this
      ensures Valid() && Step(r, position) == G.ReadLineBreaks(source, old(position))
    {
      r := ReadSingleLineBreak();
      if r.Err? {
        return;
      }
      var _ := ReadCharsMaybe(AnyWhitespace, Unbounded);
    }

    /** `ReadNonBreakingWhitespace`. */
    method ReadNonBreakingWhitespace() returns (r: Result<()>)
      requires Valid()
      modifies this
      ensures Valid() && Step(r, position) == G.ReadNonBreakingWhitespace(source, old(position))
    {
      var run := ReadMoreThanOneChar(AnyNonBreakingWhitespace);
      if run.Err? {
        return Err(run.error);
      }
      r := Ok(());
    }

    /** `ReadIntLiteral`. */
    method ReadIntLiteral() returns (r: Result<int>)
      requires Valid()
      modifies this
      ensures Valid() && Step(r, position) == G.ReadIntLiteral(source, old(position))
    {
      var signs := ReadCharsMaybe("+-", 1);
      var digits := ReadMoreThanOneChar(Digits);
      if digits.Err? {
        return Err(digits.error);
      }
      assert AllDigits(digits.value) by {
        forall i | 0 <= i < |digits.value| ensures IsDigit(digits.value[i]) {
          DigitsAreDigits(digits.value[i]);
        }
      }
      var parsed := ParseInt32(signs, digits.value);
      if parsed.Some? {
        r := Ok(parsed.value);
      } else {
        r := Err(InvalidIntLiteral(signs + digits.value));
      }
    }

    /** `ReadFloatLiteral`. */
    method ReadFloatLiteral() returns (r: Result<NumberExpr>)
      requires Valid()
      modifies this
      ensures Valid() && Step(r, position) == G.ReadFloatLiteral(source, old(position))
    {
      var signs := ReadCharsMaybe("+-", 1);
      var intDigits := ReadCharsMaybe(Digits, 10);
      var dots := ReadCharsMaybe(".", 1);
      var fracDigits := ReadCharsMaybe(Digits, 10);
      assert AllDigits(intDigits) && AllDigits(fracDigits) by {
        forall i | 0 <= i < |intDigits| ensures IsDigit(intDigits[i]) {
          DigitsAreDigits(intDigits[i]);
        }
        forall i | 0 <= i < |fracDigits| ensures IsDigit(fracDigits[i]) {
          DigitsAreDigits(fracDigits[i]);
        }
      }
      var parsed := ParseFloat(signs, intDigits, dots, fracDigits);
      if parsed.Some? {
        r := Ok(parsed.value);
      } else {
        r := Err(InvalidFloatLiteral(signs + intDigits + dots + fracDigits));
      }
    }

    /** `ReadBoolExpression`: `ReadOr(ReadAndExpression, ReadOrExpression,
        ReadOneBoolExpressionElement)`. */
    method ReadBoolExpression() returns (r: Result<BoolExpr>)
      requires Valid()
      modifies this
      ensures Valid() && Step(r, position) == G.ReadBoolExpression(source, old(position))
      decreases |source| - position, 3
    {
      var start := position;
      r := ReadAndExpression();
      if r.Ok? {
        return;
      }
      position := start;
      r := ReadOrExpression();
      if r.Ok? {
        return;
      }
      position := start;
      r := ReadOneBoolExpressionElement();
      if r.Ok? {
        return;
      }
      r := Err(OrFailed);
    }

    /** The common body of `ReadAndExpression` and `ReadOrExpression`. */
    method ReadBinary(keyword: string) returns (r: Result<(BoolExpr, BoolExpr)>)
      requires Valid()
      modifies this
      ensures Valid() && Step(r, position) == G.ReadBinary(source, old(position), keyword)
      decreases |source| - position, 1
    {
      var first := ReadOneBoolExpressionElement();
      if first.Err? {
        return Err(first.error);
      }
      var w1 := ReadNonBreakingWhitespace();
      if w1.Err? {
        return Err(w1.error);
      }
      var kw := ReadExact(keyword);
      if kw.Err? {
        return Err(kw.error);
      }
      var w2 := ReadNonBreakingWhitespace();
      if w2.Err? {
        return Err(w2.error);
      }
      var second := ReadBoolExpression();
      if second.Err? {
        return Err(second.error);
      }
      r := Ok((first.value, second.value));
    }

    /** `ReadAndExpression`. */
    method ReadAndExpression() returns (r: Result<BoolExpr>)
      requires Valid()
      modifies this
      ensures Valid() && Step(r, position) == G.ReadAndExpression(source, old(position))
      decreases |source| - position, 2
    {
      var b := ReadBinary("and");
      if b.Err? {
        return Err(b.error);
      }
      r := Ok(AndExpression([b.value.0, b.value.1]));
    }

    /** `ReadOrExpression`. */
    method ReadOrExpression() returns (r: Result<BoolExpr>)
      requires Valid()
      modifies this
      ensures Valid() && Step(r, position) == G.ReadOrExpression(source, old(position))
      decreases |source| - position, 2
    {
      var b := ReadBinary("or");
      if b.Err? {
        return Err(b.error);
      }
      r := Ok(OrExpression([b.value.0, b.value.1]));
    }

    /** `ReadOneBoolExpressionElement`: `ReadOr` over the six atoms. */
    method ReadOneBoolExpressionElement() returns (r: Result<BoolExpr>)
      requires Valid()
      modifies this
      ensures Valid() && Step(r, position) == G.ReadOneBoolExpressionElement(source, old(position))
      decreases |source| - position, 0
    {
      var start := position;
      r := ReadVisitedExpression();
      if r.Ok? {
        return;
      }
      position := start;
      r := ReadHasTag();
      if r.Ok? {
        return;
      }
      position := start;
      r := ReadRangeDiceResultExpression();
      if r.Ok? {
        return;
      }
      position := start;
      r := ReadExactDiceResultExpression();
      if r.Ok? {
        return;
      }
      position := start;
      r := ReadLiteralTrue();
      if r.Ok? {
        return;
      }
      position := start;
      r := ReadLiteralFalse();
      if r.Ok? {
        return;
      }
      r := Err(OrFailed);
    }

    /** The shared body of `ReadHasTag` and `ReadVisitedExpression`. */
    method ReadKeywordAndName(keyword: string) returns (r: Result<string>)
      requires Valid()
      modifies this
      ensures Valid() && Step(r, position) == G.ReadKeywordAndName(source, old(position), keyword)
    {
      var kw := ReadExact(keyword);
      if kw.Err? {
        return Err(kw.error);
      }
      r := ReadWordArgument();
    }

    /** Blanks and a word, as `ReadHasTag`, `ReadVisitedExpression` and the
        `/image`, `/goto` and `/tag` commands read their argument. */
    method ReadWordArgument() returns (r: Result<string>)
      requires Valid()
      modifies this
      ensures Valid() && Step(r, position) == G.ReadWordArgument(source, old(position))
    {
      var w := ReadNonBreakingWhitespace();
      if w.Err? {
        return Err(w.error);
      }
      r := ReadNonEmptyStringUntilWhitespace();
    }

    /** `ReadHasTag`. */
    method ReadHasTag() returns (r: Result<BoolExpr>)
      requires Valid()
      modifies this
      ensures Valid() && Step(r, position) == G.ReadHasTag(source, old(position))
    {
      var n := ReadKeywordAndName("tagged");
      if n.Err? {
        return Err(n.error);
      }
      r := Ok(HasTagExpression(n.value));
    }

    /** `ReadVisitedExpression`. */
    method ReadVisitedExpression() returns (r: Result<BoolExpr>)
      requires Valid()
      modifies this
      ensures Valid() && Step(r, position) == G.ReadVisitedExpression(source, old(position))
    {
      var n := ReadKeywordAndName("visited");
      if n.Err? {
        return Err(n.error);
      }
      r := Ok(VisitedExpression(n.value));
    }

    /** `ReadLiteralTrue`. */
    method ReadLiteralTrue() returns (r: Result<BoolExpr>)
      requires Valid()
      modifies this
      ensures Valid() && Step(r, position) == G.ReadLiteralTrue(source, old(position))
    {
      var kw := ReadExact("true");
      if kw.Err? {
        return Err(kw.error);
      }
      r := Ok(LiteralTrueExpression);
    }

    /** `ReadLiteralFalse`. */
    method ReadLiteralFalse() returns (r: Result<BoolExpr>)
      requires Valid()
      modifies this
      ensures Valid() && Step(r, position) == G.ReadLiteralFalse(source, old(position))
    {
      var kw := ReadExact("false");
      if kw.Err? {
        return Err(kw.error);
      }
      r := Ok(LiteralFalseExpression);
    }

    /** `ReadExactDiceResultExpression`. */
    method ReadExactDiceResultExpression() returns (r: Result<BoolExpr>)
      requires Valid()
      modifies this
      ensures Valid() && Step(r, position) == G.ReadExactDiceResultExpression(source, old(position))
    {
      var v := ReadIntLiteral();
      if v.Err? {
        return Err(v.error);
      }
      r := Ok(ExactDiceResultExpression(v.value));
    }

    /** `ReadRangeDiceResultExpression`. */
    method ReadRangeDiceResultExpression() returns (r: Result<BoolExpr>)
      requires Valid()
      modifies this
      ensures Valid() && Step(r, position) == G.ReadRangeDiceResultExpression(source, old(position))
    {
      var v1 := ReadIntLiteral();
      if v1.Err? {
        return Err(v1.error);
      }
      var dash := ReadExact("-");
      if dash.Err? {
        return Err(dash.error);
      }
      var v2 := ReadIntLiteral();
      if v2.Err? {
        return Err(v2.error);
      }
      r := Ok(RangeDiceResultExpression(v1.value, v2.value));
    }

    /** `ReadNumberExpression`. */
    method ReadNumberExpression() returns (r: Result<NumberExpr>)
      requires Valid()
      modifies this
      ensures Valid() && Step(r, position) == G.ReadFloatLiteral(source, old(position))
    {
      r := ReadFloatLiteral();
    }

    /** `ReadCommand`. */
    method ReadCommand() returns (r: Result<Action>)
      requires Valid()
      modifies this
      ensures Valid() && Step(r, position) == G.ReadCommand(source, old(position))
    {
      var slash := ReadExactChar('/');
      if slash.Err? {
        return Err(slash.error);
      }
      var name := ReadNonEmptyStringUntilWhitespace();
      if name.Err? {
        return Err(name.error);
      }
      r := ReadCommandArgument(name.value);
    }

    /** The `switch` of `ReadCommand` on the command word. */
    method ReadCommandArgument(commandName: string) returns (r: Result<Action>)
      requires Valid()
      modifies this
      ensures Valid() && Step(r, position) == G.ReadCommandArgument(source, old(position), commandName)
    {
      ghost var p0 := position;
      if commandName == "rollable" {
        assert G.ReadCommandArgument(source, p0, commandName) == G.ReadRollableArgument(source, p0);
        var w := ReadNonBreakingWhitespace();
        if w.Err? {
          return Err(w.error);
        }
        var e := ReadBoolExpression();
        if e.Err? {
          return Err(e.error);
        }
        r := Ok(RollableAttribAction(e.value));
      } else if commandName == "image" {
        assert G.ReadCommandArgument(source, p0, commandName) == G.ReadImageArgument(source, p0);
        var n := ReadWordArgument();
        if n.Err? {
          return Err(n.error);
        }
        r := Ok(ImageAction(n.value));
      } else if commandName == "weight" {
        assert G.ReadCommandArgument(source, p0, commandName) == G.ReadWeightArgument(source, p0);
        var w := ReadNonBreakingWhitespace();
        if w.Err? {
          return Err(w.error);
        }
        var n := ReadNumberExpression();
        if n.Err? {
          return Err(n.error);
        }
        r := Ok(WeighAttribAction(n.value));
      } else if commandName == "goto" {
        assert G.ReadCommandArgument(source, p0, commandName) == G.ReadGotoArgument(source, p0);
        var n := ReadWordArgument();
        if n.Err? {
          return Err(n.error);
        }
        r := Ok(GotoAction(n.value));
      } else if commandName == "tag" {
        assert G.ReadCommandArgument(source, p0, commandName) == G.ReadTagArgument(source, p0);
        var n := ReadWordArgument();
        if n.Err? {
          return Err(n.error);
        }
        r := Ok(TagAction(n.value));
      } else if commandName == "end" {
        r := Ok(EndAction);
      } else {
        r := Err(UnexpectedCommand(commandName));
      }
    }

    /** `ReadDebug`. */
    method ReadDebug() returns (r: Result<Action>)
      requires Valid()
      modifies this
      ensures Valid() && Step(r, position) == G.ReadDebug(source, old(position))
    {
      var kw := ReadExact("//");
      if kw.Err? {
        return Err(kw.error);
      }
      var line := ReadNonEmptyStringUntilLineBreak();
      if line.Err? {
        return Err(line.error);
      }
      r := Ok(DebugAction(Trim(line.value)));
    }

    /** `ReadTextAction`. */
    method ReadTextAction() returns (r: Result<Action>)
      requires Valid()
      modifies this
      ensures Valid() && Step(r, position) == G.ReadTextAction(source, old(position))
    {
      var dash := ReadExactChar('-');
      if dash.Err? {
        return Err(dash.error);
      }
      var _ := ReadCharsMaybe(AnyWhitespace, Unbounded);
      var first := ReadNonEmptyStringUntilLineBreak();
      if first.Err? {
        return Err(first.error);
      }
      var text := first.value;
      ghost var lines := G.ReadTextLines(source, position, text);
      while true
        invariant Valid()
        invariant G.ReadTextLines(source, position, text) == lines
        decreases |source| - position
      {
        var backtrackTo := position;
        var _ := ReadCharsMaybe(AnyWhitespace, Unbounded);
        var next := ReadExactChar('-');
        if next.Err? {
          position := backtrackTo;
          break;
        }
        var _ := ReadCharsMaybe(AnyNonBreakingWhitespace, Unbounded);
        var line := ReadNonEmptyStringUntilLineBreak();
        if line.Err? {
          position := backtrackTo;
          break;
        }
        text := text + "\n" + line.value;
      }
      r := Ok(TextAction(text));
    }

    /** `ReadAction`: `ReadOr(ReadCompositeAction, ReadOneAction)`. */
    method ReadAction() returns (r: Result<Action>)
      requires Valid()
      modifies this
      ensures Valid() && Step(r, position) == G.ReadAction(source, old(position))
      decreases |source| - position, 3
    {
      var start := position;
      r := ReadCompositeAction();
      if r.Ok? {
        return;
      }
      position := start;
      r := ReadOneAction();
      if r.Ok? {
        return;
      }
      r := Err(OrFailed);
    }

    /** `ReadOneAction`: `ReadOr(ReadCommand, ReadDebug, ReadConditional,
        ReadTextAction)`. */
    method ReadOneAction() returns (r: Result<Action>)
      requires Valid()
      modifies this
      ensures Valid() && Step(r, position) == G.ReadOneAction(source, old(position))
      decreases |source| - position, 1
    {
      var start := position;
      r := ReadCommand();
      if r.Ok? {
        return;
      }
      position := start;
      r := ReadDebug();
      if r.Ok? {
        return;
      }
      position := start;
      r := ReadConditional();
      if r.Ok? {
        return;
      }
      position := start;
      r := ReadTextAction();
      if r.Ok? {
        return;
      }
      r := Err(OrFailed);
    }

    /** `ReadConditional`. */
    method ReadConditional() returns (r: Result<Action>)
      requires Valid()
      modifies this
      ensures Valid() && Step(r, position) == G.ReadConditional(source, old(position))
      decreases |source| - position, 0
    {
      var kw := ReadExact("if");
      if kw.Err? {
        return Err(kw.error);
      }
      var w := ReadNonBreakingWhitespace();
      if w.Err? {
        return Err(w.error);
      }
      var condition := ReadBoolExpression();
      if condition.Err? {
        return Err(condition.error);
      }
      var lb := ReadSingleLineBreak();
      if lb.Err? {
        return Err(lb.error);
      }
      var action := ReadCompositeAction();
      if action.Err? {
        return Err(action.error);
      }
      var _ := ReadCharsMaybe(AnyWhitespace, Unbounded);
      var end := ReadExact("end");
      if end.Err? {
        return Err(end.error);
      }
      r := Ok(ConditionalAction(condition.value, action.value));
    }

    /** `ReadCompositeAction`. */
    method ReadCompositeAction() returns (r: Result<Action>)
      requires Valid()
      modifies this
      ensures Valid() && Step(r, position) == G.ReadCompositeAction(source, old(position))
      decreases |source| - position, 2
    {
      var _ := ReadCharsMaybe(AnyNonBreakingWhitespace, Unbounded);
      var first := ReadOneAction();
      if first.Err? {
        return Err(first.error);
      }
      var actions := [first.value];
      ghost var all := G.ReadMoreActions(source, position, actions);
      while true
        invariant Valid() && old(position) <= position
        invariant G.ReadMoreActions(source, position, actions) == all
        decreases |source| - position
      {
        var backtrackTo := position;
        var _ := ReadCharsMaybe(AnyWhitespace, Unbounded);
        var next := ReadOneAction();
        if next.Err? {
          position := backtrackTo;
          break;
        }
        actions := actions + [next.value];
      }
      r := Ok(CompositeAction(actions));
    }

    /** `ReadActivity`. */
    method ReadActivity() returns (r: Result<ActivityAst>)
      requires Valid()
      modifies this
      ensures Valid() && Step(r, position) == G.ReadActivity(source, old(position))
    {
      var hash := ReadExactChar('#');
      if hash.Err? {
        return Err(hash.error);
      }
      var w := ReadNonBreakingWhitespace();
      if w.Err? {
        return Err(w.error);
      }
      var name := ReadNonEmptyStringUntilWhitespace();
      if name.Err? {
        return Err(name.error);
      }
      var lb := ReadLineBreaks();
      if lb.Err? {
        return Err(lb.error);
      }
      var action := ReadCompositeAction();
      if action.Err? {
        return Err(action.error);
      }
      r := Ok(ActivityAst(name.value, action.value));
    }

    /** `ReadActivities`. */
    method ReadActivities() returns (r: Result<seq<ActivityAst>>)
      requires Valid()
      modifies this
      ensures Valid() && Step(r, position) == G.ReadActivities(source, old(position))
    {
      var _ := ReadCharsMaybe(AnyWhitespace, Unbounded);
      var first := ReadActivity();
      if first.Err? {
        return Err(first.error);
      }
      var result := [first.value];
      ghost var all := G.ReadMoreActivities(source, position, result);
      while true
        invariant Valid()
        invariant G.ReadMoreActivities(source, position, result) == all
        decreases |source| - position
      {
        var lb := ReadLineBreaks();
        if lb.Err? {
          if MentionsEof(lb.error) {
            return Ok(result);
          }
          return Err(lb.error);
        }
        var activity := ReadActivity();
        if activity.Err? {
          if MentionsEof(activity.error) {
            return Ok(result);
          }
          return Err(activity.error);
        }
        result := result + [activity.value];
      }
    }
  }
}
