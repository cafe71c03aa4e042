# MiniDnd story engine: a verified model

MiniDnd is a small dice-driven story game. Its stories are written in
Konklav, a line-oriented script language. Each `#` activity holds text
lines (`-`), commands (`/rollable`, `/weight`, `/goto`, `/tag`, `/image`,
`/end`), debug lines (`//`) and `if … end` conditionals over dice rolls,
visited activities and tags. This project models in Dafny:

- **The Konklav parser** (`Parser.cs`). `KonklavGrammar` gives each
  `Read*` method as a function of the source text and the cursor. It
  returns the value read, or the `ParserError` raised, together with the
  cursor afterwards. `KonklavParser.Parser` is the imperative parser, with
  its mutable cursor, loops and backtracking. Each of its methods is proved
  to compute exactly the matching grammar function. `KonklavGrammarFacts`
  proves what the productions accept: literal round trips, the leniency of
  `ReadExact`, the right-leaning shape of `and`/`or`, well-formed
  activities, the EOF rule of `ReadActivities`, and the cases of the
  parser's own tests. `KonklavFloatFacts` does the same for float
  literals, and `KonklavActionFacts` for commands, debug lines, text and
  conditionals.
- **The syntax tree** (`KonklavAst`). It covers boolean evaluation against
  a context, and the sequence of `IContext` calls each action makes,
  recorded in a trace. `KonklavContext` runs the same evaluation and
  execution against a recording context object.
- **`AstFormatter` and the `FormatAst` methods** (`KonklavFormatter`). Every
  node writes an indented outline, and `KonklavFormatterFacts` counts its
  lines and reads the dice arguments back.
- **`Utils`** (`Utils`). This covers the weighted roulette `Choice`, the
  uniform `Choice` and `NRandom`. Unity's random source is replaced by the
  values it would have returned, passed in as parameters.
- **`Player`** (`Players`). The transition flags `ShouldStartNewEncounter`
  and `NextExpectedActivity`.
- **The story navigation of `GameManager`** (`Game`). This covers loading
  the activities, the `"start"` bootstrap, `StartActivity`, `RollActivity`
  and the transition in `ApplyRoll`. An activity is seen through its name
  (taken to be the name its script gives it), whether it can be rolled and
  its weight.

C# exceptions become `Err` results, and null becomes `None`. Where the
code's behaviour looks unintended, the model follows the code:

- `ReadOr` raises "Or failed" from where the last alternative stopped,
  not an earlier alternative's error.
- The literal `false` evaluates to true, so `if false` runs its body. The
  intended evaluation is kept beside it (see Findings).
- Activity names need not be unique: lookups take the first match.
- `HasTag` asks the context as is: the code does no case folding.
- Rolling does not exclude visited activities.

## Model

| member | source | states |
|---|---|---|
| KonklavAst.EvaluateWith | MiniDnd/Assets/Scripts/Konklav/Parser.cs:82-195 | And holds iff every child holds, Or iff some child holds, True holds, ExactDice iff the last roll equals the value, RangeDice iff from <= roll <= to (inclusive), Visited and HasTag iff the context's sets contain the name; the literal false yields the value passed in |
| KonklavAst.EvaluateAsWritten | MiniDnd/Assets/Scripts/Konklav/Parser.cs:87-195 | the evaluation as the code writes it, which execution uses: And iff every child holds, Or iff some child holds, both literals hold, the dice, visited and tag tests as the context answers them |
| KonklavAst.Evaluate | MiniDnd/Assets/Scripts/Konklav/Parser.cs:87-195 | the intended evaluation: the same, except that the literal false does not hold |
| KonklavAst.AllTrue | MiniDnd/Assets/Scripts/Konklav/Parser.cs:96 | LINQ All over the children: true iff every child evaluates true (true for no children) |
| KonklavAst.AnyTrue | MiniDnd/Assets/Scripts/Konklav/Parser.cs:112 | LINQ Any over the children: true iff some child evaluates true (false for no children) |
| KonklavAst.LiteralFalseHoldsAsWritten | MiniDnd/Assets/Scripts/Konklav/Parser.cs:129-131 | as written, `false` evaluates to true in every context (and so does `false and true`); the intended evaluation makes both false |
| KonklavAst.AsWrittenAgreesWithoutFalse | MiniDnd/Assets/Scripts/Konklav/Parser.cs:87-195 | the evaluation as written and the intended one agree on every expression that does not contain the literal false |
| KonklavAst.IntendedLiteralLaws | MiniDnd/Assets/Scripts/Konklav/Parser.cs:122-134 | with the intended evaluation, false is the identity of or, true the identity of and, and false absorbs and |
| KonklavAst.EvaluateAsFloat | MiniDnd/Assets/Scripts/Konklav/Parser.cs:211 | the number literal evaluates to its own value whatever the context |
| KonklavAst.Apply | MiniDnd/Assets/Scripts/Konklav/Parser.cs:68-80 | one IContext call on the recording context: appended to the trace; the dice roll and visited set unchanged; only SetTag adds its tag to the tag set |
| KonklavAst.ExecuteExtends | MiniDnd/Assets/Scripts/Konklav/Parser.cs:216-424 | executing any action, whichever value the literal false takes, only appends to the trace, every non-Debug call right after the Debug line announcing it; the roll and visited set stay; the tag set grows by exactly the tags set |
| KonklavAst.ExecuteAllExtends | MiniDnd/Assets/Scripts/Konklav/Parser.cs:321-324 | the same for the children of a composite, run in list order |
| KonklavAst.ExecuteAllAppend | MiniDnd/Assets/Scripts/Konklav/Parser.cs:321-324 | running xs + ys is running xs, then ys from the context xs left |
| KonklavAst.ConditionalExecute | MiniDnd/Assets/Scripts/Konklav/Parser.cs:346-352 | a conditional runs its action exactly when its condition holds as written (`EvaluateAsWritten`) and otherwise leaves the context as it was |
| KonklavAst.Execute | MiniDnd/Assets/Scripts/Konklav/Parser.cs:216-424 | executing an action with the evaluation as written (`false` holds) only extends the recording context, as `Extends` says |
| KonklavAst.ExecuteAll | MiniDnd/Assets/Scripts/Konklav/Parser.cs:321-324 | the same for the children of a composite, in list order |
| KonklavAst.ExecuteIntended | MiniDnd/Assets/Scripts/Konklav/Parser.cs:216-424 | execution with the intended evaluation of `false` extends the context in the same way |
| KonklavAst.IfFalseRunsItsBody | MiniDnd/Assets/Scripts/Konklav/Parser.cs:129-131 | as written, `if false` runs its body exactly as the body alone would run (`if false` around `/end` makes the announcing Debug call and End); with the intended evaluation it makes no call |
| KonklavAst.AsWrittenRunsAsIntendedWithoutFalse | MiniDnd/Assets/Scripts/Konklav/Parser.cs:216-424 | an action whose conditions never mention the literal false runs the same as written and as intended |
| KonklavAst.AllAsWrittenRunAsIntended | MiniDnd/Assets/Scripts/Konklav/Parser.cs:321-324 | the same for a list of actions |
| KonklavContext.Context.constructor | MiniDnd/Assets/Scripts/Konklav/Parser.cs:68-80 | a recording context starts with the given roll, visited and tag sets and an empty trace |
| KonklavContext.Context.ShowText | MiniDnd/Assets/Scripts/Konklav/Parser.cs:71 | the call is recorded as the model's `Apply` describes |
| KonklavContext.Context.Goto | MiniDnd/Assets/Scripts/Konklav/Parser.cs:72 | the call is recorded as `Apply` describes |
| KonklavContext.Context.End | MiniDnd/Assets/Scripts/Konklav/Parser.cs:74 | the call is recorded as `Apply` describes |
| KonklavContext.Context.Debug | MiniDnd/Assets/Scripts/Konklav/Parser.cs:75 | the call is recorded as `Apply` describes |
| KonklavContext.Context.ShowImage | MiniDnd/Assets/Scripts/Konklav/Parser.cs:76 | the call is recorded as `Apply` describes |
| KonklavContext.Context.SetTag | MiniDnd/Assets/Scripts/Konklav/Parser.cs:77 | the call is recorded, and the tag joins the set HasTag reads |
| KonklavContext.EvaluateIn | MiniDnd/Assets/Scripts/Konklav/Parser.cs:87-195 | Evaluate run by asking the context object's queries returns exactly `EvaluateAsWritten` over the context's state, so the literal false yields true as in the code |
| KonklavContext.Execute | MiniDnd/Assets/Scripts/Konklav/Parser.cs:216-424 | Execute run against the context object leaves it in exactly the state `KonklavAst.Execute` (the evaluation as written) gives, hence with the trace properties of ExecuteExtends |
| KonklavGrammar.Propagate | MiniDnd/Assets/Scripts/Konklav/Parser.cs:440-451 | a re-raised error keeps its kind and the cursor where it was raised |
| KonklavGrammar.DigitsAreDigits | MiniDnd/Assets/Scripts/Konklav/Parser.cs:460 | the `Digits` charset holds exactly the decimal digits |
| KonklavGrammar.TakeChar | MiniDnd/Assets/Scripts/Konklav/Parser.cs:481-486 | the cursor never moves back nor past the end |
| KonklavGrammar.RunEnd | MiniDnd/Assets/Scripts/Konklav/Parser.cs:566-584 | the stop position ends the longest run of charset characters, capped at the limit: all characters before it are in the charset and the one at it is not, unless the cap was reached |
| KonklavGrammar.ReadCharsMaybe | MiniDnd/Assets/Scripts/Konklav/Parser.cs:566-584 | never fails; returns exactly the characters between the old and new cursor |
| KonklavGrammar.ReadMoreThanOneChar | MiniDnd/Assets/Scripts/Konklav/Parser.cs:586-594 | on success at least one character was consumed, the text returned is the consumed text and every character of it is in the charset |
| KonklavGrammar.ReadExactFrom | MiniDnd/Assets/Scripts/Konklav/Parser.cs:596-605 | the cursor never moves back nor past the end |
| KonklavGrammar.ReadExact | MiniDnd/Assets/Scripts/Konklav/Parser.cs:596-605 | the cursor never moves back nor past the end |
| KonklavGrammar.ReadExactChar | MiniDnd/Assets/Scripts/Konklav/Parser.cs:607-612 | on success exactly one character was consumed |
| KonklavGrammar.ScanUntil | MiniDnd/Assets/Scripts/Konklav/Parser.cs:492-507 | the scan stops at the first stop character, or at the end |
| KonklavGrammar.ReadNonEmptyStringUntilWhitespace | MiniDnd/Assets/Scripts/Konklav/Parser.cs:492-507 | the cursor ends at the first space, tab, CR or LF (or the end); success iff the run is not blank, returning the run; failure is "non empty string expected" |
| KonklavGrammar.ReadNonEmptyStringUntilLineBreak | MiniDnd/Assets/Scripts/Konklav/Parser.cs:509-524 | the cursor ends at the first CR or LF (or the end); success iff the line is not blank, returning the line; failure is "non empty string expected" |
| KonklavGrammar.ReadSingleLineBreak | MiniDnd/Assets/Scripts/Konklav/Parser.cs:614-620 | the cursor never moves back nor past the end |
| KonklavGrammar.ReadLineBreaks | MiniDnd/Assets/Scripts/Konklav/Parser.cs:622-629 | the cursor never moves back nor past the end |
| KonklavGrammar.ReadNonBreakingWhitespace | MiniDnd/Assets/Scripts/Konklav/Parser.cs:631-635 | on success at least one character was consumed |
| KonklavGrammar.ReadIntLiteral | MiniDnd/Assets/Scripts/Konklav/Parser.cs:637-650 | on success at least one character was consumed |
| KonklavGrammar.ParseInt32 | MiniDnd/Assets/Scripts/Konklav/Parser.cs:644-649 | `int.TryParse` of the lexeme: more than one sign fails; an accepted value is an int32 whose magnitude is the digits' value, negated for "-"; every digit string up to 2147483647 is accepted, and 2147483648 with "-" |
| KonklavGrammar.ParseFloat | MiniDnd/Assets/Scripts/Konklav/Parser.cs:652-667 | `float.TryParse` of the lexeme: accepted iff at most one sign, at most one dot and at least one digit; the value is the sign applied to the integer digits plus the fraction digits over 10 to their count, and it keeps the lexeme |
| KonklavGrammar.ReadFloatLiteral | MiniDnd/Assets/Scripts/Konklav/Parser.cs:652-667 | the cursor never moves back nor past the end |
| KonklavGrammar.FinishFloat | MiniDnd/Assets/Scripts/Konklav/Parser.cs:660-666 | the last step of ReadFloatLiteral keeps the cursor after the scanned runs, whether the lexeme parses or the error is raised |
| KonklavGrammar.ReadOr | MiniDnd/Assets/Scripts/Konklav/Parser.cs:526-541 | success iff some alternative (each tried from the same cursor) succeeds, and then it is the first one that does, with its cursor; otherwise "Or failed" from where the last alternative stopped, earlier errors dropped |
| KonklavGrammar.ReadOrChain | MiniDnd/Assets/Scripts/Konklav/Parser.cs:526-541 | ReadOr over a list is the first alternative if it succeeds, else ReadOr over the rest; a single alternative's failure becomes "Or failed" |
| KonklavGrammar.ReadBoolExpression | MiniDnd/Assets/Scripts/Konklav/Parser.cs:669-673 | the cursor never moves back nor past the end |
| KonklavGrammar.ReadBinary | MiniDnd/Assets/Scripts/Konklav/Parser.cs:721-739 | the cursor never moves back nor past the end |
| KonklavGrammar.ReadAndExpression | MiniDnd/Assets/Scripts/Konklav/Parser.cs:721-729 | the cursor never moves back nor past the end |
| KonklavGrammar.ReadOrExpression | MiniDnd/Assets/Scripts/Konklav/Parser.cs:731-739 | the cursor never moves back nor past the end |
| KonklavGrammar.ReadOneBoolExpressionElement | MiniDnd/Assets/Scripts/Konklav/Parser.cs:675-682 | the cursor never moves back nor past the end |
| KonklavGrammar.ReadKeywordAndName | MiniDnd/Assets/Scripts/Konklav/Parser.cs:684-697 | the cursor never moves back nor past the end |
| KonklavGrammar.ReadWordArgument | MiniDnd/Assets/Scripts/Konklav/Parser.cs:756-767 | the cursor never moves back nor past the end |
| KonklavGrammar.ReadHasTag | MiniDnd/Assets/Scripts/Konklav/Parser.cs:684-689 | the cursor never moves back nor past the end |
| KonklavGrammar.ReadVisitedExpression | MiniDnd/Assets/Scripts/Konklav/Parser.cs:691-697 | the cursor never moves back nor past the end |
| KonklavGrammar.ReadLiteralTrue | MiniDnd/Assets/Scripts/Konklav/Parser.cs:699-703 | the cursor never moves back nor past the end |
| KonklavGrammar.ReadLiteralFalse | MiniDnd/Assets/Scripts/Konklav/Parser.cs:705-709 | the cursor never moves back nor past the end |
| KonklavGrammar.ReadExactDiceResultExpression | MiniDnd/Assets/Scripts/Konklav/Parser.cs:711 | the cursor never moves back nor past the end |
| KonklavGrammar.ReadRangeDiceResultExpression | MiniDnd/Assets/Scripts/Konklav/Parser.cs:713-719 | the cursor never moves back nor past the end |
| KonklavGrammar.ReadCommand | MiniDnd/Assets/Scripts/Konklav/Parser.cs:747-773 | on success the command started with '/', consumed at least one character and built the action of one of the six command words |
| KonklavGrammar.ReadCommandArgument | MiniDnd/Assets/Scripts/Konklav/Parser.cs:751-772 | a successful read builds the action of the word switched on; a word that is none of the six is the unexpected-command error, raised where the word ends; "end" is `EndAction` with nothing more read |
| KonklavGrammar.ReadRollableArgument | MiniDnd/Assets/Scripts/Konklav/Parser.cs:753-755 | the "rollable" case builds a `RollableAttribAction`; `KonklavActionFacts.RollableCommandRead` gives its condition |
| KonklavGrammar.ReadWeightArgument | MiniDnd/Assets/Scripts/Konklav/Parser.cs:759-761 | the "weight" case builds a `WeighAttribAction`; `KonklavActionFacts.WeightCommandRead` gives its weight |
| KonklavGrammar.ReadImageArgument | MiniDnd/Assets/Scripts/Konklav/Parser.cs:756-758 | the "image" case builds an `ImageAction` |
| KonklavGrammar.ReadGotoArgument | MiniDnd/Assets/Scripts/Konklav/Parser.cs:762-764 | the "goto" case builds a `GotoAction` |
| KonklavGrammar.ReadTagArgument | MiniDnd/Assets/Scripts/Konklav/Parser.cs:765-767 | the "tag" case builds a `TagAction` |
| KonklavGrammar.ReadDebug | MiniDnd/Assets/Scripts/Konklav/Parser.cs:775-780 | on success at least one character was consumed |
| KonklavGrammar.ReadTextContinuation | MiniDnd/Assets/Scripts/Konklav/Parser.cs:795-802 | on success at least one character was consumed |
| KonklavGrammar.ReadTextLines | MiniDnd/Assets/Scripts/Konklav/Parser.cs:791-809 | the loop never fails: a failed line puts the cursor back before it |
| KonklavGrammar.ReadTextAction | MiniDnd/Assets/Scripts/Konklav/Parser.cs:782-812 | on success at least one character was consumed |
| KonklavGrammar.ReadAction | MiniDnd/Assets/Scripts/Konklav/Parser.cs:814-817 | the cursor never moves back nor past the end |
| KonklavGrammar.ReadOneAction | MiniDnd/Assets/Scripts/Konklav/Parser.cs:819-824 | on success at least one character was consumed |
| KonklavGrammar.ReadConditional | MiniDnd/Assets/Scripts/Konklav/Parser.cs:826-837 | on success at least one character was consumed |
| KonklavGrammar.ReadCompositeAction | MiniDnd/Assets/Scripts/Konklav/Parser.cs:839-862 | on success at least one character was consumed and the result is a composite of at least one action |
| KonklavGrammar.ReadMoreActions | MiniDnd/Assets/Scripts/Konklav/Parser.cs:844-859 | the loop never fails and keeps the actions read so far, in order, ahead of the ones it adds |
| KonklavGrammar.ReadActivity | MiniDnd/Assets/Scripts/Konklav/Parser.cs:864-877 | on success at least one character was consumed |
| KonklavGrammar.ReadMoreActivities | MiniDnd/Assets/Scripts/Konklav/Parser.cs:889-907 | the cursor never moves back nor past the end |
| KonklavGrammar.ReadActivities | MiniDnd/Assets/Scripts/Konklav/Parser.cs:879-910 | the cursor never moves back nor past the end |
| KonklavParser.Parser.constructor | MiniDnd/Assets/Scripts/Konklav/Parser.cs:462-466 | a new parser is over the given source with the cursor at 0 |
| KonklavParser.Parser.TakeChar | MiniDnd/Assets/Scripts/Konklav/Parser.cs:481-486 | result and new cursor are exactly `KonklavGrammar.TakeChar` of the source and old cursor |
| KonklavParser.Parser.ReadCharsMaybe | MiniDnd/Assets/Scripts/Konklav/Parser.cs:566-584 | the loop's text and new cursor are exactly `KonklavGrammar.ReadCharsMaybe` |
| KonklavParser.Parser.ReadMoreThanOneChar | MiniDnd/Assets/Scripts/Konklav/Parser.cs:586-594 | exactly `KonklavGrammar.ReadMoreThanOneChar` |
| KonklavParser.Parser.ReadExact | MiniDnd/Assets/Scripts/Konklav/Parser.cs:596-605 | the loop computes exactly `KonklavGrammar.ReadExact` |
| KonklavParser.Parser.ReadExactChar | MiniDnd/Assets/Scripts/Konklav/Parser.cs:607-612 | exactly `KonklavGrammar.ReadExactChar` |
| KonklavParser.Parser.ReadUntil | MiniDnd/Assets/Scripts/Konklav/Parser.cs:494-501 | the loop stops at `ScanUntil` and collects exactly the text it passed |
| KonklavParser.Parser.ReadNonEmptyStringUntilWhitespace | MiniDnd/Assets/Scripts/Konklav/Parser.cs:492-507 | exactly `KonklavGrammar.ReadNonEmptyStringUntilWhitespace` |
| KonklavParser.Parser.ReadNonEmptyStringUntilLineBreak | MiniDnd/Assets/Scripts/Konklav/Parser.cs:509-524 | exactly `KonklavGrammar.ReadNonEmptyStringUntilLineBreak` |
| KonklavParser.Parser.ReadSingleLineBreak | MiniDnd/Assets/Scripts/Konklav/Parser.cs:614-620 | exactly `KonklavGrammar.ReadSingleLineBreak` |
| KonklavParser.Parser.ReadLineBreaks | MiniDnd/Assets/Scripts/Konklav/Parser.cs:622-629 | exactly `KonklavGrammar.ReadLineBreaks` |
| KonklavParser.Parser.ReadNonBreakingWhitespace | MiniDnd/Assets/Scripts/Konklav/Parser.cs:631-635 | exactly `KonklavGrammar.ReadNonBreakingWhitespace` |
| KonklavParser.Parser.ReadIntLiteral | MiniDnd/Assets/Scripts/Konklav/Parser.cs:637-650 | exactly `KonklavGrammar.ReadIntLiteral` |
| KonklavParser.Parser.ReadFloatLiteral | MiniDnd/Assets/Scripts/Konklav/Parser.cs:652-667 | exactly `KonklavGrammar.ReadFloatLiteral` |
| KonklavParser.Parser.ReadBoolExpression | MiniDnd/Assets/Scripts/Konklav/Parser.cs:669-673 | the ordered choice, the cursor reset before each alternative, computes exactly `KonklavGrammar.ReadBoolExpression` |
| KonklavParser.Parser.ReadBinary | MiniDnd/Assets/Scripts/Konklav/Parser.cs:721-739 | exactly `KonklavGrammar.ReadBinary` |
| KonklavParser.Parser.ReadAndExpression | MiniDnd/Assets/Scripts/Konklav/Parser.cs:721-729 | exactly `KonklavGrammar.ReadAndExpression` |
| KonklavParser.Parser.ReadOrExpression | MiniDnd/Assets/Scripts/Konklav/Parser.cs:731-739 | exactly `KonklavGrammar.ReadOrExpression` |
| KonklavParser.Parser.ReadOneBoolExpressionElement | MiniDnd/Assets/Scripts/Konklav/Parser.cs:675-682 | exactly `KonklavGrammar.ReadOneBoolExpressionElement` |
| KonklavParser.Parser.ReadKeywordAndName | MiniDnd/Assets/Scripts/Konklav/Parser.cs:684-697 | exactly `KonklavGrammar.ReadKeywordAndName` |
| KonklavParser.Parser.ReadWordArgument | MiniDnd/Assets/Scripts/Konklav/Parser.cs:756-767 | exactly `KonklavGrammar.ReadWordArgument` |
| KonklavParser.Parser.ReadHasTag | MiniDnd/Assets/Scripts/Konklav/Parser.cs:684-689 | exactly `KonklavGrammar.ReadHasTag` |
| KonklavParser.Parser.ReadVisitedExpression | MiniDnd/Assets/Scripts/Konklav/Parser.cs:691-697 | exactly `KonklavGrammar.ReadVisitedExpression` |
| KonklavParser.Parser.ReadLiteralTrue | MiniDnd/Assets/Scripts/Konklav/Parser.cs:699-703 | exactly `KonklavGrammar.ReadLiteralTrue` |
| KonklavParser.Parser.ReadLiteralFalse | MiniDnd/Assets/Scripts/Konklav/Parser.cs:705-709 | exactly `KonklavGrammar.ReadLiteralFalse` |
| KonklavParser.Parser.ReadExactDiceResultExpression | MiniDnd/Assets/Scripts/Konklav/Parser.cs:711 | exactly `KonklavGrammar.ReadExactDiceResultExpression` |
| KonklavParser.Parser.ReadRangeDiceResultExpression | MiniDnd/Assets/Scripts/Konklav/Parser.cs:713-719 | exactly `KonklavGrammar.ReadRangeDiceResultExpression` |
| KonklavParser.Parser.ReadNumberExpression | MiniDnd/Assets/Scripts/Konklav/Parser.cs:741-745 | exactly `KonklavGrammar.ReadFloatLiteral`, wrapped as a number literal |
| KonklavParser.Parser.ReadCommand | MiniDnd/Assets/Scripts/Konklav/Parser.cs:747-773 | exactly `KonklavGrammar.ReadCommand` |
| KonklavParser.Parser.ReadCommandArgument | MiniDnd/Assets/Scripts/Konklav/Parser.cs:751-772 | exactly `KonklavGrammar.ReadCommandArgument` |
| KonklavParser.Parser.ReadDebug | MiniDnd/Assets/Scripts/Konklav/Parser.cs:775-780 | exactly `KonklavGrammar.ReadDebug` |
| KonklavParser.Parser.ReadTextAction | MiniDnd/Assets/Scripts/Konklav/Parser.cs:782-812 | the backtracking loop computes exactly `KonklavGrammar.ReadTextAction` |
| KonklavParser.Parser.ReadAction | MiniDnd/Assets/Scripts/Konklav/Parser.cs:814-817 | exactly `KonklavGrammar.ReadAction` |
| KonklavParser.Parser.ReadOneAction | MiniDnd/Assets/Scripts/Konklav/Parser.cs:819-824 | exactly `KonklavGrammar.ReadOneAction` |
| KonklavParser.Parser.ReadConditional | MiniDnd/Assets/Scripts/Konklav/Parser.cs:826-837 | exactly `KonklavGrammar.ReadConditional` |
| KonklavParser.Parser.ReadCompositeAction | MiniDnd/Assets/Scripts/Konklav/Parser.cs:839-862 | the backtracking loop computes exactly `KonklavGrammar.ReadCompositeAction` |
| KonklavParser.Parser.ReadActivity | MiniDnd/Assets/Scripts/Konklav/Parser.cs:864-877 | exactly `KonklavGrammar.ReadActivity` |
| KonklavParser.Parser.ReadActivities | MiniDnd/Assets/Scripts/Konklav/Parser.cs:879-910 | the loop that stops on an EOF error and rethrows any other computes exactly `KonklavGrammar.ReadActivities` |
| KonklavGrammarFacts.RunEndOfRun | MiniDnd/Assets/Scripts/Konklav/Parser.cs:566-584 | a run of n charset characters that the limit allows, ended by the end or a foreign character, is consumed exactly |
| KonklavGrammarFacts.SignRunTakesTwo | MiniDnd/Assets/Scripts/Konklav/Parser.cs:574-581 | `ReadCharsMaybe` with atMost 1 takes two signs of "--5", one more than atMost |
| KonklavGrammarFacts.ReadExactFromAgrees | MiniDnd/Assets/Scripts/Konklav/Parser.cs:596-605 | `ReadExact` succeeds when input and word agree on every position both have, stopping after the shorter: a word cut short by the end of input is accepted |
| KonklavGrammarFacts.ReadExactFromDisagrees | MiniDnd/Assets/Scripts/Konklav/Parser.cs:596-605 | otherwise it fails on the first disagreeing character, naming it and the word, with that character consumed |
| KonklavGrammarFacts.LiteralTrueAcceptsTruncations | MiniDnd/Assets/Scripts/Konklav/Parser.cs:699-703 | "tr" and the empty remainder read as the literal true; "tx" fails on the 'x' |
| KonklavGrammarFacts.WordRead | MiniDnd/Assets/Scripts/Konklav/Parser.cs:492-507 | a non-blank word ended by white space or the end is read whole |
| KonklavGrammarFacts.WordTestCases | MiniDnd/Assets/Scripts/Konklav/Tests/ParserTests.cs:84-95 | "kek pek", "kek\r\n", "kek\t" read "kek"; "this is ok" reads "this"; "this_is_ok" reads whole |
| KonklavGrammarFacts.BlankWordTestCases | MiniDnd/Assets/Scripts/Konklav/Tests/ParserTests.cs:97-106 | "", "\r\n", " asdkl" and "\t" fail |
| KonklavGrammarFacts.DigitRunRead | MiniDnd/Assets/Scripts/Konklav/Parser.cs:586-594 | a digit run of 1 to 10001 digits not followed by a digit is read whole |
| KonklavGrammarFacts.SignRunRead | MiniDnd/Assets/Scripts/Konklav/Parser.cs:639 | a run of at most two signs not followed by a sign is taken whole by the sign read of an int literal |
| KonklavGrammarFacts.IntLexemeRead | MiniDnd/Assets/Scripts/Konklav/Parser.cs:637-650 | up to two signs then a maximal digit run are consumed whole, and the value is what int.TryParse makes of the lexeme, or "invalid int literal" naming it |
| KonklavGrammarFacts.IntLiteralRoundTrip | MiniDnd/Assets/Scripts/Konklav/Parser.cs:637-650 | every int32 written in decimal reads back as itself when no digit follows |
| KonklavGrammarFacts.Int32Text | MiniDnd/Assets/Scripts/Konklav/Parser.cs:644-649 | the decimal text of an int32 is an optional "-" and at most ten digits that `int.TryParse` reads back as the same value |
| KonklavGrammarFacts.Int32LexemeRead | MiniDnd/Assets/Scripts/Konklav/Parser.cs:637-650 | such a lexeme, not followed by a digit, reads as that value and is consumed whole |
| KonklavGrammarFacts.IntLiteralHundredCases | MiniDnd/Assets/Scripts/Konklav/Tests/ParserTests.cs:24-33 | "100" and "100a" read 100, consuming 3 characters |
| KonklavGrammarFacts.IntLiteralOneCases | MiniDnd/Assets/Scripts/Konklav/Tests/ParserTests.cs:24-33 | "1" and "1  asdasd" read 1 |
| KonklavGrammarFacts.IntLiteralSignedCase | MiniDnd/Assets/Scripts/Konklav/Tests/ParserTests.cs:24-33 | "-10000-1" reads -10000, stopping at the second '-' |
| KonklavGrammarFacts.IntLiteralTwoSigns | MiniDnd/Assets/Scripts/Konklav/Parser.cs:637-650 | "--5" is an invalid int literal |
| KonklavGrammarFacts.IntLiteralOverflow | MiniDnd/Assets/Scripts/Konklav/Parser.cs:637-650 | 2147483648 is an invalid int literal |
| KonklavGrammarFacts.ElementIsAtom | MiniDnd/Assets/Scripts/Konklav/Parser.cs:675-682 | an element is never an And or Or |
| KonklavGrammarFacts.BoolExpressionRightLeaning | MiniDnd/Assets/Scripts/Konklav/Parser.cs:669-739 | every parsed boolean expression leans right: each And/Or has two children, the left one an atom, so "a and b or c" is And(a, Or(b, c)) |
| KonklavGrammarFacts.BinaryRightLeaning | MiniDnd/Assets/Scripts/Konklav/Parser.cs:721-739 | a binary form's left side is an atom and its right side leans right |
| KonklavGrammarFacts.OneDigitRead | MiniDnd/Assets/Scripts/Konklav/Parser.cs:637-650 | a single digit not followed by a digit reads as its value |
| KonklavGrammarFacts.SmallRangeRead | MiniDnd/Assets/Scripts/Konklav/Parser.cs:713-719 | "d-e" with single digits reads as the range d..e |
| KonklavGrammarFacts.RangeRead | MiniDnd/Assets/Scripts/Konklav/Parser.cs:713-719 | an int literal, a dash and a second int literal read as the range between the two values, ending where the second literal ends |
| KonklavGrammarFacts.RangeTestCase | MiniDnd/Assets/Scripts/Konklav/Tests/ParserTests.cs:51-57 | "1-1" and "2-5 kek" read as ranges |
| KonklavGrammarFacts.ExactTestCases | MiniDnd/Assets/Scripts/Konklav/Tests/ParserTests.cs:59-65 | "1" and "2 kek" read as exact dice values |
| KonklavGrammarFacts.ExactRejectsFirst | MiniDnd/Assets/Scripts/Konklav/Parser.cs:596-605 | a word whose first character differs is rejected |
| KonklavGrammarFacts.KeywordRead | MiniDnd/Assets/Scripts/Konklav/Parser.cs:596-605 | a whole keyword present is read and nothing more |
| KonklavGrammarFacts.NoNumberAt | MiniDnd/Assets/Scripts/Konklav/Parser.cs:637-650 | no number, exact dice value or range starts at a character that is neither sign nor digit, or at the end |
| KonklavGrammarFacts.OneBlankRead | MiniDnd/Assets/Scripts/Konklav/Parser.cs:631-635 | one blank followed by a non-blank is consumed alone |
| KonklavGrammarFacts.NoBlankAt | MiniDnd/Assets/Scripts/Konklav/Parser.cs:631-635 | without a blank, `ReadNonBreakingWhitespace` fails |
| KonklavGrammarFacts.TrueElement | MiniDnd/Assets/Scripts/Konklav/Parser.cs:675-682 | "true" is the literal true: each earlier alternative fails |
| KonklavGrammarFacts.FalseElement | MiniDnd/Assets/Scripts/Konklav/Parser.cs:675-682 | "false" is the literal false |
| KonklavGrammarFacts.DigitElement | MiniDnd/Assets/Scripts/Konklav/Parser.cs:675-682 | a digit not followed by a digit or '-' is an exact dice value, since the range alternative fails first |
| KonklavGrammarFacts.RangeElement | MiniDnd/Assets/Scripts/Konklav/Parser.cs:675-682 | "d-e" is a range, tried before the exact value |
| KonklavGrammarFacts.ExpressionIsElement | MiniDnd/Assets/Scripts/Konklav/Parser.cs:669-673 | when neither binary form reads, the expression is its first element |
| KonklavGrammarFacts.BinaryNeedsBlank | MiniDnd/Assets/Scripts/Konklav/Parser.cs:721-739 | a binary form fails without a blank after its first element |
| KonklavGrammarFacts.BinaryNeedsKeyword | MiniDnd/Assets/Scripts/Konklav/Parser.cs:721-739 | a binary form fails without its keyword |
| KonklavGrammarFacts.LoneElement | MiniDnd/Assets/Scripts/Konklav/Parser.cs:669-739 | an element with no blank after it is the whole expression |
| KonklavGrammarFacts.BinaryRead | MiniDnd/Assets/Scripts/Konklav/Parser.cs:721-739 | element, blanks, keyword, blanks and an expression read as the pair |
| KonklavGrammarFacts.DigitThenBlank | MiniDnd/Assets/Scripts/Konklav/Parser.cs:669-739 | a digit then one blank: the element and the blank it is followed by |
| KonklavGrammarFacts.BlankThenOtherWordRead | MiniDnd/Assets/Scripts/Konklav/Parser.cs:721-739 | a blank then a word that is not a keyword admits neither "and" nor "or" |
| KonklavGrammarFacts.LiteralThenOtherWord | MiniDnd/Assets/Scripts/Konklav/Parser.cs:669-739 | a literal then a non-keyword word is the whole expression |
| KonklavGrammarFacts.TrueExpressionRead | MiniDnd/Assets/Scripts/Konklav/Tests/ParserTests.cs:35-41 | "true" and "true asdasd" read as the literal true |
| KonklavGrammarFacts.FalseExpressionRead | MiniDnd/Assets/Scripts/Konklav/Tests/ParserTests.cs:43-49 | "false" and "false asdasd" read as the literal false |
| KonklavGrammarFacts.OrThenDigit | MiniDnd/Assets/Scripts/Konklav/Parser.cs:731-739 | the "or", blank and digit that end "1 or 5" |
| KonklavGrammarFacts.DigitOrDigit | MiniDnd/Assets/Scripts/Konklav/Tests/ParserTests.cs:67-72 | "d or e" reads as Or of the two exact values |
| KonklavGrammarFacts.TrueAlone | MiniDnd/Assets/Scripts/Konklav/Parser.cs:669-682 | "true" ending the input is a whole expression |
| KonklavGrammarFacts.RangeAlone | MiniDnd/Assets/Scripts/Konklav/Parser.cs:669-719 | a single-digit range ending the input is a whole expression |
| KonklavGrammarFacts.AndThenTrue | MiniDnd/Assets/Scripts/Konklav/Parser.cs:721-729 | the "and", blank and "true" that end "1 and true" |
| KonklavGrammarFacts.AndThenRange | MiniDnd/Assets/Scripts/Konklav/Parser.cs:721-729 | the "and", blank and range that end "false and 1-2" |
| KonklavGrammarFacts.DigitAndTrue | MiniDnd/Assets/Scripts/Konklav/Tests/ParserTests.cs:74-82 | "d and true" reads as And(exact d, true) |
| KonklavGrammarFacts.FalseAndRange | MiniDnd/Assets/Scripts/Konklav/Tests/ParserTests.cs:74-82 | "false and d-e" reads as And(false, range d..e) |
| KonklavGrammarFacts.TextLinesHaveNoCarriageReturn | MiniDnd/Assets/Scripts/Konklav/Parser.cs:791-809 | the text loop keeps what it had and adds no carriage return |
| KonklavGrammarFacts.NoCarriageReturnInLine | MiniDnd/Assets/Scripts/Konklav/Parser.cs:509-524 | a line read up to a line break holds no carriage return |
| KonklavGrammarFacts.TextActionPayload | MiniDnd/Assets/Scripts/Konklav/Parser.cs:782-812 | a text action's lines are joined by "\n" alone: no carriage return in its text |
| KonklavGrammarFacts.ActivityIsWellFormed | MiniDnd/Assets/Scripts/Konklav/Parser.cs:864-877 | an activity read has a non-blank one-word name and a non-empty composite body |
| KonklavGrammarFacts.MoreActivitiesAreWellFormed | MiniDnd/Assets/Scripts/Konklav/Parser.cs:889-907 | the loop adds only well-formed activities |
| KonklavGrammarFacts.MoreActivitiesKeepPrefix | MiniDnd/Assets/Scripts/Konklav/Parser.cs:889-907 | the loop keeps the activities read so far, in order, ahead of the new ones |
| KonklavGrammarFacts.MoreActivitiesRaiseNoEof | MiniDnd/Assets/Scripts/Konklav/Parser.cs:898-906 | an error mentioning EOF ends the list; only other errors are raised again |
| KonklavGrammarFacts.MentionsEofCases | MiniDnd/Assets/Scripts/Konklav/Parser.cs:900 | `Message.Contains("EOF")`: the EOF error mentions it, an unexpected command whose word contains "EOF" does too, one without does not, and no other error kind does |
| KonklavGrammarFacts.MoreActivitiesStep | MiniDnd/Assets/Scripts/Konklav/Parser.cs:889-907 | one turn of the loop: an activity read is appended and the loop goes on; a failure whose message mentions EOF ends it with the activities so far; any other failure is that same error, raised again |
| KonklavGrammarFacts.MoreActivitiesStopAtFailure | MiniDnd/Assets/Scripts/Konklav/Parser.cs:889-907 | the loop always ends at a turn that fails, at or after where it started, and its outcome is what that failure decides |
| KonklavGrammarFacts.ActivitiesAreWellFormed | MiniDnd/Assets/Scripts/Konklav/Parser.cs:879-910 | a story read successfully holds at least one activity, every one well formed |
| KonklavFloatFacts.FloatRunsRead | MiniDnd/Assets/Scripts/Konklav/Parser.cs:652-667 | the four runs (up to two signs, up to 11 digits, up to two dots, up to 11 digits: each read takes one more than its limit), each ended by a character it does not take, are read in turn and handed to the parse |
| KonklavFloatFacts.FloatLexemeRead | MiniDnd/Assets/Scripts/Konklav/Parser.cs:652-667 | for such runs ReadFloatLiteral ends after them; it succeeds iff there is one sign at most, one dot at most and a digit, with the value of the signed decimal; otherwise "invalid float literal" naming the lexeme |
| KonklavFloatFacts.FinishFloatFacts | MiniDnd/Assets/Scripts/Konklav/Parser.cs:660-666 | the same for the parse step alone |
| KonklavFloatFacts.WholeNumberRead | MiniDnd/Assets/Scripts/Konklav/Parser.cs:652-667 | an optional sign and a digit run, not followed by a digit or dot, read as the signed value of the digits |
| KonklavFloatFacts.DecimalRead | MiniDnd/Assets/Scripts/Konklav/Parser.cs:652-667 | sign, digits, a dot and digits read as the signed decimal value |
| KonklavFloatFacts.FloatHundredCases | MiniDnd/Assets/Scripts/Konklav/Tests/ParserTests.cs:9-22 | "100" and "100a" read 100, consuming 3 characters |
| KonklavFloatFacts.FloatOneCases | MiniDnd/Assets/Scripts/Konklav/Tests/ParserTests.cs:9-22 | "1" and "1  asdasd" read 1 |
| KonklavFloatFacts.FloatHundredthCases | MiniDnd/Assets/Scripts/Konklav/Tests/ParserTests.cs:9-22 | "0.01" and "0.01 \n" read 1/100 |
| KonklavFloatFacts.FloatNegativeCases | MiniDnd/Assets/Scripts/Konklav/Tests/ParserTests.cs:9-22 | "-10000" and "-10000-1" read -10000, stopping at the second '-' |
| KonklavFloatFacts.FloatFractionCases | MiniDnd/Assets/Scripts/Konklav/Tests/ParserTests.cs:9-22 | "+.42" and "+.42asdfvn!" read 42/100 |
| KonklavFloatFacts.FloatWithoutDigits | MiniDnd/Assets/Scripts/Konklav/Parser.cs:652-667 | a lone "-" or a lone "." holds no digit and is an invalid float literal naming it |
| KonklavFloatFacts.FloatTwoDots | MiniDnd/Assets/Scripts/Konklav/Parser.cs:652-667 | "1..2" is an invalid float literal consumed whole: the dot read, limited to one, takes both dots, and `float.TryParse` rejects two |
| KonklavActionFacts.CommandNameRead | MiniDnd/Assets/Scripts/Konklav/Parser.cs:747-750 | '/' and a word ending at white space: the command goes on with that word |
| KonklavActionFacts.UnknownCommandIsError | MiniDnd/Assets/Scripts/Konklav/Parser.cs:770-771 | a word that is none of rollable, image, weight, goto, tag and end is the error "unexpected command" naming it, with the cursor after the word |
| KonklavActionFacts.WordArgumentRead | MiniDnd/Assets/Scripts/Konklav/Parser.cs:756-767 | blanks then a word: the word is the argument, the cursor after it |
| KonklavActionFacts.WordCommandRead | MiniDnd/Assets/Scripts/Konklav/Parser.cs:747-767 | "/goto", "/tag" or "/image", blanks and a word read as GotoAction, TagAction or ImageAction of that word |
| KonklavActionFacts.WordCommandArgument | MiniDnd/Assets/Scripts/Konklav/Parser.cs:756-767 | the argument step of those three commands makes the matching action of the word |
| KonklavActionFacts.CommandWordRead | MiniDnd/Assets/Scripts/Konklav/Parser.cs:749-751 | '/', a command word and a blank: the argument is read from the blank on, switched on that word |
| KonklavActionFacts.RollableCommandRead | MiniDnd/Assets/Scripts/Konklav/Parser.cs:753-755 | "/rollable", blanks, then what `ReadBoolExpression` reads: `RollableAttribAction` of that expression with the cursor after it, or its error, for all inputs |
| KonklavActionFacts.WeightCommandRead | MiniDnd/Assets/Scripts/Konklav/Parser.cs:759-761 | "/weight", blanks, then what `ReadFloatLiteral` reads: `WeighAttribAction` of that number with the cursor after it, or its error, for all inputs |
| KonklavActionFacts.CommandNeedsBlank | MiniDnd/Assets/Scripts/Konklav/Parser.cs:753-767 | every command but "end" fails when no blank follows its word |
| KonklavActionFacts.RollableTestCase | MiniDnd/Assets/Scripts/Konklav/Parser.cs:753-755 | "/rollable true" reads `RollableAttribAction(true)`, consuming all 14 characters |
| KonklavActionFacts.WeightTestCase | MiniDnd/Assets/Scripts/Konklav/Parser.cs:759-761 | "/weight 2.5" reads `WeighAttribAction` of the float 5/2, consuming all 11 characters |
| KonklavActionFacts.WeightCaseValue | MiniDnd/Assets/Scripts/Konklav/Parser.cs:759-761 | the weight of "/weight 2.5" is the literal "2.5" with the value 5/2 |
| KonklavActionFacts.EndCommandRead | MiniDnd/Assets/Scripts/Konklav/Parser.cs:768-769 | "/end" reads as the end action, with no argument |
| KonklavActionFacts.GotoTestCase | MiniDnd/Assets/Scripts/Konklav/Parser.cs:762-764 | "/goto x" reads GotoAction("x"), consuming all 7 characters |
| KonklavActionFacts.UnknownCommandTestCase | MiniDnd/Assets/Scripts/Konklav/Parser.cs:770-771 | "/jump x" is the error "unexpected command jump", raised after the word |
| KonklavActionFacts.DebugRead | MiniDnd/Assets/Scripts/Konklav/Parser.cs:775-780 | "//" and a non-blank rest of line read as the debug action of that line, trimmed |
| KonklavActionFacts.DebugTestCase | MiniDnd/Assets/Scripts/Konklav/Parser.cs:775-780 | "//  a " reads DebugAction("a") |
| KonklavActionFacts.TextContinuationRead | MiniDnd/Assets/Scripts/Konklav/Parser.cs:797-802 | white space, '-', blanks and a non-blank line read as a further line of text |
| KonklavActionFacts.TextEndsAt | MiniDnd/Assets/Scripts/Konklav/Parser.cs:804-807 | white space and then no '-': the text loop stops and puts the cursor back before the white space |
| KonklavActionFacts.TextLinesStep | MiniDnd/Assets/Scripts/Konklav/Parser.cs:791-809 | a further line is appended after "\n" and the loop goes on from after it |
| KonklavActionFacts.TextFirstLineRead | MiniDnd/Assets/Scripts/Konklav/Parser.cs:782-812 | '-', white space and a first non-blank line start the text, which the loop then extends |
| KonklavActionFacts.TextTestCase | MiniDnd/Assets/Scripts/Konklav/Parser.cs:782-812 | "- a\n- b\nx" reads TextAction("a\nb") and stops at 7, before the line without '-' |
| KonklavActionFacts.TextIsOneAction | MiniDnd/Assets/Scripts/Konklav/Parser.cs:819-824 | at a '-' the command, debug and conditional alternatives fail, so one action is the text action |
| KonklavActionFacts.NoActionAt | MiniDnd/Assets/Scripts/Konklav/Parser.cs:819-824 | no action starts at a character other than '/', '-' and 'i' |
| KonklavActionFacts.SingleActionComposite | MiniDnd/Assets/Scripts/Konklav/Parser.cs:839-862 | one action followed by white space where no action starts is a composite of that one action, the cursor after the action |
| KonklavActionFacts.ConditionalSteps | MiniDnd/Assets/Scripts/Konklav/Parser.cs:826-837 | "if", blanks, a condition, a line break, a composite body, white space and "end" read as the conditional of that condition and body |
| KonklavActionFacts.ConditionalTestCase | MiniDnd/Assets/Scripts/Konklav/Parser.cs:826-837 | "if true\n- a\nend" reads the conditional on true whose body is the one text action "a", ending at 15 |
| KonklavFormatter.AstFormatter.constructor | MiniDnd/Assets/Scripts/Konklav/Parser.cs:14-18 | a new formatter has indent 0 and no text |
| KonklavFormatter.AstFormatter.PrependIndent | MiniDnd/Assets/Scripts/Konklav/Parser.cs:20-24 | the loop appends four spaces per indent level |
| KonklavFormatter.AstFormatter.Write | MiniDnd/Assets/Scripts/Konklav/Parser.cs:26-29 | appends the text |
| KonklavFormatter.AstFormatter.BeginNode | MiniDnd/Assets/Scripts/Konklav/Parser.cs:31-37 | appends the indented "name {" line and raises the indent |
| KonklavFormatter.AstFormatter.Node | MiniDnd/Assets/Scripts/Konklav/Parser.cs:39-51 | appends the indented name, " : arg" only for a non-empty argument, and a line break |
| KonklavFormatter.AstFormatter.EndNode | MiniDnd/Assets/Scripts/Konklav/Parser.cs:53-58 | lowers the indent and appends the indented "}" line |
| KonklavFormatter.FormatBoolAst | MiniDnd/Assets/Scripts/Konklav/Parser.cs:98-194 | writes exactly the outline of the expression at the current indent, which it leaves unchanged |
| KonklavFormatter.FormatBoolNode | MiniDnd/Assets/Scripts/Konklav/Parser.cs:98-119 | And/Or: a begin line, the children, an end line |
| KonklavFormatter.FormatBoolChildren | MiniDnd/Assets/Scripts/Konklav/Parser.cs:101 | the loop writes the children's outlines in order |
| KonklavFormatter.FormatNumberAst | MiniDnd/Assets/Scripts/Konklav/Parser.cs:213 | a Float node carrying the literal |
| KonklavFormatter.FormatActionAst | MiniDnd/Assets/Scripts/Konklav/Parser.cs:236-423 | writes exactly the outline of the action at the current indent, which it leaves unchanged |
| KonklavFormatter.FormatCompositeAst | MiniDnd/Assets/Scripts/Konklav/Parser.cs:326-332 | a Composite node around its actions |
| KonklavFormatter.FormatActionChildren | MiniDnd/Assets/Scripts/Konklav/Parser.cs:329-330 | the loop writes the actions' outlines in order |
| KonklavFormatter.FormatConditionalAst | MiniDnd/Assets/Scripts/Konklav/Parser.cs:354-364 | a ConditionalAction node holding a Condition node and an Action node |
| KonklavFormatter.FormatBoolWrapped | MiniDnd/Assets/Scripts/Konklav/Parser.cs:378-383 | a named node around one expression |
| KonklavFormatter.FormatActionWrapped | MiniDnd/Assets/Scripts/Konklav/Parser.cs:360-362 | a named node around one action |
| KonklavFormatter.FormatWeighAst | MiniDnd/Assets/Scripts/Konklav/Parser.cs:397-402 | a WeighAttribAction node around the number |
| KonklavFormatter.FormatActivityAst | MiniDnd/Assets/Scripts/Konklav/Parser.cs:431-437 | an Activity node holding the Name leaf and the body |
| KonklavFormatter.ConditionalRender | MiniDnd/Assets/Scripts/Konklav/Parser.cs:354-364 | a conditional's text is its begin line, the condition and action blocks one level deeper, its end line |
| KonklavFormatterFacts.RenderLineCount | MiniDnd/Assets/Scripts/Konklav/Parser.cs:31-58 | with single-line names and arguments, the formatted text has one line per leaf and two per inner node |
| KonklavFormatterFacts.RenderAllLineCount | MiniDnd/Assets/Scripts/Konklav/Parser.cs:31-58 | the same for a list of nodes |
| KonklavFormatterFacts.NodeLineNewlines | MiniDnd/Assets/Scripts/Konklav/Parser.cs:39-51 | a Node line holds exactly one line break |
| KonklavFormatterFacts.BeginEndNewlines | MiniDnd/Assets/Scripts/Konklav/Parser.cs:31-58 | a begin line and an end line hold one line break each |
| KonklavFormatterFacts.ExactArgReadsBack | MiniDnd/Assets/Scripts/Konklav/Parser.cs:147 | an ExactDice node's argument reads back through the grammar as the same expression |
| KonklavFormatterFacts.RangeArgReadsBack | MiniDnd/Assets/Scripts/Konklav/Parser.cs:163 | a RangeDice node's "from-to" argument reads back as the same range, whatever the signs |
| Utils.SumSnoc | MiniDnd/Assets/Scripts/Utils.cs:36-42 | the running total grows by each weight in index order |
| Utils.SumNonNegative | MiniDnd/Assets/Scripts/Utils.cs:36-42 | weights none of them negative have a total that is not negative |
| Utils.FirstReachingFrom | MiniDnd/Assets/Scripts/Utils.cs:47-53 | the index found is the first from i on whose running weight reaches the threshold; None iff no running weight reaches it |
| Utils.WeightedChoice | MiniDnd/Assets/Scripts/Utils.cs:44-55 | the roulette: no item iff no running weight reaches the draw; otherwise an item of the list whose running weight reaches it while every earlier one falls short |
| Utils.Choice | MiniDnd/Assets/Scripts/Utils.cs:30-56 | a null list gives the default; otherwise the two loops return exactly the first item whose running weight reaches the threshold drawn for the total of `getWeight` over the items, in index order |
| Utils.WeightedChoiceIsListed | MiniDnd/Assets/Scripts/Utils.cs:47-55 | a picked item is one of the list's |
| Utils.WeightedChoiceReachesAnItem | MiniDnd/Assets/Scripts/Utils.cs:47-55 | with a non-empty list and a threshold no greater than the total, `return default` is never reached |
| Utils.NonPositiveWeightNeverChosen | MiniDnd/Assets/Scripts/Utils.cs:49-52 | an item of weight zero or less at any index but the first is never picked |
| Utils.ZeroWeightFirstCanBeChosen | MiniDnd/Assets/Scripts/Utils.cs:49-50 | at index 0 a zero-weight item is picked for a zero draw |
| Utils.UniformChoice | MiniDnd/Assets/Scripts/Utils.cs:58-62 | the item at the drawn index, which is one of the list's |
| Utils.Position | MiniDnd/Assets/Scripts/Utils.cs:66 | where an index goes among indices ordered by key: after every key not greater, before the first greater one |
| Utils.InsertSplits | MiniDnd/Assets/Scripts/Utils.cs:66 | inserting cuts the order at that position and puts the index in between |
| Utils.InsertIndex | MiniDnd/Assets/Scripts/Utils.cs:66 | where every element of the order ends up after an insertion |
| Utils.InsertMembers | MiniDnd/Assets/Scripts/Utils.cs:66 | an insertion adds the index and keeps all the others |
| Utils.InsertDistinct | MiniDnd/Assets/Scripts/Utils.cs:66 | an insertion of a new index keeps the order free of repeats |
| Utils.InsertSorted | MiniDnd/Assets/Scripts/Utils.cs:66 | an insertion keeps the order sorted by key |
| Utils.SortByKey | MiniDnd/Assets/Scripts/Utils.cs:66 | `OrderBy(key)` over the positions 0..n-1: each exactly once, by non-decreasing key |
| Utils.NRandom | MiniDnd/Assets/Scripts/Utils.cs:64-67 | `OrderBy(random).Take(count)`: nothing for a count that is not positive, exactly count elements when count is at most the length, all of them when it is at least; every element comes from the list |
| Utils.NRandomPicksDistinctPositions | MiniDnd/Assets/Scripts/Utils.cs:64-67 | NRandom returns min(count, length) elements (none for a count that is not positive), each from its own position of the list, in key order: the first positions of the key ordering, so no position left out has a smaller key than one kept |
| Utils.PrefixHasSmallestKeys | MiniDnd/Assets/Scripts/Utils.cs:65-67 | the first m positions of a key ordering have keys no greater than any position after them |
| Utils.SortedByIsMonotone | MiniDnd/Assets/Scripts/Utils.cs:65 | in an order sorted by key, an earlier position never has a greater key |
| Players.Player.constructor | MiniDnd/Assets/Scripts/Player.cs:3-7 | a new player is at "start" with power 6, asks for a first encounter and expects no activity |
| Players.Player.EndEncounter | MiniDnd/Assets/Scripts/Player.cs:9-12 | raises the new-encounter flag and changes nothing else |
| Players.Player.Goto | MiniDnd/Assets/Scripts/Player.cs:14-19 | raises the flag and names the expected activity, and changes nothing else |
| Players.NewPlayerFields | MiniDnd/Assets/Scripts/Player.cs:3-7 | the field initialisers: "start", 6, flag raised, no expected activity |
| Players.EndEncounterChangesOnlyTheFlag | MiniDnd/Assets/Scripts/Player.cs:9-12 | EndEncounter raises the flag and keeps the expected activity, location, power and visited set |
| Players.GotoSetsTarget | MiniDnd/Assets/Scripts/Player.cs:14-19 | Goto raises the flag and sets the expected activity to the name given, keeping the rest |
| Players.TransitionsIdempotent | MiniDnd/Assets/Scripts/Player.cs:9-19 | both transitions are idempotent, neither clears the flag, and the last Goto decides the target |
| Game.FromAstsNames | MiniDnd/Assets/Scripts/GameManager.cs:64-70 | one activity per tree, in order, each keeping its tree's name (taken as given, see `Game.FromAst` under "Left out") |
| Game.LoadErrorIsAFilesError | MiniDnd/Assets/Scripts/GameManager.cs:55-71 | loading ends without an error iff every file, with a line break added, parses; an error raised is the one some file's parse raised |
| Game.LoadNext | MiniDnd/Assets/Scripts/GameManager.cs:57-70 | one more file: when it parses its activities are appended, in order, after those loaded so far; otherwise its error is recorded and nothing is added |
| Game.LoadKeepsEarlierFiles | MiniDnd/Assets/Scripts/GameManager.cs:56-72 | loading more files keeps what the earlier files loaded, in order, in front, and never drops an activity |
| Game.LoadStopsAtError | MiniDnd/Assets/Scripts/GameManager.cs:59-62 | once a file fails to parse, later files add nothing |
| Game.LoadedNamesAreWords | MiniDnd/Assets/Scripts/GameManager.cs:56-72 | every loaded activity has a non-empty one-word name |
| Game.FindByName | MiniDnd/Assets/Scripts/GameManager.cs:179-180 | None iff no loaded activity has the name; otherwise it is the first one that does, so earlier duplicates win |
| Game.Rollable | MiniDnd/Assets/Scripts/GameManager.cs:156 | an activity is kept iff it is loaded and can be rolled |
| Game.RolledActivity | MiniDnd/Assets/Scripts/GameManager.cs:154-166 | a rolled activity is a loaded one that can be rolled; when no loaded activity can be rolled the roll gives null |
| Game.RolledActivityIsRollable | MiniDnd/Assets/Scripts/GameManager.cs:154-166 | a rolled activity is loaded and can be rolled; with weights not negative and a draw within the total, nothing is rolled iff no activity can be rolled |
| Game.StartedFacts | MiniDnd/Assets/Scripts/GameManager.cs:134-152 | starting null changes nothing; starting an activity makes it active, lowers the flag, clears the expected activity, adds its name to visited and keeps the rest |
| Game.Started | MiniDnd/Assets/Scripts/GameManager.cs:134-152 | starting null changes nothing; starting an activity makes it active, records its name as visited and lowers the new-encounter flag; the loaded list stays and no visited name is lost |
| Game.VisitedOnlyGrows | MiniDnd/Assets/Scripts/GameManager.cs:149 | a roll never removes a visited name and never changes the loaded list |
| Game.RollTransition | MiniDnd/Assets/Scripts/GameManager.cs:168-190 | without the flag the active activity stays; with an expected name that name is looked up instead of rolling, and an unknown name keeps the old activity with the request pending |
| Game.AfterRoll | MiniDnd/Assets/Scripts/GameManager.cs:168-190 | after a roll the active activity is the old one or a loaded one; when it changed, the new one is active and the new-encounter flag is down |
| Game.StartBootstrap | MiniDnd/Assets/Scripts/GameManager.cs:34-35 | after loading, the first activity named "start" becomes active and is the only visited name; without one nothing is active and the player is as new |
| Game.GameManager.constructor | MiniDnd/Assets/Scripts/GameManager.cs:15-18 | no activities, none active, a new player |
| Game.GameManager.LoadKonklavActivities | MiniDnd/Assets/Scripts/GameManager.cs:56-72 | the nested loops append exactly what `Load` gives for the files, in order, report its error and leave the active activity alone |
| Game.GameManager.LoadNextFile | MiniDnd/Assets/Scripts/GameManager.cs:59-71 | one turn of the file loop extends the loaded list as `Load` does for one more file |
| Game.GameManager.LoadFile | MiniDnd/Assets/Scripts/GameManager.cs:61-70 | parses the file's text with a line break added; on success appends its activities in order, on failure appends nothing |
| Game.GameManager.AppendActivities | MiniDnd/Assets/Scripts/GameManager.cs:64-70 | appends every parsed activity, in order, as an `Activity`, and changes nothing else |
| Game.GameManager.StartActivity | MiniDnd/Assets/Scripts/GameManager.cs:134-152 | the new state is exactly `Started` of the old |
| Game.GameManager.RollActivity | MiniDnd/Assets/Scripts/GameManager.cs:154-166 | returns exactly `RolledActivity`: None when nothing can be rolled, else `Utils.Choice` over the rollable activities' weights |
| Game.GameManager.ApplyRoll | MiniDnd/Assets/Scripts/GameManager.cs:168-190 | with an active activity the new state is exactly `AfterRoll`: the roll's effect, then, if a new encounter is asked for, the expected or rolled activity started; with none the call fails (the null dereference at line 171) and nothing changes |
| Game.GameManager.Start | MiniDnd/Assets/Scripts/GameManager.cs:23-35 | loads the files, then starts the first activity named "start"; a parse error leaves nothing started |

## Left out

- `ParserError` messages and the line number that `Error` computes are not modelled. An error keeps only its kind and the data its message interpolates, which is enough for the EOF test in `ReadActivities`.
- `ReadOneOrMore` is not modelled: no production calls it.
- KonklavGrammar.ReadFloatLiteral: float values are exact decimals (`real`). The rounding of `float.TryParse` to a 32-bit float is not modelled, and neither is culture formatting.
- KonklavFormatter.FormatNumberAst: the `Float` node writes the scanned lexeme, where the source writes `float.ToString(InvariantCulture)` of the parsed value.
- The grammar functions whose own contract only bounds the cursor (`KonklavGrammar.ReadBoolExpression` and the other productions) state their behaviour in their bodies. The imperative parser is proved equal to them, and the properties are the lemmas of `KonklavGrammarFacts`, `KonklavFloatFacts` and `KonklavActionFacts`.
- `AstFormatter.Node` with a null argument is modelled as the empty argument. `string.IsNullOrEmpty` treats both alike.
- The game's implementation of `IContext` is not part of this model. A recording context stands in: it holds the last roll, a visited set and a tag set, and traces the calls.
- Utils.Choice: weights and totals are `real`, so float rounding is not modelled. `Random.Range(0, total)` is the parameter `randomRange`.
- Utils.UniformChoice: the drawn index is a parameter in range. For an empty list the source indexes out of range and throws, and the model requires a non-empty list.
- Utils.NRandom: its own contract gives only the length and that every element comes from the list. Which elements are kept, those with the smallest keys, is stated by `Utils.NRandomPicksDistinctPositions`.
- Utils.NRandomPicksDistinctPositions: the random keys `Random.value` draws are a parameter. Stability of `OrderBy` for equal keys (insertion keeps ties in list order) is not proved.
- `Utils.ConstructAllObjectOfType` is not modelled: it uses reflection, and its only caller is commented out.
- Players.Player.constructor: the `Player(callback)` constructor and the `VisitedHashSet` field that `GameManager` uses are not in `Player.cs`. Visited names are modelled as a set field on the player, and the callback is left out.
- Game.FromAst: an activity's name is taken to be the name its tree was read with. `KonklavActivity` is not part of this model, and `Activity.cs:6` as given differs: there `Name` is the non-virtual `GetType().Name`, the class name. That `Activity.cs` is also not the one `GameManager` builds against, since it declares `Weight` as a field where `GameManager.cs:163` calls `Weight(player)`. Only names from the trees let the lookup of "start" at `GameManager.cs:35` succeed. `Game.FromAstsNames`, `Game.LoadedNamesAreWords` and `Game.StartBootstrap` rest on this choice.
- Text is a sequence of Unicode scalar values, where C# strings are UTF-16 code units. Cursor positions differ only after characters outside the Basic Multilingual Plane, and they feed only error positions, which are not modelled.
- `KonklavActivity` is not part of this model. `FromAst`, `CanBeRolled`, `Weight`, `BeforeStart`, `AfterEnd`, `Text` and `AvailableDice` are its hooks. Rollability and weight are functions of the syntax tree passed in, and the other hooks are not modelled.
- Game.GameManager.ApplyRoll: the active activity's `PlayerRoll` is given by its effect on the player (none, `EndEncounter` or `Goto`). The `Book.FlipPage` callback runs at once.
- Unity I/O is not modelled: `Resources.LoadAll` becomes the list of file texts, page text, dice selection, GUI, input, sound and physics are left out, and `Debug.Log` is dropped.
- Game.GameManager.Start: a parse error is an `Err` result that stops `Start` before the player is created or any activity started. The model's player exists from construction on.

## Findings

| source | as written | input that shows it | evidently intended | confidence | as-written member | corrected member |
|---|---|---|---|---|---|---|
| MiniDnd/Assets/Scripts/Konklav/Parser.cs:131 | `LiteralFalseExpression.Evaluate` returns `true` | the condition `if false` in any context: its body runs, as `KonklavAst.IfFalseRunsItsBody` shows for `if false` around `/end` | the literal `false` evaluates to false | not executed | KonklavAst.IfFalseRunsItsBody | KonklavAst.IntendedLiteralLaws |
