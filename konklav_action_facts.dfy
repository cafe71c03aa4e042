/** What the action productions read: commands and their arguments, debug
    lines, multi-line text and conditionals, each from the pieces it is made
    of, and the concrete cases of the parser's own tests. */
module KonklavActionFacts {
  import opened Text
  import opened KonklavAst
  import opened KonklavGrammar
  import opened KonklavGrammarFacts
  import opened KonklavFloatFacts

  /* ---------- blanks, white space and line breaks ---------- */

  /** A run of blanks from q to r, ended by a character that is not a blank
      or by the end, is what `ReadNonBreakingWhitespace` consumes. */
  lemma BlanksRead(s: string, q: nat, r: nat)
    requires q < r <= |s| && r - q <= 10001
    requires forall i :: q <= i < r ==> s[i] in AnyNonBreakingWhitespace
    requires r == |s| || s[r] !in AnyNonBreakingWhitespace
    ensures ReadNonBreakingWhitespace(s, q) == Step(Ok(()), r)
  {
    RunEndOfRun(s, q + 1, AnyNonBreakingWhitespace, 10001, r - q - 1);
  }

  /** A run of white space from p to q, ended by a character that is not
      white space or by the end, is what `ReadCharsMaybe` takes. */
  lemma WhitespaceRead(s: string, p: nat, q: nat, charset: string)
    requires p <= q <= |s| && q - p <= Unbounded
    requires forall i :: p <= i < q ==> s[i] in charset
    requires q == |s| || s[q] !in charset
    ensures ReadCharsMaybe(s, p, charset, Unbounded).pos == q
  {
    RunEndOfRun(s, p, charset, Unbounded + 1, q - p);
  }

  /** A '\n' right at e is a single line break. */
  lemma NewlineRead(s: string, e: nat)
    requires e < |s| && s[e] == '\n'
    ensures ReadSingleLineBreak(s, e) == Step(Ok(()), e + 1)
  {
    WhitespaceRead(s, e, e, AnyNonBreakingWhitespace);
    RunEndOfRun(s, e, "\r", 2, 0);
  }

  /* ---------- commands ---------- */

  /** '/' and a command word ending at white space or the end: what
      follows is read as that command's argument. */
  lemma CommandNameRead(s: string, p: nat, q: nat)
    requires p + 1 < q <= |s| && s[p] == '/'
    requires forall i :: p + 1 <= i < q ==> s[i] !in AnyWhitespace
    requires q == |s| || s[q] in AnyWhitespace
    requires !IsWhiteSpace(s[p + 1])
    ensures ReadCommand(s, p) == ReadCommandArgument(s, q, s[p + 1..q])
  {
    WordRead(s, p + 1, q);
  }

  /** A command word that is none of the six commands is an error naming
      the word, raised with the cursor after it. */
  lemma UnknownCommandIsError(s: string, p: nat, q: nat)
    requires p + 1 < q <= |s| && s[p] == '/'
    requires forall i :: p + 1 <= i < q ==> s[i] !in AnyWhitespace
    requires q == |s| || s[q] in AnyWhitespace
    requires !IsWhiteSpace(s[p + 1])
    requires var name := s[p + 1..q];
      name != "rollable" && name != "image" && name != "weight" && name != "goto" && name != "tag" && name != "end"
    ensures ReadCommand(s, p) == Step(Err(UnexpectedCommand(s[p + 1..q])), q)
  {
    CommandNameRead(s, p, q);
  }

  /** Blanks from q to q1, then a word from q1 to q2: the argument of
      /goto, /tag and /image is that word. */
  lemma WordArgumentRead(s: string, q: nat, q1: nat, q2: nat)
    requires q < q1 < q2 <= |s| && q1 - q <= 10001
    requires forall i :: q <= i < q1 ==> s[i] in AnyNonBreakingWhitespace
    requires forall i :: q1 <= i < q2 ==> s[i] !in AnyWhitespace
    requires q2 == |s| || s[q2] in AnyWhitespace
    requires !IsWhiteSpace(s[q1])
    ensures ReadWordArgument(s, q) == Step(Ok(s[q1..q2]), q2)
  {
    BlanksRead(s, q, q1);
    WordRead(s, q1, q2);
  }

  /** "/goto", "/tag" or "/image", blanks and a word: the matching action
      on that word, with the cursor after it. */
  lemma WordCommandRead(s: string, p: nat, q: nat, q1: nat, q2: nat)
    requires p + 1 < q < q1 < q2 <= |s| && q1 - q <= 10001 && s[p] == '/'
    requires s[p + 1..q] == "goto" || s[p + 1..q] == "tag" || s[p + 1..q] == "image"
    requires forall i :: q <= i < q1 ==> s[i] in AnyNonBreakingWhitespace
    requires forall i :: q1 <= i < q2 ==> s[i] !in AnyWhitespace
    requires q2 == |s| || s[q2] in AnyWhitespace
    requires !IsWhiteSpace(s[q1])
    ensures var arg := s[q1..q2];
      ReadCommand(s, p) == Step(Ok(
        if s[p + 1..q] == "goto" then GotoAction(arg)
        else if s[p + 1..q] == "tag" then TagAction(arg)
        else ImageAction(arg)), q2)
  {
    var name := s[p + 1..q];
    forall i | p + 1 <= i < q ensures s[i] !in AnyWhitespace {
      assert s[i] == name[i - (p + 1)];
    }
    assert !IsWhiteSpace(s[p + 1]) by {
      assert s[p + 1] == name[0];
    }
    CommandNameRead(s, p, q);
    WordArgumentRead(s, q, q1, q2);
    WordCommandArgument(s, q, name, s[q1..q2], q2);
  }

  /** The argument of /goto, /tag and /image is a word, and the action is
      the one the command names. */
  lemma WordCommandArgument(s: string, q: nat, name: string, arg: string, q2: nat)
    requires q <= |s|
    requires name == "goto" || name == "tag" || name == "image"
    requires ReadWordArgument(s, q) == Step(Ok(arg), q2)
    ensures ReadCommandArgument(s, q, name) == Step(Ok(
      if name == "goto" then GotoAction(arg)
      else if name == "tag" then TagAction(arg)
      else ImageAction(arg)), q2)
  {
  }

  /** The command word "end" is the end action, read without argument. */
  lemma EndCommandRead(s: string, p: nat)
    requires p + 4 <= |s| && s[p..p + 4] == "/end"
    requires p + 4 == |s| || s[p + 4] in AnyWhitespace
    ensures ReadCommand(s, p) == Step(Ok(EndAction), p + 4)
  {
    assert s[p] == '/' && s[p + 1..p + 4] == "end" by {
      assert s[p] == s[p..p + 4][0];
      assert s[p + 1..p + 4] == s[p..p + 4][1..];
    }
    forall i | p + 1 <= i < p + 4 ensures s[i] !in AnyWhitespace {
      assert s[i] == s[p..p + 4][i - p];
    }
    CommandNameRead(s, p, p + 4);
  }

  /** "/rollable", blanks up to q1, then whatever `ReadBoolExpression`
      reads from q1: the roll condition of a `RollableAttribAction`, or
      that expression's error. */
  lemma RollableCommandRead(s: string, p: nat, q1: nat)
    requires p + 9 < q1 <= |s| && q1 - (p + 9) <= 10001 && s[p..p + 9] == "/rollable"
    requires forall i :: p + 9 <= i < q1 ==> s[i] in AnyNonBreakingWhitespace
    requires q1 == |s| || s[q1] !in AnyNonBreakingWhitespace
    ensures var e := ReadBoolExpression(s, q1);
      ReadCommand(s, p) ==
        if e.result.Ok? then Step(Ok(RollableAttribAction(e.result.value)), e.pos)
        else Step(Err(e.result.error), e.pos)
  {
    CommandWordRead(s, p, "rollable");
    BlanksRead(s, p + 9, q1);
  }

  /** "/weight", blanks up to q1, then whatever `ReadFloatLiteral` reads
      from q1: the weight of a `WeighAttribAction`, or the literal's
      error. `FloatLexemeRead` says what that read is. */
  lemma WeightCommandRead(s: string, p: nat, q1: nat)
    requires p + 7 < q1 <= |s| && q1 - (p + 7) <= 10001 && s[p..p + 7] == "/weight"
    requires forall i :: p + 7 <= i < q1 ==> s[i] in AnyNonBreakingWhitespace
    requires q1 == |s| || s[q1] !in AnyNonBreakingWhitespace
    ensures var n := ReadFloatLiteral(s, q1);
      ReadCommand(s, p) ==
        if n.result.Ok? then Step(Ok(WeighAttribAction(n.result.value)), n.pos)
        else Step(Err(n.result.error), n.pos)
  {
    CommandWordRead(s, p, "weight");
    BlanksRead(s, p + 7, q1);
  }

  /** '/' and a command word followed by a blank: the argument is read
      from the blank on. */
  lemma CommandWordRead(s: string, p: nat, word: string)
    requires 0 < |word| && p + 1 + |word| < |s| && s[p..p + 1 + |word|] == "/" + word
    requires forall i :: 0 <= i < |word| ==> word[i] !in AnyWhitespace
    requires !IsWhiteSpace(word[0]) && s[p + 1 + |word|] in AnyNonBreakingWhitespace
    ensures ReadCommand(s, p) == ReadCommandArgument(s, p + 1 + |word|, word)
  {
    var q := p + 1 + |word|;
    assert s[p] == '/' && s[p + 1..q] == word by {
      assert s[p] == s[p..q][0];
      assert s[p + 1..q] == s[p..q][1..];
    }
    forall i | p + 1 <= i < q ensures s[i] !in AnyWhitespace {
      assert s[i] == word[i - (p + 1)];
    }
    assert s[p + 1] == word[0];
    CommandNameRead(s, p, q);
  }

  /** Every command but "end" needs a blank after its word: without one
      the command fails. */
  lemma CommandNeedsBlank(s: string, q: nat, name: string)
    requires q <= |s| && (q == |s| || (s[q] != ' ' && s[q] != '\t'))
    requires IsCommandWord(name) && name != "end"
    ensures ReadCommandArgument(s, q, name).result.Err?
  {
    NoBlankAt(s, q);
  }

  /** "/rollable true" reads as rollable when true. */
  lemma RollableTestCase(s: string)
    requires s == "/rollable true"
    ensures ReadCommand(s, 0) == Step(Ok(RollableAttribAction(LiteralTrueExpression)), 14)
  {
    assert s[0..9] == "/rollable" && s[10..14] == "true";
    RollableCommandRead(s, 0, 10);
    TrueAlone(s, 10);
  }

  /** "/weight 2.5" reads as the weight 5/2. */
  lemma WeightTestCase(s: string)
    requires s == "/weight 2.5"
    ensures ReadCommand(s, 0) == Step(Ok(WeighAttribAction(ExactFloatValue("2.5", 5.0 / 2.0))), 11)
  {
    assert s[0..7] == "/weight";
    WeightCommandRead(s, 0, 8);
    WeightCaseValue(s);
  }

  /** The weight of "/weight 2.5": the float literal "2.5" at 8. */
  lemma WeightCaseValue(s: string)
    requires s == "/weight 2.5"
    ensures ReadFloatLiteral(s, 8) == Step(Ok(ExactFloatValue("2.5", 5.0 / 2.0)), 11)
  {
    assert Signed("", DecimalValue("2", "5")) == 5.0 / 2.0 by {
      assert "2"[..0] == "" && "5"[..0] == "";
      assert Pow10(1) == 10;
    }
    assert "" + "2" + "." + "5" == "2.5";
    assert s[8..8] == "" && s[8..9] == "2" && s[9..10] == "." && s[10..11] == "5";
    DecimalRead(s, 8, "", "2", "5", 8, 9, 10, 11);
  }

  /** "/goto x" reads as a goto to activity "x". */
  lemma GotoTestCase(s: string)
    requires s == "/goto x"
    ensures ReadCommand(s, 0) == Step(Ok(GotoAction("x")), 7)
  {
    assert s[1..5] == "goto" && s[6..7] == "x";
    WordCommandRead(s, 0, 5, 6, 7);
  }

  /** "/jump x" names no command: the word is raised as an error. */
  lemma UnknownCommandTestCase(s: string)
    requires s == "/jump x"
    ensures ReadCommand(s, 0) == Step(Err(UnexpectedCommand("jump")), 5)
  {
    assert s[1..5] == "jump";
    UnknownCommandIsError(s, 0, 5);
  }

  /* ---------- debug lines ---------- */

  /** "//" and a non-blank rest of line: a debug action whose message is
      that rest, trimmed, with the cursor at the line break. */
  lemma DebugRead(s: string, p: nat, q: nat)
    requires p + 2 < q <= |s| && s[p..p + 2] == "//"
    requires forall i :: p + 2 <= i < q ==> s[i] !in LineBreak
    requires q == |s| || s[q] in LineBreak
    requires !IsBlank(s[p + 2..q])
    ensures ReadDebug(s, p) == Step(Ok(DebugAction(Trim(s[p + 2..q]))), q)
  {
    KeywordRead(s, p, "//");
  }

  /** "//  a " reads as the debug message "a": the blanks around it are
      trimmed. */
  lemma DebugTestCase(s: string)
    requires s == "//  a "
    ensures ReadDebug(s, 0) == Step(Ok(DebugAction("a")), 6)
  {
    assert s[0..2] == "//" && s[2..6] == "  a ";
    assert !IsWhiteSpace(s[2..6][2]);
    assert Trim("  a ") == "a" by {
      assert "  a "[1..] == " a " && " a "[1..] == "a ";
      assert TrimStart("  a ") == "a ";
      assert "a "[..1] == "a";
      assert TrimEnd("a ") == "a";
    }
    DebugRead(s, 0, 6);
  }

  /* ---------- text ---------- */

  /** A further line of text: white space from p to q0, '-' at q0, blanks
      up to q1, and a non-blank line from q1 to q2. */
  lemma TextContinuationRead(s: string, p: nat, q0: nat, q1: nat, q2: nat)
    requires p <= q0 < q1 < q2 <= |s| && q0 - p <= Unbounded && q1 - q0 <= Unbounded
    requires s[q0] == '-'
    requires forall i :: p <= i < q0 ==> s[i] in AnyWhitespace
    requires forall i :: q0 + 1 <= i < q1 ==> s[i] in AnyNonBreakingWhitespace
    requires s[q1] !in AnyNonBreakingWhitespace
    requires forall i :: q1 <= i < q2 ==> s[i] !in LineBreak
    requires q2 == |s| || s[q2] in LineBreak
    requires !IsBlank(s[q1..q2])
    ensures ReadTextContinuation(s, p) == Step(Ok(s[q1..q2]), q2)
  {
    WhitespaceRead(s, p, q0, AnyWhitespace);
    WhitespaceRead(s, q0 + 1, q1, AnyNonBreakingWhitespace);
    LineRead(s, q1, q2);
  }

  /** White space from p to q0 and then no '-': the text ends, and the
      cursor goes back to p. */
  lemma TextEndsAt(s: string, p: nat, q0: nat, text: string)
    requires p <= q0 <= |s| && q0 - p <= Unbounded
    requires forall i :: p <= i < q0 ==> s[i] in AnyWhitespace
    requires q0 == |s| || (s[q0] !in AnyWhitespace && s[q0] != '-')
    ensures ReadTextLines(s, p, text) == Step(Ok(text), p)
  {
    WhitespaceRead(s, p, q0, AnyWhitespace);
  }

  /** One further line read by `ReadTextContinuation` is appended after a
      "\n", and the loop goes on from where that line ended. */
  lemma TextLinesStep(s: string, p: nat, text: string, line: string, q: nat)
    requires p <= q <= |s|
    requires ReadTextContinuation(s, p) == Step(Ok(line), q)
    ensures ReadTextLines(s, p, text) == ReadTextLines(s, q, text + "\n" + line)
  {
  }

  /** A non-blank line from q0 up to the line break (or the end) at q1. */
  lemma LineRead(s: string, q0: nat, q1: nat)
    requires q0 <= q1 <= |s|
    requires forall i :: q0 <= i < q1 ==> s[i] !in LineBreak
    requires q1 == |s| || s[q1] in LineBreak
    requires !IsBlank(s[q0..q1])
    ensures ReadNonEmptyStringUntilLineBreak(s, q0) == Step(Ok(s[q0..q1]), q1)
  {
  }

  /** '-' at p, white space up to q0 and a first non-blank line from q0 to
      q1: a text action made of that line and the further lines. */
  lemma TextFirstLineRead(s: string, p: nat, q0: nat, q1: nat)
    requires p < q0 < q1 <= |s| && q0 - p <= Unbounded
    requires s[p] == '-'
    requires forall i :: p + 1 <= i < q0 ==> s[i] in AnyWhitespace
    requires s[q0] !in AnyWhitespace
    requires forall i :: q0 <= i < q1 ==> s[i] !in LineBreak
    requires q1 == |s| || s[q1] in LineBreak
    requires !IsBlank(s[q0..q1])
    ensures var lines := ReadTextLines(s, q1, s[q0..q1]);
      ReadTextAction(s, p) == Step(Ok(TextAction(lines.result.value)), lines.pos)
  {
    WhitespaceRead(s, p + 1, q0, AnyWhitespace);
    LineRead(s, q0, q1);
  }

  /** "- a\n- b\nx": two lines joined by "\n", and the line that does not
      start with '-' is left unread. */
  lemma TextTestCase(s: string)
    requires s == "- a\n- b\nx"
    ensures ReadTextAction(s, 0) == Step(Ok(TextAction("a\nb")), 7)
  {
    TextCaseLines(s);
    assert s[2..3] == "a" && !IsWhiteSpace(s[2..3][0]);
    TextFirstLineRead(s, 0, 2, 3);
  }

  /** The lines after the first of "- a\n- b\nx". */
  lemma TextCaseLines(s: string)
    requires s == "- a\n- b\nx"
    ensures ReadTextLines(s, 3, "a") == Step(Ok("a\nb"), 7)
  {
    TextCaseSecondLine(s);
    TextLinesStep(s, 3, "a", "b", 7);
    assert "a" + "\n" + "b" == "a\nb";
    TextEndsAt(s, 7, 8, "a\nb");
  }

  lemma TextCaseSecondLine(s: string)
    requires s == "- a\n- b\nx"
    ensures ReadTextContinuation(s, 3) == Step(Ok("b"), 7)
  {
    assert s[6..7] == "b" && !IsWhiteSpace(s[6..7][0]);
    TextContinuationRead(s, 3, 4, 6, 7);
  }

  /* ---------- one action and composites ---------- */

  /** At a '-' every earlier alternative of `ReadOneAction` fails, so a
      text action read there is the action read. */
  lemma TextIsOneAction(s: string, p: nat)
    requires p < |s| && s[p] == '-'
    requires ReadTextAction(s, p).result.Ok?
    ensures ReadOneAction(s, p) == ReadTextAction(s, p)
  {
    ExactRejectsFirst(s, p, "//");
    ExactRejectsFirst(s, p, "if");
  }

  /** No action starts at a character other than '/', '-' and 'i'. */
  lemma NoActionAt(s: string, p: nat)
    requires p < |s| && s[p] != '/' && s[p] != '-' && s[p] != 'i'
    ensures ReadOneAction(s, p).result.Err?
  {
    ExactRejectsFirst(s, p, "//");
    ExactRejectsFirst(s, p, "if");
  }

  /** One action from p to q, then white space up to q1 where no action
      starts: a composite holding just that action, with the cursor put back
      at q. */
  lemma SingleActionComposite(s: string, p: nat, a: Action, q: nat, q1: nat)
    requires p < q <= q1 <= |s| && q1 - q <= Unbounded
    requires s[p] !in AnyNonBreakingWhitespace
    requires ReadOneAction(s, p) == Step(Ok(a), q)
    requires forall i :: q <= i < q1 ==> s[i] in AnyWhitespace
    requires q1 == |s| || s[q1] !in AnyWhitespace
    requires ReadOneAction(s, q1).result.Err?
    ensures ReadCompositeAction(s, p) == Step(Ok(CompositeAction([a])), q)
  {
    WhitespaceRead(s, p, p, AnyNonBreakingWhitespace);
    WhitespaceRead(s, q, q1, AnyWhitespace);
  }

  /* ---------- conditionals ---------- */

  /** `ReadConditional` from its steps: "if" up to k, blanks up to w, a
      condition up to e, a line break up to e1, a composite body up to b,
      white space up to b1 and "end" up to b2 make the conditional of that
      condition and body, with the cursor after "end". */
  lemma ConditionalSteps(s: string, p: nat, k: nat, w: nat, c: BoolExpr, e: nat, e1: nat,
                         body: Action, b: nat, b1: nat, b2: nat)
    requires p <= k <= w <= e <= e1 <= b <= b1 <= b2 <= |s|
    requires ReadExact(s, p, "if") == Step(Ok(()), k)
    requires ReadNonBreakingWhitespace(s, k) == Step(Ok(()), w)
    requires ReadBoolExpression(s, w) == Step(Ok(c), e)
    requires ReadSingleLineBreak(s, e) == Step(Ok(()), e1)
    requires ReadCompositeAction(s, e1) == Step(Ok(body), b)
    requires ReadCharsMaybe(s, b, AnyWhitespace, Unbounded).pos == b1
    requires ReadExact(s, b1, "end") == Step(Ok(()), b2)
    ensures ReadConditional(s, p) == Step(Ok(ConditionalAction(c, body)), b2)
  {
  }

  /** "if true\n- a\nend": the conditional on the literal true whose body
      is the one text line. */
  lemma ConditionalTestCase(s: string)
    requires s == "if true\n- a\nend"
    ensures ReadConditional(s, 0) ==
      Step(Ok(ConditionalAction(LiteralTrueExpression, CompositeAction([TextAction("a")]))), 15)
  {
    ConditionalCaseHead(s);
    ConditionalCaseCondition(s);
    ConditionalCaseBody(s);
    ConditionalCaseEnd(s);
    ConditionalSteps(s, 0, 2, 3, LiteralTrueExpression, 7, 8, CompositeAction([TextAction("a")]), 11, 12, 15);
  }

  /** "if" and a blank. */
  lemma ConditionalCaseHead(s: string)
    requires s == "if true\n- a\nend"
    ensures ReadExact(s, 0, "if") == Step(Ok(()), 2)
    ensures ReadNonBreakingWhitespace(s, 2) == Step(Ok(()), 3)
  {
    assert s[0..2] == "if";
    KeywordRead(s, 0, "if");
    BlanksRead(s, 2, 3);
  }

  /** The condition `true` and the line break after it. */
  lemma ConditionalCaseCondition(s: string)
    requires s == "if true\n- a\nend"
    ensures ReadBoolExpression(s, 3) == Step(Ok(LiteralTrueExpression), 7)
    ensures ReadSingleLineBreak(s, 7) == Step(Ok(()), 8)
  {
    assert s[3..7] == "true";
    TrueElement(s, 3);
    LoneElement(s, 3, LiteralTrueExpression, 7);
    NewlineRead(s, 7);
  }

  /** The line break after the body, then "end". */
  lemma ConditionalCaseEnd(s: string)
    requires s == "if true\n- a\nend"
    ensures ReadCharsMaybe(s, 11, AnyWhitespace, Unbounded).pos == 12
    ensures ReadExact(s, 12, "end") == Step(Ok(()), 15)
  {
    assert s[12..15] == "end";
    WhitespaceRead(s, 11, 12, AnyWhitespace);
    KeywordRead(s, 12, "end");
  }

  /** The body: one text line, after which "end" starts no action. */
  lemma ConditionalCaseBody(s: string)
    requires s == "if true\n- a\nend"
    ensures ReadCompositeAction(s, 8) == Step(Ok(CompositeAction([TextAction("a")])), 11)
  {
    ConditionalCaseText(s);
    TextIsOneAction(s, 8);
    NoActionAt(s, 12);
    SingleActionComposite(s, 8, TextAction("a"), 11, 12);
  }

  lemma ConditionalCaseText(s: string)
    requires s == "if true\n- a\nend"
    ensures ReadTextAction(s, 8) == Step(Ok(TextAction("a")), 11)
  {
    assert s[10..11] == "a" && !IsWhiteSpace(s[10..11][0]);
    TextEndsAt(s, 11, 12, "a");
    TextFirstLineRead(s, 8, 10, 11);
  }
}
