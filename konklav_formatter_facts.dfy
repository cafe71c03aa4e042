/** What the outline `FormatAst` writes says about the tree: every node
    writes whole lines (one per leaf, two per inner node), and the arguments
    of the dice nodes read back, through the grammar, as the expressions
    they were written from. */
module KonklavFormatterFacts {
  import opened Text
  import opened Options
  import opened KonklavAst
  import opened KonklavGrammar
  import opened KonklavGrammarFacts
  import opened KonklavFormatter

  /* ---------- lines ---------- */

  /** The number of line breaks in a text. */
  function Newlines(s: string): nat
    decreases |s|
  {
    if s == [] then 0 else Newlines(s[..|s| - 1]) + (if s[|s| - 1] == '\n' then 1 else 0)
  }

  lemma {:induction false} NewlinesAppend(a: string, b: string)
    ensures Newlines(a + b) == Newlines(a) + Newlines(b)
    decreases |b|
  {
    if b == [] {
      assert a + b == a;
    } else {
      assert (a + b)[..|a + b| - 1] == a + b[..|b| - 1];
      NewlinesAppend(a, b[..|b| - 1]);
    }
  }

  lemma {:induction false} NoNewlines(s: string)
    requires '\n' !in s
    ensures Newlines(s) == 0
    decreases |s|
  {
    if s != [] {
      assert s[..|s| - 1] <= s;
      NoNewlines(s[..|s| - 1]);
    }
  }

  lemma {:induction false} IndentNewlines(indent: int)
    ensures Newlines(Indent(indent)) == 0
    decreases if indent <= 0 then 0 else indent
  {
    if indent > 0 {
      IndentNewlines(indent - 1);
      NewlinesAppend(Indent(indent - 1), "    ");
      NoNewlines("    ");
    }
  }

  /** No name and no argument in the outline holds a line break (a text
      action can: its lines are joined with line breaks). */
  predicate SingleLineNames(o: Outline)
    decreases o
  {
    match o
    case Leaf(name, arg) => '\n' !in name && '\n' !in arg
    case Inner(name, children) => '\n' !in name && forall i :: 0 <= i < |children| ==> SingleLineNames(children[i])
  }

  /** The lines an outline takes: one per leaf, two per inner node. */
  function LineCount(o: Outline): nat
    decreases o
  {
    match o
    case Leaf(_, _) => 1
    case Inner(_, children) => 2 + LineCountAll(children)
  }

  function LineCountAll(os: seq<Outline>): nat
    decreases os
  {
    if os == [] then 0 else LineCountAll(os[..|os| - 1]) + LineCount(os[|os| - 1])
  }

  /** A `Node` line holds exactly one line break. */
  lemma NodeLineNewlines(indent: int, text: string, arg: string)
    requires '\n' !in text && '\n' !in arg
    ensures Newlines(NodeLine(indent, text, arg)) == 1
  {
    var argPart := if arg == "" then "" else " : " + arg;
    IndentNewlines(indent);
    NoNewlines(text);
    assert '\n' !in argPart by {
      if arg != "" {
        assert forall i :: 0 <= i < |argPart| ==> argPart[i] == (" : " + arg)[i];
      }
    }
    NoNewlines(argPart);
    NewlinesAppend(Indent(indent), text);
    NewlinesAppend(Indent(indent) + text, argPart);
    NewlinesAppend(Indent(indent) + text + argPart, "\n");
    assert Newlines("\n") == 1 by {
      assert "\n"[..0] == "";
    }
  }

  /** A `BeginNode` line and an `EndNode` line hold one line break each. */
  lemma BeginEndNewlines(indent: int, text: string)
    requires '\n' !in text
    ensures Newlines(BeginLine(indent, text)) == 1 && Newlines(EndLine(indent)) == 1
  {
    IndentNewlines(indent);
    NoNewlines(text);
    NewlinesAppend(Indent(indent), text);
    NewlinesAppend(Indent(indent) + text, " {\n");
    assert " {\n"[..2] == " {";
    NoNewlines(" {");
    NewlinesAppend(Indent(indent), "}\n");
    assert "}\n"[..1] == "}";
    NoNewlines("}");
  }

  /** The text of an outline has exactly `LineCount` line breaks. */
  lemma {:induction false} RenderLineCount(o: Outline, indent: int)
    requires SingleLineNames(o)
    ensures Newlines(Render(o, indent)) == LineCount(o)
    decreases o
  {
    match o {
      case Leaf(name, arg) =>
        NodeLineNewlines(indent, name, arg);
      case Inner(name, children) =>
        BeginEndNewlines(indent, name);
        RenderAllLineCount(children, indent + 1);
        NewlinesAppend(BeginLine(indent, name), RenderAll(children, indent + 1));
        NewlinesAppend(BeginLine(indent, name) + RenderAll(children, indent + 1), EndLine(indent));
    }
  }

  lemma {:induction false} RenderAllLineCount(os: seq<Outline>, indent: int)
    requires forall i :: 0 <= i < |os| ==> SingleLineNames(os[i])
    ensures Newlines(RenderAll(os, indent)) == LineCountAll(os)
    decreases os
  {
    if os != [] {
      var init := os[..|os| - 1];
      assert forall i :: 0 <= i < |init| ==> init[i] == os[i];
      RenderAllLineCount(init, indent);
      RenderLineCount(os[|os| - 1], indent);
      NewlinesAppend(RenderAll(init, indent), Render(os[|os| - 1], indent));
    }
  }

  /* ---------- the dice arguments read back ---------- */

  /** The argument of an `ExactDice` node is the literal the grammar reads
      back as the same expression. */
  lemma ExactArgReadsBack(v: int)
    requires -2147483648 <= v <= 2147483647
    ensures ReadExactDiceResultExpression(IntToString(v), 0) == Step(Ok(ExactDiceResultExpression(v)), |IntToString(v)|)
  {
    var s := IntToString(v);
    assert s[0..|s|] == s;
    IntLiteralRoundTrip(s, 0, v);
  }

  /** The argument of a `RangeDice` node, "from-to", is read back as the
      same range, whatever the signs of its bounds. */
  lemma RangeArgReadsBack(rangeFrom: int, rangeTo: int)
    requires -2147483648 <= rangeFrom <= 2147483647 && -2147483648 <= rangeTo <= 2147483647
    ensures ReadRangeDiceResultExpression(RangeArg(rangeFrom, rangeTo), 0) ==
      Step(Ok(RangeDiceResultExpression(rangeFrom, rangeTo)), |RangeArg(rangeFrom, rangeTo)|)
  {
    var a, b := IntToString(rangeFrom), IntToString(rangeTo);
    var s := RangeArg(rangeFrom, rangeTo);
    var dash, second, end := |a|, |a| + 1, |s|;
    SliceOfConcat(s, 0, a, "-" + b);
    SliceOfConcat(s, dash, "-", b);
    LiteralAt(s, 0, rangeFrom, dash);
    DashAt(s, dash, second);
    LiteralAt(s, second, rangeTo, end);
    RangeRead(s, 0, rangeFrom, dash, second, rangeTo, end);
  }

  /** An int32 written in decimal from `p` to `q`, not followed by a
      digit, is read as itself and the reading ends at `q`. */
  lemma LiteralAt(s: string, p: nat, v: int, q: nat)
    requires -2147483648 <= v <= 2147483647
    requires p <= q <= |s| && s[p..q] == IntToString(v)
    requires q == |s| || !IsDigit(s[q])
    ensures ReadIntLiteral(s, p) == Step(Ok(v), q)
  {
    IntLiteralRoundTrip(s, p, v);
  }

  /** The dash of a range at `p`, read up to `q`. */
  lemma DashAt(s: string, p: nat, q: nat)
    requires q == p + 1 && q <= |s| && s[p..q] == "-"
    ensures ReadExact(s, p, "-") == Step(Ok(()), q)
  {
    KeywordRead(s, p, "-");
  }
}
