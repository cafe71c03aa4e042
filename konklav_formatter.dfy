/** `AstFormatter` and the `FormatAst` methods of the Konklav syntax tree:
    an indented outline, one line per leaf node and a `{` ... `}` pair
    around the children of every inner node. */
module KonklavFormatter {
  import opened Text
  import opened KonklavAst

  /* ---------- the outline a tree formats to ---------- */

  /** The node names the `FormatAst` methods write. */
  const AndLabel: string := "And"
  const OrLabel: string := "Or"
  const TrueLabel: string := "True"
  const FalseLabel: string := "False"
  const ExactDiceLabel: string := "ExactDice"
  const RangeDiceLabel: string := "RangeDice"
  const VisitedLabel: string := "Visited"
  const HasTagLabel: string := "HasTag"
  const FloatLabel: string := "Float"
  const TextLabel: string := "Text"
  const GotoLabel: string := "Goto"
  const TagLabel: string := "Tag"
  const DebugLabel: string := "Debug"
  const EndLabel: string := "End"
  const ImageLabel: string := "Image"
  const CompositeLabel: string := "Composite"
  const ConditionalActionLabel: string := "ConditionalAction"
  const ConditionLabel: string := "Condition"
  const ActionLabel: string := "Action"
  const RollableAttribLabel: string := "RollableAttrib"
  const WeighAttribActionLabel: string := "WeighAttribAction"
  const ActivityLabel: string := "Activity"
  const NameLabel: string := "Name"

  /** A node as `AstFormatter` sees it: a `Node(name, arg)` line, or a
      `BeginNode(name)` ... `EndNode()` pair around its children. An absent
      (null) argument is "". */
  datatype Outline =
    | Leaf(name: string, arg: string)
    | Inner(name: string, children: seq<Outline>)

  /** `indent` levels of four spaces (none for a level below one). */
  function Indent(indent: int): string
    decreases if indent <= 0 then 0 else indent
  {
    if indent <= 0 then "" else Indent(indent - 1) + "    "
  }

  /** The line `Node(text, arg)` writes: an empty argument (or none) adds
      nothing, any other is written after " : ". */
  function NodeLine(indent: int, text: string, arg: string): string
  {
    Indent(indent) + text + (if arg == "" then "" else " : " + arg) + "\n"
  }

  /** The line `BeginNode(text)` writes. */
  function BeginLine(indent: int, text: string): string
  {
    Indent(indent) + text + " {\n"
  }

  /** The line `EndNode()` writes, at the level of the matching `BeginNode`. */
  function EndLine(indent: int): string
  {
    Indent(indent) + "}\n"
  }

  /** The text an outline is written as, starting at a given level. */
  function Render(o: Outline, indent: int): string
    decreases o
  {
    match o
    case Leaf(name, arg) => NodeLine(indent, name, arg)
    case Inner(name, children) => BeginLine(indent, name) + RenderAll(children, indent + 1) + EndLine(indent)
  }

  /** Sibling outlines, one after another. */
  function RenderAll(os: seq<Outline>, indent: int): string
    decreases os
  {
    if os == [] then "" else RenderAll(os[..|os| - 1], indent) + Render(os[|os| - 1], indent)
  }

  /** The argument of a `RangeDice` node. */
  function RangeArg(rangeFrom: int, rangeTo: int): string
  {
    IntToString(rangeFrom) + "-" + IntToString(rangeTo)
  }

  /** The outline `IBoolExpression.FormatAst` writes. */
  function BoolOutline(e: BoolExpr): Outline
    decreases e
  {
    match e
    case AndExpression(cs) => Inner(AndLabel, BoolOutlines(cs))
    case OrExpression(cs) => Inner(OrLabel, BoolOutlines(cs))
    case LiteralTrueExpression => Leaf(TrueLabel, "")
    case LiteralFalseExpression => Leaf(FalseLabel, "")
    case ExactDiceResultExpression(v) => Leaf(ExactDiceLabel, IntToString(v))
    case RangeDiceResultExpression(lo, hi) => Leaf(RangeDiceLabel, RangeArg(lo, hi))
    case VisitedExpression(name) => Leaf(VisitedLabel, name)
    case HasTagExpression(tag) => Leaf(HasTagLabel, tag)
  }

  /** The outlines of the children of an And or Or, in order. */
  function BoolOutlines(cs: seq<BoolExpr>): seq<Outline>
    decreases cs
  {
    if cs == [] then [] else BoolOutlines(cs[..|cs| - 1]) + [BoolOutline(cs[|cs| - 1])]
  }

  /** The outline `INumberExpression.FormatAst` writes: the literal as it
      was read. */
  function NumberOutline(n: NumberExpr): Outline
  {
    Leaf(FloatLabel, n.lexeme)
  }

  /** The outline `IAction.FormatAst` writes. */
  function ActionOutline(a: Action): Outline
    decreases a
  {
    match a
    case TextAction(t) => Leaf(TextLabel, t)
    case GotoAction(n) => Leaf(GotoLabel, n)
    case TagAction(t) => Leaf(TagLabel, t)
    case DebugAction(m) => Leaf(DebugLabel, m)
    case EndAction => Leaf(EndLabel, "")
    case CompositeAction(actions) => Inner(CompositeLabel, ActionOutlines(actions))
    case ConditionalAction(c, body) =>
      Inner(ConditionalActionLabel, [Inner(ConditionLabel, [BoolOutline(c)]), Inner(ActionLabel, [ActionOutline(body)])])
    case RollableAttribAction(c) => Inner(RollableAttribLabel, [BoolOutline(c)])
    case WeighAttribAction(n) => Inner(WeighAttribActionLabel, [NumberOutline(n)])
    case ImageAction(n) => Leaf(ImageLabel, n)
  }

  /** The outlines of the actions of a composite, in order. */
  function ActionOutlines(actions: seq<Action>): seq<Outline>
    decreases actions
  {
    if actions == [] then [] else ActionOutlines(actions[..|actions| - 1]) + [ActionOutline(actions[|actions| - 1])]
  }

  /** The outline `ActivityAst.FormatAst` writes. */
  function ActivityOutline(a: ActivityAst): Outline
  {
    Inner(ActivityLabel, [Leaf(NameLabel, a.name), ActionOutline(a.body)])
  }

  /* ---------- how the pieces of the text regroup ---------- */

  lemma AppendNode(t: string, begin: string, x: string, end: string)
    ensures t + begin + x + end == t + (begin + x + end)
  {
  }

  lemma AppendPair(t: string, begin: string, x: string, y: string, end: string)
    ensures t + begin + x + y + end == t + (begin + (x + y) + end)
  {
  }

  lemma AppendAssoc(t: string, x: string, y: string)
    ensures t + x + y == t + (x + y)
  {
  }

  lemma BoolOutlinesSnoc(cs: seq<BoolExpr>, i: nat)
    requires i < |cs|
    ensures BoolOutlines(cs[..i + 1]) == BoolOutlines(cs[..i]) + [BoolOutline(cs[i])]
  {
    assert cs[..i + 1][..i] == cs[..i];
  }

  lemma ActionOutlinesSnoc(actions: seq<Action>, i: nat)
    requires i < |actions|
    ensures ActionOutlines(actions[..i + 1]) == ActionOutlines(actions[..i]) + [ActionOutline(actions[i])]
  {
    assert actions[..i + 1][..i] == actions[..i];
  }

  lemma RenderAllSnoc(os: seq<Outline>, o: Outline, indent: int)
    ensures RenderAll(os + [o], indent) == RenderAll(os, indent) + Render(o, indent)
  {
    assert (os + [o])[..|os|] == os;
  }

  lemma RenderSingle(o: Outline, indent: int)
    ensures RenderAll([o], indent) == Render(o, indent)
  {
    assert [o][..0] == [];
  }

  lemma RenderPair(x: Outline, y: Outline, indent: int)
    ensures RenderAll([x, y], indent) == Render(x, indent) + Render(y, indent)
  {
    assert [x, y][..1] == [x];
    RenderSingle(x, indent);
  }

  /* ---------- the formatter ---------- */

  class AstFormatter {
    var indent: int
    /** The text written so far (the `StringBuilder`). */
    var text: string

    constructor ()
      ensures indent == 0 && text == ""
    {
      indent := 0;
      text := "";
    }

    method PrependIndent()
      modifies this
      ensures text == old(text) + Indent(indent) && indent == old(indent)
    {
      var i := 0;
      while i < indent
        invariant 0 <= i <= if indent <= 0 then 0 else indent
        invariant text == old(text) + Indent(i) && indent == old(indent)
      {
        text := text + "    ";
        i := i + 1;
      }
    }

    method Write(s: string)
      modifies this
      ensures text == old(text) + s && indent == old(indent)
    {
      text := text + s;
    }

    method BeginNode(nodeText: string)
      modifies this
      ensures text == old(text) + BeginLine(old(indent), nodeText) && indent == old(indent) + 1
    {
      PrependIndent();
      Write(nodeText);
      Write(" {\n");
      indent := indent + 1;
    }

    /** `Node(text, arg)`; a missing (null) argument is passed as "". */
    method Node(nodeText: string, arg: string)
      modifies this
      ensures text == old(text) + NodeLine(old(indent), nodeText, arg) && indent == old(indent)
    {
      PrependIndent();
      Write(nodeText);
      if arg != "" {
        Write(" : ");
        Write(arg);
      }
      Write("\n");
    }

    method EndNode()
      modifies this
      ensures text == old(text) + EndLine(old(indent) - 1) && indent == old(indent) - 1
    {
      indent := indent - 1;
      PrependIndent();
      Write("}\n");
    }

    /** `ToString()`. */
    function ToString(): string
      reads this
    {
      text
    }
  }

  lemma ConditionalRender(c: BoolExpr, body: Action, indent: int)
    ensures Render(ActionOutline(ConditionalAction(c, body)), indent) ==
      BeginLine(indent, ConditionalActionLabel)
      + (Render(Inner(ConditionLabel, [BoolOutline(c)]), indent + 1) + Render(Inner(ActionLabel, [ActionOutline(body)]), indent + 1))
      + EndLine(indent)
  {
    RenderPair(Inner(ConditionLabel, [BoolOutline(c)]), Inner(ActionLabel, [ActionOutline(body)]), indent + 1);
  }

  /* ---------- FormatAst ---------- */

  /** `IBoolExpression.FormatAst`. */
  method FormatBoolAst(e: BoolExpr, f: AstFormatter)
    modifies f
    ensures f.text == old(f.text) + Render(BoolOutline(e), old(f.indent)) && f.indent == old(f.indent)
    decreases e
  {
    match e {
      case AndExpression(cs) => FormatBoolNode(AndLabel, cs, f);
      case OrExpression(cs) => FormatBoolNode(OrLabel, cs, f);
      case LiteralTrueExpression => f.Node(TrueLabel, "");
      case LiteralFalseExpression => f.Node(FalseLabel, "");
      case ExactDiceResultExpression(v) => f.Node(ExactDiceLabel, IntToString(v));
      case RangeDiceResultExpression(lo, hi) => f.Node(RangeDiceLabel, RangeArg(lo, hi));
      case VisitedExpression(name) => f.Node(VisitedLabel, name);
      case HasTagExpression(tag) => f.Node(HasTagLabel, tag);
    }
  }

  /** The inner node of an And or Or around its children. */
  method FormatBoolNode(name: string, cs: seq<BoolExpr>, f: AstFormatter)
    modifies f
    ensures f.text == old(f.text) + Render(Inner(name, BoolOutlines(cs)), old(f.indent)) && f.indent == old(f.indent)
    decreases cs, 1
  {
    ghost var t, k := f.text, f.indent;
    f.BeginNode(name);
    FormatBoolChildren(cs, f);
    f.EndNode();
    AppendNode(t, BeginLine(k, name), RenderAll(BoolOutlines(cs), k + 1), EndLine(k));
  }

  /** The `foreach` over the children of an And or Or. */
  method FormatBoolChildren(cs: seq<BoolExpr>, f: AstFormatter)
    modifies f
    ensures f.text == old(f.text) + RenderAll(BoolOutlines(cs), old(f.indent)) && f.indent == old(f.indent)
    decreases cs, 0
  {
    for i := 0 to |cs|
      invariant f.text == old(f.text) + RenderAll(BoolOutlines(cs[..i]), old(f.indent)) && f.indent == old(f.indent)
    {
      FormatBoolAst(cs[i], f);
      BoolOutlinesSnoc(cs, i);
      RenderAllSnoc(BoolOutlines(cs[..i]), BoolOutline(cs[i]), old(f.indent));
      AppendAssoc(old(f.text), RenderAll(BoolOutlines(cs[..i]), old(f.indent)), Render(BoolOutline(cs[i]), old(f.indent)));
    }
    assert cs[..|cs|] == cs;
  }

  /** `INumberExpression.FormatAst`. */
  method FormatNumberAst(n: NumberExpr, f: AstFormatter)
    modifies f
    ensures f.text == old(f.text) + Render(NumberOutline(n), old(f.indent)) && f.indent == old(f.indent)
  {
    f.Node(FloatLabel, n.lexeme);
  }

  /** `IAction.FormatAst`. */
  method FormatActionAst(a: Action, f: AstFormatter)
    modifies f
    ensures f.text == old(f.text) + Render(ActionOutline(a), old(f.indent)) && f.indent == old(f.indent)
    decreases a, 1
  {
    match a {
      case TextAction(t) => f.Node(TextLabel, t);
      case GotoAction(n) => f.Node(GotoLabel, n);
      case TagAction(t) => f.Node(TagLabel, t);
      case DebugAction(m) => f.Node(DebugLabel, m);
      case EndAction => f.Node(EndLabel, "");
      case CompositeAction(actions) => FormatCompositeAst(actions, f);
      case ConditionalAction(c, body) => FormatConditionalAst(c, body, f);
      case RollableAttribAction(c) => FormatBoolWrapped(RollableAttribLabel, c, f);
      case WeighAttribAction(n) => FormatWeighAst(n, f);
      case ImageAction(n) => f.Node(ImageLabel, n);
    }
  }

  /** `CompositeAction.FormatAst`. */
  method FormatCompositeAst(actions: seq<Action>, f: AstFormatter)
    modifies f
    ensures f.text == old(f.text) + Render(ActionOutline(CompositeAction(actions)), old(f.indent))
    ensures f.indent == old(f.indent)
    decreases actions, 3
  {
    ghost var t, k := f.text, f.indent;
    f.BeginNode(CompositeLabel);
    FormatActionChildren(actions, f);
    f.EndNode();
    AppendNode(t, BeginLine(k, CompositeLabel), RenderAll(ActionOutlines(actions), k + 1), EndLine(k));
  }

  /** The `foreach` over the actions of a composite. */
  method FormatActionChildren(actions: seq<Action>, f: AstFormatter)
    modifies f
    ensures f.text == old(f.text) + RenderAll(ActionOutlines(actions), old(f.indent)) && f.indent == old(f.indent)
    decreases actions, 2
  {
    for i := 0 to |actions|
      invariant f.text == old(f.text) + RenderAll(ActionOutlines(actions[..i]), old(f.indent)) && f.indent == old(f.indent)
    {
      FormatActionAst(actions[i], f);
      ActionOutlinesSnoc(actions, i);
      RenderAllSnoc(ActionOutlines(actions[..i]), ActionOutline(actions[i]), old(f.indent));
      AppendAssoc(old(f.text), RenderAll(ActionOutlines(actions[..i]), old(f.indent)), Render(ActionOutline(actions[i]), old(f.indent)));
    }
    assert actions[..|actions|] == actions;
  }

  /** `ConditionalAction.FormatAst`: the condition and the action, each in
      a node of its own. */
  method FormatConditionalAst(c: BoolExpr, body: Action, f: AstFormatter)
    modifies f
    ensures f.text == old(f.text) + Render(ActionOutline(ConditionalAction(c, body)), old(f.indent))
    ensures f.indent == old(f.indent)
    decreases body, 3
  {
    ghost var t, k := f.text, f.indent;
    ghost var x, y := Inner(ConditionLabel, [BoolOutline(c)]), Inner(ActionLabel, [ActionOutline(body)]);
    f.BeginNode(ConditionalActionLabel);
    FormatBoolWrapped(ConditionLabel, c, f);
    FormatActionWrapped(ActionLabel, body, f);
    f.EndNode();
    ConditionalRender(c, body, k);
    AppendPair(t, BeginLine(k, ConditionalActionLabel), Render(x, k + 1), Render(y, k + 1), EndLine(k));
  }

  /** `RollableAttribAction.FormatAst` and the condition of a conditional:
      a node named `name` around one boolean expression. */
  method FormatBoolWrapped(name: string, e: BoolExpr, f: AstFormatter)
    modifies f
    ensures f.text == old(f.text) + Render(Inner(name, [BoolOutline(e)]), old(f.indent))
    ensures f.indent == old(f.indent)
  {
    ghost var t, k := f.text, f.indent;
    f.BeginNode(name);
    FormatBoolAst(e, f);
    f.EndNode();
    RenderSingle(BoolOutline(e), k + 1);
    AppendNode(t, BeginLine(k, name), Render(BoolOutline(e), k + 1), EndLine(k));
  }

  /** The action of a conditional: a node named `name` around one action. */
  method FormatActionWrapped(name: string, a: Action, f: AstFormatter)
    modifies f
    ensures f.text == old(f.text) + Render(Inner(name, [ActionOutline(a)]), old(f.indent))
    ensures f.indent == old(f.indent)
    decreases a, 2
  {
    ghost var t, k := f.text, f.indent;
    f.BeginNode(name);
    FormatActionAst(a, f);
    f.EndNode();
    RenderSingle(ActionOutline(a), k + 1);
    AppendNode(t, BeginLine(k, name), Render(ActionOutline(a), k + 1), EndLine(k));
  }

  /** `WeighAttribAction.FormatAst`. */
  method FormatWeighAst(n: NumberExpr, f: AstFormatter)
    modifies f
    ensures f.text == old(f.text) + Render(ActionOutline(WeighAttribAction(n)), old(f.indent))
    ensures f.indent == old(f.indent)
  {
    ghost var t, k := f.text, f.indent;
    f.BeginNode(WeighAttribActionLabel);
    FormatNumberAst(n, f);
    f.EndNode();
    RenderSingle(NumberOutline(n), k + 1);
    AppendNode(t, BeginLine(k, WeighAttribActionLabel), Render(NumberOutline(n), k + 1), EndLine(k));
  }

  /** `ActivityAst.FormatAst`. */
  method FormatActivityAst(a: ActivityAst, f: AstFormatter)
    modifies f
    ensures f.text == old(f.text) + Render(ActivityOutline(a), old(f.indent)) && f.indent == old(f.indent)
  {
    ghost var t, k := f.text, f.indent;
    f.BeginNode(ActivityLabel);
    f.Node(NameLabel, a.name);
    FormatActionAst(a.body, f);
    f.EndNode();
    RenderPair(Leaf(NameLabel, a.name), ActionOutline(a.body), k + 1);
    AppendPair(t, BeginLine(k, ActivityLabel), Render(Leaf(NameLabel, a.name), k + 1), Render(ActionOutline(a.body), k + 1), EndLine(k));
  }
}
