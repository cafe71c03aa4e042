/** A recording implementation of `IContext`, and `IAction.Execute` and
    `IBoolExpression.Evaluate` run against it. */
module KonklavContext {
  import opened KonklavAst

  class Context {
    var lastDiceRollValue: int
    var visited: set<string>
    var tags: set<string>
    /** Every call made on this context, oldest first. */
    var trace: seq<ContextCall>

    function State(): ContextState
      reads this
    {
      ContextState(ContextView(lastDiceRollValue, visited, tags), trace)
    }

    constructor (lastDiceRollValue: int, visited: set<string>, tags: set<string>)
      ensures State() == ContextState(ContextView(lastDiceRollValue, visited, tags), [])
    {
      this.lastDiceRollValue := lastDiceRollValue;
      this.visited := visited;
      this.tags := tags;
      trace := [];
    }

    /** `IContext.Visited`. */
    predicate Visited(activityName: string)
      reads this
    {
      activityName in visited
    }

    /** `IContext.HasTag`. */
    predicate HasTag(tag: string)
      reads this
    {
      tag in tags
    }

    method ShowText(text: string)
      modifies this
      ensures State() == Apply(old(State()), KonklavAst.ShowText(text))
    {
      trace := trace + [KonklavAst.ShowText(text)];
    }

    method Goto(activityName: string)
      modifies this
      ensures State() == Apply(old(State()), KonklavAst.Goto(activityName))
    {
      trace := trace + [KonklavAst.Goto(activityName)];
    }

    method End()
      modifies this
      ensures State() == Apply(old(State()), KonklavAst.End)
    {
      trace := trace + [KonklavAst.End];
    }

    method Debug(message: string)
      modifies this
      ensures State() == Apply(old(State()), KonklavAst.Debug(message))
    {
      trace := trace + [KonklavAst.Debug(message)];
    }

    method ShowImage(imageName: string)
      modifies this
      ensures State() == Apply(old(State()), KonklavAst.ShowImage(imageName))
    {
      trace := trace + [KonklavAst.ShowImage(imageName)];
    }

    method SetTag(tag: string)
      modifies this
      ensures State() == Apply(old(State()), KonklavAst.SetTag(tag))
    {
      tags := tags + {tag};
      trace := trace + [KonklavAst.SetTag(tag)];
    }
  }

  /** `IBoolExpression.Evaluate`, asking the context's queries, as the
      source writes it: the literal `false` evaluates to true. */
  method EvaluateIn(e: BoolExpr, ctx: Context) returns (b: bool)
    ensures b == EvaluateAsWritten(e, ctx.State().view)
    decreases e
  {
    match e {
      case AndExpression(cs) =>
        b := true;
        for i := 0 to |cs|
          invariant b <==> forall j :: 0 <= j < i ==> EvaluateAsWritten(cs[j], ctx.State().view)
        {
          var c := EvaluateIn(cs[i], ctx);
          b := b && c;
        }
      case OrExpression(cs) =>
        b := false;
        for i := 0 to |cs|
          invariant b <==> exists j :: 0 <= j < i && EvaluateAsWritten(cs[j], ctx.State().view)
        {
          var c := EvaluateIn(cs[i], ctx);
          b := b || c;
        }
      case LiteralTrueExpression => b := true;
      case LiteralFalseExpression => b := true;
      case ExactDiceResultExpression(v) => b := ctx.lastDiceRollValue == v;
      case RangeDiceResultExpression(lo, hi) =>
        b := ctx.lastDiceRollValue >= lo && ctx.lastDiceRollValue <= hi;
      case VisitedExpression(name) => b := ctx.Visited(name);
      case HasTagExpression(tag) => b := ctx.HasTag(tag);
    }
  }

  /** `IAction.Execute`: runs the action against the context, evaluating
      conditions as the source does. */
  method Execute(a: Action, ctx: Context)
    modifies ctx
    ensures ctx.State() == KonklavAst.Execute(a, old(ctx.State()))
    decreases a
  {
    match a {
      case TextAction(t) =>
        ctx.Debug("Text: " + t);
        ctx.ShowText(t);
      case GotoAction(n) =>
        ctx.Debug("/goto " + n);
        ctx.Goto(n);
      case TagAction(t) =>
        ctx.Debug("/tag " + t);
        ctx.SetTag(t);
      case DebugAction(m) =>
        ctx.Debug(m);
      case EndAction =>
        ctx.Debug("/end");
        ctx.End();
      case CompositeAction(actions) =>
        for i := 0 to |actions|
          invariant ctx.State() == ExecuteAll(actions[..i], old(ctx.State()))
        {
          ExecuteAllAppend(actions[..i], [actions[i]], old(ctx.State()), true);
          assert actions[..i + 1] == actions[..i] + [actions[i]];
          Execute(actions[i], ctx);
        }
        assert actions[..|actions|] == actions;
      case ConditionalAction(c, body) =>
        var holds := EvaluateIn(c, ctx);
        if holds {
          Execute(body, ctx);
        }
      case RollableAttribAction(_) =>
      case WeighAttribAction(_) =>
      case ImageAction(n) =>
        ctx.Debug("Image: " + n);
        ctx.ShowImage(n);
    }
  }
}
