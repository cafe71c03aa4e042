/** The Konklav syntax tree: boolean expressions, number expressions and
    actions, with the evaluation of expressions against a context and the
    sequence of context calls each action makes when it is executed. */
module KonklavAst {

  /** `IBoolExpression` and its implementations. And/Or keep the array of
      children the C# structs hold; the parser always builds two. */
  datatype BoolExpr =
    | AndExpression(children: seq<BoolExpr>)
    | OrExpression(children: seq<BoolExpr>)
    | LiteralTrueExpression
    | LiteralFalseExpression
    | ExactDiceResultExpression(value: int)
    | RangeDiceResultExpression(rangeFrom: int, rangeTo: int)
    | VisitedExpression(activityName: string)
    | HasTagExpression(tag: string)

  /** `ExactFloatValue`: the scanned lexeme and its exact decimal value
      (rounding to a 32-bit float is not modelled). */
  datatype NumberExpr = ExactFloatValue(lexeme: string, value: real)

  /** `IAction` and its implementations. */
  datatype Action =
    | TextAction(text: string)
    | GotoAction(activityName: string)
    | TagAction(tagName: string)
    | DebugAction(message: string)
    | EndAction
    | CompositeAction(actions: seq<Action>)
    | ConditionalAction(condition: BoolExpr, action: Action)
    | RollableAttribAction(rollCondition: BoolExpr)
    | WeighAttribAction(expression: NumberExpr)
    | ImageAction(imageName: string)

  /** `ActivityAst`: a named activity whose body is a composite action. */
  datatype ActivityAst = ActivityAst(name: string, body: Action)

  /** What the expressions of `IContext` read: the last dice roll and the
      answers of `Visited` and `HasTag`. */
  datatype ContextView = ContextView(lastDiceRollValue: int, visited: set<string>, tags: set<string>)

  /** The state-changing calls of `IContext`, as recorded in a trace. */
  datatype ContextCall =
    | ShowText(text: string)
    | Goto(activityName: string)
    | End
    | Debug(message: string)
    | ShowImage(imageName: string)
    | SetTag(tag: string)

  /** `IBoolExpression.Evaluate`, with the value the literal `false`
      yields left as a parameter: the source's `LiteralFalseExpression`
      yields `true` (see `EvaluateAsWritten`), the intended evaluation
      yields `false` (see `Evaluate`). Everything else is shared. */
  function EvaluateWith(e: BoolExpr, ctx: ContextView, falseValue: bool): (r: bool)
    ensures e.AndExpression? ==> (r <==> forall i :: 0 <= i < |e.children| ==> EvaluateWith(e.children[i], ctx, falseValue))
    ensures e.OrExpression? ==> (r <==> exists i :: 0 <= i < |e.children| && EvaluateWith(e.children[i], ctx, falseValue))
    ensures e.LiteralTrueExpression? ==> r
    ensures e.LiteralFalseExpression? ==> r == falseValue
    ensures e.ExactDiceResultExpression? ==> (r <==> ctx.lastDiceRollValue == e.value)
    ensures e.RangeDiceResultExpression? ==> (r <==> e.rangeFrom <= ctx.lastDiceRollValue <= e.rangeTo)
    ensures e.VisitedExpression? ==> (r <==> e.activityName in ctx.visited)
    ensures e.HasTagExpression? ==> (r <==> e.tag in ctx.tags)
    decreases e
  {
    match e
    case AndExpression(cs) => AllTrue(cs, ctx, falseValue)
    case OrExpression(cs) => AnyTrue(cs, ctx, falseValue)
    case LiteralTrueExpression => true
    case LiteralFalseExpression => falseValue
    case ExactDiceResultExpression(v) => ctx.lastDiceRollValue == v
    case RangeDiceResultExpression(lo, hi) => ctx.lastDiceRollValue >= lo && ctx.lastDiceRollValue <= hi
    case VisitedExpression(name) => name in ctx.visited
    case HasTagExpression(tag) => tag in ctx.tags
  }

  /** LINQ `All` over the children of an And. */
  function AllTrue(cs: seq<BoolExpr>, ctx: ContextView, falseValue: bool): (r: bool)
    ensures r <==> forall i :: 0 <= i < |cs| ==> EvaluateWith(cs[i], ctx, falseValue)
    decreases cs
  {
    if cs == [] then true
    else
      var r := EvaluateWith(cs[0], ctx, falseValue) && AllTrue(cs[1..], ctx, falseValue);
      assert forall i :: 1 <= i < |cs| ==> cs[i] == cs[1..][i - 1];
      r
  }

  /** LINQ `Any` over the children of an Or. */
  function AnyTrue(cs: seq<BoolExpr>, ctx: ContextView, falseValue: bool): (r: bool)
    ensures r <==> exists i :: 0 <= i < |cs| && EvaluateWith(cs[i], ctx, falseValue)
    decreases cs
  {
    if cs == [] then false
    else
      var r := EvaluateWith(cs[0], ctx, falseValue) || AnyTrue(cs[1..], ctx, falseValue);
      assert forall i :: 1 <= i < |cs| ==> cs[i] == cs[1..][i - 1];
      r
  }

  /** `IBoolExpression.Evaluate` as the source writes it: And holds when
      every child does, Or when some child does, both literals hold, and
      the other expressions ask the context. The model executes
      conditions with this evaluation. */
  function EvaluateAsWritten(e: BoolExpr, ctx: ContextView): (r: bool)
    ensures e.AndExpression? ==> (r <==> forall i :: 0 <= i < |e.children| ==> EvaluateAsWritten(e.children[i], ctx))
    ensures e.OrExpression? ==> (r <==> exists i :: 0 <= i < |e.children| && EvaluateAsWritten(e.children[i], ctx))
    ensures e.LiteralTrueExpression? || e.LiteralFalseExpression? ==> r
    ensures e.ExactDiceResultExpression? ==> (r <==> ctx.lastDiceRollValue == e.value)
    ensures e.RangeDiceResultExpression? ==> (r <==> e.rangeFrom <= ctx.lastDiceRollValue <= e.rangeTo)
    ensures e.VisitedExpression? ==> (r <==> e.activityName in ctx.visited)
    ensures e.HasTagExpression? ==> (r <==> e.tag in ctx.tags)
    decreases e
  {
    EvaluateWith(e, ctx, true)
  }

  /** `IBoolExpression.Evaluate` as intended: the same, except that the
      literal `false` never holds. */
  function Evaluate(e: BoolExpr, ctx: ContextView): (r: bool)
    ensures e.AndExpression? ==> (r <==> forall i :: 0 <= i < |e.children| ==> Evaluate(e.children[i], ctx))
    ensures e.OrExpression? ==> (r <==> exists i :: 0 <= i < |e.children| && Evaluate(e.children[i], ctx))
    ensures e.LiteralTrueExpression? ==> r
    ensures e.LiteralFalseExpression? ==> !r
    ensures e.ExactDiceResultExpression? ==> (r <==> ctx.lastDiceRollValue == e.value)
    ensures e.RangeDiceResultExpression? ==> (r <==> e.rangeFrom <= ctx.lastDiceRollValue <= e.rangeTo)
    ensures e.VisitedExpression? ==> (r <==> e.activityName in ctx.visited)
    ensures e.HasTagExpression? ==> (r <==> e.tag in ctx.tags)
    decreases e
  {
    EvaluateWith(e, ctx, false)
  }

  /** Whether an expression contains the literal `false` anywhere. */
  predicate MentionsFalse(e: BoolExpr)
    decreases e
  {
    match e
    case AndExpression(cs) => exists i :: 0 <= i < |cs| && MentionsFalse(cs[i])
    case OrExpression(cs) => exists i :: 0 <= i < |cs| && MentionsFalse(cs[i])
    case LiteralFalseExpression => true
    case _ => false
  }

  /** As written, the literal `false` holds in every context, so a
      condition `if false` runs its body; the intended evaluation never
      holds. */
  lemma LiteralFalseHoldsAsWritten(ctx: ContextView)
    ensures EvaluateAsWritten(LiteralFalseExpression, ctx)
    ensures !Evaluate(LiteralFalseExpression, ctx)
    ensures EvaluateAsWritten(AndExpression([LiteralFalseExpression, LiteralTrueExpression]), ctx)
    ensures !Evaluate(AndExpression([LiteralFalseExpression, LiteralTrueExpression]), ctx)
  {
    var both := [LiteralFalseExpression, LiteralTrueExpression];
    assert EvaluateWith(both[0], ctx, false) == false;
  }

  /** The two evaluations differ only through the literal `false`: on every
      expression that does not contain it they agree. */
  lemma {:induction false} AsWrittenAgreesWithoutFalse(e: BoolExpr, ctx: ContextView)
    requires !MentionsFalse(e)
    ensures EvaluateAsWritten(e, ctx) == Evaluate(e, ctx)
    decreases e
  {
    match e
    case AndExpression(cs) =>
      forall i | 0 <= i < |cs| ensures EvaluateWith(cs[i], ctx, true) == EvaluateWith(cs[i], ctx, false) {
        AsWrittenAgreesWithoutFalse(cs[i], ctx);
      }
    case OrExpression(cs) =>
      forall i | 0 <= i < |cs| ensures EvaluateWith(cs[i], ctx, true) == EvaluateWith(cs[i], ctx, false) {
        AsWrittenAgreesWithoutFalse(cs[i], ctx);
      }
    case _ =>
  }

  /** With the intended evaluation, `false` and `true` are the identities
      of `or` and `and`, and `false` absorbs `and`. */
  lemma IntendedLiteralLaws(e: BoolExpr, ctx: ContextView)
    ensures Evaluate(OrExpression([e, LiteralFalseExpression]), ctx) == Evaluate(e, ctx)
    ensures Evaluate(AndExpression([e, LiteralTrueExpression]), ctx) == Evaluate(e, ctx)
    ensures !Evaluate(AndExpression([e, LiteralFalseExpression]), ctx)
  {
    var orCs := [e, LiteralFalseExpression];
    assert orCs[0] == e && EvaluateWith(orCs[1], ctx, false) == false;
    var andCs := [e, LiteralTrueExpression];
    assert andCs[0] == e && EvaluateWith(andCs[1], ctx, false);
    var absorb := [e, LiteralFalseExpression];
    assert EvaluateWith(absorb[1], ctx, false) == false;
  }

  /** `INumberExpression.EvaluateAsFloat`: the literal's value, whatever the
      context. */
  function EvaluateAsFloat(n: NumberExpr, ctx: ContextView): (r: real)
    ensures r == n.value
  {
    n.value
  }

  /** A recording `IContext`: what its queries read and the calls made on
      it so far. `SetTag` adds the tag to the set `HasTag` reads; the other
      calls only join the trace. */
  datatype ContextState = ContextState(view: ContextView, trace: seq<ContextCall>)

  /** The tags that a sequence of calls sets. */
  function TagsSetBy(calls: seq<ContextCall>): set<string> {
    set i | 0 <= i < |calls| && calls[i].SetTag? :: calls[i].tag
  }

  /** One call on the recording context. */
  function Apply(st: ContextState, c: ContextCall): (r: ContextState)
    ensures r.trace == st.trace + [c]
    ensures r.view.lastDiceRollValue == st.view.lastDiceRollValue && r.view.visited == st.view.visited
    ensures r.view.tags == st.view.tags + TagsSetBy([c])
  {
    var tags := if c.SetTag? then st.view.tags + {c.tag} else st.view.tags;
    assert TagsSetBy([c]) == if c.SetTag? then {c.tag} else {} by {
      if c.SetTag? {
        assert [c][0].tag in TagsSetBy([c]);
      }
    }
    ContextState(st.view.(tags := tags), st.trace + [c])
  }

  /** `IAction.Execute`: the context after the action ran, with conditions
      evaluated by `EvaluateWith(_, _, falseValue)`. */
  function ExecuteWith(a: Action, st: ContextState, falseValue: bool): ContextState
    decreases a
  {
    match a
    case TextAction(t) => Apply(Apply(st, Debug("Text: " + t)), ShowText(t))
    case GotoAction(n) => Apply(Apply(st, Debug("/goto " + n)), Goto(n))
    case TagAction(t) => Apply(Apply(st, Debug("/tag " + t)), SetTag(t))
    case DebugAction(m) => Apply(st, Debug(m))
    case EndAction => Apply(Apply(st, Debug("/end")), End)
    case CompositeAction(actions) => ExecuteAllWith(actions, st, falseValue)
    case ConditionalAction(c, body) =>
      if EvaluateWith(c, st.view, falseValue) then ExecuteWith(body, st, falseValue) else st
    case RollableAttribAction(_) => st
    case WeighAttribAction(_) => st
    case ImageAction(n) => Apply(Apply(st, Debug("Image: " + n)), ShowImage(n))
  }

  /** `CompositeAction.Execute`: each child in list order, each seeing the
      context its predecessors left. */
  function ExecuteAllWith(actions: seq<Action>, st: ContextState, falseValue: bool): ContextState
    decreases actions
  {
    if actions == [] then st else ExecuteAllWith(actions[1..], ExecuteWith(actions[0], st, falseValue), falseValue)
  }

  /** `IAction.Execute` as the source runs it: conditions are evaluated as
      written, so the body of `if false` runs. */
  function Execute(a: Action, st: ContextState): (r: ContextState)
    ensures Extends(st, r)
  {
    ExecuteExtends(a, st, true);
    ExecuteWith(a, st, true)
  }

  /** `CompositeAction.Execute` as the source runs it. */
  function ExecuteAll(actions: seq<Action>, st: ContextState): (r: ContextState)
    ensures Extends(st, r)
  {
    ExecuteAllExtends(actions, st, true);
    ExecuteAllWith(actions, st, true)
  }

  /** `IAction.Execute` with the intended evaluation of the literal
      `false`. */
  function ExecuteIntended(a: Action, st: ContextState): (r: ContextState)
    ensures Extends(st, r)
  {
    ExecuteExtends(a, st, false);
    ExecuteWith(a, st, false)
  }

  /** The debug line that `Execute` writes just before a state-changing call. */
  function DebugLineFor(c: ContextCall): string
    requires !c.Debug?
  {
    match c
    case ShowText(t) => "Text: " + t
    case Goto(n) => "/goto " + n
    case End => "/end"
    case ShowImage(n) => "Image: " + n
    case SetTag(t) => "/tag " + t
  }

  /** Every call other than `Debug` comes right after the `Debug` call that
      announces it. */
  predicate Announced(trace: seq<ContextCall>) {
    forall i :: 0 <= i < |trace| && !trace[i].Debug? ==> i > 0 && trace[i - 1] == Debug(DebugLineFor(trace[i]))
  }

  /** What running actions may do to the recording context: the trace only
      grows, by announced calls; the dice value and the visited set stay;
      the tag set grows by exactly the tags those calls set. */
  predicate Extends(st: ContextState, r: ContextState) {
    |st.trace| <= |r.trace| && r.trace[..|st.trace|] == st.trace
    && r.view.lastDiceRollValue == st.view.lastDiceRollValue && r.view.visited == st.view.visited
    && r.view.tags == st.view.tags + TagsSetBy(r.trace[|st.trace|..])
    && Announced(r.trace[|st.trace|..])
  }

  lemma TagsSetByAppend(t1: seq<ContextCall>, t2: seq<ContextCall>)
    ensures TagsSetBy(t1 + t2) == TagsSetBy(t1) + TagsSetBy(t2)
  {
    var t := t1 + t2;
    forall x | x in TagsSetBy(t) ensures x in TagsSetBy(t1) + TagsSetBy(t2) {
      var i :| 0 <= i < |t| && t[i].SetTag? && t[i].tag == x;
      if i < |t1| { assert t1[i] == t[i]; } else { assert t2[i - |t1|] == t[i]; }
    }
    forall x | x in TagsSetBy(t1) + TagsSetBy(t2) ensures x in TagsSetBy(t) {
      if x in TagsSetBy(t1) {
        var i :| 0 <= i < |t1| && t1[i].SetTag? && t1[i].tag == x;
        assert t[i] == t1[i];
      } else {
        var i :| 0 <= i < |t2| && t2[i].SetTag? && t2[i].tag == x;
        assert t[|t1| + i] == t2[i];
      }
    }
  }

  lemma AnnouncedAppend(t1: seq<ContextCall>, t2: seq<ContextCall>)
    requires Announced(t1) && Announced(t2)
    ensures Announced(t1 + t2)
  {
    var t := t1 + t2;
    forall i | 0 <= i < |t| && !t[i].Debug?
      ensures i > 0 && t[i - 1] == Debug(DebugLineFor(t[i]))
    {
      if i >= |t1| {
        assert t[i] == t2[i - |t1|];
        assert i - |t1| > 0;
        assert t[i - 1] == t2[i - 1 - |t1|];
      } else {
        assert t[i] == t1[i];
        assert t[i - 1] == t1[i - 1];
      }
    }
  }

  lemma ExtendsTransitive(s1: ContextState, s2: ContextState, s3: ContextState)
    requires Extends(s1, s2) && Extends(s2, s3)
    ensures Extends(s1, s3)
  {
    var n1, n2 := |s1.trace|, |s2.trace|;
    assert s3.trace[..n1] == s3.trace[..n2][..n1];
    assert s3.trace[n1..] == s3.trace[n1..n2] + s3.trace[n2..];
    assert s3.trace[n1..n2] == s2.trace[n1..];
    TagsSetByAppend(s3.trace[n1..n2], s3.trace[n2..]);
    AnnouncedAppend(s3.trace[n1..n2], s3.trace[n2..]);
  }

  /** A `Debug` call alone, and a state-changing call right after its
      debug line, are announced extensions. */
  lemma ExtendsByDebug(st: ContextState, m: string)
    ensures Extends(st, Apply(st, Debug(m)))
  {
    var r := Apply(st, Debug(m));
    assert r.trace[|st.trace|..] == [Debug(m)];
  }

  lemma ExtendsByAnnouncedCall(st: ContextState, c: ContextCall)
    requires !c.Debug?
    ensures Extends(st, Apply(Apply(st, Debug(DebugLineFor(c))), c))
  {
    var r := Apply(Apply(st, Debug(DebugLineFor(c))), c);
    assert r.trace[|st.trace|..] == [Debug(DebugLineFor(c)), c];
    TagsSetByAppend([Debug(DebugLineFor(c))], [c]);
    assert [Debug(DebugLineFor(c)), c] == [Debug(DebugLineFor(c))] + [c];
  }

  /** Text, Goto, Tag, End and Image each make one `Debug` call and then
      exactly one matching call; Debug only logs; attributes make none;
      composites and conditionals only combine these. So executing any
      action extends the context as `Extends` says, whichever value the
      literal `false` takes. */
  lemma {:induction false} ExecuteExtends(a: Action, st: ContextState, falseValue: bool)
    ensures Extends(st, ExecuteWith(a, st, falseValue))
    decreases a
  {
    match a
    case CompositeAction(actions) => ExecuteAllExtends(actions, st, falseValue);
    case ConditionalAction(c, body) =>
      if EvaluateWith(c, st.view, falseValue) {
        ExecuteExtends(body, st, falseValue);
      } else {
        assert st.trace[|st.trace|..] == [];
      }
    case _ => LeafExtends(a, st, falseValue);
  }

  /** The same for an action with no children. */
  lemma LeafExtends(a: Action, st: ContextState, falseValue: bool)
    requires !a.CompositeAction? && !a.ConditionalAction?
    ensures Extends(st, ExecuteWith(a, st, falseValue))
  {
    match a
    case DebugAction(m) => ExtendsByDebug(st, m);
    case RollableAttribAction(_) => assert st.trace[|st.trace|..] == [];
    case WeighAttribAction(_) => assert st.trace[|st.trace|..] == [];
    case _ => CallActionExtends(a, st, falseValue);
  }

  /** The same for the actions that make one announced call. */
  lemma CallActionExtends(a: Action, st: ContextState, falseValue: bool)
    requires a.TextAction? || a.GotoAction? || a.TagAction? || a.EndAction? || a.ImageAction?
    ensures Extends(st, ExecuteWith(a, st, falseValue))
  {
    var c := match a
      case TextAction(t) => ShowText(t)
      case GotoAction(n) => Goto(n)
      case TagAction(t) => SetTag(t)
      case EndAction => End
      case ImageAction(n) => ShowImage(n);
    assert ExecuteWith(a, st, falseValue) == Apply(Apply(st, Debug(DebugLineFor(c))), c);
    ExtendsByAnnouncedCall(st, c);
  }

  lemma {:induction false} ExecuteAllExtends(actions: seq<Action>, st: ContextState, falseValue: bool)
    ensures Extends(st, ExecuteAllWith(actions, st, falseValue))
    decreases actions
  {
    if actions == [] {
      assert st.trace[|st.trace|..] == [];
    } else {
      var mid := ExecuteWith(actions[0], st, falseValue);
      ExecuteExtends(actions[0], st, falseValue);
      ExecuteAllExtends(actions[1..], mid, falseValue);
      ExtendsTransitive(st, mid, ExecuteAllWith(actions[1..], mid, falseValue));
    }
  }

  /** Running `xs + ys` is running `xs`, then `ys` from where `xs` left. */
  lemma {:induction false} ExecuteAllAppend(xs: seq<Action>, ys: seq<Action>, st: ContextState, falseValue: bool)
    ensures ExecuteAllWith(xs + ys, st, falseValue) == ExecuteAllWith(ys, ExecuteAllWith(xs, st, falseValue), falseValue)
    decreases xs
  {
    if xs == [] {
      assert xs + ys == ys;
    } else {
      assert (xs + ys)[1..] == xs[1..] + ys;
      ExecuteAllAppend(xs[1..], ys, ExecuteWith(xs[0], st, falseValue), falseValue);
    }
  }

  /** As the source runs it, a conditional runs its action exactly when its
      condition holds as written, and otherwise leaves the context as it
      was. */
  lemma ConditionalExecute(c: BoolExpr, body: Action, st: ContextState)
    ensures EvaluateAsWritten(c, st.view) ==> Execute(ConditionalAction(c, body), st) == Execute(body, st)
    ensures !EvaluateAsWritten(c, st.view) ==> Execute(ConditionalAction(c, body), st) == st
  {
  }

  /** As written, `if false` runs its body like any other condition that
      holds: `if false` around `/end` logs "/end" and ends the activity.
      With the intended evaluation it makes no call. */
  lemma IfFalseRunsItsBody(body: Action, st: ContextState)
    ensures Execute(ConditionalAction(LiteralFalseExpression, body), st) == Execute(body, st)
    ensures Execute(ConditionalAction(LiteralFalseExpression, EndAction), st).trace == st.trace + [Debug("/end"), End]
    ensures ExecuteIntended(ConditionalAction(LiteralFalseExpression, body), st) == st
  {
  }

  /** The two ways of running an action differ only through the literal
      `false`: on every action whose conditions do not contain it they
      leave the same context. */
  lemma {:induction false} AsWrittenRunsAsIntendedWithoutFalse(a: Action, st: ContextState)
    requires !ActionMentionsFalse(a)
    ensures Execute(a, st) == ExecuteIntended(a, st)
    decreases a
  {
    match a
    case CompositeAction(actions) => AllAsWrittenRunAsIntended(actions, st);
    case ConditionalAction(c, body) =>
      AsWrittenAgreesWithoutFalse(c, st.view);
      if Evaluate(c, st.view) {
        AsWrittenRunsAsIntendedWithoutFalse(body, st);
      }
    case _ =>
  }

  lemma {:induction false} AllAsWrittenRunAsIntended(actions: seq<Action>, st: ContextState)
    requires forall i :: 0 <= i < |actions| ==> !ActionMentionsFalse(actions[i])
    ensures ExecuteAllWith(actions, st, true) == ExecuteAllWith(actions, st, false)
    decreases actions
  {
    if actions != [] {
      AsWrittenRunsAsIntendedWithoutFalse(actions[0], st);
      AllAsWrittenRunAsIntended(actions[1..], ExecuteWith(actions[0], st, true));
    }
  }

  /** Whether some condition inside an action contains the literal `false`. */
  predicate ActionMentionsFalse(a: Action)
    decreases a
  {
    match a
    case CompositeAction(actions) => exists i :: 0 <= i < |actions| && ActionMentionsFalse(actions[i])
    case ConditionalAction(c, body) => MentionsFalse(c) || ActionMentionsFalse(body)
    case _ => false
  }
}
