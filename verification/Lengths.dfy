/** Nesting and sequence length: refused exactly past their limits. */
module Lengths {
  import opened Common
  import opened Errors
  import opened Events
  import opened Metering
  import opened Tree
  import opened Machine
  import opened Syntax
  import opened Evaluation
  import opened Carryover
  import AliasBudgets

  /**
    * Once its own charge passes, a collection is refused if and only if, with it, more than 256
    * or more than `max_depth` collections are open, and that number is reported.
    */
  lemma NestingIsExact(c: Config, step: Stepper, events: seq<Event>, start: Event)
    requires Steps(c, step) && Run(step, START, events).Ok? && (start.SequenceStart? || start.MappingStart?)
    requires ChargeEvent(c, Run(step, START, events).value.meter, start).Ok?
    ensures var r, depth := Run(step, START, events + [start]), |SlotsOf(events)| + 1;
      if depth > 256 || depth > c.maxDepth then r == Err(RecursionLimitExceeded(depth)) else r.Ok?
  {
    var s, all := Run(step, START, events).value, events + [start];
    AliasBudgets.DepthIsOpen(c, step, events);
    assert Front(all) == events && Last(all) == start;
    assert step(s, start) == Step(c, s, start);
  }

  lemma {:induction false} OneValueEach(c: Config, items: seq<Node>, depth: nat, ctx: Ctx)
    requires EvalItems(c, items, depth, ctx).Ok?
    ensures |EvalItems(c, items, depth, ctx).value.0| == |items| <= c.maxSequenceLength
    decreases |items|
  {
    if items != [] {
      OneValueEach(c, Front(items), depth, ctx);
    }
  }

  /** An item that reads is refused if and only if it is one past the limit; otherwise it comes last. */
  lemma SequenceLimitIsExact(
      c: Config, items: seq<Node>, n: Node, depth: nat, ctx: Ctx, vs: seq<Value>, ctx1: Ctx, v: Value, ctx2: Ctx)
    requires EvalItems(c, items, depth, ctx) == Ok((vs, ctx1)) && Eval(c, n, depth, ctx1) == Ok((v, ctx2))
    ensures EvalItems(c, items + [n], depth, ctx)
      == if |items| < c.maxSequenceLength then Ok((vs + [v], ctx2))
         else Err(Budget(MaxSequenceLength(c.maxSequenceLength, c.maxSequenceLength + 1)))
  {
    OneValueEach(c, items, depth, ctx);
    assert Front(items + [n]) == items && Last(items + [n]) == n;
  }
}
