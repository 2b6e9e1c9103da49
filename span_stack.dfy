/** The context's span stack as a value: one function per context operation,
    saying what the stack becomes, and the lemmas about depth, locality and
    the start/end discipline. The last element is the top of the stack. */
module SpanStack {
  import opened Wrappers
  import opened Spans

  type Stack = seq<Span>

  /** The stack with its top span replaced. */
  function ReplaceTop(st: Stack, s: Span): (r: Stack)
    requires |st| > 0
    ensures |r| == |st| && r[..|st| - 1] == st[..|st| - 1] && r[|st| - 1] == s
  {
    st[..|st| - 1] + [s]
  }

  /** The stack of a new context: one root span named "main", with nothing recorded. */
  function Initial(now: Instant): (r: Stack)
    ensures |r| == 1
    ensures r[0].id == "main" && r[0].items == [] && r[0].createdOn == now
    ensures r[0].result == None && r[0].err == None && r[0].success == None && !r[0].ended
  {
    [NewSpan("main", now)]
  }

  /** `start_span`: a fresh span named `id` on top of the untouched stack. */
  function StartSpanOn(st: Stack, id: string, now: Instant): (r: Stack)
    ensures |r| == |st| + 1 && r[..|st|] == st
    ensures r[|st|].id == id && r[|st|].createdOn == now && r[|st|].items == []
    ensures r[|st|].result == None && r[|st|].err == None && r[|st|].success == None && !r[|st|].ended
  {
    st + [NewSpan(id, now)]
  }

  /** `observe_span_id`: renames the top span; nothing on an empty stack. */
  function RenameTop(st: Stack, id: string): (r: Stack)
    ensures |r| == |st|
    ensures st == [] ==> r == []
    ensures st != [] ==> r[..|st| - 1] == st[..|st| - 1] && r[|st| - 1] == st[|st| - 1].(id := id)
  {
    if st == [] then st else ReplaceTop(st, SetId(st[|st| - 1], id))
  }

  /** `observe_span_field`: one field item appended to the top span's items,
      stamped with its offset from the top span's start; nothing on an empty stack. */
  function RecordFieldOnTop(st: Stack, name: string, value: FieldValue, now: Instant): (r: Stack)
    ensures |r| == |st|
    ensures st == [] ==> r == []
    ensures st != [] ==> r[..|st| - 1] == st[..|st| - 1]
    ensures st != [] ==>
      var top := st[|st| - 1];
      r[|st| - 1].items == top.items + [Entry(Since(top.createdOn, now), Field(name, value))] &&
      r[|st| - 1].(items := top.items) == top
  {
    if st == [] then st else ReplaceTop(st, AddBreadcrumbs(st[|st| - 1], name, value, now))
  }

  /** `observe_span_result`: sets the top span's result; nothing on an empty stack. */
  function SetResultOnTop(st: Stack, value: string): (r: Stack)
    ensures |r| == |st|
    ensures st == [] ==> r == []
    ensures st != [] ==> r[..|st| - 1] == st[..|st| - 1] && r[|st| - 1] == st[|st| - 1].(result := Some(value))
  {
    if st == [] then st else ReplaceTop(st, SetResult(st[|st| - 1], value))
  }

  /** `span_log`: one log item appended to the top span's items; nothing on an empty stack. */
  function LogOnTop(st: Stack, message: string, now: Instant): (r: Stack)
    ensures |r| == |st|
    ensures st == [] ==> r == []
    ensures st != [] ==> r[..|st| - 1] == st[..|st| - 1]
    ensures st != [] ==>
      var top := st[|st| - 1];
      r[|st| - 1].items == top.items + [Entry(Since(top.createdOn, now), Log(message))] &&
      r[|st| - 1].(items := top.items) == top
  {
    if st == [] then st else ReplaceTop(st, AddLog(st[|st| - 1], message, now))
  }

  /** `end_span`: the top span is closed (success exactly when `err` is None)
      and becomes the last item of the span below it, which is then the top.
      The root span alone is closed in place; an empty stack stays empty. */
  function EndSpanOn(st: Stack, err: Option<string>, now: Instant): (r: Stack)
    ensures st == [] ==> r == []
    ensures |st| == 1 ==> r == [Close(st[0], err, now)]
    ensures |st| >= 2 ==> |r| == |st| - 1 && r[..|st| - 2] == st[..|st| - 2]
    ensures |st| >= 2 ==>
      var child, parent := st[|st| - 1], st[|st| - 2];
      r[|st| - 2].items == parent.items + [Entry(Since(parent.createdOn, child.createdOn), Frame(Close(child, err, now)))] &&
      r[|st| - 2].(items := parent.items) == parent
  {
    if st == [] then st
    else
      var child := Close(st[|st| - 1], err, now);
      if |st| == 1 then [child]
      else st[..|st| - 2] + [AddSubFrame(st[|st| - 2], child.createdOn, child)]
  }

  /** `end_ctx_frame` (and so `finalise`): ends the top span in place. */
  function EndTop(st: Stack, now: Instant): (r: Stack)
    ensures |r| == |st|
    ensures st == [] ==> r == []
    ensures st != [] ==> r[..|st| - 1] == st[..|st| - 1] && r[|st| - 1] == End(st[|st| - 1], now)
    ensures st != [] ==> r[|st| - 1].ended
  {
    if st == [] then st else ReplaceTop(st, End(st[|st| - 1], now))
  }

  /** Finalising twice is finalising once: the first end fixes the duration. */
  lemma EndTopIdempotent(st: Stack, t1: Instant, t2: Instant)
    ensures EndTop(EndTop(st, t1), t2) == EndTop(st, t1)
  {
    if st != [] {
      EndIdempotent(st[|st| - 1], t1, t2);
    }
  }

  /** A start immediately undone by an end: the depth is back, the spans
      below the parent are untouched, and the parent gained exactly the
      closed child as its last item. */
  lemma StartThenEnd(st: Stack, id: string, t0: Instant, err: Option<string>, t1: Instant)
    requires |st| >= 1
    ensures var r := EndSpanOn(StartSpanOn(st, id, t0), err, t1);
      |r| == |st| && r[..|st| - 1] == st[..|st| - 1] &&
      r[|st| - 1] == AddSubFrame(st[|st| - 1], t0, Close(NewSpan(id, t0), err, t1))
  {
    var s := StartSpanOn(st, id, t0);
    assert s[|s| - 2] == st[|st| - 1];
  }

  /** A closed child's offset is at most its parent's duration once the
      parent ends at an instant no earlier than the child's start. */
  lemma ChildOffsetWithinParent(st: Stack, err: Option<string>, now: Instant, t: Instant)
    requires |st| >= 2 && !st[|st| - 2].ended
    ensures var r := EndSpanOn(st, err, now);
      var p := r[|st| - 2];
      |p.items| >= 1 &&
      (st[|st| - 1].createdOn <= t ==> p.items[|p.items| - 1].offset <= End(p, t).duration)
  {
  }

  /** Clock readings taken out of order break that bound: a child started
      at 100 and a parent ended at 50 give an offset of 100 in a span of
      length 50. */
  lemma ChildOffsetBeyondParent(st: Stack, p: Span)
    requires st == [NewSpan("main", 0), NewSpan("c", 100)]
    requires p == EndSpanOn(st, None, 150)[0]
    ensures p.items[|p.items| - 1].offset == 100 && End(p, 50).duration == 50
  {
  }

  // ----- sequences of operations -----

  /** One call on the context, with the clock reading it takes. */
  datatype Op =
    | StartOp(id: string, now: Instant)
    | RenameOp(id: string)
    | FieldOp(name: string, value: FieldValue, now: Instant)
    | ResultOp(text: string)
    | LogOp(message: string, now: Instant)
    | EndOp(err: Option<string>, now: Instant)
    | FinaliseOp(now: Instant)

  function Step(st: Stack, op: Op): Stack {
    match op
    case StartOp(id, now) => StartSpanOn(st, id, now)
    case RenameOp(id) => RenameTop(st, id)
    case FieldOp(name, value, now) => RecordFieldOnTop(st, name, value, now)
    case ResultOp(value) => SetResultOnTop(st, value)
    case LogOp(message, now) => LogOnTop(st, message, now)
    case EndOp(err, now) => EndSpanOn(st, err, now)
    case FinaliseOp(now) => EndTop(st, now)
  }

  /** The stack after the calls `ops`, in order. */
  function Run(st: Stack, ops: seq<Op>): Stack
    decreases |ops|
  {
    if ops == [] then st else Run(Step(st, ops[0]), ops[1..])
  }

  /** How one call changes the depth. */
  function Delta(op: Op): int {
    if op.StartOp? then 1 else if op.EndOp? then -1 else 0
  }

  /** Starts minus ends. */
  function Net(ops: seq<Op>): int
    decreases |ops|
  {
    if ops == [] then 0 else Delta(ops[0]) + Net(ops[1..])
  }

  /** Every end in `ops` closes a span that `ops` itself opened, given that
      `open` spans started earlier are still open. */
  predicate Within(open: nat, ops: seq<Op>)
    decreases |ops|
  {
    if ops == [] then true
    else if ops[0].StartOp? then Within(open + 1, ops[1..])
    else if ops[0].EndOp? then open >= 1 && Within(open - 1, ops[1..])
    else Within(open, ops[1..])
  }

  /** Starts and ends matched like brackets. */
  predicate Matched(ops: seq<Op>) {
    Within(0, ops) && Net(ops) == 0
  }

  /** One call moves the depth by `Delta` and leaves alone every span below
      the top two (the top one when it is not an end). */
  lemma StepShape(st: Stack, op: Op)
    requires |st| >= (if op.EndOp? then 2 else 1)
    ensures |Step(st, op)| == |st| + Delta(op)
    ensures var m := if op.EndOp? then |st| - 2 else |st| - 1;
      Step(st, op)[..m] == st[..m]
  {
    if op.EndOp? {
      assert Step(st, op) == EndSpanOn(st, op.err, op.now);
    }
  }

  lemma {:induction false} RunWithin(st: Stack, ops: seq<Op>, open: nat)
    requires |st| >= 1 + open && Within(open, ops)
    ensures Net(ops) + open >= 0
    ensures |Run(st, ops)| == |st| + Net(ops)
    ensures Run(st, ops)[..|st| - 1 - open] == st[..|st| - 1 - open]
    decreases |ops|
  {
    if ops != [] {
      var op, rest := ops[0], ops[1..];
      var st' := Step(st, op);
      var open' := if op.StartOp? then open + 1 else if op.EndOp? then open - 1 else open;
      var keep := |st| - 1 - open;
      StepShape(st, op);
      var m := if op.EndOp? then |st| - 2 else |st| - 1;
      assert st'[..m] == st[..m];
      assert keep <= m;
      assert st'[..keep] == st'[..m][..keep];
      assert Within(open', rest);
      assert Net(ops) == Delta(op) + Net(rest);
      assert Run(st, ops) == Run(st', rest);
      RunWithin(st', rest, open');
      assert |st'| - 1 - open' == keep;
    }
  }

  /** Stack balance: after matched starts and ends (with any fields, logs,
      results and renames between them) the depth is what it was, and every
      span below the top is untouched. */
  lemma MatchedKeepsDepth(st: Stack, ops: seq<Op>)
    requires |st| >= 1 && Matched(ops)
    ensures |Run(st, ops)| == |st|
    ensures Run(st, ops)[..|st| - 1] == st[..|st| - 1]
  {
    RunWithin(st, ops, 0);
  }

  /** The root span never goes away: no sequence of calls empties a live stack. */
  lemma {:induction false} RunNonEmpty(st: Stack, ops: seq<Op>)
    requires |st| >= 1
    ensures |Run(st, ops)| >= 1
    decreases |ops|
  {
    if ops != [] {
      RunNonEmpty(Step(st, ops[0]), ops[1..]);
    }
  }

  // ----- write locality -----

  /** Calls that only write into the top span. */
  predicate Local(ops: seq<Op>) {
    forall i :: 0 <= i < |ops| ==> !ops[i].StartOp? && !ops[i].EndOp? && !ops[i].FinaliseOp?
  }

  /** What one local call does to the span it writes into. */
  function LocalStep(s: Span, op: Op): Span
    requires !op.StartOp? && !op.EndOp? && !op.FinaliseOp?
  {
    match op
    case RenameOp(id) => SetId(s, id)
    case FieldOp(name, value, now) => AddBreadcrumbs(s, name, value, now)
    case ResultOp(value) => SetResult(s, value)
    case LogOp(message, now) => AddLog(s, message, now)
  }

  /** What local calls do to one span. */
  function ApplyLocal(s: Span, ops: seq<Op>): Span
    requires Local(ops)
    decreases |ops|
  {
    if ops == [] then s else ApplyLocal(LocalStep(s, ops[0]), ops[1..])
  }

  /** Local calls change the top span and nothing else. */
  lemma {:induction false} LocalTouchesTopOnly(below: Stack, top: Span, ops: seq<Op>)
    requires Local(ops)
    ensures Run(below + [top], ops) == below + [ApplyLocal(top, ops)]
    decreases |ops|
  {
    if ops != [] {
      var st := below + [top];
      assert st[..|st| - 1] == below;
      var top' := LocalStep(top, ops[0]);
      assert Step(st, ops[0]) == below + [top'];
      assert Local(ops[1..]) by {
        forall i | 0 <= i < |ops[1..]| ensures !ops[1..][i].StartOp? && !ops[1..][i].EndOp? && !ops[1..][i].FinaliseOp? {
          assert ops[1..][i] == ops[i + 1];
        }
      }
      LocalTouchesTopOnly(below, top', ops[1..]);
    }
  }

  /** A call that does not reach below `x` acts on `st + x` as on `x` alone. */
  lemma StepAbove(st: Stack, x: Stack, op: Op)
    requires |x| >= (if op.EndOp? then 2 else 1)
    ensures Step(st + x, op) == st + Step(x, op)
  {
    var y := st + x;
    assert y[|y| - 1] == x[|x| - 1];
    assert y[..|y| - 1] == st + x[..|x| - 1];
    if op.EndOp? {
      assert y[|y| - 2] == x[|x| - 2];
      assert y[..|y| - 2] == st + x[..|x| - 2];
    }
  }

  /** Calls whose ends stay within the `open` spans above the bottom of `x`
      leave everything under `x` alone: they run on `x` as if it were the
      whole stack. */
  lemma {:induction false} RunAbove(st: Stack, x: Stack, ops: seq<Op>, open: nat)
    requires |x| >= 1 + open && Within(open, ops)
    ensures Run(st + x, ops) == st + Run(x, ops)
    decreases |ops|
  {
    if ops != [] {
      var op := ops[0];
      var open' := if op.StartOp? then open + 1 else if op.EndOp? then open - 1 else open;
      StepAbove(st, x, op);
      StepShape(x, op);
      assert Within(open', ops[1..]);
      RunAbove(st, Step(x, op), ops[1..], open');
    }
  }

  /** Write locality: whatever is recorded between a start and its matching
      end, nested spans and their contents included, lands in the child, as
      if the child were alone on the stack; the parent gains exactly one item,
      the closed child, and the spans below the parent are untouched. */
  lemma WritesLandInChild(st: Stack, id: string, t0: Instant, ops: seq<Op>, err: Option<string>, t1: Instant)
    requires |st| >= 1 && Matched(ops)
    ensures var r := EndSpanOn(Run(StartSpanOn(st, id, t0), ops), err, t1);
      var alone := Run([NewSpan(id, t0)], ops);
      |alone| == 1 && |r| == |st| && r[..|st| - 1] == st[..|st| - 1] &&
      r[|st| - 1] == AddSubFrame(st[|st| - 1], alone[0].createdOn, Close(alone[0], err, t1))
  {
    var c := NewSpan(id, t0);
    RunAbove(st, [c], ops, 0);
    RunWithin([c], ops, 0);
    var alone := Run([c], ops);
    assert alone == [alone[0]];
    EndOnChild(st, alone[0], err, t1);
  }

  /** Ending the span pushed on a non-empty stack adds it to the span below. */
  lemma EndOnChild(st: Stack, child: Span, err: Option<string>, now: Instant)
    requires |st| >= 1
    ensures var r := EndSpanOn(st + [child], err, now);
      |r| == |st| && r[..|st| - 1] == st[..|st| - 1] &&
      r[|st| - 1] == AddSubFrame(st[|st| - 1], child.createdOn, Close(child, err, now))
  {
    var s := st + [child];
    assert s[..|s| - 2] == st[..|st| - 1];
    assert s[|s| - 2] == st[|st| - 1];
  }

  /** With only local calls between the start and the end, the child alone
      is the child with those calls applied. */
  lemma LocalChildAlone(c: Span, ops: seq<Op>)
    requires Local(ops)
    ensures Run([c], ops) == [ApplyLocal(c, ops)]
  {
    LocalTouchesTopOnly([], c, ops);
  }
}
