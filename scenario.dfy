/** A client of the context and the logger backend: one request that opens
    a span, records a field, opens a nested span that succeeds with a
    result, then fails the outer span and finalises the context. What the
    assertions state follows from the contracts alone. Clock readings are
    in nanoseconds; the outer span lasts just over two milliseconds. */
module Scenario {
  import opened Wrappers
  import opened Spans
  import opened SpanStack
  import opened Contexts
  import opened LoggerBackend

  method CreatePolicyRequest()
  {
    var ctx := new Context("c1", "key", 0);
    var main0 := NewSpan("main", 0);
    assert ctx.spanStack == [main0];
    ctx.StartSpan("create_policy", 10);
    var outer0 := NewSpan("create_policy", 10);
    assert ctx.spanStack == [main0, outer0];
    ctx.ObserveSpanField("pid", JString("X"), 20);
    var outer1 := AddBreadcrumbs(outer0, "pid", JString("X"), 20);
    assert ctx.spanStack == [main0, outer1];
    NestedUpdateFails(ctx, main0, outer1);
  }

  /** The nested span succeeds with a result, then the outer span fails and
      the context is finalised. */
  method NestedUpdateFails(ctx: Context, main0: Span, outer1: Span)
    requires main0 == NewSpan("main", 0)
    requires outer1 == AddBreadcrumbs(NewSpan("create_policy", 10), "pid", JString("X"), 20)
    requires ctx.spanStack == [main0, outer1]
    modifies ctx
  {
    ctx.StartSpan("update_policy", 30);
    var inner0 := NewSpan("update_policy", 30);
    assert ctx.spanStack == [main0, outer1, inner0];
    ctx.ObserveSpanResult("R");
    var inner1 := SetResult(inner0, "R");
    assert ctx.spanStack == [main0, outer1, inner1];
    ctx.EndSpan(false, None, 40);
    var inner2 := Close(inner1, None, 40);
    var outer2 := AddSubFrame(outer1, 30, inner2);
    assert ctx.spanStack == [main0, outer2];
    ctx.EndSpan(false, Some("boom"), 2_000_050);
    var outer3 := Close(outer2, Some("boom"), 2_000_050);
    var main1 := AddSubFrame(main0, 10, outer3);
    assert ctx.spanStack == [main1];
    ctx.Finalise(2_000_060);
    var main2 := End(main1, 2_000_060);
    assert ctx.spanStack == [main2];

    FailedSpanShown(inner2, outer3);
  }

  /** The outer span is shown failed and slow, its error line closes its
      block, and the nested span is shown with its result. */
  lemma FailedSpanShown(inner: Span, outer: Span)
    requires inner == Close(SetResult(NewSpan("update_policy", 30), "R"), None, 40)
    requires outer == Close(AddSubFrame(AddBreadcrumbs(NewSpan("create_policy", 10), "pid", JString("X"), 20), 30, inner), Some("boom"), 2_000_050)
    ensures HeaderStyle(outer) == Style(true, Underline)
    ensures HeaderStyle(inner) == Style(false, Regular)
    ensures var ps := SpanPieces(outer, 4); ps[|ps| - 1] == ErrorLine(6, "boom")
    ensures SpanPieces(inner, 8) == [HeaderOf(inner), ResultLine(10, "R")]
  {
    assert outer.items == [Entry(10, Field("pid", JString("X"))), Entry(20, Frame(inner))];
    SpanLayout(outer, 4);
    SpanLayout(inner, 8);
  }
}
