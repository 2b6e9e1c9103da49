/** The execution context: an identity, a correlation key, a creation instant
    and the span stack, which every operation changes in place by popping the
    top, changing it and pushing it back. The key and the instants come from
    the caller (they are a random uuid and clock readings in the program). */
module Contexts {
  import opened Wrappers
  import opened Spans
  import opened SpanStack

  class Context {
    const id: string
    const key: string
    const createdOn: Instant
    var spanStack: Stack

    /** `Context::new`: the stack holds the root span "main" alone. */
    constructor (id: string, key: string, now: Instant)
      ensures this.id == id && this.key == key && createdOn == now
      ensures spanStack == Initial(now)
    {
      this.id := id;
      this.key := key;
      createdOn := now;
      spanStack := [NewSpan("main", now)];
    }

    /** `Vec::pop`. */
    method Pop() returns (top: Option<Span>)
      modifies this
      ensures old(spanStack) == [] ==> top == None && spanStack == []
      ensures old(spanStack) != [] ==>
        top == Some(old(spanStack)[|old(spanStack)| - 1]) && spanStack == old(spanStack)[..|old(spanStack)| - 1]
    {
      if spanStack == [] {
        top := None;
      } else {
        top := Some(spanStack[|spanStack| - 1]);
        spanStack := spanStack[..|spanStack| - 1];
      }
    }

    /** `Vec::push`. */
    method Push(s: Span)
      modifies this
      ensures spanStack == old(spanStack) + [s]
    {
      spanStack := spanStack + [s];
    }

    method StartSpan(id: string, now: Instant)
      modifies this
      ensures spanStack == StartSpanOn(old(spanStack), id, now)
    {
      Push(NewSpan(id, now));
    }

    method ObserveSpanId(id: string)
      modifies this
      ensures spanStack == RenameTop(old(spanStack), id)
    {
      var frame := Pop();
      if frame.Some? {
        Push(SetId(frame.value, id));
      }
    }

    method ObserveSpanField(name: string, value: FieldValue, now: Instant)
      modifies this
      ensures spanStack == RecordFieldOnTop(old(spanStack), name, value, now)
    {
      var frame := Pop();
      if frame.Some? {
        Push(AddBreadcrumbs(frame.value, name, value, now));
      }
    }

    /** `value` is the serialised text of the result. */
    method ObserveSpanResult(value: string)
      modifies this
      ensures spanStack == SetResultOnTop(old(spanStack), value)
    {
      var frame := Pop();
      if frame.Some? {
        Push(SetResult(frame.value, value));
      }
    }

    method SpanLog(message: string, now: Instant)
      modifies this
      ensures spanStack == LogOnTop(old(spanStack), message, now)
    {
      var frame := Pop();
      if frame.Some? {
        Push(AddLog(frame.value, message, now));
      }
    }

    /** Pops the child and then the parent; `isCritical` is accepted and not read. */
    method EndSpan(isCritical: bool, err: Option<string>, now: Instant)
      modifies this
      ensures spanStack == EndSpanOn(old(spanStack), err, now)
    {
      var child := Pop();
      var parent := Pop();
      if child.Some? {
        var childFrame := End(SetErr(SetSuccess(child.value, err.None?), err), now);
        if parent.Some? {
          Push(AddSubFrame(parent.value, childFrame.createdOn, childFrame));
        } else {
          Push(childFrame);
        }
      }
    }

    method EndCtxFrame(now: Instant)
      modifies this
      ensures spanStack == EndTop(old(spanStack), now)
    {
      var frame := Pop();
      if frame.Some? {
        Push(End(frame.value, now));
      }
    }

    method Finalise(now: Instant)
      modifies this
      ensures spanStack == EndTop(old(spanStack), now)
    {
      EndCtxFrame(now);
    }
  }
}
