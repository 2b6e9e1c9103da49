/** `observe`: runs a fallible computation inside one frame of the context,
    records how it ended, and hands its outcome back unchanged. The
    computation is given by the outcome it produces; the context is reached
    only through `start_frame` and `end_frame`, recorded as a trace. */
module Observe {

  /** What the wrapped computation returned. */
  datatype Outcome<T, E> = Ok(value: T) | Err(error: E)

  /** A call the wrapper makes on the context. */
  datatype FrameCall =
    | StartFrame(name: string, frame: nat)
    | EndFrame(frame: nat, critical: bool, result: string, success: bool)

  /** The frame API of the context: `start_frame` hands out a frame handle
      and `end_frame` takes it back with the frame's outcome. What the context
      does with them is not part of this model; `trace` records the calls. */
  class FrameContext {
    ghost var trace: seq<FrameCall>
    var nextFrame: nat

    /** Handles are issued in increasing order, each below `nextFrame`. */
    ghost predicate Valid()
      reads this
    {
      (forall i :: 0 <= i < |trace| && trace[i].StartFrame? ==> trace[i].frame < nextFrame) &&
      (forall i, j :: 0 <= i < j < |trace| && trace[i].StartFrame? && trace[j].StartFrame? ==>
         trace[i].frame < trace[j].frame)
    }

    constructor ()
      ensures Valid() && trace == [] && nextFrame == 0
    {
      trace := [];
      nextFrame := 0;
    }

    method StartFrameCall(name: string) returns (frame: nat)
      requires Valid()
      modifies this
      ensures Valid()
      ensures frame == old(nextFrame) && nextFrame == old(nextFrame) + 1
      ensures trace == old(trace) + [StartFrame(name, frame)]
      ensures forall i :: 0 <= i < |old(trace)| && old(trace)[i].StartFrame? ==> old(trace)[i].frame != frame
    {
      frame := nextFrame;
      nextFrame := nextFrame + 1;
      trace := trace + [StartFrame(name, frame)];
    }

    method EndFrameCall(frame: nat, critical: bool, result: string, success: bool)
      requires Valid()
      modifies this
      ensures Valid()
      ensures nextFrame == old(nextFrame)
      ensures trace == old(trace) + [EndFrame(frame, critical, result, success)]
    {
      trace := trace + [EndFrame(frame, critical, result, success)];
    }
  }

  /** The result text and success flag the frame is closed with: the
      value's result string and true on success, the error's debug text and
      false on failure. `resultText` and `debugText` stand for the `Resulty`
      rendering of a value and the `{:?}` rendering of an error. */
  function Report<T, E>(o: Outcome<T, E>, resultText: T -> string, debugText: E -> string): (r: (string, bool))
    ensures r.1 <==> o.Ok?
    ensures o.Ok? ==> r.0 == resultText(o.value)
    ensures o.Err? ==> r.0 == debugText(o.error)
  {
    match o
    case Ok(v) => (resultText(v), true)
    case Err(e) => (debugText(e), false)
  }

  method Observe<T, E>(ctx: FrameContext, tableName: string, critical: bool, closure: Outcome<T, E>,
                       resultText: T -> string, debugText: E -> string)
    returns (r: Outcome<T, E>)
    requires ctx.Valid()
    modifies ctx
    ensures ctx.Valid()
    ensures r == closure
    ensures ctx.nextFrame == old(ctx.nextFrame) + 1
    ensures ctx.trace == old(ctx.trace) + [
      StartFrame(tableName, old(ctx.nextFrame)),
      EndFrame(old(ctx.nextFrame), critical, Report(closure, resultText, debugText).0, closure.Ok?)]
  {
    var frame := ctx.StartFrameCall(tableName);
    var result: string := "";
    var success: bool;
    match closure {
      case Ok(res) =>
        result := resultText(res);
        success := true;
        ctx.EndFrameCall(frame, critical, result, success);
        r := Ok(res);
      case Err(e) =>
        result := debugText(e);
        success := false;
        ctx.EndFrameCall(frame, critical, result, success);
        r := Err(e);
    }
  }

  /** Two observes in a row run in two different frames. */
  method ObserveTwice<T, E>(ctx: FrameContext, first: Outcome<T, E>, second: Outcome<T, E>,
                            resultText: T -> string, debugText: E -> string)
    requires ctx.Valid()
    modifies ctx
    ensures ctx.Valid()
    ensures |ctx.trace| == |old(ctx.trace)| + 4
    ensures ctx.trace[|old(ctx.trace)|].frame != ctx.trace[|old(ctx.trace)| + 2].frame
  {
    var r1 := Observe(ctx, "first", false, first, resultText, debugText);
    var r2 := Observe(ctx, "second", false, second, resultText, debugText);
  }
}
