/** The span (frame) record that the context's stack holds: an id, the
    instant it started, an ordered list of timestamped items (log lines,
    fields, finished child spans), and the optional result, error and
    success that end it. Only the operations the context calls are here.
    Clock readings are nanoseconds on one clock, given by the caller. */
module Spans {
  import opened Wrappers
  import Text

  /** A clock reading, in nanoseconds. */
  type Instant = nat

  /** A length of time, in nanoseconds. */
  type Nanos = nat

  /** The JSON values a field can hold. `JOther` stands for any value whose
      JSON text is produced elsewhere (floating-point numbers, arrays,
      objects); it carries that text. */
  datatype FieldValue =
    | JString(s: string)
    | JNumber(n: int)
    | JBool(b: bool)
    | JNull
    | JOther(json: string)

  datatype Item =
    | Log(message: string)
    | Field(name: string, value: FieldValue)
    | Frame(span: Span)

  /** One item with its offset from the start of the span that owns it. */
  datatype Entry = Entry(offset: Nanos, item: Item)

  datatype Span = Span(
    id: string,
    createdOn: Instant,
    items: seq<Entry>,
    result: Option<string>,
    err: Option<string>,
    success: Option<bool>,
    ended: bool,
    duration: Nanos)

  /** Time from `start` to `now`; a clock reading before `start` counts as no time. */
  function Since(start: Instant, now: Instant): Nanos {
    if now >= start then now - start else 0
  }

  /** The JSON text of a value. */
  function JsonText(v: FieldValue): string {
    match v
    case JString(s) => "\"" + Text.EscapeJson(s) + "\""
    case JNumber(n) => Text.IntToString(n)
    case JBool(b) => if b then "true" else "false"
    case JNull => "null"
    case JOther(json) => json
  }

  function NewSpan(id: string, now: Instant): Span {
    Span(id, now, [], None, None, None, false, 0)
  }

  function SetId(s: Span, id: string): Span {
    s.(id := id)
  }

  function AddBreadcrumbs(s: Span, name: string, value: FieldValue, now: Instant): Span {
    s.(items := s.items + [Entry(Since(s.createdOn, now), Field(name, value))])
  }

  function AddLog(s: Span, message: string, now: Instant): Span {
    s.(items := s.items + [Entry(Since(s.createdOn, now), Log(message))])
  }

  /** `value` is the serialised text of the result. */
  function SetResult(s: Span, value: string): Span {
    s.(result := Some(value))
  }

  function SetSuccess(s: Span, success: bool): Span {
    s.(success := Some(success))
  }

  function SetErr(s: Span, err: Option<string>): Span {
    s.(err := err)
  }

  /** Freezes the duration; a span already ended keeps its first duration. */
  function End(s: Span, now: Instant): Span {
    if s.ended then s else s.(ended := true, duration := Since(s.createdOn, now))
  }

  /** Attaches a finished child, stamped with its start relative to this span's start. */
  function AddSubFrame(parent: Span, childCreatedOn: Instant, child: Span): Span {
    parent.(items := parent.items + [Entry(Since(parent.createdOn, childCreatedOn), Frame(child))])
  }

  /** What `end_span` does to the span it closes: success exactly when there
      is no error, that error recorded, the duration frozen. */
  function Close(s: Span, err: Option<string>, now: Instant): (c: Span)
    ensures c.success == Some(err.None?) && c.err == err && c.ended
    ensures c.id == s.id && c.createdOn == s.createdOn && c.items == s.items && c.result == s.result
    ensures s.ended ==> c.duration == s.duration
    ensures !s.ended ==> c.duration == Since(s.createdOn, now)
  {
    End(SetErr(SetSuccess(s, err.None?), err), now)
  }

  /** Ending is write-once: a second end changes nothing. */
  lemma EndIdempotent(s: Span, t1: Instant, t2: Instant)
    ensures End(End(s, t1), t2) == End(s, t1)
  {
  }
}
