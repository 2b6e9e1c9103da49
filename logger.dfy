/** The logger backend: a builder of output flags, the text rendering of a
    context's span tree, and the choice of what `context_ended` hands to the
    outputs. The rendering buffer is the sequence of strings pushed onto it
    (one `Piece` per `push_str`); a span's id is pushed with abstract style
    tags in place of terminal colour codes. */
module LoggerBackend {
  import opened Wrappers
  import opened Text
  import opened Spans
  import opened Elapsed
  import Contexts
  import SpanStack

  /** Indentation added per nesting level. */
  const Space: nat := 4

  // ----- the builder -----

  datatype Logger = Logger(path: Option<string>, stdout: bool, stderr: bool)

  function Builder(): (l: Logger)
    ensures l.path == None && !l.stdout && !l.stderr
  {
    Logger(None, false, false)
  }

  function WithStdout(l: Logger): (r: Logger)
    ensures r.stdout && r.path == l.path && r.stderr == l.stderr
  {
    l.(stdout := true)
  }

  function WithStderr(l: Logger): (r: Logger)
    ensures r.stderr && r.path == l.path && r.stdout == l.stdout
  {
    l.(stderr := true)
  }

  function WithPath(l: Logger, path: string): (r: Logger)
    ensures r.path == Some(path) && r.stdout == l.stdout && r.stderr == l.stderr
  {
    l.(path := Some(path))
  }

  /** Each `with_*` touches its own flag only, so their order does not matter. */
  lemma BuilderCallsCommute(l: Logger, path: string)
    ensures WithStdout(WithStderr(l)) == WithStderr(WithStdout(l))
    ensures WithStdout(WithPath(l, path)) == WithPath(WithStdout(l), path)
    ensures WithStderr(WithPath(l, path)) == WithPath(WithStderr(l), path)
  {
  }

  // ----- decoration -----

  datatype Emphasis = Regular | Underline | Bold

  /** `slow` picks the colour for a span that took longer than a millisecond;
      the emphasis marks a failed span (underline) or one never closed (bold). */
  datatype Style = Style(slow: bool, emphasis: Emphasis)

  function HeaderStyle(s: Span): (st: Style)
    ensures st.slow <==> s.duration > 1_000_000
    ensures st.emphasis == Underline <==> s.success == Some(false)
    ensures st.emphasis == Bold <==> s.success == None
    ensures st.emphasis == Regular <==> s.success == Some(true)
  {
    var emphasis := match s.success
      case Some(ok) => if ok then Regular else Underline
      case None => Bold;
    Style(s.duration > 1_000_000, emphasis)
  }

  /** A field's value as it is printed: a string's characters without the
      quotes and escapes of its JSON text, any other value as its JSON text. */
  function FieldText(v: FieldValue): string {
    if v.JString? then v.s else JsonText(v)
  }

  lemma FieldTextVersusJson(v: FieldValue)
    ensures FieldText(v) == JsonText(v) <==> !v.JString?
    ensures v.JString? ==> FieldText(v) == v.s
  {
    if v.JString? {
      assert |JsonText(v)| >= |v.s| + 2;
    }
  }

  // ----- rendering a span -----

  /** One `push_str` onto the buffer, by what it formats; `PieceText` gives
      its characters. Durations and offsets are kept in nanoseconds and shown
      through `elapsed`. */
  datatype Piece =
    | ContextLine(contextId: string, createdOnRfc3339: string)
    | Header(id: string, style: Style, duration: Nanos)
    | LogLine(pad: nat, offset: Nanos, message: string)
    | FieldLine(pad: nat, offset: Nanos, name: string, value: FieldValue)
    | FrameLead(pad: nat, offset: Nanos)
    | ResultLine(pad: nat, result: string)
    | ErrorLine(pad: nat, err: string)

  /** The characters of a piece; a header's id is shown in its style, which
      this text leaves out. */
  function PieceText(p: Piece): (r: string)
    ensures |r| >= 1 && (r[|r| - 1] == '\n' <==> !(p.ContextLine? || p.FrameLead?))
  {
    match p
    case ContextLine(id, createdOn) => "context: " + id + " [" + createdOn + "] "
    case Header(id, _, duration) => id + ": " + ElapsedOf(duration) + "\n"
    case LogLine(pad, offset, message) => Spaces(pad) + "- " + ElapsedOf(offset) + ": " + message + "\n"
    case FieldLine(pad, offset, name, value) => Spaces(pad) + "- " + ElapsedOf(offset) + ": " + name + "=" + FieldText(value) + "\n"
    case FrameLead(pad, offset) => Spaces(pad) + "- " + ElapsedOf(offset) + ": "
    case ResultLine(pad, result) => Spaces(pad) + "result: " + result + "\n"
    case ErrorLine(pad, err) => Spaces(pad) + "error: " + err + "\n"
  }

  /** The indentation a piece starts with; a span header follows its lead
      on the same line, and the context line starts the text. */
  function Indent(p: Piece): nat {
    match p
    case ContextLine(_, _) => 0
    case Header(_, _, _) => 0
    case LogLine(pad, _, _) => pad
    case FieldLine(pad, _, _, _) => pad
    case FrameLead(pad, _) => pad
    case ResultLine(pad, _) => pad
    case ErrorLine(pad, _) => pad
  }

  /** A piece's text starts with its indentation's worth of spaces, and,
      past them, a piece other than a header (whose id comes first) does not
      start with a space. */
  lemma PieceTextIndent(p: Piece)
    ensures var t := PieceText(p);
      |t| > Indent(p) && (forall i :: 0 <= i < Indent(p) ==> t[i] == ' ') && (!p.Header? ==> t[Indent(p)] != ' ')
  {
    var t := PieceText(p);
    var k := Indent(p);
    if !(p.ContextLine? || p.Header?) {
      RepeatChars(' ', k);
      assert t[..k] == Spaces(k);
      assert t[k] == (if p.ResultLine? then 'r' else if p.ErrorLine? then 'e' else '-');
    }
  }

  function HeaderOf(span: Span): Piece {
    Header(span.id, HeaderStyle(span), span.duration)
  }

  function ResultPieces(span: Span, space: nat): seq<Piece> {
    if span.result.Some? then [ResultLine(Space + space - 2, span.result.value)] else []
  }

  function ErrorPieces(span: Span, space: nat): seq<Piece> {
    if span.err.Some? then [ErrorLine(Space + space - 2, span.err.value)] else []
  }

  /** What `print_span` pushes for `span` at indentation `space`. */
  function SpanPieces(span: Span, space: nat): seq<Piece>
    decreases span, 1
  {
    [HeaderOf(span)] + ItemsPieces(span, |span.items|, space) + ResultPieces(span, space) + ErrorPieces(span, space)
  }

  /** What `print_span` pushes for the first `n` items of `span`. */
  function ItemsPieces(span: Span, n: nat, space: nat): seq<Piece>
    requires n <= |span.items|
    decreases span, 0, n
  {
    if n == 0 then [] else ItemsPieces(span, n - 1, space) + ItemPieces(span, n - 1, space)
  }

  /** What `print_span` pushes for item `i` of `span`: one line for a log
      or a field, the lead and then the nested rendering for a sub-span. */
  function ItemPieces(span: Span, i: nat, space: nat): seq<Piece>
    requires i < |span.items|
    decreases span, 0, 0
  {
    var e := span.items[i];
    match e.item
    case Log(message) => [LogLine(space, e.offset, message)]
    case Field(name, value) => [FieldLine(space, e.offset, name, value)]
    case Frame(inner) => [FrameLead(space, e.offset)] + SpanPieces(inner, space + Space)
  }

  /** `print_span`: appends the rendering of `span` to `buffer`. */
  method PrintSpan(buffer: seq<Piece>, span: Span, space: nat) returns (out: seq<Piece>)
    ensures out == buffer + SpanPieces(span, space)
    decreases span
  {
    out := buffer + [HeaderOf(span)];
    for i := 0 to |span.items|
      invariant out == buffer + [HeaderOf(span)] + ItemsPieces(span, i, space)
    {
      ghost var before := out;
      var e := span.items[i];
      match e.item {
        case Log(message) =>
          out := out + [LogLine(space, e.offset, message)];
        case Field(name, value) =>
          out := out + [FieldLine(space, e.offset, name, value)];
        case Frame(inner) =>
          out := out + [FrameLead(space, e.offset)];
          out := PrintSpan(out, inner, space + Space);
          AppendAssoc(before, [FrameLead(space, e.offset)], SpanPieces(inner, space + Space));
      }
      assert out == before + ItemPieces(span, i, space);
      AppendAssoc(buffer + [HeaderOf(span)], ItemsPieces(span, i, space), ItemPieces(span, i, space));
    }
    ghost var body := out;
    if span.result.Some? {
      out := out + [ResultLine(Space + space - 2, span.result.value)];
    }
    assert out == body + ResultPieces(span, space);
    ghost var withResult := out;
    if span.err.Some? {
      out := out + [ErrorLine(Space + space - 2, span.err.value)];
    }
    assert out == withResult + ErrorPieces(span, space);
    SpanPiecesAssoc(buffer, span, space);
  }

  lemma AppendAssoc(a: seq<Piece>, b: seq<Piece>, c: seq<Piece>)
    ensures a + b + c == a + (b + c)
  {
  }

  /** The rendering of a span appended to a buffer, part by part. */
  lemma SpanPiecesAssoc(buffer: seq<Piece>, span: Span, space: nat)
    ensures buffer + [HeaderOf(span)] + ItemsPieces(span, |span.items|, space) + ResultPieces(span, space) + ErrorPieces(span, space)
      == buffer + SpanPieces(span, space)
  {
    var h, items, res, err := [HeaderOf(span)], ItemsPieces(span, |span.items|, space), ResultPieces(span, space), ErrorPieces(span, space);
    AppendAssoc(buffer, h, items);
    AppendAssoc(buffer, h + items, res);
    AppendAssoc(buffer, h + items + res, err);
  }

  /** The header comes first; the result line and then the error line come
      last, two columns right of the span's own items. */
  lemma SpanLayout(span: Span, space: nat)
    ensures var ps := SpanPieces(span, space);
      |ps| >= 1 && ps[0] == HeaderOf(span) &&
      (span.err.Some? ==> ps[|ps| - 1] == ErrorLine(space + 2, span.err.value)) &&
      (span.err.None? && span.result.Some? ==> ps[|ps| - 1] == ResultLine(space + 2, span.result.value)) &&
      (span.err.Some? && span.result.Some? ==> ps[|ps| - 2] == ResultLine(space + 2, span.result.value)) &&
      (span.items == [] && span.result.None? && span.err.None? ==> ps == [HeaderOf(span)])
  {
  }

  // ----- indentation is relative -----

  function ShiftPiece(p: Piece, k: nat): (r: Piece)
    ensures p.ContextLine? || p.Header? ==> r == p
  {
    match p
    case ContextLine(_, _) => p
    case Header(_, _, _) => p
    case LogLine(pad, offset, message) => LogLine(pad + k, offset, message)
    case FieldLine(pad, offset, name, value) => FieldLine(pad + k, offset, name, value)
    case FrameLead(pad, offset) => FrameLead(pad + k, offset)
    case ResultLine(pad, result) => ResultLine(pad + k, result)
    case ErrorLine(pad, err) => ErrorLine(pad + k, err)
  }

  /** Every indented piece moved `k` columns right. */
  function Shift(ps: seq<Piece>, k: nat): (r: seq<Piece>)
    ensures |r| == |ps|
    ensures forall i :: 0 <= i < |ps| ==> r[i] == ShiftPiece(ps[i], k)
  {
    seq(|ps|, i requires 0 <= i < |ps| => ShiftPiece(ps[i], k))
  }

  lemma ShiftAppend(a: seq<Piece>, b: seq<Piece>, k: nat)
    ensures Shift(a + b, k) == Shift(a, k) + Shift(b, k)
  {
  }

  /** Rendering `k` columns further right is the same rendering with every
      indented piece shifted by `k`: each nesting level adds exactly four. */
  lemma {:induction false} SpanPiecesShift(span: Span, space: nat, k: nat)
    ensures SpanPieces(span, space + k) == Shift(SpanPieces(span, space), k)
    decreases span, 1
  {
    var h := [HeaderOf(span)];
    var items := ItemsPieces(span, |span.items|, space);
    var res, err := ResultPieces(span, space), ErrorPieces(span, space);
    ItemsPiecesShift(span, |span.items|, space, k);
    assert ResultPieces(span, space + k) == Shift(res, k);
    assert ErrorPieces(span, space + k) == Shift(err, k);
    assert Shift(h, k) == h;
    ShiftAppend(h, items, k);
    ShiftAppend(h + items, res, k);
    ShiftAppend(h + items + res, err, k);
  }

  lemma {:induction false} ItemsPiecesShift(span: Span, n: nat, space: nat, k: nat)
    requires n <= |span.items|
    ensures ItemsPieces(span, n, space + k) == Shift(ItemsPieces(span, n, space), k)
    decreases span, 0, n
  {
    if n > 0 {
      ItemsPiecesShift(span, n - 1, space, k);
      ItemPiecesShift(span, n - 1, space, k);
      ShiftAppend(ItemsPieces(span, n - 1, space), ItemPieces(span, n - 1, space), k);
    }
  }

  lemma {:induction false} ItemPiecesShift(span: Span, i: nat, space: nat, k: nat)
    requires i < |span.items|
    ensures ItemPieces(span, i, space + k) == Shift(ItemPieces(span, i, space), k)
    decreases span, 0, 0
  {
    var e := span.items[i];
    if e.item.Frame? {
      var inner := e.item.span;
      var lead := [FrameLead(space, e.offset)];
      SpanPiecesShift(inner, space + Space, k);
      assert space + k + Space == space + Space + k;
      ShiftAppend(lead, SpanPieces(inner, space + Space), k);
    }
  }

  /** Every piece of a span rendered at `space` that starts a line after the
      header is at least `space` columns in, and the number of pieces does
      not depend on `space`. */
  lemma IndentAtLeast(span: Span, space: nat)
    ensures |SpanPieces(span, space)| == |SpanPieces(span, 0)|
    ensures forall i :: 0 < i < |SpanPieces(span, space)| && !SpanPieces(span, space)[i].Header? ==>
      Indent(SpanPieces(span, space)[i]) >= space
  {
    SpanPiecesShift(span, 0, space);
    var ps := SpanPieces(span, 0);
    forall i | 0 < i < |ps| && !ps[i].Header?
      ensures Indent(ShiftPiece(ps[i], space)) >= space
    {
      NoContextLineInSpan(span, 0, i);
    }
  }

  /** A span's rendering never contains the context line. */
  lemma NoContextLineInSpan(span: Span, space: nat, i: nat)
    requires i < |SpanPieces(span, space)|
    ensures !SpanPieces(span, space)[i].ContextLine?
  {
    NoContextLines(span, space);
  }

  ghost predicate NoContext(ps: seq<Piece>) {
    forall i :: 0 <= i < |ps| ==> !ps[i].ContextLine?
  }

  lemma {:induction false} NoContextLines(span: Span, space: nat)
    ensures NoContext(SpanPieces(span, space))
    decreases span, 1
  {
    NoContextLinesItems(span, |span.items|, space);
  }

  lemma {:induction false} NoContextLinesItems(span: Span, n: nat, space: nat)
    requires n <= |span.items|
    ensures NoContext(ItemsPieces(span, n, space))
    decreases span, 0, n
  {
    if n > 0 {
      NoContextLinesItems(span, n - 1, space);
      NoContextLinesItem(span, n - 1, space);
    }
  }

  lemma {:induction false} NoContextLinesItem(span: Span, i: nat, space: nat)
    requires i < |span.items|
    ensures NoContext(ItemPieces(span, i, space))
    decreases span, 0, 0
  {
    var e := span.items[i];
    if e.item.Frame? {
      NoContextLines(e.item.span, space + Space);
    }
  }

  // ----- the headers follow the tree -----

  /** The ids of the header pieces, in order. */
  function Headers(ps: seq<Piece>): seq<string> {
    HeadersUpTo(ps, |ps|)
  }

  /** The ids of the header pieces among the first `n`. */
  function HeadersUpTo(ps: seq<Piece>, n: nat): seq<string>
    requires n <= |ps|
  {
    if n == 0 then []
    else HeadersUpTo(ps, n - 1) + (if ps[n - 1].Header? then [ps[n - 1].id] else [])
  }

  /** Only the first `n` pieces matter. */
  lemma {:induction false} HeadersUpToPrefix(a: seq<Piece>, b: seq<Piece>, n: nat)
    requires n <= |a|
    ensures HeadersUpTo(a + b, n) == HeadersUpTo(a, n)
  {
    if n > 0 {
      HeadersUpToPrefix(a, b, n - 1);
      assert (a + b)[n - 1] == a[n - 1];
    }
  }

  lemma {:induction false} HeadersUpToAppend(a: seq<Piece>, b: seq<Piece>, k: nat)
    requires k <= |b|
    ensures HeadersUpTo(a + b, |a| + k) == Headers(a) + HeadersUpTo(b, k)
  {
    if k == 0 {
      HeadersUpToPrefix(a, b, |a|);
    } else {
      HeadersUpToAppend(a, b, k - 1);
      assert (a + b)[|a| + k - 1] == b[k - 1];
    }
  }

  lemma HeadersAppend(a: seq<Piece>, b: seq<Piece>)
    ensures Headers(a + b) == Headers(a) + Headers(b)
  {
    HeadersUpToAppend(a, b, |b|);
  }

  lemma HeadersStep(a: seq<Piece>, b: seq<Piece>, ha: seq<string>, hb: seq<string>)
    requires Headers(a) == ha && Headers(b) == hb
    ensures Headers(a + b) == ha + hb
  {
    HeadersAppend(a, b);
  }

  lemma HeadersOne(p: Piece)
    ensures Headers([p]) == if p.Header? then [p.id] else []
  {
    assert HeadersUpTo([p], 1) == HeadersUpTo([p], 0) + (if p.Header? then [p.id] else []);
  }

  /** The ids of a span tree, each span before its children, children in
      the order they were recorded. */
  function Preorder(span: Span): seq<string>
    decreases span, 1
  {
    [span.id] + PreorderItems(span, |span.items|)
  }

  function PreorderItems(span: Span, n: nat): seq<string>
    requires n <= |span.items|
    decreases span, 0, n
  {
    if n == 0 then [] else PreorderItems(span, n - 1) + PreorderItem(span, n - 1)
  }

  /** The ids item `i` contributes: a sub-span's tree, nothing otherwise. */
  function PreorderItem(span: Span, i: nat): seq<string>
    requires i < |span.items|
    decreases span, 0, 0
  {
    if span.items[i].item.Frame? then Preorder(span.items[i].item.span) else []
  }

  /** The headers of a whole span's parts. */
  lemma HeadersOfParts(h: seq<Piece>, items: seq<Piece>, res: seq<Piece>, err: seq<Piece>)
    ensures Headers(h + items + res + err) == Headers(h) + Headers(items) + Headers(res) + Headers(err)
  {
    HeadersAppend(h + items + res, err);
    HeadersAppend(h + items, res);
    HeadersAppend(h, items);
  }

  /** A piece list of at most one piece that is not a header has no headers. */
  lemma NoHeaderInShort(ps: seq<Piece>)
    requires |ps| <= 1
    requires forall i :: 0 <= i < |ps| ==> !ps[i].Header?
    ensures Headers(ps) == []
  {
    if ps != [] {
      HeadersOne(ps[0]);
      assert ps == [ps[0]];
    }
  }

  /** Every span of the tree is printed once, in tree order, and nothing else
      is printed as a header. */
  lemma {:induction false} HeadersArePreorder(span: Span, space: nat)
    ensures Headers(SpanPieces(span, space)) == Preorder(span)
    decreases span, 1
  {
    HeadersOfParts([HeaderOf(span)], ItemsPieces(span, |span.items|, space), ResultPieces(span, space), ErrorPieces(span, space));
    HeadersOne(HeaderOf(span));
    NoHeaderInShort(ResultPieces(span, space));
    NoHeaderInShort(ErrorPieces(span, space));
    ItemsHeadersArePreorder(span, |span.items|, space);
  }

  lemma {:induction false} ItemsHeadersArePreorder(span: Span, n: nat, space: nat)
    requires n <= |span.items|
    ensures Headers(ItemsPieces(span, n, space)) == PreorderItems(span, n)
    decreases span, 0, n
  {
    if n > 0 {
      ItemsHeadersArePreorder(span, n - 1, space);
      ItemHeadersArePreorder(span, n - 1, space);
      HeadersAppend(ItemsPieces(span, n - 1, space), ItemPieces(span, n - 1, space));
    }
  }

  lemma {:induction false} ItemHeadersArePreorder(span: Span, i: nat, space: nat)
    requires i < |span.items|
    ensures Headers(ItemPieces(span, i, space)) == PreorderItem(span, i)
    decreases span, 0, 0
  {
    var e := span.items[i];
    if e.item.Frame? {
      var lead := [FrameLead(space, e.offset)];
      HeadersAppend(lead, SpanPieces(e.item.span, space + Space));
      HeadersOne(lead[0]);
      HeadersArePreorder(e.item.span, space + Space);
    } else {
      NoHeaderInShort(ItemPieces(span, i, space));
    }
  }

  // ----- rendering a context -----

  /** What `print_span` pushes for the first `n` spans of the stack, bottom first. */
  function StackPieces(st: SpanStack.Stack, n: nat): seq<Piece>
    requires n <= |st|
  {
    if n == 0 then [] else StackPieces(st, n - 1) + SpanPieces(st[n - 1], 0)
  }

  /** The ids of every tree on the stack, bottom of the stack first. */
  function StackPreorder(st: SpanStack.Stack, n: nat): seq<string>
    requires n <= |st|
  {
    if n == 0 then [] else StackPreorder(st, n - 1) + Preorder(st[n - 1])
  }

  /** `print_context`: the context line, then every span on the stack in
      stack order, each at indentation 0. `createdOnRfc3339` is the RFC 3339
      text of the context's creation instant. */
  method PrintContext(ctx: Contexts.Context, createdOnRfc3339: string) returns (buffer: seq<Piece>)
    ensures buffer == [ContextLine(ctx.id, createdOnRfc3339)] + StackPieces(ctx.spanStack, |ctx.spanStack|)
  {
    buffer := [ContextLine(ctx.id, createdOnRfc3339)];
    for i := 0 to |ctx.spanStack|
      invariant buffer == [ContextLine(ctx.id, createdOnRfc3339)] + StackPieces(ctx.spanStack, i)
    {
      buffer := PrintSpan(buffer, ctx.spanStack[i], 0);
    }
  }

  /** The headers of a printed stack are the stack's trees in order. */
  lemma {:induction false} StackHeaders(st: SpanStack.Stack, n: nat)
    requires n <= |st|
    ensures Headers(StackPieces(st, n)) == StackPreorder(st, n)
  {
    if n > 0 {
      StackHeaders(st, n - 1);
      HeadersArePreorder(st[n - 1], 0);
      HeadersStep(StackPieces(st, n - 1), SpanPieces(st[n - 1], 0), StackPreorder(st, n - 1), Preorder(st[n - 1]));
    }
  }

  // ----- context_ended -----

  /** `context_ended`: the rendered context when standard output or a log
      file is configured, the empty text otherwise; and which of the two
      outputs receive it. The stderr flag plays no part. */
  method ContextEnded(l: Logger, ctx: Contexts.Context, createdOnRfc3339: string)
    returns (log: seq<Piece>, toFile: bool, toStdout: bool)
    ensures toFile == l.path.Some? && toStdout == l.stdout
    ensures log == [] <==> !l.stdout && l.path.None?
    ensures log != [] ==> log == [ContextLine(ctx.id, createdOnRfc3339)] + StackPieces(ctx.spanStack, |ctx.spanStack|)
  {
    if l.stdout || l.path.Some? {
      log := PrintContext(ctx, createdOnRfc3339);
    } else {
      log := [];
    }
    toFile := l.path.Some?;
    toStdout := l.stdout;
  }
}
