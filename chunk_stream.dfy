/**
  The chunks `stream_chat_completion` yields for one request, and the buffer
  the turn builds from them with `assembled += chunk`. The filtering and the
  stop check do not depend on how a line is parsed, so they are stated for
  any line parser `parse`; the generator itself uses `_parse_stream_line`.
 */
module ChunkStream {
  import opened Wrappers
  import opened Json
  import opened Text
  import opened StreamLine

  /**
    One line as the streaming loop comes to it: whether `stop_requested` was
    set at that moment, and the line itself (`None` where the transport
    yields no line).
   */
  datatype Arrival = Arrival(stopRequested: bool, raw: Option<string>)

  /** The server's answer: the lines of a streamed body, or the decoded body of a plain one. */
  datatype Response = Lines(arrivals: seq<Arrival>) | Body(data: Json)

  /** `_parse_stream_line` with `json.loads` fixed. */
  function LineParser(decode: string -> Option<Json>): string -> Option<Json> {
    line => ParseStreamLine(line, decode)
  }

  /** What one line contributes: its parse result, when that is truthy (`if chunk:`). */
  function LineChunk(raw: Option<string>, parse: string -> Option<Json>): (r: Option<Json>)
    ensures r.Some? ==> Truthy(r.value)
  {
    match raw
    case None => None
    case Some(line) =>
      var chunk := parse(line);
      if chunk.Some? && Truthy(chunk.value) then chunk else None
  }

  /** The chunks a run of lines yields when the stop flag is never consulted. */
  function KeptChunks(arrivals: seq<Arrival>, parse: string -> Option<Json>): (r: seq<Json>)
    ensures |r| <= |arrivals|
    ensures forall c <- r :: Truthy(c)
    decreases |arrivals|
  {
    if arrivals == [] then []
    else
      var last := arrivals[|arrivals| - 1];
      KeptChunks(arrivals[..|arrivals| - 1], parse) +
      (match LineChunk(last.raw, parse) case Some(c) => [c] case None => [])
  }

  /** Index of the first line at which the stop flag is seen, or the number of lines. */
  function StopIndex(arrivals: seq<Arrival>): (r: nat)
    ensures r <= |arrivals|
    ensures forall j :: 0 <= j < r ==> !arrivals[j].stopRequested
    ensures r < |arrivals| ==> arrivals[r].stopRequested
    decreases |arrivals|
  {
    if arrivals == [] || arrivals[0].stopRequested then 0
    else 1 + StopIndex(arrivals[1..])
  }

  /** The loop met the stop flag: Stop was pressed by the time some line was read. */
  predicate StopSeen(resp: Response) {
    resp.Lines? && exists i :: 0 <= i < |resp.arrivals| && resp.arrivals[i].stopRequested
  }

  /** The stop flag is seen exactly when the loop breaks before the last line. */
  lemma {:induction false} StopSeenBreaks(resp: Response)
    ensures StopSeen(resp) <==> resp.Lines? && StopIndex(resp.arrivals) < |resp.arrivals|
  {
  }

  /** The chunks of the lines that arrive before the stop flag is first seen. */
  function Streamed(arrivals: seq<Arrival>, parse: string -> Option<Json>): seq<Json> {
    KeptChunks(arrivals[..StopIndex(arrivals)], parse)
  }

  /**
    Everything `stream_chat_completion` yields for a response: only truthy
    chunks, at most one per line read before the stop flag, and for a whole
    body at most its extracted content.
   */
  function Chunks(resp: Response, decode: string -> Option<Json>): (r: seq<Json>)
    ensures forall c <- r :: Truthy(c)
    ensures resp.Lines? ==> |r| <= StopIndex(resp.arrivals)
    ensures resp.Body? ==> |r| <= 1 && forall c <- r :: ExtractContent(resp.data) == Some(c)
  {
    match resp
    case Lines(arrivals) => Streamed(arrivals, LineParser(decode))
    case Body(data) =>
      var final := ExtractContent(data);
      if final.Some? && Truthy(final.value) then [final.value] else []
  }

  /**
    The generator, drained: in streaming mode a line is skipped when it is
    missing or parses to nothing truthy, and the loop ends at the first line
    where the stop flag is set; otherwise the body's content is the one chunk.
   */
  method StreamChatCompletion(resp: Response, decode: string -> Option<Json>) returns (chunks: seq<Json>)
    ensures chunks == Chunks(resp, decode)
  {
    match resp {
      case Lines(arrivals) =>
        chunks := StreamLines(arrivals, LineParser(decode));
      case Body(data) =>
        chunks := [];
        var final := ExtractContent(data);
        if final.Some? && Truthy(final.value) {
          chunks := [final.value];
        }
    }
  }

  /**
    The streaming branch: `for raw in resp.iter_lines()` with its stop
    check, each line handed to the line parser.
   */
  method StreamLines(arrivals: seq<Arrival>, parse: string -> Option<Json>) returns (chunks: seq<Json>)
    ensures chunks == Streamed(arrivals, parse)
  {
    chunks := [];
    var i := 0;
    assert arrivals[..0] == [];
    while i < |arrivals|
      invariant i <= StopIndex(arrivals)
      invariant chunks == KeptChunks(arrivals[..i], parse)
    {
      if arrivals[i].stopRequested {
        break;
      }
      KeptStep(arrivals, i, parse);
      var raw := arrivals[i].raw;
      if raw.Some? {
        var chunk := parse(raw.value);
        if chunk.Some? && Truthy(chunk.value) {
          chunks := chunks + [chunk.value];
        }
      }
      i := i + 1;
    }
  }

  lemma {:induction false} KeptStep(arrivals: seq<Arrival>, i: nat, parse: string -> Option<Json>)
    requires i < |arrivals|
    ensures KeptChunks(arrivals[..i + 1], parse) ==
      KeptChunks(arrivals[..i], parse) + (match LineChunk(arrivals[i].raw, parse) case Some(c) => [c] case None => [])
  {
    assert arrivals[..i + 1][..i] == arrivals[..i];
  }

  /** The stop index is pinned down by the first flag that is set. */
  lemma {:induction false} StopIndexIs(arrivals: seq<Arrival>, i: nat)
    requires i <= |arrivals|
    requires forall j :: 0 <= j < i ==> !arrivals[j].stopRequested
    requires i == |arrivals| || arrivals[i].stopRequested
    ensures StopIndex(arrivals) == i
  {
  }

  // ----- Properties of the stream -----

  /** Lines contribute their chunks in arrival order. */
  lemma {:induction false} KeptChunksAppend(a: seq<Arrival>, b: seq<Arrival>, parse: string -> Option<Json>)
    ensures KeptChunks(a + b, parse) == KeptChunks(a, parse) + KeptChunks(b, parse)
    decreases |b|
  {
    if b == [] {
      assert a + b == a;
    } else {
      var b' := b[..|b| - 1];
      assert (a + b)[..|a + b| - 1] == a + b';
      KeptChunksAppend(a, b', parse);
    }
  }

  /** A single line yields exactly its truthy parse result. */
  lemma {:induction false} OneLine(x: Arrival, parse: string -> Option<Json>)
    ensures KeptChunks([x], parse) == (match LineChunk(x.raw, parse) case Some(c) => [c] case None => [])
  {
    assert [x][..0] == [];
  }

  /** A gap in the transport (no line) changes nothing. */
  lemma {:induction false} GapSkipped(a: seq<Arrival>, flag: bool, b: seq<Arrival>, parse: string -> Option<Json>)
    ensures KeptChunks(a + [Arrival(flag, None)] + b, parse) == KeptChunks(a + b, parse)
  {
    KeptChunksAppend(a + [Arrival(flag, None)], b, parse);
    KeptChunksAppend(a, [Arrival(flag, None)], parse);
    KeptChunksAppend(a, b, parse);
    OneLine(Arrival(flag, None), parse);
  }

  /** A line that parses to something falsy, such as `""` or nothing, changes nothing. */
  lemma {:induction false} FalsyLineSkipped(a: seq<Arrival>, x: Arrival, b: seq<Arrival>, parse: string -> Option<Json>)
    requires x.raw.Some?
    requires parse(x.raw.value).None? || !Truthy(parse(x.raw.value).value)
    ensures KeptChunks(a + [x] + b, parse) == KeptChunks(a + b, parse)
  {
    calc {
      KeptChunks(a + [x] + b, parse);
    == { KeptChunksAppend(a + [x], b, parse); }
      KeptChunks(a + [x], parse) + KeptChunks(b, parse);
    == { KeptChunksAppend(a, [x], parse); OneLine(x, parse); assert KeptChunks(a, parse) + [] == KeptChunks(a, parse); }
      KeptChunks(a, parse) + KeptChunks(b, parse);
    == { KeptChunksAppend(a, b, parse); }
      KeptChunks(a + b, parse);
    }
  }

  /** A `[DONE]` line in the stream yields nothing. */
  lemma {:induction false} SentinelLineSkipped(a: seq<Arrival>, x: Arrival, b: seq<Arrival>, decode: string -> Option<Json>)
    requires x.raw.Some? && x.raw.value != [] && Trim(Payload(x.raw.value)) == "[DONE]"
    ensures KeptChunks(a + [x] + b, LineParser(decode)) == KeptChunks(a + b, LineParser(decode))
  {
    SentinelSkipped(x.raw.value, decode);
    assert LineParser(decode)(x.raw.value) == None;
    FalsyLineSkipped(a, x, b, LineParser(decode));
  }

  /** Before any stop flag, the stream yields every kept chunk of the lines, then goes on. */
  lemma {:induction false} StreamBeforeStop(a: seq<Arrival>, b: seq<Arrival>, parse: string -> Option<Json>)
    requires forall j :: 0 <= j < |a| ==> !a[j].stopRequested
    ensures Streamed(a + b, parse) == KeptChunks(a, parse) + Streamed(b, parse)
  {
    var s := StopIndex(b);
    StopIndexIs(a + b, |a| + s);
    assert (a + b)[..|a| + s] == a + b[..s];
    KeptChunksAppend(a, b[..s], parse);
  }

  /** Once the stop flag is seen, nothing that arrives later is yielded. */
  lemma {:induction false} NothingAfterStop(a: seq<Arrival>, b: seq<Arrival>, parse: string -> Option<Json>)
    requires exists j :: 0 <= j < |a| && a[j].stopRequested
    ensures Streamed(a + b, parse) == Streamed(a, parse)
  {
    var s := StopIndex(a);
    StopIndexIs(a + b, s);
    assert (a + b)[..s] == a[..s];
  }

  /** A stream in which the flag is never set yields the kept chunks of all its lines. */
  lemma {:induction false} NoStopYieldsAll(a: seq<Arrival>, parse: string -> Option<Json>)
    requires forall j :: 0 <= j < |a| ==> !a[j].stopRequested
    ensures Streamed(a, parse) == KeptChunks(a, parse)
  {
    StopIndexIs(a, |a|);
    assert a[..|a|] == a;
  }

  // ----- The turn buffer -----

  /**
    `assembled = ""` followed by `assembled += chunk` for every chunk: None
    where a chunk is not a str and Python raises TypeError.
   */
  function Concat(chunks: seq<Json>): (r: Option<string>)
    ensures r.Some? <==> forall c <- chunks :: c.JStr?
    decreases |chunks|
  {
    if chunks == [] then Some("")
    else
      var init := chunks[..|chunks| - 1];
      var last := chunks[|chunks| - 1];
      assert chunks == init + [last];
      assert forall c <- chunks :: c in init || c == last;
      match Concat(init)
      case None => None
      case Some(acc) => if last.JStr? then Some(acc + last.s) else None
  }

  /** The loop that builds `assembled`; it stops at the first chunk that is not text. */
  method AssembleReply(chunks: seq<Json>) returns (assembled: Option<string>)
    ensures assembled == Concat(chunks)
  {
    var acc := "";
    var i := 0;
    while i < |chunks|
      invariant i <= |chunks|
      invariant Concat(chunks[..i]) == Some(acc)
    {
      assert chunks[..i + 1][..i] == chunks[..i];
      if !chunks[i].JStr? {
        ConcatAbsorbs(chunks[..i + 1], chunks[i + 1..]);
        assert chunks[..i + 1] + chunks[i + 1..] == chunks;
        return None;
      }
      acc := acc + chunks[i].s;
      i := i + 1;
    }
    assert chunks[..i] == chunks;
    return Some(acc);
  }

  /** Text chunks concatenate; anything else fails the whole buffer. */
  lemma {:induction false} ConcatAppend(a: seq<Json>, b: seq<Json>)
    ensures Concat(a + b) ==
      (if Concat(a).Some? && Concat(b).Some? then Some(Concat(a).value + Concat(b).value) else None)
    decreases |b|
  {
    if b == [] {
      assert a + b == a;
      if Concat(a).Some? {
        assert Concat(a).value + "" == Concat(a).value;
      }
    } else {
      var b' := b[..|b| - 1];
      assert (a + b)[..|a + b| - 1] == a + b';
      ConcatAppend(a, b');
      if Concat(a).Some? && Concat(b').Some? && b[|b| - 1].JStr? {
        assert Concat(a).value + Concat(b').value + b[|b| - 1].s
            == Concat(a).value + (Concat(b').value + b[|b| - 1].s);
      }
    }
  }

  /** Once the buffer has failed, later chunks cannot repair it. */
  lemma {:induction false} ConcatAbsorbs(a: seq<Json>, b: seq<Json>)
    requires Concat(a).None?
    ensures Concat(a + b).None?
  {
    ConcatAppend(a, b);
  }

  /** Each text chunk lands in the buffer right after the one before it. */
  lemma {:induction false} ConcatOfTexts(a: seq<Json>, t: string)
    requires Concat(a).Some?
    ensures Concat(a + [JStr(t)]) == Some(Concat(a).value + t)
  {
    assert (a + [JStr(t)])[..|a|] == a;
  }
}
