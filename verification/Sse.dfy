/**
  Server-Sent Events between the API and the page: the printer of one event, and the incremental
  reader of the stream. The subset of sections 9.2.5 and 9.2.6 of the WHATWG HTML standard used
  here ends lines with a line feed only. Chunks are taken as already decoded text.
*/
module Sse {
  import opened Wrappers
  import opened Lists

  datatype Event = Event(name: string, data: string)

  /** What a dispatched frame hands to the page. */
  datatype Delivery = OnStep(data: string) | OnResult(data: string)

  // ---------- The printer ----------

  function PrintEvent(e: Event): string {
    "event: " + e.name + "\ndata: " + e.data + "\n\n"
  }

  function PrintAll(events: seq<Event>): string {
    if events == [] then "" else PrintEvent(events[0]) + PrintAll(events[1..])
  }

  // ---------- The reader, as functions of the text ----------

  const BOUNDARY := "\n\n"

  ghost predicate BoundaryAt(s: string, i: int) {
    0 <= i && i + 2 <= |s| && s[i] == '\n' && s[i + 1] == '\n'
  }

  /** `buffer.indexOf("\n\n")`. */
  function IndexOfBoundary(s: string): (r: int)
    ensures r == -1 || (0 <= r && r + 2 <= |s|)
  {
    FindBoundary(s, 0)
  }

  function FindBoundary(s: string, from: nat): (r: int)
    requires from <= |s|
    ensures r == -1 || (from <= r && r + 2 <= |s|)
    decreases |s| - from
  {
    if from + 2 > |s| then -1
    else if s[from] == '\n' && s[from + 1] == '\n' then from
    else FindBoundary(s, from + 1)
  }

  /** What `indexOf` finds is the first blank line, and it finds one whenever there is one. */
  ghost predicate IsFirstBoundary(s: string, from: int, r: int) {
    if r == -1 then forall i :: from <= i ==> !BoundaryAt(s, i)
    else BoundaryAt(s, r) && forall i :: from <= i < r ==> !BoundaryAt(s, i)
  }

  lemma {:induction false} FindsFirstBoundary(s: string, from: nat)
    requires from <= |s|
    ensures IsFirstBoundary(s, from, FindBoundary(s, from))
    decreases |s| - from
  {
    if from + 2 <= |s| && !(s[from] == '\n' && s[from + 1] == '\n') {
      FindsFirstBoundary(s, from + 1);
    }
  }

  lemma FirstBoundaryIs(s: string, r: int)
    requires IsFirstBoundary(s, 0, r)
    ensures IndexOfBoundary(s) == r
  {
    FindsFirstBoundary(s, 0);
  }

  /** The complete frames of a buffer, in order. */
  function Frames(s: string): seq<string>
    decreases |s|
  {
    var i := IndexOfBoundary(s);
    if i == -1 then [] else [s[..i]] + Frames(s[i + 2..])
  }

  /** What is left of a buffer after its complete frames. */
  function Leftover(s: string): string
    decreases |s|
  {
    var i := IndexOfBoundary(s);
    if i == -1 then s else Leftover(s[i + 2..])
  }

  /** `frame.split("\n")`. */
  function Lines(s: string): (r: seq<string>)
    ensures r != []
  {
    if s == "" then [""]
    else if s[0] == '\n' then [""] + Lines(s[1..])
    else var rest := Lines(s[1..]); [[s[0]] + rest[0]] + rest[1..]
  }

  /** Whitespace and line terminators as ECMAScript trims them. */
  predicate IsTrimmed(c: char) {
    || '\U{0009}' <= c <= '\U{000D}' || c == ' ' || c == '\U{00A0}' || c == '\U{1680}'
    || '\U{2000}' <= c <= '\U{200A}' || c == '\U{2028}' || c == '\U{2029}' || c == '\U{202F}'
    || c == '\U{205F}' || c == '\U{3000}' || c == '\U{FEFF}'
  }

  function TrimLeft(s: string): string {
    if s != "" && IsTrimmed(s[0]) then TrimLeft(s[1..]) else s
  }

  function TrimRight(s: string): string {
    if s != "" && IsTrimmed(s[|s| - 1]) then TrimRight(s[..|s| - 1]) else s
  }

  function Trim(s: string): string {
    TrimRight(TrimLeft(s))
  }

  predicate StartsWith(s: string, prefix: string) {
    |prefix| <= |s| && s[..|prefix|] == prefix
  }

  const EVENT_FIELD := "event:"
  const DATA_FIELD := "data:"

  /** One line folded into the frame's event name and data. */
  function ReadLine(e: Event, line: string): Event {
    if StartsWith(line, EVENT_FIELD) then e.(name := Trim(line[6..]))
    else if StartsWith(line, DATA_FIELD) then e.(data := e.data + Trim(line[5..]))
    else e
  }

  function ReadLines(lines: seq<string>): Event {
    if lines == [] then Event("message", "")
    else ReadLine(ReadLines(lines[..|lines| - 1]), lines[|lines| - 1])
  }

  /** The delivery a frame amounts to: nothing without data or under another name. */
  function Deliver(e: Event): seq<Delivery> {
    if e.data == "" then []
    else if e.name == "result" then [OnResult(e.data)]
    else if e.name == "step" then [OnStep(e.data)]
    else []
  }

  function Deliveries(frames: seq<string>): seq<Delivery> {
    if frames == [] then []
    else Deliveries(frames[..|frames| - 1]) + Deliver(ReadLines(Lines(frames[|frames| - 1])))
  }

  // ---------- The reader, as the code runs it ----------

  method ParseFrame(frame: string) returns (e: Event)
    ensures e == ReadLines(Lines(frame))
  {
    var name, data := "message", "";
    var lines := Lines(frame);
    for n := 0 to |lines|
      invariant Event(name, data) == ReadLines(lines[..n])
    {
      var line := lines[n];
      assert lines[..n + 1][..n] == lines[..n] && lines[..n + 1][n] == line;
      if StartsWith(line, EVENT_FIELD) {
        name := Trim(line[6..]);
      } else if StartsWith(line, DATA_FIELD) {
        data := data + Trim(line[5..]);
      }
    }
    assert lines[..|lines|] == lines;
    e := Event(name, data);
  }

  /** The page's side of a stream: the text not yet framed and what was handed on so far. */
  class Reader {
    var buffer: string
    var delivered: seq<Delivery>

    constructor ()
      ensures buffer == "" && delivered == []
    {
      buffer, delivered := "", [];
    }

    method Dispatch(frame: string)
      modifies this`delivered
      ensures delivered == old(delivered) + Deliver(ReadLines(Lines(frame)))
    {
      var e := ParseFrame(frame);
      if e.data == "" { return; }
      if e.name == "result" {
        delivered := delivered + [OnResult(e.data)];
      } else if e.name == "step" {
        delivered := delivered + [OnStep(e.data)];
      }
    }

    /** Adds one chunk and dispatches every frame it completes. */
    method Feed(chunk: string)
      modifies this
      ensures buffer == Leftover(old(buffer) + chunk)
      ensures delivered == old(delivered) + Deliveries(Frames(old(buffer) + chunk))
    {
      ghost var text := buffer + chunk;
      ghost var done: seq<string> := [];
      buffer := buffer + chunk;
      FramesBefore(buffer);
      var boundary := IndexOfBoundary(buffer);
      while boundary != -1
        invariant boundary == IndexOfBoundary(buffer)
        invariant Partway(text, done, buffer)
        invariant delivered == old(delivered) + Deliveries(done)
        decreases |buffer|
      {
        var frame := buffer[..boundary];
        FramesStep(text, done, buffer);
        DeliveriesStep(done, frame);
        AppendAssociates(old(delivered), Deliveries(done), Deliver(ReadLines(Lines(frame))));
        Dispatch(frame);
        buffer := buffer[boundary + 2..];
        done := done + [frame];
        boundary := IndexOfBoundary(buffer);
      }
      FramesAfter(text, done, buffer);
    }
  }

  /** The frames of `text` are the `done` ones, then those still in `buffer`. */
  ghost predicate Partway(text: string, done: seq<string>, buffer: string) {
    Frames(text) == done + Frames(buffer) && Leftover(text) == Leftover(buffer)
  }

  lemma FramesBefore(text: string)
    ensures Partway(text, [], text)
  {
    assert [] + Frames(text) == Frames(text);
  }

  lemma FramesStep(text: string, done: seq<string>, buffer: string)
    requires Partway(text, done, buffer) && IndexOfBoundary(buffer) != -1
    ensures var i := IndexOfBoundary(buffer);
      Partway(text, done + [buffer[..i]], buffer[i + 2..])
  {
    var i := IndexOfBoundary(buffer);
    AppendAssociates(done, [buffer[..i]], Frames(buffer[i + 2..]));
  }

  lemma FramesAfter(text: string, done: seq<string>, buffer: string)
    requires Partway(text, done, buffer) && IndexOfBoundary(buffer) == -1
    ensures Frames(text) == done && Leftover(text) == buffer
  {
    assert done + [] == done;
  }

  lemma DeliveriesStep(frames: seq<string>, last: string)
    ensures Deliveries(frames + [last]) == Deliveries(frames) + Deliver(ReadLines(Lines(last)))
  {
    assert (frames + [last])[..|frames|] == frames;
  }

  lemma {:induction false} DeliveriesConcat(a: seq<string>, b: seq<string>)
    ensures Deliveries(a + b) == Deliveries(a) + Deliveries(b)
  {
    if b == [] {
      assert a + b == a;
    } else {
      var init, last := b[..|b| - 1], b[|b| - 1];
      assert b == init + [last] && a + b == (a + init) + [last];
      DeliveriesConcat(a, init);
      DeliveriesStep(a + init, last);
      DeliveriesStep(init, last);
    }
  }

  // ---------- Any chunking gives the same frames ----------

  lemma BoundaryStays(a: string, b: string)
    requires IndexOfBoundary(a) != -1
    ensures IndexOfBoundary(a + b) == IndexOfBoundary(a)
  {
    var i := IndexOfBoundary(a);
    FindsFirstBoundary(a, 0);
    assert BoundaryAt(a + b, i);
    assert forall k :: 0 <= k < i && BoundaryAt(a + b, k) ==> BoundaryAt(a, k);
    FirstBoundaryIs(a + b, i);
  }

  /** Reading the head of a text first changes nothing: what it leaves joins what follows. */
  lemma {:induction false} HeadFirst(a: string, b: string)
    ensures Frames(a + b) == Frames(a) + Frames(Leftover(a) + b)
    ensures Leftover(a + b) == Leftover(Leftover(a) + b)
    decreases |a|
  {
    var i := IndexOfBoundary(a);
    if i != -1 {
      BoundaryStays(a, b);
      assert (a + b)[..i] == a[..i] && (a + b)[i + 2..] == a[i + 2..] + b;
      HeadFirst(a[i + 2..], b);
      AppendAssociates([a[..i]], Frames(a[i + 2..]), Frames(Leftover(a) + b));
    }
  }

  /** Reads a whole stream chunk by chunk, as the page does; what no blank line ended is dropped. */
  method Consume(chunks: seq<string>) returns (delivered: seq<Delivery>, leftover: string)
    ensures delivered == Deliveries(Frames(Joined(chunks)))
    ensures leftover == Leftover(Joined(chunks))
  {
    var reader := new Reader();
    for n := 0 to |chunks|
      invariant fresh(reader)
      invariant reader.delivered == Deliveries(Frames(Joined(chunks[..n])))
      invariant reader.buffer == Leftover(Joined(chunks[..n]))
    {
      assert chunks[..n + 1][..n] == chunks[..n] && chunks[..n + 1][n] == chunks[n];
      HeadFirst(Joined(chunks[..n]), chunks[n]);
      DeliveriesConcat(Frames(Joined(chunks[..n])), Frames(Leftover(Joined(chunks[..n])) + chunks[n]));
      reader.Feed(chunks[n]);
    }
    assert chunks[..|chunks|] == chunks;
    delivered, leftover := reader.delivered, reader.buffer;
  }

  // ---------- What a frame is read as ----------

  /** The data a line carries, if it is a data line and no event line. */
  function DataOf(line: string): seq<string> {
    if !StartsWith(line, "event:") && StartsWith(line, "data:") then [Trim(line[5..])] else []
  }

  ghost predicate LastNamed(lines: seq<string>, k: int) {
    0 <= k < |lines| && StartsWith(lines[k], "event:") && forall j :: k < j < |lines| ==> !StartsWith(lines[j], "event:")
  }

  lemma {:induction false} JoinedAdds(a: seq<string>, b: seq<string>)
    ensures Joined(a + b) == Joined(a) + Joined(b)
  {
    if b == [] {
      AppendNothing(a);
    } else {
      InitOfConcat(a, b);
      JoinedAdds(a, b[..|b| - 1]);
      AppendAssociates(Joined(a), Joined(b[..|b| - 1]), b[|b| - 1]);
    }
  }

  lemma JoinedOne(s: string)
    ensures Joined([s]) == s && Joined([]) == ""
  {
    assert [s][..0] == [] && Joined([s]) == "" + s;
  }

  lemma NameOfLast(lines: seq<string>, k: int)
    requires lines != [] && LastNamed(lines, k)
    ensures k == |lines| - 1 || LastNamed(lines[..|lines| - 1], k)
  {
  }

  /** A frame is named by its last event line, "message" without one, and carries all its data lines joined. */
  lemma {:induction false} FrameReads(lines: seq<string>, k: int)
    ensures LastNamed(lines, k) ==> ReadLines(lines).name == Trim(lines[k][6..])
    ensures (forall j :: 0 <= j < |lines| ==> !StartsWith(lines[j], "event:")) ==> ReadLines(lines).name == "message"
    ensures ReadLines(lines).data == Joined(Yield(lines, DataOf))
  {
    if lines != [] {
      var init, last := lines[..|lines| - 1], lines[|lines| - 1];
      FrameReads(init, k);
      JoinedAdds(Yield(init, DataOf), DataOf(last));
      JoinedOne(Trim(if StartsWith(last, "data:") then last[5..] else ""));
      if LastNamed(lines, k) { NameOfLast(lines, k); }
    }
  }

  /** A frame with data is handed on as a step or as the result, by its name; any other is dropped. */
  lemma FrameDelivers(e: Event)
    ensures Deliver(e) == [OnResult(e.data)] <==> e.data != "" && e.name == "result"
    ensures Deliver(e) == [OnStep(e.data)] <==> e.data != "" && e.name == "step"
    ensures Deliver(e) == [] <==> e.data == "" || (e.name != "result" && e.name != "step")
  {
  }

  // ---------- The reader inverts the printer ----------

  ghost predicate OneLine(s: string) {
    forall i :: 0 <= i < |s| ==> s[i] != '\n'
  }

  /** What the printer is given: names and data on one line, with nothing to trim, data not empty. */
  ghost predicate Printable(e: Event) {
    && OneLine(e.name) && OneLine(e.data) && e.data != ""
    && Trim(e.name) == e.name && Trim(e.data) == e.data
  }

  /** The text of a JSON object is such data. */
  lemma JsonObjectIsPrintable(name: string, data: string)
    requires name == "step" || name == "result"
    requires JsonObject(data)
    ensures Printable(Event(name, data))
  {
    assert TrimLeft(data) == data;
    assert TrimLeft(name) == name && TrimRight(name) == name;
  }

  function FrameOf(e: Event): string {
    EVENT_FIELD + (" " + e.name) + "\n" + (DATA_FIELD + (" " + e.data))
  }

  lemma PrintIsFrame(e: Event)
    ensures PrintEvent(e) == FrameOf(e) + BOUNDARY
  {
  }

  lemma FrameHasNoBoundary(e: Event, rest: string)
    requires Printable(e)
    ensures IndexOfBoundary(FrameOf(e) + BOUNDARY + rest) == |FrameOf(e)|
  {
    var head, tail := EVENT_FIELD + (" " + e.name), DATA_FIELD + (" " + e.data);
    var s := FrameOf(e) + BOUNDARY + rest;
    assert FrameOf(e) == head + "\n" + tail;
    assert OneLine(head) && OneLine(tail);
    assert forall i :: 0 <= i < |head| ==> s[i] == head[i];
    assert forall i :: 0 <= i < |tail| ==> s[|head| + 1 + i] == tail[i];
    assert BoundaryAt(s, |FrameOf(e)|);
    forall i | 0 <= i < |FrameOf(e)| ensures !BoundaryAt(s, i) {
      if i == |head| { assert s[i + 1] == tail[0]; }
    }
    FirstBoundaryIs(s, |FrameOf(e)|);
  }

  lemma {:induction false} LinesOfOne(s: string)
    requires OneLine(s)
    ensures Lines(s) == [s]
  {
    if s != "" {
      LinesOfOne(s[1..]);
      assert [s[0]] + s[1..] == s;
    }
  }

  lemma {:induction false} LinesOfTwo(a: string, b: string)
    requires OneLine(a) && OneLine(b)
    ensures Lines(a + "\n" + b) == [a, b]
  {
    var s := a + "\n" + b;
    if a == "" {
      assert s[0] == '\n' && s[1..] == b;
      LinesOfOne(b);
    } else {
      assert s[0] == a[0] && s[1..] == a[1..] + "\n" + b;
      LinesOfTwo(a[1..], b);
      assert [a[0]] + a[1..] == a;
    }
  }

  lemma TrimField(s: string)
    requires Trim(s) == s
    ensures Trim(" " + s) == s
  {
    assert (" " + s)[1..] == s;
    assert TrimLeft(" " + s) == TrimLeft(s);
  }

  lemma FrameReadsBack(e: Event)
    requires Printable(e)
    ensures ReadLines(Lines(FrameOf(e))) == e
  {
    var head, tail := EVENT_FIELD + (" " + e.name), DATA_FIELD + (" " + e.data);
    LinesOfTwo(head, tail);
    var lines := [head, tail];
    assert lines[..1] == [head] && lines[..1][..0] == [];
    assert head[..6] == EVENT_FIELD && head[6..] == " " + e.name;
    TrimField(e.name);
    assert ReadLines([head]) == Event(e.name, "");
    assert tail[0] != EVENT_FIELD[0] && tail[..5] == DATA_FIELD && tail[5..] == " " + e.data;
    TrimField(e.data);
    assert "" + e.data == e.data;
  }

  function EventsOf(frames: seq<string>): seq<Event> {
    if frames == [] then [] else [ReadLines(Lines(frames[0]))] + EventsOf(frames[1..])
  }

  function DeliverAll(events: seq<Event>): seq<Delivery> {
    if events == [] then [] else Deliver(events[0]) + DeliverAll(events[1..])
  }

  /** Any printed sequence of events is read back exactly, in order, with nothing left over. */
  lemma {:induction false} ReaderInvertsPrinter(events: seq<Event>)
    requires forall i :: 0 <= i < |events| ==> Printable(events[i])
    ensures EventsOf(Frames(PrintAll(events))) == events
    ensures Leftover(PrintAll(events)) == ""
  {
    if events == [] {
      assert Frames("") == [];
    } else {
      var e, rest := events[0], PrintAll(events[1..]);
      ReaderInvertsPrinter(events[1..]);
      PrintIsFrame(e);
      FrameHasNoBoundary(e, rest);
      var s := PrintAll(events);
      assert s == FrameOf(e) + BOUNDARY + rest;
      assert s[..|FrameOf(e)|] == FrameOf(e) && s[|FrameOf(e)| + 2..] == rest;
      FrameReadsBack(e);
      assert Frames(s) == [FrameOf(e)] + Frames(rest);
      assert ([FrameOf(e)] + Frames(rest))[1..] == Frames(rest);
      assert events == [e] + events[1..];
    }
  }

  lemma {:induction false} DeliveriesFromEvents(frames: seq<string>)
    ensures Deliveries(frames) == DeliverAll(EventsOf(frames))
  {
    if frames != [] {
      DeliveriesFromEvents(frames[1..]);
      HeadThenTail(frames);
      DeliveriesConcat([frames[0]], frames[1..]);
      DeliveriesOfOne(frames[0]);
    }
  }

  lemma HeadThenTail(frames: seq<string>)
    requires frames != []
    ensures [frames[0]] + frames[1..] == frames
  {
  }

  lemma DeliveriesOfOne(frame: string)
    ensures Deliveries([frame]) == Deliver(ReadLines(Lines(frame)))
  {
    assert [frame][..0] == [];
  }

  // ---------- The stream of a run ----------

  /** The text of a JSON object on one line, as the serializer gives it. */
  ghost predicate JsonObject(data: string) {
    |data| >= 2 && data[0] == '{' && data[|data| - 1] == '}' && OneLine(data)
  }

  /** What the endpoint sends: one step for each state of the run, then the run's outcome as its one result. */
  function EventsOfRun(steps: seq<string>, result: string): (r: seq<Event>)
    ensures |r| == |steps| + 1 && r[|steps|] == Event("result", result)
    ensures forall i :: 0 <= i < |steps| ==> r[i] == Event("step", steps[i])
  {
    if steps == [] then [Event("result", result)] else [Event("step", steps[0])] + EventsOfRun(steps[1..], result)
  }

  function StepDeliveries(steps: seq<string>): seq<Delivery> {
    if steps == [] then [] else [OnStep(steps[0])] + StepDeliveries(steps[1..])
  }

  lemma {:induction false} PrintAppend(events: seq<Event>, last: Event)
    ensures PrintAll(events + [last]) == PrintAll(events) + PrintEvent(last)
  {
    if events == [] {
      assert [] + [last] == [last] && [last][1..] == [];
      assert PrintAll([last]) == PrintEvent(last) + "";
    } else {
      assert (events + [last])[1..] == events[1..] + [last];
      PrintAppend(events[1..], last);
      AppendAssociates(PrintEvent(events[0]), PrintAll(events[1..]), PrintEvent(last));
    }
  }

  lemma EventsStep(steps: seq<string>, result: string, n: nat)
    requires n < |steps|
    ensures EventsOfRun(steps, result)[..n + 1] == EventsOfRun(steps, result)[..n] + [Event("step", steps[n])]
  {
  }

  /** The generator behind the response: a step printed for each state, then the result. */
  method Stream(steps: seq<string>, result: string) returns (parts: seq<string>)
    ensures |parts| == |steps| + 1 && Joined(parts) == PrintAll(EventsOfRun(steps, result))
  {
    parts := [];
    ghost var events := EventsOfRun(steps, result);
    for n := 0 to |steps|
      invariant |parts| == n && Joined(parts) == PrintAll(events[..n])
    {
      EventsStep(steps, result, n);
      PrintAppend(events[..n], Event("step", steps[n]));
      JoinedAppend(parts, PrintEvent(Event("step", steps[n])));
      parts := parts + [PrintEvent(Event("step", steps[n]))];
    }
    assert events == events[..|steps|] + [Event("result", result)];
    PrintAppend(events[..|steps|], Event("result", result));
    JoinedAppend(parts, PrintEvent(Event("result", result)));
    parts := parts + [PrintEvent(Event("result", result))];
  }

  lemma {:induction false} RunIsDelivered(steps: seq<string>, result: string)
    requires result != "" && forall i :: 0 <= i < |steps| ==> steps[i] != ""
    ensures DeliverAll(EventsOfRun(steps, result)) == StepDeliveries(steps) + [OnResult(result)]
  {
    var events := EventsOfRun(steps, result);
    if steps == [] {
      assert events[1..] == [];
    } else {
      assert events[1..] == EventsOfRun(steps[1..], result);
      RunIsDelivered(steps[1..], result);
    }
  }

  /**
    End to end: however the stream of a run is cut into chunks, the page receives each step's data in
    order, then the result's, once each, and nothing else.
  */
  lemma PageReceivesTheRun(steps: seq<string>, result: string, chunks: seq<string>)
    requires JsonObject(result) && forall i :: 0 <= i < |steps| ==> JsonObject(steps[i])
    requires Joined(chunks) == PrintAll(EventsOfRun(steps, result))
    ensures Deliveries(Frames(Joined(chunks))) == StepDeliveries(steps) + [OnResult(result)]
    ensures Leftover(Joined(chunks)) == ""
  {
    var events := EventsOfRun(steps, result);
    forall i | 0 <= i < |events| ensures Printable(events[i]) {
      JsonObjectIsPrintable(events[i].name, events[i].data);
    }
    ReaderInvertsPrinter(events);
    DeliveriesFromEvents(Frames(PrintAll(events)));
    RunIsDelivered(steps, result);
  }
}
