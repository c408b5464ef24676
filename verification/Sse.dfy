/** Server-sent events: the Python printers (activity.py, http/threads.py) and the
    incremental TypeScript reader (client/web/src/api.ts, readSse). */
module Sse {
  import opened Wrappers
  import opened Text

  // ---------------------------------------------------------------------------
  // The reader

  /** A complete frame: the type and id to override with, and the joined data lines. */
  datatype Frame = Frame(name: Option<string>, id: Option<string>, raw: string)

  /** The reader's variables between two reads. */
  datatype Reader = Reader(buffer: string, eventName: string, eventId: string, dataLines: seq<string>)

  const FRESH := Reader("", "message", "", [])

  /** JavaScript's white space and line terminators, which trim() removes. */
  predicate JsSpace(c: char) {
    || '\t' <= c <= '\r' || c in {' ', '\U{a0}', '\U{feff}', '\U{1680}'}
    || '\U{2000}' <= c <= '\U{200a}' || c in {'\U{2028}', '\U{2029}', '\U{202f}', '\U{205f}', '\U{3000}'}
  }

  function TrimStart(s: string): string {
    if s != "" && JsSpace(s[0]) then TrimStart(s[1..]) else s
  }

  function TrimEnd(s: string): string {
    if s != "" && JsSpace(s[|s| - 1]) then TrimEnd(s[..|s| - 1]) else s
  }

  function Trim(s: string): string {
    TrimEnd(TrimStart(s))
  }

  function DropReturn(s: string): string {
    if s != "" && s[|s| - 1] == '\r' then s[..|s| - 1] else s
  }

  /** The finished frame, if a blank line finds data lines. */
  function Finished(r: Reader): Option<Frame> {
    if r.dataLines == [] then None
    else Some(Frame(if r.eventName != "" && r.eventName != "message" then Some(r.eventName) else None,
                    if r.eventId != "" then Some(r.eventId) else None,
                    JoinWith(r.dataLines, '\n')))
  }

  /** The value a frame yields, or nothing when its data does not parse. */
  function Yields<J>(decode: Frame -> Option<J>, frame: Option<Frame>): seq<J> {
    match frame
    case None => []
    case Some(f) => match decode(f) case None => [] case Some(j) => [j]
  }

  function AfterLine(r: Reader, line: string): Reader {
    if line == "" then Reader(r.buffer, "message", "", [])
    else if StartsWith(line, ":") then r
    else if StartsWith(line, "id:") then r.(eventId := Trim(line[3..]))
    else if StartsWith(line, "event:") then r.(eventName := Trim(line[6..]))
    else if StartsWith(line, "data:") then r.(dataLines := r.dataLines + [TrimStart(line[5..])])
    else r
  }

  /** Handling every complete line in the buffer. */
  function Drain<J>(decode: Frame -> Option<J>, r: Reader): (Reader, seq<J>)
    decreases |r.buffer|
  {
    var i := IndexOf(r.buffer, '\n');
    if i < 0 then (r, [])
    else
      var line, rest := DropReturn(r.buffer[..i]), r.(buffer := r.buffer[i + 1..]);
      var yielded := if line == "" then Yields(decode, Finished(r)) else [];
      var (end, more) := Drain(decode, AfterLine(rest, line));
      (end, yielded + more)
  }

  function Feed<J>(decode: Frame -> Option<J>, r: Reader, chunk: string): (Reader, seq<J>) {
    Drain(decode, r.(buffer := r.buffer + chunk))
  }

  function FeedAll<J>(decode: Frame -> Option<J>, r: Reader, chunks: seq<string>): (Reader, seq<J>)
    decreases |chunks|
  {
    if chunks == [] then (r, [])
    else
      var (r1, first) := Feed(decode, r, chunks[0]);
      var (r2, rest) := FeedAll(decode, r1, chunks[1..]);
      (r2, first + rest)
  }

  /** readSse on the chunks received before the stream ends or is aborted. */
  method ReadSse<J>(decode: Frame -> Option<J>, chunks: seq<string>) returns (out: seq<J>, end: Reader)
    ensures (end, out) == FeedAll(decode, FRESH, chunks)
  {
    hide Drain, DropReturn, JoinWith, IndexOf, Trim, TrimStart, AfterLine, Finished, Yields;
    out := [];
    var buffer, eventName, eventId := "", "message", "";
    var dataLines: seq<string> := [];
    assert chunks[0..] == chunks && [] + FeedAll(decode, FRESH, chunks).1 == FeedAll(decode, FRESH, chunks).1;
    for k := 0 to |chunks|
      invariant var (r, more) := FeedAll(decode, Reader(buffer, eventName, eventId, dataLines), chunks[k..]);
                (r, out + more) == FeedAll(decode, FRESH, chunks)
    {
      ghost var r0, out0 := Reader(buffer, eventName, eventId, dataLines), out;
      FeedStep(decode, r0, chunks, k);
      buffer := buffer + chunks[k];
      ghost var fed := Drain(decode, r0.(buffer := buffer));
      while true
        invariant Extends(Drain(decode, Reader(buffer, eventName, eventId, dataLines)), out0, out, fed)
        decreases |buffer|
      {
        ghost var r := Reader(buffer, eventName, eventId, dataLines);
        DrainStep(decode, r, out0, out, fed);
        var index := IndexOf(buffer, '\n');
        if index < 0 { break; }
        var line := DropReturn(buffer[..index]);
        buffer := buffer[index + 1..];
        LineStep(r.(buffer := buffer), line);
        if line == "" {
          var finished := None;
          if |dataLines| > 0 {
            var raw := JoinWith(dataLines, '\n');
            dataLines := [];
            finished := Some(Frame(if eventName != "" && eventName != "message" then Some(eventName) else None,
                                   if eventId != "" then Some(eventId) else None, raw));
          }
          FinishedIs(r, finished);
          out := out + Yields(decode, finished);
          eventName, eventId := "message", "";
        } else if StartsWith(line, ":") {
        } else if StartsWith(line, "id:") {
          eventId := Trim(line[3..]);
        } else if StartsWith(line, "event:") {
          eventName := Trim(line[6..]);
        } else if StartsWith(line, "data:") {
          dataLines := dataLines + [TrimStart(line[5..])];
        }
      }
      assert out == out0 + fed.1;
      ghost var tail := FeedAll(decode, fed.0, chunks[k + 1..]);
      assert out0 + (fed.1 + tail.1) == out0 + fed.1 + tail.1;
    }
    end := Reader(buffer, eventName, eventId, dataLines);
    assert chunks[|chunks|..] == [] && out + [] == out;
  }

  /** Draining from here, after what has been put out since `out0`, completes `fed`. */
  ghost predicate Extends<J>(here: (Reader, seq<J>), out0: seq<J>, out: seq<J>, fed: (Reader, seq<J>)) {
    here.0 == fed.0 && out + here.1 == out0 + fed.1
  }

  lemma FeedStep<J>(decode: Frame -> Option<J>, r: Reader, chunks: seq<string>, k: nat)
    requires k < |chunks|
    ensures FeedAll(decode, r, chunks[k..]) ==
            var fed := Drain(decode, r.(buffer := r.buffer + chunks[k]));
            var tail := FeedAll(decode, fed.0, chunks[k + 1..]);
            (tail.0, fed.1 + tail.1)
  {
    assert chunks[k..][1..] == chunks[k + 1..];
  }

  lemma DrainStep<J>(decode: Frame -> Option<J>, r: Reader, out0: seq<J>, out: seq<J>, fed: (Reader, seq<J>))
    requires Extends(Drain(decode, r), out0, out, fed)
    ensures var i := IndexOf(r.buffer, '\n');
            if i < 0 then r == fed.0 && out == out0 + fed.1
            else
              var line, rest := DropReturn(r.buffer[..i]), r.(buffer := r.buffer[i + 1..]);
              Extends(Drain(decode, AfterLine(rest, line)), out0,
                      if line == "" then out + Yields(decode, Finished(r)) else out, fed)
  {
    hide Drain, AfterLine, DropReturn, Finished, Yields, IndexOf;
    var i := IndexOf(r.buffer, '\n');
    if i < 0 {
      DrainNothing(decode, r);
      assert out + [] == out;
    } else {
      DrainTurn(decode, r, i);
      var line := DropReturn(r.buffer[..i]);
      if line == "" {
        var yielded := Yields(decode, Finished(r));
        var more := Drain(decode, AfterLine(r.(buffer := r.buffer[i + 1..]), line)).1;
        assert out + (yielded + more) == out + yielded + more;
      } else {
        var more := Drain(decode, AfterLine(r.(buffer := r.buffer[i + 1..]), line)).1;
        assert [] + more == more;
      }
    }
  }

  lemma LineStep(r: Reader, line: string)
    ensures AfterLine(r, line) ==
            if line == "" then Reader(r.buffer, "message", "", [])
            else if StartsWith(line, ":") then r
            else if StartsWith(line, "id:") then r.(eventId := Trim(line[3..]))
            else if StartsWith(line, "event:") then r.(eventName := Trim(line[6..]))
            else if StartsWith(line, "data:") then r.(dataLines := r.dataLines + [TrimStart(line[5..])])
            else r
  {}

  lemma FinishedIs(r: Reader, f: Option<Frame>)
    requires |r.dataLines| == 0 ==> f == None
    requires |r.dataLines| > 0 ==>
               f == Some(Frame(if r.eventName != "" && r.eventName != "message" then Some(r.eventName) else None,
                               if r.eventId != "" then Some(r.eventId) else None, JoinWith(r.dataLines, '\n')))
    ensures f == Finished(r)
  {}

  // ---------------------------------------------------------------------------
  // Chunking does not matter

  /** One turn of the inner loop. */
  lemma DrainTurn<J>(decode: Frame -> Option<J>, r: Reader, i: int)
    requires i == IndexOf(r.buffer, '\n') && i >= 0
    ensures var line, rest := DropReturn(r.buffer[..i]), r.(buffer := r.buffer[i + 1..]);
            var (end, more) := Drain(decode, AfterLine(rest, line));
            Drain(decode, r) == (end, (if line == "" then Yields(decode, Finished(r)) else []) + more)
  {
    hide AfterLine, Finished, Yields, IndexOf, DropReturn;
  }

  /** Draining, then appending and draining again, is draining the whole. */
  lemma {:induction false} DrainAppend<J>(decode: Frame -> Option<J>, r: Reader, y: string)
    ensures var (r1, o1) := Drain(decode, r);
            var (r2, o2) := Drain(decode, r1.(buffer := r1.buffer + y));
            Drain(decode, r.(buffer := r.buffer + y)) == (r2, o1 + o2)
    decreases |r.buffer|
  {
    hide AfterLine, DropReturn, Finished, Yields, IndexOf, Drain;
    var i := IndexOf(r.buffer, '\n');
    var all := r.(buffer := r.buffer + y);
    IndexOfAppend(r.buffer, y, '\n');
    if i < 0 {
      DrainNothing(decode, r);
      assert [] + Drain(decode, all).1 == Drain(decode, all).1;
    } else {
      assert all.buffer[..i] == r.buffer[..i] && all.buffer[i + 1..] == r.buffer[i + 1..] + y;
      var line := DropReturn(r.buffer[..i]);
      var rest, rest' := r.(buffer := r.buffer[i + 1..]), r.(buffer := r.buffer[i + 1..] + y);
      AfterLineBuffer(rest, rest', line);
      FinishedBuffer(all, r);
      DrainTurn(decode, r, i);
      DrainTurn(decode, all, i);
      DrainAppend(decode, AfterLine(rest, line), y);
      var yielded := if line == "" then Yields(decode, Finished(r)) else [];
      var (r1, o1) := Drain(decode, AfterLine(rest, line));
      var (r2, o2) := Drain(decode, r1.(buffer := r1.buffer + y));
      assert yielded + (o1 + o2) == yielded + o1 + o2;
    }
  }

  lemma DrainNothing<J>(decode: Frame -> Option<J>, r: Reader)
    requires IndexOf(r.buffer, '\n') < 0
    ensures Drain(decode, r) == (r, [])
  {}

  lemma FinishedBuffer(r: Reader, s: Reader)
    requires s == r.(buffer := s.buffer)
    ensures Finished(s) == Finished(r)
  {}

  lemma AfterLineBuffer(r: Reader, s: Reader, line: string)
    requires s == r.(buffer := s.buffer)
    ensures AfterLine(s, line) == AfterLine(r, line).(buffer := s.buffer)
    ensures AfterLine(r, line).buffer == r.buffer
  {}

  function Concat(chunks: seq<string>): string {
    if chunks == [] then "" else chunks[0] + Concat(chunks[1..])
  }

  /** A reader with no complete line left in its buffer, as readSse leaves it. */
  predicate Settled(r: Reader) {
    '\n' !in r.buffer
  }

  lemma {:induction false} DrainSettles<J>(decode: Frame -> Option<J>, r: Reader)
    ensures Settled(Drain(decode, r).0)
    decreases |r.buffer|
  {
    var i := IndexOf(r.buffer, '\n');
    if i >= 0 {
      var line, rest := DropReturn(r.buffer[..i]), r.(buffer := r.buffer[i + 1..]);
      AfterLineBuffer(rest, rest, line);
      DrainSettles(decode, AfterLine(rest, line));
    }
  }

  /** Reading chunk by chunk gives the events and the leftover state of the whole text. */
  lemma {:induction false} Whole<J>(decode: Frame -> Option<J>, r: Reader, chunks: seq<string>)
    requires Settled(r)
    ensures FeedAll(decode, r, chunks) == Feed(decode, r, Concat(chunks))
    decreases |chunks|
  {
    hide AfterLine, Finished, Yields, DropReturn, IndexOf;
    if chunks == [] {
      assert r.buffer + "" == r.buffer;
      assert IndexOf(r.buffer, '\n') < 0;
    } else {
      var r0 := r.(buffer := r.buffer + chunks[0]);
      var r1 := Feed(decode, r, chunks[0]).0;
      DrainSettles(decode, r0);
      Whole(decode, r1, chunks[1..]);
      DrainAppend(decode, r0, Concat(chunks[1..]));
      assert r0.buffer + Concat(chunks[1..]) == r.buffer + Concat(chunks);
    }
  }

  /** Any two chunkings of the same text yield the same events and leftover state. */
  lemma ChunkIndependent<J>(decode: Frame -> Option<J>, r: Reader, a: seq<string>, b: seq<string>)
    requires Settled(r) && Concat(a) == Concat(b)
    ensures FeedAll(decode, r, a) == FeedAll(decode, r, b)
  {
    Whole(decode, r, a);
    Whole(decode, r, b);
  }

  // ---------------------------------------------------------------------------
  // The printers

  datatype Sent = Event(id: string, name: string, data: string) | Keepalive

  function PrintFrame(id: string, name: string, data: string): string {
    "id: " + id + "\nevent: " + name + "\ndata: " + data + "\n\n"
  }

  function Print(x: Sent): string {
    match x
    case Event(id, name, data) => PrintFrame(id, name, data)
    case Keepalive => ": keepalive\n\n"
  }

  /** A field of one line without white space at its ends. */
  predicate Tight(s: string) {
    '\n' !in s && (s != "" ==> !JsSpace(s[0]) && !JsSpace(s[|s| - 1]))
  }

  /** JSON text as the printers write it: one line that starts with no white space and
      ends with no carriage return. */
  predicate OneLine(s: string) {
    '\n' !in s && (s != "" ==> !JsSpace(s[0]) && s[|s| - 1] != '\r')
  }

  predicate Printable(x: Sent) {
    x.Event? ==> Tight(x.id) && Tight(x.name) && OneLine(x.data)
  }

  /** The frame of an event: its type unless that is the default, its id unless empty. */
  function FrameOf(x: Sent): Option<Frame> {
    match x
    case Keepalive => None
    case Event(id, name, data) =>
      Some(Frame(if name != "" && name != "message" then Some(name) else None,
                 if id != "" then Some(id) else None, data))
  }

  /** The frames of the events, in order. */
  function FramesOf(xs: seq<Sent>): seq<Frame> {
    if xs == [] then []
    else if xs[0].Keepalive? then FramesOf(xs[1..])
    else [FrameOf(xs[0]).value] + FramesOf(xs[1..])
  }

  /** What the frames decode to, those that do not decode left out. */
  function Decoded<J>(decode: Frame -> Option<J>, frames: seq<Frame>): seq<J> {
    if frames == [] then []
    else if decode(frames[0]).None? then Decoded(decode, frames[1..])
    else [decode(frames[0]).value] + Decoded(decode, frames[1..])
  }

  function PrintAll(xs: seq<Sent>): string {
    if xs == [] then "" else Print(xs[0]) + PrintAll(xs[1..])
  }

  /** One line of the buffer is one turn of the inner loop. */
  lemma DrainLine<J>(decode: Frame -> Option<J>, r: Reader, line: string, rest: string)
    requires '\n' !in line && DropReturn(line) == line && r.buffer == line + "\n" + rest
    ensures var (end, more) := Drain(decode, AfterLine(r.(buffer := rest), line));
            Drain(decode, r) == (end, (if line == "" then Yields(decode, Finished(r)) else []) + more)
  {
    hide AfterLine, Finished, Yields, IndexOf;
    IndexOfIs(line, '\n', rest);
    assert line + ['\n'] + rest == r.buffer;
    assert r.buffer[..|line|] == line && r.buffer[|line| + 1..] == rest;
  }

  lemma TrimTight(s: string)
    requires s == "" || (!JsSpace(s[0]) && !JsSpace(s[|s| - 1]))
    ensures Trim(" " + s) == s
  {
    assert (" " + s)[1..] == s && JsSpace(' ');
    assert TrimStart(" " + s) == TrimStart(s) == s && TrimEnd(s) == s;
  }

  /** A printed frame sets the three fields, and its blank line finishes the frame. */
  lemma ReadFrame<J>(decode: Frame -> Option<J>, x: Sent, rest: string)
    requires Printable(x)
    ensures var (end, more) := Drain(decode, FRESH.(buffer := rest));
            Drain(decode, FRESH.(buffer := Print(x) + rest)) == (end, Yields(decode, FrameOf(x)) + more)
  {
    hide Drain, Yields, Finished, AfterLine, Trim, TrimStart, DropReturn;
    if x == Keepalive { ReadKeepalive(decode, rest); } else { ReadEvent(decode, x.id, x.name, x.data, rest); }
  }

  lemma ReadKeepalive<J>(decode: Frame -> Option<J>, rest: string)
    ensures var (end, more) := Drain(decode, FRESH.(buffer := rest));
            Drain(decode, FRESH.(buffer := Print(Keepalive) + rest)) == (end, Yields(decode, None) + more)
  {
    hide Drain, Yields, Finished, AfterLine, DropReturn;
    var line, t := ": keepalive", "\n" + rest;
    LineEnds("");
    LineEnds(line);
    CommentLine(FRESH.(buffer := t));
    BlankLine(FRESH.(buffer := rest));
    NoYield(decode);
    var r := FRESH.(buffer := Print(Keepalive) + rest);
    assert r.buffer == line + "\n" + t;
    DrainLine(decode, r, line, t);
    var r1 := FRESH.(buffer := t);
    assert t == "" + "\n" + rest;
    DrainLine(decode, r1, "", rest);
    FinishedIs(r1, None);
    var more := Drain(decode, FRESH.(buffer := rest)).1;
    assert [] + more == more;
  }

  lemma ReadEvent<J>(decode: Frame -> Option<J>, id: string, name: string, data: string, rest: string)
    requires Printable(Event(id, name, data))
    ensures var (end, more) := Drain(decode, FRESH.(buffer := rest));
            Drain(decode, FRESH.(buffer := PrintFrame(id, name, data) + rest)) ==
            (end, Yields(decode, FrameOf(Event(id, name, data))) + more)
  {
    hide Drain, Yields, Finished, AfterLine, DropReturn, PrintFrame, Tight, OneLine;
    var l1, l2, l3 := "id: " + id, "event: " + name, "data: " + data;
    var t3 := "\n" + rest;
    var t2 := l3 + "\n" + t3;
    var t1 := l2 + "\n" + t2;
    LineEnds("");
    IdLine(id, Reader(t1, "message", "", []));
    NameLine(name, Reader(t2, "message", id, []));
    DataLine(data, Reader(t3, name, id, []));
    assert [] + [data] == [data] && |l1| > 0 && |l2| > 0 && |l3| > 0;
    BlankLine(Reader(rest, name, id, [data]));
    var r0, r1, r2, r3 := FRESH.(buffer := PrintFrame(id, name, data) + rest), Reader(t1, "message", id, []),
      Reader(t2, name, id, []), Reader(t3, name, id, [data]);
    FrameText(id, name, data, rest);
    DrainLine(decode, r0, l1, t1);
    DrainLine(decode, r1, l2, t2);
    DrainLine(decode, r2, l3, t3);
    assert t3 == "" + "\n" + rest;
    DrainLine(decode, r3, "", rest);
    FrameIs(r3, Event(id, name, data));
    var y := Yields(decode, FrameOf(Event(id, name, data))) + Drain(decode, FRESH.(buffer := rest)).1;
    assert [] + y == y;
  }

  lemma FrameIs(r: Reader, x: Sent)
    requires x.Event? && r == Reader(r.buffer, x.name, x.id, [x.data])
    ensures Finished(r) == FrameOf(x)
  {}

  lemma FrameText(id: string, name: string, data: string, rest: string)
    ensures PrintFrame(id, name, data) + rest ==
            ("id: " + id) + "\n" + (("event: " + name) + "\n" + (("data: " + data) + "\n" + ("\n" + rest)))
  {
    assert "\nevent: " == "\n" + "event: " && "\ndata: " == "\n" + "data: " && "\n\n" == "\n" + "\n";
  }

  lemma CommentLine(r: Reader)
    ensures AfterLine(r, ": keepalive") == r
  {
    assert ": keepalive"[..1] == ":";
  }

  lemma BlankLine(r: Reader)
    ensures AfterLine(r, "") == Reader(r.buffer, "message", "", [])
  {}

  lemma NoYield<J>(decode: Frame -> Option<J>)
    ensures Yields(decode, None) == []
  {}

  lemma LineEnds(line: string)
    requires line == "" || line[|line| - 1] != '\r'
    ensures DropReturn(line) == line
  {}

  lemma IdLine(id: string, r: Reader)
    requires Tight(id)
    ensures var line := "id: " + id;
            '\n' !in line && DropReturn(line) == line && AfterLine(r, line) == r.(eventId := id)
  {
    hide Trim;
    var line := "id: " + id;
    assert line[3..] == " " + id && line[..3] == "id:" && line[0] == 'i' && JsSpace('\r');
    TrimTight(id);
  }

  lemma NameLine(name: string, r: Reader)
    requires Tight(name)
    ensures var line := "event: " + name;
            '\n' !in line && DropReturn(line) == line && AfterLine(r, line) == r.(eventName := name)
  {
    hide Trim;
    var line := "event: " + name;
    assert line[6..] == " " + name && line[..6] == "event:" && line[0] == 'e' && JsSpace('\r');
    assert line[..3] == "eve";
    TrimTight(name);
  }

  lemma DataLine(data: string, r: Reader)
    requires OneLine(data)
    ensures var line := "data: " + data;
            '\n' !in line && DropReturn(line) == line
            && AfterLine(r, line) == r.(dataLines := r.dataLines + [data])
  {
    hide TrimStart;
    var line := "data: " + data;
    assert line[5..] == " " + data && line[..5] == "data:" && line[0] == 'd';
    assert line[..3] == "dat";
    TrimStartLine(data);
  }

  lemma TrimStartLine(data: string)
    requires OneLine(data)
    ensures TrimStart(" " + data) == data
  {
    assert (" " + data)[1..] == data;
  }

  lemma {:induction false} ReadAll<J>(decode: Frame -> Option<J>, xs: seq<Sent>)
    requires forall x :: x in xs ==> Printable(x)
    ensures Drain(decode, FRESH.(buffer := PrintAll(xs))) == (FRESH, Decoded(decode, FramesOf(xs)))
  {
    hide Printable, Print, Yields, FrameOf, AfterLine, Finished, Decoded;
    DecodedCons(decode, xs);
    if xs != [] {
      assert xs[0] in xs;
      ReadFrame(decode, xs[0], PrintAll(xs[1..]));
      ReadAll(decode, xs[1..]);
    }
  }

  lemma DecodedCons<J>(decode: Frame -> Option<J>, xs: seq<Sent>)
    ensures Decoded(decode, FramesOf([])) == []
    ensures xs != [] ==>
              Decoded(decode, FramesOf(xs)) == Yields(decode, FrameOf(xs[0])) + Decoded(decode, FramesOf(xs[1..]))
  {
    if xs != [] && xs[0].Event? {
      var f := FrameOf(xs[0]).value;
      assert ([f] + FramesOf(xs[1..]))[1..] == FramesOf(xs[1..]);
    }
  }

  /** Reading any concatenation of printed frames and keepalives, however it is chunked,
      yields exactly what the printed (type, id, data) triples decode to, in order, and leaves
      the reader fresh. */
  lemma PrintedIsRead<J>(decode: Frame -> Option<J>, xs: seq<Sent>, chunks: seq<string>)
    requires (forall x :: x in xs ==> Printable(x)) && Concat(chunks) == PrintAll(xs)
    ensures FeedAll(decode, FRESH, chunks) == (FRESH, Decoded(decode, FramesOf(xs)))
  {
    hide Printable, Drain;
    Whole(decode, FRESH, chunks);
    assert "" + PrintAll(xs) == PrintAll(xs);
    ReadAll(decode, xs);
  }

  /** With a decoder that takes every frame, exactly the printed triples come out. */
  lemma EveryFrameIsRead(xs: seq<Sent>, chunks: seq<string>)
    requires (forall x :: x in xs ==> Printable(x)) && Concat(chunks) == PrintAll(xs)
    ensures FeedAll(f => Some(f), FRESH, chunks) == (FRESH, FramesOf(xs))
  {
    hide Printable, FeedAll, FramesOf;
    PrintedIsRead(f => Some(f), xs, chunks);
    AllDecoded(FramesOf(xs));
  }

  lemma {:induction false} AllDecoded(frames: seq<Frame>)
    ensures Decoded(f => Some(f), frames) == frames
  {
    if frames != [] {
      AllDecoded(frames[1..]);
      assert frames == [frames[0]] + frames[1..];
    }
  }

  function PrintData(ds: seq<string>): string {
    if ds == [] then "" else "data: " + ds[0] + "\n" + PrintData(ds[1..])
  }

  /** Several data lines before a blank line make one frame, joined by newlines. */
  lemma DataLines<J>(decode: Frame -> Option<J>, ds: seq<string>, rest: string)
    requires ds != [] && forall d :: d in ds ==> OneLine(d)
    ensures var (end, more) := Drain(decode, FRESH.(buffer := rest));
            Drain(decode, FRESH.(buffer := PrintData(ds) + ("\n" + rest))) ==
            (end, Decoded(decode, [Frame(None, None, JoinWith(ds, '\n'))]) + more)
  {
    hide AfterLine, JoinWith, PrintData, Drain;
    ReadData(decode, FRESH, ds, "\n" + rest);
    assert [] + ds == ds;
    var r := FRESH.(buffer := "\n" + rest, dataLines := ds);
    assert r.buffer == "" + "\n" + rest;
    BlankLine(r.(buffer := rest));
    DrainLine(decode, r, "", rest);
    var f := Frame(None, None, JoinWith(ds, '\n'));
    assert Finished(r) == Some(f);
    OneDecoded(decode, f);
  }

  lemma OneDecoded<J>(decode: Frame -> Option<J>, f: Frame)
    ensures Yields(decode, Some(f)) == Decoded(decode, [f])
  {
    assert [f][1..] == [];
  }

  lemma {:induction false} ReadData<J>(decode: Frame -> Option<J>, r: Reader, ds: seq<string>, rest: string)
    requires forall d :: d in ds ==> OneLine(d)
    ensures Drain(decode, r.(buffer := PrintData(ds) + rest)) ==
            Drain(decode, r.(buffer := rest, dataLines := r.dataLines + ds))
    decreases |ds|
  {
    hide AfterLine, Drain, OneLine, DropReturn, Finished, Yields;
    if ds == [] {
      assert PrintData(ds) + rest == rest && r.dataLines + ds == r.dataLines;
    } else {
      var line, tail := "data: " + ds[0], PrintData(ds[1..]) + rest;
      assert ds[0] in ds;
      DataLine(ds[0], r.(buffer := tail));
      assert PrintData(ds) + rest == line + "\n" + tail;
      DrainLine(decode, r.(buffer := PrintData(ds) + rest), line, tail);
      var r1 := r.(dataLines := r.dataLines + [ds[0]]);
      ReadData(decode, r1, ds[1..], rest);
      assert r1.dataLines + ds[1..] == r.dataLines + ds;
      assert line != "" && [] + Drain(decode, r1.(buffer := tail)).1 == Drain(decode, r1.(buffer := tail)).1;
    }
  }

  // ---------------------------------------------------------------------------
  // The frames the host prints

  /** ActivityRecord.to_sse, with the record's JSON text given. */
  function ToSse(seqNo: nat, eventType: string, json: string): string {
    PrintFrame(Decimal(seqNo), eventType, json)
  }

  lemma ToSsePrints(seqNo: nat, eventType: string, json: string)
    requires Tight(eventType) && OneLine(json)
    ensures ToSse(seqNo, eventType, json) == Print(Event(Decimal(seqNo), eventType, json))
    ensures Printable(Event(Decimal(seqNo), eventType, json))
  {
    var s := Decimal(seqNo);
    assert s[0] in s && s[|s| - 1] in s;
    assert forall c :: IsDigit(c) ==> !JsSpace(c) && c != '\n';
  }
}
