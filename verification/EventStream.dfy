/**
 The Runtime SDK's incremental event-stream decoder (npm/runtime-sdk/index.js), a narrower
 form of the event stream of sections 9.2.5 and 9.2.6 of the WHATWG HTML Living Standard:
 a frame ends at "\n\n" or at "\r\n\r\n", mixed line ends are no boundary, and all leading
 whitespace of a field is dropped.
 */
module EventStream {
  import opened Text
  import Json

  const LF2 := "\n\n"
  const CRLF2 := "\r\n\r\n"

  // ---- Frame boundaries ----

  datatype Boundary = Boundary(index: nat, length: nat)

  /** `eventStreamBoundary`. */
  function FindBoundary(buffer: string): (r: Option<Boundary>)
    ensures r.Some? ==> 0 < r.value.length && r.value.index + r.value.length <= |buffer|
  {
    var lf := IndexOf(buffer, LF2);
    var crlf := IndexOf(buffer, CRLF2);
    if lf < 0 && crlf < 0 then None
    else if crlf >= 0 && (lf < 0 || crlf < lf) then Some(Boundary(crlf, 4))
    else Some(Boundary(lf, 2))
  }

  predicate LfAt(s: string, i: int) {
    0 <= i && i + 2 <= |s| && s[i] == '\n' && s[i + 1] == '\n'
  }

  predicate CrlfAt(s: string, i: int) {
    0 <= i && i + 4 <= |s| && s[i] == '\r' && s[i + 1] == '\n' && s[i + 2] == '\r' && s[i + 3] == '\n'
  }

  /** Either separator starts here. */
  predicate SeparatorAt(s: string, i: int) {
    LfAt(s, i) || CrlfAt(s, i)
  }

  lemma LfOccurs(s: string, i: int)
    ensures OccursAt(s, LF2, i) <==> LfAt(s, i)
  {
  }

  lemma CrlfOccurs(s: string, i: int)
    ensures OccursAt(s, CRLF2, i) <==> CrlfAt(s, i)
  {
  }

  /** The boundary is the first position at which either separator starts. */
  lemma BoundaryIsFirst(s: string)
    ensures FindBoundary(s).None? ==> forall i :: !SeparatorAt(s, i)
    ensures FindBoundary(s).Some? ==>
              var b := FindBoundary(s).value;
              && (if b.length == 2 then LfAt(s, b.index) else b.length == 4 && CrlfAt(s, b.index))
              && SeparatorAt(s, b.index)
              && forall i :: i < b.index ==> !SeparatorAt(s, i)
  {
    forall i
      ensures OccursAt(s, LF2, i) <==> LfAt(s, i)
      ensures OccursAt(s, CRLF2, i) <==> CrlfAt(s, i)
    {
      LfOccurs(s, i);
      CrlfOccurs(s, i);
    }
  }

  lemma BoundaryAt(s: string, k: nat, n: nat)
    requires (n == 2 && LfAt(s, k)) || (n == 4 && CrlfAt(s, k))
    requires forall i :: i < k ==> !SeparatorAt(s, i)
    ensures FindBoundary(s) == Some(Boundary(k, n))
  {
    BoundaryIsFirst(s);
    assert SeparatorAt(s, k);
  }

  lemma NoBoundary(s: string)
    requires forall i :: !SeparatorAt(s, i)
    ensures FindBoundary(s) == None
  {
    BoundaryIsFirst(s);
  }

  /** Stability: a boundary found in a prefix is the boundary of every extension. A separator
      of the extension that starts earlier would have to reach past the end of the prefix; a
      "\r\n\r\n" doing so around a "\n\n" boundary starts one position before it, and the
      two disagree at the next character. */
  lemma BoundaryStable(s: string, more: string)
    requires FindBoundary(s).Some?
    ensures FindBoundary(s + more) == FindBoundary(s)
  {
    BoundaryIsFirst(s);
    var b := FindBoundary(s).value;
    var t := s + more;
    forall i | i < b.index
      ensures !SeparatorAt(t, i)
    {
      assert !SeparatorAt(s, i);
    }
    BoundaryAt(t, b.index, b.length);
  }

  // ---- Framing a whole text ----

  datatype Framing = Framing(frames: seq<string>, rest: string)

  function Frame(text: string): Framing
    decreases |text|
  {
    match FindBoundary(text)
    case None => Framing([], text)
    case Some(b) =>
      var tail := Frame(text[b.index + b.length..]);
      Framing([text[..b.index]] + tail.frames, tail.rest)
  }

  /** Framing the rest of a first text together with a second one. */
  ghost predicate Resumes(whole: Framing, first: Framing, b: string) {
    var later := Frame(first.rest + b);
    whole == Framing(first.frames + later.frames, later.rest)
  }

  /** Framing may be interrupted anywhere: frames found in a prefix stay, and the rest of the
      prefix is framed together with what follows. */
  lemma {:induction false} FrameAppend(a: string, b: string)
    ensures Resumes(Frame(a + b), Frame(a), b)
    decreases |a|
  {
    match FindBoundary(a)
    case None =>
      FrameNone(a);
    case Some(c) =>
      var n := c.index + c.length;
      FrameAppend(a[n..], b);
      FrameFirst(a, b, c);
      ResumesLater(a[..c.index], Frame(a[n..] + b), Frame(a[n..]), b);
  }

  lemma ResumesLater(frame: string, whole: Framing, first: Framing, b: string)
    requires Resumes(whole, first, b)
    ensures Resumes(Framing([frame] + whole.frames, whole.rest), Framing([frame] + first.frames, first.rest), b)
  {
  }

  lemma FrameNone(text: string)
    requires FindBoundary(text) == None
    ensures Frame(text) == Framing([], text)
  {
  }

  /** The first frame of a text is also the first frame of its extensions. */
  lemma FrameFirst(a: string, b: string, c: Boundary)
    requires FindBoundary(a) == Some(c)
    ensures var n := c.index + c.length;
            && Frame(a) == Framing([a[..c.index]] + Frame(a[n..]).frames, Frame(a[n..]).rest)
            && Frame(a + b) == Framing([a[..c.index]] + Frame(a[n..] + b).frames, Frame(a[n..] + b).rest)
  {
    var n := c.index + c.length;
    BoundaryStable(a, b);
    FrameSome(a, c);
    FrameSome(a + b, c);
    assert (a + b)[n..] == a[n..] + b && (a + b)[..c.index] == a[..c.index];
  }

  lemma FrameSome(text: string, b: Boundary)
    requires FindBoundary(text) == Some(b)
    ensures Frame(text) == Framing([text[..b.index]] + Frame(text[b.index + b.length..]).frames,
                                   Frame(text[b.index + b.length..]).rest)
  {
  }

  /** Frames and separators in turn, then the rest. */
  function Weave(frames: seq<string>, seps: seq<string>, rest: string): string
    requires |frames| == |seps|
  {
    if frames == [] then rest else frames[0] + seps[0] + Weave(frames[1..], seps[1..], rest)
  }

  /** A text cut into frames, each ended by the first separator behind its start. */
  ghost predicate Cuts(frames: seq<string>, seps: seq<string>, rest: string) {
    && |frames| == |seps| && FindBoundary(rest).None?
    && forall i :: 0 <= i < |frames| ==>
         (seps[i] == LF2 || seps[i] == CRLF2) &&
         FindBoundary(frames[i] + seps[i]) == Some(Boundary(|frames[i]|, |seps[i]|))
  }

  lemma CutsFirst(frame: string, sep: string, frames: seq<string>, seps: seq<string>, rest: string)
    requires Cuts(frames, seps, rest) && (sep == LF2 || sep == CRLF2)
    requires FindBoundary(frame + sep) == Some(Boundary(|frame|, |sep|))
    ensures Cuts([frame] + frames, [sep] + seps, rest)
    ensures Weave([frame] + frames, [sep] + seps, rest) == frame + sep + Weave(frames, seps, rest)
  {
  }

  /** Framing loses nothing: frames and separators in turn give the text back. */
  lemma {:induction false} FrameReassembles(text: string) returns (seps: seq<string>)
    ensures Cuts(Frame(text).frames, seps, Frame(text).rest)
    ensures Weave(Frame(text).frames, seps, Frame(text).rest) == text
    decreases |text|
  {
    match FindBoundary(text)
    case None =>
      FrameNone(text);
      seps := [];
    case Some(b) =>
      var frame, sep, later := CutOff(text, b);
      seps := FrameReassembles(later);
      CutsFirst(frame, sep, Frame(later).frames, seps, Frame(later).rest);
      seps := [sep] + seps;
  }

  /** Taking the first frame off a text. */
  lemma CutOff(text: string, b: Boundary) returns (frame: string, sep: string, later: string)
    requires FindBoundary(text) == Some(b)
    ensures text == frame + sep + later && (sep == LF2 || sep == CRLF2)
    ensures FindBoundary(frame).None? && FindBoundary(frame + sep) == Some(Boundary(|frame|, |sep|))
    ensures Frame(text) == Framing([frame] + Frame(later).frames, Frame(later).rest)
    ensures |later| < |text|
  {
    frame, sep, later := text[..b.index], text[b.index..b.index + b.length], text[b.index + b.length..];
    ThreePieces(text, b.index, b.index + b.length);
    CutIsTight(text, b);
    FrameSome(text, b);
  }

  lemma ThreePieces(text: string, i: nat, j: nat)
    requires i <= j <= |text|
    ensures text == text[..i] + text[i..j] + text[j..]
  {
  }

  /** No frame contains a separator. */
  lemma {:induction false} FramesAreWhole(text: string)
    ensures forall f :: f in Frame(text).frames ==> FindBoundary(f).None?
    decreases |text|
  {
    match FindBoundary(text)
    case None =>
      FrameNone(text);
    case Some(b) =>
      var frame, sep, later := CutOff(text, b);
      FramesAreWhole(later);
  }

  lemma CutIsTight(text: string, b: Boundary)
    requires FindBoundary(text) == Some(b)
    ensures var frame, sep := text[..b.index], text[b.index..b.index + b.length];
            (sep == LF2 || sep == CRLF2) && FindBoundary(frame).None?
            && FindBoundary(frame + sep) == Some(Boundary(|frame|, |sep|))
  {
    BoundaryIsFirst(text);
    var frame, sep := text[..b.index], text[b.index..b.index + b.length];
    var both := frame + sep;
    assert both == text[..b.index + b.length];
    forall i ensures !SeparatorAt(frame, i) {
      assert i < b.index ==> !SeparatorAt(text, i);
    }
    NoBoundary(frame);
    forall i | i < b.index ensures !SeparatorAt(both, i) {
      assert !SeparatorAt(text, i);
    }
    BoundaryAt(both, b.index, b.length);
    assert sep == if b.length == 2 then LF2 else CRLF2;
  }

  /** There is only one way to cut a text like that. */
  lemma {:induction false} FrameUnique(frames: seq<string>, seps: seq<string>, rest: string)
    requires Cuts(frames, seps, rest)
    ensures Frame(Weave(frames, seps, rest)) == Framing(frames, rest)
  {
    if frames == [] {
      FrameNone(rest);
    } else {
      CutsTail(frames, seps, rest);
      FrameUnique(frames[1..], seps[1..], rest);
      OneMoreFrame(frames[0], seps[0], Weave(frames[1..], seps[1..], rest), frames[1..], rest);
      assert frames == [frames[0]] + frames[1..];
    }
  }

  lemma OneMoreFrame(frame: string, sep: string, later: string, frames: seq<string>, rest: string)
    requires FindBoundary(frame + sep) == Some(Boundary(|frame|, |sep|)) && Frame(later) == Framing(frames, rest)
    ensures Frame(frame + sep + later) == Framing([frame] + frames, rest)
  {
    var first := frame + sep;
    BoundaryStable(first, later);
    assert (first + later)[|first|..] == later && (first + later)[..|frame|] == frame;
  }

  lemma CutsTail(frames: seq<string>, seps: seq<string>, rest: string)
    requires Cuts(frames, seps, rest) && frames != []
    ensures Cuts(frames[1..], seps[1..], rest)
    ensures FindBoundary(frames[0] + seps[0]) == Some(Boundary(|frames[0]|, |seps[0]|))
  {
    assert forall i :: 0 <= i < |frames[1..]| ==> frames[1..][i] == frames[i + 1] && seps[1..][i] == seps[i + 1];
  }

  // ---- One frame ----

  predicate IsSpace(c: char) {
    IsSpaceCode(c as int)
  }

  function WithoutCr(s: string): string {
    if s != [] && s[|s| - 1] == '\r' then s[..|s| - 1] else s
  }

  /** `split(/\r?\n/)`. */
  function SplitLines(s: string): seq<string>
    decreases |s|
  {
    var n := IndexOf(s, "\n");
    if n == -1 then [s] else [WithoutCr(s[..n])] + SplitLines(s[n + 1..])
  }

  /** The first line with this prefix, without the prefix and without leading whitespace. */
  function Field(lines: seq<string>, prefix: string): Option<string> {
    if lines == [] then None
    else if prefix <= lines[0] then Some(TrimStart(lines[0][|prefix|..], IsSpace))
    else Field(lines[1..], prefix)
  }

  function Fields(lines: seq<string>, prefix: string): seq<string> {
    if lines == [] then []
    else (if prefix <= lines[0] then [TrimStart(lines[0][|prefix|..], IsSpace)] else []) + Fields(lines[1..], prefix)
  }

  datatype FrameFields = FrameFields(event: Option<string>, id: Option<string>, data: string)

  function ReadFields(frame: string): FrameFields {
    var lines := SplitLines(frame);
    FrameFields(Field(lines, "event:"), Field(lines, "id:"), Join(Fields(lines, "data:"), "\n"))
  }

  datatype Outcome = Skipped | Yields(event: Json.Value<string>) | Throws

  // JSON.parse: None when it throws.
  type JsonParse = string -> Option<Json.Value<string>>

  predicate Truthy(s: Option<string>) {
    s.Some? && s.value != []
  }

  /** Name and id are added to an object that has none of its own. */
  function Annotate(v: Json.Value<string>, event: Option<string>, id: Option<string>): Json.Value<string> {
    match v
    case Obj(fields) =>
      var named := if Truthy(event) && "event" !in fields then fields["event" := Json.Str(event.value)] else fields;
      Json.Obj(if Truthy(id) && "cursor" !in named then named["cursor" := Json.Str(id.value)] else named)
    case _ => v
  }

  /** The fields of an object, and those of the frame that it does not have itself. */
  function WithDefaults(fields: map<string, Json.Value<string>>, event: Option<string>, id: Option<string>)
    : map<string, Json.Value<string>>
  {
    var offered := (if event == None || event == Some("") then {} else {"event"})
                   + (if id == None || id == Some("") then {} else {"cursor"});
    map k | k in fields.Keys + offered ::
      if k in fields then fields[k] else Json.Str(if k == "event" then event.value else id.value)
  }

  /** The event name fills a missing "event", the id a missing "cursor", if they are not empty; no
      other field of an object changes, and nothing else than an object changes at all. */
  lemma AnnotateExactly(v: Json.Value<string>, event: Option<string>, id: Option<string>)
    ensures v.Obj? ==> Annotate(v, event, id) == Json.Obj(WithDefaults(v.fields, event, id))
    ensures !v.Obj? ==> Annotate(v, event, id) == v
  {
    if v.Obj? {
      var r := Annotate(v, event, id).fields;
      var w := WithDefaults(v.fields, event, id);
      assert "event" != "cursor" by { assert "event"[0] != "cursor"[0]; }
      assert r.Keys == w.Keys;
      assert forall k :: k in r ==> r[k] == w[k];
    }
  }

  /** The first line with a prefix decides its field. */
  lemma {:induction false} FieldExactly(lines: seq<string>, prefix: string)
    ensures Field(lines, prefix).None? <==> forall k :: 0 <= k < |lines| ==> !(prefix <= lines[k])
    ensures forall k :: 0 <= k < |lines| && prefix <= lines[k] && (forall j :: 0 <= j < k ==> !(prefix <= lines[j])) ==>
              Field(lines, prefix) == Some(TrimStart(lines[k][|prefix|..], IsSpace))
  {
    if lines == [] {
    } else {
      FieldExactly(lines[1..], prefix);
      assert forall k :: 0 < k < |lines| ==> lines[k] == lines[1..][k - 1];
    }
  }

  /** Every line with the prefix gives one part of the data, in order. */
  lemma {:induction false} FieldsJoin(a: seq<string>, b: seq<string>, prefix: string)
    ensures Fields(a + b, prefix) == Fields(a, prefix) + Fields(b, prefix)
  {
    if a == [] {
      assert a + b == b;
    } else {
      FieldsJoin(a[1..], b, prefix);
      assert (a + b)[1..] == a[1..] + b && (a + b)[0] == a[0];
      var here := if prefix <= a[0] then [TrimStart(a[0][|prefix|..], IsSpace)] else [];
      Associates(here, Fields(a[1..], prefix), Fields(b, prefix));
    }
  }

  lemma FieldsOne(line: string, prefix: string)
    ensures Fields([line], prefix) ==
            if prefix <= line then [TrimStart(line[|prefix|..], IsSpace)] else []
  {
    assert [line][1..] == [];
  }

  /** `parseSseFrame`. */
  function ParseFrame(frame: string, parse: JsonParse): Outcome {
    var f := ReadFields(frame);
    if f.data == [] || f.data == "[DONE]" then Skipped
    else match parse(f.data)
      case None => Throws
      case Some(v) => Yields(Annotate(v, f.event, f.id))
  }

  // ---- The stream ----

  datatype Events = Events(yielded: seq<Json.Value<string>>, failed: bool)

  /** Outcomes in order, up to the first one that throws. */
  function Consume(outcomes: seq<Outcome>): Events {
    if outcomes == [] then Events([], false)
    else match outcomes[0]
      case Skipped => Consume(outcomes[1..])
      case Yields(v) => var later := Consume(outcomes[1..]); Events([v] + later.yielded, later.failed)
      case Throws => Events([], true)
  }

  function Map<A, B>(f: A -> B, xs: seq<A>): (r: seq<B>)
    ensures |r| == |xs| && forall i :: 0 <= i < |xs| ==> r[i] == f(xs[i])
  {
    seq(|xs|, i requires 0 <= i < |xs| => f(xs[i]))
  }

  lemma MapAppend<A, B>(f: A -> B, xs: seq<A>, ys: seq<A>)
    ensures Map(f, xs + ys) == Map(f, xs) + Map(f, ys)
  {
  }

  function ParseFrames(frames: seq<string>, parse: JsonParse): seq<Outcome> {
    Map(frame => ParseFrame(frame, parse), frames)
  }

  /** The decoder's result on a text that arrives in one piece. */
  function Decode(text: string, parse: JsonParse): Events {
    Consume(ParseFrames(Frame(text).frames + [Frame(text).rest], parse))
  }

  function Then(first: Events, second: Events): Events {
    if first.failed then first else Events(first.yielded + second.yielded, second.failed)
  }

  lemma {:induction false} ConsumeAppend(a: seq<Outcome>, b: seq<Outcome>)
    ensures Consume(a + b) == Then(Consume(a), Consume(b))
  {
    if a == [] {
      assert a + b == b;
    } else {
      ConsumeAppend(a[1..], b);
      assert (a + b)[1..] == a[1..] + b && (a + b)[0] == a[0];
      if a[0].Yields? { ThenFirst(a[0], Consume(a[1..]), Consume(b)); }
    }
  }

  /** What one frame adds: nothing without data and for the end mark, a failure for bad JSON, and
      otherwise the value, an object with the frame's event name and id as defaults. */
  lemma FrameDecodes(frame: string, parse: JsonParse)
    ensures var f := ReadFields(frame);
            Consume([ParseFrame(frame, parse)]) ==
            if f.data == "" || f.data == "[DONE]" then Events([], false)
            else match parse(f.data)
              case None => Events([], true)
              case Some(Obj(fields)) => Events([Json.Obj(WithDefaults(fields, f.event, f.id))], false)
              case Some(v) => Events([v], false)
  {
    var f := ReadFields(frame);
    if parse(f.data).Some? { AnnotateExactly(parse(f.data).value, f.event, f.id); }
    assert Consume([ParseFrame(frame, parse)][1..]) == Events([], false);
  }

  lemma ThenFirst(o: Outcome, first: Events, second: Events)
    requires o.Yields?
    ensures var all := Then(first, second);
            Then(Events([o.event] + first.yielded, first.failed), second) == Events([o.event] + all.yielded, all.failed)
  {
  }

  lemma ParseAppend(a: seq<string>, b: seq<string>, parse: JsonParse)
    ensures ParseFrames(a + b, parse) == ParseFrames(a, parse) + ParseFrames(b, parse)
    ensures Consume(ParseFrames(a + b, parse)) == Then(Consume(ParseFrames(a, parse)), Consume(ParseFrames(b, parse)))
  {
    MapAppend(frame => ParseFrame(frame, parse), a, b);
    ConsumeAppend(ParseFrames(a, parse), ParseFrames(b, parse));
  }

  lemma {:induction false} ConcatSplit(chunks: seq<string>, k: nat)
    requires k <= |chunks|
    ensures Concat(chunks) == Concat(chunks[..k]) + Concat(chunks[k..])
  {
    if k == |chunks| {
      assert chunks[..k] == chunks && chunks[k..] == [];
    } else {
      var init, last := chunks[..|chunks| - 1], chunks[|chunks| - 1];
      ConcatSplit(init, k);
      assert init[..k] == chunks[..k];
      var later := chunks[k..];
      assert later[..|later| - 1] == init[k..] && later[|later| - 1] == last;
    }
  }

  /** Text that cannot complete a separator leaves the framing alone. */
  lemma FrameFlush(text: string, flush: string)
    requires '\n' !in flush
    ensures Frame(text + flush) == Framing(Frame(text).frames, Frame(text).rest + flush)
  {
    FrameAppend(text, flush);
    var rest := Frame(text).rest;
    var seps := FrameReassembles(text);
    BoundaryIsFirst(rest);
    forall i ensures !SeparatorAt(rest + flush, i) {
      assert !SeparatorAt(rest, i);
    }
    NoBoundary(rest + flush);
  }

  /** Taking one more frame off the buffer. */
  lemma NextFrame(full: string, done: seq<string>, buffer: string, b: Boundary)
    requires FindBoundary(buffer) == Some(b)
    requires Frame(full) == Framing(done + Frame(buffer).frames, Frame(buffer).rest)
    ensures var later := Frame(buffer[b.index + b.length..]);
            Frame(full) == Framing((done + [buffer[..b.index]]) + later.frames, later.rest)
  {
    FrameSome(buffer, b);
    Associates(done, [buffer[..b.index]], Frame(buffer[b.index + b.length..]).frames);
  }

  /** The inner loop: take complete frames off the buffer until one throws or none is left. */
  method DrainFrames(full: string, parse: JsonParse) returns (buffer: string, events: Events)
    ensures events == Consume(ParseFrames(Frame(full).frames, parse))
    ensures !events.failed ==> buffer == Frame(full).rest
  {
    buffer := full;
    var yielded: seq<Json.Value<string>> := [];
    ghost var done: seq<string> := [];
    while FindBoundary(buffer).Some?
      invariant Frame(full) == Framing(done + Frame(buffer).frames, Frame(buffer).rest)
      invariant Consume(ParseFrames(done, parse)) == Events(yielded, false)
      decreases |buffer|
    {
      var boundary := FindBoundary(buffer).value;
      var frame := buffer[..boundary.index];
      NextFrame(full, done, buffer, boundary);
      buffer := buffer[boundary.index + boundary.length..];
      ParseAppend(done, [frame], parse);
      var outcome := ParseFrame(frame, parse);
      OneFrame(frame, parse);
      match outcome {
        case Skipped =>
        case Yields(event) => yielded := yielded + [event];
        case Throws =>
          ParseAppend(done + [frame], Frame(buffer).frames, parse);
          events := Events(yielded, true);
          return;
      }
      done := done + [frame];
    }
    FrameNone(buffer);
    assert done + [] == done;
    events := Events(yielded, false);
  }

  lemma OneFrame(frame: string, parse: JsonParse)
    ensures Consume(ParseFrames([frame], parse)) ==
            match ParseFrame(frame, parse)
            case Skipped => Events([], false)
            case Yields(v) => Events([v], false)
            case Throws => Events([], true)
  {
  }

  /** `parseEventStream`. The chunks are the decoded pieces of text; `flush` is what the text
      decoder still holds at the end, at most a replacement character. The events and the
      failure depend on the text alone, not on how it was cut. */
  method ParseEventStream(chunks: seq<string>, flush: string, parse: JsonParse) returns (result: Events)
    requires '\n' !in flush
    ensures result == Decode(Concat(chunks) + flush, parse)
  {
    var buffer := "";
    result := Events([], false);
    for k := 0 to |chunks|
      invariant Frame(Concat(chunks[..k])).rest == buffer
      invariant result == Consume(ParseFrames(Frame(Concat(chunks[..k])).frames, parse)) && !result.failed
    {
      ghost var before := Frame(Concat(chunks[..k])).frames;
      assert chunks[..k + 1][..k] == chunks[..k];
      FrameAppend(Concat(chunks[..k]), chunks[k]);
      var more;
      ghost var full := buffer + chunks[k];
      buffer, more := DrainFrames(buffer + chunks[k], parse);
      ParseAppend(before, Frame(full).frames, parse);
      result := Events(result.yielded + more.yielded, more.failed);
      if result.failed {
        WholeText(chunks, k + 1, flush);
        FailsFurther(Concat(chunks[..k + 1]), Concat(chunks[k + 1..]) + flush, parse);
        return;
      }
    }
    assert chunks[..|chunks|] == chunks;
    FrameFlush(Concat(chunks), flush);
    buffer := buffer + flush;
    ParseAppend(Frame(Concat(chunks)).frames, [buffer], parse);
    OneFrame(buffer, parse);
    match ParseFrame(buffer, parse) {
      case Skipped =>
      case Yields(event) => result := Events(result.yielded + [event], false);
      case Throws => result := Events(result.yielded, true);
    }
  }

  lemma {:induction false} WholeText(chunks: seq<string>, k: nat, flush: string)
    requires k <= |chunks|
    ensures Concat(chunks[..k]) + (Concat(chunks[k..]) + flush) == Concat(chunks) + flush
  {
    ConcatSplit(chunks, k);
  }

  /** A failure in the frames of a prefix is the failure of the whole text. */
  lemma FailsFurther(a: string, b: string, parse: JsonParse)
    requires Consume(ParseFrames(Frame(a).frames, parse)).failed
    ensures Decode(a + b, parse) == Consume(ParseFrames(Frame(a).frames, parse))
  {
    FrameAppend(a, b);
    var later := Frame(Frame(a).rest + b).frames + [Frame(a + b).rest];
    assert Frame(a + b).frames + [Frame(a + b).rest] == Frame(a).frames + later;
    ParseAppend(Frame(a).frames, later, parse);
  }

  // ---- Printing and reading back ----

  datatype Message = Message(event: Option<string>, id: Option<string>, data: seq<string>)

  /** One line's worth of content that survives the reader: no line end, no leading whitespace. */
  predicate PlainText(s: string) {
    '\n' !in s && '\r' !in s && (s != [] ==> !IsSpace(s[0]))
  }

  predicate PlainOption(s: Option<string>) {
    s.Some? ==> s.value != [] && PlainText(s.value)
  }

  predicate Printable(m: Message) {
    && PlainOption(m.event) && PlainOption(m.id)
    && m.data != [] && (forall d :: d in m.data ==> PlainText(d))
    && Join(m.data, "\n") != [] && Join(m.data, "\n") != "[DONE]"
  }

  function Labelled(lbl: string, s: Option<string>): seq<string> {
    if s.Some? then [lbl + " " + s.value] else []
  }

  function DataLines(data: seq<string>): seq<string> {
    if data == [] then [] else ["data: " + data[0]] + DataLines(data[1..])
  }

  function Lines(m: Message): seq<string> {
    Labelled("event:", m.event) + Labelled("id:", m.id) + DataLines(m.data)
  }

  function Eol(crlf: bool): string {
    if crlf then "\r\n" else "\n"
  }

  function Body(m: Message, crlf: bool): string {
    Join(Lines(m), Eol(crlf))
  }

  /** The lines of a message and an empty line, with LF or with CRLF line ends. */
  function Print(m: Message, crlf: bool): string {
    Body(m, crlf) + Eol(crlf) + Eol(crlf)
  }

  datatype Sent = Sent(message: Message, crlf: bool)

  function PrintAll(ms: seq<Sent>): string {
    if ms == [] then [] else Print(ms[0].message, ms[0].crlf) + PrintAll(ms[1..])
  }

  /** Non-empty lines without line ends. */
  predicate LinesOk(lines: seq<string>) {
    lines != [] && forall l :: l in lines ==> l != [] && '\n' !in l && '\r' !in l
  }

  lemma {:induction false} DataLinesOk(data: seq<string>)
    requires forall d :: d in data ==> PlainText(d)
    ensures |DataLines(data)| == |data|
    ensures forall l :: l in DataLines(data) ==> l != [] && '\n' !in l && '\r' !in l && "data:" <= l
  {
    if data == [] {
    } else {
      DataLinesOk(data[1..]);
      assert data[0] in data;
    }
  }

  lemma PrintableLinesOk(m: Message)
    requires Printable(m)
    ensures LinesOk(Lines(m))
  {
    DataLinesOk(m.data);
  }

  /** Line ends only inside, never two in a row. */
  predicate Compact(s: string) {
    && s != [] && s[0] != '\n' && s[0] != '\r' && s[|s| - 1] != '\n' && s[|s| - 1] != '\r'
    && forall i :: 0 <= i < |s| - 1 && s[i] == '\n' ==> s[i + 1] != '\n' && s[i + 1] != '\r'
  }

  lemma {:induction false} JoinCompact(lines: seq<string>, crlf: bool)
    requires LinesOk(lines)
    ensures Compact(Join(lines, Eol(crlf))) && Join(lines, Eol(crlf))[0] == lines[0][0]
  {
    assert lines[0] in lines;
    if |lines| == 1 {
    } else {
      assert forall l :: l in lines[1..] ==> l in lines;
      JoinCompact(lines[1..], crlf);
      CompactConcat(lines[0], Eol(crlf), Join(lines[1..], Eol(crlf)));
    }
  }

  lemma CompactConcat(line: string, eol: string, rest: string)
    requires line != [] && '\n' !in line && '\r' !in line && (eol == "\n" || eol == "\r\n") && Compact(rest)
    ensures Compact(line + eol + rest)
  {
  }

  /** An empty line behind a compact body is the first boundary. */
  lemma PrintedBoundary(body: string, crlf: bool)
    requires Compact(body)
    ensures FindBoundary(body + Eol(crlf) + Eol(crlf)) == Some(Boundary(|body|, 2 * |Eol(crlf)|))
  {
    var s := body + Eol(crlf) + Eol(crlf);
    forall i | i < |body| ensures !SeparatorAt(s, i) {
      assert 0 <= i < |body| - 1 && body[i] == '\n' ==> s[i + 1] == body[i + 1];
    }
    BoundaryAt(s, |body|, 2 * |Eol(crlf)|);
  }

  /** The bodies in order, and the empty text behind the last message. */
  function Pieces(ms: seq<Sent>): seq<string> {
    if ms == [] then [[]] else [Body(ms[0].message, ms[0].crlf)] + Pieces(ms[1..])
  }

  lemma PrintedFirst(m: Message, crlf: bool, later: string)
    requires Printable(m)
    ensures Frame(Print(m, crlf) + later) == Framing([Body(m, crlf)] + Frame(later).frames, Frame(later).rest)
  {
    PrintableLinesOk(m);
    JoinCompact(Lines(m), crlf);
    var body := Body(m, crlf);
    PrintedBoundary(body, crlf);
    BodyFirst(body, Print(m, crlf), later);
  }

  lemma BodyFirst(body: string, printed: string, later: string)
    requires body <= printed && FindBoundary(printed) == Some(Boundary(|body|, |printed| - |body|))
    ensures Frame(printed + later) == Framing([body] + Frame(later).frames, Frame(later).rest)
  {
    BoundaryStable(printed, later);
    assert (printed + later)[|printed|..] == later && (printed + later)[..|body|] == body;
  }

  /** Printed messages are framed into their bodies, with nothing left over. */
  lemma {:induction false} PrintedFrames(ms: seq<Sent>)
    requires forall s :: s in ms ==> Printable(s.message)
    ensures Frame(PrintAll(ms)).frames + [Frame(PrintAll(ms)).rest] == Pieces(ms)
  {
    if ms == [] {
      NoBoundary([]);
      FrameNone([]);
    } else {
      assert ms[0] in ms && forall s :: s in ms[1..] ==> s in ms;
      var later := Frame(PrintAll(ms[1..]));
      PrintedFirst(ms[0].message, ms[0].crlf, PrintAll(ms[1..]));
      PrintedFrames(ms[1..]);
      Associates([Body(ms[0].message, ms[0].crlf)], later.frames, [later.rest]);
    }
  }

  lemma SplitFirst(line: string, crlf: bool, later: string)
    requires '\n' !in line && '\r' !in line
    ensures SplitLines(line + Eol(crlf) + later) == [line] + SplitLines(later)
  {
    var s := line + Eol(crlf) + later;
    var n := |line| + |Eol(crlf)| - 1;
    assert s[n..n + 1] == "\n";
    NoNewline(s, n);
    IndexOfIs(s, "\n", n);
    assert s[n + 1..] == later;
    assert WithoutCr(s[..n]) == line;
  }

  lemma {:induction false} SplitJoined(lines: seq<string>, crlf: bool)
    requires lines != [] && forall l :: l in lines ==> '\n' !in l && '\r' !in l
    ensures SplitLines(Join(lines, Eol(crlf))) == lines
  {
    assert lines[0] in lines;
    if |lines| == 1 {
      SplitNothing(lines[0]);
    } else {
      assert forall l :: l in lines[1..] ==> l in lines;
      var later := Join(lines[1..], Eol(crlf));
      SplitJoined(lines[1..], crlf);
      SplitFirst(lines[0], crlf, later);
      assert Join(lines, Eol(crlf)) == lines[0] + Eol(crlf) + later;
      assert lines == [lines[0]] + lines[1..];
    }
  }

  lemma SplitNothing(line: string)
    requires '\n' !in line
    ensures SplitLines(line) == [line]
  {
    NoNewline(line, |line|);
  }

  lemma NoNewline(s: string, n: nat)
    requires n <= |s| && forall i :: 0 <= i < n ==> s[i] != '\n'
    ensures forall i :: 0 <= i < n ==> !OccursAt(s, "\n", i)
  {
    forall i | 0 <= i < n ensures !OccursAt(s, "\n", i) {
      assert s[i..i + 1] == [s[i]];
    }
  }

  lemma TrimPadded(s: string)
    requires PlainText(s)
    ensures TrimStart(" " + s, IsSpace) == s
  {
  }

  lemma DataLine(d: string)
    requires PlainText(d)
    ensures var line := "data: " + d;
            "data:" <= line && TrimStart(line[|"data:"|..], IsSpace) == d && !("event:" <= line) && !("id:" <= line)
  {
    var line := "data: " + d;
    assert line[|"data:"|..] == " " + d;
    TrimPadded(d);
    assert line[0] == 'd';
  }

  lemma {:induction false} DataFields(data: seq<string>)
    requires forall d :: d in data ==> PlainText(d)
    ensures Fields(DataLines(data), "data:") == data
    ensures Field(DataLines(data), "event:") == None && Field(DataLines(data), "id:") == None
  {
    if data == [] {
    } else {
      assert data[0] in data;
      DataLine(data[0]);
      DataFields(data[1..]);
      var lines := DataLines(data);
      assert lines[0] == "data: " + data[0] && lines[1..] == DataLines(data[1..]);
      assert data == [data[0]] + data[1..];
    }
  }

  /** Putting one labelled line in front changes only the field with that label. */
  lemma LabelFirst(lbl: string, s: Option<string>, rest: seq<string>, prefix: string)
    requires PlainOption(s) && lbl != [] && prefix != [] && (lbl == prefix || lbl[0] != prefix[0])
    ensures Field(Labelled(lbl, s) + rest, prefix) ==
            if s.Some? && lbl == prefix then s else Field(rest, prefix)
    ensures Fields(Labelled(lbl, s) + rest, prefix) ==
            (if s.Some? && lbl == prefix then [s.value] else []) + Fields(rest, prefix)
  {
    var lines := Labelled(lbl, s) + rest;
    if s.Some? {
      var line := lbl + " " + s.value;
      assert lines[0] == line && lines[1..] == rest;
      if lbl == prefix {
        assert line[|prefix|..] == " " + s.value;
        TrimPadded(s.value);
      } else {
        assert line[0] == lbl[0];
      }
    } else {
      assert lines == rest;
    }
  }

  lemma LinesFields(m: Message)
    requires Printable(m)
    ensures Field(Lines(m), "event:") == m.event
    ensures Field(Lines(m), "id:") == m.id
    ensures Fields(Lines(m), "data:") == m.data
  {
    var data := DataLines(m.data);
    assert Lines(m) == Labelled("event:", m.event) + (Labelled("id:", m.id) + data);
    DataFields(m.data);
    LabelsFirst(m, data, "event:");
    LabelsFirst(m, data, "id:");
    LabelsFirst(m, data, "data:");
  }

  lemma LabelsFirst(m: Message, data: seq<string>, prefix: string)
    requires PlainOption(m.event) && PlainOption(m.id) && prefix in {"event:", "id:", "data:"}
    ensures var lines := Labelled("event:", m.event) + (Labelled("id:", m.id) + data);
            && Field(lines, prefix) == (if m.event.Some? && prefix == "event:" then m.event
                                        else if m.id.Some? && prefix == "id:" then m.id else Field(data, prefix))
            && Fields(lines, prefix) == (if m.event.Some? && prefix == "event:" then [m.event.value] else []) +
                                        ((if m.id.Some? && prefix == "id:" then [m.id.value] else [])
                                         + Fields(data, prefix))
  {
    LabelFirst("id:", m.id, data, prefix);
    LabelFirst("event:", m.event, Labelled("id:", m.id) + data, prefix);
  }

  /** Reading back a printed message; the joined data splits into the lines that were sent. */
  lemma ReadPrinted(m: Message, crlf: bool)
    requires Printable(m)
    ensures ReadFields(Body(m, crlf)) == FrameFields(m.event, m.id, Join(m.data, "\n"))
    ensures SplitLines(Join(m.data, "\n")) == m.data
  {
    SplitJoined(m.data, false);
    PrintableLinesOk(m);
    SplitJoined(Lines(m), crlf);
    LinesFields(m);
  }

  /** What the reader of one message should see. */
  function Single(m: Message, parse: JsonParse): Events {
    match parse(Join(m.data, "\n"))
    case None => Events([], true)
    case Some(v) =>
      Events([if v.Obj? then Json.Obj(WithDefaults(v.fields, m.event, m.id)) else v], false)
  }

  /** What the reader of these messages should see: one event each, up to bad JSON. */
  function Expected(ms: seq<Sent>, parse: JsonParse): Events {
    if ms == [] then Events([], false) else Then(Single(ms[0].message, parse), Expected(ms[1..], parse))
  }

  lemma BodyEvents(m: Message, crlf: bool, parse: JsonParse)
    requires Printable(m)
    ensures Consume(ParseFrames([Body(m, crlf)], parse)) == Single(m, parse)
  {
    ReadPrinted(m, crlf);
    OneFrame(Body(m, crlf), parse);
    var parsed := parse(Join(m.data, "\n"));
    if parsed.Some? { AnnotateExactly(parsed.value, m.event, m.id); }
  }

  lemma EmptyEvents(parse: JsonParse)
    ensures Consume(ParseFrames([[]], parse)) == Events([], false)
  {
  }

  lemma {:induction false} ConsumePieces(ms: seq<Sent>, parse: JsonParse)
    requires forall s :: s in ms ==> Printable(s.message)
    ensures Consume(ParseFrames(Pieces(ms), parse)) == Expected(ms, parse)
  {
    if ms == [] {
      EmptyEvents(parse);
    } else {
      BodyEvents(ms[0].message, ms[0].crlf, parse);
      ConsumePieces(ms[1..], parse);
      ParseAppend([Body(ms[0].message, ms[0].crlf)], Pieces(ms[1..]), parse);
    }
  }

  /** Reading undoes printing. */
  lemma PrintedIsDecoded(ms: seq<Sent>, parse: JsonParse)
    requires forall s :: s in ms ==> Printable(s.message)
    ensures Decode(PrintAll(ms), parse) == Expected(ms, parse)
  {
    PrintedFrames(ms);
    ConsumePieces(ms, parse);
  }

  /** Whatever pieces the printed messages arrive in, the reader sees exactly the messages that
      were sent. */
  method PrintedIsRecovered(ghost ms: seq<Sent>, chunks: seq<string>, parse: JsonParse) returns (result: Events)
    requires (forall s :: s in ms ==> Printable(s.message)) && Concat(chunks) == PrintAll(ms)
    ensures result == Expected(ms, parse)
  {
    result := ParseEventStream(chunks, "", parse);
    assert Concat(chunks) + "" == PrintAll(ms);
    PrintedIsDecoded(ms, parse);
  }
}
