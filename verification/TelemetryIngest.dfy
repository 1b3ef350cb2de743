/**
 The telemetry endpoint (telemetry-ingest/src/index.ts): a bounded reader over a chunked body
 and a handler that writes the rows of a conforming batch.
 */
module TelemetryIngest {
  import opened Text
  import opened TelemetrySchema
  import opened TelemetryRows

  type Byte = b: int | 0 <= b < 256

  // What one read of the stream yields; None for a read without a value.
  type Chunk = Option<seq<Byte>>

  function ChunkBytes(c: Chunk): seq<Byte> {
    if c.Some? then c.value else []
  }

  /** The body, whatever its chunks. */
  function Body(chunks: seq<Chunk>): seq<Byte> {
    FlatMap(ChunkBytes, chunks)
  }

  lemma {:induction false} PrefixIsShorter(chunks: seq<Chunk>, k: nat)
    requires k <= |chunks|
    ensures |Body(chunks[..k])| <= |Body(chunks)|
    decreases |chunks| - k
  {
    if k == |chunks| {
      assert chunks[..k] == chunks;
    } else {
      PrefixIsShorter(chunks, k + 1);
      FlatMapStep(ChunkBytes, chunks, k);
    }
  }

  /** A request body: what its reads yield, whether a read then fails, and whether the stream can
      be cancelled. */
  datatype Stream = Stream(chunks: seq<Chunk>, breaks: bool, cancels: bool)

  datatype Reading = Whole(bytes: seq<Byte>) | Missing | Thrown

  /** What reading a body gives, said of the whole body: nothing when it is absent or over the
      limit, and an exception when it breaks off within the limit or cannot be cancelled over it. */
  function Reads(body: Option<Stream>, limit: nat): Reading {
    if body.None? then Missing
    else if |Body(body.value.chunks)| > limit then (if body.value.cancels then Missing else Thrown)
    else if body.value.breaks then Thrown
    else Whole(Body(body.value.chunks))
  }

  /** `readBounded`: the result depends on the whole body alone, and reading stops with the chunk
      that goes over the limit. */
  method ReadBounded(body: Option<Stream>, limit: nat) returns (r: Reading, taken: nat)
    ensures r == Reads(body, limit)
    ensures body.Some? && |Body(body.value.chunks)| <= limit ==> taken == |body.value.chunks|
    ensures body.Some? && |Body(body.value.chunks)| > limit ==>
              && 0 < taken <= |body.value.chunks|
              && |Body(body.value.chunks[..taken - 1])| <= limit < |Body(body.value.chunks[..taken])|
  {
    if body.None? { return Missing, 0; }
    var stream := body.value.chunks;
    var chunks: seq<seq<Byte>> := [];
    var total := 0;
    taken := 0;
    while taken < |stream|
      invariant taken <= |stream| && total == |Body(stream[..taken])| <= limit
      invariant Concat(chunks) == Body(stream[..taken])
    {
      var value := stream[taken];
      FlatMapStep(ChunkBytes, stream, taken);
      taken := taken + 1;
      if value.None? { continue; }
      total := total + |value.value|;
      if total > limit {
        PrefixIsShorter(stream, taken);
        return if body.value.cancels then Missing else Thrown, taken;
      }
      assert (chunks + [value.value])[..|chunks|] == chunks;
      chunks := chunks + [value.value];
    }
    assert stream[..|stream|] == stream;
    if body.value.breaks { return Thrown, taken; }
    var joined := JoinChunks(chunks, total);
    r := Whole(joined[..]);
  }

  /** Copying the chunks one behind the other into one array. */
  method JoinChunks(chunks: seq<seq<Byte>>, total: nat) returns (joined: array<Byte>)
    requires total == |Concat(chunks)|
    ensures joined[..] == Concat(chunks)
  {
    joined := new Byte[total](i => 0);
    var offset := 0;
    for i := 0 to |chunks|
      invariant offset == |Concat(chunks[..i])| <= total && joined[..offset] == Concat(chunks[..i])
    {
      assert chunks[..i + 1][..i] == chunks[..i];
      FlattenFits(chunks, i + 1);
      forall k | 0 <= k < |chunks[i]| { joined[offset + k] := chunks[i][k]; }
      assert joined[..offset + |chunks[i]|] == joined[..offset] + chunks[i];
      offset := offset + |chunks[i]|;
    }
    assert chunks[..|chunks|] == chunks;
  }

  lemma {:induction false} FlattenFits(chunks: seq<seq<Byte>>, k: nat)
    requires k <= |chunks|
    ensures |Concat(chunks[..k])| <= |Concat(chunks)|
    decreases |chunks| - k
  {
    if k == |chunks| {
      assert chunks[..k] == chunks;
    } else {
      FlattenFits(chunks, k + 1);
      assert chunks[..k + 1][..k] == chunks[..k];
    }
  }

  // ---- The handler ----

  const INGEST_PATH := "/v1/telemetry"

  datatype Declared = NotFinite | Finite(length: real)

  datatype Request = Request(verb: string, pathname: string, contentType: Option<string>, declared: Option<Declared>,
                             body: Option<Stream>)

  /** What the rate limiter says; its call may fail. */
  datatype Limit = Allowed | Denied | Failing

  /** Decoding, parsing and rate limiting, as the runtime provides them. */
  datatype Env = Env(decode: seq<Byte> -> Option<string>, parse: string -> Option<Value>,
                     limiter: Option<string -> Limit>)

  predicate IsJsonType(contentType: Option<string>) {
    contentType.Some? && |contentType.value| >= 16 &&
    forall i :: 0 <= i < 16 ==> LowerAscii(contentType.value[i]) == "application/json"[i]
  }

  predicate InEitherCase(c: char, lower: char) {
    c == lower || ('a' <= lower <= 'z' && c as int == lower as int - 32)
  }

  /** The header begins with "application/json" in any case. */
  lemma JsonTypeExactly(v: string)
    ensures IsJsonType(Some(v)) <==>
            |v| >= 16 && forall i :: 0 <= i < 16 ==> InEitherCase(v[i], "application/json"[i])
    ensures !IsJsonType(None)
  {
    forall i | 0 <= i < 16 && |v| >= 16
      ensures LowerAscii(v[i]) == "application/json"[i] <==> InEitherCase(v[i], "application/json"[i])
    {
      EitherCase(v[i], "application/json"[i]);
    }
  }

  lemma EitherCase(c: char, lower: char)
    requires !('A' <= lower <= 'Z')
    ensures LowerAscii(c) == lower <==> InEitherCase(c, lower)
  {
    LowerAsciiExactly(c);
  }

  predicate FitsDeclared(declared: Option<Declared>) {
    declared.None? || (declared.value.Finite? && declared.value.length <= MAX_BODY_BYTES as real)
  }

  predicate IsIngest(req: Request) {
    req.verb == "POST" && req.pathname == INGEST_PATH && IsJsonType(req.contentType)
  }

  /** What reading the request's body gives, once its headers are in order. */
  function Received(req: Request): Reading {
    Reads(req.body, MAX_BODY_BYTES)
  }

  /** The bytes as text and then as JSON. */
  function Parsed(env: Env, bytes: seq<Byte>): Option<Value> {
    match env.decode(bytes)
    case None => None
    case Some(text) => env.parse(text)
  }

  /** The request carries this batch. */
  ghost predicate Carries(req: Request, env: Env, b: Batch) {
    && IsIngest(req) && FitsDeclared(req.declared) && Received(req).Whole?
    && ValidBatch(b) && Parsed(env, Received(req).bytes) == Some(BatchToJson(b))
  }

  function Limited(env: Env, b: Batch): Limit {
    if env.limiter.None? then Allowed else env.limiter.value(b.installId)
  }

  /** Something throws before the write: the body, or the rate limiter on a conforming batch. */
  ghost predicate Breaks(req: Request, env: Env) {
    || (IsIngest(req) && FitsDeclared(req.declared) && Received(req).Thrown?)
    || exists b :: Carries(req, env, b) && Limited(env, b) == Failing
  }

  /** The refusals, in the order of the code. */
  ghost predicate RefusedWith(req: Request, env: Env, status: nat) {
    || (status == 405 && req.verb != "POST")
    || (status == 404 && req.verb == "POST" && req.pathname != INGEST_PATH)
    || (status == 415 && req.verb == "POST" && req.pathname == INGEST_PATH && !IsJsonType(req.contentType))
    || (status == 413 && IsIngest(req) && (!FitsDeclared(req.declared) || Received(req).Missing?))
    || (status == 400 && IsIngest(req) && FitsDeclared(req.declared) && Received(req).Whole?
        && forall b :: !Carries(req, env, b))
    || (status == 429 && exists b :: Carries(req, env, b) && Limited(env, b) == Denied)
  }

  /** A request is too large, and answered 413, exactly when its declared length is not a finite
      number or exceeds 73728, or its body is missing or has more bytes than that and can be
      cancelled. */
  lemma TooLargeExactly(req: Request, env: Env)
    requires IsIngest(req)
    ensures RefusedWith(req, env, 413) <==>
            || (req.declared.Some? && (req.declared.value.NotFinite? || req.declared.value.length > 73728.0))
            || req.body.None?
            || (|Body(req.body.value.chunks)| > 73728 && req.body.value.cancels)
  {
  }

  /** A request carries at most one batch. */
  lemma CarriesOne(req: Request, env: Env, b: Batch)
    requires Carries(req, env, b)
    ensures forall c :: Carries(req, env, c) ==> c == b
  {
    forall c | Carries(req, env, c) ensures c == b { BatchInjective(b, c); }
  }

  lemma CarriedIsComplete(b: Batch)
    requires ValidBatch(b)
    ensures forall e :: e in b.events ==> Complete(e)
  {
  }

  /** The dataset. It takes a limited number of points per invocation and throws beyond that. */
  class Sink {
    var rows: seq<DataPoint>
    var room: nat

    constructor (room: nat)
      ensures rows == [] && this.room == room
    {
      this.rows, this.room := [], room;
    }

    method WriteDataPoint(point: DataPoint) returns (ok: bool)
      modifies this
      ensures ok <==> old(room) > 0
      ensures ok ==> rows == old(rows) + [point] && room == old(room) - 1
      ensures !ok ==> rows == old(rows) && room == old(room)
    {
      ok := room > 0;
      if ok { rows, room := rows + [point], room - 1; }
    }
  }

  function Min(a: nat, b: nat): nat {
    if a < b then a else b
  }

  /** `writeBatch`: the rows in order, up to the point where the dataset throws. */
  method WriteBatch(sink: Sink, batch: Batch) returns (ok: bool)
    requires forall e :: e in batch.events ==> Complete(e)
    modifies sink
    ensures sink.rows == old(sink.rows) + Rows(batch)[..Min(old(sink.room), |batch.events|)]
    ensures ok <==> |batch.events| <= old(sink.room)
  {
    var points := ToDataPoints(batch);
    for i := 0 to |points|
      invariant i <= old(sink.room) && sink.room == old(sink.room) - i
      invariant sink.rows == old(sink.rows) + points[..i]
    {
      assert points[..i + 1] == points[..i] + [points[i]];
      var written := sink.WriteDataPoint(points[i]);
      if !written { return false; }
    }
    return true;
  }

  datatype Screening = Refused(status: nat) | Threw | Conforming(batch: Batch)

  /** Everything before the write. The status says which check failed, in the order of the code. */
  method Screen(req: Request, env: Env) returns (r: Screening)
    ensures forall b :: r == Conforming(b) <==> Carries(req, env, b) && Limited(env, b) == Allowed
    ensures forall status :: r == Refused(status) <==> RefusedWith(req, env, status)
    ensures r.Threw? <==> Breaks(req, env)
  {
    if req.verb != "POST" { return Refused(405); }
    if req.pathname != INGEST_PATH { return Refused(404); }
    if !IsJsonType(req.contentType) { return Refused(415); }
    if !FitsDeclared(req.declared) { return Refused(413); }
    var raw, taken := ReadBounded(req.body, MAX_BODY_BYTES);
    if raw.Thrown? { return Threw; }
    if raw.Missing? { return Refused(413); }
    r := Judge(req, env, raw.bytes);
  }

  /** From the bytes of an admitted request on. */
  method Judge(req: Request, env: Env, raw: seq<Byte>) returns (r: Screening)
    requires IsIngest(req) && FitsDeclared(req.declared) && Received(req) == Whole(raw)
    ensures forall b :: r == Conforming(b) <==> Carries(req, env, b) && Limited(env, b) == Allowed
    ensures forall status :: r == Refused(status) <==> RefusedWith(req, env, status)
    ensures r.Threw? <==> Breaks(req, env)
  {
    var text := env.decode(raw);
    if text.None? { return Refused(400); }
    var parsed := env.parse(text.value);
    if parsed.None? { return Refused(400); }
    var batch := ValidateBatch(parsed.value);
    if batch.None? { return Refused(400); }
    assert Carries(req, env, batch.value);
    CarriesOne(req, env, batch.value);
    if env.limiter.Some? {
      var limit := env.limiter.value(batch.value.installId);
      if limit.Failing? { return Threw; }
      if limit.Denied? { return Refused(429); }
    }
    return Conforming(batch.value);
  }

  /** The request is answered by writing this batch. */
  ghost predicate Written(req: Request, env: Env, b: Batch) {
    Carries(req, env, b) && Limited(env, b) == Allowed && forall e :: e in b.events ==> Complete(e)
  }

  /** `fetch`: which status, and what is written. A conforming batch that the limiter allows goes
      into the dataset row by row as far as there is room, with 204 when all of it fits and 500
      when not; an exception before that gives 500; every refusal has its own status. Only a
      conforming batch is written, so a 500 leaves the dataset alone exactly when something threw
      before the write or at the first row of it. */
  method Fetch(req: Request, env: Env, sink: Sink) returns (status: nat)
    modifies sink
    ensures status == 204 <==> exists b :: Written(req, env, b) && |b.events| <= old(sink.room)
    ensures status == 500 <==> Breaks(req, env) || exists b :: Written(req, env, b) && |b.events| > old(sink.room)
    ensures status != 204 && status != 500 <==> exists refusal :: RefusedWith(req, env, refusal)
    ensures forall refusal :: RefusedWith(req, env, refusal) ==> status == refusal
    ensures forall b :: Written(req, env, b) ==>
              sink.rows == old(sink.rows) + Rows(b)[..Min(old(sink.room), |b.events|)]
    ensures (forall b :: !Written(req, env, b)) ==> sink.rows == old(sink.rows)
    ensures status == 500 ==> (sink.rows == old(sink.rows) <==> Breaks(req, env) || old(sink.room) == 0)
    ensures old(sink.room) >= 200 && !Breaks(req, env) ==> status != 500
  {
    var screening := Screen(req, env);
    if screening.Threw? { return 500; }
    if screening.Refused? {
      assert RefusedWith(req, env, screening.status);
      return screening.status;
    }
    var b := screening.batch;
    CarriesOne(req, env, b);
    CarriedIsComplete(b);
    assert Written(req, env, b);
    var ok := WriteBatch(sink, b);
    assert |sink.rows| == |old(sink.rows)| + Min(old(sink.room), |b.events|);
    return if ok then 204 else 500;
  }

  // ---- A batch that is written in part ----

  const SAMPLE_ID := "01234567-89ab-4cde-" + "8f01-23456789abcd"

  /** Two session starts. */
  function TwoStarts(): Batch {
    Batch("2026-01-02T03:04:05Z", SAMPLE_ID, "1.2.3", None,
          "cli", "linux", "x86_64", "gnu", true, [SessionStart("api"), SessionStart("fork")])
  }

  lemma SampleVersion()
    ensures IsVersion("1.2.3")
  {
    var s := "1.2.3";
    assert s[..1] == "1" && s[2..3] == "2" && s[4..5] == "3";
    assert VersionAt(s, 1, 3, 5);
  }

  lemma SampleTime()
    ensures IsSentAt("2026-01-02T03:04:05Z")
  {
  }

  lemma TemplatesJoin(t: string, u: string, r: string, s: string)
    requires MatchesTemplate(t, r) && MatchesTemplate(u, s)
    ensures MatchesTemplate(t + u, r + s)
  {
  }

  lemma SampleId()
    ensures IsInstallId(SAMPLE_ID)
  {
    SampleIdHead();
    SampleIdTail();
    TemplatesJoin("hhhhhhhh-hhhh-4hhh-", "vhhh-hhhhhhhhhhhh", "01234567-89ab-4cde-", "8f01-23456789abcd");
    assert "hhhhhhhh-hhhh-4hhh-" + "vhhh-hhhhhhhhhhhh" == "hhhhhhhh-hhhh-4hhh-vhhh-hhhhhhhhhhhh";
  }

  lemma SampleIdHead()
    ensures MatchesTemplate("hhhhhhhh-hhhh-4hhh-", "01234567-89ab-4cde-")
  {
  }

  lemma SampleIdTail()
    ensures MatchesTemplate("vhhh-hhhhhhhhhhhh", "8f01-23456789abcd")
  {
  }

  lemma SampleNames()
    ensures "cli" in SURFACES && "linux" in OSES && "x86_64" in ARCHES && "gnu" in LIBCS
    ensures "api" in SESSION_SOURCES && "fork" in SESSION_SOURCES
  {
    assert SURFACES[2] == "cli" && OSES[0] == "linux" && ARCHES[0] == "x86_64" && LIBCS[0] == "gnu";
    assert SESSION_SOURCES[3] == "api" && SESSION_SOURCES[2] == "fork";
  }

  lemma TwoStartsValid()
    ensures ValidBatch(TwoStarts())
  {
    SampleVersion();
    SampleTime();
    SampleId();
    SampleNames();
  }

  /** Every batch can be cut short: sent as it is to a dataset with less room than it has events,
      it is answered 500 with the rows that fit written. */
  method CutShort(b: Batch, room: nat) returns (status: nat, sink: Sink)
    requires ValidBatch(b) && room < |b.events|
    ensures status == 500 && forall e :: e in b.events ==> Complete(e)
    ensures sink.rows == Rows(b)[..room]
  {
    CarriedIsComplete(b);
    var req := Request("POST", INGEST_PATH, Some("application/json"), None, Some(Stream([], false, true)));
    var env := Env(bytes => Some(""), text => Some(BatchToJson(b)), None);
    sink := new Sink(room);
    assert Written(req, env, b);
    status := Fetch(req, env, sink);
  }

  /** One of two rows is written and the answer is 500. */
  method OneOfTwo() returns (status: nat, sink: Sink)
    ensures status == 500 && Complete(TwoStarts().events[0])
    ensures sink.rows == [Row(TwoStarts(), TwoStarts().events[0])]
  {
    var b := TwoStarts();
    TwoStartsValid();
    status, sink := CutShort(b, 1);
    assert Rows(b)[..1] == [Rows(b)[0]];
  }

  /** Each row of a carried batch has one index, 17 blobs and 20 u32 doubles, and there are at
      most 200 of them. */
  lemma RowsWithinLimits(b: Batch)
    requires ValidBatch(b)
    ensures forall e :: e in b.events ==> Complete(e)
    ensures |Rows(b)| == |b.events| <= 200
    ensures forall p :: p in Rows(b) ==>
              |p.indexes| == 1 && |p.blobs| == 17 && |p.doubles| == 20
              && forall x :: x in p.doubles ==> 0 <= x <= 0xFFFF_FFFF
  {
    CarriedIsComplete(b);
    forall p | p in Rows(b)
      ensures |p.indexes| == 1 && |p.blobs| == 17 && |p.doubles| == 20
              && forall x :: x in p.doubles ==> 0 <= x <= 0xFFFF_FFFF
    {
      var i :| 0 <= i < |Rows(b)| && Rows(b)[i] == p;
      DoublesAreU32(b.events[i]);
    }
  }
}
