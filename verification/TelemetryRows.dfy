/**
 Batches as positional Analytics Engine rows (telemetry-ingest/src/datapoint.ts), and the
 reader that takes them back: the layout loses nothing.
 */
module TelemetryRows {
  import opened Text
  import opened TelemetrySchema

  const BLOBS := 17
  const DOUBLES := 20

  /** One row, in positional form. */
  datatype DataPoint = DataPoint(indexes: seq<string>, blobs: seq<string>, doubles: seq<int>)

  function OrEmpty(s: Option<string>): string {
    if s.Some? then s.value else ""
  }

  /** The counts of the listed fields, in order. */
  function Columns(m: Counts, fields: seq<Key>): (xs: seq<int>)
    requires Members(fields) <= m.Keys
    ensures |xs| == |fields| && forall i :: 0 <= i < |fields| ==> fields[i] in m && xs[i] == m[fields[i]]
  {
    assert forall i :: 0 <= i < |fields| ==> fields[i] in Members(fields);
    seq(|fields|, i requires 0 <= i < |fields| => m[fields[i]])
  }

  /** The names that the three groups of doubles are written under. */
  predicate Complete(e: Event) {
    e.SessionEnd? ==>
      && Members(COUNTER_FIELDS) <= e.counters.Keys && Members(ERROR_FIELDS) <= e.errors.Keys
      && Members(TURN_WALL_FIELDS) <= e.turnWall.Keys
  }

  /** `toDataPoint`, filling the blobs in place: the envelope's columns, then the event's. */
  method ToDataPoint(batch: Batch, event: Event) returns (point: DataPoint)
    requires Complete(event)
    ensures point == Row(batch, event)
  {
    var blobs := new string[BLOBS](i => "");
    FillEnvelope(blobs, batch, TagOf(event));
    FillEvent(blobs, batch, event);
    var doubles := seq(DOUBLES, i => 0);
    if event.SessionEnd? {
      doubles := Columns(event.counters, COUNTER_FIELDS) + Columns(event.errors, ERROR_FIELDS)
      + Columns(event.turnWall, TURN_WALL_FIELDS);
    }
    point := DataPoint([batch.installId], blobs[..], doubles);
    assert blobs[..] == Blobs(batch, event);
  }

  /** The columns that every row of a batch has in common, and the event's name. */
  function EnvelopeBlob(batch: Batch, tag: string, i: nat): string {
    if i == 0 then tag
    else if i == 1 then batch.surface
    else if i == 2 then batch.os
    else if i == 3 then batch.arch
    else if i == 4 then batch.libc
    else if i == 5 then batch.appVersion
    else if i == 6 then OrEmpty(batch.gitSha)
    else if i == 7 then (if batch.tty then "true" else "false")
    else if i == 16 then batch.sentAt
    else ""
  }

  method FillEnvelope(blobs: array<string>, batch: Batch, tag: string)
    requires blobs.Length == BLOBS && forall i :: 0 <= i < BLOBS ==> blobs[i] == ""
    modifies blobs
    ensures forall i :: 0 <= i < BLOBS ==> blobs[i] == EnvelopeBlob(batch, tag, i)
  {
    blobs[0] := tag;
    blobs[1] := batch.surface;
    blobs[2] := batch.os;
    blobs[3] := batch.arch;
    blobs[4] := batch.libc;
    blobs[5] := batch.appVersion;
    blobs[6] := OrEmpty(batch.gitSha);
    blobs[7] := if batch.tty then "true" else "false";
    blobs[16] := batch.sentAt;
  }

  method FillEvent(blobs: array<string>, batch: Batch, event: Event)
    requires blobs.Length == BLOBS && forall i :: 0 <= i < BLOBS ==> blobs[i] == EnvelopeBlob(batch, TagOf(event), i)
    modifies blobs
    ensures forall i :: 0 <= i < BLOBS ==> blobs[i] == Blob(batch, event, i)
  {
    match event {
      case InstallOrUpgrade(kind, previous) =>
        blobs[8] := kind;
        blobs[9] := OrEmpty(previous);
      case SessionStart(source) =>
        blobs[10] := source;
      case SessionEnd(duration, exit, cold, providers, counters, errors, wall) =>
        blobs[11] := duration;
        blobs[12] := exit;
        blobs[13] := OrEmpty(cold);
        blobs[14] := Join(providers, ",");
      case Panic(site) =>
        blobs[15] := site;
    }
  }

  /** The blob in each column, counted from zero. */
  function Blob(batch: Batch, event: Event, i: nat): string {
    if i == 8 && event.InstallOrUpgrade? then event.kind
    else if i == 9 && event.InstallOrUpgrade? then OrEmpty(event.previousVersion)
    else if i == 10 && event.SessionStart? then event.source
    else if i == 11 && event.SessionEnd? then event.durationBucket
    else if i == 12 && event.SessionEnd? then event.exitClass
    else if i == 13 && event.SessionEnd? then OrEmpty(event.coldStartBucket)
    else if i == 14 && event.SessionEnd? then Join(event.providers, ",")
    else if i == 15 && event.Panic? then event.site
    else EnvelopeBlob(batch, TagOf(event), i)
  }

  function Blobs(batch: Batch, event: Event): (blobs: seq<string>)
    ensures |blobs| == BLOBS && forall i :: 0 <= i < BLOBS ==> blobs[i] == Blob(batch, event, i)
  {
    seq(BLOBS, i requires 0 <= i < BLOBS => Blob(batch, event, i))
  }

  function Doubles(event: Event): (xs: seq<int>)
    requires Complete(event)
    ensures |xs| == DOUBLES
  {
    match event
    case SessionEnd(_, _, _, _, counters, errors, wall) =>
      Columns(counters, COUNTER_FIELDS) + Columns(errors, ERROR_FIELDS) + Columns(wall, TURN_WALL_FIELDS)
    case _ => seq(DOUBLES, i => 0)
  }

  function Row(batch: Batch, event: Event): DataPoint
    requires Complete(event)
  {
    DataPoint([batch.installId], Blobs(batch, event), Doubles(event))
  }

  lemma ValidIsComplete(e: Event)
    requires ValidEvent(e)
    ensures Complete(e)
  {
  }

  // ---- Reading rows back ----

  function FromEmpty(s: string): Option<string> {
    if s == "" then None else Some(s)
  }

  /** The parts between commas. */
  function SplitCommas(s: string): seq<string> {
    if s == [] then [""]
    else
      var rest := SplitCommas(s[1..]);
      if s[0] == ',' then [""] + rest
      else if rest == [] then [[s[0]]]
      else [[s[0]] + rest[0]] + rest[1..]
  }

  function ReadList(s: string): seq<string> {
    if s == "" then [] else SplitCommas(s)
  }

  function FromColumns(fields: seq<Key>, xs: seq<int>): Counts
    requires |fields| == |xs|
  {
    if fields == [] then map[] else FromColumns(fields[1..], xs[1..])[fields[0] := xs[0]]
  }

  predicate WellShaped(p: DataPoint) {
    |p.indexes| == 1 && |p.blobs| == BLOBS && |p.doubles| == DOUBLES
  }

  function ReadEvent(p: DataPoint): Event
    requires WellShaped(p)
  {
    if p.blobs[0] == INSTALL_NAME then InstallOrUpgrade(p.blobs[8], FromEmpty(p.blobs[9]))
    else if p.blobs[0] == START_NAME then SessionStart(p.blobs[10])
    else if p.blobs[0] == PANIC_NAME then Panic(p.blobs[15])
    else SessionEnd(p.blobs[11], p.blobs[12], FromEmpty(p.blobs[13]), ReadList(p.blobs[14]),
                    FromColumns(COUNTER_FIELDS, p.doubles[..10]), FromColumns(ERROR_FIELDS, p.doubles[10..16]),
                    FromColumns(TURN_WALL_FIELDS, p.doubles[16..]))
  }

  /** The envelope that a row carries, with a given list of events. */
  function ReadEnvelope(p: DataPoint, events: seq<Event>): Batch
    requires WellShaped(p)
  {
    Batch(p.blobs[16], p.indexes[0], p.blobs[5], FromEmpty(p.blobs[6]), p.blobs[1], p.blobs[2], p.blobs[3], p.blobs[4],
          p.blobs[7] == "true", events)
  }

  lemma {:induction false} SplitPart(part: string, rest: string)
    requires ',' !in part && (rest == [] || rest[0] == ',')
    ensures SplitCommas(part + rest) == [part] + SplitCommas(rest)[1..]
    ensures SplitCommas(rest) != [] && SplitCommas(rest)[0] == ""
  {
    if part == [] {
      assert part + rest == rest;
      assert rest != [] ==> SplitCommas(rest) == [""] + SplitCommas(rest[1..]);
    } else {
      SplitPart(part[1..], rest);
      assert (part + rest)[1..] == part[1..] + rest;
      assert part == [part[0]] + part[1..];
    }
  }

  /** Provider ids contain no comma, so the joined list splits into the ids again. */
  lemma {:induction false} SplitJoined(ps: seq<string>)
    requires ps != [] && forall p :: p in ps ==> ',' !in p
    ensures SplitCommas(Join(ps, ",")) == ps
  {
    assert ps[0] in ps;
    if |ps| == 1 {
      SplitOne(ps[0]);
    } else {
      assert forall p :: p in ps[1..] ==> p in ps;
      SplitJoined(ps[1..]);
      SplitFirst(ps[0], Join(ps[1..], ","));
      assert ps == [ps[0]] + ps[1..];
    }
  }

  lemma SplitOne(p: string)
    requires ',' !in p
    ensures SplitCommas(p) == [p]
  {
    SplitPart(p, []);
    assert p + [] == p;
  }

  lemma SplitFirst(p: string, later: string)
    requires ',' !in p
    ensures SplitCommas(p + "," + later) == [p] + SplitCommas(later)
  {
    var rest := "," + later;
    SplitPart(p, rest);
    assert rest[1..] == later;
    assert p + "," + later == p + rest;
  }

  lemma ListReadsBack(ps: seq<string>)
    requires ValidProviders(ps)
    ensures ReadList(Join(ps, ",")) == ps
  {
    if ps != [] {
      forall p | p in ps ensures ',' !in p { assert IsProvider(p); }
      SplitJoined(ps);
      assert ps[0] in ps && Join(ps, ",")[0] == ps[0][0];
    }
  }

  lemma {:induction false} ColumnsReadBack(m: Counts, fields: seq<Key>)
    requires Members(fields) <= m.Keys && Distinct(fields)
    ensures FromColumns(fields, Columns(m, fields)).Keys == Members(fields)
    ensures forall k :: k in fields ==> FromColumns(fields, Columns(m, fields))[k] == m[k]
  {
    if fields == [] {
    } else {
      var rest := fields[1..];
      assert fields == [fields[0]] + rest;
      assert Members(rest) <= Members(fields);
      ColumnsReadBack(m, rest);
      var xs := Columns(m, fields);
      assert xs[1..] == Columns(m, rest) && xs[0] == m[fields[0]];
      assert FromColumns(fields, xs) == FromColumns(rest, xs[1..])[fields[0] := xs[0]];
      assert Members(fields) == Members(rest) + {fields[0]};
    }
  }

  lemma CountsReadBack(m: Counts, fields: seq<Key>)
    requires m.Keys == Members(fields) && Distinct(fields)
    ensures FromColumns(fields, Columns(m, fields)) == m
  {
    ColumnsReadBack(m, fields);
    assert forall k :: k in m ==> k in fields;
  }

  lemma FieldsDistinct()
    ensures Distinct(COUNTER_FIELDS) && Distinct(ERROR_FIELDS) && Distinct(TURN_WALL_FIELDS)
  {
  }

  /** Every event is read back from its row. */
  lemma EventReadsBack(batch: Batch, e: Event)
    requires ValidEvent(e)
    ensures Complete(e) && WellShaped(Row(batch, e)) && ReadEvent(Row(batch, e)) == e
  {
    TagsDiffer();
    match e
    case InstallOrUpgrade(kind, previous) =>
    case SessionStart(source) =>
    case SessionEnd(_, _, _, _, _, _, _) => EndReadsBack(batch, e);
    case Panic(site) =>
  }

  lemma EndReadsBack(batch: Batch, e: Event)
    requires e.SessionEnd? && ValidEvent(e)
    ensures Complete(e) && WellShaped(Row(batch, e)) && ReadEvent(Row(batch, e)) == e
  {
    ValidIsComplete(e);
    EndStringsReadBack(e);
    EndDoublesReadBack(e);
    EndBlobs(batch, e);
    EndFromParts(Row(batch, e), e);
  }

  lemma EndBlobs(batch: Batch, e: Event)
    requires e.SessionEnd?
    ensures var blobs := Blobs(batch, e);
            && blobs[0] == END_NAME && blobs[11] == e.durationBucket && blobs[12] == e.exitClass
            && blobs[13] == OrEmpty(e.coldStartBucket) && blobs[14] == Join(e.providers, ",")
  {
  }

  lemma EndFromParts(p: DataPoint, e: Event)
    requires WellShaped(p) && e.SessionEnd? && p.blobs[0] == END_NAME
    requires p.blobs[11] == e.durationBucket && p.blobs[12] == e.exitClass
    requires FromEmpty(p.blobs[13]) == e.coldStartBucket && ReadList(p.blobs[14]) == e.providers
    requires FromColumns(COUNTER_FIELDS, p.doubles[..10]) == e.counters
    requires FromColumns(ERROR_FIELDS, p.doubles[10..16]) == e.errors
    requires FromColumns(TURN_WALL_FIELDS, p.doubles[16..]) == e.turnWall
    ensures ReadEvent(p) == e
  {
  }

  lemma EndStringsReadBack(e: Event)
    requires e.SessionEnd? && ValidEvent(e)
    ensures FromEmpty(OrEmpty(e.coldStartBucket)) == e.coldStartBucket
    ensures ReadList(Join(e.providers, ",")) == e.providers
  {
    ListReadsBack(e.providers);
    assert forall s :: s in COLD_START_BUCKETS ==> |s| > 0;
  }

  lemma EndDoublesReadBack(e: Event)
    requires e.SessionEnd? && ValidEvent(e) && Complete(e)
    ensures FromColumns(COUNTER_FIELDS, Doubles(e)[..10]) == e.counters
    ensures FromColumns(ERROR_FIELDS, Doubles(e)[10..16]) == e.errors
    ensures FromColumns(TURN_WALL_FIELDS, Doubles(e)[16..]) == e.turnWall
  {
    FieldsDistinct();
    CountsReadBack(e.counters, COUNTER_FIELDS);
    CountsReadBack(e.errors, ERROR_FIELDS);
    CountsReadBack(e.turnWall, TURN_WALL_FIELDS);
    var a, b, c := Columns(e.counters, COUNTER_FIELDS), Columns(e.errors, ERROR_FIELDS),
                   Columns(e.turnWall, TURN_WALL_FIELDS);
    ThreeParts(a, b, c);
  }

  lemma ThreeParts(a: seq<int>, b: seq<int>, c: seq<int>)
    requires |a| == 10 && |b| == 6 && |c| == 4
    ensures (a + b + c)[..10] == a && (a + b + c)[10..16] == b && (a + b + c)[16..] == c
  {
  }

  /** The envelope is read back from any row of the batch. */
  lemma EnvelopeReadsBack(batch: Batch, e: Event)
    requires ValidEnvelope(batch) && Complete(e)
    ensures WellShaped(Row(batch, e)) && ReadEnvelope(Row(batch, e), batch.events) == batch
  {
    EnvelopeBlobs(batch, e);
    GitShaReadsBack(batch);
    assert "true"[0] != "false"[0];
  }

  lemma EnvelopeBlobs(batch: Batch, e: Event)
    ensures var blobs := Blobs(batch, e);
            && blobs[1] == batch.surface && blobs[2] == batch.os && blobs[3] == batch.arch && blobs[4] == batch.libc
            && blobs[5] == batch.appVersion && blobs[6] == OrEmpty(batch.gitSha)
            && blobs[7] == (if batch.tty then "true" else "false") && blobs[16] == batch.sentAt
  {
  }

  lemma GitShaReadsBack(batch: Batch)
    requires ValidEnvelope(batch)
    ensures FromEmpty(OrEmpty(batch.gitSha)) == batch.gitSha
  {
  }

  // ---- Whole batches ----

  function Rows(batch: Batch): (rows: seq<DataPoint>)
    requires forall e :: e in batch.events ==> Complete(e)
    ensures |rows| == |batch.events| && forall i :: 0 <= i < |rows| ==> rows[i] == Row(batch, batch.events[i])
  {
    seq(|batch.events|, i requires 0 <= i < |batch.events| => Row(batch, batch.events[i]))
  }

  /** `toDataPoints`: one row for each event, in order. */
  method ToDataPoints(batch: Batch) returns (points: seq<DataPoint>)
    requires forall e :: e in batch.events ==> Complete(e)
    ensures points == Rows(batch)
  {
    points := [];
    for i := 0 to |batch.events|
      invariant |points| == i && forall k :: 0 <= k < i ==> points[k] == Row(batch, batch.events[k])
    {
      var point := ToDataPoint(batch, batch.events[i]);
      points := points + [point];
    }
  }

  function ReadEvents(rows: seq<DataPoint>): seq<Event>
    requires forall p :: p in rows ==> WellShaped(p)
  {
    seq(|rows|, i requires 0 <= i < |rows| => ReadEvent(rows[i]))
  }

  function ReadBatch(rows: seq<DataPoint>): Batch
    requires rows != [] && forall p :: p in rows ==> WellShaped(p)
  {
    ReadEnvelope(rows[0], ReadEvents(rows))
  }

  /** Nothing is lost: a valid batch with at least one event is read back from its rows. */
  lemma RowsReadBack(batch: Batch)
    requires ValidBatch(batch) && batch.events != []
    ensures (forall e :: e in batch.events ==> Complete(e)) && (forall p :: p in Rows(batch) ==> WellShaped(p))
    ensures ReadBatch(Rows(batch)) == batch
  {
    forall e | e in batch.events
      ensures Complete(e) && WellShaped(Row(batch, e)) && ReadEvent(Row(batch, e)) == e
    {
      EventReadsBack(batch, e);
    }
    var rows := Rows(batch);
    assert ReadEvents(rows) == batch.events;
    EnvelopeReadsBack(batch, batch.events[0]);
  }

  /** Two accepted JSON bodies with at least one event and equal rows are the same value. */
  lemma RowsDetermineBody(v: Value, a: Batch, w: Value, b: Batch)
    requires ValidBatch(a) && v == BatchToJson(a) && a.events != []
    requires ValidBatch(b) && w == BatchToJson(b)
    requires (forall e :: e in a.events ==> Complete(e)) && (forall e :: e in b.events ==> Complete(e))
    requires Rows(a) == Rows(b)
    ensures v == w
  {
    assert |b.events| == |Rows(b)| == |a.events|;
    RowsReadBack(a);
    RowsReadBack(b);
  }

  /** Every double that is written is a u32. */
  lemma DoublesAreU32(e: Event)
    requires ValidEvent(e)
    ensures Complete(e) && forall x :: x in Doubles(e) ==> 0 <= x <= U32_MAX
  {
  }

  function NameOf(e: Event): string {
    match e
    case InstallOrUpgrade(_, _) => "install_or_upgrade"
    case SessionStart(_) => "session_start"
    case SessionEnd(_, _, _, _, _, _, _) => "session_end"
    case Panic(_) => "panic"
  }

  /** The columns that every row of a batch has. */
  lemma EnvelopeLayout(batch: Batch, e: Event)
    ensures var b := Blobs(batch, e);
            && |b| == 17 && b[0] == NameOf(e) && b[1] == batch.surface && b[2] == batch.os && b[3] == batch.arch
            && b[4] == batch.libc && b[5] == batch.appVersion
            && b[6] == (if batch.gitSha.Some? then batch.gitSha.value else "")
            && b[7] == (if batch.tty then "true" else "false") && b[16] == batch.sentAt
  {
    assert Blob(batch, e, 0) == TagOf(e);
    EnvelopeBlobs(batch, e);
  }

  /** The columns of one event: empty in the rows of the others. */
  lemma EventLayout(batch: Batch, e: Event)
    ensures var b := Blobs(batch, e);
            && b[8] == (if e.InstallOrUpgrade? then e.kind else "")
            && b[9] == (if e.InstallOrUpgrade? && e.previousVersion.Some? then e.previousVersion.value else "")
            && b[10] == (if e.SessionStart? then e.source else "")
            && b[11] == (if e.SessionEnd? then e.durationBucket else "")
            && b[12] == (if e.SessionEnd? then e.exitClass else "")
            && b[13] == (if e.SessionEnd? && e.coldStartBucket.Some? then e.coldStartBucket.value else "")
            && b[14] == (if e.SessionEnd? then Join(e.providers, ",") else "")
            && b[15] == (if e.Panic? then e.site else "")
  {
    var b := Blobs(batch, e);
    assert b[8] == Blob(batch, e, 8) && b[9] == Blob(batch, e, 9) && b[10] == Blob(batch, e, 10);
    assert b[11] == Blob(batch, e, 11) && b[12] == Blob(batch, e, 12) && b[13] == Blob(batch, e, 13);
    assert b[14] == Blob(batch, e, 14) && b[15] == Blob(batch, e, 15);
  }

  /** The twenty doubles of a session end, column by column. */
  lemma DoublesLayout(e: Event, i: nat)
    requires e.SessionEnd? && Complete(e) && i < 20
    ensures i < 10 ==>
              var name := [Turns, ToolCalls, FleetDispatch, WorkflowRun, SubagentSpawn, McpServerConnected,
                           MemorySearch, ApprovalModalShown, ApprovalAutoAllowed, CommandPaletteOpen][i];
              name in e.counters && Doubles(e)[i] == e.counters[name]
    ensures 10 <= i < 16 ==>
              var name := [AuthPreflightFailed, ProviderHttp4xx, ProviderHttp5xx, ToolDeniedByPolicy, ToolTimeout,
                           NetworkError][i - 10];
              name in e.errors && Doubles(e)[i] == e.errors[name]
    ensures 16 <= i ==>
              var name := [Lt5s, From5To30s, From30To120s, Gte120s][i - 16];
              name in e.turnWall && Doubles(e)[i] == e.turnWall[name]
  {
    if i < 10 {
      assert Doubles(e)[i] == Columns(e.counters, COUNTER_FIELDS)[i];
    } else if i < 16 {
      assert Doubles(e)[i] == Columns(e.errors, ERROR_FIELDS)[i - 10];
    } else {
      assert Doubles(e)[i] == Columns(e.turnWall, TURN_WALL_FIELDS)[i - 16];
    }
  }
}
