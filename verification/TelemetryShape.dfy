/**
 The accepted telemetry bodies, said of the JSON values themselves: which keys an object has and
 what may stand under each (telemetry-ingest/src/schema.ts).
 */
module TelemetryShape {
  import opened Text
  import opened TelemetrySchema
  import Json

  type Fields = map<Key, Value>

  predicate Among(v: Value, names: seq<string>) {
    v.Str? && v.s in names
  }

  predicate NullOr(v: Value, ok: string -> bool) {
    v.Null? || (v.Str? && ok(v.s))
  }

  predicate CountsShape(v: Value, keys: seq<Key>) {
    v.Obj? && v.fields.Keys == Members(keys) &&
    forall k :: k in v.fields ==> v.fields[k].Int? && 0 <= v.fields[k].i <= 4294967295
  }

  predicate ProvidersShape(v: Value) {
    && v.Arr? && |v.items| <= 32
    && (forall i :: 0 <= i < |v.items| ==> v.items[i].Str? && IsProvider(v.items[i].s))
    && (forall i :: 0 <= i < |v.items| - 1 ==> Less(v.items[i].s, v.items[i + 1].s))
  }

  predicate InstallShape(f: Fields) {
    && f.Keys == {EventTag, Kind, PreviousVersion} && f[EventTag] == Json.Str("install_or_upgrade")
    && Among(f[Kind], ["install", "upgrade", "downgrade"]) && NullOr(f[PreviousVersion], IsVersion)
  }

  predicate StartShape(f: Fields) {
    && f.Keys == {EventTag, Source} && f[EventTag] == Json.Str("session_start")
    && Among(f[Source], ["interactive", "resume", "fork", "api", "unknown"])
  }

  predicate PanicShape(f: Fields) {
    && f.Keys == {EventTag, Site} && f[EventTag] == Json.Str("panic")
    && f[Site].Str? && IsSite(f[Site].s)
  }

  predicate EndShape(f: Fields) {
    && f.Keys == {EventTag, DurationBucket, ExitClass, ColdStartBucket, Providers, Counters, Errors, TurnWall}
    && f[EventTag] == Json.Str("session_end")
    && Among(f[DurationBucket], ["lt_1m", "1m_10m", "10m_60m", "gt_60m"])
    && Among(f[ExitClass], ["clean", "signal", "panic", "error"])
    && (f[ColdStartBucket].Null? || Among(f[ColdStartBucket], ["lt_250", "250_1000", "1000_3000", "gte_3000"]))
    && ProvidersShape(f[Providers]) && CountsShape(f[Counters], TEN) && CountsShape(f[Errors], SIX)
    && CountsShape(f[TurnWall], FOUR)
  }

  const TEN := [Turns, ToolCalls, FleetDispatch, WorkflowRun, SubagentSpawn, McpServerConnected, MemorySearch,
                ApprovalModalShown, ApprovalAutoAllowed, CommandPaletteOpen]
  const SIX := [AuthPreflightFailed, ProviderHttp4xx, ProviderHttp5xx, ToolDeniedByPolicy, ToolTimeout, NetworkError]
  const FOUR := [Lt5s, From5To30s, From30To120s, Gte120s]

  predicate EventShape(v: Value) {
    v.Obj? && (InstallShape(v.fields) || StartShape(v.fields) || PanicShape(v.fields) || EndShape(v.fields))
  }

  predicate EnvelopeShape(f: Fields) {
    && f.Keys == {SchemaVersion, SentAt, InstallId, AppVersion, GitSha, Surface, Os, Arch, Libc, Tty, Events}
    && f[SchemaVersion] == Json.Int(1)
    && f[SentAt].Str? && IsSentAt(f[SentAt].s) && f[InstallId].Str? && IsInstallId(f[InstallId].s)
    && f[AppVersion].Str? && IsVersion(f[AppVersion].s) && NullOr(f[GitSha], IsGitSha)
    && Among(f[Surface], ["tui", "exec", "cli", "app-server", "mcp-server", "serve"])
    && Among(f[Os], ["linux", "macos", "windows", "freebsd", "android", "other"])
    && Among(f[Arch], ["x86_64", "aarch64", "other"]) && Among(f[Libc], ["gnu", "musl", "none"])
    && f[Tty].Bool?
  }

  predicate EventsShape(v: Value) {
    v.Arr? && |v.items| <= 200 && forall i :: 0 <= i < |v.items| ==> EventShape(v.items[i])
  }

  predicate BatchShape(v: Value) {
    v.Obj? && EnvelopeShape(v.fields) && EventsShape(v.fields[Events])
  }

  // ---- Values of these shapes are the JSON of valid events ----

  ghost predicate IsEvent(v: Value) {
    exists e :: ValidEvent(e) && v == EventToJson(e)
  }

  lemma InstallHas(f: Fields)
    requires InstallShape(f)
    ensures IsEvent(Json.Obj(f))
  {
    var e := InstallOrUpgrade(f[Kind].s, if f[PreviousVersion].Null? then None else Some(f[PreviousVersion].s));
    assert EventToJson(e).fields == f;
    assert ValidEvent(e);
  }

  lemma StartHas(f: Fields)
    requires StartShape(f)
    ensures IsEvent(Json.Obj(f))
  {
    var e := SessionStart(f[Source].s);
    assert EventToJson(e).fields == f;
    assert ValidEvent(e);
  }

  lemma PanicHas(f: Fields)
    requires PanicShape(f)
    ensures IsEvent(Json.Obj(f))
  {
    var e := Panic(f[Site].s);
    assert EventToJson(e).fields == f;
    assert ValidEvent(e);
  }

  lemma CountsHave(v: Value, keys: seq<Key>) returns (m: Counts)
    requires CountsShape(v, keys)
    ensures ValidCounts(m, keys) && v == CountsToJson(m)
  {
    m := map k | k in v.fields :: v.fields[k].i;
    assert CountsToJson(m).fields == v.fields;
  }

  lemma ProvidersHave(v: Value) returns (ps: seq<string>)
    requires ProvidersShape(v)
    ensures ValidProviders(ps) && v == StringsToJson(ps)
  {
    ps := seq(|v.items|, i requires 0 <= i < |v.items| && v.items[i].Str? => v.items[i].s);
    assert forall i :: 0 <= i < |ps| ==> ps[i] == v.items[i].s && v.items[i] == Json.Str(ps[i]);
    assert StringsToJson(ps).items == v.items;
    assert forall p :: p in ps ==> IsProvider(p);
  }

  lemma EndHas(f: Fields)
    requires EndShape(f)
    ensures IsEvent(Json.Obj(f))
  {
    var ps := ProvidersHave(f[Providers]);
    var counters := CountsHave(f[Counters], TEN);
    var errors := CountsHave(f[Errors], SIX);
    var wall := CountsHave(f[TurnWall], FOUR);
    var cold := if f[ColdStartBucket].Null? then None else Some(f[ColdStartBucket].s);
    var e := SessionEnd(f[DurationBucket].s, f[ExitClass].s, cold, ps, counters, errors, wall);
    assert EndJson(f, e);
    EndJsonExact(f, e);
    assert ValidEvent(e);
  }

  // ---- And the other way round ----

  lemma CountsFit(m: Counts, keys: seq<Key>)
    requires ValidCounts(m, keys)
    ensures CountsShape(CountsToJson(m), keys)
  {
  }

  lemma ProvidersFit(ps: seq<string>)
    requires ValidProviders(ps)
    ensures ProvidersShape(StringsToJson(ps))
  {
    assert forall i :: 0 <= i < |ps| ==> ps[i] in ps;
  }

  lemma EndFits(e: Event)
    requires e.SessionEnd? && ValidEvent(e)
    ensures EndShape(EventToJson(e).fields)
  {
    EndJsonHolds(e);
    ProvidersFit(e.providers);
    CountsFit(e.counters, TEN);
    CountsFit(e.errors, SIX);
    CountsFit(e.turnWall, FOUR);
  }

  lemma EventFits(e: Event)
    requires ValidEvent(e)
    ensures EventShape(EventToJson(e))
  {
    match e
    case InstallOrUpgrade(kind, previous) =>
    case SessionStart(source) =>
    case SessionEnd(_, _, _, _, _, _, _) => EndFits(e);
    case Panic(site) =>
  }

  /** The JSON of valid events is exactly the values of the four shapes. */
  lemma EventShapeExactly(v: Value)
    ensures EventShape(v) <==> exists e :: ValidEvent(e) && v == EventToJson(e)
  {
    if EventShape(v) {
      if InstallShape(v.fields) {
        InstallHas(v.fields);
      } else if StartShape(v.fields) {
        StartHas(v.fields);
      } else if PanicShape(v.fields) {
        PanicHas(v.fields);
      } else {
        EndHas(v.fields);
      }
      assert IsEvent(v);
    }
    if e :| ValidEvent(e) && v == EventToJson(e) { EventFits(e); }
  }

  // ---- Batches ----

  ghost function EventOf(v: Value): (e: Event)
    requires IsEvent(v)
    ensures ValidEvent(e) && v == EventToJson(e)
  {
    var e :| ValidEvent(e) && v == EventToJson(e);
    e
  }

  lemma ShapesAreEvents(items: seq<Value>)
    requires forall i :: 0 <= i < |items| ==> EventShape(items[i])
    ensures forall i :: 0 <= i < |items| ==> IsEvent(items[i])
  {
    forall i | 0 <= i < |items| ensures IsEvent(items[i]) {
      EventShapeExactly(items[i]);
    }
  }

  lemma EventsHave(items: seq<Value>) returns (es: seq<Event>)
    requires forall i :: 0 <= i < |items| ==> IsEvent(items[i])
    ensures |es| == |items| && forall i :: 0 <= i < |es| ==> ValidEvent(es[i]) && items[i] == EventToJson(es[i])
  {
    es := seq(|items|, i requires 0 <= i < |items| && IsEvent(items[i]) => EventOf(items[i]));
    forall i | 0 <= i < |es| ensures ValidEvent(es[i]) && items[i] == EventToJson(es[i]) {
      assert es[i] == EventOf(items[i]);
    }
  }

  lemma BatchHas(v: Value)
    requires BatchShape(v)
    ensures exists b :: ValidBatch(b) && v == BatchToJson(b)
  {
    var f := v.fields;
    ShapesAreEvents(f[Events].items);
    var es := EventsHave(f[Events].items);
    assert EventsToJson(es).items == f[Events].items;
    var sha := if f[GitSha].Null? then None else Some(f[GitSha].s);
    var b := Batch(f[SentAt].s, f[InstallId].s, f[AppVersion].s, sha, f[Surface].s, f[Os].s, f[Arch].s, f[Libc].s,
                   f[Tty].b, es);
    assert EnvelopeJson(f, b);
    EnvelopeJsonExact(f, b);
    assert forall e :: e in es ==> ValidEvent(e);
  }

  lemma BatchFits(b: Batch)
    requires ValidBatch(b)
    ensures BatchShape(BatchToJson(b))
  {
    EnvelopeJsonHolds(b);
    forall i | 0 <= i < |b.events| ensures EventShape(EventsToJson(b.events).items[i]) {
      assert b.events[i] in b.events;
      EventFits(b.events[i]);
    }
  }

  /** The JSON of valid batches is exactly the values of this shape. */
  lemma BatchShapeExactly(v: Value)
    ensures BatchShape(v) <==> exists b :: ValidBatch(b) && v == BatchToJson(b)
  {
    if BatchShape(v) { BatchHas(v); }
    if b :| ValidBatch(b) && v == BatchToJson(b) { BatchFits(b); }
  }

  /** `validateBatch` accepts a body exactly when it has this shape. */
  method AcceptsShape(v: Value) returns (r: Option<Batch>)
    ensures r.Some? <==> BatchShape(v)
  {
    r := ValidateBatch(v);
    BatchShapeExactly(v);
  }
}
