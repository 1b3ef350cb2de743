/**
 The closed telemetry schema: which JSON values are batches
 (telemetry-ingest/src/schema.ts). Identifiers are lowercase v4 UUIDs as in section 5.4 of
 RFC 9562, timestamps second-precision UTC as in section 5.6 of RFC 3339.
 */
module TelemetrySchema {
  import opened Text
  import opened Json

  const BATCH_MAX_EVENTS := 200
  const MAX_BODY_BYTES := 72 * 1024
  const MAX_VERSION_LEN := 64
  const MAX_PANIC_SITE_LEN := 256
  const MAX_PROVIDERS := 32
  const U32_MAX := 4294967295
  const SCHEMA_VERSION := 1

  /** Object keys: the published field names, and any other text. */
  datatype Key =
    | SchemaVersion | SentAt | InstallId | AppVersion | GitSha | Surface | Os | Arch | Libc | Tty | Events
    | EventTag | Kind | PreviousVersion | Source | DurationBucket | ExitClass | ColdStartBucket | Providers
    | Counters | Errors | TurnWall | Site
    | Turns | ToolCalls | FleetDispatch | WorkflowRun | SubagentSpawn | McpServerConnected | MemorySearch
    | ApprovalModalShown | ApprovalAutoAllowed | CommandPaletteOpen
    | AuthPreflightFailed | ProviderHttp4xx | ProviderHttp5xx | ToolDeniedByPolicy | ToolTimeout | NetworkError
    | Lt5s | From5To30s | From30To120s | Gte120s
    | Other(name: string)

  type Value = Json.Value<Key>

  const COUNTER_FIELDS := [Turns, ToolCalls, FleetDispatch, WorkflowRun, SubagentSpawn, McpServerConnected,
                           MemorySearch,
                           ApprovalModalShown, ApprovalAutoAllowed, CommandPaletteOpen]
  const ERROR_FIELDS := [AuthPreflightFailed, ProviderHttp4xx, ProviderHttp5xx, ToolDeniedByPolicy, ToolTimeout,
                         NetworkError]
  const TURN_WALL_FIELDS := [Lt5s, From5To30s, From30To120s, Gte120s]

  const ENVELOPE_FIELDS := [SchemaVersion, SentAt, InstallId, AppVersion, GitSha, Surface, Os, Arch, Libc, Tty, Events]
  const INSTALL_FIELDS := [EventTag, Kind, PreviousVersion]
  const START_FIELDS := [EventTag, Source]
  const END_FIELDS := [EventTag, DurationBucket, ExitClass, ColdStartBucket, Providers, Counters, Errors, TurnWall]
  const PANIC_FIELDS := [EventTag, Site]

  const SURFACES := ["tui", "exec", "cli", "app-server", "mcp-server", "serve"]
  const OSES := ["linux", "macos", "windows", "freebsd", "android", "other"]
  const ARCHES := ["x86_64", "aarch64", "other"]
  const LIBCS := ["gnu", "musl", "none"]
  const INSTALL_KINDS := ["install", "upgrade", "downgrade"]
  const SESSION_SOURCES := ["interactive", "resume", "fork", "api", "unknown"]
  const DURATION_BUCKETS := ["lt_1m", "1m_10m", "10m_60m", "gt_60m"]
  const EXIT_CLASSES := ["clean", "signal", "panic", "error"]
  const COLD_START_BUCKETS := ["lt_250", "250_1000", "1000_3000", "gte_3000"]

  // ---- Matchers ----

  predicate IsDigit(c: char) { '0' <= c <= '9' }
  predicate IsHex(c: char) { '0' <= c <= '9' || 'a' <= c <= 'f' }
  predicate IsAlnum(c: char) { '0' <= c <= '9' || 'a' <= c <= 'z' || 'A' <= c <= 'Z' }
  predicate IsLowerAlnum(c: char) { '0' <= c <= '9' || 'a' <= c <= 'z' }

  /** In a template, 'd' stands for a digit, 'h' for a lowercase hex digit, 'v' for the variant
      digit of a UUID, and anything else for itself. */
  predicate Fits(t: char, c: char) {
    if t == 'd' then IsDigit(c)
    else if t == 'h' then IsHex(c)
    else if t == 'v' then c == '8' || c == '9' || c == 'a' || c == 'b'
    else c == t
  }

  predicate MatchesTemplate(template: string, s: string) {
    |s| == |template| && forall i :: 0 <= i < |s| ==> Fits(template[i], s[i])
  }

  predicate IsSentAt(s: string) { MatchesTemplate("dddd-dd-ddTdd:dd:ddZ", s) }
  predicate IsInstallId(s: string) { MatchesTemplate("hhhhhhhh-hhhh-4hhh-vhhh-hhhhhhhhhhhh", s) }
  predicate IsGitSha(s: string) { MatchesTemplate("hhhhhhhhhhhh", s) }

  predicate AllDigits(s: string) {
    s != [] && forall c :: c in s ==> IsDigit(c)
  }

  /** Three numbers that end at `i`, `j` and `k`, and nothing or a suffix behind them. */
  predicate VersionAt(s: string, i: nat, j: nat, k: nat) {
    && i < j < k <= |s| && s[i] == '.' && s[j] == '.'
    && AllDigits(s[..i]) && AllDigits(s[i + 1..j]) && AllDigits(s[j + 1..k])
    && (k == |s| || (s[k] == '-' && k + 1 < |s| && forall c :: c in s[k + 1..] ==> IsAlnum(c) || c == '.'))
  }

  /** `^\d+\.\d+\.\d+(-[0-9A-Za-z.]+)?$`, within the length ceiling. */
  predicate IsVersion(s: string) {
    |s| <= MAX_VERSION_LEN && exists i, j, k :: 0 <= i < j < k <= |s| && VersionAt(s, i, j, k)
  }

  predicate IsSiteChar(c: char) {
    IsAlnum(c) || c == '_' || c == '/' || c == '.' || c == '-'
  }

  /** A path that ends at `i`, a line number that ends at `j` and a column number behind it. */
  predicate SiteAt(s: string, i: nat, j: nat) {
    && 7 < i && i + 4 < j < |s| - 1
    && s[..7] == "crates/" && (forall c :: c in s[7..i] ==> IsSiteChar(c)) && s[i..i + 4] == ".rs:"
    && AllDigits(s[i + 4..j]) && s[j] == ':' && AllDigits(s[j + 1..])
  }

  /** The literal "<dep>", or `^crates\/[A-Za-z0-9_/.-]+\.rs:\d+:\d+$`, within the length ceiling. */
  predicate IsSite(s: string) {
    |s| <= MAX_PANIC_SITE_LEN &&
    (s == "<dep>" ||
     exists i, j :: 7 < i && i + 4 < j < |s| - 1 && SiteAt(s, i, j))
  }

  /** `^[a-z0-9]([a-z0-9-]{0,30}[a-z0-9])?$`. */
  predicate IsProvider(s: string) {
    && 1 <= |s| <= 32 && IsLowerAlnum(s[0]) && IsLowerAlnum(s[|s| - 1])
    && forall c :: c in s ==> IsLowerAlnum(c) || c == '-'
  }

  // ---- Typed batches ----

  type Counts = map<Key, int>

  datatype Event =
    | InstallOrUpgrade(kind: string, previousVersion: Option<string>)
    | SessionStart(source: string)
    | SessionEnd(durationBucket: string, exitClass: string, coldStartBucket: Option<string>, providers: seq<string>,
                 counters: Counts, errors: Counts, turnWall: Counts)
    | Panic(site: string)

  datatype Batch = Batch(sentAt: string, installId: string, appVersion: string, gitSha: Option<string>,
                         surface: string, os: string, arch: string, libc: string, tty: bool, events: seq<Event>)

  predicate ValidCounts(m: Counts, fields: seq<Key>) {
    m.Keys == Members(fields) && forall k :: k in m ==> 0 <= m[k] <= U32_MAX
  }

  predicate ValidProviders(ps: seq<string>) {
    |ps| <= MAX_PROVIDERS && (forall p :: p in ps ==> IsProvider(p)) && Ascending(ps)
  }

  predicate ValidEvent(e: Event) {
    match e
    case InstallOrUpgrade(kind, previous) => kind in INSTALL_KINDS && (previous.Some? ==> IsVersion(previous.value))
    case SessionStart(source) => source in SESSION_SOURCES
    case SessionEnd(duration, exit, cold, providers, counters, errors, wall) =>
      && duration in DURATION_BUCKETS && exit in EXIT_CLASSES && (cold.Some? ==> cold.value in COLD_START_BUCKETS)
      && ValidProviders(providers)
      && ValidCounts(counters, COUNTER_FIELDS) && ValidCounts(errors, ERROR_FIELDS)
      && ValidCounts(wall, TURN_WALL_FIELDS)
    case Panic(site) => IsSite(site)
  }

  predicate ValidEnvelope(b: Batch) {
    && IsSentAt(b.sentAt) && IsInstallId(b.installId) && IsVersion(b.appVersion)
    && (b.gitSha.Some? ==> IsGitSha(b.gitSha.value))
    && b.surface in SURFACES && b.os in OSES && b.arch in ARCHES && b.libc in LIBCS
  }

  predicate ValidBatch(b: Batch) {
    ValidEnvelope(b) && |b.events| <= BATCH_MAX_EVENTS && forall e :: e in b.events ==> ValidEvent(e)
  }

  // ---- Their JSON ----

  const INSTALL_NAME := "install_or_upgrade"
  const START_NAME := "session_start"
  const END_NAME := "session_end"
  const PANIC_NAME := "panic"

  function OptionToJson(s: Option<string>): Value {
    if s.Some? then Str(s.value) else Null
  }

  function CountsToJson(m: Counts): Value {
    Obj(map k | k in m :: Int(m[k]))
  }

  function StringsToJson(ps: seq<string>): Value {
    Arr(seq(|ps|, i requires 0 <= i < |ps| => Str(ps[i])))
  }

  function EventToJson(e: Event): Value {
    match e
    case InstallOrUpgrade(kind, previous) =>
      Obj(map[EventTag := Str(INSTALL_NAME), Kind := Str(kind), PreviousVersion := OptionToJson(previous)])
    case SessionStart(source) => Obj(map[EventTag := Str(START_NAME), Source := Str(source)])
    case SessionEnd(duration, exit, cold, providers, counters, errors, wall) =>
      Obj(map[EventTag := Str(END_NAME), DurationBucket := Str(duration), ExitClass := Str(exit),
              ColdStartBucket := OptionToJson(cold), Providers := StringsToJson(providers),
              Counters := CountsToJson(counters), Errors := CountsToJson(errors), TurnWall := CountsToJson(wall)])
    case Panic(site) => Obj(map[EventTag := Str(PANIC_NAME), Site := Str(site)])
  }

  function EventsToJson(es: seq<Event>): Value {
    Arr(seq(|es|, i requires 0 <= i < |es| => EventToJson(es[i])))
  }

  function BatchToJson(b: Batch): Value {
    Obj(map[SchemaVersion := Int(SCHEMA_VERSION), SentAt := Str(b.sentAt), InstallId := Str(b.installId),
            AppVersion := Str(b.appVersion), GitSha := OptionToJson(b.gitSha), Surface := Str(b.surface),
            Os := Str(b.os),
            Arch := Str(b.arch), Libc := Str(b.libc), Tty := Bool(b.tty), Events := EventsToJson(b.events)])
  }

  // ---- The validator ----

  /** `keysExactly`. Comparing the number of keys and then looking each of them up is enough:
      as many keys as expected, all of them expected, leave none out. */
  method KeysExactly(fields: map<Key, Value>, expected: seq<Key>) returns (ok: bool)
    requires Distinct(expected)
    ensures ok <==> fields.Keys == Members(expected)
  {
    var actual := ListOf(fields.Keys);
    DistinctLength(expected);
    if |fields| != |expected| {
      assert |fields.Keys| == |fields|;
      return false;
    }
    for i := 0 to |actual|
      invariant forall k :: 0 <= k < i ==> actual[k] in expected
    {
      if actual[i] !in expected {
        assert actual[i] in Members(actual);
        return false;
      }
    }
    forall k | k in fields.Keys ensures k in Members(expected) { assert k in Members(actual); }
    SameSize(fields.Keys, Members(expected));
    return true;
  }

  lemma SameSize<T>(a: set<T>, b: set<T>)
    requires a <= b && |a| == |b|
    ensures a == b
  {
    assert |b - a| == |b| - |a|;
  }

  predicate IsU32(v: Value) {
    v.Int? && 0 <= v.i <= U32_MAX
  }

  /** `u32Map`: the typed counts, if the value holds exactly these fields with u32 values. */
  method ReadCounts(v: Value, fields: seq<Key>) returns (r: Option<Counts>)
    requires Distinct(fields)
    ensures r.Some? ==> ValidCounts(r.value, fields) && v == CountsToJson(r.value)
    ensures r.None? ==> forall m :: ValidCounts(m, fields) ==> v != CountsToJson(m)
  {
    if !v.Obj? { return None; }
    var exact := KeysExactly(v.fields, fields);
    if !exact { return None; }
    for i := 0 to |fields|
      invariant forall k :: 0 <= k < i ==> IsU32(v.fields[fields[k]])
    {
      assert fields[i] in Members(fields);
      if !IsU32(v.fields[fields[i]]) { return None; }
    }
    assert forall k :: k in v.fields ==> k in Members(fields);
    var m := map k | k in v.fields :: v.fields[k].i;
    assert CountsToJson(m).fields == v.fields;
    return Some(m);
  }

  /** The loop over `providers`, with the previous provider carried along. */
  method ReadProviders(v: Value) returns (r: Option<seq<string>>)
    ensures r.Some? ==> ValidProviders(r.value) && v == StringsToJson(r.value)
    ensures r.None? ==> forall ps :: ValidProviders(ps) ==> v != StringsToJson(ps)
  {
    if !v.Arr? || |v.items| > MAX_PROVIDERS { return None; }
    var previous: Option<string> := None;
    var ps: seq<string> := [];
    for i := 0 to |v.items|
      invariant |ps| == i && forall k :: 0 <= k < i ==> v.items[k] == Str(ps[k]) && IsProvider(ps[k])
      invariant Ascending(ps) && previous == if i == 0 then None else Some(ps[i - 1])
    {
      if !v.items[i].Str? || !IsProvider(v.items[i].s) {
        BadProvider(v, i);
        return None;
      }
      var provider := v.items[i].s;
      if previous.Some? && Leq(provider, previous.value) {
        Unordered(v, i);
        return None;
      }
      if previous.Some? { LeqTotal(provider, previous.value); LeqReflexive(provider); }
      ps, previous := ps + [provider], Some(provider);
    }
    assert StringsToJson(ps).items == v.items;
    return Some(ps);
  }

  lemma BadProvider(v: Value, i: nat)
    requires v.Arr? && i < |v.items| && !(v.items[i].Str? && IsProvider(v.items[i].s))
    ensures forall ps :: ValidProviders(ps) ==> v != StringsToJson(ps)
  {
    forall ps | ValidProviders(ps)
      ensures v != StringsToJson(ps)
    {
      assert i < |ps| ==> ps[i] in ps;
    }
  }

  lemma Unordered(v: Value, i: nat)
    requires v.Arr? && 0 < i < |v.items| && v.items[i].Str? && v.items[i - 1].Str?
    requires Leq(v.items[i].s, v.items[i - 1].s)
    ensures forall ps :: ValidProviders(ps) ==> v != StringsToJson(ps)
  {
    forall ps | ValidProviders(ps) && v == StringsToJson(ps)
      ensures false
    {
      assert v.items[i] == Str(ps[i]) && v.items[i - 1] == Str(ps[i - 1]);
      assert Less(ps[i - 1], ps[i - 1 + 1]);
      LeqAntisymmetric(ps[i], ps[i - 1]);
    }
  }

  /** A string, or null. */
  predicate IsOptional(v: Value) {
    v.Null? || v.Str?
  }

  function Optional(v: Value): Option<string>
    requires IsOptional(v)
  {
    if v.Null? then None else Some(v.s)
  }

  predicate OneOf(v: Value, allowed: seq<string>) {
    v.Str? && v.s in allowed
  }

  predicate IsOptionalVersion(v: Value) {
    v.Null? || (v.Str? && IsVersion(v.s))
  }

  method ReadInstall(fields: map<Key, Value>) returns (r: Option<Event>)
    requires EventTag in fields && fields[EventTag] == Str(INSTALL_NAME)
    ensures r.Some? ==> r.value.InstallOrUpgrade? && ValidEvent(r.value) && Obj(fields) == EventToJson(r.value)
    ensures r.None? ==> forall e: Event :: e.InstallOrUpgrade? && ValidEvent(e) ==> Obj(fields) != EventToJson(e)
  {
    var exact := KeysExactly(fields, INSTALL_FIELDS);
    assert Members(INSTALL_FIELDS) == {EventTag, Kind, PreviousVersion};
    if !exact { return None; }
    if !OneOf(fields[Kind], INSTALL_KINDS) { return None; }
    if !IsOptionalVersion(fields[PreviousVersion]) { return None; }
    var e := InstallOrUpgrade(fields[Kind].s, Optional(fields[PreviousVersion]));
    assert EventToJson(e).fields == fields;
    return Some(e);
  }

  method ReadStart(fields: map<Key, Value>) returns (r: Option<Event>)
    requires EventTag in fields && fields[EventTag] == Str(START_NAME)
    ensures r.Some? ==> r.value.SessionStart? && ValidEvent(r.value) && Obj(fields) == EventToJson(r.value)
    ensures r.None? ==> forall e: Event :: e.SessionStart? && ValidEvent(e) ==> Obj(fields) != EventToJson(e)
  {
    var exact := KeysExactly(fields, START_FIELDS);
    assert Members(START_FIELDS) == {EventTag, Source};
    if !exact { return None; }
    if !OneOf(fields[Source], SESSION_SOURCES) { return None; }
    var e := SessionStart(fields[Source].s);
    assert EventToJson(e).fields == fields;
    return Some(e);
  }

  method ReadPanic(fields: map<Key, Value>) returns (r: Option<Event>)
    requires EventTag in fields && fields[EventTag] == Str(PANIC_NAME)
    ensures r.Some? ==> r.value.Panic? && ValidEvent(r.value) && Obj(fields) == EventToJson(r.value)
    ensures r.None? ==> forall e: Event :: e.Panic? && ValidEvent(e) ==> Obj(fields) != EventToJson(e)
  {
    var exact := KeysExactly(fields, PANIC_FIELDS);
    assert Members(PANIC_FIELDS) == {EventTag, Site};
    if !exact { return None; }
    if !fields[Site].Str? || !IsSite(fields[Site].s) { return None; }
    var e := Panic(fields[Site].s);
    assert EventToJson(e).fields == fields;
    return Some(e);
  }

  const END_KEYS := {EventTag, DurationBucket, ExitClass, ColdStartBucket, Providers, Counters, Errors, TurnWall}

  /** The JSON of a session end, field by field. */
  predicate EndJson(fields: map<Key, Value>, e: Event)
    requires e.SessionEnd?
  {
    && fields.Keys == END_KEYS && fields[EventTag] == Str(END_NAME)
    && fields[DurationBucket] == Str(e.durationBucket) && fields[ExitClass] == Str(e.exitClass)
    && fields[ColdStartBucket] == OptionToJson(e.coldStartBucket) && fields[Providers] == StringsToJson(e.providers)
    && fields[Counters] == CountsToJson(e.counters) && fields[Errors] == CountsToJson(e.errors)
    && fields[TurnWall] == CountsToJson(e.turnWall)
  }

  lemma EndJsonExact(fields: map<Key, Value>, e: Event)
    requires e.SessionEnd?
    ensures Obj(fields) == EventToJson(e) <==> EndJson(fields, e)
  {
    EndJsonHolds(e);
    if EndJson(fields, e) { EndJsonDetermines(fields, EventToJson(e).fields, e); }
  }

  lemma EndJsonHolds(e: Event)
    requires e.SessionEnd?
    ensures EndJson(EventToJson(e).fields, e)
  {
  }

  lemma EndJsonDetermines(fields: map<Key, Value>, others: map<Key, Value>, e: Event)
    requires e.SessionEnd? && EndJson(fields, e) && EndJson(others, e)
    ensures fields == others
  {
  }

  /** The three groups of counts of a session end. */
  method ReadThree(fields: map<Key, Value>) returns (r: Option<(Counts, Counts, Counts)>)
    requires fields.Keys == END_KEYS
    ensures r.Some? ==>
              && ValidCounts(r.value.0, COUNTER_FIELDS) && fields[Counters] == CountsToJson(r.value.0)
              && ValidCounts(r.value.1, ERROR_FIELDS) && fields[Errors] == CountsToJson(r.value.1)
              && ValidCounts(r.value.2, TURN_WALL_FIELDS) && fields[TurnWall] == CountsToJson(r.value.2)
    ensures r.None? ==>
              forall c, e, w ::
                ValidCounts(c, COUNTER_FIELDS) && ValidCounts(e, ERROR_FIELDS) && ValidCounts(w, TURN_WALL_FIELDS) ==>
                  !(fields[Counters] == CountsToJson(c) && fields[Errors] == CountsToJson(e)
                    && fields[TurnWall] == CountsToJson(w))
  {
    var counters := ReadCounts(fields[Counters], COUNTER_FIELDS);
    if counters.None? { return None; }
    var errors := ReadCounts(fields[Errors], ERROR_FIELDS);
    if errors.None? { return None; }
    var wall := ReadCounts(fields[TurnWall], TURN_WALL_FIELDS);
    if wall.None? { return None; }
    return Some((counters.value, errors.value, wall.value));
  }

  predicate EndEnums(fields: map<Key, Value>)
    requires fields.Keys == END_KEYS
  {
    && OneOf(fields[DurationBucket], DURATION_BUCKETS) && OneOf(fields[ExitClass], EXIT_CLASSES)
    && (fields[ColdStartBucket].Null? || OneOf(fields[ColdStartBucket], COLD_START_BUCKETS))
  }

  lemma EndEnumsHold(fields: map<Key, Value>, e: Event)
    requires e.SessionEnd? && ValidEvent(e) && EndJson(fields, e)
    ensures EndEnums(fields)
  {
  }

  /** Taking the checks in turn: the keys, the enumerations, the providers and the counts. */
  method ReadEnd(fields: map<Key, Value>) returns (r: Option<Event>)
    requires EventTag in fields && fields[EventTag] == Str(END_NAME)
    ensures r.Some? ==> r.value.SessionEnd? && ValidEvent(r.value) && Obj(fields) == EventToJson(r.value)
    ensures r.None? ==> forall e: Event :: e.SessionEnd? && ValidEvent(e) ==> Obj(fields) != EventToJson(e)
  {
    forall e: Event | e.SessionEnd?
      ensures Obj(fields) == EventToJson(e) <==> EndJson(fields, e)
    {
      EndJsonExact(fields, e);
    }
    var exact := KeysExactly(fields, END_FIELDS);
    assert Members(END_FIELDS) == END_KEYS;
    if !exact { return None; }
    r := ReadEndFields(fields);
  }

  method ReadEndFields(fields: map<Key, Value>) returns (r: Option<Event>)
    requires fields.Keys == END_KEYS && fields[EventTag] == Str(END_NAME)
    ensures r.Some? ==> r.value.SessionEnd? && ValidEvent(r.value) && EndJson(fields, r.value)
    ensures r.None? ==> forall e: Event :: e.SessionEnd? && ValidEvent(e) ==> !EndJson(fields, e)
  {
    if !EndEnums(fields) {
      forall e: Event | e.SessionEnd? && ValidEvent(e) ensures !EndJson(fields, e) {
        if EndJson(fields, e) { EndEnumsHold(fields, e); }
      }
      return None;
    }
    var providers := ReadProviders(fields[Providers]);
    if providers.None? { return None; }
    var counts := ReadThree(fields);
    if counts.None? { return None; }
    return Some(SessionEnd(fields[DurationBucket].s, fields[ExitClass].s, Optional(fields[ColdStartBucket]),
                           providers.value,
                           counts.value.0, counts.value.1, counts.value.2));
  }

  function TagOf(e: Event): string {
    match e
    case InstallOrUpgrade(_, _) => INSTALL_NAME
    case SessionStart(_) => START_NAME
    case SessionEnd(_, _, _, _, _, _, _) => END_NAME
    case Panic(_) => PANIC_NAME
  }

  lemma TagInJson(e: Event)
    ensures EventToJson(e).Obj? && EventTag in EventToJson(e).fields && EventToJson(e).fields[EventTag] == Str(TagOf(e))
  {
  }

  lemma TagsDiffer()
    ensures INSTALL_NAME != START_NAME && INSTALL_NAME != END_NAME && INSTALL_NAME != PANIC_NAME
    ensures START_NAME != END_NAME && START_NAME != PANIC_NAME && END_NAME != PANIC_NAME
  {
  }

  /** `validateEvent`: accepts exactly the JSON of valid events. */
  method ValidateEvent(v: Value) returns (r: Option<Event>)
    ensures r.Some? ==> ValidEvent(r.value) && v == EventToJson(r.value)
    ensures r.None? ==> forall e :: ValidEvent(e) ==> v != EventToJson(e)
  {
    forall e ensures EventToJson(e).Obj? && EventTag in EventToJson(e).fields
                     && EventToJson(e).fields[EventTag] == Str(TagOf(e)) {
      TagInJson(e);
    }
    TagsDiffer();
    if !v.Obj? || EventTag !in v.fields || !v.fields[EventTag].Str? { return None; }
    var name := v.fields[EventTag].s;
    if name == INSTALL_NAME {
      r := ReadInstall(v.fields);
    } else if name == START_NAME {
      r := ReadStart(v.fields);
    } else if name == END_NAME {
      r := ReadEnd(v.fields);
    } else if name == PANIC_NAME {
      r := ReadPanic(v.fields);
    } else {
      r := None;
    }
  }

  /** The loop over the events of a batch. */
  method ValidateEvents(v: Value) returns (r: Option<seq<Event>>)
    ensures r.Some? ==>
              && |r.value| <= BATCH_MAX_EVENTS && (forall e :: e in r.value ==> ValidEvent(e))
              && v == EventsToJson(r.value)
    ensures r.None? ==> forall es :: |es| <= BATCH_MAX_EVENTS && (forall e :: e in es ==> ValidEvent(e)) ==>
                                 v != EventsToJson(es)
  {
    if !v.Arr? || |v.items| > BATCH_MAX_EVENTS { return None; }
    var es: seq<Event> := [];
    for i := 0 to |v.items|
      invariant |es| == i && forall k :: 0 <= k < i ==> ValidEvent(es[k]) && v.items[k] == EventToJson(es[k])
    {
      var e := ValidateEvent(v.items[i]);
      if e.None? {
        BadEvent(v, i);
        return None;
      }
      es := es + [e.value];
    }
    assert EventsToJson(es).items == v.items;
    return Some(es);
  }

  lemma BadEvent(v: Value, i: nat)
    requires v.Arr? && i < |v.items| && forall e :: ValidEvent(e) ==> v.items[i] != EventToJson(e)
    ensures forall es :: (forall e :: e in es ==> ValidEvent(e)) ==> v != EventsToJson(es)
  {
    forall es: seq<Event> | forall e :: e in es ==> ValidEvent(e)
      ensures v != EventsToJson(es)
    {
      assert i < |es| ==> es[i] in es;
    }
  }

  const ENVELOPE_KEYS := {SchemaVersion, SentAt, InstallId, AppVersion, GitSha, Surface, Os, Arch, Libc, Tty, Events}

  /** The JSON of a batch, field by field. */
  predicate EnvelopeJson(fields: map<Key, Value>, b: Batch) {
    && fields.Keys == ENVELOPE_KEYS
    && fields[SchemaVersion] == Int(SCHEMA_VERSION) && fields[SentAt] == Str(b.sentAt)
    && fields[InstallId] == Str(b.installId)
    && fields[AppVersion] == Str(b.appVersion) && fields[GitSha] == OptionToJson(b.gitSha)
    && fields[Surface] == Str(b.surface) && fields[Os] == Str(b.os) && fields[Arch] == Str(b.arch)
    && fields[Libc] == Str(b.libc) && fields[Tty] == Bool(b.tty) && fields[Events] == EventsToJson(b.events)
  }

  lemma EnvelopeJsonExact(fields: map<Key, Value>, b: Batch)
    ensures Obj(fields) == BatchToJson(b) <==> EnvelopeJson(fields, b)
  {
    EnvelopeJsonHolds(b);
    if EnvelopeJson(fields, b) { EnvelopeJsonDetermines(fields, BatchToJson(b).fields, b); }
  }

  lemma EnvelopeJsonHolds(b: Batch)
    ensures EnvelopeJson(BatchToJson(b).fields, b)
  {
  }

  lemma EnvelopeJsonDetermines(fields: map<Key, Value>, others: map<Key, Value>, b: Batch)
    requires EnvelopeJson(fields, b) && EnvelopeJson(others, b)
    ensures fields == others
  {
  }

  lemma EnvelopeJsonAll(fields: map<Key, Value>)
    ensures forall b :: Obj(fields) == BatchToJson(b) <==> EnvelopeJson(fields, b)
  {
    forall b ensures Obj(fields) == BatchToJson(b) <==> EnvelopeJson(fields, b) { EnvelopeJsonExact(fields, b); }
  }

  lemma EnvelopeKeys()
    ensures Members(ENVELOPE_FIELDS) == ENVELOPE_KEYS && Distinct(ENVELOPE_FIELDS)
  {
  }

  /** The checks of the envelope, in the order of the code. */
  predicate EnvelopeOk(fields: map<Key, Value>)
    requires fields.Keys == ENVELOPE_KEYS
  {
    && fields[SchemaVersion] == Int(SCHEMA_VERSION)
    && fields[SentAt].Str? && IsSentAt(fields[SentAt].s)
    && fields[InstallId].Str? && IsInstallId(fields[InstallId].s)
    && fields[AppVersion].Str? && IsVersion(fields[AppVersion].s)
    && (fields[GitSha].Null? || (fields[GitSha].Str? && IsGitSha(fields[GitSha].s)))
    && OneOf(fields[Surface], SURFACES) && OneOf(fields[Os], OSES)
    && OneOf(fields[Arch], ARCHES) && OneOf(fields[Libc], LIBCS)
    && fields[Tty].Bool?
  }

  lemma EnvelopeHolds(fields: map<Key, Value>, b: Batch)
    requires ValidEnvelope(b) && EnvelopeJson(fields, b)
    ensures EnvelopeOk(fields)
  {
  }

  function BatchOf(fields: map<Key, Value>, es: seq<Event>): (b: Batch)
    requires fields.Keys == ENVELOPE_KEYS && EnvelopeOk(fields)
    ensures ValidEnvelope(b) && (fields[Events] == EventsToJson(es) ==> EnvelopeJson(fields, b))
  {
    Batch(fields[SentAt].s, fields[InstallId].s, fields[AppVersion].s, Optional(fields[GitSha]),
          fields[Surface].s, fields[Os].s, fields[Arch].s, fields[Libc].s, fields[Tty].b, es)
  }

  method ReadBatch(fields: map<Key, Value>) returns (r: Option<Batch>)
    requires fields.Keys == ENVELOPE_KEYS
    ensures r.Some? ==> ValidBatch(r.value) && EnvelopeJson(fields, r.value)
    ensures r.None? ==> forall b :: ValidBatch(b) ==> !EnvelopeJson(fields, b)
  {
    if !EnvelopeOk(fields) {
      forall b | ValidBatch(b) ensures !EnvelopeJson(fields, b) {
        if EnvelopeJson(fields, b) { EnvelopeHolds(fields, b); }
      }
      return None;
    }
    var es := ValidateEvents(fields[Events]);
    if es.None? { return None; }
    return Some(BatchOf(fields, es.value));
  }

  /** `validateBatch`: accepts exactly the JSON of valid batches, so that a missing key, an extra
      key or a value out of range anywhere rejects the whole batch. */
  method ValidateBatch(v: Value) returns (r: Option<Batch>)
    ensures r.Some? ==> ValidBatch(r.value) && v == BatchToJson(r.value)
    ensures r.None? ==> forall b :: ValidBatch(b) ==> v != BatchToJson(b)
  {
    if !v.Obj? { return None; }
    EnvelopeJsonAll(v.fields);
    var exact := KeysExactly(v.fields, ENVELOPE_FIELDS);
    EnvelopeKeys();
    if !exact { return None; }
    r := ReadBatch(v.fields);
  }

  // ---- The JSON determines the batch ----

  lemma StringsInjective(a: seq<string>, b: seq<string>)
    requires StringsToJson(a) == StringsToJson(b)
    ensures a == b
  {
    var x, y := StringsToJson(a).items, StringsToJson(b).items;
    forall i | 0 <= i < |a| ensures a[i] == b[i] { assert x[i] == Str(a[i]) && y[i] == Str(b[i]); }
  }

  lemma CountsInjective(a: Counts, b: Counts)
    requires CountsToJson(a) == CountsToJson(b)
    ensures a == b
  {
    var x, y := CountsToJson(a).fields, CountsToJson(b).fields;
    assert x.Keys == a.Keys && y.Keys == b.Keys;
    forall k | k in a ensures a[k] == b[k] { assert x[k] == Int(a[k]) && y[k] == Int(b[k]); }
  }

  lemma EndInjective(fields: map<Key, Value>, a: Event, b: Event)
    requires a.SessionEnd? && b.SessionEnd? && EndJson(fields, a) && EndJson(fields, b)
    ensures a == b
  {
    StringsInjective(a.providers, b.providers);
    CountsInjective(a.counters, b.counters);
    CountsInjective(a.errors, b.errors);
    CountsInjective(a.turnWall, b.turnWall);
  }

  lemma EventInjective(a: Event, b: Event)
    requires EventToJson(a) == EventToJson(b)
    ensures a == b
  {
    TagInJson(a);
    TagInJson(b);
    TagsDiffer();
    var fields := EventToJson(a).fields;
    match a
    case InstallOrUpgrade(_, _) =>
      assert fields[Kind] == Str(a.kind) && fields[Kind] == Str(b.kind);
      assert fields[PreviousVersion] == OptionToJson(a.previousVersion) == OptionToJson(b.previousVersion);
    case SessionStart(_) =>
      assert fields[Source] == Str(a.source) == Str(b.source);
    case SessionEnd(_, _, _, _, _, _, _) =>
      EndJsonExact(fields, a);
      EndJsonExact(fields, b);
      EndInjective(fields, a, b);
    case Panic(_) =>
      assert fields[Site] == Str(a.site) == Str(b.site);
  }

  lemma EventsInjective(a: seq<Event>, b: seq<Event>)
    requires EventsToJson(a) == EventsToJson(b)
    ensures a == b
  {
    var x, y := EventsToJson(a).items, EventsToJson(b).items;
    forall i | 0 <= i < |a|
      ensures a[i] == b[i]
    {
      assert x[i] == EventToJson(a[i]) && y[i] == EventToJson(b[i]);
      EventInjective(a[i], b[i]);
    }
  }

  /** Different batches have different JSON. */
  lemma BatchInjective(a: Batch, b: Batch)
    requires BatchToJson(a) == BatchToJson(b)
    ensures a == b
  {
    var fields := BatchToJson(a).fields;
    EnvelopeJsonExact(fields, a);
    EnvelopeJsonExact(fields, b);
    EventsInjective(a.events, b.events);
  }
}
