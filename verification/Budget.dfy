/**
 One-way ceilings on the runtime contract (scripts/check-runtime-contract-budget.py): a
 budget document is read and written by nested paths, compared with a measured receipt, and
 replaced only by what the receipt says.
 */
module Budget {
  import opened Text
  import opened Json

  /** Dictionary keys: the names that the script uses, and any other text. */
  datatype Key =
    | Comment | DocumentKind | SchemaVersion | SystemPrompt | RepresentativeContext
    | ToolCatalog | SkillDiscovery | Modes | Stages | SurfaceProfile
    | FixtureId | PromptsByteIdentical | Plan | Act | Operate
    | BaseStage | Project | Instructions | Skill | Memory
    | Goal | Handoff | Full | Active | SystemPromptBytes
    | SystemPromptTokensEst | SystemPromptBlocks | ModeInstructionsBytes | ModeInstructionsTokensEst | TotalBytes
    | TotalTokensEst | Tools | Bytes | TokensEst | DeltaBytes
    | FirstDelta | SecondDelta | RootDiscoveryCalls | DirectoriesVisited | SkillMdReadAttempts
    | ToolNames | IdentitySha256
    | Other(name: string)

  // A decoded JSON document.
  type Value = Json.Value<Key>

  type Path = seq<Key>

  // ---- Nested documents ----

  /** `required_value`: None where the script raises. */
  function Get(v: Value, path: Path): Option<Value> {
    if path == [] then Some(v)
    else if v.Obj? && path[0] in v.fields then Get(v.fields[path[0]], path[1..])
    else None
  }

  method RequiredValue(document: Value, path: Path) returns (r: Option<Value>)
    ensures r == Get(document, path)
  {
    var value := document;
    for i := 0 to |path|
      invariant Get(document, path) == Get(value, path[i..])
    {
      if !value.Obj? || path[i] !in value.fields { return None; }
      value := value.fields[path[i]];
      assert path[i..][1..] == path[i + 1..];
    }
    return Some(value);
  }

  /** The document that `set_path_value` leaves behind; None where descending meets a value
      that is no dictionary. */
  function Set(v: Value, path: Path, value: Value): Option<Value>
    decreases |path|
  {
    if path == [] || !v.Obj? then None
    else if |path| == 1 then Some(Obj(v.fields[path[0] := value]))
    else
      var child := if path[0] in v.fields then v.fields[path[0]] else Obj(map[]);
      match Set(child, path[1..], value)
      case None => None
      case Some(c) => Some(Obj(v.fields[path[0] := c]))
  }

  /** Every dictionary on the way to the path is one, or is missing. */
  predicate Open(v: Value, path: Path) {
    path != [] && v.Obj? && (|path| == 1 || path[0] !in v.fields || Open(v.fields[path[0]], path[1..]))
  }

  lemma {:induction false} SetExactlyWhenOpen(v: Value, path: Path, x: Value)
    ensures Set(v, path, x).Some? <==> Open(v, path)
    decreases |path|
  {
    if v.Obj? && |path| > 1 {
      if path[0] in v.fields {
        SetExactlyWhenOpen(v.fields[path[0]], path[1..], x);
      } else {
        SetExactlyWhenOpen(Obj(map[]), path[1..], x);
      }
    }
  }

  /** Neither path leads through the other. */
  predicate Unrelated(p: Path, q: Path) {
    !(p <= q) && !(q <= p)
  }

  lemma {:induction false} GetAfterSet(v: Value, path: Path, x: Value)
    requires Set(v, path, x).Some?
    ensures Get(Set(v, path, x).value, path) == Some(x)
    decreases |path|
  {
    if |path| == 1 {
      assert path[1..] == [];
    } else {
      var child := if path[0] in v.fields then v.fields[path[0]] else Obj(map[]);
      GetAfterSet(child, path[1..], x);
    }
  }

  lemma PrefixTail(p: Path, q: Path)
    requires p != [] && q != [] && p[0] == q[0]
    ensures p <= q <==> p[1..] <= q[1..]
  {
  }

  lemma {:induction false} GetElsewhere(v: Value, path: Path, x: Value, q: Path)
    requires Set(v, path, x).Some? && Unrelated(path, q)
    ensures Get(Set(v, path, x).value, q) == Get(v, q)
    decreases |path|
  {
    if q[0] == path[0] {
      PrefixTail(path, q);
      PrefixTail(q, path);
      if |path| > 1 {
        var child := if path[0] in v.fields then v.fields[path[0]] else Obj(map[]);
        GetElsewhere(child, path[1..], x, q[1..]);
      }
    }
  }

  /** Setting a path keeps every path open that does not lead through it. */
  lemma {:induction false} OpenAfterSet(v: Value, path: Path, x: Value, q: Path)
    requires Set(v, path, x).Some? && Open(v, q) && !(path < q)
    ensures Open(Set(v, path, x).value, q)
    decreases |path|
  {
    if |q| > 1 && q[0] == path[0] {
      PrefixTail(path, q);
      assert |path| > 1;
      var child := if path[0] in v.fields then v.fields[path[0]] else Obj(map[]);
      OpenAfterSet(child, path[1..], x, q[1..]);
    }
  }

  // ---- Copying a set of paths ----

  /** Set each path to what the receipt holds there. */
  function Copy(doc: Value, receipt: Value, paths: seq<Path>): Option<Value>
    decreases paths
  {
    if paths == [] then Some(doc)
    else match Get(receipt, paths[0])
      case None => None
      case Some(v) =>
        match Set(doc, paths[0], v)
        case None => None
        case Some(next) => Copy(next, receipt, paths[1..])
  }

  ghost predicate PrefixFree(paths: seq<Path>) {
    forall p, q :: p in paths && q in paths ==> !(p < q)
  }

  /** Every path can be set in the document and read from the receipt. */
  ghost predicate Ready(doc: Value, receipt: Value, paths: seq<Path>) {
    forall p :: p in paths ==> Open(doc, p) && Get(receipt, p).Some?
  }

  lemma ReadyNext(doc: Value, receipt: Value, paths: seq<Path>)
    requires paths != [] && PrefixFree(paths) && Ready(doc, receipt, paths)
    ensures Set(doc, paths[0], Get(receipt, paths[0]).value).Some?
    ensures PrefixFree(paths[1..])
    ensures Ready(Set(doc, paths[0], Get(receipt, paths[0]).value).value, receipt, paths[1..])
  {
    var p, x := paths[0], Get(receipt, paths[0]).value;
    assert p in paths;
    SetExactlyWhenOpen(doc, p, x);
    forall q | q in paths[1..]
      ensures q in paths && Open(Set(doc, p, x).value, q)
    {
      assert q in paths;
      OpenAfterSet(doc, p, x, q);
    }
  }

  lemma SamePath(p: Path, q: Path)
    requires !(p < q) && !(q < p) && p != q
    ensures Unrelated(p, q)
  {
  }

  /** A path unrelated to all the copied ones keeps its value. */
  lemma {:induction false} CopyElsewhere(doc: Value, receipt: Value, paths: seq<Path>, q: Path)
    requires Copy(doc, receipt, paths).Some? && forall p :: p in paths ==> Unrelated(p, q)
    ensures Get(Copy(doc, receipt, paths).value, q) == Get(doc, q)
    decreases paths
  {
    if paths == [] {
    } else {
      var p, x := paths[0], Get(receipt, paths[0]).value;
      GetElsewhere(doc, p, x, q);
      CopyElsewhere(Set(doc, p, x).value, receipt, paths[1..], q);
    }
  }

  lemma {:induction false} CopySucceeds(doc: Value, receipt: Value, paths: seq<Path>)
    requires PrefixFree(paths) && Ready(doc, receipt, paths)
    ensures Copy(doc, receipt, paths).Some?
    decreases paths
  {
    if paths == [] {
    } else {
      ReadyNext(doc, receipt, paths);
      CopySucceeds(Set(doc, paths[0], Get(receipt, paths[0]).value).value, receipt, paths[1..]);
    }
  }

  /** Over prefix-free paths that are open in the document, copying reads back exactly what the
      receipt holds. */
  lemma {:induction false} CopyReadsBack(doc: Value, receipt: Value, paths: seq<Path>, q: Path)
    requires PrefixFree(paths) && Ready(doc, receipt, paths) && q in paths
    ensures Copy(doc, receipt, paths).Some?
    ensures Get(Copy(doc, receipt, paths).value, q) == Get(receipt, q)
    decreases paths
  {
    CopySucceeds(doc, receipt, paths);
    ReadyNext(doc, receipt, paths);
    var p, rest, x := paths[0], paths[1..], Get(receipt, paths[0]).value;
    var next := Set(doc, p, x).value;
    if q in rest {
      CopyReadsBack(next, receipt, rest, q);
    } else {
      GetAfterSet(doc, p, x);
      assert p in paths;
      forall r | r in rest ensures Unrelated(r, p) {
        assert r in paths && r != p;
        SamePath(r, p);
      }
      CopyElsewhere(next, receipt, rest, p);
    }
  }

  // ---- The measured paths ----

  const RECEIPT_KIND := "ghosty.runtime_contract_receipt"
  const BUDGET_KIND := "ghosty.runtime_contract_budget"
  const SCHEMA_VERSION := 1
  const REPRESENTATIVE_FIXTURE_ID := "representative-v1"
  const TOOL_SURFACE_PROFILE := "production-default-builtins-no-mcp-no-host-interpreters-v1"

  const VISIBLE_MODES := {Plan, Act, Operate}
  const STAGES := {BaseStage, Project, Instructions, Skill, Memory, Goal, Handoff}
  const TOOL_SURFACES := {Full, Active}
  const PROMPT_FIELDS := {SystemPromptBytes, SystemPromptTokensEst, SystemPromptBlocks,
                          ModeInstructionsBytes, ModeInstructionsTokensEst}
  const TOTAL_FIELDS := {TotalBytes, TotalTokensEst, SystemPromptBlocks}
  const TOOL_FIELDS := {Tools, Bytes, TokensEst}
  const DELTAS := {FirstDelta, SecondDelta}
  const DISCOVERY_FIELDS := {RootDiscoveryCalls, DirectoriesVisited, SkillMdReadAttempts}

  predicate PromptPath(p: Path) {
    |p| == 4 && p[0] == SystemPrompt && p[1] == Modes && p[2] in VISIBLE_MODES && p[3] in PROMPT_FIELDS
  }

  predicate StagePath(p: Path, leaf: Key) {
    |p| == 4 && p[0] == RepresentativeContext && p[1] == Stages && p[2] in STAGES && p[3] == leaf
  }

  predicate SurfacePath(p: Path, fields: set<Key>) {
    && |p| == 5 && p[0] == ToolCatalog && p[1] == Modes && p[2] in VISIBLE_MODES && p[3] in TOOL_SURFACES
    && p[4] in fields
  }

  /** Every numeric ceiling. */
  predicate IsMetric(p: Path) {
    || PromptPath(p)
    || StagePath(p, Bytes)
    || (StagePath(p, DeltaBytes) && p[2] != BaseStage)
    || (|p| == 2 && p[0] == RepresentativeContext && p[1] in TOTAL_FIELDS)
    || SurfacePath(p, TOOL_FIELDS)
    || (|p| == 3 && p[0] == SkillDiscovery && p[1] in DELTAS && p[2] in DISCOVERY_FIELDS)
  }

  /** Every structural identity. */
  predicate IsIdentity(p: Path) {
    || p == [ToolCatalog, SurfaceProfile]
    || SurfacePath(p, {ToolNames, IdentitySha256})
    || StagePath(p, IdentitySha256)
  }

  /** The script's two tuples of paths, each in its own order. */
  datatype Layout = Layout(metrics: seq<Path>, identities: seq<Path>) {
    ghost predicate Valid() {
      && (forall p :: p in metrics <==> IsMetric(p))
      && (forall p :: p in identities <==> IsIdentity(p))
    }

    function Tracked(): seq<Path> {
      metrics + identities
    }
  }

  function PromptSet(): set<Path> {
    set m, f | m in VISIBLE_MODES && f in PROMPT_FIELDS :: [SystemPrompt, Modes, m, f]
  }

  function StageSet(): set<Path> {
    (set s | s in STAGES :: [RepresentativeContext, Stages, s, Bytes])
    + (set s | s in STAGES - {BaseStage} :: [RepresentativeContext, Stages, s, DeltaBytes])
  }

  function SurfaceSet(): set<Path> {
    set m, s, f | m in VISIBLE_MODES && s in TOOL_SURFACES && f in TOOL_FIELDS :: SurfaceField(m, s, f)
  }

  function TotalSet(): set<Path> {
    (set f | f in TOTAL_FIELDS :: [RepresentativeContext, f])
    + (set d, f | d in DELTAS && f in DISCOVERY_FIELDS :: [SkillDiscovery, d, f])
  }

  function MetricSet(): set<Path> {
    PromptSet() + StageSet() + SurfaceSet() + TotalSet()
  }

  function IdentitySet(): set<Path> {
    {[ToolCatalog, SurfaceProfile]}
    + (set m, s, f | m in VISIBLE_MODES && s in TOOL_SURFACES && f in {ToolNames, IdentitySha256}
         :: SurfaceField(m, s, f))
    + (set s | s in STAGES :: StageDigest(s))
  }

  lemma MetricSetComplete(p: Path)
    requires IsMetric(p)
    ensures p in MetricSet()
  {
    if PromptPath(p) {
      assert p == [p[0], p[1], p[2], p[3]];
      assert p in PromptSet();
    } else if SurfacePath(p, TOOL_FIELDS) {
      assert p == SurfaceField(p[2], p[3], p[4]);
      assert p in SurfaceSet();
    } else if |p| == 4 {
      assert p == [p[0], p[1], p[2], p[3]];
      assert p in StageSet();
    } else {
      assert p == if |p| == 2 then [p[0], p[1]] else [p[0], p[1], p[2]];
      assert p in TotalSet();
    }
  }

  lemma IdentitySetComplete(p: Path)
    requires IsIdentity(p)
    ensures p in IdentitySet()
  {
    if |p| == 4 { assert p == StageDigest(p[2]); }
    else if |p| == 5 { assert p == SurfaceField(p[2], p[3], p[4]); }
  }

  lemma MetricSetSound(p: Path)
    requires p in MetricSet()
    ensures IsMetric(p)
  {
    if p in PromptSet() {
      assert PromptPath(p);
    } else if p in StageSet() {
      StageSetSound(p);
    } else if p in SurfaceSet() {
      assert SurfacePath(p, TOOL_FIELDS);
    } else {
      TotalSetSound(p);
    }
  }

  lemma StageSetSound(p: Path)
    requires p in StageSet()
    ensures IsMetric(p)
  {
  }

  lemma TotalSetSound(p: Path)
    requires p in TotalSet()
    ensures IsMetric(p)
  {
  }

  lemma IdentitySetSound(p: Path)
    requires p in IdentitySet()
    ensures IsIdentity(p)
  {
  }

  /** The tuples of the script exist: there are finitely many tracked paths. */
  lemma LayoutExists() returns (l: Layout)
    ensures l.Valid() && Distinct(l.metrics) && Distinct(l.identities)
  {
    var ms := ListingExists(MetricSet());
    var ids := ListingExists(IdentitySet());
    l := Layout(ms, ids);
    forall p ensures p in ms <==> IsMetric(p) { Listed(ms, MetricSet(), p); MetricSetExact(p); }
    forall p ensures p in ids <==> IsIdentity(p) { Listed(ids, IdentitySet(), p); IdentitySetExact(p); }
  }

  lemma MetricSetExact(p: Path)
    ensures p in MetricSet() <==> IsMetric(p)
  {
    if IsMetric(p) { MetricSetComplete(p); }
    if p in MetricSet() { MetricSetSound(p); }
  }

  lemma IdentitySetExact(p: Path)
    ensures p in IdentitySet() <==> IsIdentity(p)
  {
    if IsIdentity(p) { IdentitySetComplete(p); }
    if p in IdentitySet() { IdentitySetSound(p); }
  }

  lemma Listed(xs: seq<Path>, s: set<Path>, p: Path)
    requires Members(xs) == s
    ensures p in xs <==> p in s
  {
  }

  // ---- The tracked paths are prefix-free ----

  /** The first two parts of a tracked path determine its length. */
  function Depth(a: Key, b: Key): nat {
    if a == SystemPrompt then 4
    else if a == RepresentativeContext then (if b == Stages then 4 else 2)
    else if a == ToolCatalog then (if b == Modes then 5 else 2)
    else 3
  }

  predicate Shaped(p: Path) {
    && |p| >= 2 && p[0] in {SystemPrompt, RepresentativeContext, ToolCatalog, SkillDiscovery}
    && |p| == Depth(p[0], p[1])
  }

  lemma ShapedPrefix(p: Path, q: Path)
    requires Shaped(p) && Shaped(q) && p != q
    ensures Unrelated(p, q)
  {
  }

  const FIXTURE: Path := [RepresentativeContext, FixtureId]

  lemma TrackedShaped(p: Path)
    requires IsMetric(p) || IsIdentity(p)
    ensures Shaped(p) && p != FIXTURE
  {
  }

  lemma TrackedPrefixFree(l: Layout)
    requires l.Valid()
    ensures PrefixFree(l.Tracked())
    ensures forall p :: p in l.Tracked() ==> Unrelated(p, FIXTURE)
  {
    forall p, q | p in l.Tracked() && q in l.Tracked()
      ensures !(p < q)
    {
      TrackedShaped(p);
      TrackedShaped(q);
      if p != q { ShapedPrefix(p, q); }
    }
    forall p | p in l.Tracked()
      ensures Unrelated(p, FIXTURE)
    {
      TrackedShaped(p);
      ShapedPrefix(p, FIXTURE);
    }
  }

  // ---- Validation ----

  // The hex SHA-256 of the names joined by NUL.
  type Digest = seq<string> -> string

  /** `metric_value`: a non-negative integer, never a boolean. */
  function Metric(doc: Value, path: Path): Option<nat> {
    match Get(doc, path)
    case Some(Int(n)) => if n < 0 then None else Some(n)
    case _ => None
  }

  /** A metric is exactly a non-negative integer at its path. */
  lemma MetricExactly(doc: Value, path: Path, n: nat)
    ensures Metric(doc, path) == Some(n) <==> Get(doc, path) == Some(Int(n))
    ensures Metric(doc, path).None? <==> forall k: nat :: Get(doc, path) != Some(Int(k))
  {
    if Metric(doc, path).Some? { assert Get(doc, path) == Some(Int(Metric(doc, path).value)); }
  }

  predicate ValidHeader(doc: Value, kind: string) {
    Get(doc, [DocumentKind]) == Some(Str(kind)) && Get(doc, [SchemaVersion]) == Some(Int(SCHEMA_VERSION))
  }

  function Names(items: seq<Value>): Option<seq<string>> {
    if items == [] then Some([])
    else match (items[0], Names(items[1..]))
      case (Str(s), Some(rest)) => if s == [] then None else Some([s] + rest)
      case _ => None
  }

  /** A list of names is one of non-empty strings. */
  lemma {:induction false} NamesExactly(items: seq<Value>, names: seq<string>)
    ensures Names(items) == Some(names) <==>
            |names| == |items| && forall i :: 0 <= i < |items| ==> items[i] == Str(names[i]) && names[i] != ""
  {
    if items == [] {
    } else if names == [] {
      assert Names(items).Some? ==> Names(items).value != [];
    } else {
      NamesExactly(items[1..], names[1..]);
      assert names == [names[0]] + names[1..];
      assert forall i :: 0 < i < |items| ==> items[i] == items[1..][i - 1];
      assert forall i :: 0 < i < |names| ==> names[i] == names[1..][i - 1];
    }
  }

  function SurfaceField(mode: Key, surface: Key, field: Key): Path {
    [ToolCatalog, Modes, mode, surface, field]
  }

  function StageDigest(stage: Key): Path {
    [RepresentativeContext, Stages, stage, IdentitySha256]
  }

  /** The names, the count and the digest of one tool surface agree. */
  predicate ValidSurface(doc: Value, mode: Key, surface: Key, digest: Digest) {
    AgreeingSurface(Get(doc, SurfaceField(mode, surface, ToolNames)),
                    Get(doc, SurfaceField(mode, surface, Tools)),
                    Get(doc, SurfaceField(mode, surface, IdentitySha256)), digest)
  }

  predicate AgreeingSurface(names: Option<Value>, count: Option<Value>, sha: Option<Value>, digest: Digest) {
    match names
    case Some(Arr(items)) =>
      && Names(items).Some?
      && Names(items).value == SortedSet(Names(items).value)
      && count == Some(Int(|items|))
      && sha == Some(Str(digest(Names(items).value)))
    case _ => false
  }

  predicate IsSha256(v: Option<Value>) {
    v.Some? && v.value.Str? && |v.value.s| == 64 &&
    forall c :: c in v.value.s ==> '0' <= c <= '9' || 'a' <= c <= 'f'
  }

  lemma HexDigit(c: char)
    ensures '0' <= c <= '9' || 'a' <= c <= 'f' <==> c in "0123456789abcdef"
  {
    if '0' <= c <= '9' {
      assert c == "0123456789abcdef"[c as int - '0' as int];
    } else if 'a' <= c <= 'f' {
      assert c == "0123456789abcdef"[c as int - 'a' as int + 10];
    }
  }

  /** A digest is written as 64 lower-case hexadecimal digits. */
  lemma Sha256Exactly(s: string)
    ensures IsSha256(Some(Str(s))) <==> |s| == 64 && forall c :: c in s ==> c in "0123456789abcdef"
  {
    forall c | c in s ensures '0' <= c <= '9' || 'a' <= c <= 'f' <==> c in "0123456789abcdef" {
      HexDigit(c);
    }
  }

  /** `validate_identity_structure`. */
  predicate ValidIdentities(doc: Value, digest: Digest) {
    && Get(doc, [ToolCatalog, SurfaceProfile]) == Some(Str(TOOL_SURFACE_PROFILE))
    && (forall mode, surface :: mode in VISIBLE_MODES && surface in TOOL_SURFACES ==>
          ValidSurface(doc, mode, surface, digest))
    && (forall stage :: stage in STAGES ==> IsSha256(Get(doc, StageDigest(stage))))
  }

  /** `validate_receipt`. */
  predicate ValidReceipt(doc: Value, digest: Digest) {
    && ValidHeader(doc, RECEIPT_KIND)
    && Get(doc, [SkillDiscovery, PromptsByteIdentical]) == Some(Bool(true))
    && Get(doc, FIXTURE) == Some(Str(REPRESENTATIVE_FIXTURE_ID))
    && Get(doc, [RepresentativeContext, PromptsByteIdentical]) == Some(Bool(true))
    && ValidIdentities(doc, digest)
  }

  /** `validate_budget`. */
  predicate ValidBudget(doc: Value, digest: Digest) {
    && ValidHeader(doc, BUDGET_KIND)
    && Get(doc, FIXTURE) == Some(Str(REPRESENTATIVE_FIXTURE_ID))
    && ValidIdentities(doc, digest)
  }

  /** What makes a receipt, and a budget, apart from the identities. */
  lemma DocumentsExactly(doc: Value, digest: Digest)
    ensures ValidReceipt(doc, digest) <==>
            && Get(doc, [DocumentKind]) == Some(Str("ghosty.runtime_contract_receipt"))
            && Get(doc, [SchemaVersion]) == Some(Int(1))
            && Get(doc, [SkillDiscovery, PromptsByteIdentical]) == Some(Bool(true))
            && Get(doc, [RepresentativeContext, FixtureId]) == Some(Str("representative-v1"))
            && Get(doc, [RepresentativeContext, PromptsByteIdentical]) == Some(Bool(true))
            && ValidIdentities(doc, digest)
    ensures ValidBudget(doc, digest) <==>
            && Get(doc, [DocumentKind]) == Some(Str("ghosty.runtime_contract_budget"))
            && Get(doc, [SchemaVersion]) == Some(Int(1))
            && Get(doc, [RepresentativeContext, FixtureId]) == Some(Str("representative-v1"))
            && ValidIdentities(doc, digest)
  {
  }

  predicate IsSurface(
    names: Option<Value>, count: Option<Value>, sha: Option<Value>, digest: Digest, ns: seq<string>)
  {
    && Ascending(ns) && "" !in ns && names.Some? && names.value.Arr? && |names.value.items| == |ns|
    && (forall i :: 0 <= i < |ns| ==> names.value.items[i] == Str(ns[i]))
    && count == Some(Int(|ns|)) && sha == Some(Str(digest(ns)))
  }

  /** A tool surface is a strictly ascending list of non-empty names with its length and digest. */
  lemma SurfaceExactly(names: Option<Value>, count: Option<Value>, sha: Option<Value>, digest: Digest)
    ensures AgreeingSurface(names, count, sha, digest) <==> exists ns :: IsSurface(names, count, sha, digest, ns)
  {
    if AgreeingSurface(names, count, sha, digest) {
      var ns := Names(names.value.items).value;
      NamesExactly(names.value.items, ns);
      assert IsSurface(names, count, sha, digest, ns);
    }
    if ns :| IsSurface(names, count, sha, digest, ns) {
      NamesExactly(names.value.items, ns);
      AscendingSorted(ns);
    }
  }

  /** The two documents hold the same value at every tracked path. */
  ghost predicate Agree(a: Value, b: Value) {
    forall p {:trigger IsTracked(p)} :: IsTracked(p) ==> Get(a, p) == Get(b, p)
  }

  predicate IsTracked(p: Path) {
    IsMetric(p) || IsIdentity(p)
  }

  lemma SurfaceTracked(mode: Key, surface: Key)
    requires mode in VISIBLE_MODES && surface in TOOL_SURFACES
    ensures IsTracked(SurfaceField(mode, surface, Tools))
    ensures IsTracked(SurfaceField(mode, surface, ToolNames))
    ensures IsTracked(SurfaceField(mode, surface, IdentitySha256))
  {
  }

  lemma StageTracked(stage: Key)
    requires stage in STAGES
    ensures IsTracked(StageDigest(stage))
  {
  }

  /** Two documents that agree on the tracked paths pass or fail the identity check together. */
  lemma IdentitiesTransfer(a: Value, b: Value, digest: Digest)
    requires Agree(a, b)
    ensures ValidIdentities(a, digest) <==> ValidIdentities(b, digest)
  {
    assert IsTracked([ToolCatalog, SurfaceProfile]);
    forall mode, surface | mode in VISIBLE_MODES && surface in TOOL_SURFACES
      ensures ValidSurface(a, mode, surface, digest) <==> ValidSurface(b, mode, surface, digest)
    {
      SurfaceTracked(mode, surface);
    }
    forall stage | stage in STAGES ensures Get(a, StageDigest(stage)) == Get(b, StageDigest(stage)) {
      StageTracked(stage);
    }
  }

  // ---- From a receipt to a budget ----

  /** The document that `budget_from_receipt` starts from. */
  function Skeleton(comment: string): Value {
    Obj(map[Comment := Str(comment),
            DocumentKind := Str(BUDGET_KIND),
            SchemaVersion := Int(SCHEMA_VERSION),
            RepresentativeContext := Obj(map[FixtureId := Str(REPRESENTATIVE_FIXTURE_ID)])])
  }

  predicate HasMetrics(doc: Value, metrics: seq<Path>) {
    forall p :: p in metrics ==> Metric(doc, p).Some?
  }

  /** `budget_from_receipt`: None where the script raises. */
  function FromReceipt(l: Layout, receipt: Value, digest: Digest, comment: string): Option<Value> {
    if ValidReceipt(receipt, digest) && HasMetrics(receipt, l.metrics)
    then Copy(Skeleton(comment), receipt, l.Tracked())
    else None
  }

  method BudgetFromReceipt(l: Layout, receipt: Value, digest: Digest, comment: string) returns (r: Option<Value>)
    ensures r == FromReceipt(l, receipt, digest, comment)
  {
    if !ValidReceipt(receipt, digest) { return None; }
    CopyAppend(Skeleton(comment), receipt, l.metrics, l.identities);
    r := CopyMetrics(Skeleton(comment), receipt, l.metrics);
    if r.Some? { r := CopyIdentities(r.value, receipt, l.identities); }
  }

  method CopyMetrics(start: Value, receipt: Value, metrics: seq<Path>) returns (r: Option<Value>)
    ensures r == if HasMetrics(receipt, metrics) then Copy(start, receipt, metrics) else None
  {
    var budget := start;
    assert metrics[0..] == metrics;
    for i := 0 to |metrics|
      invariant forall k :: 0 <= k < i ==> Metric(receipt, metrics[k]).Some?
      invariant Copy(budget, receipt, metrics[i..]) == Copy(start, receipt, metrics)
    {
      var metric := Metric(receipt, metrics[i]);
      if metric.None? {
        assert metrics[i] in metrics;
        return None;
      }
      CopyFirst(budget, receipt, metrics, i);
      var next := Set(budget, metrics[i], Int(metric.value));
      if next.None? { return None; }
      budget := next.value;
    }
    return Some(budget);
  }

  method CopyIdentities(start: Value, receipt: Value, identities: seq<Path>) returns (r: Option<Value>)
    ensures r == Copy(start, receipt, identities)
  {
    var budget := start;
    assert identities[0..] == identities;
    for i := 0 to |identities|
      invariant Copy(budget, receipt, identities[i..]) == Copy(start, receipt, identities)
    {
      CopyFirst(budget, receipt, identities, i);
      var value := RequiredValue(receipt, identities[i]);
      if value.None? { return None; }
      var next := Set(budget, identities[i], value.value);
      if next.None? { return None; }
      budget := next.value;
    }
    return Some(budget);
  }

  lemma {:induction false} CopyAppend(doc: Value, receipt: Value, a: seq<Path>, b: seq<Path>)
    ensures Copy(doc, receipt, a + b) ==
            if Copy(doc, receipt, a).None? then None else Copy(Copy(doc, receipt, a).value, receipt, b)
    decreases a
  {
    if a == [] {
      assert a + b == b;
    } else {
      assert (a + b)[1..] == a[1..] + b && (a + b)[0] == a[0];
      if Get(receipt, a[0]).Some? && Set(doc, a[0], Get(receipt, a[0]).value).Some? {
        CopyAppend(Set(doc, a[0], Get(receipt, a[0]).value).value, receipt, a[1..], b);
      }
    }
  }

  lemma CopyFirst(doc: Value, receipt: Value, paths: seq<Path>, i: nat)
    requires i < |paths|
    ensures Copy(doc, receipt, paths[i..]) ==
            if Get(receipt, paths[i]).None? || Set(doc, paths[i], Get(receipt, paths[i]).value).None? then None
            else Copy(Set(doc, paths[i], Get(receipt, paths[i]).value).value, receipt, paths[i + 1..])
  {
  }

  lemma BaseIsOpen(comment: string, p: Path)
    requires Shaped(p) && p != FIXTURE
    ensures Open(Skeleton(comment), p)
  {
  }

  /** A valid receipt with all metrics is ready to be copied. */
  lemma ReceiptIsReady(l: Layout, receipt: Value, digest: Digest, comment: string)
    requires l.Valid() && ValidReceipt(receipt, digest) && HasMetrics(receipt, l.metrics)
    ensures Ready(Skeleton(comment), receipt, l.Tracked())
  {
    forall p | p in l.Tracked()
      ensures Open(Skeleton(comment), p) && Get(receipt, p).Some?
    {
      TrackedShaped(p);
      BaseIsOpen(comment, p);
      if p in l.identities { IdentityPresent(receipt, digest, p); }
    }
  }

  lemma SurfacePresent(doc: Value, mode: Key, surface: Key, digest: Digest)
    requires ValidIdentities(doc, digest) && mode in VISIBLE_MODES && surface in TOOL_SURFACES
    ensures Get(doc, SurfaceField(mode, surface, ToolNames)).Some?
    ensures Get(doc, SurfaceField(mode, surface, IdentitySha256)).Some?
  {
    assert ValidSurface(doc, mode, surface, digest);
  }

  lemma IdentityPresent(doc: Value, digest: Digest, p: Path)
    requires ValidIdentities(doc, digest) && IsIdentity(p)
    ensures Get(doc, p).Some?
  {
    if SurfacePath(p, {ToolNames, IdentitySha256}) {
      IsSurfaceField(p);
      SurfacePresent(doc, p[2], p[3], digest);
    } else if StagePath(p, IdentitySha256) {
      IsStageDigest(p);
      StagePresent(doc, p[2], digest);
    }
  }

  lemma IsSurfaceField(p: Path)
    requires SurfacePath(p, {ToolNames, IdentitySha256})
    ensures p == SurfaceField(p[2], p[3], ToolNames) || p == SurfaceField(p[2], p[3], IdentitySha256)
  {
  }

  lemma IsStageDigest(p: Path)
    requires StagePath(p, IdentitySha256)
    ensures p == StageDigest(p[2])
  {
  }

  lemma StagePresent(doc: Value, stage: Key, digest: Digest)
    requires ValidIdentities(doc, digest) && stage in STAGES
    ensures Get(doc, StageDigest(stage)).Some?
  {
    assert IsSha256(Get(doc, StageDigest(stage)));
  }

  /** Round trip: a budget is built from every valid receipt that carries all metrics, and from
      no other; it reads back every tracked path unchanged and passes `validate_budget`. */
  lemma BudgetReadsBack(l: Layout, receipt: Value, digest: Digest, comment: string)
    requires l.Valid()
    ensures FromReceipt(l, receipt, digest, comment).Some? <==>
            ValidReceipt(receipt, digest) && HasMetrics(receipt, l.metrics)
    ensures FromReceipt(l, receipt, digest, comment).Some? ==>
              var budget := FromReceipt(l, receipt, digest, comment).value;
              && (forall p :: p in l.Tracked() ==> Get(budget, p) == Get(receipt, p))
              && ValidBudget(budget, digest)
  {
    if ValidReceipt(receipt, digest) && HasMetrics(receipt, l.metrics) {
      var base, tracked := Skeleton(comment), l.Tracked();
      TrackedPrefixFree(l);
      ReceiptIsReady(l, receipt, digest, comment);
      CopySucceeds(base, receipt, tracked);
      var budget := Copy(base, receipt, tracked).value;
      forall p | p in tracked
        ensures Get(budget, p) == Get(receipt, p)
      {
        CopyReadsBack(base, receipt, tracked, p);
      }
      AgreeOnTracked(l, budget, receipt);
      IdentitiesTransfer(budget, receipt, digest);
      CopyElsewhere(base, receipt, tracked, FIXTURE);
      BaseHeader(comment);
      HeaderKept(l, receipt, comment);
    }
  }

  lemma AgreeOnTracked(l: Layout, a: Value, b: Value)
    requires l.Valid()
    requires forall p :: p in l.Tracked() ==> Get(a, p) == Get(b, p)
    ensures Agree(a, b)
  {
  }

  lemma HeaderKept(l: Layout, receipt: Value, comment: string)
    requires l.Valid() && Copy(Skeleton(comment), receipt, l.Tracked()).Some?
    ensures ValidHeader(Copy(Skeleton(comment), receipt, l.Tracked()).value, BUDGET_KIND)
  {
    forall p | p in l.Tracked()
      ensures Unrelated(p, [DocumentKind]) && Unrelated(p, [SchemaVersion])
    {
      TrackedShaped(p);
      OutsideHeader(p);
    }
    CopyElsewhere(Skeleton(comment), receipt, l.Tracked(), [DocumentKind]);
    CopyElsewhere(Skeleton(comment), receipt, l.Tracked(), [SchemaVersion]);
    BaseHeader(comment);
  }

  lemma OutsideHeader(p: Path)
    requires Shaped(p)
    ensures Unrelated(p, [DocumentKind]) && Unrelated(p, [SchemaVersion])
  {
  }

  lemma BaseHeader(comment: string)
    ensures ValidHeader(Skeleton(comment), BUDGET_KIND)
    ensures Get(Skeleton(comment), FIXTURE) == Some(Str(REPRESENTATIVE_FIXTURE_ID))
  {
    var base := Skeleton(comment);
    GetTop(base, DocumentKind);
    GetTop(base, SchemaVersion);
    assert FIXTURE[1..] == [FixtureId];
    GetTop(base.fields[RepresentativeContext], FixtureId);
  }

  lemma GetTop(v: Value, key: Key)
    requires v.Obj? && key in v.fields
    ensures Get(v, [key]) == Some(v.fields[key])
  {
  }

  // ---- Comparison ----

  datatype Finding = Finding(path: Path, current: nat, ceiling: nat)
  datatype Comparison = Comparison(increases: seq<Finding>, decreases_: seq<Finding>)

  /** `compare` reaches its two lists: both documents are valid, every identity is equal and
      every metric is there. */
  predicate Comparable(l: Layout, receipt: Value, budget: Value, digest: Digest) {
    && ValidReceipt(receipt, digest) && ValidBudget(budget, digest)
    && (forall p :: p in l.identities ==> Get(receipt, p).Some? && Get(receipt, p) == Get(budget, p))
    && HasMetrics(receipt, l.metrics) && HasMetrics(budget, l.metrics)
  }

  function Above(receipt: Value, budget: Value, p: Path): seq<Finding> {
    match (Metric(receipt, p), Metric(budget, p))
    case (Some(current), Some(ceiling)) => if current > ceiling then [Finding(p, current, ceiling)] else []
    case _ => []
  }

  function Below(receipt: Value, budget: Value, p: Path): seq<Finding> {
    match (Metric(receipt, p), Metric(budget, p))
    case (Some(current), Some(ceiling)) => if current < ceiling then [Finding(p, current, ceiling)] else []
    case _ => []
  }

  function Increases(receipt: Value, budget: Value, metrics: seq<Path>): seq<Finding> {
    FlatMap(p => Above(receipt, budget, p), metrics)
  }

  function Decreases(receipt: Value, budget: Value, metrics: seq<Path>): seq<Finding> {
    FlatMap(p => Below(receipt, budget, p), metrics)
  }

  /** An increase names a metric whose measured value is above its ceiling, with these two numbers;
      a decrease one whose measured value is below it. */
  lemma FindingsExactly(receipt: Value, budget: Value, metrics: seq<Path>, f: Finding)
    ensures f in Increases(receipt, budget, metrics) <==>
            && f.path in metrics && f.current > f.ceiling
            && Get(receipt, f.path) == Some(Int(f.current)) && Get(budget, f.path) == Some(Int(f.ceiling))
    ensures f in Decreases(receipt, budget, metrics) <==>
            && f.path in metrics && f.current < f.ceiling
            && Get(receipt, f.path) == Some(Int(f.current)) && Get(budget, f.path) == Some(Int(f.ceiling))
  {
    FlatMapMember(p => Above(receipt, budget, p), metrics, f);
    FlatMapMember(p => Below(receipt, budget, p), metrics, f);
    forall p
      ensures f in Above(receipt, budget, p) <==>
              p == f.path && Metric(receipt, p) == Some(f.current) && Metric(budget, p) == Some(f.ceiling)
              && f.current > f.ceiling
      ensures f in Below(receipt, budget, p) <==>
              p == f.path && Metric(receipt, p) == Some(f.current) && Metric(budget, p) == Some(f.ceiling)
              && f.current < f.ceiling
    {
      OneFinding(receipt, budget, p, f);
    }
    MetricExactly(receipt, f.path, f.current);
    MetricExactly(budget, f.path, f.ceiling);
  }

  lemma OneFinding(receipt: Value, budget: Value, p: Path, f: Finding)
    ensures f in Above(receipt, budget, p) <==>
            p == f.path && Metric(receipt, p) == Some(f.current) && Metric(budget, p) == Some(f.ceiling)
            && f.current > f.ceiling
    ensures f in Below(receipt, budget, p) <==>
            p == f.path && Metric(receipt, p) == Some(f.current) && Metric(budget, p) == Some(f.ceiling)
            && f.current < f.ceiling
  {
  }

  method SameIdentities(identities: seq<Path>, receipt: Value, budget: Value) returns (same: bool)
    ensures same <==> forall p :: p in identities ==> Get(receipt, p).Some? && Get(receipt, p) == Get(budget, p)
  {
    for i := 0 to |identities|
      invariant forall k :: 0 <= k < i ==>
                  Get(receipt, identities[k]).Some? && Get(receipt, identities[k]) == Get(budget, identities[k])
    {
      var mine := RequiredValue(receipt, identities[i]);
      var theirs := RequiredValue(budget, identities[i]);
      if mine.None? || theirs.None? || mine != theirs {
        assert identities[i] in identities;
        return false;
      }
    }
    return true;
  }

  /** `compare`: None where the script raises. */
  method Compare(l: Layout, receipt: Value, budget: Value, digest: Digest) returns (r: Option<Comparison>)
    ensures r.Some? <==> Comparable(l, receipt, budget, digest)
    ensures r.Some? ==>
              r.value == Comparison(Increases(receipt, budget, l.metrics), Decreases(receipt, budget, l.metrics))
  {
    if !ValidReceipt(receipt, digest) || !ValidBudget(budget, digest) { return None; }
    var same := SameIdentities(l.identities, receipt, budget);
    if !same { return None; }
    r := CompareMetrics(l.metrics, receipt, budget);
  }

  method CompareOne(receipt: Value, budget: Value, p: Path)
    returns (measured: bool, up: seq<Finding>, down: seq<Finding>)
    ensures measured <==> Metric(receipt, p).Some? && Metric(budget, p).Some?
    ensures up == Above(receipt, budget, p) && down == Below(receipt, budget, p)
  {
    var current, ceiling := Metric(receipt, p), Metric(budget, p);
    measured, up, down := current.Some? && ceiling.Some?, [], [];
    if measured {
      if current.value > ceiling.value {
        up := [Finding(p, current.value, ceiling.value)];
      } else if current.value < ceiling.value {
        down := [Finding(p, current.value, ceiling.value)];
      }
    }
  }

  lemma FindingsStep(receipt: Value, budget: Value, metrics: seq<Path>, i: nat)
    requires i < |metrics|
    ensures Increases(receipt, budget, metrics[..i + 1]) ==
            Increases(receipt, budget, metrics[..i]) + Above(receipt, budget, metrics[i])
    ensures Decreases(receipt, budget, metrics[..i + 1]) ==
            Decreases(receipt, budget, metrics[..i]) + Below(receipt, budget, metrics[i])
  {
    FlatMapStep(p => Above(receipt, budget, p), metrics, i);
    FlatMapStep(p => Below(receipt, budget, p), metrics, i);
  }

  lemma MetricsStep(doc: Value, metrics: seq<Path>, i: nat)
    requires i < |metrics| && HasMetrics(doc, metrics[..i]) && Metric(doc, metrics[i]).Some?
    ensures HasMetrics(doc, metrics[..i + 1])
  {
    assert metrics[..i + 1] == metrics[..i] + [metrics[i]];
  }

  method CompareMetrics(metrics: seq<Path>, receipt: Value, budget: Value) returns (r: Option<Comparison>)
    ensures r.Some? <==> HasMetrics(receipt, metrics) && HasMetrics(budget, metrics)
    ensures r.Some? ==> r.value == Comparison(Increases(receipt, budget, metrics), Decreases(receipt, budget, metrics))
  {
    var increases, lowered := [], [];
    for i := 0 to |metrics|
      invariant HasMetrics(receipt, metrics[..i]) && HasMetrics(budget, metrics[..i])
      invariant increases == Increases(receipt, budget, metrics[..i])
      invariant lowered == Decreases(receipt, budget, metrics[..i])
    {
      var measured, up, down := CompareOne(receipt, budget, metrics[i]);
      if !measured {
        assert metrics[i] in metrics;
        return None;
      }
      FindingsStep(receipt, budget, metrics, i);
      MetricsStep(receipt, metrics, i);
      MetricsStep(budget, metrics, i);
      increases, lowered := increases + up, lowered + down;
    }
    assert metrics[..|metrics|] == metrics;
    return Some(Comparison(increases, lowered));
  }

  /** The comparison passes: it reaches its lists and nothing has grown. */
  ghost predicate Accepts(l: Layout, budget: Value, receipt: Value, digest: Digest) {
    Comparable(l, receipt, budget, digest) && Increases(receipt, budget, l.metrics) == []
  }

  lemma NoIncrease(receipt: Value, budget: Value, metrics: seq<Path>)
    requires HasMetrics(receipt, metrics) && HasMetrics(budget, metrics)
    ensures Increases(receipt, budget, metrics) == [] <==>
            forall p :: p in metrics ==> Metric(receipt, p).value <= Metric(budget, p).value
  {
    FlatMapEmpty(p => Above(receipt, budget, p), metrics);
    forall p | p in metrics
      ensures Above(receipt, budget, p) == [] <==> Metric(receipt, p).value <= Metric(budget, p).value
    {
    }
  }

  lemma NoDecrease(receipt: Value, budget: Value, metrics: seq<Path>)
    requires HasMetrics(receipt, metrics) && HasMetrics(budget, metrics)
    ensures Decreases(receipt, budget, metrics) == [] <==>
            forall p :: p in metrics ==> Metric(receipt, p).value >= Metric(budget, p).value
  {
    FlatMapEmpty(p => Below(receipt, budget, p), metrics);
    forall p | p in metrics
      ensures Below(receipt, budget, p) == [] <==> Metric(receipt, p).value >= Metric(budget, p).value
    {
    }
  }

  /** Comparing a receipt with the budget built from it finds no increase and no decrease. */
  lemma OwnBudgetIsExact(l: Layout, receipt: Value, digest: Digest, comment: string)
    requires l.Valid() && ValidReceipt(receipt, digest) && HasMetrics(receipt, l.metrics)
    ensures FromReceipt(l, receipt, digest, comment).Some?
    ensures var budget := FromReceipt(l, receipt, digest, comment).value;
            && Accepts(l, budget, receipt, digest)
            && Decreases(receipt, budget, l.metrics) == []
  {
    BudgetReadsBack(l, receipt, digest, comment);
    var budget := FromReceipt(l, receipt, digest, comment).value;
    SameMetrics(l, budget, receipt);
    forall p | p in l.identities
      ensures Get(receipt, p).Some? && Get(receipt, p) == Get(budget, p)
    {
      assert p in l.Tracked();
      IdentityPresent(receipt, digest, p);
    }
    NoIncrease(receipt, budget, l.metrics);
    NoDecrease(receipt, budget, l.metrics);
  }

  lemma SameMetrics(l: Layout, a: Value, b: Value)
    requires forall p :: p in l.Tracked() ==> Get(a, p) == Get(b, p)
    ensures forall p :: p in l.metrics ==> Metric(a, p) == Metric(b, p)
  {
  }

  // ---- The ratchet ----

  /** `main --update`: the budget is replaced only after a comparison without increases. */
  function Update(l: Layout, budget: Value, receipt: Value, digest: Digest, comment: string): Option<Value> {
    if Comparable(l, receipt, budget, digest) && Increases(receipt, budget, l.metrics) == []
    then FromReceipt(l, receipt, digest, comment)
    else None
  }

  /** One accepted update lowers or keeps every ceiling, keeps every identity, leaves a valid
      budget behind, and cannot fail once the comparison has passed. */
  lemma UpdateTightens(l: Layout, budget: Value, receipt: Value, digest: Digest, comment: string)
    requires l.Valid() && Accepts(l, budget, receipt, digest)
    ensures Update(l, budget, receipt, digest, comment).Some?
    ensures var next := Update(l, budget, receipt, digest, comment).value;
            Tighter(l, next, budget, digest) && (forall p :: p in l.metrics ==> Metric(next, p) == Metric(receipt, p))
  {
    BudgetReadsBack(l, receipt, digest, comment);
    var next := FromReceipt(l, receipt, digest, comment).value;
    NoIncrease(receipt, budget, l.metrics);
    SameMetrics(l, next, receipt);
    forall p | p in l.identities ensures Get(next, p) == Get(receipt, p) { assert p in l.Tracked(); }
  }

  /** Both budgets are complete, and the first has the same identities and no higher ceiling. */
  ghost predicate Tighter(l: Layout, b: Value, a: Value, digest: Digest) {
    && ValidBudget(a, digest) && ValidBudget(b, digest)
    && HasMetrics(a, l.metrics) && HasMetrics(b, l.metrics)
    && (forall p :: p in l.identities ==> Get(b, p) == Get(a, p))
    && (forall p :: p in l.metrics ==> Metric(b, p).value <= Metric(a, p).value)
  }

  /** What a tighter budget accepts, the wider one accepts too. */
  lemma TighterAcceptsLess(l: Layout, b: Value, a: Value, receipt: Value, digest: Digest)
    requires Tighter(l, b, a, digest) && Accepts(l, b, receipt, digest)
    ensures Accepts(l, a, receipt, digest)
  {
    NoIncrease(receipt, b, l.metrics);
    NoIncrease(receipt, a, l.metrics);
  }

  /** Budgets in the order in which accepted updates produced them. */
  ghost predicate UpdateRun(l: Layout, budgets: seq<Value>, receipts: seq<Value>, digest: Digest, comment: string) {
    && |budgets| == |receipts| + 1
    && forall k :: 0 <= k < |receipts| ==>
         Update(l, budgets[k], receipts[k], digest, comment) == Some(budgets[k + 1])
  }

  lemma RunStep(l: Layout, budgets: seq<Value>, receipts: seq<Value>, digest: Digest, comment: string, k: nat)
    requires l.Valid() && UpdateRun(l, budgets, receipts, digest, comment) && k < |receipts|
    ensures Accepts(l, budgets[k], receipts[k], digest) && Tighter(l, budgets[k + 1], budgets[k], digest)
    ensures forall p :: p in l.metrics ==> Metric(budgets[k + 1], p) == Metric(receipts[k], p)
  {
    assert Update(l, budgets[k], receipts[k], digest, comment) == Some(budgets[k + 1]);
    UpdateTightens(l, budgets[k], receipts[k], digest, comment);
  }

  lemma TighterTransitive(l: Layout, c: Value, b: Value, a: Value, digest: Digest)
    requires Tighter(l, c, b, digest) && Tighter(l, b, a, digest)
    ensures Tighter(l, c, a, digest)
  {
  }

  lemma RunTightens(l: Layout, budgets: seq<Value>, receipts: seq<Value>, digest: Digest, comment: string,
                    i: nat, j: nat)
    requires l.Valid() && UpdateRun(l, budgets, receipts, digest, comment) && i < j <= |receipts|
    ensures Tighter(l, budgets[j], budgets[i], digest)
  {
    var tighter := (b: Value, a: Value) => Tighter(l, b, a, digest);
    forall k | 0 <= k < |budgets| - 1
      ensures tighter(budgets[k + 1], budgets[k])
    {
      RunStep(l, budgets, receipts, digest, comment, k);
    }
    forall a, b, c | tighter(c, b) && tighter(b, a)
      ensures tighter(c, a)
    {
      TighterTransitive(l, c, b, a, digest);
    }
    ChainOrders(tighter, budgets, i, j);
  }

  /** Over any run of accepted updates no ceiling ever rises, no identity ever changes, and a
      receipt that a later budget accepts was acceptable under every earlier one. */
  lemma Ratchet(l: Layout, budgets: seq<Value>, receipts: seq<Value>, digest: Digest, comment: string,
                i: nat, j: nat, receipt: Value)
    requires l.Valid() && UpdateRun(l, budgets, receipts, digest, comment) && i < j <= |receipts|
    ensures Tighter(l, budgets[j], budgets[i], digest)
    ensures Accepts(l, budgets[j], receipt, digest) ==> Accepts(l, budgets[i], receipt, digest)
  {
    RunTightens(l, budgets, receipts, digest, comment, i, j);
    if Accepts(l, budgets[j], receipt, digest) {
      TighterAcceptsLess(l, budgets[j], budgets[i], receipt, digest);
    }
  }

  // ---- Tightenings are conserved ----

  /** All ceilings together. */
  function Total(doc: Value, metrics: seq<Path>): nat {
    if metrics == [] then 0
    else Total(doc, metrics[..|metrics| - 1])
         + (match Metric(doc, metrics[|metrics| - 1]) case Some(n) => n case None => 0)
  }

  /** How far the findings lie below their ceilings, together. */
  function Slack(findings: seq<Finding>): int {
    if findings == [] then 0
    else Slack(findings[..|findings| - 1]) + findings[|findings| - 1].ceiling - findings[|findings| - 1].current
  }

  predicate WithinCeiling(receipt: Value, budget: Value, p: Path) {
    Metric(receipt, p).Some? && Metric(budget, p).Some? && Metric(receipt, p).value <= Metric(budget, p).value
  }

  /** Without increases, the ceilings exceed the measured values by exactly the reported
      decreases, and by at least one for each of them. */
  lemma {:induction false} DecreasesAccount(receipt: Value, budget: Value, metrics: seq<Path>)
    requires forall p :: p in metrics ==> WithinCeiling(receipt, budget, p)
    ensures Total(budget, metrics) == Total(receipt, metrics) + Slack(Decreases(receipt, budget, metrics))
    ensures |Decreases(receipt, budget, metrics)| <= Slack(Decreases(receipt, budget, metrics))
  {
    if metrics == [] {
    } else {
      var init, p := metrics[..|metrics| - 1], metrics[|metrics| - 1];
      assert p in metrics && forall q :: q in init ==> q in metrics;
      DecreasesAccount(receipt, budget, init);
      DecreasesLast(receipt, budget, metrics);
      TotalLast(receipt, metrics, Metric(receipt, p).value);
      TotalLast(budget, metrics, Metric(budget, p).value);
      AccountFor(Decreases(receipt, budget, init), Metric(receipt, p).value, Metric(budget, p).value, p);
    }
  }

  lemma TotalLast(doc: Value, metrics: seq<Path>, n: nat)
    requires metrics != [] && Metric(doc, metrics[|metrics| - 1]) == Some(n)
    ensures Total(doc, metrics) == Total(doc, metrics[..|metrics| - 1]) + n
  {
  }

  lemma DecreasesLast(receipt: Value, budget: Value, metrics: seq<Path>)
    requires metrics != [] && WithinCeiling(receipt, budget, metrics[|metrics| - 1])
    ensures var init, p := metrics[..|metrics| - 1], metrics[|metrics| - 1];
            var current, ceiling := Metric(receipt, p).value, Metric(budget, p).value;
            Decreases(receipt, budget, metrics) ==
            Decreases(receipt, budget, init) + if current < ceiling then [Finding(p, current, ceiling)] else []
  {
    FindingsStep(receipt, budget, metrics, |metrics| - 1);
    assert metrics[..|metrics|] == metrics;
  }

  lemma AccountFor(before: seq<Finding>, current: nat, ceiling: nat, p: Path)
    requires current <= ceiling && |before| <= Slack(before)
    ensures var here := if current < ceiling then [Finding(p, current, ceiling)] else [];
            && Slack(before + here) == Slack(before) + ceiling - current
            && |before + here| <= Slack(before + here)
  {
    if current < ceiling {
      SlackStep(before, Finding(p, current, ceiling));
    } else {
      assert before + [] == before;
    }
  }

  lemma SlackStep(before: seq<Finding>, f: Finding)
    ensures Slack(before + [f]) == Slack(before) + f.ceiling - f.current
  {
  }

  /** The number of ceilings that each update of a run lowers, added up. */
  function Lowered(l: Layout, budgets: seq<Value>, receipts: seq<Value>, k: nat): nat
    requires k <= |receipts| && k < |budgets|
  {
    if k == 0 then 0 else Lowered(l, budgets, receipts, k - 1) + |Decreases(receipts[k - 1], budgets[k - 1], l.metrics)|
  }

  lemma {:induction false} TotalSame(a: Value, b: Value, metrics: seq<Path>)
    requires forall p :: p in metrics ==> Metric(a, p) == Metric(b, p)
    ensures Total(a, metrics) == Total(b, metrics)
  {
    if metrics == [] {
    } else {
      var init := metrics[..|metrics| - 1];
      assert metrics[|metrics| - 1] in metrics && forall q :: q in init ==> q in metrics;
      TotalSame(a, b, init);
    }
  }

  /** Over a whole run, the ceilings lowered, counted once for each update that lowers them, are
      at most what the initial ceilings add up to beyond the final ones. */
  lemma TighteningsBounded(l: Layout, budgets: seq<Value>, receipts: seq<Value>, digest: Digest, comment: string,
                           k: nat)
    requires l.Valid() && UpdateRun(l, budgets, receipts, digest, comment) && k <= |receipts|
    ensures Lowered(l, budgets, receipts, k) + Total(budgets[k], l.metrics) <= Total(budgets[0], l.metrics)
  {
    forall m | 0 <= m < |receipts|
      ensures |Decreases(receipts[m], budgets[m], l.metrics)| + Total(budgets[m + 1], l.metrics)
           <= Total(budgets[m], l.metrics)
    {
      RunStepSpends(l, budgets, receipts, digest, comment, m);
    }
    LoweredBounded(l, budgets, receipts, k);
  }

  lemma {:induction false} LoweredBounded(l: Layout, budgets: seq<Value>, receipts: seq<Value>, k: nat)
    requires |budgets| == |receipts| + 1 && k <= |receipts|
    requires forall m :: 0 <= m < |receipts| ==>
               |Decreases(receipts[m], budgets[m], l.metrics)| + Total(budgets[m + 1], l.metrics)
               <= Total(budgets[m], l.metrics)
    ensures Lowered(l, budgets, receipts, k) + Total(budgets[k], l.metrics) <= Total(budgets[0], l.metrics)
  {
    if k == 0 {
    } else {
      LoweredBounded(l, budgets, receipts, k - 1);
    }
  }

  lemma RunStepSpends(l: Layout, budgets: seq<Value>, receipts: seq<Value>, digest: Digest, comment: string, k: nat)
    requires l.Valid() && UpdateRun(l, budgets, receipts, digest, comment) && k < |receipts|
    ensures |Decreases(receipts[k], budgets[k], l.metrics)| + Total(budgets[k + 1], l.metrics)
         <= Total(budgets[k], l.metrics)
  {
    RunStep(l, budgets, receipts, digest, comment, k);
    StepSpends(l.metrics, budgets[k], receipts[k], budgets[k + 1]);
  }

  lemma StepSpends(metrics: seq<Path>, budget: Value, receipt: Value, next: Value)
    requires HasMetrics(receipt, metrics) && HasMetrics(budget, metrics) && Increases(receipt, budget, metrics) == []
    requires forall p :: p in metrics ==> Metric(next, p) == Metric(receipt, p)
    ensures |Decreases(receipt, budget, metrics)| + Total(next, metrics) <= Total(budget, metrics)
  {
    NoIncrease(receipt, budget, metrics);
    DecreasesAccount(receipt, budget, metrics);
    TotalSame(next, receipt, metrics);
  }
}
