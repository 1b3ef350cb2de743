/**
 A receipt of the kind that the budget script accepts: every measured value is zero and every tool
 list is empty.
 */
module BudgetSample {
  import opened Budget
  import opened Text
  import Json

  function Each(keys: set<Key>, v: Value): Value {
    Json.Obj(map k | k in keys :: v)
  }

  const ZERO: Value := Json.Int(0)

  function Sha(): Value {
    Json.Str(seq(64, i => '0'))
  }

  function Stage(): Value {
    Json.Obj(map[Bytes := ZERO, DeltaBytes := ZERO, IdentitySha256 := Sha()])
  }

  function Surface(digest: Digest): Value {
    Json.Obj(map[Tools := ZERO, Bytes := ZERO, TokensEst := ZERO,
                 ToolNames := Json.Arr([]), IdentitySha256 := Json.Str(digest([]))])
  }

  function Catalog(digest: Digest): Value {
    Json.Obj(map[SurfaceProfile := Json.Str(TOOL_SURFACE_PROFILE),
                 Modes := Each(VISIBLE_MODES, Each(TOOL_SURFACES, Surface(digest)))])
  }

  function Context(): Value {
    Json.Obj(map[FixtureId := Json.Str(REPRESENTATIVE_FIXTURE_ID), PromptsByteIdentical := Json.Bool(true),
                 Stages := Each(STAGES, Stage()),
                 TotalBytes := ZERO, TotalTokensEst := ZERO, SystemPromptBlocks := ZERO])
  }

  function Discovery(): Value {
    Json.Obj(map[PromptsByteIdentical := Json.Bool(true), FirstDelta := Each(DISCOVERY_FIELDS, ZERO),
                 SecondDelta := Each(DISCOVERY_FIELDS, ZERO)])
  }

  function Prompts(): Value {
    Json.Obj(map[Modes := Each(VISIBLE_MODES, Each(PROMPT_FIELDS, ZERO))])
  }

  function Receipt(digest: Digest): Value {
    Json.Obj(map[DocumentKind := Json.Str(RECEIPT_KIND), SchemaVersion := Json.Int(SCHEMA_VERSION),
                 SystemPrompt := Prompts(), RepresentativeContext := Context(),
                 ToolCatalog := Catalog(digest), SkillDiscovery := Discovery()])
  }

  // ---- Reading it ----

  lemma GetLast(v: Value, k: Key)
    requires v.Obj? && k in v.fields
    ensures Get(v, [k]) == Some(v.fields[k])
  {
    assert [k][1..] == [];
  }

  lemma GetNext(v: Value, k: Key, rest: Path)
    requires v.Obj? && k in v.fields
    ensures Get(v, [k] + rest) == Get(v.fields[k], rest)
  {
    assert ([k] + rest)[1..] == rest;
  }

  lemma GetTwo(v: Value, j: Key, k: Key)
    requires v.Obj? && j in v.fields && v.fields[j].Obj? && k in v.fields[j].fields
    ensures Get(v, [j, k]) == Some(v.fields[j].fields[k])
  {
    GetNext(v, j, [k]);
    assert [j] + [k] == [j, k];
    GetLast(v.fields[j], k);
  }

  lemma PromptIsZero(digest: Digest, p: Path)
    requires PromptPath(p)
    ensures Get(Receipt(digest), p) == Some(ZERO)
  {
    assert p == [SystemPrompt] + ([Modes] + [p[2], p[3]]);
    GetNext(Receipt(digest), SystemPrompt, [Modes] + [p[2], p[3]]);
    GetNext(Prompts(), Modes, [p[2], p[3]]);
    GetTwo(Each(VISIBLE_MODES, Each(PROMPT_FIELDS, ZERO)), p[2], p[3]);
  }

  lemma StageHolds(digest: Digest, p: Path, leaf: Key)
    requires StagePath(p, leaf) && leaf in {Bytes, DeltaBytes, IdentitySha256}
    ensures Get(Receipt(digest), p) == Some(Stage().fields[leaf])
  {
    assert p == [RepresentativeContext] + ([Stages] + [p[2], p[3]]);
    GetNext(Receipt(digest), RepresentativeContext, [Stages] + [p[2], p[3]]);
    GetNext(Context(), Stages, [p[2], p[3]]);
    GetTwo(Each(STAGES, Stage()), p[2], p[3]);
  }

  lemma SurfaceHolds(digest: Digest, mode: Key, surface: Key, field: Key)
    requires mode in VISIBLE_MODES && surface in TOOL_SURFACES && field in Surface(digest).fields
    ensures Get(Receipt(digest), SurfaceField(mode, surface, field)) == Some(Surface(digest).fields[field])
  {
    var rest := [mode] + [surface, field];
    assert SurfaceField(mode, surface, field) == [ToolCatalog] + ([Modes] + rest);
    GetNext(Receipt(digest), ToolCatalog, [Modes] + rest);
    GetNext(Catalog(digest), Modes, rest);
    EachHolds(VISIBLE_MODES, TOOL_SURFACES, Surface(digest), mode, surface, field);
  }

  lemma EachHolds(modes: set<Key>, surfaces: set<Key>, v: Value, mode: Key, surface: Key, field: Key)
    requires mode in modes && surface in surfaces && v.Obj? && field in v.fields
    ensures Get(Each(modes, Each(surfaces, v)), [mode] + [surface, field]) == Some(v.fields[field])
  {
    GetNext(Each(modes, Each(surfaces, v)), mode, [surface, field]);
    GetTwo(Each(surfaces, v), surface, field);
  }

  lemma SurfaceIsZero(digest: Digest, p: Path)
    requires SurfacePath(p, TOOL_FIELDS)
    ensures Get(Receipt(digest), p) == Some(ZERO)
  {
    SurfaceHolds(digest, p[2], p[3], p[4]);
    assert p == SurfaceField(p[2], p[3], p[4]);
  }

  lemma TotalIsZero(digest: Digest, p: Path)
    requires |p| == 2 && p[0] == RepresentativeContext && p[1] in TOTAL_FIELDS
    ensures Get(Receipt(digest), p) == Some(ZERO)
  {
    GetTwo(Receipt(digest), RepresentativeContext, p[1]);
    assert p == [RepresentativeContext, p[1]];
  }

  lemma DiscoveryIsZero(digest: Digest, p: Path)
    requires |p| == 3 && p[0] == SkillDiscovery && p[1] in DELTAS && p[2] in DISCOVERY_FIELDS
    ensures Get(Receipt(digest), p) == Some(ZERO)
  {
    assert p == [SkillDiscovery] + [p[1], p[2]];
    GetNext(Receipt(digest), SkillDiscovery, [p[1], p[2]]);
    GetTwo(Discovery(), p[1], p[2]);
  }

  predicate IsZero(v: Option<Value>) {
    v == Some(ZERO)
  }

  lemma StageIsZero(digest: Digest, p: Path)
    requires StagePath(p, Bytes) || StagePath(p, DeltaBytes)
    ensures IsZero(Get(Receipt(digest), p))
  {
    var leaf := p[3];
    StageHolds(digest, p, leaf);
    StageLeaf(leaf);
  }

  lemma StageLeaf(leaf: Key)
    requires leaf == Bytes || leaf == DeltaBytes
    ensures Stage().fields[leaf] == ZERO
  {
  }

  lemma MetricIsZero(digest: Digest, p: Path)
    requires IsMetric(p)
    ensures IsZero(Get(Receipt(digest), p))
  {
    if PromptPath(p) {
      PromptIsZero(digest, p);
    } else if |p| == 4 {
      StageIsZero(digest, p);
    } else if |p| == 5 {
      SurfaceIsZero(digest, p);
    } else if |p| == 2 {
      TotalIsZero(digest, p);
    } else {
      DiscoveryIsZero(digest, p);
    }
  }

  lemma ZeroIsMeasured(doc: Value, p: Path)
    requires IsZero(Get(doc, p))
    ensures Metric(doc, p) == Some(0)
  {
  }

  lemma SurfacesAgree(digest: Digest, mode: Key, surface: Key)
    requires mode in VISIBLE_MODES && surface in TOOL_SURFACES
    ensures ValidSurface(Receipt(digest), mode, surface, digest)
  {
    SurfaceHolds(digest, mode, surface, ToolNames);
    SurfaceHolds(digest, mode, surface, Tools);
    SurfaceHolds(digest, mode, surface, IdentitySha256);
  }

  lemma IdentitiesHold(digest: Digest)
    ensures ValidIdentities(Receipt(digest), digest)
  {
    GetTwo(Receipt(digest), ToolCatalog, SurfaceProfile);
    forall mode, surface | mode in VISIBLE_MODES && surface in TOOL_SURFACES
      ensures ValidSurface(Receipt(digest), mode, surface, digest)
    {
      SurfacesAgree(digest, mode, surface);
    }
    forall stage | stage in STAGES ensures IsSha256(Get(Receipt(digest), StageDigest(stage))) {
      StageHolds(digest, StageDigest(stage), IdentitySha256);
    }
  }

  /** Receipts that are valid and carry all metrics exist, whatever the digest. */
  lemma ReceiptIsValid(l: Layout, digest: Digest)
    requires l.Valid()
    ensures ValidReceipt(Receipt(digest), digest) && HasMetrics(Receipt(digest), l.metrics)
  {
    var r := Receipt(digest);
    GetLast(r, DocumentKind);
    GetLast(r, SchemaVersion);
    GetTwo(r, SkillDiscovery, PromptsByteIdentical);
    GetTwo(r, RepresentativeContext, FixtureId);
    GetTwo(r, RepresentativeContext, PromptsByteIdentical);
    IdentitiesHold(digest);
    forall p | p in l.metrics ensures Metric(r, p).Some? {
      MetricIsZero(digest, p);
      ZeroIsMeasured(r, p);
    }
  }
}
