/**
 The maintained crates.io publication order, checked against Cargo metadata
 (scripts/release/validate-crate-publish-order.py).
 */
module PublishOrder {
  import opened Text
  import opened Graphs

  // Cargo metadata as decoded: a field that is missing or has the wrong type is None.
  datatype Dependency = NotADictionary | Dependency(name: Option<string>, hasPath: bool, kind: Option<string>)
  datatype Dependencies = NotAList | Listed(items: seq<Dependency>)
  datatype Package = Package(name: Option<string>, version: Option<string>, dependencies: Dependencies)

  type Workspace = map<string, Package>

  predicate IsRelease(name: string) {
    "ghosty-" <= name
  }

  /** `dependency.get("kind") or "normal"`. */
  function KindOf(d: Dependency): string
    requires d.Dependency?
  {
    if d.kind.None? || d.kind.value == [] then "normal" else d.kind.value
  }

  /** A path dependency on a package of the workspace. */
  predicate InWorkspace(ws: Workspace, d: Dependency) {
    d.Dependency? && d.hasPath && d.name.Some? && d.name.value in ws
  }

  /** One that Cargo compiles while verifying a publication. */
  predicate Publishes(ws: Workspace, d: Dependency) {
    InWorkspace(ws, d) && KindOf(d) != "dev"
  }

  predicate Named(packages: seq<Package>) {
    && (forall p :: p in packages ==> p.name.Some? && p.name.value != [])
    && (forall i, j :: 0 <= i < j < |packages| ==> packages[i].name != packages[j].name)
  }

  /** `workspace_by_name`. */
  function ByName(packages: seq<Package>): Workspace {
    if packages == [] then map[]
    else
      var last := packages[|packages| - 1];
      var ws := ByName(packages[..|packages| - 1]);
      if last.name.Some? then ws[last.name.value := last] else ws
  }

  /** A package of this name is found under it, and nothing else is. */
  ghost predicate FoundUnder(packages: seq<Package>, ws: Workspace, n: string) {
    && (n in ws <==> exists i :: 0 <= i < |packages| && packages[i].name == Some(n))
    && forall i :: 0 <= i < |packages| && packages[i].name == Some(n) ==> n in ws && ws[n] == packages[i]
  }

  /** Every package is found under its own name, and nothing else is. */
  lemma {:induction false} ByNameExact(packages: seq<Package>, n: string)
    requires Named(packages)
    ensures FoundUnder(packages, ByName(packages), n)
  {
    if packages == [] {
    } else {
      var init, last := packages[..|packages| - 1], packages[|packages| - 1];
      assert last in packages && forall p :: p in init ==> p in packages;
      ByNameExact(init, n);
      assert packages == init + [last];
      OneMoreFound(init, last, ByName(init), n);
    }
  }

  lemma OneMoreFound(init: seq<Package>, last: Package, ws: Workspace, n: string)
    requires Named(init + [last]) && last.name.Some? && FoundUnder(init, ws, n)
    ensures FoundUnder(init + [last], ws[last.name.value := last], n)
  {
    var packages := init + [last];
    assert packages[|init|] == last && forall i :: 0 <= i < |init| ==> packages[i] == init[i];
  }

  function Release(ws: Workspace): set<string> {
    set n | n in ws.Keys && IsRelease(n)
  }

  function Items(deps: Dependencies): seq<Dependency> {
    if deps.Listed? then deps.items else []
  }

  /** What each crate of the release needs published before it. */
  function PublishGraph(ws: Workspace): Graph {
    map n | n in Release(ws) :: set d | d in Items(ws[n].dependencies) && Publishes(ws, d) :: d.name.value
  }

  /** The crates of the release are the packages named "ghosty-...". */
  lemma ReleaseExactly(ws: Workspace, n: string)
    ensures n in Release(ws) <==> n in ws && |n| >= 7 && n[..7] == "ghosty-"
  {
  }

  /** What a crate needs, in terms of the metadata: the packages of the workspace that it has a path
      dependency on, other than a dev-dependency. */
  lemma EdgesExactly(ws: Workspace, a: string, b: string)
    ensures a in Next(PublishGraph(ws), b) <==>
            && b in ws && "ghosty-" <= b && ws[b].dependencies.Listed? && a in ws
            && exists d :: d in ws[b].dependencies.items && d.Dependency? && d.hasPath
                           && d.name == Some(a) && d.kind != Some("dev")
  {
  }

  /** The packages carry one version. */
  predicate OneVersion(packages: seq<Package>, version: string) {
    packages != [] && version != [] && forall p :: p in packages ==> p.version == Some(version)
  }

  /** Everything the check asks of the metadata, whatever the order. */
  ghost predicate Releasable(packages: seq<Package>) {
    && (forall p :: p in packages ==> p.name.Some? && p.name != Some(""))
    && (forall i, j :: 0 <= i < |packages| && 0 <= j < |packages| && packages[i].name == packages[j].name ==> i == j)
    && (exists v :: OneVersion(packages, v)) && Sound(ByName(packages))
  }

  /** The order is accepted: it lists exactly the crates of the release, each once, and each
      after everything it needs. */
  ghost predicate Acceptable(packages: seq<Package>, ordered: seq<string>) {
    && Releasable(packages) && Distinct(ordered)
    && Members(ordered) == Release(ByName(packages))
    && Backwards(PublishGraph(ByName(packages)), ordered)
  }

  // ---- The check ----

  datatype Verdict = Rejected | Accepted(version: string, hasWorkspaceDependencies: map<string, bool>)

  // dependency, dependent, kind
  type Edge = (string, string, string)

  function EdgesOf(ws: Workspace, dependent: string, deps: seq<Dependency>): set<Edge> {
    set d | d in deps && Publishes(ws, d) :: (d.name.value, dependent, KindOf(d))
  }

  /** Where each listed name stands. */
  function Positions(ordered: seq<string>): map<string, nat>
    requires Distinct(ordered)
  {
    map i | 0 <= i < |ordered| :: ordered[i] := i
  }

  /** `validate_order`. */
  method ValidateOrder(packages: seq<Package>, ordered: seq<string>) returns (r: Verdict)
    ensures r.Accepted? <==> Acceptable(packages, ordered)
    ensures r.Accepted? ==> OneVersion(packages, r.version)
    ensures r.Accepted? ==>
              var ws := ByName(packages);
              && r.hasWorkspaceDependencies.Keys == Release(ws)
              && forall n :: n in Release(ws) ==>
                   (r.hasWorkspaceDependencies[n] <==>
                      && ws[n].dependencies.Listed?
                      && exists d :: d in ws[n].dependencies.items && d.Dependency? && d.hasPath
                                     && d.name.Some? && d.name.value in ws)
  {
    DistinctLength(ordered);
    if |Members(ordered)| != |ordered| || !Named(packages) { return Rejected; }
    var version := SingleVersion(packages);
    if version.None? { return Rejected; }
    var ok, flags := CheckRelease(ByName(packages), ordered);
    if !ok { return Rejected; }
    return Accepted(version.value, flags);
  }

  /** Every need of the release lies inside it. */
  ghost predicate Sound(ws: Workspace) {
    forall n :: n in Release(ws) ==> ws[n].dependencies.Listed? && Next(PublishGraph(ws), n) <= Release(ws)
  }

  /** A path dependency on a package of the workspace, other than a dev-dependency. */
  predicate IsNeed(ws: Workspace, d: Dependency) {
    d.Dependency? && d.hasPath && d.kind != Some("dev") && d.name.Some? && d.name.value in ws
  }

  /** The metadata is sound when every crate of the release lists its dependencies and needs no
      package of the workspace outside the release. */
  lemma SoundExactly(ws: Workspace)
    ensures Sound(ws) <==>
            forall n :: n in ws && "ghosty-" <= n ==>
              && ws[n].dependencies.Listed?
              && forall d :: d in ws[n].dependencies.items && IsNeed(ws, d) ==> "ghosty-" <= d.name.value
  {
    forall n | n in Release(ws) && ws[n].dependencies.Listed?
      ensures Next(PublishGraph(ws), n) <= Release(ws) <==>
              forall d :: d in ws[n].dependencies.items && IsNeed(ws, d) ==> "ghosty-" <= d.name.value
    {
      assert forall d :: d in ws[n].dependencies.items && Publishes(ws, d) ==>
                           d.name.value in Next(PublishGraph(ws), n);
    }
  }

  method CheckRelease(ws: Workspace, ordered: seq<string>) returns (ok: bool, flags: map<string, bool>)
    requires Distinct(ordered)
    ensures ok <==> Sound(ws) && Members(ordered) == Release(ws) && Backwards(PublishGraph(ws), ordered)
    ensures ok ==> flags.Keys == Release(ws) && forall n :: n in Release(ws) ==> flags[n] == Flag(ws, n)
  {
    var names := ListOf(Release(ws));
    names := SortedSet(names);
    if Members(ordered) != Members(names) { return false, map[]; }
    assert forall n :: n in names <==> n in Members(names);
    var inside, found, edges := CollectEdges(ws, names);
    InsideIsReleasable(ws, names);
    if !inside { return false, map[]; }
    EdgesPlaced(ws, names, ordered, edges);
    EdgesTopological(ws, names, ordered, edges);
    var backwards := CheckPositions(ordered, edges);
    return backwards, found;
  }

  method CheckPositions(ordered: seq<string>, edges: set<Edge>) returns (ok: bool)
    requires Distinct(ordered) && forall e :: e in edges ==> e.0 in Positions(ordered) && e.1 in Positions(ordered)
    ensures ok <==> forall e :: e in edges ==> Positions(ordered)[e.0] < Positions(ordered)[e.1]
  {
    var positions := Positions(ordered);
    var violations := set e | e in edges && positions[e.0] >= positions[e.1];
    ok := violations == {};
    assert forall e :: e in violations <==> e in edges && positions[e.0] >= positions[e.1];
  }

  method SingleVersion(packages: seq<Package>) returns (version: Option<string>)
    ensures version.None? <==> !exists v :: OneVersion(packages, v)
    ensures version.Some? ==> OneVersion(packages, version.value)
  {
    if packages == [] || packages[0].version.None? || packages[0].version.value == [] {
      assert packages != [] ==> packages[0] in packages;
      return None;
    }
    var v := packages[0].version.value;
    for i := 0 to |packages|
      invariant forall k :: 0 <= k < i ==> packages[k].version == Some(v)
    {
      if packages[i].version != Some(v) {
        assert packages[0] in packages && packages[i] in packages;
        return None;
      }
    }
    assert OneVersion(packages, v);
    return Some(v);
  }

  /** The crate has a list of dependencies, and those that matter lie in the release. */
  predicate Inside(ws: Workspace, n: string) {
    n in ws && ws[n].dependencies.Listed? &&
    forall d :: d in ws[n].dependencies.items && Publishes(ws, d) ==> d.name.value in Release(ws)
  }

  predicate Flag(ws: Workspace, n: string) {
    n in ws && exists d :: d in Items(ws[n].dependencies) && InWorkspace(ws, d)
  }

  function DeclaredEdges(ws: Workspace, n: string): set<Edge> {
    if n in ws then EdgesOf(ws, n, Items(ws[n].dependencies)) else {}
  }

  function AllEdges(ws: Workspace, names: seq<string>): set<Edge> {
    if names == [] then {} else AllEdges(ws, names[..|names| - 1]) + DeclaredEdges(ws, names[|names| - 1])
  }

  /** The loop over the release that fills flags and edges. */
  lemma EdgesGrow(ws: Workspace, names: seq<string>, i: nat)
    requires i < |names|
    ensures AllEdges(ws, names[..i + 1]) == AllEdges(ws, names[..i]) + DeclaredEdges(ws, names[i])
    ensures Members(names[..i + 1]) == Members(names[..i]) + {names[i]}
  {
    assert names[..i + 1][..i] == names[..i];
    assert names[..i + 1] == names[..i] + [names[i]];
  }

  method CollectEdges(ws: Workspace, names: seq<string>) returns (ok: bool, flags: map<string, bool>, edges: set<Edge>)
    requires forall n :: n in names ==> n in ws
    ensures ok <==> forall n :: n in names ==> Inside(ws, n)
    ensures ok ==> edges == AllEdges(ws, names)
    ensures ok ==> flags.Keys == Members(names) && forall n :: n in names ==> flags[n] == Flag(ws, n)
  {
    flags, edges, ok := map[], {}, true;
    for i := 0 to |names|
      invariant forall k :: 0 <= k < i ==> Inside(ws, names[k])
      invariant edges == AllEdges(ws, names[..i])
      invariant flags.Keys == Members(names[..i]) && forall n :: n in flags ==> flags[n] == Flag(ws, n)
    {
      var n := names[i];
      assert n in names;
      var fine, flag, found := CollectCrate(ws, n);
      if !fine { return false, flags, edges; }
      EdgesGrow(ws, names, i);
      flags, edges := flags[n := flag], edges + found;
    }
    assert names[..|names|] == names;
    assert forall n :: n in names ==> n in Members(names);
  }

  method CollectCrate(ws: Workspace, n: string) returns (ok: bool, flag: bool, edges: set<Edge>)
    requires n in ws
    ensures ok <==> Inside(ws, n)
    ensures ok ==> edges == DeclaredEdges(ws, n) && flag == Flag(ws, n)
  {
    var deps := ws[n].dependencies;
    if deps.NotAList? { return false, false, {}; }
    ok, flag, edges := CollectDependencies(ws, n, deps.items);
  }

  method CollectDependencies(ws: Workspace, dependent: string, deps: seq<Dependency>)
    returns (ok: bool, flag: bool, edges: set<Edge>)
    ensures ok <==> forall d :: d in deps && Publishes(ws, d) ==> d.name.value in Release(ws)
    ensures ok ==> edges == EdgesOf(ws, dependent, deps)
    ensures ok ==> (flag <==> exists d :: d in deps && InWorkspace(ws, d))
  {
    ok, flag, edges := true, false, {};
    for i := 0 to |deps|
      invariant forall d :: d in deps[..i] && Publishes(ws, d) ==> d.name.value in Release(ws)
      invariant edges == EdgesOf(ws, dependent, deps[..i])
      invariant flag <==> exists d :: d in deps[..i] && InWorkspace(ws, d)
    {
      var d := deps[i];
      assert deps[..i + 1] == deps[..i] + [d];
      assert d in deps;
      if !InWorkspace(ws, d) { continue; }
      flag := true;
      if KindOf(d) == "dev" { continue; }
      if d.name.value !in Release(ws) { return false, flag, edges; }
      edges := edges + {(d.name.value, dependent, KindOf(d))};
    }
    assert deps[..|deps|] == deps;
  }

  /** The loops accept the metadata exactly when every need of the release lies inside it. */
  lemma InsideIsReleasable(ws: Workspace, names: seq<string>)
    requires Members(names) == Release(ws)
    ensures (forall n :: n in names ==> Inside(ws, n)) <==> Sound(ws)
  {
    assert forall n :: n in names <==> n in Members(names);
    forall n | n in Release(ws)
      ensures Inside(ws, n) <==> ws[n].dependencies.Listed? && Next(PublishGraph(ws), n) <= Release(ws)
    {
      if ws[n].dependencies.Listed? {
        assert forall d :: d in ws[n].dependencies.items && Publishes(ws, d) ==>
                                 d.name.value in Next(PublishGraph(ws), n);
      }
    }
  }

  lemma {:induction false} EdgeMember(ws: Workspace, names: seq<string>, e: Edge)
    ensures e in AllEdges(ws, names) <==> exists n :: n in names && e in DeclaredEdges(ws, n)
  {
    if names == [] {
    } else {
      var init, last := names[..|names| - 1], names[|names| - 1];
      EdgeMember(ws, init, e);
      assert names == init + [last];
    }
  }

  /** The edges are those of the graph. */
  lemma EdgeInGraph(ws: Workspace, names: seq<string>, a: string, b: string)
    requires Members(names) == Release(ws)
    ensures b in Release(ws) && a in Next(PublishGraph(ws), b) <==> exists kind :: (a, b, kind) in AllEdges(ws, names)
  {
    if b in Release(ws) && a in Next(PublishGraph(ws), b) {
      var d :| d in Items(ws[b].dependencies) && Publishes(ws, d) && d.name.value == a;
      assert (a, b, KindOf(d)) in DeclaredEdges(ws, b);
      assert b in Members(names);
      EdgeMember(ws, names, (a, b, KindOf(d)));
    }
    forall kind | (a, b, kind) in AllEdges(ws, names)
      ensures b in Release(ws) && a in Next(PublishGraph(ws), b)
    {
      EdgeMember(ws, names, (a, b, kind));
      assert b in Members(names);
    }
  }

  lemma EdgesPlaced(ws: Workspace, names: seq<string>, ordered: seq<string>, edges: set<Edge>)
    requires Distinct(ordered) && Members(ordered) == Members(names) == Release(ws)
    requires (forall n :: n in names ==> Inside(ws, n)) && edges == AllEdges(ws, names)
    ensures forall e :: e in edges ==> e.0 in Positions(ordered) && e.1 in Positions(ordered)
  {
    forall e | e in edges
      ensures e.0 in Members(ordered) && e.1 in Members(ordered)
    {
      EdgeMember(ws, names, e);
      var n :| n in names && e in DeclaredEdges(ws, n);
      assert n in Members(names);
    }
    forall x | x in Members(ordered) ensures x in Positions(ordered) {
      var i :| 0 <= i < |ordered| && ordered[i] == x;
    }
  }

  lemma Placed(ordered: seq<string>, i: nat, x: string)
    requires Distinct(ordered) && i <= |ordered|
    ensures x in ordered[..i] <==> x in Positions(ordered) && Positions(ordered)[x] < i
  {
  }

  /** Comparing positions decides whether the order runs backwards along every edge. */
  lemma EdgesTopological(ws: Workspace, names: seq<string>, ordered: seq<string>, edges: set<Edge>)
    requires Distinct(ordered) && Members(ordered) == Members(names) == Release(ws) && edges == AllEdges(ws, names)
    requires forall e :: e in edges ==> e.0 in Positions(ordered) && e.1 in Positions(ordered)
    ensures (forall e :: e in edges ==> Positions(ordered)[e.0] < Positions(ordered)[e.1]) <==>
            Backwards(PublishGraph(ws), ordered)
  {
    var positions := Positions(ordered);
    if Backwards(PublishGraph(ws), ordered) {
      forall e | e in edges
        ensures positions[e.0] < positions[e.1]
      {
        EdgeInGraph(ws, names, e.0, e.1);
        assert (e.0, e.1, e.2) in edges;
        var i := positions[e.1];
        Placed(ordered, i, e.0);
      }
    }
    if forall e :: e in edges ==> positions[e.0] < positions[e.1] {
      forall i, d | 0 <= i < |ordered| && d in Next(PublishGraph(ws), ordered[i])
        ensures d in ordered[..i]
      {
        assert ordered[i] in Members(ordered);
        EdgeInGraph(ws, names, d, ordered[i]);
        var kind :| (d, ordered[i], kind) in edges;
        Placed(ordered, i, d);
      }
    }
  }

  // ---- What acceptance means ----

  /** In an accepted order every prefix contains all that its crates need, directly or not; no
      crate needs itself, so metadata with a cycle has no accepted order. */
  lemma AcceptedOrderIsSafe(packages: seq<Package>, ordered: seq<string>)
    requires Acceptable(packages, ordered)
    ensures Acyclic(PublishGraph(ByName(packages)))
    ensures forall k, b, a :: 0 <= k <= |ordered| && b in ordered[..k]
                              && Reaches(PublishGraph(ByName(packages)), b, a) ==>
                                a in ordered[..k]
  {
    var g := PublishGraph(ByName(packages));
    BackwardsIsAcyclic(g, ordered);
    forall k, b, a | 0 <= k <= |ordered| && b in ordered[..k] && Reaches(g, b, a)
      ensures a in ordered[..k]
    {
      PrefixClosed(g, ordered, k, b, a);
    }
  }

  /** Sound metadata has an accepted order if and only if its publication graph has no cycle. */
  lemma AcceptedOrderExists(packages: seq<Package>)
    requires Releasable(packages)
    ensures (exists ordered :: Acceptable(packages, ordered)) <==> Acyclic(PublishGraph(ByName(packages)))
  {
    var ws := ByName(packages);
    var g := PublishGraph(ws);
    if ordered :| Acceptable(packages, ordered) {
      AcceptedOrderIsSafe(packages, ordered);
    }
    if Acyclic(g) {
      assert Partial(g, [], Release(ws));
      var ordered := OrderExists(g, [], Release(ws));
      assert Members<string>([]) + Release(ws) == Release(ws);
      assert Acceptable(packages, ordered);
    }
  }
}
