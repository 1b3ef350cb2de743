/**
 The crate-boundary gate: the command contract must not reach the TUI package over normal
 dependencies (scripts/check-command-crate-boundaries.py).
 */
module Boundaries {
  import opened Text
  import opened Graphs

  const FORBIDDEN_TUI_PACKAGE := "ghosty-tui"
  const CONTRACT_PACKAGE := "ghosty-command-contract"

  // `kind` is None for a normal dependency, "dev" or "build" otherwise.
  datatype Dependency = Dependency(name: Option<string>, kind: Option<string>)
  datatype Package = Package(name: string, dependencies: seq<Dependency>)

  predicate Normal(d: Dependency) {
    d.kind.None? && d.name.Some? && d.name.value != []
  }

  /** The normal dependencies of one package. */
  function NormalNames(deps: seq<Dependency>): set<string> {
    set d | d in deps && Normal(d) :: d.name.value
  }

  /** The nodes are the names of the packages. */
  ghost predicate HasNodes(g: Graph, packages: seq<Package>) {
    forall n :: n in g <==> exists i :: 0 <= i < |packages| && packages[i].name == n
  }

  /** No later package has this name. */
  ghost predicate IsLast(packages: seq<Package>, i: nat) {
    i < |packages| && forall j :: i < j < |packages| ==> packages[j].name != packages[i].name
  }

  /** The last package with a name decides, as in a dictionary filled in a loop. */
  ghost predicate IsGraphOf(g: Graph, packages: seq<Package>) {
    && HasNodes(g, packages)
    && forall i :: 0 <= i < |packages| && IsLast(packages, i) ==>
         packages[i].name in g && g[packages[i].name] == NormalNames(packages[i].dependencies)
  }

  /** Each name has such a package, and only one. */
  lemma LastExists(packages: seq<Package>, n: string) returns (i: nat)
    requires exists k :: 0 <= k < |packages| && packages[k].name == n
    ensures i < |packages| && packages[i].name == n && IsLast(packages, i)
    ensures forall k :: 0 <= k < |packages| && packages[k].name == n && IsLast(packages, k) ==> k == i
  {
    i := |packages| - 1;
    while packages[i].name != n
      invariant i < |packages| && forall j :: i < j < |packages| ==> packages[j].name != n
      decreases i
    {
      i := i - 1;
    }
  }

  /** The edges, in terms of the metadata: the named dependencies without a kind. */
  lemma EdgesExactly(g: Graph, packages: seq<Package>, i: nat, n: string)
    requires IsGraphOf(g, packages) && i < |packages| && IsLast(packages, i)
    ensures n in Next(g, packages[i].name) <==>
            n != "" && exists d :: d in packages[i].dependencies && d.name == Some(n) && d.kind == None
  {
  }

  /** `dependency_graph`. */
  method DependencyGraph(packages: seq<Package>) returns (graph: Graph)
    ensures IsGraphOf(graph, packages)
  {
    graph := map[];
    for i := 0 to |packages|
      invariant IsGraphOf(graph, packages[..i])
    {
      var deps := CollectNormal(packages[i].dependencies);
      GraphStep(graph, packages, i);
      graph := graph[packages[i].name := deps];
    }
    assert packages[..|packages|] == packages;
  }

  lemma GraphGrows(g: Graph, before: seq<Package>, p: Package)
    requires IsGraphOf(g, before)
    ensures IsGraphOf(g[p.name := NormalNames(p.dependencies)], before + [p])
  {
    var all, g' := before + [p], g[p.name := NormalNames(p.dependencies)];
    NodesGrow(g, before, p);
    forall i | 0 <= i < |all| && IsLast(all, i)
      ensures all[i].name in g' && g'[all[i].name] == NormalNames(all[i].dependencies)
    {
      if i < |before| { LastBefore(before, p, i); }
    }
  }

  lemma GraphStep(g: Graph, packages: seq<Package>, i: nat)
    requires i < |packages| && IsGraphOf(g, packages[..i])
    ensures IsGraphOf(g[packages[i].name := NormalNames(packages[i].dependencies)], packages[..i + 1])
  {
    GraphGrows(g, packages[..i], packages[i]);
    assert packages[..i] + [packages[i]] == packages[..i + 1];
  }

  lemma NodesGrow(g: Graph, before: seq<Package>, p: Package)
    requires HasNodes(g, before)
    ensures HasNodes(g[p.name := NormalNames(p.dependencies)], before + [p])
  {
    var all, g' := before + [p], g[p.name := NormalNames(p.dependencies)];
    assert all[|before|] == p;
    forall n
      ensures n in g' <==> exists i :: 0 <= i < |all| && all[i].name == n
    {
      if n in g {
        var i :| 0 <= i < |before| && before[i].name == n;
        assert all[i].name == n;
      }
      if i :| 0 <= i < |all| && all[i].name == n {
        if i < |before| { assert before[i].name == n; }
      }
    }
  }

  lemma LastBefore(before: seq<Package>, p: Package, i: nat)
    requires i < |before| && IsLast(before + [p], i)
    ensures IsLast(before, i) && p.name != before[i].name && (before + [p])[i] == before[i]
  {
    var all := before + [p];
    assert all[|before|] == p && forall j :: 0 <= j < |before| ==> all[j] == before[j];
  }

  method CollectNormal(dependencies: seq<Dependency>) returns (deps: set<string>)
    ensures deps == NormalNames(dependencies)
  {
    deps := {};
    for i := 0 to |dependencies|
      invariant deps == NormalNames(dependencies[..i])
    {
      var d := dependencies[i];
      assert dependencies[..i + 1] == dependencies[..i] + [d];
      if d.kind.None? && d.name.Some? && d.name.value != [] {
        deps := deps + {d.name.value};
      }
    }
    assert dependencies[..|dependencies|] == dependencies;
  }

  /** Every name that occurs as a dependency. */
  ghost function Targets(g: Graph): set<string> {
    set n, d | n in g.Keys && d in g[n] :: d
  }

  /** What the search knows: everything on the stack or seen is reached, and everything reached
      is seen, is on the stack, or lies behind the stack. */
  ghost predicate Searching(g: Graph, package: string, seen: set<string>, stack: seq<string>) {
    && (forall n :: n in seen || n in stack ==> Reaches(g, package, n) && n in Targets(g))
    && Next(g, package) <= seen + Members(stack)
    && (forall n :: n in seen ==> Next(g, n) <= seen + Members(stack))
    && FORBIDDEN_TUI_PACKAGE !in seen
  }

  /** `reaches_tui`: a depth-first search that is right on every graph, cyclic or not. */
  method ReachesTui(package: string, graph: Graph) returns (found: bool)
    ensures found <==> Reaches(graph, package, "ghosty-tui")
  {
    var seen: set<string> := {};
    var stack := ListOf(Next(graph, package));
    SearchStarts(graph, package, stack);
    while stack != []
      invariant Searching(graph, package, seen, stack)
      decreases Targets(graph) - seen, |stack|
    {
      var name := stack[|stack| - 1];
      ghost var full := stack;
      stack := stack[..|stack| - 1];
      assert name in full;
      if name == FORBIDDEN_TUI_PACKAGE { return true; }
      if name in seen {
        SearchSkips(graph, package, seen, full);
        continue;
      }
      var more := ListOf(Next(graph, name));
      SearchVisits(graph, package, seen, full, more);
      seen := seen + {name};
      stack := stack + more;
    }
    if Reaches(graph, package, FORBIDDEN_TUI_PACKAGE) {
      NoMembers(stack);
      ClosedContains(graph, package, FORBIDDEN_TUI_PACKAGE, seen);
    }
    return false;
  }

  lemma SearchStarts(g: Graph, package: string, stack: seq<string>)
    requires Members(stack) == Next(g, package)
    ensures Searching(g, package, {}, stack)
  {
    forall n | n in stack
      ensures Reaches(g, package, n) && n in Targets(g)
    {
      assert n in Members(stack);
      ReachesEdge(g, package, n);
    }
  }

  lemma SearchSkips(g: Graph, package: string, seen: set<string>, full: seq<string>)
    requires full != [] && Searching(g, package, seen, full) && full[|full| - 1] in seen
    ensures Searching(g, package, seen, full[..|full| - 1])
  {
  }

  lemma SearchVisits(g: Graph, package: string, seen: set<string>, full: seq<string>, more: seq<string>)
    requires full != [] && Searching(g, package, seen, full)
    requires full[|full| - 1] != FORBIDDEN_TUI_PACKAGE && Members(more) == Next(g, full[|full| - 1])
    ensures Searching(g, package, seen + {full[|full| - 1]}, full[..|full| - 1] + more)
  {
    var name, stack := full[|full| - 1], full[..|full| - 1];
    assert full == stack + [name];
    assert Members(full) == Members(stack) + {name};
    assert Members(stack + more) == Members(stack) + Members(more);
    forall n | n in more
      ensures Reaches(g, package, n) && n in Targets(g)
    {
      assert n in Members(more);
      ReachesFurther(g, package, name, n);
    }
  }

  datatype Violation = MissingPackage | ReachesForbidden

  /** `check_dependency_graph`. */
  method CheckDependencyGraph(graph: Graph) returns (violations: seq<Violation>)
    ensures violations == [] <==>
            "ghosty-command-contract" in graph && !Reaches(graph, "ghosty-command-contract", "ghosty-tui")
    ensures "ghosty-command-contract" !in graph ==> violations == [MissingPackage]
    ensures "ghosty-command-contract" in graph && violations != [] ==> violations == [ReachesForbidden]
  {
    if CONTRACT_PACKAGE !in graph { return [MissingPackage]; }
    var found := ReachesTui(CONTRACT_PACKAGE, graph);
    if found { return [ReachesForbidden]; }
    return [];
  }
}
