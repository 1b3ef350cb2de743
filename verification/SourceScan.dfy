/**
 The source half of the command-migration gate: the frontier is compared with the
 handlers that still take the concrete `App`
 (scripts/check-command-migration-manifest.py, check_source_frontier and main).
 */
module SourceScan {
  import opened Text
  import opened Frontier

  /** One parsed Rust item; `concreteApp` is the outcome of parsing its parameters. */
  datatype Item = Item(path: string, concreteApp: bool)
  datatype FileView = Missing | Unparsable | Parsed(items: seq<Item>)

  // What the repository holds at a revision, by repo-relative path.
  type SourceTree = map<string, FileView>

  datatype Violation = Violation(category: string, location: string)

  // The violations of one selector against the items of its slice.
  type Resolver = (string, seq<Item>) -> seq<Violation>

  function View(src: SourceTree, path: string): FileView {
    if path in src then src[path] else Missing
  }

  // ---- Scanning one leaf ----

  function FileItems(src: SourceTree, path: string): seq<Item> {
    match View(src, path)
    case Parsed(items) => items
    case _ => []
  }

  function FileProblems(src: SourceTree, path: string): seq<Violation> {
    if View(src, path).Parsed? then [] else [Violation("source-scan", path)]
  }

  function ScanItems(scope: seq<string>, src: SourceTree): seq<Item> {
    FlatMap(path => FileItems(src, path), scope)
  }

  function ScanProblems(scope: seq<string>, src: SourceTree): seq<Violation> {
    FlatMap(path => FileProblems(src, path), scope)
  }

  method ScanLeafHandlers(scope: seq<string>, src: SourceTree) returns (items: seq<Item>, violations: seq<Violation>)
    ensures items == ScanItems(scope, src)
    ensures violations == ScanProblems(scope, src)
  {
    items, violations := [], [];
    for i := 0 to |scope|
      invariant items == ScanItems(scope[..i], src)
      invariant violations == ScanProblems(scope[..i], src)
    {
      FlatMapStep(path => FileItems(src, path), scope, i);
      FlatMapStep(path => FileProblems(src, path), scope, i);
      match View(src, scope[i]) {
        case Parsed(found) => items := items + found;
        case _ => violations := violations + [Violation("source-scan", scope[i])];
      }
    }
    assert scope[..|scope|] == scope;
  }

  /** Some file of the scope parses and holds a concrete-App handler. */
  ghost predicate HasHandler(scope: seq<string>, src: SourceTree) {
    exists path, item :: path in scope && item in FileItems(src, path) && item.concreteApp
  }

  ghost predicate AllParse(scope: seq<string>, src: SourceTree) {
    forall path :: path in scope ==> View(src, path).Parsed?
  }

  function Concrete(items: seq<Item>): seq<Item> {
    if items == [] then []
    else (if items[0].concreteApp then [items[0]] else []) + Concrete(items[1..])
  }

  lemma {:induction false} ConcreteEmpty(items: seq<Item>)
    ensures Concrete(items) == [] <==> forall item :: item in items ==> !item.concreteApp
  {
    if items == [] {
    } else {
      ConcreteEmpty(items[1..]);
      assert items == [items[0]] + items[1..];
    }
  }

  lemma HandlersFound(scope: seq<string>, src: SourceTree)
    ensures Concrete(ScanItems(scope, src)) != [] <==> HasHandler(scope, src)
  {
    ConcreteEmpty(ScanItems(scope, src));
    forall item
      ensures item in ScanItems(scope, src) <==> exists path :: path in scope && item in FileItems(src, path)
    {
      FlatMapMember(path => FileItems(src, path), scope, item);
    }
  }

  lemma ProblemsFound(scope: seq<string>, src: SourceTree)
    ensures ScanProblems(scope, src) == [] <==> AllParse(scope, src)
  {
    FlatMapEmpty(path => FileProblems(src, path), scope);
    assert forall path :: FileProblems(src, path) == [] <==> View(src, path).Parsed?;
  }

  // ---- The check, group by group ----

  function SelectorProblems(selectors: seq<string>, items: seq<Item>, resolve: Resolver): seq<Violation> {
    FlatMap(selector => resolve(selector, items), selectors)
  }

  function SliceProblems(slice: Slice, src: SourceTree, resolve: Resolver): seq<Violation> {
    var items := ScanItems(slice.scope, src);
    ScanProblems(slice.scope, src)
    + (if Concrete(items) == [] then [Violation("stale-entry", slice.name)] else [])
    + SelectorProblems(slice.selectors, items, resolve)
  }

  function SplitProblems(slices: seq<Slice>, src: SourceTree, resolve: Resolver): seq<Violation> {
    FlatMap(slice => SliceProblems(slice, src, resolve), slices)
  }

  /** The first five handlers one by one, then the number of the others. */
  function StaleRemovals(group: string, handlers: seq<Item>): seq<Violation> {
    var shown := if |handlers| < 5 then handlers else handlers[..5];
    seq(|shown|, i requires 0 <= i < |shown| => Violation("stale-removal", shown[i].path))
    + (if |handlers| > 5 then [Violation("stale-removal", group)] else [])
  }

  function GroupProblems(group: string, node: Node, pending: set<string>, src: SourceTree, resolve: Resolver)
    : seq<Violation>
  {
    var handlers := Concrete(ScanItems(node.scope, src));
    var names := SliceNames(node.slices);
    ScanProblems(node.scope, src) +
    if group in pending then
      if handlers == [] then [Violation("stale-entry", group)] else []
    else if handlers == [] then []
    else if node.slices != [] && names <= pending then SplitProblems(node.slices, src, resolve)
    else if node.slices != [] && names * pending != {} then [Violation("partial-split", group)]
    else StaleRemovals(group, handlers)
  }

  function DeclaredProblems(t: Topology, group: string, pending: set<string>, src: SourceTree, resolve: Resolver)
    : seq<Violation>
  {
    if group in t then GroupProblems(group, t[group], pending, src, resolve) else []
  }

  function AllProblems(t: Topology, order: seq<string>, pending: set<string>, src: SourceTree, resolve: Resolver)
    : seq<Violation>
  {
    FlatMap(group => DeclaredProblems(t, group, pending, src, resolve), order)
  }

  /** `check_source_frontier`, over the groups in the dictionary's own order. */
  method CheckSourceFrontier(t: Topology, order: seq<string>, frontier: seq<string>, src: SourceTree,
                             resolve: Resolver) returns (violations: seq<Violation>)
    requires Members(order) == t.Keys
    ensures violations == AllProblems(t, order, Members(frontier), src, resolve)
    ensures violations == [] <==> SourceAgrees(t, Members(frontier), src, resolve)
  {
    violations := [];
    var pending := Members(frontier);
    for i := 0 to |order|
      invariant violations == AllProblems(t, order[..i], pending, src, resolve)
    {
      assert order[i] in Members(order);
      FlatMapStep(group => DeclaredProblems(t, group, pending, src, resolve), order, i);
      var problems := CheckGroup(order[i], t[order[i]], pending, src, resolve);
      violations := violations + problems;
    }
    assert order[..|order|] == order;
    AllProblemsExactly(t, order, pending, src, resolve);
  }

  method CheckGroup(group: string, node: Node, pending: set<string>, src: SourceTree, resolve: Resolver)
    returns (violations: seq<Violation>)
    ensures violations == GroupProblems(group, node, pending, src, resolve)
  {
    var items;
    items, violations := ScanLeafHandlers(node.scope, src);
    var handlers := Concrete(items);
    if group in pending {
      if handlers == [] { violations := violations + [Violation("stale-entry", group)]; }
      return;
    }
    if handlers == [] { return; }
    if node.slices != [] {
      var names := SliceNames(node.slices);
      var slicesPending := names * pending;
      assert slicesPending == names <==> names <= pending;
      if slicesPending == names {
        var found := CheckSplit(node.slices, src, resolve);
        violations := violations + found;
        return;
      }
      if slicesPending != {} {
        violations := violations + [Violation("partial-split", group)];
        return;
      }
    }
    var shown := if |handlers| < 5 then handlers else handlers[..5];
    var removals := [];
    for i := 0 to |shown|
      invariant removals == seq(i, k requires 0 <= k < |shown| => Violation("stale-removal", shown[k].path))
    {
      removals := removals + [Violation("stale-removal", shown[i].path)];
    }
    if |handlers| > 5 { removals := removals + [Violation("stale-removal", group)]; }
    violations := violations + removals;
  }

  method CheckSlice(slice: Slice, src: SourceTree, resolve: Resolver) returns (violations: seq<Violation>)
    ensures violations == SliceProblems(slice, src, resolve)
  {
    var items;
    items, violations := ScanLeafHandlers(slice.scope, src);
    if Concrete(items) == [] { violations := violations + [Violation("stale-entry", slice.name)]; }
    var unresolved := [];
    for k := 0 to |slice.selectors|
      invariant unresolved == SelectorProblems(slice.selectors[..k], items, resolve)
    {
      FlatMapStep(selector => resolve(selector, items), slice.selectors, k);
      unresolved := unresolved + resolve(slice.selectors[k], items);
    }
    assert slice.selectors[..|slice.selectors|] == slice.selectors;
    violations := violations + unresolved;
  }

  method CheckSplit(slices: seq<Slice>, src: SourceTree, resolve: Resolver) returns (violations: seq<Violation>)
    ensures violations == SplitProblems(slices, src, resolve)
  {
    violations := [];
    for i := 0 to |slices|
      invariant violations == SplitProblems(slices[..i], src, resolve)
    {
      FlatMapStep(slice => SliceProblems(slice, src, resolve), slices, i);
      var found := CheckSlice(slices[i], src, resolve);
      violations := violations + found;
    }
    assert slices[..|slices|] == slices;
  }

  // ---- What an empty list of violations means ----

  ghost predicate SelectorsResolve(slice: Slice, src: SourceTree, resolve: Resolver) {
    forall s :: s in slice.selectors ==> resolve(s, ScanItems(slice.scope, src)) == []
  }

  ghost predicate SliceAgrees(slice: Slice, src: SourceTree, resolve: Resolver) {
    AllParse(slice.scope, src) && HasHandler(slice.scope, src) && SelectorsResolve(slice, src, resolve)
  }

  /** The files of the group parse; a pending group still has a handler; and a group that is
      not pending has no handler left, or is split into slices that are all pending, parse,
      have a handler each and resolve. */
  ghost predicate GroupAgrees(group: string, node: Node, pending: set<string>, src: SourceTree, resolve: Resolver) {
    && AllParse(node.scope, src)
    && (group in pending ==> HasHandler(node.scope, src))
    && (group !in pending && HasHandler(node.scope, src) ==>
          && node.slices != []
          && forall i :: 0 <= i < |node.slices| ==>
               node.slices[i].name in pending && SliceAgrees(node.slices[i], src, resolve))
  }

  ghost predicate SourceAgrees(t: Topology, pending: set<string>, src: SourceTree, resolve: Resolver) {
    forall g :: g in t ==> GroupAgrees(g, t[g], pending, src, resolve)
  }

  lemma SliceProblemsExactly(slice: Slice, src: SourceTree, resolve: Resolver)
    ensures SliceProblems(slice, src, resolve) == [] <==> SliceAgrees(slice, src, resolve)
  {
    ProblemsFound(slice.scope, src);
    HandlersFound(slice.scope, src);
    FlatMapEmpty(selector => resolve(selector, ScanItems(slice.scope, src)), slice.selectors);
  }

  lemma SplitProblemsExactly(slices: seq<Slice>, src: SourceTree, resolve: Resolver)
    ensures SplitProblems(slices, src, resolve) == [] <==>
            forall i :: 0 <= i < |slices| ==> SliceAgrees(slices[i], src, resolve)
  {
    FlatMapEmpty(slice => SliceProblems(slice, src, resolve), slices);
    forall slice
      ensures SliceProblems(slice, src, resolve) == [] <==> SliceAgrees(slice, src, resolve)
    {
      SliceProblemsExactly(slice, src, resolve);
    }
    assert forall i :: 0 <= i < |slices| ==> slices[i] in slices;
  }

  /** The check of one group is silent exactly when the group agrees with its source. */
  lemma GroupProblemsExactly(group: string, node: Node, pending: set<string>, src: SourceTree, resolve: Resolver)
    ensures GroupProblems(group, node, pending, src, resolve) == [] <==>
            GroupAgrees(group, node, pending, src, resolve)
  {
    ProblemsFound(node.scope, src);
    HandlersFound(node.scope, src);
    NamesPending(node.slices, pending);
    if group !in pending && HasHandler(node.scope, src) {
      SplitProblemsExactly(node.slices, src, resolve);
    }
  }

  lemma NamesPending(slices: seq<Slice>, pending: set<string>)
    ensures SliceNames(slices) <= pending <==> forall i :: 0 <= i < |slices| ==> slices[i].name in pending
  {
  }

  /** The whole check is silent exactly when every group agrees. */
  lemma AllProblemsExactly(t: Topology, order: seq<string>, pending: set<string>, src: SourceTree, resolve: Resolver)
    requires Members(order) == t.Keys
    ensures AllProblems(t, order, pending, src, resolve) == [] <==> SourceAgrees(t, pending, src, resolve)
  {
    FlatMapEmpty(group => DeclaredProblems(t, group, pending, src, resolve), order);
    forall g | g in t
      ensures DeclaredProblems(t, g, pending, src, resolve) == [] <==>
              GroupAgrees(g, t[g], pending, src, resolve)
    {
      GroupProblemsExactly(g, t[g], pending, src, resolve);
    }
    assert forall g :: g in order <==> g in t.Keys;
  }

  // ---- What the violations say ----

  /** A file of the scope that is missing or does not parse. */
  ghost predicate ScanReports(scope: seq<string>, src: SourceTree, v: Violation) {
    v.category == "source-scan" && v.location in scope && !View(src, v.location).Parsed?
  }

  lemma ScanProblemsAre(scope: seq<string>, src: SourceTree, v: Violation)
    ensures v in ScanProblems(scope, src) <==> ScanReports(scope, src, v)
  {
    FlatMapMember(path => FileProblems(src, path), scope, v);
    assert forall path :: v in FileProblems(src, path) <==>
                            !View(src, path).Parsed? && v == Violation("source-scan", path);
  }

  /** The handlers of a list, in order. */
  lemma {:induction false} ConcreteJoin(a: seq<Item>, b: seq<Item>)
    ensures Concrete(a + b) == Concrete(a) + Concrete(b)
  {
    if a == [] {
      assert a + b == b;
    } else {
      ConcreteJoin(a[1..], b);
      assert (a + b)[1..] == a[1..] + b && (a + b)[0] == a[0];
      Associates(if a[0].concreteApp then [a[0]] else [], Concrete(a[1..]), Concrete(b));
    }
  }

  lemma ConcreteOne(item: Item)
    ensures Concrete([item]) == if item.concreteApp then [item] else []
  {
    assert [item][1..] == [];
  }

  /** What the check of a pending slice may say: a file that does not parse, the slice itself when
      it has no handler, and what its selectors give. */
  ghost predicate SliceReports(slice: Slice, src: SourceTree, resolve: Resolver, v: Violation) {
    || ScanReports(slice.scope, src, v)
    || (v == Violation("stale-entry", slice.name) && !HasHandler(slice.scope, src))
    || exists s :: s in slice.selectors && v in resolve(s, ScanItems(slice.scope, src))
  }

  lemma SliceProblemsAre(slice: Slice, src: SourceTree, resolve: Resolver, v: Violation)
    ensures v in SliceProblems(slice, src, resolve) <==> SliceReports(slice, src, resolve, v)
  {
    var items := ScanItems(slice.scope, src);
    ScanProblemsAre(slice.scope, src, v);
    HandlersFound(slice.scope, src);
    FlatMapMember(selector => resolve(selector, items), slice.selectors, v);
  }

  /** The first five handlers are named one by one, and the group stands for any others. */
  predicate RemovalReports(group: string, handlers: seq<Item>, v: Violation) {
    v.category == "stale-removal" &&
    ((exists i :: 0 <= i < 5 && i < |handlers| && v.location == handlers[i].path)
     || (|handlers| > 5 && v.location == group))
  }

  lemma RemovalsAre(group: string, handlers: seq<Item>, v: Violation)
    ensures v in StaleRemovals(group, handlers) <==> RemovalReports(group, handlers, v)
  {
    var shown := if |handlers| < 5 then handlers else handlers[..5];
    var named := seq(|shown|, i requires 0 <= i < |shown| => Violation("stale-removal", shown[i].path));
    assert v in named <==> exists i :: 0 <= i < |shown| && v == Violation("stale-removal", shown[i].path) by {
      if v in named { var i :| 0 <= i < |named| && named[i] == v; }
      if i :| 0 <= i < |shown| && v == Violation("stale-removal", shown[i].path) { assert named[i] == v; }
    }
    assert forall i :: 0 <= i < |shown| ==> shown[i] == handlers[i];
  }

  /** What the check of a group may say beyond its files: a pending group without a handler is
      stale; a group that is not pending but has handlers must have all its slices pending, and
      then these are checked; some but not all of them pending is a partial split; and with none
      pending the handlers are left over. */
  ghost predicate StatusReports(
    group: string, node: Node, pending: set<string>, src: SourceTree, resolve: Resolver, v: Violation)
  {
    var some := exists i :: 0 <= i < |node.slices| && node.slices[i].name in pending;
    var all := forall i :: 0 <= i < |node.slices| ==> node.slices[i].name in pending;
    if group in pending then v == Violation("stale-entry", group) && !HasHandler(node.scope, src)
    else
      && HasHandler(node.scope, src)
      && if some && all then exists i :: 0 <= i < |node.slices| && SliceReports(node.slices[i], src, resolve, v)
         else if some then v == Violation("partial-split", group)
         else RemovalReports(group, Concrete(ScanItems(node.scope, src)), v)
  }

  lemma SplitProblemsAre(slices: seq<Slice>, src: SourceTree, resolve: Resolver, v: Violation)
    ensures v in SplitProblems(slices, src, resolve) <==>
            exists i :: 0 <= i < |slices| && SliceReports(slices[i], src, resolve, v)
  {
    FlatMapMember(slice => SliceProblems(slice, src, resolve), slices, v);
    forall slice ensures v in SliceProblems(slice, src, resolve) <==> SliceReports(slice, src, resolve, v) {
      SliceProblemsAre(slice, src, resolve, v);
    }
    assert forall i :: 0 <= i < |slices| ==> slices[i] in slices;
  }

  /** Exactly these violations are reported for a group. */
  lemma GroupProblemsAre(
    group: string, node: Node, pending: set<string>, src: SourceTree, resolve: Resolver, v: Violation)
    ensures v in GroupProblems(group, node, pending, src, resolve) <==>
            ScanReports(node.scope, src, v) || StatusReports(group, node, pending, src, resolve, v)
  {
    ScanProblemsAre(node.scope, src, v);
    HandlersFound(node.scope, src);
    NamesPending(node.slices, pending);
    SplitProblemsAre(node.slices, src, resolve, v);
    RemovalsAre(group, Concrete(ScanItems(node.scope, src)), v);
    SomePending(node.slices, pending);
  }

  lemma SomePending(slices: seq<Slice>, pending: set<string>)
    ensures SliceNames(slices) * pending != {} <==> exists i :: 0 <= i < |slices| && slices[i].name in pending
  {
    if i :| 0 <= i < |slices| && slices[i].name in pending {
      assert slices[i].name in SliceNames(slices) * pending;
    }
    if SliceNames(slices) * pending != {} {
      var n :| n in SliceNames(slices) * pending;
    }
  }

  /** The whole check reports exactly what it has to say of the declared groups. */
  lemma AllProblemsAre(
    t: Topology, order: seq<string>, pending: set<string>, src: SourceTree, resolve: Resolver, v: Violation)
    requires Members(order) == t.Keys
    ensures v in AllProblems(t, order, pending, src, resolve) <==>
            exists g :: g in t && (ScanReports(t[g].scope, src, v) || StatusReports(g, t[g], pending, src, resolve, v))
  {
    FlatMapMember(group => DeclaredProblems(t, group, pending, src, resolve), order, v);
    assert forall g :: g in order <==> g in t.Keys;
    forall g | g in t
      ensures v in DeclaredProblems(t, g, pending, src, resolve) <==>
              ScanReports(t[g].scope, src, v) || StatusReports(g, t[g], pending, src, resolve, v)
    {
      GroupProblemsAre(g, t[g], pending, src, resolve, v);
    }
  }

  // ---- Whole runs of the gate ----

  /** One revision as the gate sees it; `projection` is the TUI's own PENDING_GROUPS list. */
  datatype Revision = Revision(doc: Document, projection: seq<string>, src: SourceTree)

  ghost function DocumentsOf(revs: seq<Revision>): (docs: seq<Document>)
    ensures |docs| == |revs| && forall k :: 0 <= k < |revs| ==> docs[k] == revs[k].doc
  {
    seq(|revs|, k requires 0 <= k < |revs| => revs[k].doc)
  }

  /** `main` exits with 0 on every revision, each compared with the one before it. */
  ghost predicate GateRun(revs: seq<Revision>, resolve: Resolver) {
    && AcceptedRun(DocumentsOf(revs))
    && forall k :: 0 <= k < |revs| ==>
         && revs[k].projection == revs[k].doc.frontier
         && SourceAgrees(revs[k].doc.topology, Members(revs[k].doc.frontier), revs[k].src, resolve)
  }

  /** Once a group and all its slices have left the frontier, every later accepted revision
      has neither of them pending and no concrete-App handler in the group's files. */
  lemma MigrationIsFinal(revs: seq<Revision>, resolve: Resolver, i: nat, j: nat, g: string)
    requires GateRun(revs, resolve) && i <= j < |revs|
    requires g in revs[0].doc.topology && DisjointNames(revs[0].doc.topology)
    requires Migrated(revs[0].doc.topology, Members(revs[i].doc.frontier), g)
    ensures Migrated(revs[0].doc.topology, Members(revs[j].doc.frontier), g)
    ensures revs[j].doc.topology == revs[0].doc.topology
    ensures !HasHandler(revs[0].doc.topology[g].scope, revs[j].src)
  {
    var t, docs := revs[0].doc.topology, DocumentsOf(revs);
    RunIsChain(docs);
    RunTopology(docs, j);
    MigratedStays(t, Trace(docs), i, j, g);
    assert GroupAgrees(g, t[g], Members(revs[j].doc.frontier), revs[j].src, resolve);
    if t[g].slices != [] {
      assert t[g].slices[0].name in Children(t, g);
    }
  }

  // ---- A migration that is undone ----

  const BUSY := Parsed([Item("handler", true)])
  const IDLE := Parsed([])

  lemma PendingAgrees(g: string, node: Node, path: string, pending: set<string>, src: SourceTree, resolve: Resolver)
    requires g in pending && node.scope == [path] && View(src, path) == BUSY
    ensures GroupAgrees(g, node, pending, src, resolve)
  {
    BusyScope([path], src);
  }

  lemma MigratedAgrees(g: string, node: Node, path: string, pending: set<string>, src: SourceTree, resolve: Resolver)
    requires g !in pending && node.scope == [path] && View(src, path) == IDLE
    ensures GroupAgrees(g, node, pending, src, resolve) && !HasHandler(node.scope, src)
  {
  }

  lemma SplitAgrees(g: string, node: Node, path: string, slice: Slice, part: string,
                    pending: set<string>, src: SourceTree, resolve: Resolver)
    requires node.scope == [path] && node.slices == [slice] && slice.scope == [part] && slice.selectors == []
    requires g !in pending && slice.name in pending && View(src, path) == BUSY && View(src, part) == BUSY
    ensures GroupAgrees(g, node, pending, src, resolve)
  {
    BusyScope([path], src);
    BusyScope([part], src);
  }

  // A handler in every file, and one in every file but the second group's.
  const ALL_BUSY: SourceTree := map["a.rs" := BUSY, "b.rs" := BUSY, "c.rs" := BUSY]
  const ONE_IDLE: SourceTree := map["a.rs" := BUSY, "b.rs" := BUSY, "c.rs" := IDLE]

  /** The revisions of a chain of pending sets, each with its source tree. */
  ghost function Revisions(t: Topology, fs: seq<set<string>>, srcs: seq<SourceTree>): seq<Revision>
    requires |fs| == |srcs|
  {
    seq(|fs|, k requires 0 <= k < |fs| => Revision(DocumentAt(t, fs[k]), SortedNames(fs[k]), srcs[k]))
  }

  lemma ChainWithSources(t: Topology, fs: seq<set<string>>, srcs: seq<SourceTree>, resolve: Resolver)
    requires ValidTopology(t) && Chain(t, fs) && |fs| == |srcs|
    requires forall k :: 0 <= k < |fs| ==> SourceAgrees(t, fs[k], srcs[k], resolve)
    ensures GateRun(Revisions(t, fs, srcs), resolve)
    ensures forall k :: 0 <= k < |fs| ==>
              var r := Revisions(t, fs, srcs)[k]; Members(r.doc.frontier) == fs[k] && r.src == srcs[k]
  {
    var revs := Revisions(t, fs, srcs);
    ChainIsRun(t, fs);
    assert DocumentsOf(revs) == Documents(t, fs);
    forall k | 0 <= k < |revs|
      ensures revs[k].doc.topology == t && Members(revs[k].doc.frontier) == fs[k] && revs[k].src == srcs[k]
    {
      assert revs[k] == Revision(DocumentAt(t, fs[k]), SortedNames(fs[k]), srcs[k]);
    }
  }

  /** Both groups, then the first alone, then its slice, which is called like the second. */
  const CLASH_SETS: seq<set<string>> := [{"a", "a::b"}, {"a"}, {"a::b"}]
  const CLASH_SOURCES := [ALL_BUSY, ONE_IDLE, ALL_BUSY]

  lemma ClashSources(resolve: Resolver)
    ensures forall k :: 0 <= k < 3 ==> SourceAgrees(ClashingNames(), CLASH_SETS[k], CLASH_SOURCES[k], resolve)
    ensures !HasHandler(["c.rs"], ONE_IDLE) && HasHandler(["c.rs"], ALL_BUSY)
  {
    var a, b := ClashingNames()["a"], ClashingNames()["a::b"];
    PendingAgrees("a", a, "a.rs", {"a", "a::b"}, ALL_BUSY, resolve);
    PendingAgrees("a::b", b, "c.rs", {"a", "a::b"}, ALL_BUSY, resolve);
    PendingAgrees("a", a, "a.rs", {"a"}, ONE_IDLE, resolve);
    MigratedAgrees("a::b", b, "c.rs", {"a"}, ONE_IDLE, resolve);
    SplitAgrees("a", a, "a.rs", a.slices[0], "b.rs", {"a::b"}, ALL_BUSY, resolve);
    PendingAgrees("a::b", b, "c.rs", {"a::b"}, ALL_BUSY, resolve);
    BusyScope(["c.rs"], ALL_BUSY);
  }

  lemma ClashChain()
    ensures Chain(ClashingNames(), CLASH_SETS) && Migrated(ClashingNames(), {"a"}, "a::b")
  {
    var t := ClashingNames();
    assert t["a"].slices[0].name == "a::b" && Children(t, "a") == {"a::b"} && Children(t, "a::b") == {};
    ClashingNamesValid();
    var fs := DropThenSplit(t, "a");
  }

  /** Without disjoint names the whole gate, source check included, lets a migration be undone:
      "a::b" has been migrated in the second revision and has a handler again in the third. */
  lemma ClashUndoesMigration(resolve: Resolver)
    ensures var revs := Revisions(ClashingNames(), CLASH_SETS, CLASH_SOURCES);
            && GateRun(revs, resolve)
            && Migrated(ClashingNames(), Members(revs[1].doc.frontier), "a::b")
            && !HasHandler(["c.rs"], revs[1].src) && HasHandler(["c.rs"], revs[2].src)
    ensures ClashingNames()["a::b"].scope == ["c.rs"]
  {
    var fs, srcs := CLASH_SETS, CLASH_SOURCES;
    assert |fs| == |srcs| == 3 && fs[1] == {"a"} && srcs[1] == ONE_IDLE && srcs[2] == ALL_BUSY;
    ClashingNamesValid();
    ClashSources(resolve);
    ClashChain();
    ChainWithSources(ClashingNames(), fs, srcs, resolve);
  }

  // ---- Where the check is narrower than its description ----

  /** Every pending slice of the group has a handler in its own scope. */
  ghost predicate PendingSlicesLive(t: Topology, g: string, pending: set<string>, src: SourceTree) {
    g in t && forall i :: 0 <= i < |t[g].slices| && t[g].slices[i].name in pending ==>
                HasHandler(t[g].slices[i].scope, src)
  }

  /** A pending slice may be stale: the check stops as soon as the group's own scope has no
      handler, without looking at the slices. */
  lemma StaleSliceAccepted(resolve: Resolver)
    ensures var t: Topology := map["a" := Node(["a.rs"], [Slice("a::x", ["a.rs"], [])])];
            var src: SourceTree := map["a.rs" := Parsed([])];
            ValidDocument(Document(1, t, ["a::x"])) && Exclusive(t, {"a::x"})
            && SourceAgrees(t, {"a::x"}, src, resolve) && !PendingSlicesLive(t, "a", {"a::x"}, src)
  {
    var slice := Slice("a::x", ["a.rs"], []);
    var t: Topology := map["a" := Node(["a.rs"], [slice])];
    var src: SourceTree := map["a.rs" := Parsed([])];
    assert "a" + "::" <= "a::x";
    assert ValidNode("a", t["a"]);
    assert t["a"].slices[0] == slice && slice.name in Children(t, "a");
    assert slice.name in Leaves(t);
    DistinctLength(["a::x"]);
    assert !HasHandler(["a.rs"], src);
  }

  /** Slice scopes lie inside their group's scope. */
  predicate ScopesNested(node: Node) {
    forall i, p :: 0 <= i < |node.slices| && p in node.slices[i].scope ==> p in node.scope
  }

  /** An accepted revision keeps every pending slice live if the group has a handler or no slice
      is pending; only then, when slice scopes lie inside their group's scope. */
  lemma StaleSliceExactly(t: Topology, pending: set<string>, src: SourceTree, resolve: Resolver, g: string)
    requires g in t && Exclusive(t, pending) && SourceAgrees(t, pending, src, resolve)
    ensures HasHandler(t[g].scope, src) || Children(t, g) !! pending ==> PendingSlicesLive(t, g, pending, src)
    ensures ScopesNested(t[g]) ==>
              (PendingSlicesLive(t, g, pending, src) <==> HasHandler(t[g].scope, src) || Children(t, g) !! pending)
  {
  }

  /** Every file of the group with a handler belongs to one of its slices. */
  ghost predicate HandlersCovered(node: Node, src: SourceTree) {
    forall path, item :: path in node.scope && item in FileItems(src, path) && item.concreteApp ==>
                           InSomeSlice(node, path)
  }

  ghost predicate InSomeSlice(node: Node, path: string) {
    exists i :: 0 <= i < |node.slices| && path in node.slices[i].scope
  }

  /** The scope of a group lies in the scopes of its slices. */
  ghost predicate SlicesCover(node: Node) {
    forall path :: path in node.scope ==> exists s :: s in node.slices && path in s.scope
  }

  lemma CoverIs(node: Node)
    ensures SlicesCover(node) <==> forall path :: path in node.scope ==> InSomeSlice(node, path)
  {
  }

  /** The selectors of a group's slices find their handlers once every file has one; slices
      without selectors do so for any resolver. */
  ghost predicate SelectorsFind(t: Topology, g: string, resolve: Resolver) {
    g in t && forall i :: 0 <= i < |t[g].slices| ==> SelectorsResolve(t[g].slices[i], EverythingConcrete(t), resolve)
  }

  /** Slice scopes that together contain the group's scope keep its handlers inside its slices,
      whatever the source. Every source that the gate accepts for a split group does so only if
      they contain it: the check itself never compares the two. */
  lemma SplitCoverageExactly(t: Topology, g: string, resolve: Resolver)
    requires ValidTopology(t) && DisjointNames(t) && g in t && t[g].slices != []
    ensures SlicesCover(t[g]) ==> forall src :: HandlersCovered(t[g], src)
    ensures SelectorsFind(t, g, resolve) ==>
              ((forall src :: SourceAgrees(t, SplitOut(t, {g}), src, resolve) ==> HandlersCovered(t[g], src))
               <==> SlicesCover(t[g]))
    ensures (forall i :: 0 <= i < |t[g].slices| ==> t[g].slices[i].selectors == []) ==> SelectorsFind(t, g, resolve)
  {
    CoverIs(t[g]);
    if path :| SelectorsFind(t, g, resolve) && path in t[g].scope && !InSomeSlice(t[g], path) {
      var src := EverythingConcrete(t);
      BusySourceAgrees(t, g, src, resolve);
      var item := Item("handler", true);
      assert item in FileItems(src, path);
      assert !HandlersCovered(t[g], src);
    }
  }

  /** A source tree in which every file named in the topology has a handler. */
  ghost function EverythingConcrete(t: Topology): (src: SourceTree)
    ensures forall g, p :: g in t && p in t[g].scope ==> View(src, p) == Parsed([Item("handler", true)])
    ensures forall g, i, p :: g in t && 0 <= i < |t[g].slices| && p in t[g].slices[i].scope ==>
                                View(src, p) == Parsed([Item("handler", true)])
  {
    var paths := (set g, p | g in t.Keys && p in t[g].scope :: p)
               + (set g, i, p | g in t.Keys && 0 <= i < |t[g].slices| && p in t[g].slices[i].scope :: p);
    map p | p in paths :: Parsed([Item("handler", true)])
  }

  lemma BusyScope(scope: seq<string>, src: SourceTree)
    requires scope != [] && forall p :: p in scope ==> View(src, p) == Parsed([Item("handler", true)])
    ensures AllParse(scope, src) && HasHandler(scope, src)
  {
    assert scope[0] in scope && Item("handler", true) in FileItems(src, scope[0]);
  }

  lemma BusySourceAgrees(t: Topology, g: string, src: SourceTree, resolve: Resolver)
    requires ValidTopology(t) && DisjointNames(t) && g in t && t[g].slices != [] && src == EverythingConcrete(t)
    requires SelectorsFind(t, g, resolve)
    ensures SourceAgrees(t, SplitOut(t, {g}), src, resolve)
  {
    forall h | h in t
      ensures GroupAgrees(h, t[h], SplitOut(t, {g}), src, resolve)
    {
      assert ValidNode(h, t[h]);
      BusyScope(t[h].scope, src);
      forall i | 0 <= i < |t[h].slices|
        ensures AllParse(t[h].slices[i].scope, src) && HasHandler(t[h].slices[i].scope, src)
        ensures h == g ==> t[h].slices[i].name in SplitOut(t, {g})
      {
        assert ValidScope(t[h].slices[i].scope);
        BusyScope(t[h].slices[i].scope, src);
        assert t[h].slices[i].name in Children(t, h);
      }
      assert h != g ==> h in SplitOut(t, {g});
    }
  }
}
