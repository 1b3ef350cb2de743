/**
 The command-migration gate: documents, their validation, and the transitions that the
 gate accepts between two revisions of the pending frontier
 (scripts/check-command-migration-manifest.py).
 */
module Frontier {
  import opened Text

  const SUPPORTED_SCHEMA_VERSION := 1

  datatype Slice = Slice(name: string, scope: seq<string>, selectors: seq<string>)
  datatype Node = Node(scope: seq<string>, slices: seq<Slice>)

  // A Python dictionary: two dictionaries are equal regardless of insertion order.
  type Topology = map<string, Node>

  datatype Document = Document(schemaVersion: int, topology: Topology, frontier: seq<string>)

  // ---- Names ----

  function SliceNames(slices: seq<Slice>): set<string> {
    set i | 0 <= i < |slices| :: slices[i].name
  }

  /** The declared children of a group; a name that is no group has none. */
  function Children(t: Topology, g: string): set<string> {
    if g in t then SliceNames(t[g].slices) else {}
  }

  /** The keys of `all_leaves`: every group and every predeclared slice. */
  function Leaves(t: Topology): set<string> {
    t.Keys + (set g, s | g in t.Keys && s in Children(t, g) :: s)
  }

  // ---- Validation ----

  predicate ValidScope(scope: seq<string>) {
    scope != [] && forall p :: p in scope ==> p != []
  }

  ghost predicate ValidNode(root: string, node: Node) {
    && ValidScope(node.scope)
    && (forall i, j :: 0 <= i < j < |node.slices| ==> node.slices[i].name != node.slices[j].name)
    && (forall i :: 0 <= i < |node.slices| ==>
          root + "::" <= node.slices[i].name && ValidScope(node.slices[i].scope))
  }

  ghost predicate ValidTopology(t: Topology) {
    t != map[] && forall g :: g in t ==> ValidNode(g, t[g])
  }

  /** A group has as many children as it lists slices. */
  lemma ChildrenCount(t: Topology, g: string)
    requires ValidTopology(t) && g in t
    ensures |Children(t, g)| == |t[g].slices|
  {
    var slices := t[g].slices;
    var names := seq(|slices|, i requires 0 <= i < |slices| => slices[i].name);
    forall s | s in Children(t, g) ensures s in Members(names) {
      var i :| 0 <= i < |slices| && s == slices[i].name;
      assert names[i] == s;
    }
    assert Members(names) == Children(t, g);
    DistinctLength(names);
  }

  /** `frontier == sorted(frontier)`. */
  predicate NonDecreasing(xs: seq<string>) {
    forall i :: 0 <= i < |xs| - 1 ==> Leq(xs[i], xs[i + 1])
  }

  /** `validate_frontier` finds nothing: sorted, unique, and known leaves only. */
  predicate ValidFrontier(t: Topology, frontier: seq<string>) {
    NonDecreasing(frontier) && |frontier| == |Members(frontier)| && Members(frontier) <= Leaves(t)
  }

  ghost predicate ValidDocument(doc: Document) {
    && doc.schemaVersion == SUPPORTED_SCHEMA_VERSION
    && ValidTopology(doc.topology)
    && ValidFrontier(doc.topology, doc.frontier)
  }

  // ---- Transitions ----

  /** `is_documented_split`. */
  predicate IsDocumentedSplit(t: Topology, old_: set<string>, new_: set<string>) {
    var removed := old_ - new_;
    var added := new_ - old_;
    |removed| == 1 &&
    exists parent :: parent in removed && parent in t && Children(t, parent) != {} && Children(t, parent) == added
  }

  /** `is_valid_frontier_transition` returns no violation. */
  predicate IsValidTransition(t: Topology, old_: seq<string>, new_: seq<string>) {
    Members(new_) - Members(old_) == {} || IsDocumentedSplit(t, Members(old_), Members(new_))
  }

  /** `validate_baseline_transition` returns no violation. */
  ghost predicate AcceptsTransition(current: Document, previous: Option<Document>) {
    ValidDocument(current) &&
    match previous
    case None => current.frontier == SortedNames(current.topology.Keys)
    case Some(p) =>
      && ValidDocument(p)
      && p.topology == current.topology
      && IsValidTransition(p.topology, p.frontier, current.frontier)
  }

  /** Python's `sorted` of a set of names. */
  ghost function SortedNames(s: set<string>): (r: seq<string>)
    ensures Ascending(r) && Members(r) == s
  {
    SortedNamesExist(s);
    var r :| Ascending(r) && Members(r) == s;
    r
  }

  lemma SortedNamesExist(s: set<string>)
    ensures exists r :: Ascending(r) && Members(r) == s
  {
    var xs := ListingExists(s);
    assert Ascending(SortedSet(xs)) && Members(SortedSet(xs)) == s;
  }

  lemma ValidFrontierAscending(t: Topology, frontier: seq<string>)
    ensures ValidFrontier(t, frontier) <==> Ascending(frontier) && Members(frontier) <= Leaves(t)
  {
    DistinctLength(frontier);
    if Ascending(frontier) {
      AscendingDistinct(frontier);
    }
  }

  // ---- What a step does, said without reference to the checks ----

  /** Leaves only disappear. */
  predicate Shrinks(f: set<string>, f': set<string>) {
    f' <= f
  }

  /** One pending group is replaced by all of its slices, none of which was pending. */
  predicate Splits(t: Topology, f: set<string>, f': set<string>, g: string) {
    && g in f && g in t && Children(t, g) != {} && Children(t, g) !! f
    && f' == f - {g} + Children(t, g)
  }

  ghost predicate Step(t: Topology, f: set<string>, f': set<string>) {
    Shrinks(f, f') || exists g :: Splits(t, f, f', g)
  }

  lemma ChildProperties(t: Topology, g: string, s: string)
    requires ValidTopology(t) && s in Children(t, g)
    ensures g in t && g + "::" <= s && s != g && s in Leaves(t)
  {
  }

  /** The two accepted shapes of a transition are exactly the two kinds of step. */
  lemma TransitionIsStep(t: Topology, old_: seq<string>, new_: seq<string>)
    requires ValidTopology(t)
    ensures IsValidTransition(t, old_, new_) <==> Step(t, Members(old_), Members(new_))
  {
    SplitCheck(t, Members(old_), Members(new_));
    NothingAdded(Members(old_), Members(new_));
  }

  lemma NothingAdded<T>(a: set<T>, b: set<T>)
    ensures b - a == {} <==> b <= a
  {
    assert forall x :: x in b && x !in a ==> x in b - a;
  }

  lemma SplitCheck(t: Topology, f: set<string>, f': set<string>)
    requires ValidTopology(t)
    ensures IsDocumentedSplit(t, f, f') <==> exists g :: Splits(t, f, f', g)
  {
    if IsDocumentedSplit(t, f, f') {
      var g :| g in f - f' && g in t && Children(t, g) != {} && Children(t, g) == f' - f;
      SingletonIs(f - f', g);
      assert Splits(t, f, f', g);
    }
    if g :| Splits(t, f, f', g) {
      SplitIsDocumented(t, f, f', g);
    }
  }

  lemma SplitIsDocumented(t: Topology, f: set<string>, f': set<string>, g: string)
    requires ValidTopology(t) && Splits(t, f, f', g)
    ensures IsDocumentedSplit(t, f, f')
  {
    NotOwnChild(t, g);
    assert f - f' == {g};
    assert f' - f == Children(t, g);
  }

  lemma NotOwnChild(t: Topology, g: string)
    requires ValidTopology(t)
    ensures g !in Children(t, g)
  {
  }

  lemma SingletonIs<T>(s: set<T>, x: T)
    requires |s| == 1 && x in s
    ensures s == {x}
  {
    assert |s - {x}| == 0;
  }

  // ---- Runs of the gate, and the chains of pending sets behind them ----

  /** Revisions accepted one after the other, the first without a baseline. */
  ghost predicate AcceptedRun(docs: seq<Document>) {
    && docs != []
    && AcceptsTransition(docs[0], None)
    && forall k :: 0 <= k < |docs| - 1 ==> AcceptsTransition(docs[k + 1], Some(docs[k]))
  }

  /** Pending sets, from all roots, each one step after the last. */
  ghost predicate Chain(t: Topology, fs: seq<set<string>>) {
    && fs != [] && fs[0] == t.Keys
    && forall k :: 0 <= k < |fs| - 1 ==> Step(t, fs[k], fs[k + 1])
  }

  /** The pending sets of a run. */
  ghost function Trace(docs: seq<Document>): (fs: seq<set<string>>)
    ensures |fs| == |docs| && forall k :: 0 <= k < |docs| ==> fs[k] == Members(docs[k].frontier)
  {
    seq(|docs|, k requires 0 <= k < |docs| => Members(docs[k].frontier))
  }

  ghost function DocumentAt(t: Topology, f: set<string>): Document {
    Document(SUPPORTED_SCHEMA_VERSION, t, SortedNames(f))
  }

  /** The documents that record a chain. */
  ghost function Documents(t: Topology, fs: seq<set<string>>): seq<Document> {
    seq(|fs|, k requires 0 <= k < |fs| => DocumentAt(t, fs[k]))
  }

  lemma {:induction false} RunTopology(docs: seq<Document>, k: nat)
    requires AcceptedRun(docs) && k < |docs|
    ensures docs[k].topology == docs[0].topology && ValidDocument(docs[k])
  {
    if k == 0 {
    } else {
      RunTopology(docs, k - 1);
      assert AcceptsTransition(docs[k - 1 + 1], Some(docs[k - 1]));
    }
  }

  lemma RunIsChain(docs: seq<Document>)
    requires AcceptedRun(docs)
    ensures ValidTopology(docs[0].topology) && Chain(docs[0].topology, Trace(docs))
  {
    forall k | 0 <= k < |docs| - 1
      ensures Step(docs[0].topology, Trace(docs)[k], Trace(docs)[k + 1])
    {
      RunTopology(docs, k);
      assert AcceptsTransition(docs[k + 1], Some(docs[k]));
      TransitionIsStep(docs[k].topology, docs[k].frontier, docs[k + 1].frontier);
    }
  }

  lemma ChainIsRun(t: Topology, fs: seq<set<string>>)
    requires ValidTopology(t) && Chain(t, fs)
    ensures AcceptedRun(Documents(t, fs)) && Trace(Documents(t, fs)) == fs
  {
    var docs := Documents(t, fs);
    forall k | 0 <= k < |fs|
      ensures ValidDocument(docs[k])
    {
      ChainInLeaves(t, fs, k);
      ValidFrontierAscending(t, docs[k].frontier);
    }
    forall k | 0 <= k < |docs| - 1
      ensures AcceptsTransition(docs[k + 1], Some(docs[k]))
    {
      assert Step(t, fs[k], fs[k + 1]);
      TransitionIsStep(t, docs[k].frontier, docs[k + 1].frontier);
    }
  }

  lemma RunOfChain(t: Topology, fs: seq<set<string>>) returns (docs: seq<Document>)
    requires ValidTopology(t) && Chain(t, fs)
    ensures AcceptedRun(docs) && Trace(docs) == fs && docs[0].topology == t && |docs| == |fs|
  {
    ChainIsRun(t, fs);
    docs := Documents(t, fs);
  }

  lemma {:induction false} ChainInLeaves(t: Topology, fs: seq<set<string>>, k: nat)
    requires Chain(t, fs) && k < |fs|
    ensures fs[k] <= Leaves(t)
  {
    if k == 0 {
    } else {
      ChainInLeaves(t, fs, k - 1);
      assert Step(t, fs[k - 1], fs[k - 1 + 1]);
    }
  }

  lemma ExtendChain(t: Topology, fs: seq<set<string>>, f: set<string>)
    requires Chain(t, fs) && Step(t, fs[|fs| - 1], f)
    ensures Chain(t, fs + [f])
  {
  }

  // ---- Exact reachability ----

  /** No group is pending together with one of its own slices. */
  ghost predicate Exclusive(t: Topology, f: set<string>) {
    forall g, s :: g in f && s in Children(t, g) ==> s !in f
  }

  /** Every declared name is declared once: no group carries a slice's name, and no slice
      belongs to two groups. */
  ghost predicate DisjointNames(t: Topology) {
    && (forall g, s :: s in Children(t, g) ==> s !in t)
    && (forall g, h, s :: s in Children(t, g) && s in Children(t, h) ==> g == h)
  }

  /** Some accepted run ends in this frontier. */
  ghost predicate Reachable(t: Topology, frontier: seq<string>) {
    exists docs :: ReachedBy(t, frontier, docs)
  }

  ghost predicate ReachedBy(t: Topology, frontier: seq<string>, docs: seq<Document>) {
    AcceptedRun(docs) && docs[|docs| - 1] == Document(SUPPORTED_SCHEMA_VERSION, t, frontier)
  }

  /** A sorted list of declared leaves, no group with its own slice. */
  ghost predicate Admissible(t: Topology, frontier: seq<string>) {
    Ascending(frontier) && Members(frontier) <= Leaves(t) && Exclusive(t, Members(frontier))
  }

  lemma StepKeepsExclusive(t: Topology, f: set<string>, f': set<string>)
    requires ValidTopology(t) && DisjointNames(t) && Exclusive(t, f) && Step(t, f, f')
    ensures Exclusive(t, f')
  {
  }

  lemma {:induction false} ChainExclusive(t: Topology, fs: seq<set<string>>, k: nat)
    requires ValidTopology(t) && DisjointNames(t) && Chain(t, fs) && k < |fs|
    ensures Exclusive(t, fs[k])
  {
    if k == 0 {
    } else {
      ChainExclusive(t, fs, k - 1);
      assert Step(t, fs[k - 1], fs[k - 1 + 1]);
      StepKeepsExclusive(t, fs[k - 1], fs[k]);
    }
  }

  lemma ReachableIsAdmissible(t: Topology, frontier: seq<string>)
    requires DisjointNames(t) && Reachable(t, frontier)
    ensures Admissible(t, frontier)
  {
    var docs :| ReachedBy(t, frontier, docs);
    RunTopology(docs, |docs| - 1);
    RunIsChain(docs);
    ChainExclusive(t, Trace(docs), |docs| - 1);
    ValidFrontierAscending(t, frontier);
  }

  lemma ChainReaches(t: Topology, fs: seq<set<string>>, frontier: seq<string>)
    requires ValidTopology(t) && Chain(t, fs) && Ascending(frontier) && Members(frontier) == fs[|fs| - 1]
    ensures Reachable(t, frontier)
  {
    ChainIsRun(t, fs);
    AscendingUnique(SortedNames(fs[|fs| - 1]), frontier);
    assert ReachedBy(t, frontier, Documents(t, fs));
  }

  /** The roots, with the groups in `gs` replaced by their slices. */
  ghost function SplitOut(t: Topology, gs: set<string>): set<string> {
    t.Keys - gs + (set g, s | g in gs && s in Children(t, g) :: s)
  }

  /** Splitting one more group is a step. */
  lemma SplitOneMore(t: Topology, gs: set<string>, g: string)
    requires DisjointNames(t) && g in t && g !in gs && Children(t, g) != {}
    ensures Splits(t, SplitOut(t, gs), SplitOut(t, gs + {g}), g)
  {
  }

  lemma SplitOutStep(t: Topology, gs: set<string>, g: string)
    requires DisjointNames(t) && g in t && g in gs && Children(t, g) != {}
    ensures Step(t, SplitOut(t, gs - {g}), SplitOut(t, gs))
  {
    SplitOneMore(t, gs - {g}, g);
    assert gs - {g} + {g} == gs;
  }

  lemma {:induction false} SplitOutChain(t: Topology, gs: set<string>) returns (fs: seq<set<string>>)
    requires DisjointNames(t)
    requires gs <= t.Keys && forall g :: g in gs ==> Children(t, g) != {}
    ensures Chain(t, fs) && fs[|fs| - 1] == SplitOut(t, gs)
    decreases |gs|
  {
    if gs == {} {
      assert SplitOut(t, gs) == t.Keys;
      fs := [t.Keys];
    } else {
      var g :| g in gs;
      fs := SplitOutChain(t, gs - {g});
      SplitOutStep(t, gs, g);
      ExtendChain(t, fs, SplitOut(t, gs));
      fs := fs + [SplitOut(t, gs)];
    }
  }

  lemma AdmissibleIsReachable(t: Topology, frontier: seq<string>)
    requires ValidTopology(t) && DisjointNames(t) && Admissible(t, frontier)
    ensures Reachable(t, frontier)
  {
    var f := Members(frontier);
    var gs := set g | g in t.Keys && Children(t, g) * f != {};
    var fs := SplitOutChain(t, gs);
    forall x | x in f
      ensures x in SplitOut(t, gs)
    {
      if x in t {
        assert forall s :: s in Children(t, x) ==> s !in f;
        assert Children(t, x) * f == {};
      } else {
        var g :| g in t.Keys && x in Children(t, g);
        assert x in Children(t, g) * f;
      }
    }
    ExtendChain(t, fs, f);
    ChainReaches(t, fs + [f], frontier);
  }

  /** With a clash of names, the gate accepts a run into a frontier that lists a group
      beside one of its own slices. */
  lemma ClashReachesBadFrontier(t: Topology) returns (frontier: seq<string>)
    requires ValidTopology(t) && !DisjointNames(t)
    ensures Reachable(t, frontier) && !Admissible(t, frontier)
  {
    if g, s :| s in Children(t, g) && s in t {
      frontier := SortedNames(t.Keys);
      assert g in Members(frontier) && s in Members(frontier);
      ChainReaches(t, [t.Keys], frontier);
    } else {
      var g, h, s :| s in Children(t, g) && s in Children(t, h) && g != h;
      var f := t.Keys - {g} + Children(t, g);
      assert Splits(t, t.Keys, f, g);
      frontier := SortedNames(f);
      assert h in Members(frontier) && s in Members(frontier);
      ChainReaches(t, [t.Keys, f], frontier);
    }
  }

  /** Starting from all roots, the accepted runs reach exactly the admissible frontiers
      if and only if the declared names are disjoint. */
  lemma ReachabilityExact(t: Topology)
    requires ValidTopology(t)
    ensures (forall frontier :: Reachable(t, frontier) <==> Admissible(t, frontier)) <==> DisjointNames(t)
  {
    if DisjointNames(t) {
      forall frontier
        ensures Reachable(t, frontier) <==> Admissible(t, frontier)
      {
        if Reachable(t, frontier) { ReachableIsAdmissible(t, frontier); }
        if Admissible(t, frontier) { AdmissibleIsReachable(t, frontier); }
      }
    } else {
      var frontier := ClashReachesBadFrontier(t);
    }
  }

  /** Group names without a colon make the declared names disjoint, because every slice
      name starts with its group's name and "::". */
  lemma ColonFreeRootsAreDisjoint(t: Topology)
    requires ValidTopology(t) && forall g :: g in t ==> ':' !in g
    ensures DisjointNames(t)
  {
    forall g, s | s in Children(t, g)
      ensures s !in t
    {
      ChildProperties(t, g, s);
      assert s[|g|] == (g + "::")[|g|] == ':';
    }
    forall g, h, s | s in Children(t, g) && s in Children(t, h)
      ensures g == h
    {
      ChildProperties(t, g, s);
      ChildProperties(t, h, s);
      ColonMarksRoot(g, h, s);
      ColonMarksRoot(h, g, s);
    }
  }

  /** A name before the first colon cannot be longer than another one. */
  lemma ColonMarksRoot(g: string, h: string, s: string)
    requires g + "::" <= s && h + "::" <= s && ':' !in h
    ensures h <= g
  {
    assert s[|g|] == (g + "::")[|g|];
    assert forall i :: 0 <= i < |h| ==> s[i] == (h + "::")[i] == h[i];
    assert forall i :: 0 <= i < |g| ==> s[i] == (g + "::")[i] == g[i];
    assert |h| <= |g|;
  }

  // ---- One-way runs ----

  /** Everything that is pending or could still become pending by splitting. */
  ghost function Outstanding(t: Topology, f: set<string>): set<string> {
    f + (set g, s | g in f && s in Children(t, g) :: s)
  }

  /** Nothing outside the outstanding names ever becomes outstanding again. */
  lemma StepKeepsSpent(t: Topology, f: set<string>, f': set<string>)
    requires ValidTopology(t) && DisjointNames(t) && Step(t, f, f')
    ensures Outstanding(t, f') <= Outstanding(t, f)
  {
  }

  /** A step that changes the frontier loses at least one outstanding name. */
  lemma StepSpends(t: Topology, f: set<string>, f': set<string>)
    requires ValidTopology(t) && DisjointNames(t) && Exclusive(t, f) && Step(t, f, f') && f' != f
    ensures Outstanding(t, f') < Outstanding(t, f)
  {
  }

  lemma {:induction false} OutstandingNeverGrows(t: Topology, fs: seq<set<string>>, i: nat, j: nat)
    requires ValidTopology(t) && DisjointNames(t) && Chain(t, fs) && i <= j < |fs|
    ensures Outstanding(t, fs[j]) <= Outstanding(t, fs[i])
    decreases j - i
  {
    if i == j {
    } else {
      OutstandingNeverGrows(t, fs, i, j - 1);
      assert Step(t, fs[j - 1], fs[j - 1 + 1]);
      StepKeepsSpent(t, fs[j - 1], fs[j]);
    }
  }

  /** No name enters the frontier twice: over a whole run, a name that was pending and has
      left never returns. */
  lemma NoNameReturns(docs: seq<Document>, i: nat, j: nat, k: nat, x: string)
    requires AcceptedRun(docs) && DisjointNames(docs[0].topology) && i <= j <= k < |docs|
    requires x in docs[i].frontier && x !in docs[j].frontier
    ensures x !in docs[k].frontier
  {
    var t, fs := docs[0].topology, Trace(docs);
    RunIsChain(docs);
    ChainExclusive(t, fs, i);
    OutstandingNeverGrows(t, fs, i, j);
    OutstandingNeverGrows(t, fs, j, k);
    LeftIsSpent(t, fs[i], fs[j], x);
  }

  lemma LeftIsSpent(t: Topology, f: set<string>, f': set<string>, x: string)
    requires DisjointNames(t) && Exclusive(t, f) && Outstanding(t, f') <= Outstanding(t, f)
    requires x in f && x !in f'
    ensures x !in Outstanding(t, f')
  {
  }

  /** Every revision changes the frontier. */
  ghost predicate Strict(fs: seq<set<string>>) {
    forall k :: 0 <= k < |fs| - 1 ==> fs[k] != fs[k + 1]
  }

  lemma AllOutstanding(t: Topology)
    ensures Outstanding(t, t.Keys) == Leaves(t)
  {
  }

  lemma {:induction false} Descends(fs: seq<set<string>>, size: set<string> -> nat, k: nat)
    requires k < |fs| && forall i :: 0 <= i < |fs| - 1 ==> size(fs[i + 1]) < size(fs[i])
    ensures size(fs[k]) + k <= size(fs[0])
  {
    if k == 0 {
    } else {
      Descends(fs, size, k - 1);
      assert size(fs[k - 1 + 1]) < size(fs[k - 1]);
    }
  }

  ghost function Size(t: Topology): set<string> -> nat {
    f => |Outstanding(t, f)|
  }

  lemma StrictChainSpends(t: Topology, fs: seq<set<string>>)
    requires ValidTopology(t) && DisjointNames(t) && Chain(t, fs) && Strict(fs)
    ensures |fs| - 1 <= |Outstanding(t, fs[0])|
  {
    var size := Size(t);
    forall i | 0 <= i < |fs| - 1 ensures size(fs[i + 1]) < size(fs[i]) { StrictStepSpends(t, fs, i); }
    Descends(fs, size, |fs| - 1);
  }

  lemma StrictStepSpends(t: Topology, fs: seq<set<string>>, k: nat)
    requires ValidTopology(t) && DisjointNames(t) && Chain(t, fs) && Strict(fs) && k + 1 < |fs|
    ensures |Outstanding(t, fs[k + 1])| < |Outstanding(t, fs[k])|
  {
    ChainExclusive(t, fs, k);
    FewerOutstanding(t, fs[k], fs[k + 1]);
  }

  lemma FewerOutstanding(t: Topology, f: set<string>, f': set<string>)
    requires ValidTopology(t) && DisjointNames(t) && Exclusive(t, f) && Step(t, f, f') && f' != f
    ensures |Outstanding(t, f')| < |Outstanding(t, f)|
  {
    StepSpends(t, f, f');
    SubsetSize(Outstanding(t, f'), Outstanding(t, f));
  }

  /** A run of changing revisions makes at most as many changes as there are declared names. */
  lemma StrictRunBounded(docs: seq<Document>)
    requires AcceptedRun(docs) && Strict(Trace(docs)) && DisjointNames(docs[0].topology)
    ensures |docs| - 1 <= |Leaves(docs[0].topology)|
  {
    RunIsChain(docs);
    StrictChainSpends(docs[0].topology, Trace(docs));
    AllOutstanding(docs[0].topology);
  }

  /** The bound is met: splitting every group and removing leaves one at a time takes one
      revision for each declared name. */
  lemma StrictRunOfFullLength(t: Topology) returns (docs: seq<Document>)
    requires ValidTopology(t) && DisjointNames(t)
    ensures AcceptedRun(docs) && Strict(Trace(docs)) && docs[0].topology == t
    ensures |docs| - 1 == |Leaves(t)|
  {
    AllOutstanding(t);
    var fs := DrainFully(t, [t.Keys]);
    docs := RunOfChain(t, fs);
  }

  /** A strict chain goes on until nothing is outstanding, spending one name each time. */
  lemma {:induction false} DrainFully(t: Topology, fs: seq<set<string>>) returns (all: seq<set<string>>)
    requires ValidTopology(t) && DisjointNames(t) && Chain(t, fs) && Strict(fs)
    ensures Chain(t, all) && Strict(all) && |all| == |fs| + |Outstanding(t, fs[|fs| - 1])|
    decreases |Outstanding(t, fs[|fs| - 1])|
  {
    var f := fs[|fs| - 1];
    if f == {} {
      all := fs;
      assert Outstanding(t, f) == {};
    } else {
      ChainExclusive(t, fs, |fs| - 1);
      var f', spent := SmallestStep(t, f);
      ExtendChain(t, fs, f');
      assert Strict(fs + [f']);
      all := DrainFully(t, fs + [f']);
    }
  }

  /** From a non-empty frontier some step spends exactly one outstanding name. */
  lemma SmallestStep(t: Topology, f: set<string>) returns (f': set<string>, spent: string)
    requires ValidTopology(t) && DisjointNames(t) && Exclusive(t, f) && f != {}
    ensures Step(t, f, f') && f' != f
    ensures spent in Outstanding(t, f) && Outstanding(t, f') == Outstanding(t, f) - {spent}
  {
    if g :| g in f && Children(t, g) != {} {
      f', spent := f - {g} + Children(t, g), g;
      assert Splits(t, f, f', g);
      SplitSpends(t, f, f', g);
    } else {
      spent :| spent in f;
      f' := f - {spent};
      assert Outstanding(t, f) == f && Outstanding(t, f') == f';
    }
  }

  lemma SplitSpends(t: Topology, f: set<string>, f': set<string>, g: string)
    requires ValidTopology(t) && DisjointNames(t) && Splits(t, f, f', g)
    ensures f' != f && Outstanding(t, f') == Outstanding(t, f) - {g}
  {
  }

  // ---- Migration cannot be undone ----

  /** A group has been migrated when neither it nor any of its slices is pending. */
  ghost predicate Migrated(t: Topology, f: set<string>, g: string) {
    g !in f && Children(t, g) !! f
  }

  /** In every accepted run of this topology a migrated group stays migrated. */
  ghost predicate Irreversible(t: Topology) {
    forall docs, i, j, g :: !Regresses(t, docs, i, j, g)
  }

  /** Group `g` is migrated at revision `i` and no longer so at a later revision `j`. */
  ghost predicate Regresses(t: Topology, docs: seq<Document>, i: int, j: int, g: string) {
    && AcceptedRun(docs) && docs[0].topology == t && 0 <= i <= j < |docs| && g in t
    && Migrated(t, Trace(docs)[i], g) && !Migrated(t, Trace(docs)[j], g)
  }

  lemma MigratedStays(t: Topology, fs: seq<set<string>>, i: nat, j: nat, g: string)
    requires ValidTopology(t) && DisjointNames(t) && Chain(t, fs) && i <= j < |fs|
    requires g in t && Migrated(t, fs[i], g)
    ensures Migrated(t, fs[j], g)
  {
    OutstandingNeverGrows(t, fs, i, j);
    assert forall s :: s in Children(t, g) ==> s !in Outstanding(t, fs[i]);
    assert g !in Outstanding(t, fs[i]);
  }

  /** A clash gives a group `g` and another group `h`, neither a slice of the other's
      kind, such that splitting `h` makes `g` or one of its slices pending. */
  lemma ClashWitness(t: Topology) returns (g: string, h: string)
    requires ValidTopology(t) && !DisjointNames(t)
    ensures g in t && h in t && Children(t, h) != {}
    ensures Migrated(t, {h}, g) && !Migrated(t, Children(t, h), g)
  {
    if h', s :| s in Children(t, h') && s in t {
      g, h := s, h';
      ChildProperties(t, h, g);
      if h in Children(t, g) { ChildProperties(t, g, h); }
    } else {
      var g', h', s :| s in Children(t, g') && s in Children(t, h') && g' != h';
      g, h := g', h';
    }
  }

  /** With a clash, dropping everything but one group and then splitting that group brings
      a migrated group back. */
  lemma ClashRegresses(t: Topology) returns (docs: seq<Document>, g: string)
    requires ValidTopology(t) && !DisjointNames(t)
    ensures Regresses(t, docs, 1, 2, g)
  {
    var h;
    g, h := ClashWitness(t);
    var fs := DropThenSplit(t, h);
    docs := RunOfChain(t, fs);
  }

  lemma DropThenSplit(t: Topology, h: string) returns (fs: seq<set<string>>)
    requires ValidTopology(t) && h in t && Children(t, h) != {}
    ensures Chain(t, fs) && fs == [t.Keys, {h}, Children(t, h)]
  {
    fs := [t.Keys, {h}, Children(t, h)];
    NotOwnChild(t, h);
    assert Splits(t, {h}, Children(t, h), h);
  }

  /** Migration is irreversible over every accepted run if and only if the declared names
      are disjoint. */
  lemma IrreversibleExactly(t: Topology)
    requires ValidTopology(t)
    ensures Irreversible(t) <==> DisjointNames(t)
  {
    if DisjointNames(t) {
      forall docs, i, j, g
        ensures !Regresses(t, docs, i, j, g)
      {
        if Regresses(t, docs, i, j, g) {
          RunIsChain(docs);
          MigratedStays(t, Trace(docs), i, j, g);
        }
      }
    } else {
      var docs, g := ClashRegresses(t);
    }
  }

  // ---- Names return exactly when they clash ----

  /** A name is pending, has left, and is pending again. */
  ghost predicate Returns(t: Topology, docs: seq<Document>, i: int, j: int, k: int, x: string) {
    && AcceptedRun(docs) && docs[0].topology == t && 0 <= i <= j <= k < |docs|
    && x in Trace(docs)[i] && x !in Trace(docs)[j] && x in Trace(docs)[k]
  }

  /** With a clash, some name returns: a group that is another group's slice is dropped and then
      comes back with the split, or a shared slice comes back with the second of two splits. */
  lemma ClashReturns(t: Topology) returns (docs: seq<Document>, i: nat, j: nat, k: nat, x: string)
    requires ValidTopology(t) && !DisjointNames(t)
    ensures Returns(t, docs, i, j, k, x)
  {
    if h, s :| s in Children(t, h) && s in t {
      docs := GroupReturns(t, h, s);
      i, j, k, x := 0, 1, 2, s;
    } else {
      var g, h, s :| s in Children(t, g) && s in Children(t, h) && g != h;
      docs := SliceReturns(t, g, h, s);
      i, j, k, x := 2, 3, 4, s;
    }
  }

  lemma GroupReturns(t: Topology, h: string, s: string) returns (docs: seq<Document>)
    requires ValidTopology(t) && s in Children(t, h) && s in t
    ensures Returns(t, docs, 0, 1, 2, s)
  {
    ChildProperties(t, h, s);
    var fs := DropThenSplit(t, h);
    docs := ReturnsAlong(t, fs, 0, 1, 2, s);
  }

  lemma SliceReturns(t: Topology, g: string, h: string, s: string) returns (docs: seq<Document>)
    requires ValidTopology(t) && s in Children(t, g) && s in Children(t, h) && g != h
    requires forall a, c :: c in Children(t, a) ==> c !in t
    ensures Returns(t, docs, 2, 3, 4, s)
  {
    var fs := SplitTwice(t, g, h);
    docs := ReturnsAlong(t, fs, 2, 3, 4, s);
  }

  lemma ReturnsAlong(t: Topology, fs: seq<set<string>>, i: nat, j: nat, k: nat, x: string) returns (docs: seq<Document>)
    requires ValidTopology(t) && Chain(t, fs) && i <= j <= k < |fs|
    requires x in fs[i] && x !in fs[j] && x in fs[k]
    ensures Returns(t, docs, i, j, k, x)
  {
    docs := RunOfChain(t, fs);
  }

  lemma SplitTwice(t: Topology, g: string, h: string) returns (fs: seq<set<string>>)
    requires ValidTopology(t) && g in t && h in t && g != h && Children(t, g) != {} && Children(t, h) != {}
    requires forall a, s :: s in Children(t, a) ==> s !in t
    ensures Chain(t, fs) && fs == [t.Keys, {g, h}, Children(t, g) + {h}, {h}, Children(t, h)]
  {
    fs := [t.Keys, {g, h}, Children(t, g) + {h}, {h}, Children(t, h)];
    assert Splits(t, {g, h}, Children(t, g) + {h}, g);
    assert Splits(t, {h}, Children(t, h), h);
  }

  /** No name ever returns, over all accepted runs, if and only if the declared names are
      disjoint. */
  lemma NoReturnExactly(t: Topology)
    requires ValidTopology(t)
    ensures (forall docs, i, j, k, x :: !Returns(t, docs, i, j, k, x)) <==> DisjointNames(t)
  {
    if DisjointNames(t) {
      forall docs, i, j, k, x
        ensures !Returns(t, docs, i, j, k, x)
      {
        if Returns(t, docs, i, j, k, x) { NoNameReturns(docs, i, j, k, x); }
      }
    } else {
      var docs, i, j, k, x := ClashReturns(t);
    }
  }

  // ---- A clash that the gate lets through ----

  /** Groups "a" and "a::b", and a slice of "a" that is called "a::b" as well. */
  function ClashingNames(): Topology {
    map["a" := Node(["a.rs"], [Slice("a::b", ["b.rs"], [])]), "a::b" := Node(["c.rs"], [])]
  }

  lemma ClashingNamesValid()
    ensures ValidTopology(ClashingNames()) && !DisjointNames(ClashingNames())
  {
    var t := ClashingNames();
    assert "a" + "::" <= "a::b";
    assert ValidNode("a", t["a"]) && ValidNode("a::b", t["a::b"]);
    assert t["a"].slices[0].name in Children(t, "a");
  }

  /** On these names both promises fail: an accepted run lists a group beside its own slice, and
      another brings a migrated group back. */
  lemma ClashingNamesBreakPromises()
    ensures exists frontier :: Reachable(ClashingNames(), frontier) && !Admissible(ClashingNames(), frontier)
    ensures !Irreversible(ClashingNames())
  {
    ClashingNamesValid();
    var frontier := ClashReachesBadFrontier(ClashingNames());
    IrreversibleExactly(ClashingNames());
  }
}
