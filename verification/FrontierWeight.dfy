/**
 How long the gate can go on changing the frontier, for every valid topology
 (scripts/check-command-migration-manifest.py). A name weighs one plus what its slices weigh; a
 split spends one, and removing a name spends its weight.
 */
module FrontierWeight {
  import opened Frontier
  import opened Text

  // ---- Sums over sets ----

  ghost function Sum(s: set<string>, w: string -> nat): nat {
    if s == {} then 0 else
      var x :| x in s;
      w(x) + Sum(s - {x}, w)
  }

  /** Any element may be taken out first. */
  lemma {:induction false} SumWithout(s: set<string>, w: string -> nat, x: string)
    requires x in s
    ensures Sum(s, w) == w(x) + Sum(s - {x}, w)
  {
    var y :| y in s && Sum(s, w) == w(y) + Sum(s - {y}, w);
    if y == x {
    } else {
      SumWithout(s - {y}, w, x);
      SumWithout(s - {x}, w, y);
      assert s - {y} - {x} == s - {x} - {y};
    }
  }

  lemma {:induction false} SumUnion(s: set<string>, r: set<string>, w: string -> nat)
    requires s !! r
    ensures Sum(s + r, w) == Sum(s, w) + Sum(r, w)
  {
    if s == {} {
      assert s + r == r;
    } else {
      var x :| x in s;
      SumWithout(s, w, x);
      SumWithout(s + r, w, x);
      assert s + r - {x} == (s - {x}) + r;
      SumUnion(s - {x}, r, w);
    }
  }

  lemma {:induction false} SumSame(s: set<string>, v: string -> nat, w: string -> nat)
    requires forall x :: x in s ==> v(x) == w(x)
    ensures Sum(s, v) == Sum(s, w)
  {
    if s == {} {
    } else {
      var x :| x in s;
      SumWithout(s, v, x);
      SumWithout(s, w, x);
      SumSame(s - {x}, v, w);
    }
  }

  /** Positive weights: a proper subset weighs less. */
  lemma SumLess(s: set<string>, r: set<string>, w: string -> nat)
    requires s < r && forall x :: w(x) >= 1
    ensures Sum(s, w) < Sum(r, w)
  {
    assert r == s + (r - s);
    var x :| x in r - s;
    SumWithout(r - s, w, x);
    SumUnion(s, r - s, w);
    assert s + (r - s) == r;
  }

  // ---- Weights ----

  // The names directly below a name.
  type Below = string -> set<string>

  /** Names below a name are longer, and none is longer than `n`. */
  ghost predicate Lengthens(below: Below, n: nat) {
    forall x, c :: c in below(x) ==> |x| < |c| <= n
  }

  /** The weight of a name, looking at most `depth` levels down. */
  ghost function Level(below: Below, depth: nat): string -> nat {
    if depth == 0 then x => 1
    else
      var deeper := Level(below, depth - 1);
      x => 1 + Sum(below(x), deeper)
  }

  lemma LevelIs(below: Below, depth: nat, x: string)
    ensures Level(below, depth + 1)(x) == 1 + Sum(below(x), Level(below, depth))
  {
  }

  /** Looking further down than the longest name reaches changes nothing. */
  lemma {:induction false} DeepEnough(below: Below, n: nat, x: string, depth: nat)
    requires Lengthens(below, n) && |x| + depth >= n
    ensures Level(below, depth + 1)(x) == Level(below, depth)(x)
    decreases depth
  {
    LevelIs(below, depth, x);
    if depth == 0 {
      assert below(x) == {};
    } else {
      LevelIs(below, depth - 1, x);
      SameBelow(below, n, x, depth);
    }
  }

  lemma SameBelow(below: Below, n: nat, x: string, depth: nat)
    requires Lengthens(below, n) && |x| + depth >= n && depth > 0
    ensures Sum(below(x), Level(below, depth)) == Sum(below(x), Level(below, depth - 1))
    decreases depth, 0
  {
    var here, deeper := Level(below, depth), Level(below, depth - 1);
    forall c | c in below(x) ensures here(c) == deeper(c) {
      DeepEnough(below, n, c, depth - 1);
    }
    SumSame(below(x), here, deeper);
  }

  ghost function Slices(t: Topology): Below {
    x => Children(t, x)
  }

  lemma {:induction false} LongestExists(names: set<string>) returns (n: nat)
    ensures forall x :: x in names ==> |x| <= n
  {
    if names == {} {
      n := 0;
    } else {
      var x :| x in names;
      var m := LongestExists(names - {x});
      n := if m < |x| then |x| else m;
    }
  }

  /** A length that no declared name exceeds. */
  ghost function Bound(t: Topology): nat {
    if n: nat :| Lengthens(Slices(t), n) then n else 0
  }

  lemma BoundHolds(t: Topology)
    requires ValidTopology(t)
    ensures Lengthens(Slices(t), Bound(t))
  {
    var n := LongestExists(Leaves(t));
    forall x, c | c in Slices(t)(x) ensures |x| < |c| <= n { ChildIsLonger(t, x, c); }
    assert Lengthens(Slices(t), n);
  }

  lemma ChildIsLonger(t: Topology, x: string, c: string)
    requires ValidTopology(t) && c in Children(t, x)
    ensures |c| > |x| && c in Leaves(t)
  {
    ChildProperties(t, x, c);
  }

  ghost function Weight(t: Topology): string -> nat {
    Level(Slices(t), Bound(t))
  }

  /** One plus what the slices weigh. */
  lemma WeightIs(t: Topology, x: string)
    requires ValidTopology(t)
    ensures Weight(t)(x) == 1 + Sum(Children(t, x), Weight(t))
  {
    BoundHolds(t);
    DeepEnough(Slices(t), Bound(t), x, Bound(t));
    LevelIs(Slices(t), Bound(t), x);
  }

  // ---- Runs ----

  /** A split spends exactly one. */
  lemma SplitSpendsOne(t: Topology, f: set<string>, f': set<string>, g: string)
    requires ValidTopology(t) && Splits(t, f, f', g)
    ensures Sum(f', Weight(t)) == Sum(f, Weight(t)) - 1
  {
    SumWithout(f, Weight(t), g);
    SumUnion(f - {g}, Children(t, g), Weight(t));
    WeightIs(t, g);
  }

  /** A changing step spends at least one. */
  lemma StepLightens(t: Topology, f: set<string>, f': set<string>)
    requires ValidTopology(t) && Step(t, f, f') && f' != f
    ensures Sum(f', Weight(t)) < Sum(f, Weight(t))
  {
    if g :| Splits(t, f, f', g) {
      SplitSpendsOne(t, f, f', g);
    } else {
      Positive(t);
      SumLess(f', f, Weight(t));
    }
  }

  lemma Positive(t: Topology)
    ensures forall x :: Weight(t)(x) >= 1
  {
  }

  lemma {:induction false} ChainLightens(t: Topology, fs: seq<set<string>>, k: nat)
    requires ValidTopology(t) && Chain(t, fs) && Strict(fs) && k < |fs|
    ensures Sum(fs[k], Weight(t)) + k <= Sum(t.Keys, Weight(t))
  {
    if k == 0 {
    } else {
      ChainLightens(t, fs, k - 1);
      assert Step(t, fs[k - 1], fs[k - 1 + 1]) && fs[k - 1] != fs[k - 1 + 1];
      StepLightens(t, fs[k - 1], fs[k]);
    }
  }

  /** Whatever the names, a run of changing revisions makes at most as many changes as the groups
      weigh together. */
  lemma StrictRunEnds(docs: seq<Document>)
    requires AcceptedRun(docs) && Strict(Trace(docs))
    ensures |docs| - 1 <= Sum(docs[0].topology.Keys, Weight(docs[0].topology))
  {
    RunIsChain(docs);
    ChainLightens(docs[0].topology, Trace(docs), |docs| - 1);
  }

  /** From a non-empty frontier some step spends exactly one: with a longest name, split it or, if
      it has no slices, drop it. */
  lemma OneLess(t: Topology, f: set<string>) returns (f': set<string>)
    requires ValidTopology(t) && f != {}
    ensures Step(t, f, f') && f' != f && Sum(f', Weight(t)) == Sum(f, Weight(t)) - 1
  {
    var x := LongestIn(f);
    WeightIs(t, x);
    SumWithout(f, Weight(t), x);
    if Children(t, x) == {} {
      f' := f - {x};
    } else {
      forall c | c in Children(t, x) ensures c !in f { ChildIsLonger(t, x, c); }
      f' := f - {x} + Children(t, x);
      assert Splits(t, f, f', x);
      SplitSpendsOne(t, f, f', x);
    }
  }

  lemma {:induction false} LongestIn(f: set<string>) returns (x: string)
    requires f != {}
    ensures x in f && forall y :: y in f ==> |y| <= |x|
  {
    var z :| z in f;
    if f == {z} {
      x := z;
    } else {
      x := LongestIn(f - {z});
      if |x| < |z| { x := z; }
    }
  }

  lemma {:induction false} Drain(t: Topology, fs: seq<set<string>>) returns (all: seq<set<string>>)
    requires ValidTopology(t) && Chain(t, fs) && Strict(fs)
    ensures Chain(t, all) && Strict(all)
    ensures |all| == |fs| + Sum(fs[|fs| - 1], Weight(t))
    decreases Sum(fs[|fs| - 1], Weight(t))
  {
    var f := fs[|fs| - 1];
    if f == {} {
      all := fs;
    } else {
      var f' := OneLess(t, f);
      ExtendChain(t, fs, f');
      StrictLonger(fs, f');
      all := Drain(t, fs + [f']);
    }
  }

  lemma StrictLonger(fs: seq<set<string>>, f: set<string>)
    requires Strict(fs) && fs != [] && f != fs[|fs| - 1]
    ensures Strict(fs + [f])
  {
  }

  /** That bound is exact: some accepted run makes that many changes, whatever the names. */
  lemma LongestRun(t: Topology) returns (docs: seq<Document>)
    requires ValidTopology(t)
    ensures AcceptedRun(docs) && Strict(Trace(docs)) && docs[0].topology == t
    ensures |docs| - 1 == Sum(t.Keys, Weight(t))
  {
    var fs := Drain(t, [t.Keys]);
    docs := RunOfChain(t, fs);
  }

  /** With disjoint names the groups weigh as much as there are names. */
  lemma DisjointWeight(t: Topology)
    requires ValidTopology(t) && DisjointNames(t)
    ensures Sum(t.Keys, Weight(t)) == |Leaves(t)|
  {
    var docs := LongestRun(t);
    StrictRunBounded(docs);
    var full := StrictRunOfFullLength(t);
    StrictRunEnds(full);
  }
}
