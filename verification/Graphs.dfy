/** Paths in a finite dependency graph: name to the names it depends on directly. */
module Graphs {
  import opened Text

  type Graph = map<string, set<string>>

  /** Python's `graph.get(name, set())`. */
  function Next(g: Graph, n: string): set<string> {
    if n in g then g[n] else {}
  }

  ghost predicate IsPath(g: Graph, path: seq<string>, a: string, b: string) {
    && |path| >= 2 && path[0] == a && path[|path| - 1] == b
    && forall i :: 0 <= i < |path| - 1 ==> path[i + 1] in Next(g, path[i])
  }

  /** A path of at least one edge leads from `a` to `b`. */
  ghost predicate Reaches(g: Graph, a: string, b: string) {
    exists path :: IsPath(g, path, a, b)
  }

  lemma ReachesEdge(g: Graph, a: string, b: string)
    requires b in Next(g, a)
    ensures Reaches(g, a, b)
  {
    assert IsPath(g, [a, b], a, b);
  }

  lemma ReachesFurther(g: Graph, a: string, b: string, c: string)
    requires Reaches(g, a, b) && c in Next(g, b)
    ensures Reaches(g, a, c)
  {
    var path :| IsPath(g, path, a, b);
    assert IsPath(g, path + [c], a, c);
  }

  lemma ReachesBefore(g: Graph, a: string, b: string, c: string)
    requires b in Next(g, a) && Reaches(g, b, c)
    ensures Reaches(g, a, c)
  {
    var path :| IsPath(g, path, b, c);
    var longer := [a] + path;
    forall i | 0 <= i < |longer| - 1
      ensures longer[i + 1] in Next(g, longer[i])
    {
      if i > 0 { assert path[i - 1 + 1] in Next(g, path[i - 1]); }
    }
    assert IsPath(g, longer, a, c);
  }

  /** A set that contains what `a` depends on and is closed contains all that `a` reaches. */
  lemma ClosedContains(g: Graph, a: string, b: string, s: set<string>)
    requires Next(g, a) <= s && (forall n :: n in s ==> Next(g, n) <= s) && Reaches(g, a, b)
    ensures b in s
  {
    var path :| IsPath(g, path, a, b);
    ClosedAlong(g, path, a, b, s, |path| - 1);
  }

  lemma {:induction false} ClosedAlong(g: Graph, path: seq<string>, a: string, b: string, s: set<string>, k: nat)
    requires IsPath(g, path, a, b) && 1 <= k < |path|
    requires Next(g, a) <= s && forall n :: n in s ==> Next(g, n) <= s
    ensures path[k] in s
  {
    assert path[k - 1 + 1] in Next(g, path[k - 1]);
    if k == 1 {
    } else {
      ClosedAlong(g, path, a, b, s, k - 1);
    }
  }

  /** No name depends on itself, directly or not. */
  ghost predicate Acyclic(g: Graph) {
    forall n :: !Reaches(g, n, n)
  }

  /** Every name occurs after everything it depends on directly. */
  ghost predicate Backwards(g: Graph, order: seq<string>) {
    forall i, d :: 0 <= i < |order| && d in Next(g, order[i]) ==> d in order[..i]
  }

  /** In such an order every prefix contains all that its names reach. */
  lemma PrefixClosed(g: Graph, order: seq<string>, k: nat, b: string, a: string)
    requires Backwards(g, order) && k <= |order| && b in order[..k] && Reaches(g, b, a)
    ensures a in order[..k]
  {
    var s := Members(order[..k]);
    forall n | n in s
      ensures Next(g, n) <= s
    {
      var i :| 0 <= i < k && order[i] == n;
      forall d | d in Next(g, n) ensures d in s {
        assert d in order[..i];
        assert order[..i] == order[..k][..i];
      }
    }
    ClosedContains(g, b, a, s);
  }

  /** A graph whose names can be listed like that, each once, has no cycle. */
  lemma BackwardsIsAcyclic(g: Graph, order: seq<string>)
    requires Backwards(g, order) && Distinct(order) && Members(order) == g.Keys
    ensures Acyclic(g)
  {
    forall n
      ensures !Reaches(g, n, n)
    {
      if Reaches(g, n, n) {
        var path :| IsPath(g, path, n, n);
        assert path[0 + 1] in Next(g, path[0]);
        assert n in Members(order);
        var i :| 0 <= i < |order| && order[i] == n;
        assert n in order[..i + 1];
        NotBeforeItself(g, order, i);
      }
    }
  }

  lemma NotBeforeItself(g: Graph, order: seq<string>, i: nat)
    requires Backwards(g, order) && Distinct(order) && i < |order|
    ensures !Reaches(g, order[i], order[i])
  {
    if Reaches(g, order[i], order[i]) {
      var s := Members(order[..i]);
      forall n | n in s
        ensures Next(g, n) <= s
      {
        var k :| 0 <= k < i && order[k] == n;
        forall d | d in Next(g, n) ensures d in s {
          assert d in order[..k];
          assert order[..k] == order[..i][..k];
        }
      }
      assert Next(g, order[i]) <= s;
      ClosedContains(g, order[i], order[i], s);
    }
  }

  // ---- Conversely: a finite graph without a cycle can be listed ----

  /** The names among `ns` that `n` reaches. */
  ghost function Below(g: Graph, ns: set<string>, n: string): set<string> {
    set m | m in ns && Reaches(g, n, m)
  }

  /** Among the names that remain, one depends on none of them. */
  lemma {:induction false} LeastExists(g: Graph, ns: set<string>, n: string) returns (m: string)
    requires Acyclic(g) && n in ns
    ensures m in ns && Next(g, m) !! ns
    decreases |Below(g, ns, n)|
  {
    if Next(g, n) !! ns {
      m := n;
    } else {
      var d :| d in Next(g, n) && d in ns;
      forall x | x in Below(g, ns, d) ensures x in Below(g, ns, n) { ReachesBefore(g, n, d, x); }
      ReachesEdge(g, n, d);
      assert d in Below(g, ns, n) && d !in Below(g, ns, d);
      SubsetSize(Below(g, ns, d), Below(g, ns, n));
      m := LeastExists(g, ns, d);
    }
  }

  /** Part of the names are listed; the others depend only on listed ones and each other. */
  ghost predicate Partial(g: Graph, done: seq<string>, ns: set<string>) {
    && Backwards(g, done) && Distinct(done) && Members(done) !! ns
    && forall n :: n in ns ==> Next(g, n) <= Members(done) + ns
  }

  lemma PartialStep(g: Graph, done: seq<string>, ns: set<string>, m: string)
    requires Partial(g, done, ns) && m in ns && Next(g, m) !! ns
    ensures Partial(g, done + [m], ns - {m})
    ensures Members(done + [m]) + (ns - {m}) == Members(done) + ns
  {
    AppendReady(g, done, m);
  }

  /** Listing the names that remain, after everything already listed. */
  lemma {:induction false} OrderExists(g: Graph, done: seq<string>, ns: set<string>) returns (order: seq<string>)
    requires Acyclic(g) && Partial(g, done, ns)
    ensures Backwards(g, order) && Distinct(order) && Members(order) == Members(done) + ns
    decreases |ns|
  {
    if ns == {} {
      order := done;
    } else {
      var n :| n in ns;
      var m := LeastExists(g, ns, n);
      PartialStep(g, done, ns, m);
      order := OrderExists(g, done + [m], ns - {m});
    }
  }

  lemma AppendReady(g: Graph, done: seq<string>, m: string)
    requires Backwards(g, done) && Distinct(done) && m !in Members(done) && Next(g, m) <= Members(done)
    ensures Backwards(g, done + [m]) && Distinct(done + [m]) && Members(done + [m]) == Members(done) + {m}
  {
    var all := done + [m];
    forall i, d | 0 <= i < |all| && d in Next(g, all[i])
      ensures d in all[..i]
    {
      if i < |done| {
        assert all[..i] == done[..i];
      } else {
        assert all[..i] == done && d in Members(done);
      }
    }
  }
}
