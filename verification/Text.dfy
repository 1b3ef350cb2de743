/**
 Code-point order on strings, and the sorted, duplicate-free list of a collection of
 names. The gate, the budget checker, the publication check and the telemetry validator
 all compare a list with its own sorted form.
 */
module Text {

  datatype Option<+T> = None | Some(value: T)

  /** The elements of a list, as a set. */
  function Members<T>(xs: seq<T>): set<T> {
    set x | x in xs
  }

  /** No element occurs twice. */
  ghost predicate Distinct<T>(xs: seq<T>) {
    forall i, j :: 0 <= i < j < |xs| ==> xs[i] != xs[j]
  }

  /** `a <= b` in code-point order. */
  predicate Leq(a: string, b: string) {
    a == [] || (b != [] && (a[0] < b[0] || (a[0] == b[0] && Leq(a[1..], b[1..]))))
  }

  predicate Less(a: string, b: string) {
    a != b && Leq(a, b)
  }

  /** The first difference, at `k`, puts `a` below `b`. */
  predicate BelowAt(a: string, b: string, k: nat) {
    k < |a| && k < |b| && a[..k] == b[..k] && a[k] < b[k]
  }

  /** Code-point order: a prefix comes first, and otherwise the first difference decides. */
  lemma {:induction false} LeqExactly(a: string, b: string)
    ensures Leq(a, b) <==> a <= b || exists k :: BelowAt(a, b, k)
  {
    if a == [] || b == [] {
    } else if a[0] != b[0] {
      assert BelowAt(a, b, 0) <==> a[0] < b[0];
      assert forall k :: 0 < k <= |a| && k <= |b| ==> a[..k][0] == a[0] && b[..k][0] == b[0];
    } else {
      LeqExactly(a[1..], b[1..]);
      PrefixShift(a, b);
      if k: nat :| BelowAt(a, b, k) { BelowShift(a, b, k - 1); }
      if k: nat :| BelowAt(a[1..], b[1..], k) { BelowShift(a, b, k); }
    }
  }

  lemma PrefixShift(a: string, b: string)
    requires a != [] && b != [] && a[0] == b[0]
    ensures a <= b <==> a[1..] <= b[1..]
  {
    assert a == [a[0]] + a[1..] && b == [b[0]] + b[1..];
  }

  lemma BelowShift(a: string, b: string, k: nat)
    requires a != [] && b != [] && a[0] == b[0] && k < |a| - 1 && k < |b| - 1
    ensures BelowAt(a[1..], b[1..], k) <==> BelowAt(a, b, k + 1)
  {
    assert a[..k + 1] == [a[0]] + a[1..][..k] && b[..k + 1] == [b[0]] + b[1..][..k];
    assert a[..k + 1] == b[..k + 1] ==> a[1..][..k] == a[..k + 1][1..] == b[..k + 1][1..] == b[1..][..k];
  }

  lemma LeqReflexive(a: string)
    ensures Leq(a, a)
  {
  }

  lemma {:induction false} LeqTotal(a: string, b: string)
    ensures Leq(a, b) || Leq(b, a)
  {
    if a != [] && b != [] && a[0] == b[0] {
      LeqTotal(a[1..], b[1..]);
    }
  }

  lemma {:induction false} LeqAntisymmetric(a: string, b: string)
    requires Leq(a, b) && Leq(b, a)
    ensures a == b
  {
    if a == [] {
    } else {
      LeqAntisymmetric(a[1..], b[1..]);
      assert a == [a[0]] + a[1..] && b == [b[0]] + b[1..];
    }
  }

  lemma {:induction false} LeqTransitive(a: string, b: string, c: string)
    requires Leq(a, b) && Leq(b, c)
    ensures Leq(a, c)
  {
    if a != [] && a[0] == b[0] == c[0] {
      LeqTransitive(a[1..], b[1..], c[1..]);
    }
  }

  lemma LessTransitive(a: string, b: string, c: string)
    requires Less(a, b) && Less(b, c)
    ensures Less(a, c)
  {
    LeqTransitive(a, b, c);
    if a == c {
      LeqAntisymmetric(a, b);
    }
  }

  /** Each name is strictly below its successor: sorted, without duplicates. */
  predicate Ascending(xs: seq<string>) {
    forall i :: 0 <= i < |xs| - 1 ==> Less(xs[i], xs[i + 1])
  }

  lemma {:induction false} AscendingAll(xs: seq<string>, i: nat, j: nat)
    requires Ascending(xs) && i < j < |xs|
    ensures Less(xs[i], xs[j])
    decreases j - i
  {
    if i + 1 == j {
    } else {
      AscendingAll(xs, i + 1, j);
      LessTransitive(xs[i], xs[i + 1], xs[j]);
    }
  }

  lemma AscendingDistinct(xs: seq<string>)
    requires Ascending(xs)
    ensures Distinct(xs)
  {
    forall i, j | 0 <= i < j < |xs|
      ensures xs[i] != xs[j]
    {
      AscendingAll(xs, i, j);
    }
  }

  lemma NoMembers<T>(xs: seq<T>)
    ensures Members(xs) == {} <==> xs == []
  {
    if xs != [] {
      assert xs[0] in Members(xs);
    }
  }

  /** An ascending list is determined by its elements. */
  lemma {:induction false} AscendingUnique(xs: seq<string>, ys: seq<string>)
    requires Ascending(xs) && Ascending(ys) && Members(xs) == Members(ys)
    ensures xs == ys
  {
    if xs == [] {
      NoMembers(ys);
    } else {
      assert xs[0] in Members(xs) && xs[0] in ys;
      assert ys[0] in Members(ys) && ys[0] in xs;
      HeadIsLeast(xs, ys[0]);
      HeadIsLeast(ys, xs[0]);
      LeqAntisymmetric(xs[0], ys[0]);
      TailMembers(xs);
      TailMembers(ys);
      AscendingTail(xs);
      AscendingTail(ys);
      AscendingUnique(xs[1..], ys[1..]);
      assert xs == [xs[0]] + xs[1..] && ys == [ys[0]] + ys[1..];
    }
  }

  lemma AscendingTail(xs: seq<string>)
    requires Ascending(xs) && xs != []
    ensures Ascending(xs[1..])
  {
  }

  lemma HeadIsLeast(xs: seq<string>, x: string)
    requires Ascending(xs) && x in xs
    ensures Leq(xs[0], x)
  {
    var k :| 0 <= k < |xs| && xs[k] == x;
    if k == 0 {
      LeqReflexive(x);
    } else {
      AscendingAll(xs, 0, k);
    }
  }

  lemma TailMembers(xs: seq<string>)
    requires Ascending(xs) && xs != []
    ensures Members(xs[1..]) == Members(xs) - {xs[0]}
  {
    AscendingDistinct(xs);
    forall x
      ensures x in Members(xs[1..]) <==> x in Members(xs) - {xs[0]}
    {
      if x in xs && x != xs[0] {
        var k :| 0 <= k < |xs| && xs[k] == x;
        assert xs[1..][k - 1] == x;
      }
      if x in xs[1..] {
        var k :| 0 <= k < |xs[1..]| && xs[1..][k] == x;
        assert xs[k + 1] == x;
      }
    }
  }

  /** Put a name into an ascending list, unless it is there already. */
  function Insert(x: string, xs: seq<string>): (r: seq<string>)
    ensures Members(r) == Members(xs) + {x}
    ensures Ascending(xs) ==> Ascending(r)
    ensures r != [] && (r[0] == x || (xs != [] && r[0] == xs[0]))
  {
    if xs == [] then [x]
    else if x == xs[0] then xs
    else if Leq(x, xs[0]) then
      assert Members([x] + xs) == Members(xs) + {x};
      [x] + xs
    else
      LeqTotal(x, xs[0]);
      var rest := Insert(x, xs[1..]);
      assert Ascending(xs) ==> Ascending([xs[0]] + rest) by {
        if Ascending(xs) {
          AscendingTail(xs);
          assert xs[1..] != [] ==> xs[1..][0] == xs[0 + 1];
          InsertAscending(xs[0], rest);
        }
      }
      assert xs == [xs[0]] + xs[1..];
      assert Members([xs[0]] + rest) == {xs[0]} + Members(rest);
      [xs[0]] + rest
  }

  lemma InsertAscending(x: string, xs: seq<string>)
    requires Ascending(xs) && (xs != [] ==> Less(x, xs[0]))
    ensures Ascending([x] + xs)
  {
  }

  /** Python's `sorted(set(xs))`. */
  function SortedSet(xs: seq<string>): (r: seq<string>)
    ensures Ascending(r)
    ensures Members(r) == Members(xs)
  {
    if xs == [] then [] else
      assert xs == [xs[0]] + xs[1..];
      Insert(xs[0], SortedSet(xs[1..]))
  }

  /** Some duplicate-free listing of a finite set: what iterating over a Python set yields. */
  lemma {:induction false} ListingExists<T>(s: set<T>) returns (xs: seq<T>)
    ensures Members(xs) == s && Distinct(xs) && |xs| == |s|
  {
    if s == {} {
      xs := [];
    } else {
      var x :| x in s;
      var rest := ListingExists(s - {x});
      xs := [x] + rest;
      ListedFirst(x, rest);
    }
  }

  lemma ListedFirst<T>(x: T, xs: seq<T>)
    requires Distinct(xs) && x !in Members(xs)
    ensures Members([x] + xs) == {x} + Members(xs) && Distinct([x] + xs)
  {
    assert forall y :: y in xs ==> y in Members(xs);
  }

  /** A list is its own sorted set exactly when it is strictly ascending. */
  lemma AscendingSorted(xs: seq<string>)
    ensures xs == SortedSet(xs) <==> Ascending(xs)
  {
    if Ascending(xs) { AscendingUnique(xs, SortedSet(xs)); }
  }

  /** A duplicate-free list is as long as its set of elements is large. */
  lemma {:induction false} DistinctLength<T>(xs: seq<T>)
    ensures |Members(xs)| <= |xs|
    ensures |Members(xs)| == |xs| <==> Distinct(xs)
  {
    if xs == [] {
    } else {
      var last := |xs| - 1;
      var init := xs[..last];
      DistinctLength(init);
      assert xs == init + [xs[last]];
      assert Members(xs) == Members(init) + {xs[last]};
      if Distinct(xs) {
        assert forall i, j :: 0 <= i < j < last ==> init[i] != init[j];
        assert xs[last] !in init;
      } else if Distinct(init) {
        assert xs[last] in init;
        assert Members(xs) == Members(init);
      }
    }
  }

  /** The lists that `f` gives for the elements, one after the other. */
  function FlatMap<A, B>(f: A -> seq<B>, xs: seq<A>): seq<B> {
    if xs == [] then [] else FlatMap(f, xs[..|xs| - 1]) + f(xs[|xs| - 1])
  }

  lemma FlatMapStep<A, B>(f: A -> seq<B>, xs: seq<A>, i: nat)
    requires i < |xs|
    ensures FlatMap(f, xs[..i + 1]) == FlatMap(f, xs[..i]) + f(xs[i])
  {
    assert xs[..i + 1][..i] == xs[..i];
  }

  lemma {:induction false} FlatMapMember<A, B>(f: A -> seq<B>, xs: seq<A>, b: B)
    ensures b in FlatMap(f, xs) <==> exists x :: x in xs && b in f(x)
  {
    if xs == [] {
    } else {
      var init, last := xs[..|xs| - 1], xs[|xs| - 1];
      FlatMapMember(f, init, b);
      assert xs == init + [last];
    }
  }

  lemma {:induction false} FlatMapEmpty<A, B>(f: A -> seq<B>, xs: seq<A>)
    ensures FlatMap(f, xs) == [] <==> forall x :: x in xs ==> f(x) == []
  {
    if xs == [] {
    } else {
      var init, last := xs[..|xs| - 1], xs[|xs| - 1];
      FlatMapEmpty(f, init);
      assert xs == init + [last];
    }
  }

  /** A transitive relation between neighbours holds between any two elements in order. */
  lemma {:induction false} ChainOrders<T(!new)>(r: (T, T) -> bool, xs: seq<T>, i: nat, j: nat)
    requires forall a, b, c :: r(c, b) && r(b, a) ==> r(c, a)
    requires forall k :: 0 <= k < |xs| - 1 ==> r(xs[k + 1], xs[k])
    requires i < j < |xs|
    ensures r(xs[j], xs[i])
    decreases j - i
  {
    assert r(xs[j - 1 + 1], xs[j - 1]);
    if i + 1 == j {
    } else {
      ChainOrders(r, xs, i, j - 1);
    }
  }

  /** Iterating over a set, in whatever order. */
  method ListOf<T(==)>(s: set<T>) returns (xs: seq<T>)
    ensures Members(xs) == s
  {
    xs := [];
    var left := s;
    while left != {}
      invariant Members(xs) + left == s
      decreases |left|
    {
      var x :| x in left;
      assert Members(xs + [x]) == Members(xs) + {x};
      xs, left := xs + [x], left - {x};
    }
  }

  // ---- Searching ----

  predicate OccursAt<T(==)>(s: seq<T>, p: seq<T>, i: int) {
    0 <= i && i + |p| <= |s| && s[i..i + |p|] == p
  }

  /** The first occurrence. */
  predicate FirstAt<T(==)>(s: seq<T>, p: seq<T>, i: int) {
    OccursAt(s, p, i) && forall j :: 0 <= j < i ==> !OccursAt(s, p, j)
  }

  lemma {:induction false} FirstExists<T>(s: seq<T>, p: seq<T>, i: nat)
    requires OccursAt(s, p, i)
    ensures exists k :: 0 <= k <= i && FirstAt(s, p, k)
  {
    if j :| 0 <= j < i && OccursAt(s, p, j) {
      FirstExists(s, p, j);
    } else {
      assert FirstAt(s, p, i);
    }
  }

  /** JavaScript's `indexOf`. */
  function IndexOf<T(==)>(s: seq<T>, p: seq<T>): (r: int)
    ensures r == -1 || FirstAt(s, p, r)
    ensures r == -1 ==> forall i :: !OccursAt(s, p, i)
  {
    if i :| 0 <= i <= |s| && OccursAt(s, p, i) then
      FirstExists(s, p, i);
      var k :| 0 <= k <= |s| && FirstAt(s, p, k); k
    else -1
  }

  lemma IndexOfIs<T>(s: seq<T>, p: seq<T>, k: int)
    requires FirstAt(s, p, k)
    ensures IndexOf(s, p) == k
  {
  }

  lemma Associates<T>(a: seq<T>, b: seq<T>, c: seq<T>)
    ensures a + (b + c) == (a + b) + c
  {
  }

  /** A proper subset is smaller. */
  lemma SubsetSize<T>(a: set<T>, b: set<T>)
    requires a < b
    ensures |a| < |b|
  {
    assert b == a + (b - a);
    assert |b - a| > 0;
  }

  /** JavaScript's `join`. */
  function Join(parts: seq<string>, sep: string): string {
    if parts == [] then []
    else if |parts| == 1 then parts[0]
    else parts[0] + sep + Join(parts[1..], sep)
  }

  function Concat<T>(parts: seq<seq<T>>): seq<T> {
    if parts == [] then [] else Concat(parts[..|parts| - 1]) + parts[|parts| - 1]
  }

  // ---- Characters ----

  function LowerAscii(c: char): char {
    if 'A' <= c <= 'Z' then c - 'A' + 'a' else c
  }

  /** What JavaScript's `trim` removes: white space and line ends. */
  predicate IsSpaceCode(u: int) {
    || 0x9 <= u <= 0xD || u == 0x20 || u == 0xA0 || u == 0x1680 || 0x2000 <= u <= 0x200A
    || u == 0x2028 || u == 0x2029 || u == 0x202F || u == 0x205F || u == 0x3000 || u == 0xFEFF
  }

  /** The white space of ECMAScript, one by one. */
  lemma SpaceCodes(u: int)
    ensures IsSpaceCode(u) <==>
            u in [9, 10, 11, 12, 13, 32, 160, 5760, 8192, 8193, 8194, 8195, 8196, 8197, 8198, 8199, 8200, 8201, 8202,
                  8232, 8233, 8239, 8287, 12288, 65279]
  {
  }

  function TrimStart<T>(s: seq<T>, isSpace: T -> bool): seq<T> {
    if s != [] && isSpace(s[0]) then TrimStart(s[1..], isSpace) else s
  }

  /** The capitals move by 32 code points, and nothing else moves. */
  lemma LowerAsciiExactly(c: char)
    ensures LowerAscii(c) as int == c as int + if 65 <= c as int <= 90 then 32 else 0
  {
  }

  /** Trimming cuts off the spaces in front and stops at anything else. */
  lemma {:induction false} TrimStartSplits<T>(s: seq<T>, isSpace: T -> bool) returns (n: nat)
    ensures n <= |s| && TrimStart(s, isSpace) == s[n..]
    ensures (forall i :: 0 <= i < n ==> isSpace(s[i])) && (n < |s| ==> !isSpace(s[n]))
  {
    if s == [] || !isSpace(s[0]) {
      n := 0;
    } else {
      var m := TrimStartSplits(s[1..], isSpace);
      n := m + 1;
      assert s[1..][m..] == s[n..] && forall i :: 1 <= i < n ==> s[i] == s[1..][i - 1];
    }
  }
}
