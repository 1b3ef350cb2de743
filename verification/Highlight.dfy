/**
 Locating a query in a text case-insensitively, in the text's own indices
 (web/lib/search-utils.ts, highlightSpan). Texts are sequences of UTF-16 code units; folding a
 character may change its length.
 */
module Highlight {
  import opened Text

  type Unit = u: int | 0 <= u < 0x1_0000
  type Units = seq<Unit>

  // `toLowerCase` on a string that holds one character.
  type Fold = Units -> Units

  predicate IsHigh(u: Unit) { 0xD800 <= u < 0xDC00 }
  predicate IsLow(u: Unit) { 0xDC00 <= u < 0xE000 }

  /** The length of the character at a position: two units for a surrogate pair. */
  function Width(text: Units, i: nat): (n: nat)
    requires i < |text|
    ensures 1 <= n && i + n <= |text|
  {
    if IsHigh(text[i]) && i + 1 < |text| && IsLow(text[i + 1]) then 2 else 1
  }

  /** Whole characters lead from `i` to `j`. */
  predicate Reach(text: Units, i: nat, j: nat)
    requires i <= j <= |text|
    decreases j - i
  {
    i == j || (i + Width(text, i) <= j && Reach(text, i + Width(text, i), j))
  }

  /** A position between two characters, or at either end. */
  predicate Boundary(text: Units, i: nat) {
    i <= |text| && Reach(text, 0, i)
  }

  /** The fold of the characters from `i` to `j`. */
  function Folded(text: Units, i: nat, j: nat, fold: Fold): Units
    requires i <= j <= |text| && Reach(text, i, j)
    decreases j - i
  {
    if i == j then [] else
      var next := i + Width(text, i);
      fold(text[i..next]) + Folded(text, next, j, fold)
  }

  function Repeat(x: nat, n: nat): (r: seq<nat>)
    ensures |r| == n && forall k :: 0 <= k < n ==> r[k] == x
  {
    seq(n, k => x)
  }

  /** For each unit of the fold, where its character starts. */
  function Starts(text: Units, i: nat, j: nat, fold: Fold): seq<nat>
    requires i <= j <= |text| && Reach(text, i, j)
    decreases j - i
  {
    if i == j then [] else
      var next := i + Width(text, i);
      Repeat(i, |fold(text[i..next])|) + Starts(text, next, j, fold)
  }

  /** For each unit of the fold, where its character ends. */
  function Ends(text: Units, i: nat, j: nat, fold: Fold): seq<nat>
    requires i <= j <= |text| && Reach(text, i, j)
    decreases j - i
  {
    if i == j then [] else
      var next := i + Width(text, i);
      Repeat(next, |fold(text[i..next])|) + Ends(text, next, j, fold)
  }

  // ---- Boundaries ----

  lemma {:induction false} ReachEnd(text: Units, i: nat)
    requires i <= |text|
    ensures Reach(text, i, |text|)
    decreases |text| - i
  {
    if i == |text| {
    } else {
      ReachEnd(text, i + Width(text, i));
    }
  }

  lemma {:induction false} ReachJoin(text: Units, i: nat, j: nat, k: nat)
    requires i <= j <= k <= |text| && Reach(text, i, j) && Reach(text, j, k)
    ensures Reach(text, i, k)
    decreases j - i
  {
    if i == j {
    } else {
      ReachJoin(text, i + Width(text, i), j, k);
    }
  }

  lemma {:induction false} ReachBetween(text: Units, i: nat, a: nat, b: nat)
    requires i <= a <= b <= |text| && Reach(text, i, a) && Reach(text, i, b)
    ensures Reach(text, a, b)
    decreases a - i
  {
    if i == a {
    } else {
      ReachBetween(text, i + Width(text, i), a, b);
    }
  }

  /** The next boundary after one is a whole character away. */
  lemma NextBoundary(text: Units, a: nat, b: nat)
    requires a < b <= |text| && Boundary(text, a) && Boundary(text, b)
    ensures a + Width(text, a) <= b && Boundary(text, a + Width(text, a))
  {
    ReachBetween(text, 0, a, b);
    ReachJoin(text, 0, a, a + Width(text, a));
  }

  /** A character folds on its own. */
  lemma CharacterFolds(text: Units, i: nat, fold: Fold)
    requires i < |text|
    ensures Reach(text, i, i + Width(text, i))
    ensures Folded(text, i, i + Width(text, i), fold) == fold(text[i..i + Width(text, i)])
  {
    var next := i + Width(text, i);
    assert Folded(text, next, next, fold) == [];
  }

  /** The second unit of a surrogate pair starts here. */
  predicate InsidePair(text: Units, i: nat) {
    0 < i < |text| && 0xD800 <= text[i - 1] <= 0xDBFF && 0xDC00 <= text[i] <= 0xDFFF
  }

  /** The boundaries are exactly the positions that do not lie inside a surrogate pair. */
  lemma {:induction false} BoundaryExactly(text: Units, i: nat)
    requires i <= |text|
    ensures Boundary(text, i) <==> !InsidePair(text, i)
  {
    if i == 0 {
    } else if InsidePair(text, i) {
      BoundaryExactly(text, i - 1);
      if Boundary(text, i) { ReachBetween(text, 0, i - 1, i); }
    } else if InsidePair(text, i - 1) {
      BoundaryExactly(text, i - 2);
      ReachJoin(text, 0, i - 2, i);
    } else {
      BoundaryExactly(text, i - 1);
      ReachJoin(text, 0, i - 1, i);
    }
  }

  lemma {:induction false} FoldedJoin(text: Units, i: nat, j: nat, k: nat, fold: Fold)
    requires i <= j <= k <= |text| && Reach(text, i, j) && Reach(text, j, k)
    ensures Reach(text, i, k) && Folded(text, i, k, fold) == Folded(text, i, j, fold) + Folded(text, j, k, fold)
    decreases j - i
  {
    ReachJoin(text, i, j, k);
    if i == j {
    } else {
      var next := i + Width(text, i);
      FoldedJoin(text, next, j, k, fold);
      var head := fold(text[i..next]);
      Associates(head, Folded(text, next, j, fold), Folded(text, j, k, fold));
    }
  }

  // ---- The position maps ----

  lemma {:induction false} MapLengths(text: Units, i: nat, j: nat, fold: Fold)
    requires i <= j <= |text| && Reach(text, i, j)
    ensures |Starts(text, i, j, fold)| == |Ends(text, i, j, fold)| == |Folded(text, i, j, fold)|
    decreases j - i
  {
    if i == j {
    } else {
      var next := i + Width(text, i);
      var head := fold(text[i..next]);
      MapLengths(text, next, j, fold);
      assert Folded(text, i, j, fold) == head + Folded(text, next, j, fold);
      assert Starts(text, i, j, fold) == Repeat(i, |head|) + Starts(text, next, j, fold);
      assert Ends(text, i, j, fold) == Repeat(next, |head|) + Ends(text, next, j, fold);
    }
  }

  /** What the two maps say about unit `k` of the fold: it belongs to the character between the
      two positions, which are boundaries around it. */
  ghost predicate Locates(text: Units, i: nat, j: nat, fold: Fold, k: nat, s: nat, e: nat)
    requires i <= j <= |text| && Reach(text, i, j)
  {
    && i <= s < j && Reach(text, i, s) && e == s + Width(text, s) && e <= j && Reach(text, i, e)
    && |Folded(text, i, s, fold)| <= k < |Folded(text, i, e, fold)|
  }

  lemma {:induction false} MapsLocate(text: Units, i: nat, j: nat, fold: Fold, k: nat)
    requires i <= j <= |text| && Reach(text, i, j) && k < |Folded(text, i, j, fold)|
    ensures k < |Starts(text, i, j, fold)| == |Ends(text, i, j, fold)|
    ensures Locates(text, i, j, fold, k, Starts(text, i, j, fold)[k], Ends(text, i, j, fold)[k])
    decreases j - i
  {
    MapLengths(text, i, j, fold);
    var next := i + Width(text, i);
    var head := fold(text[i..next]);
    assert Folded(text, i, next, fold) == head + Folded(text, next, next, fold) == head;
    if k >= |head| {
      MapLengths(text, next, j, fold);
      MapsLocate(text, next, j, fold, k - |head|);
      var s, e := Starts(text, next, j, fold)[k - |head|], Ends(text, next, j, fold)[k - |head|];
      LocatesLater(text, i, j, fold, k - |head|, s, e);
    }
  }

  lemma LocatesLater(text: Units, i: nat, j: nat, fold: Fold, k: nat, s: nat, e: nat)
    requires i < j <= |text| && Reach(text, i, j)
    requires Locates(text, i + Width(text, i), j, fold, k, s, e)
    ensures Locates(text, i, j, fold, k + |fold(text[i..i + Width(text, i)])|, s, e)
  {
  }

  // ---- Building the maps ----

  /** The lowercased text with its position maps, built character by character. */
  method FoldWithMaps(text: Units, fold: Fold) returns (lower: Units, starts: seq<nat>, ends: seq<nat>)
    ensures Boundary(text, |text|)
    ensures lower == Folded(text, 0, |text|, fold)
    ensures starts == Starts(text, 0, |text|, fold) && ends == Ends(text, 0, |text|, fold)
  {
    lower, starts, ends := [], [], [];
    var i := 0;
    ReachEnd(text, 0);
    while i < |text|
      invariant i <= |text| && Reach(text, i, |text|)
      invariant lower + Folded(text, i, |text|, fold) == Folded(text, 0, |text|, fold)
      invariant starts + Starts(text, i, |text|, fold) == Starts(text, 0, |text|, fold)
      invariant ends + Ends(text, i, |text|, fold) == Ends(text, 0, |text|, fold)
    {
      var next := i + Width(text, i);
      var folded := fold(text[i..next]);
      Associates(lower, folded, Folded(text, next, |text|, fold));
      Associates(starts, Repeat(i, |folded|), Starts(text, next, |text|, fold));
      Associates(ends, Repeat(next, |folded|), Ends(text, next, |text|, fold));
      starts, ends := starts + Repeat(i, |folded|), ends + Repeat(next, |folded|);
      lower := lower + folded;
      i := next;
    }
  }

  // ---- The span ----

  datatype Span = Span(before: Units, match_: Units, after: Units)

  /** The hit of the query in the folded text, and the character it begins in. */
  ghost predicate Hit(text: Units, query: Units, fold: Fold, idx: nat, start: nat)
  {
    && Boundary(text, |text|) && query != [] && FirstAt(Folded(text, 0, |text|, fold), query, idx)
    && start < |text| && Boundary(text, start) && Boundary(text, start + Width(text, start))
    && |Folded(text, 0, start, fold)| <= idx < |Folded(text, 0, start + Width(text, start), fold)|
  }

  /** The end of the span, for a hit that begins in the character at `start`: with the hit when
      that lies between characters; with the first character when the hit ends inside it; and
      otherwise before the character that the hit ends inside. */
  ghost predicate EndsWell(text: Units, query: Units, fold: Fold, idx: nat, start: nat, end: nat)
    requires Hit(text, query, fold, idx, start)
  {
    && start < end <= |text| && Boundary(text, end)
    && var stop := idx + |query|;
       || |Folded(text, 0, end, fold)| == stop
       || (end == start + Width(text, start) && |Folded(text, 0, end, fold)| > stop)
       || (end < |text| && Boundary(text, end + Width(text, end))
           && |Folded(text, 0, end, fold)| < stop < |Folded(text, 0, end + Width(text, end), fold)|)
  }

  /** A span between two cuts of the text that are right for the first hit of the query. */
  ghost predicate Highlights(text: Units, query: Units, fold: Fold, span: Span) {
    && span.before + span.match_ + span.after == text
    && exists idx :: Hit(text, query, fold, idx, |span.before|)
                     && EndsWell(text, query, fold, idx, |span.before|, |span.before| + |span.match_|)
  }

  predicate IsSpace(u: Unit) {
    IsSpaceCode(u)
  }

  function TrimEnd(s: Units): Units {
    if s != [] && IsSpace(s[|s| - 1]) then TrimEnd(s[..|s| - 1]) else s
  }

  function Trim(s: Units): Units {
    TrimEnd(TrimStart(s, IsSpace))
  }

  predicate Trimmed(s: Units) {
    s != [] ==> !IsSpace(s[0]) && !IsSpace(s[|s| - 1])
  }

  predicate AllSpace(s: Units) {
    forall i :: 0 <= i < |s| ==> IsSpace(s[i])
  }

  lemma {:induction false} TrimEndSplits(s: Units) returns (n: nat)
    ensures n <= |s| && TrimEnd(s) == s[..n] && AllSpace(s[n..]) && (n > 0 ==> !IsSpace(s[n - 1]))
  {
    if s != [] && IsSpace(s[|s| - 1]) {
      var init := s[..|s| - 1];
      n := TrimEndSplits(init);
      assert init[..n] == s[..n] && forall i :: n <= i < |s| - 1 ==> s[i] == init[n..][i - n];
    } else {
      n := |s|;
    }
  }

  /** Trimming cuts off white space at both ends and stops at anything else. */
  lemma TrimSplits(s: Units) returns (a: nat, b: nat)
    ensures a <= b <= |s| && Trim(s) == s[a..b] && AllSpace(s[..a]) && AllSpace(s[b..]) && Trimmed(s[a..b])
  {
    a := TrimStartSplits(s, IsSpace);
    var n := TrimEndSplits(s[a..]);
    b := a + n;
    assert s[a..][..n] == s[a..b] && s[a..][n..] == s[b..];
    assert n > 0 ==> s[a..][n - 1] == s[a..b][n - 1] && s[a..b][0] == s[a];
  }

  /** `highlightSpan`. The query is trimmed and lowered as a whole, the text character by
      character. The result is null exactly when the lowered query is empty or does not occur in
      the folded text. */
  method HighlightSpan(text: Units, query: Units, lower: Units -> Units, fold: Fold) returns (r: Option<Span>)
    ensures Boundary(text, |text|)
    ensures r.None? <==>
            || lower(Trim(query)) == []
            || forall k :: !OccursAt(Folded(text, 0, |text|, fold), lower(Trim(query)), k)
    ensures r.Some? ==> Highlights(text, lower(Trim(query)), fold, r.value)
  {
    ReachEnd(text, 0);
    var q := lower(Trim(query));
    if q == [] { return None; }
    var folded, starts, ends := FoldWithMaps(text, fold);
    var idx := IndexOf(folded, q);
    if idx == -1 { return None; }
    var start, end := MapBack(text, q, fold, idx, folded, starts, ends);
    r := Some(Span(text[..start], text[start..end], text[end..]));
    CutsHighlight(text, q, fold, idx, start, end);
  }

  lemma CutsHighlight(text: Units, query: Units, fold: Fold, idx: nat, start: nat, end: nat)
    requires Hit(text, query, fold, idx, start) && EndsWell(text, query, fold, idx, start, end)
    ensures Highlights(text, query, fold, Span(text[..start], text[start..end], text[end..]))
  {
  }

  /** The cuts of the text for a hit in its fold. */
  method MapBack(text: Units, query: Units, fold: Fold, idx: nat, lower: Units, starts: seq<nat>, ends: seq<nat>)
    returns (start: nat, end: nat)
    requires Boundary(text, |text|) && query != [] && FirstAt(lower, query, idx)
    requires lower == Folded(text, 0, |text|, fold)
    requires starts == Starts(text, 0, |text|, fold) && ends == Ends(text, 0, |text|, fold)
    ensures Hit(text, query, fold, idx, start) && EndsWell(text, query, fold, idx, start, end)
  {
    MapsLocate(text, 0, |text|, fold, idx);
    start, end := starts[idx], |text|;
    var stop := idx + |query|;
    if stop < |lower| {
      MapsLocate(text, 0, |text|, fold, stop);
      end := if starts[stop] > ends[idx] then starts[stop] else ends[idx];
      HitEnds(text, query, fold, idx, start, stop, starts[stop], end);
    } else {
      HitEndsLast(text, query, fold, idx, start);
    }
  }

  lemma {:induction false} FoldedGrows(text: Units, a: nat, b: nat, fold: Fold)
    requires a <= b <= |text| && Boundary(text, a) && Boundary(text, b)
    ensures |Folded(text, 0, a, fold)| <= |Folded(text, 0, b, fold)|
  {
    ReachBetween(text, 0, a, b);
    FoldedJoin(text, 0, a, b, fold);
  }

  /** A hit that ends before the folded text does. */
  lemma HitEnds(text: Units, query: Units, fold: Fold, idx: nat, start: nat, stop: nat, s: nat, end: nat)
    requires Hit(text, query, fold, idx, start) && stop == idx + |query|
    requires s < |text| && Locates(text, 0, |text|, fold, stop, s, s + Width(text, s))
    requires end == if s > start + Width(text, start) then s else start + Width(text, start)
    ensures EndsWell(text, query, fold, idx, start, end)
  {
    var first := start + Width(text, start);
    if s < start {
      NextBoundary(text, s, start);
      FoldedGrows(text, s + Width(text, s), start, fold);
    } else if s > start {
      NextBoundary(text, start, s);
    }
  }

  /** A hit that ends with the folded text. */
  lemma HitEndsLast(text: Units, query: Units, fold: Fold, idx: nat, start: nat)
    requires Hit(text, query, fold, idx, start) && idx + |query| >= |Folded(text, 0, |text|, fold)|
    ensures EndsWell(text, query, fold, idx, start, |text|)
  {
  }

  /** The span covers the whole hit exactly when the hit ends between two characters or inside
      the character it begins in. A hit that runs on into a later character and ends inside it
      loses that character. */
  lemma CoversExactly(text: Units, query: Units, fold: Fold, idx: nat, start: nat, end: nat)
    requires Hit(text, query, fold, idx, start) && EndsWell(text, query, fold, idx, start, end)
    ensures idx + |query| <= |Folded(text, 0, end, fold)|
       <==> || idx + |query| <= |Folded(text, 0, start + Width(text, start), fold)|
            || exists b :: Boundary(text, b) && |Folded(text, 0, b, fold)| == idx + |query|
  {
    var stop, first := idx + |query|, start + Width(text, start);
    NextBoundary(text, start, end);
    FoldedGrows(text, first, end, fold);
    if |Folded(text, 0, end, fold)| < stop {
      forall b | Boundary(text, b) ensures |Folded(text, 0, b, fold)| != stop {
        Between(text, fold, end, b);
      }
    }
  }

  /** A boundary is not between a boundary and the next one. */
  lemma Between(text: Units, fold: Fold, a: nat, b: nat)
    requires a < |text| && Boundary(text, a) && Boundary(text, a + Width(text, a)) && Boundary(text, b)
    ensures |Folded(text, 0, b, fold)| <= |Folded(text, 0, a, fold)|
         || |Folded(text, 0, a + Width(text, a), fold)| <= |Folded(text, 0, b, fold)|
  {
    if b <= a {
      FoldedGrows(text, b, a, fold);
    } else {
      NextBoundary(text, a, b);
      FoldedGrows(text, a + Width(text, a), b, fold);
    }
  }

  /** No character folds to nothing. */
  ghost predicate Keeps(fold: Fold) {
    forall c :: c != [] ==> fold(c) != []
  }

  lemma FoldedRises(text: Units, a: nat, b: nat, fold: Fold)
    requires Keeps(fold) && a < b <= |text| && Boundary(text, a) && Boundary(text, b)
    ensures |Folded(text, 0, a, fold)| < |Folded(text, 0, b, fold)|
  {
    ReachBetween(text, 0, a, b);
    FoldedJoin(text, 0, a, b, fold);
  }

  /** When no character folds to nothing, the span is determined: the first hit begins in one
      character only, and only one boundary ends well. */
  lemma SpanUnique(text: Units, query: Units, fold: Fold, a: Span, b: Span)
    requires Keeps(fold) && Highlights(text, query, fold, a) && Highlights(text, query, fold, b)
    ensures a == b
  {
    var idx :| Hit(text, query, fold, idx, |a.before|)
               && EndsWell(text, query, fold, idx, |a.before|, |a.before| + |a.match_|);
    var idy :| Hit(text, query, fold, idy, |b.before|)
               && EndsWell(text, query, fold, idy, |b.before|, |b.before| + |b.match_|);
    FirstUnique(Folded(text, 0, |text|, fold), query, idx, idy);
    StartUnique(text, query, fold, idx, |a.before|, |b.before|);
    EndUnique(text, query, fold, idx, |a.before|, |a.before| + |a.match_|, |b.before| + |b.match_|);
    SameCuts(text, a, b);
  }

  lemma SameCuts(text: Units, a: Span, b: Span)
    requires a.before + a.match_ + a.after == text && b.before + b.match_ + b.after == text
    requires |a.before| == |b.before| && |a.match_| == |b.match_|
    ensures a == b
  {
    SpanCut(text, a);
    SpanCut(text, b);
  }

  lemma SpanCut(text: Units, a: Span)
    requires a.before + a.match_ + a.after == text
    ensures a.before == text[..|a.before|] && a.match_ == text[|a.before|..|a.before| + |a.match_|]
    ensures a.after == text[|a.before| + |a.match_|..]
  {
  }

  lemma FirstUnique(text: Units, query: Units, i: nat, j: nat)
    requires FirstAt(text, query, i) && FirstAt(text, query, j)
    ensures i == j
  {
  }

  lemma StartUnique(text: Units, query: Units, fold: Fold, idx: nat, a: nat, b: nat)
    requires Hit(text, query, fold, idx, a) && Hit(text, query, fold, idx, b)
    ensures a == b
  {
    if a != b {
      Apart(text, fold, a, b);
      Apart(text, fold, b, a);
    }
  }

  lemma Apart(text: Units, fold: Fold, a: nat, b: nat)
    requires a < |text| && Boundary(text, a) && Boundary(text, a + Width(text, a)) && Boundary(text, b)
    ensures a < b ==> |Folded(text, 0, a + Width(text, a), fold)| <= |Folded(text, 0, b, fold)|
  {
    if a < b {
      NextBoundary(text, a, b);
      FoldedGrows(text, a + Width(text, a), b, fold);
    }
  }

  lemma EndUnique(text: Units, query: Units, fold: Fold, idx: nat, start: nat, a: nat, b: nat)
    requires Keeps(fold) && Hit(text, query, fold, idx, start)
    requires EndsWell(text, query, fold, idx, start, a) && EndsWell(text, query, fold, idx, start, b)
    ensures a == b
  {
    if a < b {
      EndLeast(text, query, fold, idx, start, a, b);
    } else if b < a {
      EndLeast(text, query, fold, idx, start, b, a);
    }
  }

  lemma EndLeast(text: Units, query: Units, fold: Fold, idx: nat, start: nat, a: nat, b: nat)
    requires Keeps(fold) && Hit(text, query, fold, idx, start) && a < b <= |text| && Boundary(text, b)
    requires EndsWell(text, query, fold, idx, start, a)
    ensures !EndsWell(text, query, fold, idx, start, b)
  {
    var first := start + Width(text, start);
    NextBoundary(text, start, a);
    FoldedRises(text, a, b, fold);
    FoldedGrows(text, first, a, fold);
    NextBoundary(text, a, b);
    Apart(text, fold, a, b);
  }

  /** Such a hit: `ai` in `aI` with a dotted capital I, whose fold is `i` and a combining dot. The
      span is `a` alone. */
  lemma LaterCharacterLost(fold: Fold)
    requires fold([0x61]) == [0x61] && fold([0x130]) == [0x69, 0x307]
    ensures var text, query := [0x61, 0x130], [0x61, 0x69];
            Highlights(text, query, fold, Span([], [0x61], [0x130]))
  {
    var text: Units, query: Units := [0x61, 0x130], [0x61, 0x69];
    assert text[0..1] == [0x61] && text[1..2] == [0x130];
    assert Folded(text, 2, 2, fold) == [];
    assert Folded(text, 1, 2, fold) == [0x69, 0x307];
    assert Folded(text, 0, 2, fold) == [0x61, 0x69, 0x307];
    assert Folded(text, 0, 1, fold) == [0x61] + Folded(text, 1, 1, fold) == [0x61];
    assert OccursAt(Folded(text, 0, 2, fold), query, 0);
    assert Reach(text, 1, 1) && Reach(text, 1, 2);
    assert Hit(text, query, fold, 0, 0);
    CutsHighlight(text, query, fold, 0, 0, 1);
    assert text[..0] == [] && text[1..] == [0x130];
  }

  /** When some boundary is where the hit ends, the span ends with the hit. */
  lemma EndsWithHit(text: Units, query: Units, fold: Fold, idx: nat, start: nat, end: nat, b: nat)
    requires Hit(text, query, fold, idx, start) && EndsWell(text, query, fold, idx, start, end)
    requires Boundary(text, b) && |Folded(text, 0, b, fold)| == idx + |query|
    ensures |Folded(text, 0, end, fold)| == idx + |query|
  {
    Between(text, fold, start, b);
    if end < |text| && Boundary(text, end + Width(text, end)) { Between(text, fold, end, b); }
  }

  /** When the hit ends between two characters, the highlighted piece folds to a text that ends
      in the query: from the first character of the hit exactly to the end of the hit. */
  lemma MatchFoldsToHit(text: Units, query: Units, fold: Fold, idx: nat, start: nat, end: nat, b: nat)
    requires Hit(text, query, fold, idx, start) && EndsWell(text, query, fold, idx, start, end)
    requires Boundary(text, b) && |Folded(text, 0, b, fold)| == idx + |query|
    ensures Reach(text, start, end)
    ensures var folded := Folded(text, start, end, fold);
            |query| <= |folded| && folded[|folded| - |query|..] == query
  {
    EndsWithHit(text, query, fold, idx, start, end, b);
    FoldedCut(text, start, end, fold);
    TailIsQuery(Folded(text, 0, start, fold), Folded(text, start, end, fold), Folded(text, end, |text|, fold),
                Folded(text, 0, |text|, fold), query, idx);
  }

  lemma FoldedCut(text: Units, a: nat, b: nat, fold: Fold)
    requires a <= b <= |text| && Boundary(text, a) && Boundary(text, b) && Boundary(text, |text|)
    ensures Reach(text, a, b) && Reach(text, b, |text|)
    ensures Folded(text, 0, b, fold) == Folded(text, 0, a, fold) + Folded(text, a, b, fold)
    ensures Folded(text, 0, |text|, fold)
         == Folded(text, 0, a, fold) + Folded(text, a, b, fold) + Folded(text, b, |text|, fold)
  {
    ReachBetween(text, 0, a, b);
    ReachBetween(text, 0, b, |text|);
    FoldedJoin(text, 0, a, b, fold);
    FoldedJoin(text, 0, b, |text|, fold);
  }

  lemma TailIsQuery(a: Units, b: Units, c: Units, lower: Units, query: Units, idx: nat)
    requires lower == (a + b) + c && |a| <= idx && idx + |query| == |a + b| && OccursAt(lower, query, idx)
    ensures |query| <= |b| && b[|b| - |query|..] == query
  {
  }

  // ---- The plain case ----

  /** One unit per character, and one unit for each of them in the fold. */
  ghost predicate Plain(text: Units, fold: Fold) {
    (forall i :: 0 <= i < |text| ==> !IsHigh(text[i])) && forall c :: |c| == 1 ==> |fold(c)| == 1
  }

  lemma {:induction false} PlainFolds(text: Units, fold: Fold, i: nat, j: nat)
    requires Plain(text, fold) && i <= j <= |text|
    ensures Reach(text, i, j) && |Folded(text, i, j, fold)| == j - i
    decreases j - i
  {
    if i == j {
    } else {
      PlainFolds(text, fold, i + 1, j);
    }
  }

  /** Then the span is the naive slice: the position of the hit in the folded text, and the
      query's own length. */
  lemma PlainSpan(text: Units, query: Units, fold: Fold, idx: nat, start: nat, end: nat)
    requires Plain(text, fold) && Hit(text, query, fold, idx, start) && EndsWell(text, query, fold, idx, start, end)
    ensures start == idx && end == idx + |query|
  {
    PlainFolds(text, fold, 0, start);
    PlainFolds(text, fold, 0, end);
    PlainFolds(text, fold, 0, start + Width(text, start));
    if end < |text| { PlainFolds(text, fold, 0, end + Width(text, end)); }
  }
}
