/**
 Filing texts in a key-value store, each under its own key, unless what is there already counts as
 open (the loop of runLinkCheck in web/lib/content-watch.ts, for any notion of an open entry).
 */
module Filing {
  type Entries = map<string, string>

  datatype Item = Item(key: string, text: string)

  // Whether a text counts as open under a key.
  type Open = (string, string) -> bool

  predicate IsOpen(open: Open, m: Entries, key: string) {
    key in m && open(key, m[key])
  }

  function File(open: Open, m: Entries, x: Item): Entries {
    if IsOpen(open, m, x.key) then m else m[x.key := x.text]
  }

  function FileAll(open: Open, m: Entries, xs: seq<Item>): Entries {
    if xs == [] then m else File(open, FileAll(open, m, xs[..|xs| - 1]), xs[|xs| - 1])
  }

  /** The same entry under a key, or none in both. */
  predicate Same(m: Entries, n: Entries, key: string) {
    (key in m <==> key in n) && (key in m ==> m[key] == n[key])
  }

  /** An open entry is never overwritten, and only the keys of the items are written at all. */
  lemma {:induction false} FileAllKeeps(open: Open, m: Entries, xs: seq<Item>, key: string)
    requires IsOpen(open, m, key) || forall i :: 0 <= i < |xs| ==> xs[i].key != key
    ensures Same(m, FileAll(open, m, xs), key)
  {
    if xs == [] {
    } else {
      FileAllKeeps(open, m, xs[..|xs| - 1], key);
    }
  }

  lemma {:induction false} FileAllJoin(open: Open, m: Entries, xs: seq<Item>, ys: seq<Item>)
    ensures FileAll(open, m, xs + ys) == FileAll(open, FileAll(open, m, xs), ys)
  {
    if ys == [] {
      assert xs + ys == xs;
    } else {
      var last := |ys| - 1;
      assert (xs + ys)[..|xs + ys| - 1] == xs + ys[..last] && (xs + ys)[|xs + ys| - 1] == ys[last];
      FileAllJoin(open, m, xs, ys[..last]);
    }
  }

  /** Items whose texts count as open under their keys. */
  predicate Opening(open: Open, xs: seq<Item>) {
    forall i :: 0 <= i < |xs| ==> open(xs[i].key, xs[i].text)
  }

  /** Under the key of an item is the entry that was open before, and otherwise the text of the
      first item with that key. */
  lemma FirstFiled(open: Open, m: Entries, xs: seq<Item>, i: nat)
    requires Opening(open, xs) && i < |xs|
    requires forall j :: 0 <= j < i ==> xs[j].key != xs[i].key
    ensures var n := FileAll(open, m, xs);
            IsOpen(open, n, xs[i].key)
            && n[xs[i].key] == if IsOpen(open, m, xs[i].key) then m[xs[i].key] else xs[i].text
  {
    var early, late := xs[..i + 1], xs[i + 1..];
    assert xs == early + late;
    FileAllJoin(open, m, early, late);
    assert early[..i] == xs[..i] && early[i] == xs[i];
    FileAllKeeps(open, m, xs[..i], xs[i].key);
    FileAllKeeps(open, FileAll(open, m, early), late, xs[i].key);
  }

  /** Afterwards there is an open entry under the key of every item. */
  lemma {:induction false} AllOpen(open: Open, m: Entries, xs: seq<Item>, i: nat)
    requires Opening(open, xs) && i < |xs|
    ensures IsOpen(open, FileAll(open, m, xs), xs[i].key)
  {
    if i == |xs| - 1 {
    } else {
      AllOpen(open, m, xs[..|xs| - 1], i);
    }
  }

  /** Items whose keys all hold open entries change nothing. */
  lemma {:induction false} NothingToFile(open: Open, m: Entries, xs: seq<Item>)
    requires forall i :: 0 <= i < |xs| ==> IsOpen(open, m, xs[i].key)
    ensures FileAll(open, m, xs) == m
  {
    if xs == [] {
    } else {
      NothingToFile(open, m, xs[..|xs| - 1]);
    }
  }

  // ---- Whole histories ----

  /** One run: a summary under a key of its own, and the items. */
  datatype Round = Round(summary: string, items: seq<Item>)

  function AfterRound(open: Open, last: string, m: Entries, r: Round): Entries {
    FileAll(open, m[last := r.summary], r.items)
  }

  function AfterRounds(open: Open, last: string, m: Entries, rs: seq<Round>): Entries {
    if rs == [] then m else AfterRound(open, last, AfterRounds(open, last, m, rs[..|rs| - 1]), rs[|rs| - 1])
  }

  /** Nothing counts as open under the key of the summary. */
  ghost predicate NeverOpen(open: Open, last: string) {
    forall text :: !open(last, text)
  }

  lemma RoundKeeps(open: Open, last: string, m: Entries, r: Round, key: string)
    requires NeverOpen(open, last) && IsOpen(open, m, key)
    ensures Same(m, AfterRound(open, last, m, r), key)
  {
    FileAllKeeps(open, m[last := r.summary], r.items, key);
  }

  /** An open entry survives every later run, character for character. */
  lemma {:induction false} EntriesSurvive(open: Open, last: string, m: Entries, rs: seq<Round>, key: string)
    requires NeverOpen(open, last) && IsOpen(open, m, key)
    ensures Same(m, AfterRounds(open, last, m, rs), key)
  {
    if rs == [] {
    } else {
      EntriesSurvive(open, last, m, rs[..|rs| - 1], key);
      RoundKeeps(open, last, AfterRounds(open, last, m, rs[..|rs| - 1]), rs[|rs| - 1], key);
    }
  }

  predicate AllOpening(open: Open, rs: seq<Round>) {
    forall i :: 0 <= i < |rs| ==> Opening(open, rs[i].items)
  }

  /** Every key that any run had an item for holds an open entry at the end. */
  lemma {:induction false} EveryItemOpen(open: Open, last: string, m: Entries, rs: seq<Round>, i: nat, k: nat)
    requires NeverOpen(open, last) && AllOpening(open, rs) && i < |rs| && k < |rs[i].items|
    ensures IsOpen(open, AfterRounds(open, last, m, rs), rs[i].items[k].key)
  {
    var n := |rs| - 1;
    var before := AfterRounds(open, last, m, rs[..n]);
    if i < n {
      EveryItemOpen(open, last, m, rs[..n], i, k);
      RoundKeeps(open, last, before, rs[n], rs[i].items[k].key);
    } else {
      AllOpen(open, before[last := rs[n].summary], rs[n].items, k);
    }
  }

  /** A run with no new key changes nothing but its summary. */
  lemma RepeatedRoundIdle(open: Open, last: string, m: Entries, rs: seq<Round>, again: Round)
    requires NeverOpen(open, last) && AllOpening(open, rs)
    requires forall j :: 0 <= j < |again.items| ==> Covered(rs, again.items[j].key)
    ensures var done := AfterRounds(open, last, m, rs);
            AfterRound(open, last, done, again) == done[last := again.summary]
  {
    var done := AfterRounds(open, last, m, rs);
    forall j | 0 <= j < |again.items| ensures IsOpen(open, done[last := again.summary], again.items[j].key) {
      var i, k :| 0 <= i < |rs| && 0 <= k < |rs[i].items| && rs[i].items[k].key == again.items[j].key;
      EveryItemOpen(open, last, m, rs, i, k);
    }
    NothingToFile(open, done[last := again.summary], again.items);
  }

  /** Some run had an item for a key. */
  ghost predicate Covered(rs: seq<Round>, key: string) {
    exists i, k :: 0 <= i < |rs| && 0 <= k < |rs[i].items| && rs[i].items[k].key == key
  }

  // ---- What can end up under a key ----

  /** Every open text under the key is good, so far as there is one. */
  predicate GoodAt(open: Open, m: Entries, key: string, good: string -> bool) {
    IsOpen(open, m, key) ==> good(m[key])
  }

  /** Every item with the key has a good text. */
  predicate GoodItems(xs: seq<Item>, key: string, good: string -> bool) {
    forall i :: 0 <= i < |xs| && xs[i].key == key ==> good(xs[i].text)
  }

  lemma {:induction false} FileAllGood(open: Open, m: Entries, xs: seq<Item>, key: string, good: string -> bool)
    requires GoodAt(open, m, key, good) && GoodItems(xs, key, good)
    ensures GoodAt(open, FileAll(open, m, xs), key, good)
  {
    if xs == [] {
    } else {
      FileAllGood(open, m, xs[..|xs| - 1], key, good);
    }
  }

  /** Only what was open before or what some run had for the key is open under it at the end. */
  lemma {:induction false} EntriesGood(
    open: Open, last: string, m: Entries, rs: seq<Round>, key: string, good: string -> bool)
    requires key != last && GoodAt(open, m, key, good)
    requires forall i :: 0 <= i < |rs| ==> GoodItems(rs[i].items, key, good)
    ensures GoodAt(open, AfterRounds(open, last, m, rs), key, good)
  {
    if rs == [] {
    } else {
      var n := |rs| - 1;
      EntriesGood(open, last, m, rs[..n], key, good);
      FileAllGood(open, AfterRounds(open, last, m, rs[..n])[last := rs[n].summary], rs[n].items, key, good);
    }
  }
}
