/**
 * The corpus sampler `get_random_post_2007_subset`: records of the metadata
 * snapshot are filtered (published, new-style id, year 2007-2026) and each
 * of their category tags is routed to its first matching target category,
 * whose reservoir (algorithm R) it is offered to.
 *
 * The snapshot file is replaced by its parsed records, and the random
 * generator by a stream `rand` of raw draws: the n-th `random.randint(0,
 * seen - 1)` of a run is `rand(n) % seen`, so every sequence of in-range
 * draws is the output of some stream.
 */
module Sampler {
  import opened Wrappers
  import opened Strings

  /**
   * A record of the snapshot: the keys the sampler reads; `journalRef` is None
   * when the key is missing or null, and `summary` is the "abstract" key
   * (`abstract` is a Dafny keyword).
   */
  datatype Item = Item(
    id: string,
    authors: string,
    journalRef: Option<string>,
    title: string,
    summary: string,
    categories: string)

  /** A stored record: `year` is the text "20" and the id's year digits, `section` the paper's own tag. */
  datatype Sample = Sample(
    id: string,
    authors: string,
    journalRef: string,
    year: string,
    title: string,
    summary: string,
    section: string)

  // ---------------------------------------------------------------- filters

  /** `journal` is truthy and `str(journal).strip()` is not empty. */
  predicate HasJournalRef(item: Item) {
    item.journalRef.Some? && !AllSpace(item.journalRef.value)
  }

  /** `paper_id.split('.')[0]` */
  function IdPrefix(id: string): string {
    SplitOn(id, '.')[0]
  }

  /** `len(parts) >= 2 and parts[0].isdigit()`: a '.' and only digits before the first one. */
  predicate NewStyleId(id: string) {
    |SplitOn(id, '.')| >= 2 && IsDigits(IdPrefix(id))
  }

  /** `parts[0][:2]`: at most the first two characters. */
  function YearDigits(id: string): (r: string)
    ensures |r| <= 2 && StartsWith(IdPrefix(id), r)
  {
    var p := IdPrefix(id);
    if |p| <= 2 then p else p[..2]
  }

  /** `int(parts[0][:2])` */
  function YearValue(id: string): nat
    requires NewStyleId(id)
  {
    DigitsValue(YearDigits(id))
  }

  /** A record that passes all three filters, in the order the loop applies them. */
  predicate Eligible(item: Item) {
    && HasJournalRef(item)
    && NewStyleId(item.id)
    && 7 <= YearValue(item.id) <= 26
  }

  /** The dictionary stored for an eligible record offered under the tag `cat`. */
  function MakeSample(item: Item, cat: string): Sample
    requires item.journalRef.Some?
  {
    Sample(item.id, item.authors, item.journalRef.value, "20" + YearDigits(item.id), item.title, item.summary, cat)
  }

  /** The target the inner loop stops at: the first, in caller order, that the tag starts with. */
  function FirstTarget(cat: string, targets: seq<string>): (r: Option<string>)
    ensures r.Some? ==> r.value in targets && StartsWith(cat, r.value)
    ensures r.None? <==> forall t :: t in targets ==> !StartsWith(cat, t)
  {
    if targets == [] then None
    else if StartsWith(cat, targets[0]) then Some(targets[0])
    else FirstTarget(cat, targets[1..])
  }

  /** FirstTarget is the target at the first index whose prefix test succeeds. */
  lemma {:induction false} FirstTargetAt(cat: string, targets: seq<string>, i: int)
    requires 0 <= i < |targets| && StartsWith(cat, targets[i])
    requires forall j :: 0 <= j < i ==> !StartsWith(cat, targets[j])
    ensures FirstTarget(cat, targets) == Some(targets[i])
  {
    if i > 0 {
      FirstTargetAt(cat, targets[1..], i - 1);
    }
  }

  // ---------------------------------------------------------------- the reservoirs

  /** `buckets`, `counts_seen`, and how many draws the run has taken so far. */
  datatype State = State(buckets: map<string, seq<Sample>>, seen: map<string, nat>, draws: nat)

  /** Every target has a bucket and a counter. */
  predicate Tracks(st: State, targets: seq<string>) {
    forall t :: t in targets ==> t in st.buckets && t in st.seen
  }

  /** The dictionaries as the comprehensions create them: one empty bucket and a zero count per target. */
  function Init(targets: seq<string>): (st: State)
    ensures Tracks(st, targets)
  {
    State(map t | t in targets :: [], map t | t in targets :: 0, 0)
  }

  /**
   * One reservoir update for target `t`: count the record; append while the
   * bucket has room, otherwise draw `s` in [0, seen - 1] and overwrite
   * position `s` only when `s < samplesPerCat`.
   */
  function Offer(st: State, t: string, x: Sample, samplesPerCat: int, rand: nat -> nat): (r: State)
    requires t in st.buckets && t in st.seen
    ensures r.buckets.Keys == st.buckets.Keys && r.seen.Keys == st.seen.Keys
  {
    var seen := st.seen[t] + 1;
    var bucket := st.buckets[t];
    if |bucket| < samplesPerCat then
      State(st.buckets[t := bucket + [x]], st.seen[t := seen], st.draws)
    else
      var s := rand(st.draws) % seen;
      State(if s < samplesPerCat then st.buckets[t := bucket[s := x]] else st.buckets, st.seen[t := seen], st.draws + 1)
  }

  /** The loop over the tags of one eligible record. */
  function ProcessTags(st: State, tags: seq<string>, item: Item, targets: seq<string>, samplesPerCat: int, rand: nat -> nat): (r: State)
    requires Tracks(st, targets) && item.journalRef.Some?
    ensures Tracks(r, targets)
    decreases |tags|
  {
    if tags == [] then st
    else TagStep(ProcessTags(st, tags[..|tags| - 1], item, targets, samplesPerCat, rand), tags[|tags| - 1], item, targets, samplesPerCat, rand)
  }

  /** One tag of a record: offered to the first target it starts with, if any. */
  function TagStep(st: State, cat: string, item: Item, targets: seq<string>, samplesPerCat: int, rand: nat -> nat): (r: State)
    requires Tracks(st, targets) && item.journalRef.Some?
    ensures Tracks(r, targets)
  {
    match FirstTarget(cat, targets)
    case None => st
    case Some(t) => Offer(st, t, MakeSample(item, cat), samplesPerCat, rand)
  }

  /** One record: skipped unless eligible, otherwise its tags in order. */
  function ProcessItem(st: State, item: Item, targets: seq<string>, samplesPerCat: int, rand: nat -> nat): (r: State)
    requires Tracks(st, targets)
    ensures Tracks(r, targets)
  {
    if Eligible(item) then ProcessTags(st, Words(item.categories), item, targets, samplesPerCat, rand) else st
  }

  /** The loop over the records of the snapshot. */
  function ProcessItems(items: seq<Item>, targets: seq<string>, samplesPerCat: int, rand: nat -> nat): (r: State)
    ensures Tracks(r, targets)
  {
    if items == [] then Init(targets)
    else ProcessItem(ProcessItems(items[..|items| - 1], targets, samplesPerCat, rand), items[|items| - 1], targets, samplesPerCat, rand)
  }

  /** The keys of `{cat: [] for cat in target_categories}` in insertion order: first occurrences only. */
  function Distinct(targets: seq<string>): (r: seq<string>)
    ensures forall t :: t in r <==> t in targets
    ensures forall i, j :: 0 <= i < j < |r| ==> r[i] != r[j]
  {
    if targets == [] then []
    else
      var init := Distinct(targets[..|targets| - 1]);
      var t := targets[|targets| - 1];
      assert forall u :: u in targets <==> u in targets[..|targets| - 1] || u == t;
      if t in init then init else init + [t]
  }

  /** Some occurrence of `a` in `targets` comes before every occurrence of `b`. */
  predicate OccursBefore(targets: seq<string>, a: string, b: string) {
    exists p :: 0 <= p < |targets| && targets[p] == a && b !in targets[..p]
  }

  /** The keys keep the order of their first occurrences among the targets. */
  lemma {:induction false} DistinctOrder(targets: seq<string>)
    ensures forall i, j :: 0 <= i < j < |Distinct(targets)| ==> OccursBefore(targets, Distinct(targets)[i], Distinct(targets)[j])
  {
    if targets != [] {
      var n := |targets| - 1;
      var init := targets[..n];
      var d := Distinct(init);
      var t := targets[n];
      DistinctOrder(init);
      assert forall a, b :: 0 <= a < b < |d| ==> OccursBefore(init, d[a], d[b]);
      assert forall p :: 0 <= p < n ==> targets[..p] == init[..p] && targets[p] == init[p];
      var r := Distinct(targets);
      assert r == if t in d then d else d + [t];
      forall i, j | 0 <= i < j < |r| ensures OccursBefore(targets, r[i], r[j]) {
        if j < |d| {
          assert r[i] == d[i] && r[j] == d[j];
          assert OccursBefore(init, d[i], d[j]);
          var p :| 0 <= p < n && init[p] == d[i] && d[j] !in init[..p];
          assert targets[p] == r[i] && r[j] !in targets[..p];
        } else {
          assert r[i] == d[i] && r[j] == t && t !in init;
          assert d[i] in d;
          var p :| 0 <= p < n && init[p] == d[i];
          assert targets[..p] == init[..p];
          assert targets[p] == r[i] && r[j] !in targets[..p];
        }
      }
    }
  }

  /** `[paper for cat_list in buckets.values() for paper in cat_list]` over the given keys. */
  function Flatten(buckets: map<string, seq<Sample>>, keys: seq<string>): seq<Sample>
    requires forall t :: t in keys ==> t in buckets
  {
    if keys == [] then [] else Flatten(buckets, keys[..|keys| - 1]) + buckets[keys[|keys| - 1]]
  }

  /** What `get_random_post_2007_subset` returns. */
  function RandomSubset(items: seq<Item>, targets: seq<string>, samplesPerCat: int, rand: nat -> nat): seq<Sample> {
    var st := ProcessItems(items, targets, samplesPerCat, rand);
    Flatten(st.buckets, Distinct(targets))
  }

  // ---------------------------------------------------------------- the loop

  /** The reservoir update for one record filed under `targetCat`. */
  method Reservoir(
    buckets0: map<string, seq<Sample>>, countsSeen0: map<string, nat>, draws0: nat,
    targetCat: string, paper: Sample, samplesPerCat: int, rand: nat -> nat)
    returns (buckets: map<string, seq<Sample>>, countsSeen: map<string, nat>, draws: nat)
    requires targetCat in buckets0 && targetCat in countsSeen0
    ensures State(buckets, countsSeen, draws) == Offer(State(buckets0, countsSeen0, draws0), targetCat, paper, samplesPerCat, rand)
  {
    buckets, draws := buckets0, draws0;
    countsSeen := countsSeen0[targetCat := countsSeen0[targetCat] + 1];
    if |buckets[targetCat]| < samplesPerCat {
      buckets := buckets[targetCat := buckets[targetCat] + [paper]];
    } else {
      var s := rand(draws) % countsSeen[targetCat];
      draws := draws + 1;
      if s < samplesPerCat {
        buckets := buckets[targetCat := buckets[targetCat][s := paper]];
      }
    }
  }

  /** The loop over the targets for one tag, left at the first target the tag starts with. */
  method RouteTag(
    buckets0: map<string, seq<Sample>>, countsSeen0: map<string, nat>, draws0: nat,
    item: Item, cat: string, yearDigits: string,
    targetCategories: seq<string>, samplesPerCat: int, rand: nat -> nat)
    returns (buckets: map<string, seq<Sample>>, countsSeen: map<string, nat>, draws: nat)
    requires Tracks(State(buckets0, countsSeen0, draws0), targetCategories)
    requires item.journalRef.Some? && yearDigits == YearDigits(item.id)
    ensures State(buckets, countsSeen, draws)
      == TagStep(State(buckets0, countsSeen0, draws0), cat, item, targetCategories, samplesPerCat, rand)
  {
    buckets, countsSeen, draws := buckets0, countsSeen0, draws0;
    var i := 0;
    while i < |targetCategories|
      invariant 0 <= i <= |targetCategories|
      invariant forall j :: 0 <= j < i ==> !StartsWith(cat, targetCategories[j])
    {
      var targetCat := targetCategories[i];
      if StartsWith(cat, targetCat) {
        FirstTargetAt(cat, targetCategories, i);
        var paper := Sample(item.id, item.authors, item.journalRef.value, "20" + yearDigits, item.title, item.summary, cat);
        assert paper == MakeSample(item, cat);
        buckets, countsSeen, draws := Reservoir(buckets, countsSeen, draws, targetCat, paper, samplesPerCat, rand);
        return;
      }
      i := i + 1;
    }
    assert FirstTarget(cat, targetCategories) == None;
  }

  /** The loop over the tags of one eligible record. */
  method RouteTags(
    buckets0: map<string, seq<Sample>>, countsSeen0: map<string, nat>, draws0: nat,
    item: Item, paperCats: seq<string>, yearDigits: string,
    targetCategories: seq<string>, samplesPerCat: int, rand: nat -> nat)
    returns (buckets: map<string, seq<Sample>>, countsSeen: map<string, nat>, draws: nat)
    requires Tracks(State(buckets0, countsSeen0, draws0), targetCategories)
    requires item.journalRef.Some? && yearDigits == YearDigits(item.id)
    ensures State(buckets, countsSeen, draws)
      == ProcessTags(State(buckets0, countsSeen0, draws0), paperCats, item, targetCategories, samplesPerCat, rand)
  {
    buckets, countsSeen, draws := buckets0, countsSeen0, draws0;
    var c := 0;
    while c < |paperCats|
      invariant 0 <= c <= |paperCats|
      invariant State(buckets, countsSeen, draws)
        == ProcessTags(State(buckets0, countsSeen0, draws0), paperCats[..c], item, targetCategories, samplesPerCat, rand)
    {
      assert paperCats[..c + 1][..c] == paperCats[..c];
      buckets, countsSeen, draws := RouteTag(buckets, countsSeen, draws, item, paperCats[c], yearDigits, targetCategories, samplesPerCat, rand);
      c := c + 1;
    }
    assert paperCats[..c] == paperCats;
  }

  /** The default of `samples_per_cat`: the capacity of each bucket when the caller gives none. */
  const DefaultSamplesPerCat: int := 500

  /**
   * `get_random_post_2007_subset`, with the dictionaries updated in place as
   * the nested loops of the source do, the `break` leaving only the loop over
   * targets.
   */
  method GetRandomPost2007Subset(items: seq<Item>, targetCategories: seq<string>, samplesPerCat: int, rand: nat -> nat)
    returns (allData: seq<Sample>)
    ensures allData == RandomSubset(items, targetCategories, samplesPerCat, rand)
  {
    var buckets: map<string, seq<Sample>> := map t | t in targetCategories :: [];
    var countsSeen: map<string, nat> := map t | t in targetCategories :: 0;
    var draws: nat := 0;
    var n := 0;
    while n < |items|
      invariant 0 <= n <= |items|
      invariant State(buckets, countsSeen, draws) == ProcessItems(items[..n], targetCategories, samplesPerCat, rand)
    {
      assert items[..n + 1][..n] == items[..n];
      buckets, countsSeen, draws := ReadRecord(buckets, countsSeen, draws, items[n], targetCategories, samplesPerCat, rand);
      n := n + 1;
    }
    assert items[..n] == items;
    allData := CollectBuckets(buckets, Distinct(targetCategories));
  }

  /** The body of the loop over the snapshot: the three filters, then the tags of a record that passes them. */
  method ReadRecord(
    buckets0: map<string, seq<Sample>>, countsSeen0: map<string, nat>, draws0: nat,
    item: Item, targetCategories: seq<string>, samplesPerCat: int, rand: nat -> nat)
    returns (buckets: map<string, seq<Sample>>, countsSeen: map<string, nat>, draws: nat)
    requires Tracks(State(buckets0, countsSeen0, draws0), targetCategories)
    ensures State(buckets, countsSeen, draws)
      == ProcessItem(State(buckets0, countsSeen0, draws0), item, targetCategories, samplesPerCat, rand)
  {
    buckets, countsSeen, draws := buckets0, countsSeen0, draws0;
    var journal := item.journalRef;
    if journal.None? || AllSpace(journal.value) {
      return;
    }
    var parts := SplitOn(item.id, '.');
    if |parts| < 2 || !IsDigits(parts[0]) {
      return;
    }
    var yearDigits := if |parts[0]| <= 2 then parts[0] else parts[0][..2];
    var yearVal := DigitsValue(yearDigits);
    if !(7 <= yearVal <= 26) {
      return;
    }
    assert Eligible(item);
    var paperCats := Words(item.categories);
    buckets, countsSeen, draws := RouteTags(buckets, countsSeen, draws, item, paperCats, yearDigits, targetCategories, samplesPerCat, rand);
  }

  /** `[paper for cat_list in buckets.values() for paper in cat_list]`, the keys in insertion order. */
  method CollectBuckets(buckets: map<string, seq<Sample>>, keys: seq<string>) returns (allData: seq<Sample>)
    requires forall t :: t in keys ==> t in buckets
    ensures allData == Flatten(buckets, keys)
  {
    allData := [];
    var k := 0;
    while k < |keys|
      invariant 0 <= k <= |keys|
      invariant allData == Flatten(buckets, keys[..k])
    {
      assert keys[..k + 1][..k] == keys[..k];
      allData := allData + buckets[keys[k]];
      k := k + 1;
    }
    assert keys[..k] == keys;
  }

  // ---------------------------------------------------------------- filter properties

  /** An id without '.', such as "physics/0301001", is a legacy id and is excluded. */
  lemma {:induction false} LegacyIdExcluded(item: Item)
    requires '.' !in item.id
    ensures !NewStyleId(item.id) && !Eligible(item)
  {
    SplitOnFirst(item.id, '.');
  }

  /** An old-style id such as "physics/0301001" never reaches the buckets. */
  lemma PhysicsIdExcluded(item: Item)
    requires item.id == "physics/0301001"
    ensures !Eligible(item)
  {
    LegacyIdExcluded(item);
  }

  /** The id before the first '.' */
  lemma IdPrefixOf(prefix: string, rest: string)
    requires '.' !in prefix
    ensures IdPrefix(prefix + "." + rest) == prefix
  {
    assert prefix + "." + rest == prefix + ['.'] + rest;
    SplitOnPrefix(prefix, '.', rest);
  }

  lemma DigitsValueTwo(a: char, b: char)
    requires IsDigit(a) && IsDigit(b)
    ensures DigitsValue([a, b]) == 10 * DigitValue(a) + DigitValue(b)
  {
    assert [a, b][..1] == [a];
    assert [a][..0] == [];
    assert DigitsValue([a]) == DigitValue(a);
  }

  /** An id made of a run of digits, a '.', and anything: new style, with the first two digits as its year. */
  lemma NewStyleYear(id: string, prefix: string, rest: string)
    requires id == prefix + "." + rest && '.' !in prefix && IsDigits(prefix)
    ensures NewStyleId(id) && YearDigits(id) == (if |prefix| <= 2 then prefix else prefix[..2])
  {
    IdPrefixOf(prefix, rest);
    SplitOnFirst(id, '.');
    assert id[|prefix|] == '.';
  }

  /** "9901.0001" is a new-style id, but its year prefix 99 is outside [7, 26]: excluded. */
  lemma Year99Excluded(item: Item)
    requires item.id == "9901.0001"
    ensures NewStyleId(item.id) && YearValue(item.id) == 99 && !Eligible(item)
  {
    NewStyleYear(item.id, "9901", "0001");
    assert "9901"[..2] == ['9', '9'];
    DigitsValueTwo('9', '9');
  }

  /** "0704.0001" with a non-blank journal reference passes every filter, with year text "2007". */
  lemma Year07Included(item: Item)
    requires item.id == "0704.0001" && HasJournalRef(item)
    ensures Eligible(item) && YearValue(item.id) == 7 && MakeSample(item, "cs.AI").year == "2007"
  {
    NewStyleYear(item.id, "0704", "0001");
    assert "0704"[..2] == ['0', '7'];
    DigitsValueTwo('0', '7');
  }

  // ---------------------------------------------------------------- the reservoir step

  lemma UpdateMembers<T>(b: seq<T>, s: int, x: T)
    requires 0 <= s < |b|
    ensures forall y :: y in b[s := x] ==> y in b || y == x
  {
    forall y | y in b[s := x] ensures y in b || y == x {
      var j :| 0 <= j < |b| && b[s := x][j] == y;
      if j != s { assert y == b[j]; }
    }
  }

  /**
   * One reservoir update counts the record for `t` only; a bucket with room
   * grows by the record; a full bucket keeps its length and either stays as
   * it was or has one position below `samplesPerCat` overwritten by the
   * record, chosen by a draw in [0, seen - 1].
   */
  lemma OfferStep(st: State, t: string, x: Sample, samplesPerCat: int, rand: nat -> nat)
    requires t in st.buckets && t in st.seen
    ensures var r := Offer(st, t, x, samplesPerCat, rand);
      var b := st.buckets[t];
      && r.seen == st.seen[t := st.seen[t] + 1]
      && (forall u :: u in st.buckets && u != t ==> r.buckets[u] == st.buckets[u])
      && (|b| < samplesPerCat ==> r.buckets[t] == b + [x] && r.draws == st.draws)
      && (|b| >= samplesPerCat ==>
            var s := rand(st.draws) % (st.seen[t] + 1);
            && 0 <= s < st.seen[t] + 1
            && r.draws == st.draws + 1
            && |r.buckets[t]| == |b|
            && (if s < samplesPerCat then r.buckets[t] == b[s := x] else r.buckets[t] == b))
  {
  }

  // ---------------------------------------------------------------- bucket sizes

  function Min(a: int, b: int): int { if a < b then a else b }

  /** The capacity: `samples_per_cat`, or 0 when it is negative (no append ever happens then). */
  function Cap(samplesPerCat: int): nat { if samplesPerCat < 0 then 0 else samplesPerCat }

  /** Every bucket holds min(seen, capacity) records. */
  predicate Sized(st: State, targets: seq<string>, samplesPerCat: int) {
    && Tracks(st, targets)
    && forall t :: t in targets ==> |st.buckets[t]| == Min(st.seen[t], Cap(samplesPerCat))
  }

  lemma OfferSized(st: State, targets: seq<string>, t: string, x: Sample, samplesPerCat: int, rand: nat -> nat)
    requires Sized(st, targets, samplesPerCat) && t in targets
    ensures Sized(Offer(st, t, x, samplesPerCat, rand), targets, samplesPerCat)
  {
    var r := Offer(st, t, x, samplesPerCat, rand);
    forall u | u in targets ensures |r.buckets[u]| == Min(r.seen[u], Cap(samplesPerCat)) {
      if u == t {
        OfferStep(st, t, x, samplesPerCat, rand);
      }
    }
  }

  lemma {:induction false} ProcessTagsSized(st: State, tags: seq<string>, item: Item, targets: seq<string>, samplesPerCat: int, rand: nat -> nat)
    requires Sized(st, targets, samplesPerCat) && item.journalRef.Some?
    ensures Sized(ProcessTags(st, tags, item, targets, samplesPerCat, rand), targets, samplesPerCat)
    decreases |tags|
  {
    if tags != [] {
      var before := ProcessTags(st, tags[..|tags| - 1], item, targets, samplesPerCat, rand);
      ProcessTagsSized(st, tags[..|tags| - 1], item, targets, samplesPerCat, rand);
      var cat := tags[|tags| - 1];
      if FirstTarget(cat, targets).Some? {
        OfferSized(before, targets, FirstTarget(cat, targets).value, MakeSample(item, cat), samplesPerCat, rand);
      }
    }
  }

  /**
   * After any prefix of the snapshot, each target's bucket holds exactly
   * min(counts_seen[target], samples_per_cat) records, so never more than
   * `samples_per_cat`.
   */
  lemma {:induction false} BucketSizes(items: seq<Item>, targets: seq<string>, samplesPerCat: int, rand: nat -> nat)
    ensures var st := ProcessItems(items, targets, samplesPerCat, rand);
      forall t :: t in targets ==>
        |st.buckets[t]| == Min(st.seen[t], Cap(samplesPerCat)) && |st.buckets[t]| <= Cap(samplesPerCat)
  {
    if items != [] {
      var init := items[..|items| - 1];
      var item := items[|items| - 1];
      BucketSizes(init, targets, samplesPerCat, rand);
      if Eligible(item) {
        ProcessTagsSized(ProcessItems(init, targets, samplesPerCat, rand), Words(item.categories), item, targets, samplesPerCat, rand);
      }
    }
  }

  // ---------------------------------------------------------------- counts

  /** How many of the tags have `t` as their first matching target. */
  function TagHits(tags: seq<string>, targets: seq<string>, t: string): nat {
    if tags == [] then 0
    else TagHits(tags[..|tags| - 1], targets, t) + (if FirstTarget(tags[|tags| - 1], targets) == Some(t) then 1 else 0)
  }

  /** Over the eligible records, how many (record, tag) pairs are routed to `t`. */
  function Hits(items: seq<Item>, targets: seq<string>, t: string): nat {
    if items == [] then 0
    else
      var item := items[|items| - 1];
      Hits(items[..|items| - 1], targets, t) + (if Eligible(item) then TagHits(Words(item.categories), targets, t) else 0)
  }

  lemma {:induction false} ProcessTagsSeen(st: State, tags: seq<string>, item: Item, targets: seq<string>, samplesPerCat: int, rand: nat -> nat, t: string)
    requires Tracks(st, targets) && item.journalRef.Some? && t in targets
    ensures ProcessTags(st, tags, item, targets, samplesPerCat, rand).seen[t] == st.seen[t] + TagHits(tags, targets, t)
    decreases |tags|
  {
    if tags != [] {
      ProcessTagsSeen(st, tags[..|tags| - 1], item, targets, samplesPerCat, rand, t);
    }
  }

  /**
   * `counts_seen[t]` is the number of (eligible record, tag) pairs whose first
   * matching target is `t`: a record with several such tags is counted once
   * per tag.
   */
  lemma {:induction false} SeenCounts(items: seq<Item>, targets: seq<string>, samplesPerCat: int, rand: nat -> nat, t: string)
    requires t in targets
    ensures ProcessItems(items, targets, samplesPerCat, rand).seen[t] == Hits(items, targets, t)
  {
    if items != [] {
      var init := items[..|items| - 1];
      var item := items[|items| - 1];
      SeenCounts(init, targets, samplesPerCat, rand, t);
      if Eligible(item) {
        ProcessTagsSeen(ProcessItems(init, targets, samplesPerCat, rand), Words(item.categories), item, targets, samplesPerCat, rand, t);
      }
    }
  }

  /**
   * The loop's `break` leaves only the target loop: an eligible record with
   * two tags routed to the same target is counted twice and, while there is
   * room, stored twice, once per tag.
   */
  lemma RecordCountedPerTag(item: Item, c1: string, c2: string, targets: seq<string>, t: string, samplesPerCat: int, rand: nat -> nat)
    requires Eligible(item) && Words(item.categories) == [c1, c2]
    requires FirstTarget(c1, targets) == Some(t) && FirstTarget(c2, targets) == Some(t)
    requires samplesPerCat >= 2
    ensures var st := ProcessItem(Init(targets), item, targets, samplesPerCat, rand);
      st.seen[t] == 2 && st.buckets[t] == [MakeSample(item, c1), MakeSample(item, c2)]
  {
    assert t in targets;
    TwoTagsRouted(Init(targets), item, c1, c2, targets, t, samplesPerCat, rand);
  }

  lemma TwoTagsRouted(st: State, item: Item, c1: string, c2: string, targets: seq<string>, t: string, samplesPerCat: int, rand: nat -> nat)
    requires Tracks(st, targets) && item.journalRef.Some? && t in targets
    requires FirstTarget(c1, targets) == Some(t) && FirstTarget(c2, targets) == Some(t)
    requires |st.buckets[t]| + 2 <= samplesPerCat
    ensures var r := ProcessTags(st, [c1, c2], item, targets, samplesPerCat, rand);
      r.seen[t] == st.seen[t] + 2 && r.buckets[t] == st.buckets[t] + [MakeSample(item, c1), MakeSample(item, c2)]
  {
    ProcessTagsSnoc(st, [], c1, item, targets, samplesPerCat, rand);
    assert [] + [c1] == [c1];
    var st1 := ProcessTags(st, [c1], item, targets, samplesPerCat, rand);
    OfferStep(st, t, MakeSample(item, c1), samplesPerCat, rand);
    ProcessTagsSnoc(st, [c1], c2, item, targets, samplesPerCat, rand);
    assert [c1] + [c2] == [c1, c2];
    OfferStep(st1, t, MakeSample(item, c2), samplesPerCat, rand);
  }

  lemma ProcessTagsSnoc(st: State, tags: seq<string>, c: string, item: Item, targets: seq<string>, samplesPerCat: int, rand: nat -> nat)
    requires Tracks(st, targets) && item.journalRef.Some? && FirstTarget(c, targets).Some?
    ensures ProcessTags(st, tags + [c], item, targets, samplesPerCat, rand)
      == Offer(ProcessTags(st, tags, item, targets, samplesPerCat, rand), FirstTarget(c, targets).value, MakeSample(item, c), samplesPerCat, rand)
  {
    assert (tags + [c])[..|tags|] == tags;
  }

  // ---------------------------------------------------------------- provenance

  /** `x` is the dictionary built for an eligible record of `items` under one of its tags routed to `t`. */
  predicate SampledFrom(x: Sample, items: seq<Item>, targets: seq<string>, t: string) {
    exists item, cat ::
      && item in items && Eligible(item)
      && cat in Words(item.categories) && FirstTarget(cat, targets) == Some(t)
      && x == MakeSample(item, cat)
  }

  predicate Provenant(st: State, items: seq<Item>, targets: seq<string>) {
    && Tracks(st, targets)
    && forall t, x :: t in targets && x in st.buckets[t] ==> SampledFrom(x, items, targets, t)
  }

  lemma ProvenantWiden(st: State, items: seq<Item>, more: seq<Item>, targets: seq<string>)
    requires Provenant(st, items, targets)
    requires forall i :: i in items ==> i in more
    ensures Provenant(st, more, targets)
  {
    forall t, x | t in targets && x in st.buckets[t] ensures SampledFrom(x, more, targets, t) {
      var item, cat :| item in items && Eligible(item) && cat in Words(item.categories)
        && FirstTarget(cat, targets) == Some(t) && x == MakeSample(item, cat);
      assert item in more;
    }
  }

  lemma OfferProvenant(st: State, t: string, x: Sample, items: seq<Item>, targets: seq<string>, samplesPerCat: int, rand: nat -> nat)
    requires Provenant(st, items, targets) && t in targets && SampledFrom(x, items, targets, t)
    ensures Provenant(Offer(st, t, x, samplesPerCat, rand), items, targets)
  {
    var r := Offer(st, t, x, samplesPerCat, rand);
    var b := st.buckets[t];
    OfferStep(st, t, x, samplesPerCat, rand);
    if |b| >= samplesPerCat {
      var s := rand(st.draws) % (st.seen[t] + 1);
      if s < samplesPerCat {
        UpdateMembers(b, s, x);
      }
    }
    assert forall y :: y in r.buckets[t] ==> y in b || y == x;
  }

  lemma {:induction false} ProcessTagsProvenant(st: State, tags: seq<string>, item: Item, items: seq<Item>, targets: seq<string>, samplesPerCat: int, rand: nat -> nat)
    requires Provenant(st, items, targets) && item in items && Eligible(item)
    requires forall c :: c in tags ==> c in Words(item.categories)
    ensures Provenant(ProcessTags(st, tags, item, targets, samplesPerCat, rand), items, targets)
    decreases |tags|
  {
    if tags != [] {
      var init := tags[..|tags| - 1];
      assert forall c :: c in init ==> c in tags;
      ProcessTagsProvenant(st, init, item, items, targets, samplesPerCat, rand);
      var before := ProcessTags(st, init, item, targets, samplesPerCat, rand);
      var cat := tags[|tags| - 1];
      match FirstTarget(cat, targets)
      case None =>
      case Some(t) =>
        assert SampledFrom(MakeSample(item, cat), items, targets, t);
        OfferProvenant(before, t, MakeSample(item, cat), items, targets, samplesPerCat, rand);
    }
  }

  /**
   * Every stored record comes from an eligible record of the snapshot (so
   * never from one with a blank journal reference, a legacy id or a year
   * prefix outside [7, 26]), filed under one of its own tags whose first
   * matching target is the bucket's.
   */
  lemma {:induction false} StoredRecordsProvenance(items: seq<Item>, targets: seq<string>, samplesPerCat: int, rand: nat -> nat)
    ensures Provenant(ProcessItems(items, targets, samplesPerCat, rand), items, targets)
  {
    if items != [] {
      var init := items[..|items| - 1];
      var item := items[|items| - 1];
      StoredRecordsProvenance(init, targets, samplesPerCat, rand);
      var before := ProcessItems(init, targets, samplesPerCat, rand);
      ProvenantWiden(before, init, items, targets);
      if Eligible(item) {
        ProcessTagsProvenant(before, Words(item.categories), item, items, targets, samplesPerCat, rand);
      }
    }
  }

  /** A record that fails a filter changes nothing: no count, no bucket, no draw. */
  lemma IneligibleSkipped(items: seq<Item>, bad: Item, targets: seq<string>, samplesPerCat: int, rand: nat -> nat)
    requires !Eligible(bad)
    ensures ProcessItems(items + [bad], targets, samplesPerCat, rand) == ProcessItems(items, targets, samplesPerCat, rand)
  {
    assert (items + [bad])[..|items|] == items;
  }

  lemma {:induction false} FlattenMembers(buckets: map<string, seq<Sample>>, keys: seq<string>, x: Sample)
    requires forall t :: t in keys ==> t in buckets
    ensures x in Flatten(buckets, keys) <==> exists t :: t in keys && x in buckets[t]
  {
    if keys != [] {
      var init := keys[..|keys| - 1];
      FlattenMembers(buckets, init, x);
      assert forall t :: t in keys <==> t in init || t == keys[|keys| - 1];
    }
  }

  /**
   * The result holds exactly the records of the target buckets, each one
   * built from an eligible record under a tag routed to some target.
   */
  lemma RandomSubsetMembers(items: seq<Item>, targets: seq<string>, samplesPerCat: int, rand: nat -> nat, x: Sample)
    ensures var st := ProcessItems(items, targets, samplesPerCat, rand);
      x in RandomSubset(items, targets, samplesPerCat, rand) <==> exists t :: t in targets && x in st.buckets[t]
    ensures x in RandomSubset(items, targets, samplesPerCat, rand) ==>
      exists t :: t in targets && SampledFrom(x, items, targets, t)
  {
    var st := ProcessItems(items, targets, samplesPerCat, rand);
    FlattenMembers(st.buckets, Distinct(targets), x);
    StoredRecordsProvenance(items, targets, samplesPerCat, rand);
  }
}
