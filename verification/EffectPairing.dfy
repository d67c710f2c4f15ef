/**
 Pairing persisted attempts into complete factorial cells, the main-effect and interaction
 contrasts computed from the pairs, and the order in which a report reads its attempts.
 */
module EffectPairing {
  import opened Prelude
  import opened Sorting
  import opened SignFlip
  import Resampling

  /** A factor level; a bool level is the number 0 or 1, with which it compares equal. */
  datatype Level = Text(text: string) | Number(number: int)

  datatype Factor = Factor(id: string, level: Level)

  datatype Metric = Metric(name: string, value: real)

  datatype AttemptRecord = AttemptRecord(
    attemptId: string,
    taskId: string,
    taskClusterId: string,
    scaffoldId: string,
    pairId: Option<string>,
    stress: bool,
    factors: seq<Factor>,
    success: bool,
    outcomes: seq<Metric>,
    exclusionReason: Option<string>)

  type Levels = seq<Level>

  // ----- Cells and buckets -----

  /** `dict(record.factors).get(factor)`; factor ids are unique within a record. */
  function LevelOf(factors: seq<Factor>, id: string): Option<Level> {
    if factors == [] then None
    else if factors[0].id == id then Some(factors[0].level)
    else LevelOf(factors[1..], id)
  }

  /** The levels of a record on the given factors, None when one of them is missing. */
  function CellOf(r: AttemptRecord, ids: seq<string>): Option<Levels> {
    if ids == [] then Some([])
    else
      var head, tail := LevelOf(r.factors, ids[0]), CellOf(r, ids[1..]);
      if head.Some? && tail.Some? then Some([head.value] + tail.value) else None
  }

  function Eligible(ids: seq<string>, needed: set<Levels>): AttemptRecord -> bool {
    (r: AttemptRecord) => r.pairId.Some? && CellOf(r, ids).Some? && CellOf(r, ids).value in needed
  }

  datatype Key = Key(pairId: string, taskId: string, taskClusterId: string, scaffoldId: string, stress: bool,
                     remaining: seq<Factor>)

  function Remaining(factors: seq<Factor>, ids: seq<string>): seq<Factor> {
    if factors == [] then []
    else (if factors[0].id in ids then [] else [factors[0]]) + Remaining(factors[1..], ids)
  }

  function KeyOf(r: AttemptRecord, ids: seq<string>): Key {
    Key(if r.pairId.Some? then r.pairId.value
      else "", r.taskId, r.taskClusterId, r.scaffoldId, r.stress, Remaining(r.factors, ids))
  }

  function HasKey(key: Key, ids: seq<string>): AttemptRecord -> bool {
    (r: AttemptRecord) => KeyOf(r, ids) == key
  }

  /** The records of one bucket, in input order. */
  function Bucket(records: seq<AttemptRecord>, key: Key, ids: seq<string>): seq<AttemptRecord> {
    Keep(HasKey(key, ids), records)
  }

  /** The bucket keys in order of first appearance. */
  function Keys(records: seq<AttemptRecord>, ids: seq<string>): (keys: seq<Key>)
    ensures Distinct(keys)
  {
    if records == [] then []
    else
      var before := Keys(records[..|records| - 1], ids);
      var key := KeyOf(records[|records| - 1], ids);
      if key in before then before else before + [key]
  }

  function KeysOf(records: seq<AttemptRecord>, ids: seq<string>): seq<Key> {
    seq(|records|, k requires 0 <= k < |records| => KeyOf(records[k], ids))
  }

  lemma {:induction false} KeyAppears(records: seq<AttemptRecord>, ids: seq<string>, key: Key)
    ensures key in Keys(records, ids) <==> key in KeysOf(records, ids)
  {
    if records != [] {
      var before, last := records[..|records| - 1], records[|records| - 1];
      KeyAppears(before, ids, key);
      assert KeysOf(records, ids) == KeysOf(before, ids) + [KeyOf(last, ids)];
    }
  }

  function CellsOf(group: seq<AttemptRecord>, ids: seq<string>): seq<Option<Levels>> {
    seq(|group|, k requires 0 <= k < |group| => CellOf(group[k], ids))
  }

  /** The two checks of `_pair_records` on one bucket. */
  predicate Complete(group: seq<AttemptRecord>, ids: seq<string>, needed: set<Levels>) {
    |group| == |needed| && OnlyNeeded(CellsOf(group, ids), needed) && AllNeeded(CellsOf(group, ids), needed) &&
      Distinct(CellsOf(group, ids))
  }

  predicate OnlyNeeded(cells: seq<Option<Levels>>, needed: set<Levels>) {
    forall k :: 0 <= k < |cells| ==> cells[k].Some? && cells[k].value in needed
  }

  predicate AllNeeded(cells: seq<Option<Levels>>, needed: set<Levels>) {
    forall cell :: cell in needed ==> Some(cell) in cells
  }

  predicate ByAttemptId(a: AttemptRecord, b: AttemptRecord) { StringLe(a.attemptId, b.attemptId) }

  function ByRendering(render: Key -> string): (Key, Key) -> bool {
    (a: Key, b: Key) => StringLe(render(a), render(b))
  }

  datatype Pair = Pair(cluster: string, group: seq<AttemptRecord>)

  datatype PairError = Unpaired | NoCompletePairs | MissingOutcome

  function PairOf(records: seq<AttemptRecord>, key: Key, ids: seq<string>): Pair {
    Pair(key.taskClusterId, Sort(Bucket(records, key, ids), ByAttemptId))
  }

  predicate AllComplete(eligible: seq<AttemptRecord>, keys: seq<Key>, ids: seq<string>, needed: set<Levels>) {
    forall k :: 0 <= k < |keys| ==> Complete(Bucket(eligible, keys[k], ids), ids, needed)
  }

  function PairsOf(eligible: seq<AttemptRecord>, keys: seq<Key>, ids: seq<string>): seq<Pair> {
    seq(|keys|, k requires 0 <= k < |keys| => PairOf(eligible, keys[k], ids))
  }

  /** The second loop of `_pair_records`, over the sorted keys. */
  function PairUp(eligible: seq<AttemptRecord>, keys: seq<Key>, ids: seq<string>, needed: set<Levels>)
    : Result<seq<Pair>, PairError> {
    if !AllComplete(eligible, keys, ids, needed) then Err(Unpaired)
    else if keys == [] then Err(NoCompletePairs)
    else Ok(PairsOf(eligible, keys, ids))
  }

  function SortedKeysOf(eligible: seq<AttemptRecord>, ids: seq<string>, render: Key -> string): seq<Key> {
    Sort(Keys(eligible, ids), ByRendering(render))
  }

  /** `_pair_records`; render stands for `str` on a bucket key. */
  function PairRecords(records: seq<AttemptRecord>, ids: seq<string>, needed: set<Levels>, render: Key -> string)
    : Result<seq<Pair>, PairError> {
    var eligible := Keep(Eligible(ids, needed), records);
    PairUp(eligible, SortedKeysOf(eligible, ids, render), ids, needed)
  }

  // ----- The program's loops -----

  /** What the dictionary of buckets holds after the eligible records seen so far. */
  ghost predicate Bucketed(seen: seq<AttemptRecord>, ids: seq<string>, order: seq<Key>,
      buckets: map<Key, seq<AttemptRecord>>) {
    && order == Keys(seen, ids)
    && (forall key :: key in order <==> key in buckets)
    && (forall key :: key in buckets ==> buckets[key] == Bucket(seen, key, ids))
    && (forall key :: key !in buckets ==> Bucket(seen, key, ids) == [])
  }

  lemma {:induction false} BucketSnoc(seen: seq<AttemptRecord>, r: AttemptRecord, key: Key, ids: seq<string>)
    ensures Bucket(seen + [r], key, ids) == Bucket(seen, key, ids) + (if KeyOf(r, ids) == key then [r] else [])
  {
    assert (seen + [r])[..|seen|] == seen;
  }

  lemma {:induction false} KeysSnoc(seen: seq<AttemptRecord>, r: AttemptRecord, ids: seq<string>)
    ensures Keys(seen + [r], ids) == if KeyOf(r, ids) in Keys(seen, ids) then Keys(seen, ids)
            else Keys(seen, ids) + [KeyOf(r, ids)]
  {
    assert (seen + [r])[..|seen|] == seen;
  }

  method AddToBucket(r: AttemptRecord, ids: seq<string>, order: seq<Key>, buckets: map<Key, seq<AttemptRecord>>,
      ghost seen: seq<AttemptRecord>)
    returns (order': seq<Key>, buckets': map<Key, seq<AttemptRecord>>)
    requires Bucketed(seen, ids, order, buckets)
    ensures Bucketed(seen + [r], ids, order', buckets')
  {
    var key := KeyOf(r, ids);
    order', buckets' := order, buckets;
    if key !in buckets' {
      buckets' := buckets'[key := []];
      order' := order' + [key];
    }
    assert buckets'[key] == Bucket(seen, key, ids);
    buckets' := buckets'[key := buckets'[key] + [r]];
    BucketedSnoc(seen, r, ids, order, buckets, order', buckets');
  }

  lemma {:induction false} BucketedSnoc(seen: seq<AttemptRecord>, r: AttemptRecord, ids: seq<string>,
      order: seq<Key>, buckets: map<Key, seq<AttemptRecord>>, order': seq<Key>,
      buckets': map<Key, seq<AttemptRecord>>)
    requires Bucketed(seen, ids, order, buckets)
    requires buckets' == buckets[KeyOf(r, ids) := Bucket(seen, KeyOf(r, ids), ids) + [r]]
    requires order' == if KeyOf(r, ids) in buckets then order else order + [KeyOf(r, ids)]
    ensures Bucketed(seen + [r], ids, order', buckets')
  {
    KeysSnoc(seen, r, ids);
    forall key ensures key in buckets' ==> buckets'[key] == Bucket(seen + [r], key, ids)
      ensures key !in buckets' ==> Bucket(seen + [r], key, ids) == [] {
      BucketSnoc(seen, r, key, ids);
    }
  }

  method FillBuckets(records: seq<AttemptRecord>, ids: seq<string>, needed: set<Levels>)
    returns (order: seq<Key>, buckets: map<Key, seq<AttemptRecord>>)
    ensures Bucketed(Keep(Eligible(ids, needed), records), ids, order, buckets)
  {
    order, buckets := [], map[];
    ghost var seen: seq<AttemptRecord> := [];
    for k := 0 to |records|
      invariant seen == Keep(Eligible(ids, needed), records[..k]) && Bucketed(seen, ids, order, buckets)
    {
      assert records[..k + 1][..k] == records[..k];
      var record := records[k];
      var cell := CellOf(record, ids);
      if record.pairId == None || cell == None || cell.value !in needed {
        continue;
      }
      order, buckets := AddToBucket(record, ids, order, buckets, seen);
      seen := seen + [record];
    }
    assert records[..|records|] == records;
  }

  method PairBuckets(keys: seq<Key>, buckets: map<Key, seq<AttemptRecord>>, ids: seq<string>, needed: set<Levels>,
      ghost eligible: seq<AttemptRecord>)
    returns (complete: bool, pairs: seq<Pair>)
    requires forall key :: key in keys ==> key in buckets && buckets[key] == Bucket(eligible, key, ids)
    ensures complete <==> AllComplete(eligible, keys, ids, needed)
    ensures complete ==> pairs == PairsOf(eligible, keys, ids)
  {
    pairs := [];
    for k := 0 to |keys|
      invariant |pairs| == k
      invariant forall i :: 0 <= i < k ==>
              Complete(Bucket(eligible, keys[i], ids), ids, needed) && pairs[i] == PairOf(eligible, keys[i], ids)
    {
      assert keys[k] in keys;
      var group := buckets[keys[k]];
      if !Complete(group, ids, needed) {
        return false, pairs;
      }
      pairs := pairs + [Pair(keys[k].taskClusterId, Sort(group, ByAttemptId))];
    }
    complete := true;
  }

  method ComputePairs(records: seq<AttemptRecord>, ids: seq<string>, needed: set<Levels>, render: Key -> string)
    returns (pairs: Result<seq<Pair>, PairError>)
    ensures pairs == PairRecords(records, ids, needed, render)
  {
    var order, buckets := FillBuckets(records, ids, needed);
    var keys := Sort(order, ByRendering(render));
    SortPermutes(order, ByRendering(render));
    var complete, result := PairBuckets(keys, buckets, ids, needed, Keep(Eligible(ids, needed), records));
    if !complete {
      return Err(Unpaired);
    }
    if result == [] {
      return Err(NoCompletePairs);
    }
    return Ok(result);
  }

  // ----- Either an error or a partition into complete cells -----

  function BucketSizes(records: seq<AttemptRecord>, keys: seq<Key>, ids: seq<string>): nat {
    if keys == [] then 0 else |Bucket(records, keys[0], ids)| + BucketSizes(records, keys[1..], ids)
  }

  lemma {:induction false} BucketSizesSnoc(records: seq<AttemptRecord>, r: AttemptRecord, keys: seq<Key>,
      ids: seq<string>)
    requires Distinct(keys)
    ensures BucketSizes(records + [r], keys, ids)
            == BucketSizes(records, keys, ids) + (if KeyOf(r, ids) in keys then 1 else 0)
  {
    if keys != [] {
      assert keys == [keys[0]] + keys[1..];
      BucketSnoc(records, r, keys[0], ids);
      BucketSizesSnoc(records, r, keys[1..], ids);
    }
  }

  /** The buckets hold every record exactly once. */
  lemma {:induction false} BucketsHoldEverything(records: seq<AttemptRecord>, keys: seq<Key>, ids: seq<string>)
    requires Distinct(keys) && forall k :: 0 <= k < |records| ==> KeyOf(records[k], ids) in keys
    ensures BucketSizes(records, keys, ids) == |records|
  {
    if records == [] {
      NoSizes(keys, ids);
    } else {
      var before, last := records[..|records| - 1], records[|records| - 1];
      assert records == before + [last];
      BucketsHoldEverything(before, keys, ids);
      BucketSizesSnoc(before, last, keys, ids);
    }
  }

  lemma {:induction false} NoSizes(keys: seq<Key>, ids: seq<string>)
    ensures BucketSizes([], keys, ids) == 0
  {
    if keys != [] { NoSizes(keys[1..], ids); }
  }

  lemma {:induction false} UniformSizes(records: seq<AttemptRecord>, keys: seq<Key>, ids: seq<string>, n: nat)
    requires forall k :: 0 <= k < |keys| ==> |Bucket(records, keys[k], ids)| == n
    ensures BucketSizes(records, keys, ids) == |keys| * n
  {
    if keys != [] {
      UniformSizes(records, keys[1..], ids, n);
      assert |keys| * n == n + (|keys| - 1) * n;
    }
  }

  lemma {:induction false} SortedKeys(records: seq<AttemptRecord>, ids: seq<string>, render: Key -> string)
    ensures var keys := Sort(Keys(records, ids), ByRendering(render));
            && Distinct(keys)
            && (forall k :: 0 <= k < |records| ==> KeyOf(records[k], ids) in keys)
            && (forall key :: key in keys ==> exists k :: 0 <= k < |records| && KeyOf(records[k], ids) == key)
  {
    var order := Keys(records, ids);
    SortPermutes(order, ByRendering(render));
    var keys := Sort(order, ByRendering(render));
    ElementsSize(order);
    ElementsSize(keys);
    assert Elements(order) == Elements(keys);
    forall k | 0 <= k < |records| ensures KeyOf(records[k], ids) in keys {
      assert KeysOf(records, ids)[k] == KeyOf(records[k], ids);
      KeyAppears(records, ids, KeyOf(records[k], ids));
    }
    forall key | key in keys ensures exists k :: 0 <= k < |records| && KeyOf(records[k], ids) == key {
      KeyAppears(records, ids, key);
      var k :| 0 <= k < |records| && KeysOf(records, ids)[k] == key;
    }
  }

  /** One record of a complete group for each needed cell. */
  lemma {:induction false} CompleteHasEachCell(group: seq<AttemptRecord>, ids: seq<string>, needed: set<Levels>,
      cell: Levels)
    returns (k: nat)
    requires Complete(group, ids, needed) && cell in needed
    ensures k < |group| && CellOf(group[k], ids) == Some(cell)
    ensures forall j :: 0 <= j < |group| && CellOf(group[j], ids) == Some(cell) ==> j == k
  {
    var cells := CellsOf(group, ids);
    assert Some(cell) in cells;
    k :| 0 <= k < |cells| && cells[k] == Some(cell);
    forall j | 0 <= j < |group| && CellOf(group[j], ids) == Some(cell) ensures j == k {
      assert cells[j] == cells[k];
    }
  }

  lemma {:induction false} CompleteForgetsOrder(group: seq<AttemptRecord>, other: seq<AttemptRecord>,
      ids: seq<string>, needed: set<Levels>)
    requires multiset(group) == multiset(other)
    ensures Complete(group, ids, needed) ==> Complete(other, ids, needed)
  {
    MultisetFacts(group, other);
    var f := (r: AttemptRecord) => CellOf(r, ids);
    assert MapSeq(f, group) == CellsOf(group, ids) && MapSeq(f, other) == CellsOf(other, ids);
    PermutationKeepsDistinct(f, group, other);
    MapForgetsOrder(f, group, other);
    MultisetFacts(CellsOf(group, ids), CellsOf(other, ids));
    if Complete(group, ids, needed) {
      forall k | 0 <= k < |other| ensures CellsOf(other, ids)[k].Some? && CellsOf(other, ids)[k].value in needed {
        assert CellsOf(other, ids)[k] in CellsOf(group, ids);
      }
    }
  }

  /**
   When pairing does not raise, its groups partition the eligible records: every group has one
   record for each needed cell and nothing else, groups never share a record, no eligible
   record is dropped, and the counts add up.
   */
  lemma {:induction false} PairsPartitionEligible(records: seq<AttemptRecord>, ids: seq<string>,
      needed: set<Levels>, render: Key -> string)
    requires PairRecords(records, ids, needed, render).Ok?
    ensures Partition(PairRecords(records, ids, needed, render).value, records, ids, needed)
  {
    var eligible := Keep(Eligible(ids, needed), records);
    var keys := SortedKeysOf(eligible, ids, render);
    KeepMembers(Eligible(ids, needed), records);
    SortedKeys(eligible, ids, render);
    KeyedGroups(eligible, keys, ids, needed, PairRecords(records, ids, needed, render).value);
    CollectedGroups(eligible, keys, ids, PairRecords(records, ids, needed, render).value);
    BucketsHoldEverything(eligible, keys, ids);
    UniformSizes(eligible, keys, ids, |needed|);
  }

  ghost predicate Partition(pairs: seq<Pair>, records: seq<AttemptRecord>, ids: seq<string>, needed: set<Levels>) {
    && pairs != []
    && (forall k :: 0 <= k < |pairs| ==> Complete(pairs[k].group, ids, needed))
    && (forall k, r :: 0 <= k < |pairs| && r in pairs[k].group ==>
          r in records && Eligible(ids, needed)(r) && r.taskClusterId == pairs[k].cluster)
    && (forall i, j, r :: 0 <= i < j < |pairs| && r in pairs[i].group ==> r !in pairs[j].group)
    && (forall r :: r in records && Eligible(ids, needed)(r) ==> exists k :: 0 <= k < |pairs| && r in pairs[k].group)
    && |Keep(Eligible(ids, needed), records)| == |pairs| * |needed|
  }

  /** Each group is complete and is what one key collects. */
  lemma {:induction false} KeyedGroups(eligible: seq<AttemptRecord>, keys: seq<Key>, ids: seq<string>,
      needed: set<Levels>, pairs: seq<Pair>)
    requires AllComplete(eligible, keys, ids, needed) && pairs == PairsOf(eligible, keys, ids)
    ensures forall k :: 0 <= k < |pairs| ==>
            Complete(pairs[k].group, ids, needed) && |Bucket(eligible, keys[k], ids)| == |needed|
    ensures Collects(pairs, keys, eligible, ids)
  {
    forall k | 0 <= k < |pairs|
      ensures Complete(pairs[k].group, ids, needed)
      ensures pairs[k].cluster == keys[k].taskClusterId
      ensures forall r :: r in pairs[k].group <==> r in eligible && KeyOf(r, ids) == keys[k]
    {
      GroupMembers(eligible, keys[k], ids, needed);
    }
  }

  ghost predicate Collects(pairs: seq<Pair>, keys: seq<Key>, eligible: seq<AttemptRecord>, ids: seq<string>) {
    && |pairs| == |keys|
    && forall k :: 0 <= k < |pairs| ==>
         && pairs[k].cluster == keys[k].taskClusterId
         && forall r :: r in pairs[k].group <==> r in eligible && KeyOf(r, ids) == keys[k]
  }

  /** Groups collected by distinct keys are disjoint and cover everything that has one of the keys. */
  lemma {:induction false} CollectedGroups(eligible: seq<AttemptRecord>, keys: seq<Key>, ids: seq<string>,
      pairs: seq<Pair>)
    requires Collects(pairs, keys, eligible, ids) && Distinct(keys)
    requires forall k :: 0 <= k < |eligible| ==> KeyOf(eligible[k], ids) in keys
    ensures forall k, r :: 0 <= k < |pairs| && r in pairs[k].group ==>
            r in eligible && r.taskClusterId == pairs[k].cluster
    ensures forall i, j, r :: 0 <= i < j < |pairs| && r in pairs[i].group ==> r !in pairs[j].group
    ensures forall r :: r in eligible ==> exists k :: 0 <= k < |pairs| && r in pairs[k].group
  {
    forall r | r in eligible ensures exists k :: 0 <= k < |pairs| && r in pairs[k].group {
      var m :| 0 <= m < |eligible| && eligible[m] == r;
      assert KeyOf(eligible[m], ids) in keys;
      var k :| 0 <= k < |keys| && keys[k] == KeyOf(r, ids);
      assert r in pairs[k].group;
    }
    forall i, j, r | 0 <= i < j < |pairs| && r in pairs[i].group ensures r !in pairs[j].group {
      assert KeyOf(r, ids) == keys[i] && keys[i] != keys[j];
    }
  }

  lemma {:induction false} GroupMembers(eligible: seq<AttemptRecord>, key: Key, ids: seq<string>, needed: set<Levels>)
    requires Complete(Bucket(eligible, key, ids), ids, needed)
    ensures Complete(PairOf(eligible, key, ids).group, ids, needed)
    ensures forall r :: r in PairOf(eligible, key, ids).group <==> r in eligible && KeyOf(r, ids) == key
  {
    var bucket := Bucket(eligible, key, ids);
    SortPermutes(bucket, ByAttemptId);
    CompleteForgetsOrder(bucket, Sort(bucket, ByAttemptId), ids, needed);
    KeepMembers(HasKey(key, ids), eligible);
  }

  /**
   Pairing raises exactly when there is nothing eligible or some eligible record's bucket is not a
   full set of cells.
   */
  lemma {:induction false} PairingRaisesExactly(records: seq<AttemptRecord>, ids: seq<string>, needed: set<Levels>,
      render: Key -> string)
    ensures var eligible := Keep(Eligible(ids, needed), records);
            && (PairRecords(records, ids, needed, render) == Err(NoCompletePairs) <==> eligible == [])
            && (PairRecords(records, ids, needed, render) == Err(Unpaired) <==>
                  exists k :: 0 <= k < |eligible| &&
                    !Complete(Bucket(eligible, KeyOf(eligible[k], ids), ids), ids, needed))
  {
    var eligible := Keep(Eligible(ids, needed), records);
    SortedKeys(eligible, ids, render);
    CompleteByRecord(eligible, SortedKeysOf(eligible, ids, render), ids, needed);
  }

  lemma {:induction false} CompleteByRecord(eligible: seq<AttemptRecord>, keys: seq<Key>, ids: seq<string>,
      needed: set<Levels>)
    requires forall k :: 0 <= k < |eligible| ==> KeyOf(eligible[k], ids) in keys
    requires forall key :: key in keys ==> exists k :: 0 <= k < |eligible| && KeyOf(eligible[k], ids) == key
    ensures keys == [] <==> eligible == []
    ensures !AllComplete(eligible, keys, ids, needed) <==>
            exists k :: 0 <= k < |eligible| && !Complete(Bucket(eligible, KeyOf(eligible[k], ids), ids), ids, needed)
  {
    if keys != [] { assert keys[0] in keys; }
    if eligible != [] { assert KeyOf(eligible[0], ids) in keys; }
    if !AllComplete(eligible, keys, ids, needed) {
      var k :| 0 <= k < |keys| && !Complete(Bucket(eligible, keys[k], ids), ids, needed);
      assert keys[k] in keys;
      var m :| 0 <= m < |eligible| && KeyOf(eligible[m], ids) == keys[k];
      assert !Complete(Bucket(eligible, KeyOf(eligible[m], ids), ids), ids, needed);
    }
    if m :| 0 <= m < |eligible| && !Complete(Bucket(eligible, KeyOf(eligible[m], ids), ids), ids, needed) {
      assert KeyOf(eligible[m], ids) in keys;
      var k :| 0 <= k < |keys| && keys[k] == KeyOf(eligible[m], ids);
      assert !Complete(Bucket(eligible, keys[k], ids), ids, needed);
    }
  }

  // ----- Contrasts -----

  datatype Outcome = SuccessOutcome | Continuous(metric: string)

  function MetricOf(outcomes: seq<Metric>, name: string): Option<real> {
    if outcomes == [] then None else if outcomes[0].name == name then Some(outcomes[0].value)
      else MetricOf(outcomes[1..], name)
  }

  function OutcomeOf(r: AttemptRecord, o: Outcome): Option<real> {
    match o
    case SuccessOutcome => Some(if r.success then 1.0 else 0.0)
    case Continuous(metric) => MetricOf(r.outcomes, metric)
  }

  /** `lookup[cell]` within one group. */
  function RecordAt(group: seq<AttemptRecord>, ids: seq<string>, cell: Levels): Option<AttemptRecord> {
    if group == [] then None
    else if CellOf(group[|group| - 1], ids) == Some(cell) then Some(group[|group| - 1])
    else RecordAt(group[..|group| - 1], ids, cell)
  }

  function ValueAt(group: seq<AttemptRecord>, ids: seq<string>, cell: Levels, o: Outcome): Option<real> {
    var r := RecordAt(group, ids, cell);
    if r.Some? then OutcomeOf(r.value, o) else None
  }

  function Minus(a: Option<real>, b: Option<real>): Option<real> {
    if a.Some? && b.Some? then Some(a.value - b.value) else None
  }

  datatype MainSpec = MainSpec(factorId: string, control: Level, treatment: Level, outcome: Outcome)

  function MainNeeded(spec: MainSpec): set<Levels> { {[spec.control], [spec.treatment]} }

  function MainDifference(spec: MainSpec): Pair -> Option<real> {
    (p: Pair) => Minus(ValueAt(p.group, [spec.factorId], [spec.treatment], spec.outcome),
                       ValueAt(p.group, [spec.factorId], [spec.control], spec.outcome))
  }

  datatype InteractionSpec = InteractionSpec(
    factorA: string, controlA: Level, treatmentA: Level,
    factorB: string, controlB: Level, treatmentB: Level, outcome: Outcome)

  function InteractionNeeded(s: InteractionSpec): set<Levels> {
    {[s.controlA, s.controlB], [s.treatmentA, s.controlB], [s.controlA, s.treatmentB], [s.treatmentA, s.treatmentB]}
  }

  /** The difference of differences (tt - ct) - (tc - cc). */
  function InteractionDifference(s: InteractionSpec): Pair -> Option<real> {
    (p: Pair) =>
      var ids := [s.factorA, s.factorB];
      Minus(Minus(ValueAt(p.group, ids, [s.treatmentA, s.treatmentB], s.outcome),
                  ValueAt(p.group, ids, [s.controlA, s.treatmentB], s.outcome)),
            Minus(ValueAt(p.group, ids, [s.treatmentA, s.controlB], s.outcome),
                  ValueAt(p.group, ids, [s.controlA, s.controlB], s.outcome)))
  }

  /** The clustered values of an effect, None when a record lacks the outcome. */
  function Contrast(pairs: seq<Pair>, difference: Pair -> Option<real>): Option<seq<Resampling.Observation>> {
    if pairs == [] then Some([])
    else
      var before, last := Contrast(pairs[..|pairs| - 1], difference), difference(pairs[|pairs| - 1]);
      if before.Some? && last.Some?
        then Some(before.value + [Resampling.Observation(pairs[|pairs| - 1].cluster, last.value)]) else None
  }

  function Effect(records: seq<AttemptRecord>, ids: seq<string>, needed: set<Levels>,
      difference: Pair -> Option<real>, render: Key -> string)
    : Result<seq<Resampling.Observation>, PairError>
  {
    match PairRecords(records, ids, needed, render)
    case Err(e) => Err(e)
    case Ok(pairs) =>
      var values := Contrast(pairs, difference); if values.Some? then Ok(values.value) else Err(MissingOutcome)
  }

  function MainEffect(records: seq<AttemptRecord>, spec: MainSpec, render: Key -> string)
    : Result<seq<Resampling.Observation>, PairError> {
    Effect(records, [spec.factorId], MainNeeded(spec), MainDifference(spec), render)
  }

  function InteractionEffect(records: seq<AttemptRecord>, spec: InteractionSpec, render: Key -> string)
    : Result<seq<Resampling.Observation>, PairError> {
    Effect(records, [spec.factorA, spec.factorB], InteractionNeeded(spec), InteractionDifference(spec), render)
  }

  function Negate(values: seq<Resampling.Observation>): seq<Resampling.Observation> {
    seq(|values|, k requires 0 <= k < |values| => Resampling.Observation(values[k].cluster, -values[k].value))
  }

  function SwapArms(spec: MainSpec): MainSpec { spec.(control := spec.treatment, treatment := spec.control) }

  lemma {:induction false} ContrastNegates(pairs: seq<Pair>, f: Pair -> Option<real>, g: Pair -> Option<real>)
    requires forall p :: (f(p).Some? <==> g(p).Some?) && (f(p).Some? ==> g(p).value == -f(p).value)
    ensures Contrast(pairs, f).Some? <==> Contrast(pairs, g).Some?
    ensures Contrast(pairs, f).Some? ==> Contrast(pairs, g).value == Negate(Contrast(pairs, f).value)
  {
    if pairs != [] {
      ContrastNegates(pairs[..|pairs| - 1], f, g);
      var last := pairs[|pairs| - 1];
      assert f(last).Some? <==> g(last).Some?;
    }
  }

  /** Swapping control and treatment fails alike, and otherwise negates every clustered value. */
  lemma {:induction false} SwappingArmsNegates(records: seq<AttemptRecord>, spec: MainSpec, render: Key -> string)
    ensures match MainEffect(records, spec, render)
            case Err(e) => MainEffect(records, SwapArms(spec), render) == Err(e)
            case Ok(values) => MainEffect(records, SwapArms(spec), render) == Ok(Negate(values))
  {
    var swapped := SwapArms(spec);
    assert MainNeeded(swapped) == MainNeeded(spec);
    var pairs := PairRecords(records, [spec.factorId], MainNeeded(spec), render);
    if pairs.Ok? {
      ContrastNegates(pairs.value, MainDifference(spec), MainDifference(swapped));
    }
  }

  lemma {:induction false} OppositeSums(xs: seq<real>, ys: seq<real>)
    requires |xs| == |ys| && forall k :: 0 <= k < |xs| ==> ys[k] == -xs[k]
    ensures Sum(ys) == -Sum(xs)
  {
    if xs != [] { OppositeSums(xs[1..], ys[1..]); }
  }

  lemma {:induction false} NegatedMean(values: seq<Resampling.Observation>)
    ensures Mean(MapSeq(Resampling.ValueOf, Negate(values))) == -Mean(MapSeq(Resampling.ValueOf, values))
  {
    var plain, negated := MapSeq(Resampling.ValueOf, values), MapSeq(Resampling.ValueOf, Negate(values));
    forall k | 0 <= k < |values| ensures negated[k] == -plain[k] {
      assert negated[k] == Resampling.ValueOf(Negate(values)[k]) && plain[k] == Resampling.ValueOf(values[k]);
    }
    OppositeSums(plain, negated);
    if values != [] { NegatedQuotient(Sum(plain), |plain| as real); }
  }

  lemma {:induction false} NegatedAppearances(values: seq<Resampling.Observation>)
    ensures Resampling.Appearances(Negate(values)) == Resampling.Appearances(values)
  {
    if values != [] {
      var before, last := values[..|values| - 1], values[|values| - 1];
      assert values == before + [last];
      NegatedAppearances(before);
      NegateSnoc(before, last);
      Resampling.AppearancesSnoc(before, last);
      Resampling.AppearancesSnoc(Negate(before), Resampling.Observation(last.cluster, -last.value));
    }
  }

  lemma {:induction false} NegateSnoc(values: seq<Resampling.Observation>, last: Resampling.Observation)
    ensures Negate(values + [last]) == Negate(values) + [Resampling.Observation(last.cluster, -last.value)]
  {
  }

  lemma {:induction false} NegatedGroup(values: seq<Resampling.Observation>, name: string)
    ensures Resampling.GroupOf(Negate(values), name) == Scale(-1, Resampling.GroupOf(values, name))
  {
    if values != [] {
      NegatedGroup(values[..|values| - 1], name);
      assert Negate(values)[..|values| - 1] == Negate(values[..|values| - 1]);
    }
  }

  /** Swapping the arms negates the estimate and leaves the sign-flip p-value as it was, exact or sampled. */
  lemma {:induction false} SwappingArmsKeepsTheTest(values: seq<Resampling.Observation>, permutations: nat,
      rng: (nat, nat) -> bool)
    ensures Mean(MapSeq(Resampling.ValueOf, Negate(values))) == -Mean(MapSeq(Resampling.ValueOf, values))
    ensures Resampling.NamesOf(Negate(values)) == Resampling.NamesOf(values)
    ensures Resampling.FlipPValue(Negate(values), permutations, rng) == Resampling.FlipPValue(values, permutations, rng)
  {
    NegatedMean(values);
    var names := Resampling.NamesOf(values);
    var groups := Resampling.GroupsFor(names, values);
    NegatedGroups(values);
    NegationInvariance(groups);
    MonteCarloNegationInvariance(groups, Resampling.CoinDraws(permutations, |groups|, rng));
  }

  lemma {:induction false} NegatedGroups(values: seq<Resampling.Observation>)
    ensures Resampling.NamesOf(Negate(values)) == Resampling.NamesOf(values)
    ensures var groups := Resampling.GroupsFor(Resampling.NamesOf(values), values);
            Resampling.GroupsFor(Resampling.NamesOf(values), Negate(values)) == Flip(Constant(-1, |groups|), groups)
  {
    NegatedAppearances(values);
    var names := Resampling.NamesOf(values);
    var groups := Resampling.GroupsFor(names, values);
    forall k | 0 <= k < |names|
      ensures Resampling.GroupsFor(names, Negate(values))[k] == Flip(Constant(-1, |groups|), groups)[k]
    {
      NegatedGroup(values, names[k]);
    }
  }

  // ----- Exchanging the two factors of an interaction -----

  function ExchangeFactors(s: InteractionSpec): InteractionSpec {
    InteractionSpec(s.factorB, s.controlB, s.treatmentB, s.factorA, s.controlA, s.treatmentA, s.outcome)
  }

  function Transpose(cell: Levels): Levels {
    if |cell| == 2 then [cell[1], cell[0]] else cell
  }

  lemma {:induction false} CellTransposes(r: AttemptRecord, a: string, b: string)
    ensures CellOf(r, [b, a]).Some? <==> CellOf(r, [a, b]).Some?
    ensures CellOf(r, [a, b]).Some? ==>
            |CellOf(r, [a, b]).value| == 2 && CellOf(r, [b, a]).value == Transpose(CellOf(r, [a, b]).value)
  {
    CellOfTwo(r, a, b);
    CellOfTwo(r, b, a);
  }

  lemma {:induction false} CellOfTwo(r: AttemptRecord, a: string, b: string)
    ensures CellOf(r, [a, b]) ==
            if LevelOf(r.factors, a).Some? && LevelOf(r.factors, b).Some?
            then Some([LevelOf(r.factors, a).value, LevelOf(r.factors, b).value]) else None
  {
    assert [a, b][1..] == [b] && [b][1..] == [];
    assert CellOf(r, []) == Some([]);
    if LevelOf(r.factors, b).Some? {
      var y := LevelOf(r.factors, b).value;
      assert [y] + [] == [y];
      assert CellOf(r, [b]) == Some([y]);
      if LevelOf(r.factors, a).Some? {
        assert [LevelOf(r.factors, a).value] + [y] == [LevelOf(r.factors, a).value, y];
      }
    }
  }

  lemma {:induction false} RemainingForgetsOrder(factors: seq<Factor>, a: string, b: string)
    ensures Remaining(factors, [a, b]) == Remaining(factors, [b, a])
  {
    if factors != [] { RemainingForgetsOrder(factors[1..], a, b); }
  }

  lemma {:induction false} KeepCongruent<T(!new)>(f: T -> bool, g: T -> bool, s: seq<T>)
    requires forall x :: x in s ==> f(x) == g(x)
    ensures Keep(f, s) == Keep(g, s)
  {
    if s != [] {
      assert s == s[..|s| - 1] + [s[|s| - 1]];
      KeepCongruent(f, g, s[..|s| - 1]);
    }
  }

  lemma {:induction false} KeysCongruent(records: seq<AttemptRecord>, a: string, b: string)
    ensures Keys(records, [a, b]) == Keys(records, [b, a])
  {
    if records != [] {
      KeysCongruent(records[..|records| - 1], a, b);
      RemainingForgetsOrder(records[|records| - 1].factors, a, b);
    }
  }

  lemma {:induction false} BucketCongruent(records: seq<AttemptRecord>, key: Key, a: string, b: string)
    ensures Bucket(records, key, [a, b]) == Bucket(records, key, [b, a])
  {
    forall r ensures HasKey(key, [a, b])(r) == HasKey(key, [b, a])(r) {
      RemainingForgetsOrder(r.factors, a, b);
    }
    KeepCongruent(HasKey(key, [a, b]), HasKey(key, [b, a]), records);
  }

  /** needed and other list the same cells, one factor order transposed into the other. */
  ghost predicate Transposed(needed: set<Levels>, other: set<Levels>) {
    && |needed| == |other|
    && (forall x :: x in needed ==> |x| == 2 && Transpose(x) in other)
    && (forall x :: x in other ==> |x| == 2 && Transpose(x) in needed)
  }

  ghost predicate Turned(cells: seq<Option<Levels>>, turned: seq<Option<Levels>>) {
    |cells| == |turned| && forall k :: 0 <= k < |cells| ==>
      cells[k].Some? && turned[k] == Some(Transpose(cells[k].value))
  }

  lemma {:induction false} CompleteTransposes(group: seq<AttemptRecord>, a: string, b: string, needed: set<Levels>,
      other: set<Levels>)
    requires Transposed(needed, other) && Complete(group, [a, b], needed)
    ensures Complete(group, [b, a], other)
  {
    var cells, turned := CellsOf(group, [a, b]), CellsOf(group, [b, a]);
    forall k | 0 <= k < |group| ensures cells[k].Some? && turned[k] == Some(Transpose(cells[k].value)) {
      CellTransposes(group[k], a, b);
    }
    TurnedCells(cells, turned, needed, other);
  }

  lemma {:induction false} TurnedCells(cells: seq<Option<Levels>>, turned: seq<Option<Levels>>, needed: set<Levels>,
      other: set<Levels>)
    requires Turned(cells, turned)
    ensures Transposed(needed, other) && OnlyNeeded(cells, needed) && AllNeeded(cells, needed) && Distinct(cells) ==>
              OnlyNeeded(turned, other) && AllNeeded(turned, other) && Distinct(turned)
  {
    if Transposed(needed, other) && OnlyNeeded(cells, needed) && AllNeeded(cells, needed) && Distinct(cells) {
      TurnedOnly(cells, turned, needed, other);
      TurnedAll(cells, turned, needed, other);
      TurnedDistinct(cells, turned);
    }
  }

  lemma {:induction false} TurnedOnly(cells: seq<Option<Levels>>, turned: seq<Option<Levels>>, needed: set<Levels>,
      other: set<Levels>)
    requires Turned(cells, turned) && OnlyNeeded(cells, needed) && forall x :: x in needed ==> Transpose(x) in other
    ensures OnlyNeeded(turned, other)
  {
  }

  lemma {:induction false} TurnedAll(cells: seq<Option<Levels>>, turned: seq<Option<Levels>>, needed: set<Levels>,
      other: set<Levels>)
    requires Turned(cells, turned) && AllNeeded(cells, needed) && forall x :: x in other ==> Transpose(x) in needed
    ensures AllNeeded(turned, other)
  {
    forall x | x in other ensures Some(x) in turned {
      var k :| 0 <= k < |cells| && cells[k] == Some(Transpose(x));
      TransposeTwice(x);
      assert turned[k] == Some(x);
    }
  }

  lemma {:induction false} TurnedDistinct(cells: seq<Option<Levels>>, turned: seq<Option<Levels>>)
    requires Turned(cells, turned) && Distinct(cells)
    ensures Distinct(turned)
  {
    forall i, j | 0 <= i < j < |turned| ensures turned[i] != turned[j] {
      assert cells[i] != cells[j];
      TransposeInjective(cells[i].value, cells[j].value);
    }
  }

  lemma {:induction false} TransposeInjective(x: Levels, y: Levels)
    ensures Transpose(x) == Transpose(y) ==> x == y
  {
    TransposeTwice(x);
    TransposeTwice(y);
  }

  lemma {:induction false} TransposeTwice(x: Levels)
    ensures Transpose(Transpose(x)) == x
  {
  }

  lemma {:induction false} InteractionCells(s: InteractionSpec)
    requires s.controlA != s.treatmentA && s.controlB != s.treatmentB
    ensures Transposed(InteractionNeeded(s), InteractionNeeded(ExchangeFactors(s)))
  {
    FourCells(s);
    FourCells(ExchangeFactors(s));
  }

  lemma {:induction false} FourCells(s: InteractionSpec)
    requires s.controlA != s.treatmentA && s.controlB != s.treatmentB
    ensures |InteractionNeeded(s)| == 4
  {
    var cc, tc, ct, tt := [s.controlA, s.controlB], [s.treatmentA, s.controlB], [s.controlA, s.treatmentB],
      [s.treatmentA, s.treatmentB];
    assert cc[0] != tc[0] && cc[1] != ct[1] && cc[0] != tt[0] && tc[0] != ct[0] && tc[1] != tt[1] && ct[0] != tt[0];
    assert InteractionNeeded(s) == {cc} + {tc} + {ct} + {tt};
  }

  lemma {:induction false} EligibleExchanges(r: AttemptRecord, a: string, b: string, needed: set<Levels>,
      other: set<Levels>)
    requires Transposed(needed, other)
    ensures Eligible([a, b], needed)(r) == Eligible([b, a], other)(r)
  {
    CellTransposes(r, a, b);
    if CellOf(r, [a, b]).Some? {
      TransposeTwice(CellOf(r, [a, b]).value);
    }
  }

  /** Exchanging the two factors changes neither the pairs nor their order. */
  lemma {:induction false} ExchangeKeepsPairs(records: seq<AttemptRecord>, s: InteractionSpec, render: Key -> string)
    requires s.controlA != s.treatmentA && s.controlB != s.treatmentB
    ensures PairRecords(records, [s.factorA, s.factorB], InteractionNeeded(s), render)
            == PairRecords(records, [s.factorB, s.factorA], InteractionNeeded(ExchangeFactors(s)), render)
  {
    var a, b := s.factorA, s.factorB;
    var needed, other := InteractionNeeded(s), InteractionNeeded(ExchangeFactors(s));
    InteractionCells(s);
    InteractionCells(ExchangeFactors(s));
    forall r ensures Eligible([a, b], needed)(r) == Eligible([b, a], other)(r) {
      EligibleExchanges(r, a, b, needed, other);
    }
    KeepCongruent(Eligible([a, b], needed), Eligible([b, a], other), records);
    var eligible := Keep(Eligible([a, b], needed), records);
    KeysCongruent(eligible, a, b);
    PairUpExchanges(eligible, SortedKeysOf(eligible, [a, b], render), a, b, needed, other);
  }

  lemma {:induction false} PairUpExchanges(eligible: seq<AttemptRecord>, keys: seq<Key>, a: string, b: string,
      needed: set<Levels>, other: set<Levels>)
    requires Transposed(needed, other) && Transposed(other, needed)
    ensures PairUp(eligible, keys, [a, b], needed) == PairUp(eligible, keys, [b, a], other)
  {
    forall k | 0 <= k < |keys|
      ensures PairOf(eligible, keys[k], [a, b]) == PairOf(eligible, keys[k], [b, a])
      ensures Complete(Bucket(eligible, keys[k], [a, b]), [a, b], needed)
              <==> Complete(Bucket(eligible, keys[k], [b, a]), [b, a], other)
    {
      BucketExchanges(eligible, keys[k], a, b, needed, other);
    }
    assert PairsOf(eligible, keys, [a, b]) == PairsOf(eligible, keys, [b, a]);
    assert AllComplete(eligible, keys, [a, b], needed) <==> AllComplete(eligible, keys, [b, a], other);
  }

  lemma {:induction false} BucketExchanges(eligible: seq<AttemptRecord>, key: Key, a: string, b: string,
      needed: set<Levels>, other: set<Levels>)
    requires Transposed(needed, other) && Transposed(other, needed)
    ensures Bucket(eligible, key, [a, b]) == Bucket(eligible, key, [b, a])
    ensures Complete(Bucket(eligible, key, [a, b]), [a, b], needed)
            <==> Complete(Bucket(eligible, key, [b, a]), [b, a], other)
  {
    BucketCongruent(eligible, key, a, b);
    var bucket := Bucket(eligible, key, [a, b]);
    if Complete(bucket, [a, b], needed) { CompleteTransposes(bucket, a, b, needed, other); }
    if Complete(bucket, [b, a], other) { CompleteTransposes(bucket, b, a, other, needed); }
  }

  lemma {:induction false} RecordAtTransposes(group: seq<AttemptRecord>, a: string, b: string, x: Level, y: Level)
    ensures RecordAt(group, [a, b], [x, y]) == RecordAt(group, [b, a], [y, x])
  {
    if group != [] {
      var last := group[|group| - 1];
      CellOfTwo(last, a, b);
      CellOfTwo(last, b, a);
      if CellOf(last, [a, b]).Some? {
        var p, q := LevelOf(last.factors, a).value, LevelOf(last.factors, b).value;
        assert [p, q] == [x, y]
          <==> p == x && q == y by { assert [p, q][0] == p && [p, q][1] == q && [x, y][0] == x && [x, y][1] == y; }
        assert [q, p] == [y, x]
          <==> p == x && q == y by { assert [q, p][0] == q && [q, p][1] == p && [y, x][0] == y && [y, x][1] == x; }
      }
      RecordAtTransposes(group[..|group| - 1], a, b, x, y);
    }
  }

  lemma {:induction false} ContrastCongruent(pairs: seq<Pair>, f: Pair -> Option<real>, g: Pair -> Option<real>)
    requires forall p :: f(p) == g(p)
    ensures Contrast(pairs, f) == Contrast(pairs, g)
  {
    if pairs != [] { ContrastCongruent(pairs[..|pairs| - 1], f, g); }
  }

  lemma {:induction false} DifferenceExchanges(s: InteractionSpec, p: Pair)
    ensures InteractionDifference(s)(p) == InteractionDifference(ExchangeFactors(s))(p)
  {
    var a, b := s.factorA, s.factorB;
    RecordAtTransposes(p.group, a, b, s.treatmentA, s.treatmentB);
    RecordAtTransposes(p.group, a, b, s.controlA, s.treatmentB);
    RecordAtTransposes(p.group, a, b, s.treatmentA, s.controlB);
    RecordAtTransposes(p.group, a, b, s.controlA, s.controlB);
  }

  /** An interaction is the same whichever factor is named first: same pairs, same values, same errors. */
  lemma {:induction false} ExchangingFactorsChangesNothing(records: seq<AttemptRecord>, s: InteractionSpec,
      render: Key -> string)
    requires s.controlA != s.treatmentA && s.controlB != s.treatmentB
    ensures InteractionEffect(records, ExchangeFactors(s), render) == InteractionEffect(records, s, render)
  {
    ExchangeKeepsPairs(records, s, render);
    forall p ensures InteractionDifference(s)(p) == InteractionDifference(ExchangeFactors(s))(p) {
      DifferenceExchanges(s, p);
    }
    var pairs := PairRecords(records, [s.factorA, s.factorB], InteractionNeeded(s), render);
    if pairs.Ok? {
      ContrastCongruent(pairs.value, InteractionDifference(s), InteractionDifference(ExchangeFactors(s)));
    }
  }

  // ----- The report does not depend on the order of the attempts -----

  function Included(attempts: seq<AttemptRecord>): seq<AttemptRecord> {
    Sort(Keep((r: AttemptRecord) => r.exclusionReason.None?, attempts), ByAttemptId)
  }

  datatype Exclusion = Exclusion(attemptId: string, reason: string)

  function ExclusionOf(r: AttemptRecord): Exclusion {
    Exclusion(r.attemptId, if r.exclusionReason.Some? then r.exclusionReason.value else "excluded")
  }

  predicate ExclusionLe(a: Exclusion, b: Exclusion) {
    if a.attemptId != b.attemptId then StringLe(a.attemptId, b.attemptId) else StringLe(a.reason, b.reason)
  }

  function Exclusions(attempts: seq<AttemptRecord>): seq<Exclusion> {
    Sort(MapSeq(ExclusionOf, Keep((r: AttemptRecord) => r.exclusionReason.Some?, attempts)), ExclusionLe)
  }

  /** `build_analysis_report`; analyze stands for everything it computes from its two ordered inputs. */
  function BuildReport<R>(analyze: (seq<AttemptRecord>, seq<Exclusion>) -> R, attempts: seq<AttemptRecord>): Option<R> {
    if Included(attempts) == [] then None else Some(analyze(Included(attempts), Exclusions(attempts)))
  }

  function AttemptIdOf(r: AttemptRecord): string { r.attemptId }

  lemma {:induction false} UniqueIdsSeparate(attempts: seq<AttemptRecord>, kept: seq<AttemptRecord>)
    requires Distinct(MapSeq(AttemptIdOf, attempts)) && forall r :: r in kept ==> r in attempts
    ensures Separates(kept, ByAttemptId)
  {
    forall x, y | x in kept && y in kept && ByAttemptId(x, y) && ByAttemptId(y, x) ensures x == y {
      StringLeTotal(x.attemptId, y.attemptId);
      assert x in attempts && y in attempts;
      var i :| 0 <= i < |attempts| && attempts[i] == x;
      var j :| 0 <= j < |attempts| && attempts[j] == y;
      assert MapSeq(AttemptIdOf, attempts)[i] == AttemptIdOf(x) && MapSeq(AttemptIdOf, attempts)[j] == AttemptIdOf(y);
    }
  }

  lemma {:induction false} IncludedForgetsOrder(s: seq<AttemptRecord>, t: seq<AttemptRecord>)
    requires multiset(s) == multiset(t) && Distinct(MapSeq(AttemptIdOf, s))
    ensures Included(s) == Included(t)
  {
    var included := (r: AttemptRecord) => r.exclusionReason.None?;
    KeepForgetsOrder(included, s, t);
    KeepMembers(included, s);
    UniqueIdsSeparate(s, Keep(included, s));
    StringLeIsOrder();
    assert TotalPreorder(ByAttemptId);
    SortForgetsOrder(Keep(included, s), Keep(included, t), ByAttemptId);
  }

  /** The included attempts are those without an exclusion reason, each as often as listed, by ascending id. */
  lemma {:induction false} IncludedExactly(attempts: seq<AttemptRecord>, r: AttemptRecord)
    ensures r in Included(attempts) <==> r in attempts && r.exclusionReason == None
    ensures |Included(attempts)| == Count((x: AttemptRecord) => x.exclusionReason == None, attempts)
    ensures forall i, j :: 0 <= i < j < |Included(attempts)| ==>
              StringLe(Included(attempts)[i].attemptId, Included(attempts)[j].attemptId)
  {
    var included := (x: AttemptRecord) => x.exclusionReason.None?;
    KeepMembers(included, attempts);
    KeepSize(included, attempts);
    SortPermutes(Keep(included, attempts), ByAttemptId);
    StringLeIsOrder();
    assert TotalPreorder(ByAttemptId);
    SortOrdered(Keep(included, attempts), ByAttemptId);
    var ordered := Included(attempts);
    forall i, j | 0 <= i < j < |ordered| ensures StringLe(ordered[i].attemptId, ordered[j].attemptId) {
      assert ByAttemptId(ordered[i], ordered[j]);
    }
    NoReasonCounts(attempts);
  }

  lemma {:induction false} NoReasonCounts(attempts: seq<AttemptRecord>)
    ensures Count((x: AttemptRecord) => x.exclusionReason.None?, attempts)
            == Count((x: AttemptRecord) => x.exclusionReason == None, attempts)
  {
    if attempts != [] { NoReasonCounts(attempts[1..]); }
  }

  /** The listed exclusions are the excluded attempts, each with its reason. */
  lemma {:induction false} ExclusionsExactly(attempts: seq<AttemptRecord>, e: Exclusion)
    ensures e in Exclusions(attempts)
            <==> exists r :: r in attempts && r.attemptId == e.attemptId && r.exclusionReason == Some(e.reason)
  {
    var excluded := (r: AttemptRecord) => r.exclusionReason.Some?;
    var kept := Keep(excluded, attempts);
    var mapped := MapSeq(ExclusionOf, kept);
    KeepMembers(excluded, attempts);
    SortPermutes(mapped, ExclusionLe);
    if e in mapped {
      var k :| 0 <= k < |mapped| && mapped[k] == e;
      assert mapped[k] == ExclusionOf(kept[k]) && kept[k] in kept;
    }
    if r :| r in attempts && r.attemptId == e.attemptId && r.exclusionReason == Some(e.reason) {
      assert r in kept;
      var k :| 0 <= k < |kept| && kept[k] == r;
      assert mapped[k] == ExclusionOf(kept[k]);
    }
  }

  lemma {:induction false} ExclusionOrder()
    ensures TotalPreorder(ExclusionLe)
    ensures forall a, b :: ExclusionLe(a, b) && ExclusionLe(b, a) ==> a == b
  {
    StringLeIsOrder();
  }

  lemma {:induction false} ExclusionsForgetOrder(s: seq<AttemptRecord>, t: seq<AttemptRecord>)
    requires multiset(s) == multiset(t)
    ensures Exclusions(s) == Exclusions(t)
  {
    var excluded := (r: AttemptRecord) => r.exclusionReason.Some?;
    KeepForgetsOrder(excluded, s, t);
    MapForgetsOrder(ExclusionOf, Keep(excluded, s), Keep(excluded, t));
    ExclusionOrder();
    SortForgetsOrder(MapSeq(ExclusionOf, Keep(excluded, s)), MapSeq(ExclusionOf, Keep(excluded, t)), ExclusionLe);
  }

  /** Listing the attempts in another order gives the same report, or the same refusal. */
  lemma {:induction false} ReportForgetsInputOrder<R>(analyze: (seq<AttemptRecord>, seq<Exclusion>) -> R,
      s: seq<AttemptRecord>, t: seq<AttemptRecord>)
    requires multiset(s) == multiset(t) && Distinct(MapSeq(AttemptIdOf, s))
    ensures BuildReport(analyze, s) == BuildReport(analyze, t)
  {
    IncludedForgetsOrder(s, t);
    ExclusionsForgetOrder(s, t);
  }
}
