/** The two metric tables and the transaction that flushes a buffer of samples into them. */
module MetricsStore {
  import opened Prelude
  import opened Rollup

  /** How long raw rows and hourly rows are kept, in microseconds. */
  datatype Policy = Policy(rawRetention: int, rollupRetention: int)

  datatype Tables = Tables(raw: seq<Sample>, rollups: map<Key, Row>)

  // ----- grouping ----------------------------------------------------------

  /** The keys some sample falls under. */
  function Keys(samples: seq<Sample>): set<Key> {
    if samples == [] then {} else Keys(samples[..|samples| - 1]) + {KeyOf(samples[|samples| - 1])}
  }

  /** The samples of one hour, host and GPU, in the order they were taken. */
  function Bucket(samples: seq<Sample>, k: Key): (items: seq<Sample>)
    ensures items != [] <==> k in Keys(samples)
  {
    if samples == [] then []
    else
      var last := samples[|samples| - 1];
      var rest := Bucket(samples[..|samples| - 1], k);
      if KeyOf(last) == k then rest + [last] else rest
  }

  lemma {:induction false} BucketOfConcat(a: seq<Sample>, b: seq<Sample>, k: Key)
    ensures Bucket(a + b, k) == Bucket(a, k) + Bucket(b, k)
  {
    if b == [] {
      assert a + b == a;
    } else {
      BucketOfConcat(a, b[..|b| - 1], k);
      assert (a + b)[..|a + b| - 1] == a + b[..|b| - 1];
    }
  }

  lemma {:induction false} BucketOfOneMore(samples: seq<Sample>, last: Sample, k: Key)
    ensures Keys(samples + [last]) == Keys(samples) + {KeyOf(last)}
    ensures Bucket(samples + [last], k) == if KeyOf(last) == k then Bucket(samples, k) + [last] else Bucket(samples, k)
  {
  }

  ghost predicate Grouped(samples: seq<Sample>, groups: map<Key, seq<Sample>>, order: seq<Key>) {
    && (forall i, j :: 0 <= i < j < |order| ==> order[i] != order[j])
    && (forall k :: k in order <==> k in groups)
    && groups.Keys == Keys(samples)
    && (forall k :: k in groups ==> groups[k] == Bucket(samples, k))
  }

  lemma GroupedOneMore(samples: seq<Sample>, last: Sample, groups: map<Key, seq<Sample>>, order: seq<Key>)
    requires Grouped(samples, groups, order)
    ensures var k := KeyOf(last);
            if k in groups then Grouped(samples + [last], groups[k := groups[k] + [last]], order)
            else Grouped(samples + [last], groups[k := [last]], order + [k])
  {
    hide Bucket, Keys, KeyOf;
    forall x {
      BucketOfOneMore(samples, last, x);
    }
    var k := KeyOf(last);
    if k !in groups {
      assert Bucket(samples, k) == [];
      assert [] + [last] == [last];
    }
  }

  /** The dictionary of groups, with its keys in the order they were first seen. */
  method GroupSamples(samples: seq<Sample>) returns (groups: map<Key, seq<Sample>>, order: seq<Key>)
    ensures Grouped(samples, groups, order)
  {
    groups, order := map[], [];
    assert Grouped(samples[..0], groups, order);
    hide Bucket, Keys, KeyOf;
    for n := 0 to |samples|
      invariant Grouped(samples[..n], groups, order)
    {
      var sample := samples[n];
      var k := KeyOf(sample);
      GroupedOneMore(samples[..n], sample, groups, order);
      assert samples[..n + 1] == samples[..n] + [sample];
      if k in groups {
        groups := groups[k := groups[k] + [sample]];
      } else {
        groups := groups[k := [sample]];
        order := order + [k];
      }
    }
    assert samples[..|samples|] == samples;
  }

  /** One row per distinct key, so one INSERT never touches a stored row twice. */
  ghost predicate RowPerKey(cfg: Config, samples: seq<Sample>, rows: seq<Row>) {
    && (forall i, j :: 0 <= i < j < |rows| ==> rows[i].key != rows[j].key)
    && (forall i :: 0 <= i < |rows| ==>
          rows[i].key in Keys(samples) && rows[i] == Aggregate(cfg, rows[i].key, Bucket(samples, rows[i].key)))
    && (forall k :: k in Keys(samples) ==> exists i :: 0 <= i < |rows| && rows[i].key == k)
  }

  // ----- the same, on the fields of the samples -------------------------------------

  /** The sample was taken on the row's host and GPU, in the hour that begins at the row's start. */
  ghost predicate Belongs(s: Sample, k: Key) {
    && s.hostname == k.hostname && s.gpuIndex == k.gpuIndex
    && k.bucketStart <= s.sampledAt < k.bucketStart + 3_600_000_000
  }

  ghost predicate OnTheHour(k: Key) {
    k.bucketStart % 3_600_000_000 == 0
  }

  /** The positions of the samples that belong to the key. */
  ghost function Members(samples: seq<Sample>, k: Key): set<int> {
    set i | 0 <= i < |samples| && Belongs(samples[i], k)
  }

  lemma KeyOfExactly(s: Sample, k: Key)
    ensures KeyOf(s) == k <==> OnTheHour(k) && Belongs(s, k)
  {
    HourBucketExactly(s.sampledAt, k.bucketStart);
    assert OnTheHour(k) ==> HourBucket(k.bucketStart) == k.bucketStart;
    if OnTheHour(k) && Belongs(s, k) {
      SameHour(s.sampledAt, k.bucketStart);
    }
  }

  lemma SameHour(t: int, start: int)
    requires start % 3_600_000_000 == 0 && start <= t < start + 3_600_000_000
    ensures t / 3_600_000_000 == start / 3_600_000_000
  {
  }

  lemma {:induction false} KeysExactly(samples: seq<Sample>, k: Key)
    ensures k in Keys(samples) <==> OnTheHour(k) && Members(samples, k) != {}
  {
    hide OnTheHour, Belongs, KeyOf;
    if samples != [] {
      var n := |samples| - 1;
      KeysExactly(samples[..n], k);
      KeyOfExactly(samples[n], k);
      MembersOneMore(samples, k);
      BucketOfOneMore(samples[..n], samples[n], k);
      SplitLast(samples);
    }
  }

  lemma MembersOneMore(samples: seq<Sample>, k: Key)
    requires samples != []
    ensures var n := |samples| - 1;
            Members(samples, k) == Members(samples[..n], k) + if Belongs(samples[n], k) then {n} else {}
    ensures |Members(samples, k)|
         == |Members(samples[..|samples| - 1], k)| + if Belongs(samples[|samples| - 1], k) then 1 else 0
  {
    hide Belongs;
    var n := |samples| - 1;
    assert n !in Members(samples[..n], k);
  }

  lemma {:induction false} BucketCounts(samples: seq<Sample>, k: Key)
    requires OnTheHour(k)
    ensures |Bucket(samples, k)| == |Members(samples, k)|
  {
    if samples != [] {
      var n := |samples| - 1;
      BucketCounts(samples[..n], k);
      KeyOfExactly(samples[n], k);
      MembersOneMore(samples, k);
      hide Members, Belongs, KeyOf;
    }
  }

  /** Every sample belongs to exactly one of the rows, and a row counts exactly the samples that belong to it. */
  ghost predicate OneRowPerSample(samples: seq<Sample>, rows: seq<Row>) {
    && (forall s :: s in samples ==> exists i :: 0 <= i < |rows| && Belongs(s, rows[i].key))
    && (forall s, i, j :: s in samples && 0 <= i < j < |rows| ==> !(Belongs(s, rows[i].key) && Belongs(s, rows[j].key)))
    && (forall i :: 0 <= i < |rows| ==> OnTheHour(rows[i].key) && rows[i].count == |Members(samples, rows[i].key)|)
  }

  lemma RowsBySample(cfg: Config, samples: seq<Sample>, rows: seq<Row>)
    requires RowPerKey(cfg, samples, rows)
    ensures OneRowPerSample(samples, rows)
  {
    forall i | 0 <= i < |rows|
      ensures OnTheHour(rows[i].key) && rows[i].count == |Members(samples, rows[i].key)|
    {
      KeysExactly(samples, rows[i].key);
      BucketCounts(samples, rows[i].key);
      CountOfAggregate(cfg, rows[i].key, Bucket(samples, rows[i].key));
    }
    hide Aggregate, Bucket, Members;
    forall s | s in samples
      ensures exists i :: 0 <= i < |rows| && Belongs(s, rows[i].key)
      ensures forall i :: 0 <= i < |rows| && Belongs(s, rows[i].key) ==> rows[i].key == KeyOf(s)
    {
      KeyOfExactly(s, KeyOf(s));
      var n :| 0 <= n < |samples| && samples[n] == s;
      assert n in Members(samples, KeyOf(s)) by { MemberAt(samples, n, KeyOf(s)); }
      KeysExactly(samples, KeyOf(s));
      forall i | 0 <= i < |rows| && Belongs(s, rows[i].key)
        ensures rows[i].key == KeyOf(s)
      {
        KeyOfExactly(s, rows[i].key);
      }
    }
  }

  lemma MemberAt(samples: seq<Sample>, n: int, k: Key)
    requires 0 <= n < |samples| && Belongs(samples[n], k)
    ensures n in Members(samples, k)
  {
  }

  lemma CountOfAggregate(cfg: Config, k: Key, items: seq<Sample>)
    requires items != []
    ensures Aggregate(cfg, k, items).count == |items|
  {
  }

  method RollupValues(cfg: Config, samples: seq<Sample>) returns (rows: seq<Row>)
    ensures RowPerKey(cfg, samples, rows) && OneRowPerSample(samples, rows)
  {
    hide Aggregate, Bucket, Keys, KeyOf, OneRowPerSample;
    var groups, order := GroupSamples(samples);
    assert forall i :: 0 <= i < |order| ==> order[i] in order;
    rows := [];
    for n := 0 to |order|
      invariant |rows| == n
      invariant forall i :: 0 <= i < n ==> rows[i] == Aggregate(cfg, order[i], groups[order[i]])
    {
      rows := rows + [Aggregate(cfg, order[n], groups[order[n]])];
    }
    forall k | k in Keys(samples)
      ensures exists i :: 0 <= i < |rows| && rows[i].key == k
    {
      assert k in order;
      var i :| 0 <= i < |order| && order[i] == k;
      assert rows[i].key == k;
    }
    RowsBySample(cfg, samples, rows);
  }

  // ----- the transaction -------------------------------------------------------

  predicate WellKeyed(rollups: map<Key, Row>) {
    forall k :: k in rollups ==> rollups[k].key == k && rollups[k].count > 0
  }

  /** DELETE ... WHERE sampled_at < cutoff. */
  function KeepRecent(samples: seq<Sample>, cutoff: int): seq<Sample> {
    if samples == [] then []
    else
      var last := samples[|samples| - 1];
      var rest := KeepRecent(samples[..|samples| - 1], cutoff);
      if last.sampledAt >= cutoff then rest + [last] else rest
  }

  /** What the upsert leaves under one key. */
  function Upserted(cfg: Config, rollups: map<Key, Row>, samples: seq<Sample>, k: Key): (row: Row)
    requires WellKeyed(rollups) && (k in rollups || k in Keys(samples))
    ensures row.key == k && row.count > 0
  {
    if k !in Keys(samples) then rollups[k]
    else
      var row := Aggregate(cfg, k, Bucket(samples, k));
      if k in rollups then Merge(rollups[k], row) else row
  }

  /** The tables after one flush at database time `now`; an empty flush sends no SQL. */
  function Flushed(cfg: Config, policy: Policy, t: Tables, samples: seq<Sample>, now: int): (u: Tables)
    requires WellKeyed(t.rollups)
    ensures WellKeyed(u.rollups)
  {
    if samples == [] then t
    else
      Tables(
        KeepRecent(t.raw + samples, now - policy.rawRetention),
        map k | k in t.rollups.Keys + Keys(samples) && k.bucketStart >= now - policy.rollupRetention
              :: Upserted(cfg, t.rollups, samples, k))
  }

  lemma {:induction false} UpsertedRow(cfg: Config, rollups: map<Key, Row>, samples: seq<Sample>, row: Row)
    requires WellKeyed(rollups) && row.key in Keys(samples) && row.count > 0
    requires row == Aggregate(cfg, row.key, Bucket(samples, row.key))
    ensures (if row.key in rollups then Merge(rollups[row.key], row) else row) == Upserted(cfg, rollups, samples, row.key)
  {
  }

  lemma {:induction false} UntouchedRow(cfg: Config, rollups: map<Key, Row>, samples: seq<Sample>, k: Key)
    requires WellKeyed(rollups) && k in rollups && k !in Keys(samples)
    ensures Upserted(cfg, rollups, samples, k) == rollups[k]
  {
  }

  class Database {
    var raw: seq<Sample>
    var rollups: map<Key, Row>

    ghost predicate Valid()
      reads this
    {
      WellKeyed(rollups)
    }

    ghost function View(): Tables
      reads this
    {
      Tables(raw, rollups)
    }

    constructor ()
      ensures Valid() && View() == Tables([], map[])
    {
      raw, rollups := [], map[];
    }

    /** INSERT the raw rows, upsert the hourly rows, then trim both tables. */
    method Flush(cfg: Config, policy: Policy, samples: seq<Sample>, now: int)
      requires Valid()
      modifies this
      ensures Valid() && View() == Flushed(cfg, policy, old(View()), samples, now)
    {
      hide Upserted, RowPerKey;
      if samples == [] {
        return;
      }
      raw := raw + samples;
      var rows := RollupValues(cfg, samples);
      Upsert(cfg, samples, rows);
      raw := KeepRecent(raw, now - policy.rawRetention);
      rollups := map k | k in rollups && k.bucketStart >= now - policy.rollupRetention :: rollups[k];
    }

    /** INSERT ... ON CONFLICT DO UPDATE, row by row. */
    method Upsert(cfg: Config, ghost samples: seq<Sample>, rows: seq<Row>)
      requires Valid() && RowPerKey(cfg, samples, rows)
      modifies this`rollups
      ensures Valid() && rollups.Keys == old(rollups).Keys + Keys(samples)
      ensures forall k :: k in rollups ==> rollups[k] == Upserted(cfg, old(rollups), samples, k)
    {
      hide Aggregate, Merge, Bucket, Keys, Upserted;
      ghost var done: set<Key> := {};
      for n := 0 to |rows|
        invariant WellKeyed(rollups)
        invariant done == set i | 0 <= i < n :: rows[i].key
        invariant rollups.Keys == old(rollups).Keys + done
        invariant done <= Keys(samples)
        invariant forall k :: k in rollups ==>
          rollups[k] == if k in done then Upserted(cfg, old(rollups), samples, k) else old(rollups)[k]
      {
        var row := rows[n];
        assert row.key !in done;
        UpsertedRow(cfg, old(rollups), samples, row);
        rollups := rollups[row.key := if row.key in rollups then Merge(rollups[row.key], row) else row];
        done := done + {row.key};
      }
      assert done == Keys(samples);
      forall k | k in rollups && k !in done
        ensures rollups[k] == Upserted(cfg, old(rollups), samples, k)
      {
        UntouchedRow(cfg, old(rollups), samples, k);
      }
    }
  }

  // ----- retention ----------------------------------------------------------------

  lemma {:induction false} KeepRecentOfConcat(a: seq<Sample>, b: seq<Sample>, cutoff: int)
    ensures KeepRecent(a + b, cutoff) == KeepRecent(a, cutoff) + KeepRecent(b, cutoff)
  {
    if b == [] {
      assert a + b == a;
    } else {
      KeepRecentOfConcat(a, b[..|b| - 1], cutoff);
      assert (a + b)[..|a + b| - 1] == a + b[..|b| - 1];
    }
  }

  lemma {:induction false} KeepRecentOfOneMore(samples: seq<Sample>, last: Sample, cutoff: int)
    ensures KeepRecent(samples + [last], cutoff)
         == if last.sampledAt >= cutoff then KeepRecent(samples, cutoff) + [last] else KeepRecent(samples, cutoff)
  {
  }

  /** Trimming at a cutoff and later at a larger one is trimming at the larger one. */
  lemma {:induction false} KeepRecentTwice(samples: seq<Sample>, cutoff: int, later: int)
    requires cutoff <= later
    ensures KeepRecent(KeepRecent(samples, cutoff), later) == KeepRecent(samples, later)
  {
    if samples != [] {
      var front, last := samples[..|samples| - 1], samples[|samples| - 1];
      KeepRecentTwice(front, cutoff, later);
      KeepRecentOfOneMore(KeepRecent(front, cutoff), last, later);
    }
  }

  /** A bucket that starts inside the raw horizon loses none of its raw rows. */
  lemma {:induction false} BucketKept(samples: seq<Sample>, cutoff: int, k: Key)
    requires k.bucketStart >= cutoff
    ensures Bucket(KeepRecent(samples, cutoff), k) == Bucket(samples, k)
  {
    if samples != [] {
      var front, last := samples[..|samples| - 1], samples[|samples| - 1];
      BucketKept(front, cutoff, k);
      BucketOfOneMore(KeepRecent(front, cutoff), last, k);
      BucketOfOneMore(front, last, k);
      assert samples == front + [last];
    }
  }

  // ----- the tables as a function of the whole stream ----------------------------------

  /** The tables hold what one aggregation of the whole stream `all`, trimmed at `now`, would hold. */
  ghost predicate Tracks(cfg: Config, policy: Policy, t: Tables, all: seq<Sample>, now: int) {
    && t.raw == KeepRecent(all, now - policy.rawRetention)
    && (forall k :: k in t.rollups <==> k in Keys(all) && k.bucketStart >= now - policy.rollupRetention)
    && (forall k :: k in t.rollups ==> t.rollups[k].key == k && Summarises(cfg, t.rollups[k], Bucket(all, k)))
  }

  lemma {:induction false} KeysOfConcat(a: seq<Sample>, b: seq<Sample>)
    ensures Keys(a + b) == Keys(a) + Keys(b)
  {
    if b == [] {
      assert a + b == a;
    } else {
      KeysOfConcat(a, b[..|b| - 1]);
      assert (a + b)[..|a + b| - 1] == a + b[..|b| - 1];
    }
  }

  /** The upserted row summarises the old and the new samples of its key. */
  lemma {:induction false} UpsertSummarises(
    cfg: Config, rollups: map<Key, Row>, before: seq<Sample>, samples: seq<Sample>, k: Key)
    requires Rounds(cfg) && WellKeyed(rollups) && (k in rollups || k in Keys(samples))
    requires k in rollups <==> k in Keys(before)
    requires k in rollups ==> Summarises(cfg, rollups[k], Bucket(before, k))
    ensures Upserted(cfg, rollups, samples, k).key == k
    ensures Summarises(cfg, Upserted(cfg, rollups, samples, k), Bucket(before + samples, k))
  {
    BucketOfConcat(before, samples, k);
    if k in Keys(samples) {
      var items := Bucket(samples, k);
      AggregateSummarises(cfg, k, items);
      if k in rollups {
        MergeSummarises(cfg, rollups[k], Bucket(before, k), Aggregate(cfg, k, items), items);
      } else {
        assert Bucket(before, k) + items == items;
      }
    } else {
      assert Bucket(before, k) + Bucket(samples, k) == Bucket(before, k);
    }
  }

  /** One more flush, at a clock that has not gone back, keeps the tables equal to one aggregation. */
  lemma FlushTracks(
    cfg: Config, policy: Policy, t: Tables, all: seq<Sample>, now: int, samples: seq<Sample>, later: int)
    requires Rounds(cfg) && WellKeyed(t.rollups) && Tracks(cfg, policy, t, all, now)
    requires samples != [] && now <= later
    ensures Tracks(cfg, policy, Flushed(cfg, policy, t, samples, later), all + samples, later)
  {
    hide Summarises, Upserted, Bucket, Keys, KeepRecent;
    var u := Flushed(cfg, policy, t, samples, later);
    RawTracks(t.raw, all, now - policy.rawRetention, samples, later - policy.rawRetention);
    KeysOfConcat(all, samples);
    forall k | k in u.rollups
      ensures u.rollups[k].key == k && Summarises(cfg, u.rollups[k], Bucket(all + samples, k))
    {
      UpsertSummarises(cfg, t.rollups, all, samples, k);
    }
  }

  lemma {:induction false} RawTracks(raw: seq<Sample>, all: seq<Sample>, cutoff: int, samples: seq<Sample>, later: int)
    requires raw == KeepRecent(all, cutoff) && cutoff <= later
    ensures KeepRecent(raw + samples, later) == KeepRecent(all + samples, later)
  {
    KeepRecentOfConcat(raw, samples, later);
    KeepRecentTwice(all, cutoff, later);
    KeepRecentOfConcat(all, samples, later);
  }

  /** Inside both horizons an hourly row is a recount of the raw rows of its bucket, and there is one exactly if they are. */
  ghost predicate Consistent(cfg: Config, policy: Policy, t: Tables, now: int) {
    forall k: Key ::
      k.bucketStart >= now - policy.rawRetention && k.bucketStart >= now - policy.rollupRetention ==>
      && (k in t.rollups <==> k in Keys(t.raw))
      && (k in t.rollups ==> Summarises(cfg, t.rollups[k], Bucket(t.raw, k)))
  }

  /** Consistency needs no history: from any consistent tables, however filled, every flush keeps them consistent. */
  lemma FlushKeepsConsistent(cfg: Config, policy: Policy, t: Tables, now: int, samples: seq<Sample>, later: int)
    requires Rounds(cfg) && WellKeyed(t.rollups) && Consistent(cfg, policy, t, now)
    requires samples != [] && now <= later
    ensures Consistent(cfg, policy, Flushed(cfg, policy, t, samples, later), later)
  {
    hide Summarises, Upserted, Bucket, Keys, KeepRecent;
    var u := Flushed(cfg, policy, t, samples, later);
    KeysOfConcat(t.raw, samples);
    forall k: Key | k.bucketStart >= later - policy.rawRetention && k.bucketStart >= later - policy.rollupRetention
      ensures k in u.rollups <==> k in Keys(u.raw)
      ensures k in u.rollups ==> Summarises(cfg, u.rollups[k], Bucket(u.raw, k))
    {
      BucketKept(t.raw + samples, later - policy.rawRetention, k);
      if k in u.rollups {
        UpsertSummarises(cfg, t.rollups, t.raw, samples, k);
      }
    }
  }

  lemma TracksIsConsistent(cfg: Config, policy: Policy, t: Tables, all: seq<Sample>, now: int)
    requires Tracks(cfg, policy, t, all, now)
    ensures Consistent(cfg, policy, t, now)
  {
    hide Summarises, Bucket, Keys, KeepRecent;
    forall k: Key | k.bucketStart >= now - policy.rawRetention && k.bucketStart >= now - policy.rollupRetention
      ensures k in t.rollups <==> k in Keys(t.raw)
      ensures k in t.rollups ==> Summarises(cfg, t.rollups[k], Bucket(t.raw, k))
    {
      BucketKept(all, now - policy.rawRetention, k);
    }
  }

  // ----- every way of cutting a stream into flushes ------------------------------------

  /** What one flush sends, and the database time it runs at. */
  datatype Batch = Batch(samples: seq<Sample>, now: int)

  function Stream(batches: seq<Batch>): seq<Sample> {
    if batches == [] then [] else batches[0].samples + Stream(batches[1..])
  }

  /** The database clock does not go back, and no flush is empty. */
  predicate InOrder(batches: seq<Batch>, since: int) {
    batches == [] ||
    (batches[0].samples != [] && since <= batches[0].now && InOrder(batches[1..], batches[0].now))
  }

  function LastNow(batches: seq<Batch>, since: int): int {
    if batches == [] then since else LastNow(batches[1..], batches[0].now)
  }

  function FlushAll(cfg: Config, policy: Policy, t: Tables, batches: seq<Batch>): (u: Tables)
    requires WellKeyed(t.rollups)
    ensures WellKeyed(u.rollups)
    decreases |batches|
  {
    if batches == [] then t
    else FlushAll(cfg, policy, Flushed(cfg, policy, t, batches[0].samples, batches[0].now), batches[1..])
  }

  /** Any number of flushes leaves the aggregation of everything they sent. */
  lemma {:induction false} FlushAllTracks(
    cfg: Config, policy: Policy, t: Tables, all: seq<Sample>, since: int, batches: seq<Batch>)
    requires Rounds(cfg) && WellKeyed(t.rollups) && Tracks(cfg, policy, t, all, since) && InOrder(batches, since)
    ensures Tracks(cfg, policy, FlushAll(cfg, policy, t, batches), all + Stream(batches), LastNow(batches, since))
    decreases |batches|
  {
    if batches == [] {
      assert all + [] == all;
    } else {
      var b := batches[0];
      FlushTracks(cfg, policy, t, all, since, b.samples, b.now);
      FlushAllTracks(cfg, policy, Flushed(cfg, policy, t, b.samples, b.now), all + b.samples, b.now, batches[1..]);
      assert all + b.samples + Stream(batches[1..]) == all + Stream(batches);
    }
  }

  /**
   * However a stream is cut into flushes: with the same last database time, two cuttings leave the same raw rows and
   * the same hourly rows, which agree on everything but the averages.
   */
  lemma {:induction false} SplitIndependence(
    cfg: Config, policy: Policy, since: int, p: seq<Batch>, q: seq<Batch>, k: Key, m: Metric)
    requires Rounds(cfg) && InOrder(p, since) && InOrder(q, since)
    requires Stream(p) == Stream(q) && LastNow(p, since) == LastNow(q, since)
    ensures var t, u := FlushAll(cfg, policy, Tables([], map[]), p), FlushAll(cfg, policy, Tables([], map[]), q);
            && t.raw == u.raw
            && (k in t.rollups <==> k in u.rollups)
            && (k in t.rollups ==>
                  var r, s := t.rollups[k], u.rollups[k];
                  && r.gpuName == s.gpuName && r.count == s.count
                  && r.saturated == s.saturated && r.pressured == s.pressured
                  && r.maxTemperature == s.maxTemperature
                  && (m != Temperature ==> StatFor(r, m).max == StatFor(s, m).max))
  {
    var empty := Tables([], map[]);
    FlushAllTracks(cfg, policy, empty, [], since, p);
    FlushAllTracks(cfg, policy, empty, [], since, q);
    assert [] + Stream(p) == Stream(p);
    var t, u := FlushAll(cfg, policy, empty, p), FlushAll(cfg, policy, empty, q);
    assert k in t.rollups <==> k in u.rollups;
    if k in t.rollups {
      SummariesAgree(cfg, t.rollups[k], u.rollups[k], Bucket(Stream(p), k), m);
    }
  }

  // ----- the tables, on the fields of the stream -----------------------------------------

  /** Trimming keeps each sample as often as it was there, if it is recent enough, and not at all otherwise. */
  lemma {:induction false} KeptExactly(samples: seq<Sample>, cutoff: int, x: Sample)
    ensures multiset(KeepRecent(samples, cutoff))[x] == if x.sampledAt >= cutoff then multiset(samples)[x] else 0
  {
    if samples != [] {
      KeptExactly(samples[..|samples| - 1], cutoff, x);
      SplitLast(samples);
    }
  }

  /**
   * What any number of flushes leave, on the fields of the samples they sent: every raw row of a recent sample and no
   * other; an hourly row for exactly the hours inside the horizon, host by host and GPU by GPU, in which there were
   * samples; and in it the number of these samples.
   */
  lemma {:induction false} TablesExactly(cfg: Config, policy: Policy, since: int, batches: seq<Batch>, x: Sample, k: Key)
    requires Rounds(cfg) && InOrder(batches, since)
    ensures var t := FlushAll(cfg, policy, Tables([], map[]), batches);
            var all, now := Stream(batches), LastNow(batches, since);
            && multiset(t.raw)[x] == (if x.sampledAt >= now - policy.rawRetention then multiset(all)[x] else 0)
            && (k in t.rollups <==>
                  OnTheHour(k) && Members(all, k) != {} && k.bucketStart >= now - policy.rollupRetention)
            && (k in t.rollups ==> t.rollups[k].key == k && t.rollups[k].count == |Members(all, k)|)
  {
    hide Members, OnTheHour, KeepRecent, Summarises, Bucket, Keys;
    var all, now := Stream(batches), LastNow(batches, since);
    EmptyTracks(cfg, policy, since);
    FlushAllTracks(cfg, policy, Tables([], map[]), [], since, batches);
    assert [] + all == all;
    KeptExactly(all, now - policy.rawRetention, x);
    KeysExactly(all, k);
    if k in FlushAll(cfg, policy, Tables([], map[]), batches).rollups {
      BucketCounts(all, k);
      SummaryCounts(cfg, FlushAll(cfg, policy, Tables([], map[]), batches).rollups[k], Bucket(all, k));
    }
  }

  lemma EmptyTracks(cfg: Config, policy: Policy, now: int)
    ensures Tracks(cfg, policy, Tables([], map[]), [], now)
  {
  }

  lemma SummaryCounts(cfg: Config, row: Row, items: seq<Sample>)
    requires Summarises(cfg, row, items)
    ensures row.count == |items|
  {
  }
}
