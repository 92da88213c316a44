/**
 * The shared state that `Txn::commit_at` works against: the txns shard (one
 * versioned, append-only log whose `upper` is advanced only by
 * compare-and-append) and the data shards' batch storage.
 *
 * Timestamps are `u64` in the source; here they are naturals and
 * `step_forward` is `t + 1`.
 */
module TxnsLog {
  import opened Results

  type Ts = nat
  type ShardId = nat
  /** The transmittable descriptor of a batch written to a data shard (`batch_raw`). */
  type BatchId = nat

  function StepForward(t: Ts): (r: Ts)
    ensures t < r
  {
    t + 1
  }

  /** `TxnsEntry::Append(data_id, batch_raw)`: the unit of record in the txns shard. */
  datatype TxnsEntry = Append(shard: ShardId, batch: BatchId)

  /** One update of the txns shard: an entry at a timestamp with a multiplicity (+1 append, -1 retract). */
  datatype Record = Record(entry: TxnsEntry, ts: Ts, diff: int)

  /** A staged write `(key, val, diff)`. */
  datatype Update<K, V> = Update(key: K, val: V, diff: int)

  /** A write as added to a batch builder, with its timestamp. */
  datatype TimedUpdate<K, V> = TimedUpdate(key: K, val: V, ts: Ts, diff: int)

  /** A finished, immutable batch of one data shard with its `[lower, upper)` bounds. */
  datatype Batch<K, V> = Batch(shard: ShardId, updates: seq<TimedUpdate<K, V>>, lower: Ts, upper: Ts)

  /** The updates of one shard, each stamped with `ts` (the `batch.add(k, v, &commit_ts, d)` calls). */
  function Stamp<K, V>(updates: seq<Update<K, V>>, ts: Ts): (r: seq<TimedUpdate<K, V>>)
    ensures |r| == |updates|
    ensures forall i :: 0 <= i < |r| ==>
              r[i].ts == ts && r[i].key == updates[i].key && r[i].val == updates[i].val && r[i].diff == updates[i].diff
  {
    if updates == [] then []
    else [TimedUpdate(updates[0].key, updates[0].val, ts, updates[0].diff)] + Stamp(updates[1..], ts)
  }

  /** Every entry of `entries` as a record at `ts` with multiplicity `diff`. */
  function Records(entries: seq<TxnsEntry>, ts: Ts, diff: int): (r: seq<Record>)
    ensures |r| == |entries|
    ensures forall i :: 0 <= i < |r| ==> r[i].entry == entries[i] && r[i].ts == ts && r[i].diff == diff
  {
    if entries == [] then [] else [Record(entries[0], ts, diff)] + Records(entries[1..], ts, diff)
  }

  /** The record set of one commit attempt: +1 per appended batch, -1 per retraction, all at `ts`. */
  function CommitRecords(appends: seq<TxnsEntry>, retractions: seq<TxnsEntry>, ts: Ts): (r: seq<Record>)
    ensures |r| == |appends| + |retractions|
    ensures forall i :: 0 <= i < |appends| ==> r[i] == Record(appends[i], ts, 1)
    ensures forall j :: 0 <= j < |retractions| ==> r[|appends| + j] == Record(retractions[j], ts, -1)
  {
    Records(appends, ts, 1) + Records(retractions, ts, -1)
  }

  /** Every record of `log` lies strictly below `upper`. */
  predicate Below(log: seq<Record>, upper: Ts)
  {
    forall i :: 0 <= i < |log| ==> log[i].ts < upper
  }

  predicate Distinct<T(==)>(s: seq<T>)
  {
    forall i, j :: 0 <= i < j < |s| ==> s[i] != s[j]
  }

  /** The net multiplicity of `e` in `log`: appends minus retractions. */
  function Count(log: seq<Record>, e: TxnsEntry): int
  {
    if log == [] then 0
    else (if log[0].entry == e then log[0].diff else 0) + Count(log[1..], e)
  }

  /**
   * The cache's `validate()` oracle: no entry was ever retracted more often than
   * it was appended, i.e. no retraction lacks a matching outstanding append.
   */
  ghost predicate NetNonNegative(log: seq<Record>)
  {
    forall e :: Count(log, e) >= 0
  }

  /** The txns shard replayed up to `upper` (exclusive): what `TxnsCache::update_ge(upper)` has seen. */
  function Replay(log: seq<Record>, upper: Ts): (r: seq<Record>)
    ensures Below(r, upper)
    ensures |r| <= |log|
    ensures forall x :: x in r ==> x in log
    ensures forall i :: 0 <= i < |log| && log[i].ts < upper ==> log[i] in r
  {
    if log == [] then []
    else
      var rest := Replay(log[1..], upper);
      assert forall i :: 0 < i < |log| ==> log[i] == log[1..][i - 1];
      (if log[0].ts < upper then [log[0]] else []) + rest
  }

  /** Replaying a log written in two parts replays each part in turn. */
  lemma {:induction false} ReplayConcat(a: seq<Record>, b: seq<Record>, upper: Ts)
    ensures Replay(a + b, upper) == Replay(a, upper) + Replay(b, upper)
  {
    if a == [] {
      assert a + b == b;
    } else {
      assert (a + b)[1..] == a[1..] + b;
      ReplayConcat(a[1..], b, upper);
      var h := if a[0].ts < upper then [a[0]] else [];
      calc {
        Replay(a + b, upper);
        h + Replay(a[1..] + b, upper);
        h + (Replay(a[1..], upper) + Replay(b, upper));
        (h + Replay(a[1..], upper)) + Replay(b, upper);
      }
    }
  }

  lemma {:induction false} CountConcat(a: seq<Record>, b: seq<Record>, e: TxnsEntry)
    ensures Count(a + b, e) == Count(a, e) + Count(b, e)
  {
    if a == [] {
      assert a + b == b;
    } else {
      assert (a + b)[1..] == a[1..] + b;
      CountConcat(a[1..], b, e);
    }
  }

  /** The net count of `e` among appends (retractions) is its number of occurrences (negated). */
  lemma {:induction false} CountRecords(entries: seq<TxnsEntry>, ts: Ts, diff: int, e: TxnsEntry)
    requires diff == 1 || diff == -1
    ensures Count(Records(entries, ts, diff), e) == (if diff == 1 then 1 else -1) * (multiset(entries)[e] as int)
  {
    if entries != [] {
      assert entries == [entries[0]] + entries[1..];
      assert multiset(entries) == multiset{entries[0]} + multiset(entries[1..]);
      assert Records(entries, ts, diff)[1..] == Records(entries[1..], ts, diff);
      CountRecords(entries[1..], ts, diff, e);
    }
  }

  /** In a sequence without repetitions every element occurs once. */
  lemma {:induction false} DistinctOccursOnce<T>(s: seq<T>, x: T)
    requires Distinct(s)
    ensures multiset(s)[x] == if x in s then 1 else 0
  {
    if s != [] {
      assert s == [s[0]] + s[1..];
      assert multiset(s) == multiset{s[0]} + multiset(s[1..]);
      assert Distinct(s[1..]) by {
        forall i, j | 0 <= i < j < |s[1..]| ensures s[1..][i] != s[1..][j] {
          assert s[1..][i] == s[i + 1] && s[1..][j] == s[j + 1];
        }
      }
      DistinctOccursOnce(s[1..], x);
      if s[0] == x {
        assert x !in s[1..] by {
          forall k | 0 <= k < |s[1..]| ensures s[1..][k] != x {
            assert s[1..][k] == s[k + 1];
          }
        }
      }
    }
  }

  /**
   * Appending a commit's record set keeps every retraction matched, provided its
   * retractions are distinct and each is still outstanding in the log: the
   * reason `commit_at` filters its tidy against the cache before the
   * compare-and-append.
   */
  lemma CommitKeepsRetractionsMatched(log: seq<Record>, appends: seq<TxnsEntry>, retractions: seq<TxnsEntry>, ts: Ts)
    requires NetNonNegative(log)
    requires Distinct(retractions)
    requires forall e :: e in retractions ==> Count(log, e) > 0
    ensures NetNonNegative(log + CommitRecords(appends, retractions, ts))
  {
    forall e
      ensures Count(log + CommitRecords(appends, retractions, ts), e) >= 0
    {
      CountConcat(log, CommitRecords(appends, retractions, ts), e);
      CountConcat(Records(appends, ts, 1), Records(retractions, ts, -1), e);
      CountRecords(appends, ts, 1, e);
      CountRecords(retractions, ts, -1, e);
      DistinctOccursOnce(retractions, e);
    }
  }

  /** Once the cache has caught up with the shard's upper it has seen the whole log. */
  lemma {:induction false} ReplayToUpperIsWholeLog(log: seq<Record>, upper: Ts)
    requires Below(log, upper)
    ensures Replay(log, upper) == log
  {
    if log != [] {
      assert Below(log[1..], upper) by {
        forall i | 0 <= i < |log[1..]| ensures log[1..][i].ts < upper {
          assert log[1..][i] == log[i + 1];
        }
      }
      ReplayToUpperIsWholeLog(log[1..], upper);
      assert log == [log[0]] + log[1..];
    }
  }

  /** The txns shard: its upper and its log of records. */
  class TxnsShard {
    var upper: Ts
    var log: seq<Record>

    ghost predicate Valid()
      reads this
    {
      Below(log, upper)
    }

    /** A fresh txns shard, at `T::minimum()`. */
    constructor ()
      ensures Valid() && upper == 0 && log == []
    {
      upper := 0;
      log := [];
    }

    /**
     * Atomically appends `updates` and moves the upper to `newUpper` if the
     * upper is still `expected`; otherwise reports the current upper.
     * Competing writers are an environment choice: before this call lands,
     * another handle may commit first (its records follow the same
     * protocol), which strictly advances the upper.
     */
    method CompareAndAppend(expected: Ts, updates: seq<Record>, newUpper: Ts) returns (res: Result<(), Ts>)
      requires Valid() && expected <= upper && expected < newUpper
      requires forall i :: 0 <= i < |updates| ==> expected <= updates[i].ts < newUpper
      modifies this
      ensures Valid()
      ensures old(upper) <= upper && old(log) <= log
      ensures res.Success? ==> old(upper) == expected && upper == newUpper && log == old(log) + updates
      ensures res.Failure? ==> res.error == upper && expected < upper
      ensures res.Failure? && NetNonNegative(old(log)) ==> NetNonNegative(log)
    {
      var raced: bool :| true;
      if raced {
        // Another handle's commit at some `t >= upper` lands first.
        var appends: seq<TxnsEntry>, retractions: seq<TxnsEntry>, t: Ts :|
          upper <= t && Distinct(retractions) && forall e :: e in retractions ==> Count(log, e) > 0;
        if NetNonNegative(log) {
          CommitKeepsRetractionsMatched(log, appends, retractions, t);
        }
        log := log + CommitRecords(appends, retractions, t);
        upper := StepForward(t);
      }
      if upper == expected {
        log := log + updates;
        upper := newUpper;
        res := Success(());
      } else {
        res := Failure(upper);
      }
    }
  }

  /** The data shards' batch storage: finished batches by descriptor. */
  class BatchStore<K, V> {
    var batches: map<BatchId, Batch<K, V>>
    var nextId: BatchId

    ghost predicate Valid()
      reads this
    {
      forall id :: id in batches ==> id < nextId
    }

    constructor ()
      ensures Valid() && batches == map[] && nextId == 0
    {
      batches := map[];
      nextId := 0;
    }

    /** Builds and finishes a batch of `shard` holding `updates`, bounded by `[T::minimum(), upper)`. */
    method WriteBatch(shard: ShardId, updates: seq<TimedUpdate<K, V>>, upper: Ts) returns (id: BatchId)
      requires Valid()
      modifies this
      ensures Valid()
      ensures id == old(nextId) && id !in old(batches) && nextId == old(nextId) + 1
      ensures batches == old(batches)[id := Batch(shard, updates, 0, upper)]
    {
      id := nextId;
      batches := batches[id := Batch(shard, updates, 0, upper)];
      nextId := nextId + 1;
    }

    /** `batch.delete()`: removes an unreferenced batch. */
    method DeleteBatch(id: BatchId)
      requires Valid()
      modifies this
      ensures Valid()
      ensures nextId == old(nextId) && batches == old(batches) - {id}
    {
      batches := batches - {id};
    }
  }
}
