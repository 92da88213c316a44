/**
 * Staging and committing a multi-shard transaction (`Txn`) against the txns
 * shard, and the `TxnApply` token a successful commit returns.
 */
module TxnWrite {
  import opened Results
  import opened TxnsLog

  /**
   * Pending retraction work: Append entries known to be applied, whose
   * records may now be retracted from the txns shard. Merging is union;
   * dropping a tidy only delays reclaiming space.
   */
  datatype Tidy = Tidy(retractions: set<TxnsEntry>)
  {
    function Merge(other: Tidy): (t: Tidy)
      ensures t.retractions == retractions + other.retractions
    {
      Tidy(retractions + other.retractions)
    }
  }

  /** `Tidy::default()`. */
  const NoTidy := Tidy({})

  /** Tidies form a commutative, idempotent monoid under `Merge` with `NoTidy` as unit. */
  lemma TidyMergeLaws(a: Tidy, b: Tidy, c: Tidy)
    ensures NoTidy.Merge(a) == a && a.Merge(NoTidy) == a
    ensures a.Merge(b).Merge(c) == a.Merge(b.Merge(c))
    ensures a.Merge(b) == b.Merge(a)
    ensures a.Merge(a) == a
  {
  }

  /** The staged writes of one shard; an absent shard has none. */
  function Staged<K, V>(writes: map<ShardId, seq<Update<K, V>>>, shard: ShardId): seq<Update<K, V>>
  {
    if shard in writes then writes[shard] else []
  }

  /** The staged writes after `write(shard, u)`. */
  function WithWrite<K, V>(writes: map<ShardId, seq<Update<K, V>>>, shard: ShardId, u: Update<K, V>)
    : (r: map<ShardId, seq<Update<K, V>>>)
    ensures r.Keys == writes.Keys + {shard}
    ensures r[shard] == Staged(writes, shard) + [u]
    ensures forall s :: s in writes && s != shard ==> r[s] == writes[s]
  {
    writes[shard := Staged(writes, shard) + [u]]
  }

  /** The staged writes after `merge`: per shard, this txn's list followed by the other's. */
  function MergeWrites<K, V>(a: map<ShardId, seq<Update<K, V>>>, b: map<ShardId, seq<Update<K, V>>>)
    : (r: map<ShardId, seq<Update<K, V>>>)
    ensures r.Keys == a.Keys + b.Keys
    ensures forall s :: Staged(r, s) == Staged(a, s) + Staged(b, s)
  {
    map s | s in a.Keys + b.Keys :: Staged(a, s) + Staged(b, s)
  }

  /** Two staged-write maps over the same shards that stage the same lists are equal. */
  lemma StagedExtensional<K, V>(l: map<ShardId, seq<Update<K, V>>>, r: map<ShardId, seq<Update<K, V>>>)
    requires l.Keys == r.Keys
    requires forall s :: Staged(l, s) == Staged(r, s)
    ensures l == r
  {
    forall s | s in l.Keys
      ensures l[s] == r[s]
    {
      assert Staged(l, s) == Staged(r, s);
    }
  }

  /** Staging one write is merging in a txn that holds only that write. */
  lemma WriteIsSingletonMerge<K, V>(writes: map<ShardId, seq<Update<K, V>>>, shard: ShardId, u: Update<K, V>)
    ensures WithWrite(writes, shard, u) == MergeWrites(writes, map[shard := [u]])
  {
    var l, r := WithWrite(writes, shard, u), MergeWrites(writes, map[shard := [u]]);
    forall s
      ensures Staged(l, s) == Staged(r, s)
    {
      if s != shard && s in writes {
        assert Staged(l, s) == writes[s];
      }
    }
    StagedExtensional(l, r);
  }

  lemma StagedAssociative<K, V>(a: map<ShardId, seq<Update<K, V>>>, b: map<ShardId, seq<Update<K, V>>>,
                                c: map<ShardId, seq<Update<K, V>>>, s: ShardId)
    ensures Staged(MergeWrites(MergeWrites(a, b), c), s) == Staged(MergeWrites(a, MergeWrites(b, c)), s)
  {
    var x, y, z := Staged(a, s), Staged(b, s), Staged(c, s);
    assert (x + y) + z == x + (y + z);
  }

  /** Merging staged txns is associative, so partial txns may be combined in any grouping. */
  lemma MergeWritesAssociative<K, V>(a: map<ShardId, seq<Update<K, V>>>, b: map<ShardId, seq<Update<K, V>>>,
                                     c: map<ShardId, seq<Update<K, V>>>)
    ensures MergeWrites(MergeWrites(a, b), c) == MergeWrites(a, MergeWrites(b, c))
  {
    var l, r := MergeWrites(MergeWrites(a, b), c), MergeWrites(a, MergeWrites(b, c));
    forall s
      ensures Staged(l, s) == Staged(r, s)
    {
      StagedAssociative(a, b, c, s);
    }
    StagedExtensional(l, r);
  }

  /** Every staged shard was registered strictly before `commitTs` (the `data_since(..) < commit_ts` check). */
  predicate RegisteredBefore(dataSince: map<ShardId, Ts>, shards: set<ShardId>, commitTs: Ts)
  {
    forall s :: s in shards ==> s in dataSince && dataSince[s] < commitTs
  }

  /** The shards named by a list of Append entries. */
  function ShardsOf(appends: seq<TxnsEntry>): set<ShardId>
  {
    set e | e in appends :: e.shard
  }

  /** The batches named by a list of Append entries. */
  function BatchesOf(appends: seq<TxnsEntry>): set<BatchId>
  {
    set e | e in appends :: e.batch
  }

  lemma OfAppended(appends: seq<TxnsEntry>, e: TxnsEntry)
    ensures ShardsOf(appends + [e]) == ShardsOf(appends) + {e.shard}
    ensures BatchesOf(appends + [e]) == BatchesOf(appends) + {e.batch}
  {
  }

  /**
   * One commit attempt wrote, for every staged shard, exactly one new batch
   * holding exactly that shard's updates stamped `ts`, bounded above by
   * `ts.step_forward()`; `appends` names them and nothing else changed.
   */
  ghost predicate BatchesWritten<K, V>(appends: seq<TxnsEntry>, writes: map<ShardId, seq<Update<K, V>>>,
                                       before: map<BatchId, Batch<K, V>>, after: map<BatchId, Batch<K, V>>, ts: Ts)
  {
    WrittenFor(appends, writes, writes.Keys, before, after, ts)
  }

  /** `BatchesWritten`, so far only for the staged shards in `shards`. */
  ghost predicate WrittenFor<K, V>(appends: seq<TxnsEntry>, writes: map<ShardId, seq<Update<K, V>>>, shards: set<ShardId>,
                                   before: map<BatchId, Batch<K, V>>, after: map<BatchId, Batch<K, V>>, ts: Ts)
  {
    && (forall i, j :: 0 <= i < j < |appends| ==> appends[i].shard != appends[j].shard)
    && ShardsOf(appends) == shards
    && (forall e :: e in appends ==>
          && e.shard in writes && e.batch in after && e.batch !in before
          && after[e.batch] == Batch(e.shard, Stamp(writes[e.shard], ts), 0, StepForward(ts)))
    && after.Keys == before.Keys + BatchesOf(appends)
    && (forall id :: id in before ==> after[id] == before[id])
  }

  /** Writing the batch of one more staged shard, under a fresh id. */
  lemma WriteOneMore<K, V>(appends: seq<TxnsEntry>, writes: map<ShardId, seq<Update<K, V>>>, shards: set<ShardId>,
                           before: map<BatchId, Batch<K, V>>, mid: map<BatchId, Batch<K, V>>,
                           dataId: ShardId, id: BatchId, ts: Ts)
    requires WrittenFor(appends, writes, shards, before, mid, ts)
    requires dataId in writes && dataId !in shards && id !in mid
    ensures WrittenFor(appends + [Append(dataId, id)], writes, shards + {dataId}, before,
                       mid[id := Batch(dataId, Stamp(writes[dataId], ts), 0, StepForward(ts))], ts)
  {
    OfAppended(appends, Append(dataId, id));
    var next := appends + [Append(dataId, id)];
    forall i, j | 0 <= i < j < |next| ensures next[i].shard != next[j].shard {
      if j == |appends| {
        assert appends[i] in appends;
      }
    }
  }

  /** A commit writes no batch exactly when nothing was staged. */
  lemma NoBatchesIffNoWrites<K, V>(appends: seq<TxnsEntry>, writes: map<ShardId, seq<Update<K, V>>>,
                                   before: map<BatchId, Batch<K, V>>, after: map<BatchId, Batch<K, V>>, ts: Ts)
    requires BatchesWritten(appends, writes, before, after, ts)
    ensures |appends| == 0 <==> writes == map[]
  {
    if appends != [] {
      assert appends[0].shard in writes.Keys;
    }
  }

  /** Deleting the batches an attempt wrote gives back the batch storage it started from. */
  lemma DeletingWrittenBatchesRestores<K, V>(appends: seq<TxnsEntry>, writes: map<ShardId, seq<Update<K, V>>>,
                                            before: map<BatchId, Batch<K, V>>, after: map<BatchId, Batch<K, V>>, ts: Ts)
    requires BatchesWritten(appends, writes, before, after, ts)
    ensures after - BatchesOf(appends) == before
  {
    assert forall id :: id in BatchesOf(appends) ==> id !in before;
  }

  /**
   * `filter_retractions`: keeps, once each, the retractions whose Append is
   * still outstanding in the cache (so a retraction another handle already
   * wrote is not written again).
   */
  method FilterRetractions(cache: seq<Record>, retractions: set<TxnsEntry>) returns (kept: seq<TxnsEntry>)
    ensures Distinct(kept)
    ensures forall e :: e in kept <==> e in retractions && Count(cache, e) > 0
  {
    kept := [];
    var rest := retractions;
    while rest != {}
      invariant rest <= retractions
      invariant Distinct(kept)
      invariant forall e :: e in kept <==> e in retractions - rest && Count(cache, e) > 0
      decreases rest
    {
      var e :| e in rest;
      if Count(cache, e) > 0 {
        kept := kept + [e];
      }
      rest := rest - {e};
    }
  }

  /** Deletes the batches of a losing attempt. */
  method DeleteBatches<K, V>(datas: BatchStore<K, V>, appends: seq<TxnsEntry>)
    requires datas.Valid()
    modifies datas
    ensures datas.Valid() && datas.nextId == old(datas.nextId)
    ensures datas.batches == old(datas.batches) - BatchesOf(appends)
  {
    for i := 0 to |appends|
      invariant datas.Valid() && datas.nextId == old(datas.nextId)
      invariant datas.batches == old(datas.batches) - BatchesOf(appends[..i])
    {
      assert BatchesOf(appends[..i + 1]) == BatchesOf(appends[..i]) + {appends[i].batch} by {
        assert appends[..i + 1] == appends[..i] + [appends[i]];
      }
      datas.DeleteBatch(appends[i].batch);
    }
    assert appends[..|appends|] == appends;
  }

  /** The token for the apply work of a committed txn. */
  datatype TxnApply = TxnApply(isEmpty: bool, commitTs: Ts)
  {
    /** Whether the txn had no non-tidy writes, so applying it may be skipped. */
    predicate IsEmpty()
    {
      isEmpty
    }

    /** Applies every committed txn up to `commitTs` (`handle.apply_le(&self.commit_ts)`). */
    function Apply(log: seq<Record>): (t: Tidy)
      ensures forall e :: e in t.retractions ==> Count(log, e) > 0
      ensures forall e :: e in t.retractions ==>
                exists i :: 0 <= i < |log| && log[i].entry == e && log[i].diff > 0 && log[i].ts <= commitTs
      ensures forall i :: 0 <= i < |log| && log[i].diff > 0 && log[i].ts <= commitTs && Count(log, log[i].entry) > 0
                ==> log[i].entry in t.retractions
    {
      ApplyLe(log, commitTs)
    }
  }

  /**
   * `apply_le`: makes every outstanding Append at or below `ts` visible on
   * its data shard and returns them as tidy work.
   */
  function ApplyLe(log: seq<Record>, ts: Ts): Tidy
  {
    Tidy(set r | r in log && r.diff > 0 && r.ts <= ts && Count(log, r.entry) > 0 :: r.entry)
  }

  /**
   * Applying the token of a commit returns, as tidy work, every batch the
   * commit appended and did not retract in the same commit.
   */
  lemma ApplyReturnsCommittedAppends(base: seq<Record>, appends: seq<TxnsEntry>, retracted: seq<TxnsEntry>,
                                     apply: TxnApply, e: TxnsEntry)
    requires NetNonNegative(base)
    requires e in appends && e !in retracted
    ensures e in apply.Apply(base + CommitRecords(appends, retracted, apply.commitTs)).retractions
  {
    var ts := apply.commitTs;
    var log := base + CommitRecords(appends, retracted, ts);
    CountConcat(base, CommitRecords(appends, retracted, ts), e);
    CountConcat(Records(appends, ts, 1), Records(retracted, ts, -1), e);
    CountRecords(appends, ts, 1, e);
    CountRecords(retracted, ts, -1, e);
    assert Count(base, e) >= 0;
    var k :| 0 <= k < |appends| && appends[k] == e;
    assert log[|base| + k] == Record(e, ts, 1);
  }

  /**
   * A commit that appended nothing gives its token no new tidy work: what
   * applying it returns was already outstanding before the commit.
   */
  lemma EmptyApplyAddsNothing(base: seq<Record>, retracted: seq<TxnsEntry>, apply: TxnApply)
    ensures apply.Apply(base + CommitRecords([], retracted, apply.commitTs)).retractions
            <= ApplyLe(base, apply.commitTs).retractions
  {
    var ts := apply.commitTs;
    var c := CommitRecords([], retracted, ts);
    var log := base + c;
    forall e | e in apply.Apply(log).retractions
      ensures e in ApplyLe(base, ts).retractions
    {
      var i :| 0 <= i < |log| && log[i].entry == e && log[i].diff > 0 && log[i].ts <= ts;
      assert i < |base|;
      CountConcat(base, c, e);
      CountRecords(retracted, ts, -1, e);
      assert Records([], ts, 1) + Records(retracted, ts, -1) == Records(retracted, ts, -1);
      assert base[i] in base;
    }
  }

  /**
   * A tidy race: once one handle has retracted an entry that was appended
   * once, it is no longer outstanding, so a second handle's filter drops it.
   */
  lemma RetractedEntryIsFiltered(log: seq<Record>, e: TxnsEntry, appends: seq<TxnsEntry>, ts: Ts)
    requires Count(log, e) == 1
    requires e !in appends
    ensures Count(log + CommitRecords(appends, [e], ts), e) == 0
  {
    CountConcat(log, CommitRecords(appends, [e], ts), e);
    CountConcat(Records(appends, ts, 1), Records([e], ts, -1), e);
    CountRecords(appends, ts, 1, e);
    CountRecords([e], ts, -1, e);
  }

  /** A `TxnsHandle`: the txns shard, the data shards' batches and the cache's registrations. */
  class TxnsHandle<K, V> {
    const txns: TxnsShard
    const datas: BatchStore<K, V>
    /** The cache's `data_since`: the registration timestamp of each data shard. */
    var dataSince: map<ShardId, Ts>

    ghost predicate Valid()
      reads this, txns, datas
    {
      txns.Valid() && datas.Valid()
    }

    constructor (txns: TxnsShard, datas: BatchStore<K, V>, dataSince: map<ShardId, Ts>)
      ensures this.txns == txns && this.datas == datas && this.dataSince == dataSince
    {
      this.txns := txns;
      this.datas := datas;
      this.dataSince := dataSince;
    }
  }

  /** An in-progress transaction. */
  class Txn<K, V> {
    var writes: map<ShardId, seq<Update<K, V>>>
    var tidy: Tidy

    /** `Txn::new`: nothing staged, no tidy work. */
    constructor ()
      ensures writes == map[] && tidy == NoTidy
    {
      writes := map[];
      tidy := NoTidy;
    }

    /** Stages a write to `dataId`; the timestamp is assigned at commit. */
    method Write(dataId: ShardId, key: K, val: V, diff: int)
      modifies this
      ensures writes == WithWrite(old(writes), dataId, Update(key, val, diff))
      ensures tidy == old(tidy)
    {
      writes := writes[dataId := Staged(writes, dataId) + [Update(key, val, diff)]];
    }

    /** Merges the staged writes and tidy work of `other` (which the source consumes) into this txn. */
    method Merge(other: Txn<K, V>)
      requires other != this
      modifies this
      ensures writes == MergeWrites(old(writes), other.writes)
      ensures tidy == old(tidy).Merge(other.tidy)
    {
      var rest := other.writes.Keys;
      ghost var done: set<ShardId> := {};
      while rest != {}
        invariant rest !! done && rest + done == other.writes.Keys
        invariant writes.Keys == old(writes).Keys + done
        invariant forall s :: s in done ==> writes[s] == Staged(old(writes), s) + other.writes[s]
        invariant forall s :: s in old(writes) && s !in done ==> writes[s] == old(writes)[s]
        invariant tidy == old(tidy)
        decreases rest
      {
        var dataId :| dataId in rest;
        writes := writes[dataId := Staged(writes, dataId) + other.writes[dataId]];
        rest := rest - {dataId};
        done := done + {dataId};
      }
      forall s
        ensures Staged(writes, s) == Staged(MergeWrites(old(writes), other.writes), s)
      {
      }
      StagedExtensional(writes, MergeWrites(old(writes), other.writes));
      tidy := tidy.Merge(other.tidy);
    }

    /** Merges tidy work into this txn; it is written at the commit ts if the txn commits. */
    method AddTidy(t: Tidy)
      modifies this
      ensures tidy == old(tidy).Merge(t)
      ensures writes == old(writes)
    {
      tidy := tidy.Merge(t);
    }

    /** Extracts the tidy work merged into this txn, leaving none behind. */
    method TakeTidy() returns (t: Tidy)
      modifies this
      ensures t == old(tidy) && tidy == NoTidy
      ensures writes == old(writes)
    {
      t := tidy;
      tidy := NoTidy;
    }

    /** Writes one batch per staged shard, each holding that shard's updates at `commitTs`. */
    method WriteBatches(datas: BatchStore<K, V>, commitTs: Ts) returns (appends: seq<TxnsEntry>)
      requires datas.Valid()
      modifies datas
      ensures datas.Valid() && old(datas.nextId) <= datas.nextId
      ensures BatchesWritten(appends, writes, old(datas.batches), datas.batches, commitTs)
    {
      appends := [];
      var rest := writes.Keys;
      while rest != {}
        invariant datas.Valid() && old(datas.nextId) <= datas.nextId
        invariant rest <= writes.Keys
        invariant WrittenFor(appends, writes, writes.Keys - rest, old(datas.batches), datas.batches, commitTs)
        decreases rest
      {
        var dataId :| dataId in rest;
        ghost var mid := datas.batches;
        var id := datas.WriteBatch(dataId, Stamp(writes[dataId], commitTs), StepForward(commitTs));
        WriteOneMore(appends, writes, writes.Keys - rest, old(datas.batches), mid, dataId, id, commitTs);
        appends := appends + [Append(dataId, id)];
        assert writes.Keys - rest + {dataId} == writes.Keys - (rest - {dataId});
        rest := rest - {dataId};
      }
    }

    /**
     * Commits the staged writes at `commitTs`, or reports the least timestamp
     * at which a commit is still possible. Competing writers make the
     * compare-and-append fail; each failure strictly advances the txns upper,
     * so the retry loop ends. The ghost results name the committed Append
     * entries, the retractions written, and the log the commit landed on.
     */
    method CommitAt(handle: TxnsHandle<K, V>, commitTs: Ts)
      returns (r: Result<TxnApply, Ts>, ghost appends: seq<TxnsEntry>, ghost retracted: seq<TxnsEntry>,
               ghost base: seq<Record>)
      requires handle.Valid()
      requires RegisteredBefore(handle.dataSince, writes.Keys, commitTs)
      modifies handle.txns, handle.datas
      ensures handle.Valid()
      ensures old(handle.txns.log) <= handle.txns.log
      ensures NetNonNegative(old(handle.txns.log)) ==> NetNonNegative(handle.txns.log)
      ensures r.Failure? ==>
                && commitTs < r.error && r.error == handle.txns.upper
                && handle.datas.batches == old(handle.datas.batches)
      ensures r.Success? ==>
                && r.value == TxnApply(writes == map[], commitTs)
                && old(handle.txns.upper) <= commitTs && handle.txns.upper == StepForward(commitTs)
                && old(handle.txns.log) <= base && Below(base, commitTs)
                && handle.txns.log == base + CommitRecords(appends, retracted, commitTs)
                && BatchesWritten(appends, writes, old(handle.datas.batches), handle.datas.batches, commitTs)
                && Distinct(retracted)
                && (forall e :: e in retracted <==> e in tidy.retractions && Count(base, e) > 0)
    {
      var txnsUpper := handle.txns.upper;
      while true
        invariant handle.Valid()
        invariant txnsUpper == handle.txns.upper && old(handle.txns.upper) <= txnsUpper
        invariant handle.datas.batches == old(handle.datas.batches)
        invariant old(handle.txns.log) <= handle.txns.log
        invariant NetNonNegative(old(handle.txns.log)) ==> NetNonNegative(handle.txns.log)
        decreases commitTs - txnsUpper
      {
        if commitTs < txnsUpper {
          return Failure(txnsUpper), [], [], handle.txns.log;
        }
        var res, applyIsEmpty, batchAppends, filtered;
        res, applyIsEmpty, batchAppends, filtered, base := Attempt(handle, commitTs);
        if res.Success? {
          return Success(TxnApply(applyIsEmpty, commitTs)), batchAppends, filtered, base;
        }
        txnsUpper := res.error;
      }
    }

    /**
     * One iteration of the retry loop: writes the batches, filters the tidy
     * retractions against the caught-up cache, and compare-and-appends the
     * records; a losing attempt deletes its batches again.
     */
    method Attempt(handle: TxnsHandle<K, V>, commitTs: Ts)
      returns (res: Result<(), Ts>, applyIsEmpty: bool, appends: seq<TxnsEntry>,
               retracted: seq<TxnsEntry>, ghost base: seq<Record>)
      requires handle.Valid() && handle.txns.upper <= commitTs
      modifies handle.txns, handle.datas
      ensures handle.Valid()
      ensures old(handle.txns.log) <= handle.txns.log
      ensures NetNonNegative(old(handle.txns.log)) ==> NetNonNegative(handle.txns.log)
      ensures res.Failure? ==>
                && old(handle.txns.upper) < res.error && res.error == handle.txns.upper
                && handle.datas.batches == old(handle.datas.batches)
      ensures res.Success? ==>
                && (applyIsEmpty <==> writes == map[])
                && handle.txns.upper == StepForward(commitTs)
                && old(handle.txns.log) == base && Below(base, commitTs)
                && handle.txns.log == base + CommitRecords(appends, retracted, commitTs)
                && BatchesWritten(appends, writes, old(handle.datas.batches), handle.datas.batches, commitTs)
                && Distinct(retracted)
                && (forall e :: e in retracted <==> e in tidy.retractions && Count(base, e) > 0)
    {
      var txnsUpper := handle.txns.upper;
      base := handle.txns.log;
      appends := WriteBatches(handle.datas, commitTs);
      applyIsEmpty := |appends| == 0;
      // The cache has been brought up to `txnsUpper`, which is the shard's upper.
      ReplayToUpperIsWholeLog(handle.txns.log, txnsUpper);
      retracted := FilterRetractions(Replay(handle.txns.log, txnsUpper), tidy.retractions);
      var records := CommitRecords(appends, retracted, commitTs);
      res := handle.txns.CompareAndAppend(txnsUpper, records, StepForward(commitTs));
      if res.Success? {
        if NetNonNegative(base) {
          CommitKeepsRetractionsMatched(base, appends, retracted, commitTs);
        }
        NoBatchesIffNoWrites(appends, writes, old(handle.datas.batches), handle.datas.batches, commitTs);
      } else {
        DeletingWrittenBatchesRestores(appends, writes, old(handle.datas.batches), handle.datas.batches, commitTs);
        DeleteBatches(handle.datas, appends);
      }
    }
  }
}
