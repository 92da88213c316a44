# Materialize core, modelled in Dafny

This project models four pieces of Materialize and proves properties of them.

- **Transactional writes over persist shards** (`persist-txn`). A `Txn` stages
  `(key, val, diff)` writes per data shard. It collects "tidy" work: retractions of
  txns-shard entries that are already applied. `commit_at` commits all of it
  atomically at one timestamp. It writes one batch per data shard, then
  compare-and-appends an `Append(shard, batch)` record (+1) per batch plus the
  still-outstanding retractions (-1) to the txns shard. It retries while the
  txns shard's upper has not passed the commit timestamp, and otherwise returns
  that upper. A successful commit returns a `TxnApply` token. The shared state is
  modelled in `txns_log.dfy`: the txns shard as a log of records with an
  `upper`, and the data shards' batch storage. The transaction is modelled in
  `txn_write.dfy`.
- **The jemalloc heap-profile parser** `parse_jeheap` (`jemalloc.dfy`,
  `jemalloc_props.dfy`). It reads a `heap_v2/<rate>` header, then `@ <addr>...`
  stack lines and `t*: <objs>: <bytes>` weight lines, with the same errors as
  the source. The Rust string and integer-parsing functions it relies on are
  modelled in `rust_str.dfy`: `trim`, `split_ascii_whitespace`,
  `trim_start_matches`, `trim_end_matches` and `usize` parsing.
- **Reduce fusion** in the MIR optimizer (`reduce_fusion.dfy`). `Reduce::action`
  rewrites a `Reduce` whose input is another `Reduce`. `transform` applies it
  in pre-order over a relation expression.
- **The query graph model** of the SQL planner (`query_model.dfy`). This covers
  the box and quantifier tables, box allocation, and column dereference. It
  also covers the early model generator, which creates one `Select` box per
  query and per common table expression.

`results.dfy` holds the `Option` and `Result` types shared by all modules.
Timestamps, ids and counters are unbounded naturals.

## Model

| member | source | states |
|---|---|---|
| TxnsLog.StepForward | src/persist-txn/src/txn_write.rs:136-137 | the batch upper and the new txns upper, `commit_ts.step_forward()`, lie strictly after the commit timestamp |
| TxnsLog.Stamp | src/persist-txn/src/txn_write.rs:133-135 | each staged update goes into the batch in order, with its key, value and diff unchanged, at the commit timestamp |
| TxnsLog.CommitRecords | src/persist-txn/src/txn_write.rs:153-175 | one attempt's txns updates are, in order, a +1 record of each appended batch and then a -1 record of each filtered retraction, all at the commit timestamp |
| TxnsLog.Records | src/persist-txn/src/txn_write.rs:153-156 | each entry becomes a record with that entry, the timestamp and the given multiplicity, in order |
| TxnsLog.CountRecords | src/persist-txn/src/txn_write.rs:153-175 | in +1 (-1) records an entry's net count is (minus) its number of occurrences |
| TxnsLog.CommitKeepsRetractionsMatched | src/persist-txn/src/txn_write.rs:159-175 | appending a commit whose retractions are distinct and still outstanding keeps every entry's net count non-negative, so no retraction is unmatched |
| TxnsLog.ReplayToUpperIsWholeLog | src/persist-txn/src/txn_write.rs:95 | a cache caught up to the txns upper (`update_ge`) has seen every record of the txns shard |
| TxnsLog.Replay | src/persist-txn/src/txn_write.rs:214 | a cache replayed to an upper holds only records of the log, all strictly below that upper, and every record of the log below that upper |
| TxnsLog.ReplayConcat | src/persist-txn/src/txn_write.rs:214 | replaying a log that grew by a commit replays the old log and then the commit's records |
| TxnsLog.TxnsShard.CompareAndAppend | src/persist-txn/src/txn_write.rs:177-205 | if the upper is still the expected one, appends exactly the records and moves the upper to the new upper; otherwise reports the current upper, which is strictly greater than expected; the log only grows and stays below the upper |
| TxnsLog.BatchStore.WriteBatch | src/persist-txn/src/txn_write.rs:130-143 | a finished batch is stored under a fresh descriptor with bounds `[minimum, upper)`; other batches are unchanged |
| TxnsLog.BatchStore.DeleteBatch | src/persist-txn/src/txn_write.rs:211-213 | `batch.delete()` removes exactly that batch |
| TxnWrite.Tidy.Merge | src/persist-txn/src/txn_write.rs:226 | merged tidy work holds the retractions of both |
| TxnWrite.TidyMergeLaws | src/persist-txn/src/txn_write.rs:226 | merging tidies is associative, commutative and idempotent, with the default tidy as unit, so the order in which txns are merged does not change the tidy work |
| TxnWrite.WithWrite | src/persist-txn/src/txn_write.rs:55-60 | staging appends the update to the end of that shard's list and creates the list if missing; other shards are unchanged |
| TxnWrite.MergeWrites | src/persist-txn/src/txn_write.rs:222-225 | per shard, the merged list is this txn's list followed by the other's; the shards are the union |
| TxnWrite.WriteIsSingletonMerge | src/persist-txn/src/txn_write.rs:55-60 | staging one write equals merging in a txn that staged only that write |
| TxnWrite.MergeWritesAssociative | src/persist-txn/src/txn_write.rs:222-225 | merging txns is associative |
| TxnWrite.FilterRetractions | src/persist-txn/src/txn_write.rs:164-170 | keeps each tidy retraction once, and exactly those whose Append is still outstanding in the cache |
| TxnWrite.RetractedEntryIsFiltered | src/persist-txn/src/txn_write.rs:159-163 | after another handle has retracted an entry appended once, its net count is zero, so this handle's filter drops it |
| TxnWrite.NoBatchesIffNoWrites | src/persist-txn/src/txn_write.rs:153-157 | an attempt writes no batch exactly when nothing is staged, which is `apply_is_empty` |
| TxnWrite.DeletingWrittenBatchesRestores | src/persist-txn/src/txn_write.rs:203-213 | deleting the batches of a losing attempt restores the batch storage it started from |
| TxnWrite.DeleteBatches | src/persist-txn/src/txn_write.rs:211-213 | removes exactly the attempt's batches |
| TxnWrite.TxnApply.IsEmpty | src/persist-txn/src/txn_write.rs:266-272 | reports the emptiness recorded at commit; `EmptyApplyAddsNothing` shows that applying an empty commit's token yields no new tidy work |
| TxnWrite.TxnApply.Apply | src/persist-txn/src/txn_write.rs:254-264 | the returned tidy holds only outstanding entries each backed by an Append record at or below the commit timestamp, and every outstanding Append at or below the commit timestamp |
| TxnWrite.ApplyReturnsCommittedAppends | src/persist-txn/src/txn_write.rs:254-264 | applying a commit's token returns every batch that commit appended and did not retract in the same commit |
| TxnWrite.EmptyApplyAddsNothing | src/persist-txn/src/txn_write.rs:266-272 | for a commit that appended nothing, applying its token returns only Appends that were already outstanding before the commit |
| TxnWrite.Txn.constructor | src/persist-txn/src/txn_write.rs:41-46 | a new txn has no staged writes and no tidy work |
| TxnWrite.Txn.Write | src/persist-txn/src/txn_write.rs:55-60 | the staged writes become `WithWrite` of the old ones; tidy is unchanged |
| TxnWrite.Txn.Merge | src/persist-txn/src/txn_write.rs:222-227 | the loop over the other txn's shards yields `MergeWrites`, and the tidy work is merged |
| TxnWrite.Txn.AddTidy | src/persist-txn/src/txn_write.rs:232-234 | merges the given tidy into the txn's tidy; writes are unchanged |
| TxnWrite.Txn.TakeTidy | src/persist-txn/src/txn_write.rs:238-240 | returns the txn's tidy and leaves the default (empty) tidy behind |
| TxnWrite.Txn.WriteBatches | src/persist-txn/src/txn_write.rs:127-151 | one new batch per staged shard, holding that shard's updates at the commit timestamp with upper `step_forward`; the Append entries name exactly those batches, one per shard, and older batches are untouched |
| TxnWrite.Txn.Attempt | src/persist-txn/src/txn_write.rs:127-216 | one loop iteration: on success the txns shard gains exactly the +1/-1 records at the commit timestamp, its upper is `step_forward(commit_ts)`, and `apply_is_empty` holds iff nothing was staged; on failure the upper has strictly advanced and the batches are deleted again |
| TxnWrite.Txn.CommitAt | src/persist-txn/src/txn_write.rs:75-219 | requires every staged shard registered before the commit timestamp; on `Err(t)`, `t` is the current txns upper and lies after the commit timestamp, with the batch storage unchanged; on `Ok` the token carries the commit timestamp and emptiness, the records landed on a log below the commit timestamp, and the upper is `step_forward(commit_ts)`; the log only grows and keeps every retraction matched |
| RustStr.TrimStart | src/prof/src/jemalloc.rs:78 | `trim` keeps a suffix of the line |
| RustStr.TrimEnd | src/prof/src/jemalloc.rs:78 | `trim` keeps a prefix of what is left |
| RustStr.TrimStartDropsWhitespace | src/prof/src/jemalloc.rs:78 | only whitespace is dropped at the front, and the kept text does not start with whitespace |
| RustStr.TrimEndDropsWhitespace | src/prof/src/jemalloc.rs:78 | only whitespace is dropped at the back, and the kept text does not end with whitespace |
| RustStr.TrimIsSlice | src/prof/src/jemalloc.rs:78 | the trimmed line is one contiguous slice of the line |
| RustStr.SplitAsciiWhitespaceWords | src/prof/src/jemalloc.rs:79 | every word is non-empty and free of ASCII whitespace |
| RustStr.SplitJoinWords | src/prof/src/jemalloc.rs:79 | words joined by single spaces split back into the same words |
| RustStr.TrimSplitJoinWords | src/prof/src/jemalloc.rs:78-79 | a line of plain words survives `trim` and splits back into those words |
| RustStr.TrimStartMatchesSuffix | src/prof/src/jemalloc.rs:87 | stripping `0x` (or `heap_v2/`) keeps a suffix that no longer starts with the pattern |
| RustStr.TrimStartMatchesOnce | src/prof/src/jemalloc.rs:75 | one copy of the prefix in front of other text is exactly what is stripped |
| RustStr.TrimEndMatchesPrefix | src/prof/src/jemalloc.rs:122 | stripping trailing `:` keeps a prefix that no longer ends with `:` |
| RustStr.TrimEndMatchesOnce | src/prof/src/jemalloc.rs:122 | one trailing `:` after a number is exactly what is stripped |
| RustStr.ParseUsize | src/prof/src/jemalloc.rs:88 | a parsed value fits in a 64-bit `usize` |
| RustStr.ParseRendered | src/prof/src/jemalloc.rs:88 | parsing a number written in radix 10 or 16 gives the number back |
| Jemalloc.Reverse | src/prof/src/jemalloc.rs:91 | the reversed addresses have the same length, and position `i` holds the original's `n-1-i` |
| Jemalloc.ReverseReverse | src/prof/src/jemalloc.rs:91 | reversing twice gives the addresses back |
| Jemalloc.ParseAddressesPointwise | src/prof/src/jemalloc.rs:84-90 | collecting the addresses succeeds iff every word parses, and then holds each word's value in order |
| Jemalloc.CollectAddresses | src/prof/src/jemalloc.rs:84-90 | the loop that collects the parsed addresses stops at the first failure and equals the specification `ParseAddresses` |
| Jemalloc.ReverseInPlace | src/prof/src/jemalloc.rs:91 | reverses the array in place |
| Jemalloc.Reversed | src/prof/src/jemalloc.rs:91 | the reversed address list |
| Jemalloc.ProcessLine | src/prof/src/jemalloc.rs:77-131 | the loop body over one line agrees with the specification `Step`: an `@` line with a pending stack fails, a bad address fails, a weight line completes the pending stack |
| Jemalloc.ParseJeheap | src/prof/src/jemalloc.rs:63-137 | the parser agrees with the specification `Parse`: an empty file, a bad header, a bad number or a stack left without weight is an error, and otherwise the weighted stacks come in order |
| JemallocProps.ParsedStacksFollowStackLines | src/prof/src/jemalloc.rs:80-131 | a successful parse yields exactly one stack per `@` line, in file order, each with its addresses reversed and weighed with the header's rate |
| JemallocProps.RunCollectsStackLines | src/prof/src/jemalloc.rs:76-132 | over any run of lines, every `@` line's addresses end up either as a stack or as the pending one |
| JemallocProps.StepCollects | src/prof/src/jemalloc.rs:80-131 | one line only appends stacks, each weighed with the header's rate, and every address list it reads ends up as a stack or as the pending one |
| JemallocProps.UnweighedStackFails | src/prof/src/jemalloc.rs:133-135 | an `@` line followed by no weight line makes the parse fail |
| JemallocProps.PendingStaysUnweighed | src/prof/src/jemalloc.rs:94-95 | without a weight line a pending stack stays pending |
| JemallocProps.ParseHeader | src/prof/src/jemalloc.rs:75 | `heap_v2/<n>` reads back the sampling rate `n` |
| JemallocProps.ParseHexWords | src/prof/src/jemalloc.rs:84-90 | `0x`-prefixed hexadecimal words read back as their addresses |
| JemallocProps.ParseCountWord | src/prof/src/jemalloc.rs:122 | `<n>:` reads back as the object count `n` |
| JemallocProps.ParsePrintedProfile | src/prof/src/jemalloc.rs:63-137 | a profile printed in the heap_v2 format parses back to exactly its stacks |
| ReduceFusion.MapAndProject | src/transform/src/fusion/reduce.rs:61-74 | the two loops build the mapped scalars (the non-column keys, in order) and the projection `KeyOutputsAsWritten`: the column keys' indices, then `arity + j` per non-column key |
| ReduceFusion.Fuse | src/transform/src/fusion/reduce.rs:34-122 | the rule as written; its properties are `FuseChangesIff`, `FusePreservesArity`, `FusePreservesWellFormed`, `FuseRemovesReduce` and `FuseAgreesIff` |
| ReduceFusion.Action | src/transform/src/fusion/reduce.rs:34-122 | the imperative rewrite, guards in source order, equals `Fuse`, the rule as written |
| ReduceFusion.FuseChangesIff | src/transform/src/fusion/reduce.rs:35-116 | the rewrite changes the relation iff it is a Reduce over a Reduce, the outer key is a subset of columns of the inner key, and either both have no aggregates or it is a SumInt64 over the Count column whose argument is not a key |
| ReduceFusion.FusePreservesArity | src/transform/src/fusion/reduce.rs:59-116 | the rewritten relation has the same number of columns |
| ReduceFusion.FusePreservesWellFormed | src/transform/src/fusion/reduce.rs:59-116 | every column reference of the rewritten relation stays within its input's arity |
| ReduceFusion.KeyOutputsAsWrittenInRange | src/transform/src/fusion/reduce.rs:71-76 | every projected column exists in the mapped input |
| ReduceFusion.FusedInputMatchesInnerKey | src/transform/src/fusion/reduce.rs:59-76 | the positional projection `KeyOutputs` that `FuseIntended` uses yields the inner key's columns, in the inner key's order |
| ReduceFusion.FusedCountColumns | src/transform/src/fusion/reduce.rs:100-116 | after fusion the outer key columns keep their places and the sum column becomes the count cast to decimal |
| ReduceFusion.KeyOutputsAsWritten | src/transform/src/fusion/reduce.rs:61-74 | the outputs as written: the column keys first, then the scalar keys |
| ReduceFusion.AsWrittenReordersKey | src/transform/src/fusion/reduce.rs:61-74 | with the outputs as written, a scalar key in front of a column key comes out behind it |
| ReduceFusion.AsWrittenKeepsKeyIff | src/transform/src/fusion/reduce.rs:59-76 | the map-and-project as written yields the inner key, column for column, exactly when no non-column key comes before a column key |
| ReduceFusion.AsWrittenIsIntendedIff | src/transform/src/fusion/reduce.rs:61-74 | the projection as written equals the positional one exactly when no non-column key comes before a column key |
| ReduceFusion.FuseAgreesIff | src/transform/src/fusion/reduce.rs:59-76 | the rule as written and as intended give the same expression unless the aggregate-free case fires on an inner key with a non-column key before a column key |
| ReduceFusion.FuseRemovesReduce | src/transform/src/fusion/reduce.rs:59-116 | a rewrite removes exactly one Reduce |
| ReduceFusion.TransformAll | src/transform/src/fusion/reduce.rs:25-27 | visiting children keeps their number |
| ReduceFusion.TransformAllPointwise | src/transform/src/fusion/reduce.rs:25-27 | each child is transformed in its own place |
| ReduceFusion.TransformPreservesArity | src/transform/src/fusion/reduce.rs:19-30 | the pre-order pass keeps the number of columns |
| ReduceFusion.TransformPreservesWellFormed | src/transform/src/fusion/reduce.rs:19-30 | the pre-order pass keeps every column reference in range |
| QueryModel.SelectBoxes | src/sql/src/query_model.rs:39-41 | the boxes allocated over an id range are exactly those ids |
| QueryModel.Model.constructor | src/sql/src/query_model.rs:15-23 | empty box and quantifier tables, both counters at 0, top box 0 |
| QueryModel.Model.MakeBox | src/sql/src/query_model.rs:25-37 | returns the old next box id, advances it by one, stores a box with that id, the given type and empty columns and quantifier sets under it; nothing else changes and the id-table invariant holds |
| QueryModel.Model.MakeSelectBox | src/sql/src/query_model.rs:39-41 | `make_box` of a fresh `Select` |
| QueryModel.Model.GetBox | src/sql/src/query_model.rs:43-45 | requires the id to be present; in a valid model the box found carries that id |
| QueryModel.Dereference | src/sql/src/query_model.rs:156-163 | requires the quantifier, its input box and the position to exist (the source's `unwrap()`s and index); the result is the expression of one of the input box's columns |
| QueryModel.FreshBoxHasNoColumns | src/sql/src/query_model.rs:25-37 | a box as `make_box` stores it has no columns, so no reference through a quantifier over it resolves |
| QueryModel.SharedInputBoxSameColumn | src/sql/src/query_model.rs:156-163 | references at the same position through quantifiers over the same box dereference to the same expression |
| QueryModel.DereferenceKeptByNewQuantifier | src/sql/src/query_model.rs:156-163 | adding a quantifier under an unused id does not change what an existing reference dereferences to |
| QueryModel.DereferenceKeptByNewBox | src/sql/src/query_model.rs:25-37 | allocating a box does not change what an existing column reference dereferences to |
| QueryModel.Process | src/sql/src/query_model.rs:208-219 | processing a query allocates at least its own box |
| QueryModel.ProcessCtes | src/sql/src/query_model.rs:221-233 | on success one box id per common table expression |
| QueryModel.ProcessQuery | src/sql/src/query_model.rs:208-219 | allocates boxes exactly as `Process` says, adds only fresh `Select` boxes with the new ids, and leaves the top box and quantifiers alone |
| QueryModel.AddCtesToContext | src/sql/src/query_model.rs:221-233 | processes each common table expression in turn, binds each alias to its box in the context, and stops at the first error |
| QueryModel.ProcessQueryBody | src/sql/src/query_model.rs:235-245 | succeeds iff the body is a plain `SELECT`; otherwise the unsupported error |
| QueryModel.ProcessSelect | src/sql/src/query_model.rs:247-256 | a `SELECT` body always succeeds |
| QueryModel.ProcessFromClause | src/sql/src/query_model.rs:258-265 | the `FROM` step always succeeds |
| QueryModel.ProcessTopLevelQuery | src/sql/src/query_model.rs:202-206 | on success the query's own box becomes the top box |
| QueryModel.Generate | src/sql/src/query_model.rs:183-190 | succeeds iff every query and nested common table expression has a `SELECT` body; then the model is valid, its top box is 0 and it holds exactly one fresh `Select` box per query |
| QueryModel.SelectBoxesJoin | src/sql/src/query_model.rs:25-37 | boxes allocated over consecutive id ranges add up to the boxes of the whole range |
| QueryModel.ProcessCtesPrefixFails | src/sql/src/query_model.rs:227-228 | once a common table expression fails, the later ones are not processed |
| QueryModel.ProcessSucceedsIff | src/sql/src/query_model.rs:208-219 | processing succeeds iff all bodies are `SELECT`; then the query's box is the first id and one box is used per query |
| QueryModel.CtesSucceedIff | src/sql/src/query_model.rs:221-233 | the common table expressions succeed iff all their bodies are `SELECT`, using one box per query |
| QueryModel.CteIdsFresh | src/sql/src/query_model.rs:226-231 | each common table expression gets its own fresh box id, in increasing order |
| QueryModel.OwnBoxComesFirst | src/sql/src/query_model.rs:213-215 | a query's own box is allocated before those of its common table expressions |

## Left out

- I/O, `async` and the network are left out. Reading the txns upper, the cache's `update_ge`, persist's batch builder and the file reader are state the methods read directly, or a given sequence of lines.
- Transaction encoding is left out. `TxnsCodec`, the `Codec`/`Codec64` encodings and `into_transmittable_batch` are not modelled: a batch descriptor is a natural number.
- `TxnsCache::filter_retractions`, `apply_le` and `Tidy` live in files that are not part of this model. They are modelled from their documented behaviour: the net count of an Append in the txns log, and a set of entries with union as merge.
- TxnWrite.Txn.CommitAt: the registration `assert!` that panics is a precondition, not a modelled panic.
- Competing writers to the txns shard are not modelled as such. They appear in `TxnsShard.CompareAndAppend` as a nondeterministic commit that may land first and strictly advances the upper.
- Logging (`debug!`) and `into_hollow_batch` are left out. They have no effect on the modelled state.
- TxnWrite.Txn.Merge: `other` is read, not consumed. Rust's move of `other` is not modelled.
- `Txn::tidy` is named `AddTidy`, because `Tidy` is the name of the tidy datatype.
- `D: Semigroup` diffs are integers.
- Jemalloc.ParseJeheap: the floating-point weight computed at src/prof/src/jemalloc.rs:126-128 is not modelled. A stack carries the three numbers it is computed from: objects, bytes and sampling rate.
- Jemalloc.ParseJeheap: a line that fails to read (`line?`) is not modelled, because the input is the file's lines. `StackProfile::push`'s annotation argument (`None`) is left out.
- Parse errors are modelled as an error kind, not as `anyhow` messages.
- ReduceFusion.Fuse and ReduceFusion.Action model the aggregate-free projection as `reduce.rs` builds it, including the reordering listed under Findings. `ReduceFusion.FuseIntended` is the rule with the positional projection, and `FuseAgreesIff` says when the two differ.
- ReduceFusion.Fuse: in the count case the fused `Reduce` keeps the outer key, whose columns referred to the inner `Reduce`'s output, over the inner input, as the source does. The model does not state the meaning of those key columns after fusion.
- ReduceFusion.Action: the source rewrites the expression in place through `&mut`. The model returns the rewritten expression as a value, with no `take_dangerous` aliasing.
- `MirRelationExpr` is reduced to `Get`, `Reduce`, `Map`, `Project` and an opaque `Other` node with children. Scalars are reduced to columns, literals and unary calls. Aggregates are reduced to `Count`, `SumInt64` and one opaque function.
- `MirRelationExpr::map` and `project` are modelled as plain constructors. The source's builders may merge them into an existing `Map`/`Project`. The arity is modelled only as far as the rewrite uses it.
- `visit_mut_pre` is modelled by `ReduceFusion.Transform`: it rewrites a node once, then visits the children of the result. `Transform` itself has no contract; its properties are the lemmas about it.
- `Model::get_box_mut` is not modelled. It only hands out a reference for mutation, and no modelled operation mutates a box after creation.
- QueryModel.Dereference takes the box and quantifier tables, not the model object. A missing quantifier, box or position is a precondition (the source's `unwrap()` and index panics).
- The `NameResolutionContext` is modelled as a value whose parent and sibling links are copies, not borrows. A context is dropped after its query is processed, as in the source.
- The SQL parser's AST is reduced to queries with common table expressions and a body that is either a plain `SELECT` (with its `FROM` list) or anything else.
- `BaseTable`, `TableFunction` and the other box payloads beyond their fields are left out. `Grouping`, `OuterJoin` and `Values` are kept as plain data.
- `usize` and `u64` counters (`next_box_id`, timestamps) are unbounded. Overflow is not modelled except in `usize` parsing, where it is an error.

## Findings

| source | as written | input that shows it | evidently intended | confidence | as-written member | corrected member |
|---|---|---|---|---|---|---|
| src/transform/src/fusion/reduce.rs:61-74 | The map-and-project that replaces an aggregate-free inner `Reduce` lists all column keys first, then `arity + j` for the non-column keys. | Inner key `[Literal(5), Column(0)]` over a one-column input: the projection yields `[Column(0), Literal(5)]`. The outer `Reduce`'s column references then address the wrong columns. | The projection keeps each inner key expression at its own position. | not executed | ReduceFusion.AsWrittenReordersKey | ReduceFusion.FusedInputMatchesInnerKey |
