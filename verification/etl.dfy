/**
 * The run loop: process each chunk, number its rows from a running offset,
 * merge repeats into the store and append the rest, stopping after the
 * debug chunk index. RunETL is the loop as written; RunETLWithLedger is
 * the same loop with the ledger carried from chunk to chunk.
 */
module Etl {
  import opened Wrappers
  import opened Cleaning
  import opened Aggregation
  import opened Ledger
  import opened Merge

  /** ids = np.arange(n) + offset, set as the chunk's index. */
  function WithIds(aggs: seq<Aggregate>, offset: int): (rows: seq<Row>)
    ensures |rows| == |aggs|
    ensures forall i :: 0 <= i < |aggs| ==> rows[i] == Row(offset + i, aggs[i])
  {
    seq(|aggs|, i requires 0 <= i < |aggs| => Row(offset + i, aggs[i]))
  }

  lemma WithIdsFacts(aggs: seq<Aggregate>, offset: int)
    ensures AggsOf(WithIds(aggs, offset)) == aggs
    ensures RowKeys(WithIds(aggs, offset)) == AggKeys(aggs)
    ensures UniqueIds(WithIds(aggs, offset))
  {
    var rows := WithIds(aggs, offset);
    forall k | k in AggKeys(aggs)
      ensures k in RowKeys(rows)
    {
      var i :| 0 <= i < |aggs| && KeyOf(aggs[i]) == k;
      assert rows[i] in rows;
    }
  }

  /** The processed form of each chunk, in chunk order. */
  function ProcessAll(chunks: seq<seq<RawRow>>): (ps: seq<seq<Aggregate>>)
    ensures |ps| == |chunks|
  {
    if chunks == [] then [] else ProcessAll(chunks[..|chunks| - 1]) + [Process(chunks[|chunks| - 1])]
  }

  /** Processing one more chunk appends its processed form. */
  lemma ProcessAllTake(chunks: seq<seq<RawRow>>, i: int)
    requires 0 <= i < |chunks|
    ensures ProcessAll(chunks[..i + 1]) == ProcessAll(chunks[..i]) + [Process(chunks[i])]
  {
    assert chunks[..i + 1][..i] == chunks[..i];
  }

  /** How many chunks the loop processes: up to and including debug_chunk_index, or all when that index is never reached. */
  function ChunksRun(n: nat, debugChunkIndex: int): (m: nat)
    ensures m <= n
  {
    if 0 <= debugChunkIndex < n then debugChunkIndex + 1 else n
  }

  // ---------------------------------------------------------------------
  // The loop as written: the ledger stays empty
  // ---------------------------------------------------------------------

  /** What the run as written stores: every processed chunk, numbered on from the rows before it. */
  function Loaded(ps: seq<seq<Aggregate>>): (rows: seq<Row>)
    ensures forall j :: 0 <= j < |rows| ==> rows[j].id == j
  {
    if ps == [] then []
    else
      var prior := Loaded(ps[..|ps| - 1]);
      prior + WithIds(ps[|ps| - 1], |prior|)
  }

  lemma LoadedSnoc(ps: seq<seq<Aggregate>>, p: seq<Aggregate>)
    ensures Loaded(ps + [p]) == Loaded(ps) + WithIds(p, |Loaded(ps)|)
  {
    assert (ps + [p])[..|ps|] == ps;
  }

  /** All processed aggregates, chunk after chunk. */
  function Flatten(ps: seq<seq<Aggregate>>): seq<Aggregate>
  {
    if ps == [] then [] else Flatten(ps[..|ps| - 1]) + ps[|ps| - 1]
  }

  /**
   * With the ledger empty, nothing is ever merged: the store holds every
   * processed aggregate of every chunk, and row j has id j.
   */
  lemma {:induction false} LoadedKeepsEverything(ps: seq<seq<Aggregate>>)
    ensures AggsOf(Loaded(ps)) == Flatten(ps)
    ensures forall j :: 0 <= j < |Loaded(ps)| ==> Loaded(ps)[j].id == j
    decreases |ps|
  {
    if ps != [] {
      var prior := Loaded(ps[..|ps| - 1]);
      var p := ps[|ps| - 1];
      LoadedKeepsEverything(ps[..|ps| - 1]);
      WithIdsFacts(p, |prior|);
      AggsOfAppend(prior, WithIds(p, |prior|));
    }
  }

  /**
   * run_ETL as written. process_intersections drops the grown ledger, so
   * `entries` stays empty, no key is ever found repeated, and every
   * processed row is appended under the next ids.
   */
  method RunETL(chunks: seq<seq<RawRow>>, debugChunkIndex: int) returns (store: Store)
    ensures fresh(store)
    ensures store.rows == Loaded(ProcessAll(chunks[..ChunksRun(|chunks|, debugChunkIndex)]))
  {
    store := new Store();
    var entries: set<Key> := {};
    var offset := 0;
    for i := 0 to |chunks|
      invariant !(0 <= debugChunkIndex < i)
      invariant store.rows == Loaded(ProcessAll(chunks[..i]))
      invariant offset == |store.rows|
    {
      ProcessAllTake(chunks, i);
      var processed := Process(chunks[i]);
      var numbered := WithIds(processed, offset);
      offset := offset + |processed|;
      var residual := ProcessIntersections(store, numbered, entries);
      store.Append(residual.value);
      LoadedSnoc(ProcessAll(chunks[..i]), processed);
      if i == debugChunkIndex {
        assert ChunksRun(|chunks|, debugChunkIndex) == i + 1;
        break;
      }
    }
  }

  // ---------------------------------------------------------------------
  // The loop with the ledger carried across chunks
  // ---------------------------------------------------------------------

  /** Every key of the processed chunks. */
  function KeysSeen(ps: seq<seq<Aggregate>>): set<Key>
  {
    if ps == [] then {} else KeysSeen(ps[..|ps| - 1]) + AggKeys(ps[|ps| - 1])
  }

  /** What the processed chunks hold for key k, added up. */
  function TotalOver(ps: seq<seq<Aggregate>>, k: Key): Sums
  {
    if ps == [] then Zero else Add(TotalOver(ps[..|ps| - 1], k), AggSums(ps[|ps| - 1], k))
  }

  /** Reference definition: the sums over every cleaned listing with key k in the raw chunks. */
  function ListingSums(chunks: seq<seq<RawRow>>, k: Key): Sums
  {
    if chunks == [] then Zero
    else Add(ListingSums(chunks[..|chunks| - 1], k), GroupSums(Cleaned(chunks[|chunks| - 1]), k))
  }

  /** Adding up the processed chunks gives the sums over their cleaned listings. */
  lemma {:induction false} TotalOverIsListingSums(chunks: seq<seq<RawRow>>, k: Key)
    ensures TotalOver(ProcessAll(chunks), k) == ListingSums(chunks, k)
    decreases |chunks|
  {
    if chunks != [] {
      var init := chunks[..|chunks| - 1];
      TotalOverIsListingSums(init, k);
      ProcessSums(chunks[|chunks| - 1], k);
    }
  }

  /** The whole input: the chunks read back to back. */
  function Concat(chunks: seq<seq<RawRow>>): seq<RawRow>
  {
    if chunks == [] then [] else Concat(chunks[..|chunks| - 1]) + chunks[|chunks| - 1]
  }

  /**
   * Chunking does not change the totals: adding up each chunk's group for
   * key k gives the group for k over the whole input read as one.
   */
  lemma {:induction false} ListingSumsIsWholeInput(chunks: seq<seq<RawRow>>, k: Key)
    ensures ListingSums(chunks, k) == GroupSums(Cleaned(Concat(chunks)), k)
    decreases |chunks|
  {
    if chunks != [] {
      var init := chunks[..|chunks| - 1];
      ListingSumsIsWholeInput(init, k);
      GroupSumsCleanedAppend(Concat(init), chunks[|chunks| - 1], k);
    }
  }

  lemma SeenSnoc(ps: seq<seq<Aggregate>>, p: seq<Aggregate>)
    ensures KeysSeen(ps + [p]) == KeysSeen(ps) + AggKeys(p)
  {
    assert (ps + [p])[..|ps|] == ps;
  }

  lemma TotalOverSnoc(ps: seq<seq<Aggregate>>, p: seq<Aggregate>, k: Key)
    ensures TotalOver(ps + [p], k) == Add(TotalOver(ps, k), AggSums(p, k))
  {
    assert (ps + [p])[..|ps|] == ps;
  }

  /** Store, ledger and processed chunks agree, and every id is below `offset`. */
  ghost predicate Consistent(rows: seq<Row>, entries: set<Key>, ps: seq<seq<Aggregate>>, offset: int)
  {
    && 0 <= offset
    && DistinctRowKeys(rows)
    && RowKeys(rows) == entries == KeysSeen(ps)
    && (forall j :: 0 <= j < |rows| ==> rows[j].agg.sums == TotalOver(ps, KeyOf(rows[j].agg)))
    && (forall a, b :: 0 <= a < b < |rows| ==> rows[a].id < rows[b].id)
    && (forall j :: 0 <= j < |rows| ==> 0 <= rows[j].id < offset)
  }

  lemma {:induction false} TotalOverUnseen(ps: seq<seq<Aggregate>>, k: Key)
    requires k !in KeysSeen(ps)
    ensures TotalOver(ps, k) == Zero
    decreases |ps|
  {
    if ps != [] {
      TotalOverUnseen(ps[..|ps| - 1], k);
      AggSumsAbsent(ps[|ps| - 1], k);
    }
  }

  /** The repeats of a chunk each answer the point query with exactly one row. */
  lemma RepeatsAnswerOnce(rows: seq<Row>, entries: set<Key>, chunk: seq<Row>)
    requires DistinctRowKeys(rows) && RowKeys(rows) == entries
    ensures forall k :: k in AddEntries(chunk, entries).0 ==> |Matching(rows, k)| == 1
  {
    forall k | k in AddEntries(chunk, entries).0
      ensures |Matching(rows, k)| == 1
    {
      MatchingDistinct(rows, k);
    }
  }

  /** The residual keeps the chunk's distinct keys and increasing ids. */
  lemma {:induction false} KeepNewOrdered(chunk: seq<Row>, repeats: set<Key>)
    requires DistinctRowKeys(chunk)
    requires forall a, b :: 0 <= a < b < |chunk| ==> chunk[a].id < chunk[b].id
    ensures DistinctRowKeys(KeepNew(chunk, repeats))
    ensures forall a, b :: 0 <= a < b < |KeepNew(chunk, repeats)| ==>
      KeepNew(chunk, repeats)[a].id < KeepNew(chunk, repeats)[b].id
    decreases |chunk|
  {
    if chunk != [] {
      var init := chunk[..|chunk| - 1];
      var last := chunk[|chunk| - 1];
      OrderedInit(chunk, init);
      KeepNewOrdered(init, repeats);
      var r := KeepNew(init, repeats);
      forall x | x in r
        ensures KeyOf(x.agg) != KeyOf(last.agg) && x.id < last.id
      {
        OrderedLast(chunk, x);
      }
      if KeyOf(last.agg) !in repeats {
        assert KeepNew(chunk, repeats) == r + [last];
        SnocOrdered(r, last);
      } else {
        assert KeepNew(chunk, repeats) == r;
      }
    }
  }

  /** Dropping the last row keeps keys distinct and ids increasing. */
  lemma OrderedInit(chunk: seq<Row>, init: seq<Row>)
    requires chunk != [] && init == chunk[..|chunk| - 1]
    requires DistinctRowKeys(chunk)
    requires forall a, b :: 0 <= a < b < |chunk| ==> chunk[a].id < chunk[b].id
    ensures DistinctRowKeys(init)
    ensures forall a, b :: 0 <= a < b < |init| ==> init[a].id < init[b].id
  {
  }

  /** Every row before the last has another key and a smaller id. */
  lemma OrderedLast(chunk: seq<Row>, x: Row)
    requires chunk != [] && x in chunk[..|chunk| - 1]
    requires DistinctRowKeys(chunk)
    requires forall a, b :: 0 <= a < b < |chunk| ==> chunk[a].id < chunk[b].id
    ensures KeyOf(x.agg) != KeyOf(chunk[|chunk| - 1].agg) && x.id < chunk[|chunk| - 1].id
  {
    var m :| 0 <= m < |chunk| - 1 && chunk[..|chunk| - 1][m] == x;
    assert chunk[m] == x;
  }

  /** A row after every row of an ordered list, with a new key, extends it. */
  lemma SnocOrdered(r: seq<Row>, last: Row)
    requires DistinctRowKeys(r)
    requires forall a, b :: 0 <= a < b < |r| ==> r[a].id < r[b].id
    requires forall x :: x in r ==> KeyOf(x.agg) != KeyOf(last.agg) && x.id < last.id
    ensures DistinctRowKeys(r + [last])
    ensures forall a, b :: 0 <= a < b < |r + [last]| ==> (r + [last])[a].id < (r + [last])[b].id
  {
    var s := r + [last];
    forall a, b | 0 <= a < b < |s|
      ensures KeyOf(s[a].agg) != KeyOf(s[b].agg) && s[a].id < s[b].id
    {
      assert s[a] == r[a] && s[a] in r;
      if b < |r| {
        assert s[b] == r[b];
      }
    }
  }

  /** A stored row after the merge holds its key's totals over one more chunk. */
  lemma MergedRowSums(row: Row, ps: seq<seq<Aggregate>>, p: seq<Aggregate>, offset: int, repeats: set<Key>)
    requires row.agg.sums == TotalOver(ps, KeyOf(row.agg))
    requires KeyOf(row.agg) in AggKeys(p) ==> KeyOf(row.agg) in repeats
    ensures Merged(row, WithIds(p, offset), repeats).agg.sums == TotalOver(ps + [p], KeyOf(row.agg))
  {
    var k := KeyOf(row.agg);
    var n := WithIds(p, offset);
    TotalOverSnoc(ps, p, k);
    if k in repeats {
      WithIdsFacts(p, offset);
      assert Merged(row, n, repeats).agg.sums == Add(AggSums(p, k), row.agg.sums);
    } else {
      AggSumsAbsent(p, k);
      assert Merged(row, n, repeats) == row;
    }
  }

  /** A residual row of the chunk holds its key's totals over all chunks so far. */
  lemma NewRowSums(ps: seq<seq<Aggregate>>, p: seq<Aggregate>, m: nat)
    requires DistinctKeys(p) && m < |p|
    requires KeyOf(p[m]) !in KeysSeen(ps)
    ensures p[m].sums == TotalOver(ps + [p], KeyOf(p[m]))
  {
    var k := KeyOf(p[m]);
    TotalOverSnoc(ps, p, k);
    AggSumsAt(p, m);
    TotalOverUnseen(ps, k);
    assert TotalOver(ps + [p], k) == Add(Zero, p[m].sums);
    AddZero(p[m].sums);
  }

  /** The sums part of one step: merged rows and residual rows hold the running totals. */
  lemma StepSums(rows: seq<Row>, updated: seq<Row>, entries: set<Key>, ps: seq<seq<Aggregate>>,
                 p: seq<Aggregate>, offset: int)
    requires Consistent(rows, entries, ps, offset) && DistinctKeys(p)
    requires var n := WithIds(p, offset);
      |updated| == |rows| &&
      forall j :: 0 <= j < |rows| ==> updated[j] == Merged(rows[j], n, AddEntries(n, entries).0)
    ensures var n := WithIds(p, offset);
      var all := updated + KeepNew(n, AddEntries(n, entries).0);
      forall j :: 0 <= j < |all| ==> all[j].agg.sums == TotalOver(ps + [p], KeyOf(all[j].agg))
  {
    var n := WithIds(p, offset);
    var repeats := AddEntries(n, entries).0;
    var residual := KeepNew(n, repeats);
    var all := updated + residual;
    WithIdsFacts(p, offset);
    forall j | 0 <= j < |updated|
      ensures updated[j].agg.sums == TotalOver(ps + [p], KeyOf(updated[j].agg))
    {
      assert rows[j] in rows;
      MergedRowSums(rows[j], ps, p, offset, repeats);
    }
    forall x | x in residual
      ensures x.agg.sums == TotalOver(ps + [p], KeyOf(x.agg))
    {
      var m :| 0 <= m < |n| && n[m] == x;
      NewRowSums(ps, p, m);
    }
    forall j | 0 <= j < |all|
      ensures all[j].agg.sums == TotalOver(ps + [p], KeyOf(all[j].agg))
    {
      if j >= |updated| {
        assert all[j] == residual[j - |updated|];
      }
    }
  }

  /** A numbered chunk with distinct keys has distinct row keys and increasing ids from `offset`. */
  lemma WithIdsOrdered(p: seq<Aggregate>, offset: int)
    requires DistinctKeys(p)
    ensures DistinctRowKeys(WithIds(p, offset))
    ensures forall a, b :: 0 <= a < b < |p| ==> WithIds(p, offset)[a].id < WithIds(p, offset)[b].id
    ensures forall x :: x in WithIds(p, offset) ==> offset <= x.id < offset + |p|
  {
    var n := WithIds(p, offset);
    forall a, b | 0 <= a < b < |n|
      ensures KeyOf(n[a].agg) != KeyOf(n[b].agg)
    {
      assert n[a].agg == p[a] && n[b].agg == p[b];
    }
  }

  /** The residual holds the chunk rows whose keys the ledger does not hold. */
  lemma ResidualKeys(n: seq<Row>, entries: set<Key>)
    ensures RowKeys(KeepNew(n, AddEntries(n, entries).0)) == RowKeys(n) - entries
  {
    var residual := KeepNew(n, AddEntries(n, entries).0);
    forall k | k in RowKeys(n) - entries
      ensures k in RowKeys(residual)
    {
      var x :| x in n && KeyOf(x.agg) == k;
      var i :| 0 <= i < |n| && n[i] == x;
      assert x in residual;
    }
  }

  /**
   * Stored rows (merged in place) followed by the residual: keys stay
   * distinct and ids keep increasing when the residual's keys are new and
   * its ids come after every stored id.
   */
  lemma ConcatOrdered(rows: seq<Row>, updated: seq<Row>, residual: seq<Row>, entries: set<Key>,
                      offset: int, hi: int)
    requires SameShape(rows, updated)
    requires DistinctRowKeys(rows) && RowKeys(rows) == entries
    requires forall a, b :: 0 <= a < b < |rows| ==> rows[a].id < rows[b].id
    requires forall j :: 0 <= j < |rows| ==> 0 <= rows[j].id < offset
    requires 0 <= offset <= hi
    requires DistinctRowKeys(residual)
    requires forall a, b :: 0 <= a < b < |residual| ==> residual[a].id < residual[b].id
    requires forall x :: x in residual ==> KeyOf(x.agg) !in entries && offset <= x.id < hi
    ensures var all := updated + residual;
      && DistinctRowKeys(all)
      && (forall a, b :: 0 <= a < b < |all| ==> all[a].id < all[b].id)
      && (forall j :: 0 <= j < |all| ==> 0 <= all[j].id < hi)
  {
    var all := updated + residual;
    forall a, b | 0 <= a < b < |all|
      ensures KeyOf(all[a].agg) != KeyOf(all[b].agg) && all[a].id < all[b].id
    {
      if b < |updated| {
        assert all[a] == updated[a] && all[b] == updated[b];
      } else if a < |updated| {
        assert rows[a] in rows;
        assert all[a] == updated[a] && all[b] in residual;
      } else {
        assert all[a] == residual[a - |updated|] && all[b] == residual[b - |updated|];
      }
    }
    forall j | 0 <= j < |all|
      ensures 0 <= all[j].id < hi
    {
      if j >= |updated| {
        assert all[j] in residual;
      } else {
        assert all[j] == updated[j];
      }
    }
  }

  /** The id and key part of one step: one row per key, increasing ids below the new offset. */
  lemma StepShape(rows: seq<Row>, updated: seq<Row>, entries: set<Key>, ps: seq<seq<Aggregate>>,
                  p: seq<Aggregate>, offset: int)
    requires Consistent(rows, entries, ps, offset) && DistinctKeys(p)
    requires SameShape(rows, updated)
    ensures var n := WithIds(p, offset);
      var all := updated + KeepNew(n, AddEntries(n, entries).0);
      && DistinctRowKeys(all)
      && RowKeys(all) == AddEntries(n, entries).1
      && (forall a, b :: 0 <= a < b < |all| ==> all[a].id < all[b].id)
      && (forall j :: 0 <= j < |all| ==> 0 <= all[j].id < offset + |p|)
  {
    var n := WithIds(p, offset);
    var repeats := AddEntries(n, entries).0;
    var residual := KeepNew(n, repeats);
    WithIdsOrdered(p, offset);
    KeepNewOrdered(n, repeats);
    SameShapeKeys(rows, updated);
    ResidualKeys(n, entries);
    RowKeysAppend(updated, residual);
    ConcatOrdered(rows, updated, residual, entries, offset, offset + |p|);
  }

  /** One chunk of the run with the ledger kept: consistency carries over to the next chunk. */
  lemma LedgerStep(rows: seq<Row>, updated: seq<Row>, entries: set<Key>, ps: seq<seq<Aggregate>>,
                   p: seq<Aggregate>, offset: int)
    requires Consistent(rows, entries, ps, offset) && DistinctKeys(p)
    requires var n := WithIds(p, offset);
      |updated| == |rows| &&
      forall j :: 0 <= j < |rows| ==> updated[j] == Merged(rows[j], n, AddEntries(n, entries).0)
    ensures var n := WithIds(p, offset);
      Consistent(updated + KeepNew(n, AddEntries(n, entries).0), AddEntries(n, entries).1,
                 ps + [p], offset + |p|)
  {
    var n := WithIds(p, offset);
    WithIdsFacts(p, offset);
    SeenSnoc(ps, p);
    assert KeysSeen(ps + [p]) == AddEntries(n, entries).1;
    StepSums(rows, updated, entries, ps, p, offset);
    StepShape(rows, updated, entries, ps, p, offset);
  }

  /**
   * One pass of the loop body with the ledger kept: number the processed
   * chunk from `offset`, merge its repeats into the store, append the rest
   * and return the grown ledger.
   */
  method LoadChunk(store: Store, processed: seq<Aggregate>, entries: set<Key>, offset: int,
                   ghost ps: seq<seq<Aggregate>>)
    returns (newEntries: set<Key>)
    requires Consistent(store.rows, entries, ps, offset) && DistinctKeys(processed)
    modifies store
    ensures Consistent(store.rows, newEntries, ps + [processed], offset + |processed|)
  {
    var numbered := WithIds(processed, offset);
    ghost var before := store.rows;
    RepeatsAnswerOnce(before, entries, numbered);
    WithIdsFacts(processed, offset);
    ResidualIsKeepNew(numbered, AddEntries(numbered, entries).0);
    var residual;
    residual, newEntries := ProcessIntersectionsWithLedger(store, numbered, entries);
    ghost var updated := store.rows;
    store.Append(residual.value);
    LedgerStep(before, updated, entries, ps, processed, offset);
  }

  method RunETLWithLedger(chunks: seq<seq<RawRow>>, debugChunkIndex: int) returns (store: Store)
    ensures fresh(store)
    ensures var seen := chunks[..ChunksRun(|chunks|, debugChunkIndex)];
      && DistinctRowKeys(store.rows)
      && RowKeys(store.rows) == KeysSeen(ProcessAll(seen))
      && (forall j :: 0 <= j < |store.rows| ==>
            store.rows[j].agg.sums == ListingSums(seen, KeyOf(store.rows[j].agg)))
      && (forall j :: 0 <= j < |store.rows| ==>
            store.rows[j].agg.sums == GroupSums(Cleaned(Concat(seen)), KeyOf(store.rows[j].agg)))
      && (forall a, b :: 0 <= a < b < |store.rows| ==> 0 <= store.rows[a].id < store.rows[b].id)
  {
    store := new Store();
    var entries: set<Key> := {};
    var offset := 0;
    for i := 0 to |chunks|
      invariant !(0 <= debugChunkIndex < i)
      invariant Consistent(store.rows, entries, ProcessAll(chunks[..i]), offset)
    {
      ProcessAllTake(chunks, i);
      var processed := Process(chunks[i]);
      ProcessDistinct(chunks[i]);
      entries := LoadChunk(store, processed, entries, offset, ProcessAll(chunks[..i]));
      offset := offset + |processed|;
      if i == debugChunkIndex {
        assert ChunksRun(|chunks|, debugChunkIndex) == i + 1;
        break;
      }
    }
    ghost var seen := chunks[..ChunksRun(|chunks|, debugChunkIndex)];
    forall j | 0 <= j < |store.rows|
      ensures store.rows[j].agg.sums == ListingSums(seen, KeyOf(store.rows[j].agg))
    {
      TotalOverIsListingSums(seen, KeyOf(store.rows[j].agg));
    }
    forall j | 0 <= j < |store.rows|
      ensures store.rows[j].agg.sums == GroupSums(Cleaned(Concat(seen)), KeyOf(store.rows[j].agg))
    {
      ListingSumsIsWholeInput(seen, KeyOf(store.rows[j].agg));
    }
  }

  // ---------------------------------------------------------------------
  // One listing key in two chunks, under both loops
  // ---------------------------------------------------------------------

  lemma ProcessAllTwice(x: RawRow)
    requires Complete(x) && '-' !in x.zip.value
    ensures ProcessAll([[x], [x]]) == [[Single(Known(x))], [Single(Known(x))]]
  {
    ProcessOne(x);
    assert [[x], [x]][..1] == [[x]];
    assert [[x]][..0] == [];
  }

  /**
   * As written, a key met again in a later chunk is stored again: the
   * store ends with two rows for one key, each holding one chunk's sums.
   */
  lemma AsWrittenStoresRepeatTwice(x: RawRow)
    requires Complete(x) && '-' !in x.zip.value
    ensures var a := Single(Known(x));
      Loaded(ProcessAll([[x], [x]])) == [Row(0, a), Row(1, a)]
    ensures !DistinctRowKeys(Loaded(ProcessAll([[x], [x]])))
  {
    var a := Single(Known(x));
    ProcessAllTwice(x);
    LoadedTwice(a);
    var rows := Loaded(ProcessAll([[x], [x]]));
    assert rows[0].agg == rows[1].agg;
  }

  /** The same one-aggregate chunk loaded twice: two rows, ids 0 and 1. */
  lemma LoadedTwice(a: Aggregate)
    ensures Loaded([[a], [a]]) == [Row(0, a), Row(1, a)]
  {
    assert WithIds([a], 0) == [Row(0, a)];
    assert WithIds([a], 1) == [Row(1, a)];
    LoadedSnoc([], [a]);
    assert [] + [[a]] == [[a]];
    assert Loaded([[a]]) == [Row(0, a)];
    LoadedSnoc([[a]], [a]);
    assert [[a]] + [[a]] == [[a], [a]];
  }

  /** run_ETL as written, on one listing repeated in two chunks. */
  method RepeatAsWritten(x: RawRow) returns (store: Store)
    requires Complete(x) && '-' !in x.zip.value
    ensures |store.rows| == 2
    ensures store.rows[0].agg == store.rows[1].agg == Single(Known(x))
  {
    store := RunETL([[x], [x]], -1);
    assert [[x], [x]][..2] == [[x], [x]];
    AsWrittenStoresRepeatTwice(x);
  }

  lemma KeysSeenTwice(x: RawRow)
    requires Complete(x) && '-' !in x.zip.value
    ensures KeysSeen(ProcessAll([[x], [x]])) == {ListingKey(Known(x))}
  {
    var a := Single(Known(x));
    ProcessAllTwice(x);
    assert [[a], [a]][..1] == [[a]];
    assert [[a]][..0] == [];
    assert AggKeys([a]) == {KeyOf(a)};
    assert KeysSeen([[a]]) == {KeyOf(a)};
  }

  lemma RowKeysSnoc(rows: seq<Row>)
    requires rows != []
    ensures RowKeys(rows) == RowKeys(rows[..|rows| - 1]) + {KeyOf(rows[|rows| - 1].agg)}
  {
    var init := rows[..|rows| - 1];
    forall k | k in RowKeys(rows)
      ensures k in RowKeys(init) + {KeyOf(rows[|rows| - 1].agg)}
    {
      var x :| x in rows && KeyOf(x.agg) == k;
      var m :| 0 <= m < |rows| && rows[m] == x;
      if m < |init| {
        assert init[m] == x;
      }
    }
    assert rows[|rows| - 1] in rows;
  }

  /** With distinct keys, the store holds exactly one row per key. */
  lemma {:induction false} DistinctKeysCount(rows: seq<Row>)
    requires DistinctRowKeys(rows)
    ensures |RowKeys(rows)| == |rows|
    decreases |rows|
  {
    if rows != [] {
      var init, last := rows[..|rows| - 1], rows[|rows| - 1];
      assert forall a :: 0 <= a < |init| ==> init[a] == rows[a];
      DistinctKeysCount(init);
      forall x | x in init
        ensures KeyOf(x.agg) != KeyOf(last.agg)
      {
        var m :| 0 <= m < |init| && init[m] == x;
      }
      RowKeysSnoc(rows);
    }
  }

  /** Distinct keys that are all one key: one row. */
  lemma OneKeyOneRow(rows: seq<Row>, k: Key)
    requires DistinctRowKeys(rows) && RowKeys(rows) == {k}
    ensures |rows| == 1 && KeyOf(rows[0].agg) == k
  {
    DistinctKeysCount(rows);
    assert rows[0] in rows;
  }

  /** The totals over the two chunks count the listing twice. */
  lemma ListingSumsTwice(x: RawRow)
    requires Complete(x) && '-' !in x.zip.value
    ensures var l := Known(x);
      ListingSums([[x], [x]], ListingKey(l)) == Add(Contribution(l), Contribution(l))
  {
    var l := Known(x);
    var k := ListingKey(l);
    ProcessOne(x);
    assert [l][..0] == [];
    assert GroupSums([l], k) == Add(Zero, Contribution(l));
    AddZero(Contribution(l));
    assert [[x], [x]][..1] == [[x]];
    assert [[x]][..0] == [];
    assert ListingSums([[x]], k) == Add(Zero, Contribution(l));
  }

  /** run_ETL with the ledger kept, on the same input: one row holding both listings. */
  method RepeatWithLedger(x: RawRow) returns (store: Store)
    requires Complete(x) && '-' !in x.zip.value
    ensures |store.rows| == 1
    ensures KeyOf(store.rows[0].agg) == ListingKey(Known(x))
    ensures store.rows[0].agg.sums == Add(Contribution(Known(x)), Contribution(Known(x)))
  {
    store := RunETLWithLedger([[x], [x]], -1);
    assert [[x], [x]][..2] == [[x], [x]];
    KeysSeenTwice(x);
    OneKeyOneRow(store.rows, ListingKey(Known(x)));
    ListingSumsTwice(x);
  }
}
