/**
 * The merge resolver and the aggregate store it reads and writes: for
 * each repeated key, add the chunk's aggregate into the one stored row for
 * that key, and drop that key's row from the chunk still to be inserted.
 */
module Merge {
  import opened Wrappers
  import opened Aggregation
  import opened Ledger

  /** The stored rows a point query for key k returns, in table order. */
  function Matching(rows: seq<Row>, k: Key): (found: seq<Row>)
    ensures |found| <= |rows|
  {
    if rows == [] then []
    else
      var last := rows[|rows| - 1];
      Matching(rows[..|rows| - 1], k) + (if KeyOf(last.agg) == k then [last] else [])
  }

  /** The point query returns exactly the stored rows that hold key k. */
  lemma {:induction false} MatchingIsFilter(rows: seq<Row>, k: Key)
    ensures forall r :: r in Matching(rows, k) <==> r in rows && KeyOf(r.agg) == k
    decreases |rows|
  {
    if rows != [] {
      var init := rows[..|rows| - 1];
      MatchingIsFilter(init, k);
      assert rows == init + [rows[|rows| - 1]];
    }
  }

  /** Same ids and keys, row by row: updates change only the sums. */
  predicate SameShape(a: seq<Row>, b: seq<Row>)
  {
    |a| == |b| && forall j :: 0 <= j < |a| ==> a[j].id == b[j].id && KeyOf(a[j].agg) == KeyOf(b[j].agg)
  }

  predicate DistinctRowKeys(rows: seq<Row>)
  {
    forall i, j :: 0 <= i < j < |rows| ==> KeyOf(rows[i].agg) != KeyOf(rows[j].agg)
  }

  predicate UniqueIds(rows: seq<Row>)
  {
    forall i, j :: 0 <= i < j < |rows| ==> rows[i].id != rows[j].id
  }

  /** Rows of the same shape carry the same keys. */
  lemma SameShapeKeys(a: seq<Row>, b: seq<Row>)
    requires SameShape(a, b)
    ensures RowKeys(a) == RowKeys(b)
  {
    forall k | k in RowKeys(a)
      ensures k in RowKeys(b)
    {
      var x :| x in a && KeyOf(x.agg) == k;
      var j :| 0 <= j < |a| && a[j] == x;
      assert b[j] in b;
    }
    forall k | k in RowKeys(b)
      ensures k in RowKeys(a)
    {
      var x :| x in b && KeyOf(x.agg) == k;
      var j :| 0 <= j < |b| && b[j] == x;
      assert a[j] in a;
    }
  }

  function WithSums(r: Row, s: Sums): Row
  {
    r.(agg := r.agg.(sums := s))
  }

  lemma {:induction false} MatchingSameShape(a: seq<Row>, b: seq<Row>, k: Key)
    requires SameShape(a, b)
    ensures |Matching(a, k)| == |Matching(b, k)|
    decreases |a|
  {
    if a != [] {
      MatchingSameShape(a[..|a| - 1], b[..|b| - 1], k);
    }
  }

  /** A row holding key k makes the point query non-empty. */
  lemma {:induction false} MatchingFinds(rows: seq<Row>, k: Key, j: nat)
    requires j < |rows| && KeyOf(rows[j].agg) == k
    ensures |Matching(rows, k)| >= 1
    decreases |rows|
  {
    if j < |rows| - 1 {
      MatchingFinds(rows[..|rows| - 1], k, j);
    }
  }

  /** When the point query returns one row, it is the row that holds the key. */
  lemma {:induction false} MatchingSingle(rows: seq<Row>, k: Key, j: nat)
    requires j < |rows| && KeyOf(rows[j].agg) == k && |Matching(rows, k)| == 1
    ensures Matching(rows, k) == [rows[j]]
    decreases |rows|
  {
    var init := rows[..|rows| - 1];
    if KeyOf(rows[|rows| - 1].agg) == k {
      if j < |rows| - 1 {
        MatchingFinds(init, k, j);
      }
    } else {
      MatchingSingle(init, k, j);
    }
  }

  /** With one row per key, every stored key answers its point query with exactly one row. */
  lemma {:induction false} MatchingDistinct(rows: seq<Row>, k: Key)
    requires DistinctRowKeys(rows)
    ensures |Matching(rows, k)| == if k in RowKeys(rows) then 1 else 0
    decreases |rows|
  {
    if rows != [] {
      var init := rows[..|rows| - 1];
      MatchingDistinct(init, k);
      if k in RowKeys(rows) {
        var j :| 0 <= j < |rows| && KeyOf(rows[j].agg) == k;
        if j < |rows| - 1 {
          assert k in RowKeys(init) by { assert KeyOf(init[j].agg) == k; }
        } else {
          assert k !in RowKeys(init);
        }
      } else {
        assert forall j :: 0 <= j < |init| ==> KeyOf(init[j].agg) != k by {
          assert forall j :: 0 <= j < |init| ==> init[j] == rows[j];
        }
      }
    }
  }

  /** Every row holding key k gets the sums s; the others stay. */
  function UpdateWhere(rows: seq<Row>, k: Key, s: Sums): (r: seq<Row>)
    ensures SameShape(rows, r)
    ensures forall j :: 0 <= j < |rows| ==>
      r[j] == if KeyOf(rows[j].agg) == k then WithSums(rows[j], s) else rows[j]
  {
    seq(|rows|, j requires 0 <= j < |rows| => if KeyOf(rows[j].agg) == k then WithSums(rows[j], s) else rows[j])
  }

  /**
   * The table the aggregates are persisted in: one entry per row, each with
   * its id, (date, zip_code) and sums; queried and updated by key, and
   * appended to.
   */
  class Store {
    var rows: seq<Row>

    /** CREATE TABLE: the table starts empty. */
    constructor ()
      ensures rows == []
    {
      rows := [];
    }

    /** SELECT ... WHERE zip_code = k.zipCode AND date = k.date */
    method Select(k: Key) returns (found: seq<Row>)
      ensures found == Matching(rows, k)
    {
      found := Matching(rows, k);
    }

    /** UPDATE ... SET price, count, lat, long WHERE zip_code = k.zipCode AND date = k.date */
    method Update(k: Key, s: Sums)
      modifies this
      ensures rows == UpdateWhere(old(rows), k, s)
    {
      rows := UpdateWhere(rows, k, s);
    }

    /** to_sql(..., if_exists='append') */
    method Append(chunk: seq<Row>)
      modifies this
      ensures rows == old(rows) + chunk
    {
      rows := rows + chunk;
    }
  }

  /** The stored row after the chunk's rows for its key (if repeated) are added in. */
  function Merged(stored: Row, chunk: seq<Row>, intersection: set<Key>): (r: Row)
    ensures r.id == stored.id && KeyOf(r.agg) == KeyOf(stored.agg)
    ensures KeyOf(stored.agg) !in intersection ==> r == stored
  {
    var k := KeyOf(stored.agg);
    if k in intersection then WithSums(stored, Add(AggSums(AggsOf(chunk), k), stored.agg.sums)) else stored
  }

  /** The ids collected for the chunk rows whose key is repeated, in chunk order. */
  function MergedIds(chunk: seq<Row>, intersection: set<Key>): (ids: seq<int>)
    ensures |ids| <= |chunk|
  {
    if chunk == [] then []
    else
      var last := chunk[|chunk| - 1];
      MergedIds(chunk[..|chunk| - 1], intersection) + (if KeyOf(last.agg) in intersection then [last.id] else [])
  }

  /** df_chunk.drop(ids): the rows whose id is not listed, in order. */
  function DropIds(chunk: seq<Row>, ids: seq<int>): (r: seq<Row>)
    ensures |r| <= |chunk|
  {
    if chunk == [] then []
    else
      var last := chunk[|chunk| - 1];
      DropIds(chunk[..|chunk| - 1], ids) + (if last.id in ids then [] else [last])
  }

  /** The residual chunk: the rows whose key is not repeated, in order. */
  function KeepNew(chunk: seq<Row>, intersection: set<Key>): (r: seq<Row>)
    ensures |r| <= |chunk|
    ensures forall x :: x in r <==> x in chunk && KeyOf(x.agg) !in intersection
  {
    if chunk == [] then []
    else
      var last := chunk[|chunk| - 1];
      KeepNew(chunk[..|chunk| - 1], intersection) + (if KeyOf(last.agg) in intersection then [] else [last])
  }

  lemma {:induction false} MergedIdsMember(chunk: seq<Row>, intersection: set<Key>, id: int)
    ensures id in MergedIds(chunk, intersection) <==>
      exists m :: 0 <= m < |chunk| && chunk[m].id == id && KeyOf(chunk[m].agg) in intersection
    decreases |chunk|
  {
    if chunk != [] {
      var init := chunk[..|chunk| - 1];
      MergedIdsMember(init, intersection, id);
      assert forall m :: 0 <= m < |init| ==> init[m] == chunk[m];
    }
  }

  /** Dropping by id and dropping by key agree when each row's id is listed exactly when its key is repeated. */
  lemma {:induction false} DropIdsIsKeepNew(chunk: seq<Row>, ids: seq<int>, intersection: set<Key>)
    requires forall m :: 0 <= m < |chunk| ==> (chunk[m].id in ids <==> KeyOf(chunk[m].agg) in intersection)
    ensures DropIds(chunk, ids) == KeepNew(chunk, intersection)
    decreases |chunk|
  {
    if chunk != [] {
      DropIdsIsKeepNew(chunk[..|chunk| - 1], ids, intersection);
    }
  }

  /**
   * With unique ids, dropping the collected ids removes exactly the rows
   * whose key is repeated and leaves the others untouched and in order.
   */
  lemma ResidualIsKeepNew(chunk: seq<Row>, intersection: set<Key>)
    requires UniqueIds(chunk)
    ensures DropIds(chunk, MergedIds(chunk, intersection)) == KeepNew(chunk, intersection)
  {
    forall m | 0 <= m < |chunk|
      ensures chunk[m].id in MergedIds(chunk, intersection) <==> KeyOf(chunk[m].agg) in intersection
    {
      MergedIdsMember(chunk, intersection, chunk[m].id);
    }
    DropIdsIsKeepNew(chunk, MergedIds(chunk, intersection), intersection);
  }

  /** Merging one more chunk row changes only the stored row with the same, repeated key. */
  lemma MergedSnoc(stored: Row, prefix: seq<Row>, c: Row, intersection: set<Key>)
    ensures Merged(stored, prefix + [c], intersection)
         == if KeyOf(c.agg) == KeyOf(stored.agg) && KeyOf(c.agg) in intersection
            then WithSums(Merged(stored, prefix, intersection),
                          Add(c.agg.sums, Merged(stored, prefix, intersection).agg.sums))
            else Merged(stored, prefix, intersection)
  {
    assert AggsOf(prefix + [c]) == AggsOf(prefix) + [c.agg];
    AggSumsSnoc(AggsOf(prefix), c.agg, KeyOf(stored.agg));
  }

  /**
   * With distinct keys in the chunk, a repeated key's stored row becomes the
   * stored sums plus that one chunk row's sums; its id and key stay.
   */
  lemma MergeAddsChunkRow(stored: Row, chunk: seq<Row>, intersection: set<Key>, i: nat)
    requires DistinctRowKeys(chunk) && i < |chunk|
    requires KeyOf(chunk[i].agg) == KeyOf(stored.agg) && KeyOf(stored.agg) in intersection
    ensures Merged(stored, chunk, intersection) == WithSums(stored, Add(chunk[i].agg.sums, stored.agg.sums))
  {
    AggSumsAt(AggsOf(chunk), i);
  }

  /** The store holds the original rows with the chunk prefix merged in. */
  predicate MergedPrefix(oldRows: seq<Row>, rows: seq<Row>, prefix: seq<Row>, intersection: set<Key>)
  {
    |rows| == |oldRows| && forall j :: 0 <= j < |rows| ==> rows[j] == Merged(oldRows[j], prefix, intersection)
  }

  lemma MergedPrefixShape(oldRows: seq<Row>, rows: seq<Row>, prefix: seq<Row>, intersection: set<Key>)
    requires MergedPrefix(oldRows, rows, prefix, intersection)
    ensures SameShape(oldRows, rows)
    ensures forall j :: 0 <= j < |rows| && KeyOf(oldRows[j].agg) !in intersection ==> rows[j] == oldRows[j]
  {
  }

  /** A chunk row whose key is not repeated leaves the store as it is. */
  lemma MergeSkipsRow(oldRows: seq<Row>, rows: seq<Row>, prefix: seq<Row>, row: Row, intersection: set<Key>)
    requires MergedPrefix(oldRows, rows, prefix, intersection)
    requires KeyOf(row.agg) !in intersection
    ensures MergedPrefix(oldRows, rows, prefix + [row], intersection)
  {
    forall j | 0 <= j < |rows|
      ensures rows[j] == Merged(oldRows[j], prefix + [row], intersection)
    {
      MergedSnoc(oldRows[j], prefix, row, intersection);
    }
  }

  /**
   * The read-modify-write for one repeated chunk row: when its key answers
   * with one stored row, writing back chunk + stored under that key merges
   * the row in.
   */
  lemma MergeOneRow(oldRows: seq<Row>, rows: seq<Row>, prefix: seq<Row>, row: Row, intersection: set<Key>)
    requires MergedPrefix(oldRows, rows, prefix, intersection)
    requires KeyOf(row.agg) in intersection && |Matching(rows, KeyOf(row.agg))| == 1
    ensures MergedPrefix(oldRows,
      UpdateWhere(rows, KeyOf(row.agg), Add(row.agg.sums, Matching(rows, KeyOf(row.agg))[0].agg.sums)),
      prefix + [row], intersection)
  {
    var k := KeyOf(row.agg);
    var found := Matching(rows, k);
    var after := UpdateWhere(rows, k, Add(row.agg.sums, found[0].agg.sums));
    forall j | 0 <= j < |rows|
      ensures after[j] == Merged(oldRows[j], prefix + [row], intersection)
    {
      MergedSnoc(oldRows[j], prefix, row, intersection);
      if KeyOf(rows[j].agg) == k {
        MatchingSingle(rows, k, j);
      }
    }
  }

  /** Collecting over one more chunk row appends its id when its key is repeated. */
  lemma MergedIdsTake(chunk: seq<Row>, i: int, intersection: set<Key>)
    requires 0 <= i < |chunk|
    ensures MergedIds(chunk[..i + 1], intersection)
         == MergedIds(chunk[..i], intersection) + (if KeyOf(chunk[i].agg) in intersection then [chunk[i].id] else [])
  {
    assert chunk[..i + 1][..i] == chunk[..i];
  }

  /**
   * One pass of the merge loop: a row whose key is repeated is looked up,
   * and when exactly one stored row answers, stored + chunk is written back
   * for price, count, lat and long. A row whose key is not repeated is
   * skipped. `ok` is false when the lookup does not answer one row; the
   * store is then left as it was.
   */
  method MergeRow(store: Store, ghost oldRows: seq<Row>, ghost prefix: seq<Row>, row: Row, intersection: set<Key>)
    returns (ok: bool)
    requires MergedPrefix(oldRows, store.rows, prefix, intersection)
    modifies store
    ensures ok <==> KeyOf(row.agg) !in intersection || |Matching(oldRows, KeyOf(row.agg))| == 1
    ensures ok ==> MergedPrefix(oldRows, store.rows, prefix + [row], intersection)
    ensures !ok ==> store.rows == old(store.rows)
  {
    var k := KeyOf(row.agg);
    MergedPrefixShape(oldRows, store.rows, prefix, intersection);
    if k !in intersection {
      MergeSkipsRow(oldRows, store.rows, prefix, row, intersection);
      return true;
    }
    var found := store.Select(k);
    MatchingSameShape(oldRows, store.rows, k);
    if |found| != 1 {
      return false;
    }
    MergeOneRow(oldRows, store.rows, prefix, row, intersection);
    store.Update(k, Add(row.agg.sums, found[0].agg.sums));
    return true;
  }

  /**
   * _update_intersections: for every chunk row whose key is repeated, look
   * the key up in the store, fail unless exactly one row answers, write
   * back stored + chunk for price, count, lat and long, and collect the
   * row's id; finally return the chunk without the collected ids. The
   * rows are visited in chunk order.
   */
  method UpdateIntersections(store: Store, chunk: seq<Row>, intersection: set<Key>)
    returns (result: Result<seq<Row>, Key>)
    requires intersection <= RowKeys(chunk)
    modifies store
    ensures SameShape(old(store.rows), store.rows)
    ensures result.Success? <==> forall k :: k in intersection ==> |Matching(old(store.rows), k)| == 1
    ensures result.Failure? ==> result.error in intersection && |Matching(old(store.rows), result.error)| != 1
    ensures result.Success? ==> result.value == DropIds(chunk, MergedIds(chunk, intersection))
    ensures result.Success? ==> forall j :: 0 <= j < |store.rows| ==>
      store.rows[j] == Merged(old(store.rows)[j], chunk, intersection)
    ensures forall j :: 0 <= j < |store.rows| && KeyOf(old(store.rows)[j].agg) !in intersection ==>
      store.rows[j] == old(store.rows)[j]
    ensures intersection == {} ==> result == Success(chunk) && store.rows == old(store.rows)
  {
    if intersection == {} {
      NothingRepeated(chunk);
      return Success(chunk);
    }
    ghost var oldRows := store.rows;
    var i := 0;
    var ids: seq<int> := [];
    while i < |chunk|
      invariant 0 <= i <= |chunk|
      invariant MergedPrefix(oldRows, store.rows, chunk[..i], intersection)
      invariant ids == MergedIds(chunk[..i], intersection)
      invariant forall m :: 0 <= m < i && KeyOf(chunk[m].agg) in intersection ==>
        |Matching(oldRows, KeyOf(chunk[m].agg))| == 1
    {
      var row := chunk[i];
      var ok := MergeRow(store, oldRows, chunk[..i], row, intersection);
      if !ok {
        MergedPrefixShape(oldRows, store.rows, chunk[..i], intersection);
        return Failure(KeyOf(row.agg));
      }
      assert chunk[..i + 1] == chunk[..i] + [row];
      MergedIdsTake(chunk, i, intersection);
      if KeyOf(row.agg) in intersection {
        ids := ids + [row.id];
      }
      i := i + 1;
    }
    assert chunk[..i] == chunk;
    MergedPrefixShape(oldRows, store.rows, chunk, intersection);
    forall k | k in intersection
      ensures |Matching(oldRows, k)| == 1
    {
      var m :| 0 <= m < |chunk| && KeyOf(chunk[m].agg) == k;
    }
    result := Success(DropIds(chunk, ids));
  }

  /** With no repeated key, no id is collected and the whole chunk is kept. */
  lemma {:induction false} NothingRepeated(chunk: seq<Row>)
    ensures MergedIds(chunk, {}) == []
    ensures DropIds(chunk, []) == chunk
    decreases |chunk|
  {
    if chunk != [] {
      NothingRepeated(chunk[..|chunk| - 1]);
    }
  }

  /**
   * process_intersections as intended: classify the chunk's keys against
   * the ledger, merge the repeats into the store, and hand back the
   * residual chunk together with the grown ledger.
   */
  method ProcessIntersectionsWithLedger(store: Store, chunk: seq<Row>, entries: set<Key>)
    returns (result: Result<seq<Row>, Key>, newEntries: set<Key>)
    modifies store
    ensures newEntries == AddEntries(chunk, entries).1
    ensures SameShape(old(store.rows), store.rows)
    ensures var repeats := AddEntries(chunk, entries).0;
      && (result.Success? <==> forall k :: k in repeats ==> |Matching(old(store.rows), k)| == 1)
      && (result.Failure? ==> result.error in repeats)
      && (result.Success? ==> result.value == DropIds(chunk, MergedIds(chunk, repeats)))
      && (result.Success? ==> forall j :: 0 <= j < |store.rows| ==>
            store.rows[j] == Merged(old(store.rows)[j], chunk, repeats))
    ensures entries == {} ==> result == Success(chunk) && store.rows == old(store.rows)
  {
    var added := AddEntries(chunk, entries);
    result := UpdateIntersections(store, chunk, added.0);
    newEntries := added.1;
  }

  /**
   * process_intersections as written: the grown ledger is computed and
   * dropped, so the caller's ledger stays as it was.
   */
  method ProcessIntersections(store: Store, chunk: seq<Row>, entries: set<Key>)
    returns (result: Result<seq<Row>, Key>)
    modifies store
    ensures SameShape(old(store.rows), store.rows)
    ensures var repeats := AddEntries(chunk, entries).0;
      && (result.Success? <==> forall k :: k in repeats ==> |Matching(old(store.rows), k)| == 1)
      && (result.Failure? ==> result.error in repeats && |Matching(old(store.rows), result.error)| != 1)
      && (result.Success? ==> result.value == DropIds(chunk, MergedIds(chunk, repeats)))
      && (result.Success? ==> forall j :: 0 <= j < |store.rows| ==>
            store.rows[j] == Merged(old(store.rows)[j], chunk, repeats))
      && (forall j :: 0 <= j < |store.rows| && KeyOf(old(store.rows)[j].agg) !in repeats ==>
            store.rows[j] == old(store.rows)[j])
    ensures entries == {} ==> result == Success(chunk) && store.rows == old(store.rows)
  {
    var added := AddEntries(chunk, entries);  // added.1, the grown ledger, goes nowhere
    result := UpdateIntersections(store, chunk, added.0);
  }
}
