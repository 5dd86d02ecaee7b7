/** The key ledger: which (zip_code, date) keys have been aggregated before. */
module Ledger {
  import opened Aggregation

  /**
   * _add_entries: the chunk's keys that the ledger already holds (the
   * repeats) and the ledger grown by the chunk's keys. The ledger passed in
   * is a value and is left as it was.
   */
  function AddEntries(chunk: seq<Row>, oldEntries: set<Key>): (r: (set<Key>, set<Key>))
    ensures forall k :: k in r.0 <==> k in oldEntries && exists i :: 0 <= i < |chunk| && KeyOf(chunk[i].agg) == k
    ensures forall k :: k in r.1 <==> k in oldEntries || exists i :: 0 <= i < |chunk| && KeyOf(chunk[i].agg) == k
    ensures r.0 <= RowKeys(chunk) && r.0 <= r.1 && oldEntries <= r.1
  {
    var newEntries := RowKeys(chunk);
    (oldEntries * newEntries, oldEntries + newEntries)
  }
}
