/**
 * The daily aggregator: group the cleaned listings of one chunk by
 * (day, zip), sum price, lat and long, count the rows, and order the
 * groups by key; then the exact-duplicate drop that runs after it.
 */
module Aggregation {
  import opened Cleaning

  /** The additive columns of an aggregate. */
  datatype Sums = Sums(price: int, lat: real, long: real, count: int)

  const Zero := Sums(0, 0.0, 0.0, 0)

  function Add(a: Sums, b: Sums): Sums
  {
    Sums(a.price + b.price, a.lat + b.lat, a.long + b.long, a.count + b.count)
  }

  /** Zero is the identity of Add, on either side. */
  lemma AddZero(s: Sums)
    ensures Add(Zero, s) == s && Add(s, Zero) == s
  {
  }

  lemma AddComm(a: Sums, b: Sums)
    ensures Add(a, b) == Add(b, a)
  {
  }

  lemma AddAssoc(a: Sums, b: Sums, c: Sums)
    ensures Add(Add(a, b), c) == Add(a, Add(b, c))
  {
  }

  /** What one listing adds to its group: its own values and a count of one. */
  function Contribution(l: Listing): Sums
  {
    Sums(l.price, l.lat, l.long, 1)
  }

  /** Key of the ledger and of the store's point lookups: (zip_code, date). */
  datatype Key = Key(zipCode: string, date: string)

  /** One (date, zip_code) group of one chunk. */
  datatype Aggregate = Aggregate(date: string, zipCode: string, sums: Sums)

  /** An aggregate with the synthetic identifier it is stored under. */
  datatype Row = Row(id: int, agg: Aggregate)

  function KeyOf(a: Aggregate): Key
  {
    Key(a.zipCode, a.date)
  }

  function ListingKey(l: Listing): Key
  {
    Key(l.zip, Day(l.postedAt))
  }

  function AggKeys(aggs: seq<Aggregate>): set<Key>
  {
    set i | 0 <= i < |aggs| :: KeyOf(aggs[i])
  }

  function ListingKeys(s: seq<Listing>): set<Key>
  {
    set i | 0 <= i < |s| :: ListingKey(s[i])
  }

  function AggsOf(rows: seq<Row>): (aggs: seq<Aggregate>)
    ensures |aggs| == |rows|
    ensures forall i :: 0 <= i < |rows| ==> aggs[i] == rows[i].agg
  {
    seq(|rows|, i requires 0 <= i < |rows| => rows[i].agg)
  }

  lemma AggsOfAppend(a: seq<Row>, b: seq<Row>)
    ensures AggsOf(a + b) == AggsOf(a) + AggsOf(b)
  {
  }

  function RowKeys(rows: seq<Row>): set<Key>
  {
    set r | r in rows :: KeyOf(r.agg)
  }

  lemma RowKeysAppend(a: seq<Row>, b: seq<Row>)
    ensures RowKeys(a + b) == RowKeys(a) + RowKeys(b)
  {
  }

  predicate DistinctKeys(aggs: seq<Aggregate>)
  {
    forall i, j :: 0 <= i < j < |aggs| ==> KeyOf(aggs[i]) != KeyOf(aggs[j])
  }

  // ---------------------------------------------------------------------
  // Ordering of the group keys (pandas sorts the groups by posted_at, then zip)
  // ---------------------------------------------------------------------

  /** Lexicographic order of strings by character code. */
  predicate StrLess(a: string, b: string)
  {
    b != [] && (a == [] || a[0] < b[0] || (a[0] == b[0] && StrLess(a[1..], b[1..])))
  }

  lemma {:induction false} StrLessIrreflexive(a: string)
    ensures !StrLess(a, a)
  {
    if a != [] {
      StrLessIrreflexive(a[1..]);
    }
  }

  lemma {:induction false} StrLessTransitive(a: string, b: string, c: string)
    requires StrLess(a, b) && StrLess(b, c)
    ensures StrLess(a, c)
  {
    if a != [] && a[0] == b[0] && b[0] == c[0] {
      StrLessTransitive(a[1..], b[1..], c[1..]);
    }
  }

  lemma {:induction false} StrLessTotal(a: string, b: string)
    requires a != b
    ensures StrLess(a, b) || StrLess(b, a)
  {
    if a != [] && b != [] && a[0] == b[0] {
      assert a == [a[0]] + a[1..] && b == [b[0]] + b[1..];
      StrLessTotal(a[1..], b[1..]);
    }
  }

  /** Group order: by date first, then by zip code. */
  predicate KeyLess(k1: Key, k2: Key)
  {
    StrLess(k1.date, k2.date) || (k1.date == k2.date && StrLess(k1.zipCode, k2.zipCode))
  }

  lemma KeyLessIrreflexive(k: Key)
    ensures !KeyLess(k, k)
  {
    StrLessIrreflexive(k.date);
    StrLessIrreflexive(k.zipCode);
  }

  lemma KeyLessTransitive(k1: Key, k2: Key, k3: Key)
    requires KeyLess(k1, k2) && KeyLess(k2, k3)
    ensures KeyLess(k1, k3)
  {
    if StrLess(k1.date, k2.date) && StrLess(k2.date, k3.date) {
      StrLessTransitive(k1.date, k2.date, k3.date);
    } else if k1.date == k2.date == k3.date {
      StrLessTransitive(k1.zipCode, k2.zipCode, k3.zipCode);
    }
  }

  lemma KeyLessTotal(k1: Key, k2: Key)
    requires k1 != k2
    ensures KeyLess(k1, k2) || KeyLess(k2, k1)
  {
    if k1.date != k2.date {
      StrLessTotal(k1.date, k2.date);
    } else {
      StrLessTotal(k1.zipCode, k2.zipCode);
    }
  }

  /** Strictly increasing keys, hence pairwise distinct. */
  predicate Sorted(aggs: seq<Aggregate>)
  {
    forall i, j :: 0 <= i < j < |aggs| ==> KeyLess(KeyOf(aggs[i]), KeyOf(aggs[j]))
  }

  lemma SortedDistinct(aggs: seq<Aggregate>)
    requires Sorted(aggs)
    ensures DistinctKeys(aggs)
  {
    forall i, j | 0 <= i < j < |aggs|
      ensures KeyOf(aggs[i]) != KeyOf(aggs[j])
    {
      KeyLessIrreflexive(KeyOf(aggs[i]));
    }
  }

  // ---------------------------------------------------------------------
  // Group-by as insertion into a sorted list of groups
  // ---------------------------------------------------------------------

  /** A fresh group holding one listing. */
  function Single(l: Listing): (a: Aggregate)
    ensures KeyOf(a) == ListingKey(l)
  {
    Aggregate(Day(l.postedAt), l.zip, Contribution(l))
  }

  /** Adds one listing to its group, opening the group in key order if it is new. */
  function Insert(aggs: seq<Aggregate>, l: Listing): (r: seq<Aggregate>)
    ensures |aggs| <= |r| <= |aggs| + 1
  {
    if aggs == [] then [Single(l)]
    else if KeyOf(aggs[0]) == ListingKey(l) then
      [aggs[0].(sums := Add(aggs[0].sums, Contribution(l)))] + aggs[1..]
    else if KeyLess(ListingKey(l), KeyOf(aggs[0])) then [Single(l)] + aggs
    else [aggs[0]] + Insert(aggs[1..], l)
  }

  /** The grouped, summed and sorted chunk of _bin_time (posted_at already cut to its day). */
  function BinTime(s: seq<Listing>): (r: seq<Aggregate>)
    ensures |r| <= |s|
  {
    if s == [] then [] else Insert(BinTime(s[..|s| - 1]), s[|s| - 1])
  }

  /** The sums a list of groups holds for key k (Zero when absent). */
  function AggSums(aggs: seq<Aggregate>, k: Key): Sums
  {
    if aggs == [] then Zero
    else Add(if KeyOf(aggs[0]) == k then aggs[0].sums else Zero, AggSums(aggs[1..], k))
  }

  lemma AggSumsCons(a: Aggregate, rest: seq<Aggregate>, k: Key)
    ensures AggSums([a] + rest, k) == Add(if KeyOf(a) == k then a.sums else Zero, AggSums(rest, k))
  {
    assert ([a] + rest)[1..] == rest;
  }

  /** The column totals over every group. */
  function TotalSums(aggs: seq<Aggregate>): Sums
  {
    if aggs == [] then Zero else Add(aggs[0].sums, TotalSums(aggs[1..]))
  }

  /** Reference definition of a group: the sums over the listings with key k. */
  function GroupSums(s: seq<Listing>, k: Key): Sums
  {
    if s == [] then Zero
    else Add(GroupSums(s[..|s| - 1], k), if ListingKey(s[|s| - 1]) == k then Contribution(s[|s| - 1]) else Zero)
  }

  /** Reference definition of the chunk totals: the sums over all listings. */
  function ListingTotal(s: seq<Listing>): Sums
  {
    if s == [] then Zero else Add(ListingTotal(s[..|s| - 1]), Contribution(s[|s| - 1]))
  }

  /** Aggregation is additive: the group of a concatenation is the sum of the parts' groups. */
  lemma {:induction false} GroupSumsAppend(s: seq<Listing>, t: seq<Listing>, k: Key)
    ensures GroupSums(s + t, k) == Add(GroupSums(s, k), GroupSums(t, k))
    decreases |t|
  {
    if t == [] {
      assert s + t == s;
      AddZero(GroupSums(s, k));
    } else {
      var t' := t[..|t| - 1];
      var u := s + t;
      assert u[..|u| - 1] == s + t';
      assert u[|u| - 1] == t[|t| - 1];
      GroupSumsAppend(s, t', k);
      var c := if ListingKey(t[|t| - 1]) == k then Contribution(t[|t| - 1]) else Zero;
      AddAssoc(GroupSums(s, k), GroupSums(t', k), c);
    }
  }

  lemma {:induction false} ListingTotalCount(s: seq<Listing>)
    ensures ListingTotal(s).count == |s|
    decreases |s|
  {
    if s != [] {
      ListingTotalCount(s[..|s| - 1]);
    }
  }

  lemma {:induction false} GroupCountPositive(s: seq<Listing>, k: Key)
    ensures GroupSums(s, k).count >= 0
    ensures k in ListingKeys(s) ==> GroupSums(s, k).count >= 1
    decreases |s|
  {
    if s != [] {
      var init := s[..|s| - 1];
      GroupCountPositive(init, k);
      assert ListingKeys(s) == ListingKeys(init) + {ListingKey(s[|s| - 1])} by {
        ListingKeysSnoc(s);
      }
    }
  }

  lemma ListingKeysSnoc(s: seq<Listing>)
    requires s != []
    ensures ListingKeys(s) == ListingKeys(s[..|s| - 1]) + {ListingKey(s[|s| - 1])}
  {
    var init := s[..|s| - 1];
    forall k | k in ListingKeys(s)
      ensures k in ListingKeys(init) + {ListingKey(s[|s| - 1])}
    {
      var i :| 0 <= i < |s| && ListingKey(s[i]) == k;
      if i < |s| - 1 {
        assert ListingKey(init[i]) == k;
      }
    }
    forall k | k in ListingKeys(init)
      ensures k in ListingKeys(s)
    {
      var i :| 0 <= i < |init| && ListingKey(init[i]) == k;
      assert ListingKey(s[i]) == k;
    }
  }

  lemma AggKeysCons(aggs: seq<Aggregate>)
    requires aggs != []
    ensures AggKeys(aggs) == {KeyOf(aggs[0])} + AggKeys(aggs[1..])
  {
    forall k | k in AggKeys(aggs)
      ensures k in {KeyOf(aggs[0])} + AggKeys(aggs[1..])
    {
      var i :| 0 <= i < |aggs| && KeyOf(aggs[i]) == k;
      if i > 0 {
        assert KeyOf(aggs[1..][i - 1]) == k;
      }
    }
    forall k | k in AggKeys(aggs[1..])
      ensures k in AggKeys(aggs)
    {
      var i :| 0 <= i < |aggs| - 1 && KeyOf(aggs[1..][i]) == k;
      assert KeyOf(aggs[i + 1]) == k;
    }
  }

  /** Inserting opens the listing's key and no other. */
  lemma {:induction false} InsertKeys(aggs: seq<Aggregate>, l: Listing)
    ensures AggKeys(Insert(aggs, l)) == AggKeys(aggs) + {ListingKey(l)}
    decreases |aggs|
  {
    var r := Insert(aggs, l);
    if aggs == [] {
      assert AggKeys(r) == {ListingKey(l)} by { AggKeysCons(r); }
    } else {
      AggKeysCons(aggs);
      AggKeysCons(r);
      if KeyOf(aggs[0]) == ListingKey(l) {
        assert r[1..] == aggs[1..];
      } else if KeyLess(ListingKey(l), KeyOf(aggs[0])) {
        assert r[1..] == aggs;
      } else {
        assert r[1..] == Insert(aggs[1..], l);
        InsertKeys(aggs[1..], l);
      }
    }
  }

  /** A group ahead of every key of a sorted list extends it. */
  lemma SortedCons(a: Aggregate, rest: seq<Aggregate>)
    requires Sorted(rest)
    requires forall j :: 0 <= j < |rest| ==> KeyLess(KeyOf(a), KeyOf(rest[j]))
    ensures Sorted([a] + rest)
  {
    var r := [a] + rest;
    forall i, j | 0 <= i < j < |r|
      ensures KeyLess(KeyOf(r[i]), KeyOf(r[j]))
    {
      assert r[j] == rest[j - 1];
      if i > 0 {
        assert r[i] == rest[i - 1];
      }
    }
  }

  /** The tail of a sorted list is sorted and lies after its head. */
  lemma SortedTail(aggs: seq<Aggregate>)
    requires Sorted(aggs) && aggs != []
    ensures Sorted(aggs[1..])
    ensures forall j :: 0 <= j < |aggs[1..]| ==> KeyLess(KeyOf(aggs[0]), KeyOf(aggs[1..][j]))
  {
    var rest := aggs[1..];
    forall i, j | 0 <= i < j < |rest|
      ensures KeyLess(KeyOf(rest[i]), KeyOf(rest[j]))
    {
      assert rest[i] == aggs[i + 1] && rest[j] == aggs[j + 1];
    }
    forall j | 0 <= j < |rest|
      ensures KeyLess(KeyOf(aggs[0]), KeyOf(rest[j]))
    {
      assert rest[j] == aggs[j + 1];
    }
  }

  /** Inserting keeps the groups strictly ordered by key. */
  lemma {:induction false} InsertSorted(aggs: seq<Aggregate>, l: Listing)
    requires Sorted(aggs)
    ensures Sorted(Insert(aggs, l))
    decreases |aggs|
  {
    var r := Insert(aggs, l);
    var k := ListingKey(l);
    if aggs != [] {
      var a0, rest := aggs[0], aggs[1..];
      SortedTail(aggs);
      if KeyOf(a0) == k {
        var m := a0.(sums := Add(a0.sums, Contribution(l)));
        assert r == [m] + rest;
        SortedCons(m, rest);
      } else if KeyLess(k, KeyOf(a0)) {
        assert r == [Single(l)] + aggs;
        forall j | 0 <= j < |aggs|
          ensures KeyLess(k, KeyOf(aggs[j]))
        {
          if j > 0 {
            assert aggs[j] == rest[j - 1];
            KeyLessTransitive(k, KeyOf(a0), KeyOf(aggs[j]));
          }
        }
        SortedCons(Single(l), aggs);
      } else {
        KeyLessTotal(k, KeyOf(a0));
        var tail := Insert(rest, l);
        InsertSorted(rest, l);
        InsertKeys(rest, l);
        assert r == [a0] + tail;
        forall j | 0 <= j < |tail|
          ensures KeyLess(KeyOf(a0), KeyOf(tail[j]))
        {
          assert KeyOf(tail[j]) in AggKeys(tail);
          if KeyOf(tail[j]) != k {
            var m :| 0 <= m < |rest| && KeyOf(rest[m]) == KeyOf(tail[j]);
          }
        }
        SortedCons(a0, tail);
      }
    }
  }

  /** Inserting a listing adds its contribution to its own group and nowhere else. */
  lemma {:induction false} InsertSums(aggs: seq<Aggregate>, l: Listing, k: Key)
    ensures AggSums(Insert(aggs, l), k)
         == Add(AggSums(aggs, k), if ListingKey(l) == k then Contribution(l) else Zero)
    decreases |aggs|
  {
    var c := if ListingKey(l) == k then Contribution(l) else Zero;
    var r := Insert(aggs, l);
    if aggs == [] {
      assert r == [Single(l)] + [];
      AggSumsCons(Single(l), [], k);
      AddZero(c);
      assert AggSums(r, k) == Add(AggSums(aggs, k), c);
    } else {
      var a0, rest := aggs[0], aggs[1..];
      assert aggs == [a0] + rest;
      AggSumsCons(a0, rest, k);
      var h := if KeyOf(a0) == k then a0.sums else Zero;
      assert AggSums(aggs, k) == Add(h, AggSums(rest, k));
      if KeyOf(a0) == ListingKey(l) {
        var m := a0.(sums := Add(a0.sums, Contribution(l)));
        assert r == [m] + rest;
        AggSumsCons(m, rest, k);
        if ListingKey(l) == k {
          AddAssoc(a0.sums, Contribution(l), AggSums(rest, k));
          AddComm(Contribution(l), AggSums(rest, k));
          AddAssoc(a0.sums, AggSums(rest, k), Contribution(l));
        } else {
          AddZero(Add(h, AggSums(rest, k)));
        }
        assert AggSums(r, k) == Add(AggSums(aggs, k), c);
      } else if KeyLess(ListingKey(l), KeyOf(a0)) {
        assert r == [Single(l)] + aggs;
        AggSumsCons(Single(l), aggs, k);
        AddComm(c, AggSums(aggs, k));
        assert AggSums(r, k) == Add(AggSums(aggs, k), c);
      } else {
        assert r == [a0] + Insert(rest, l);
        InsertSums(rest, l, k);
        AggSumsCons(a0, Insert(rest, l), k);
        AddAssoc(h, AggSums(rest, k), c);
        assert AggSums(r, k) == Add(AggSums(aggs, k), c);
      }
    }
  }

  /** Inserting a listing adds its contribution to the column totals. */
  lemma {:induction false} InsertTotal(aggs: seq<Aggregate>, l: Listing)
    ensures TotalSums(Insert(aggs, l)) == Add(TotalSums(aggs), Contribution(l))
    decreases |aggs|
  {
    var r := Insert(aggs, l);
    if aggs == [] {
      assert r[1..] == [];
    } else if KeyOf(aggs[0]) == ListingKey(l) {
      assert r[1..] == aggs[1..];
    } else if KeyLess(ListingKey(l), KeyOf(aggs[0])) {
      assert r[1..] == aggs;
    } else {
      assert r[1..] == Insert(aggs[1..], l);
      InsertTotal(aggs[1..], l);
    }
  }

  /** A key that no group carries holds nothing. */
  lemma {:induction false} AggSumsNone(aggs: seq<Aggregate>, k: Key)
    requires forall i :: 0 <= i < |aggs| ==> KeyOf(aggs[i]) != k
    ensures AggSums(aggs, k) == Zero
    decreases |aggs|
  {
    if aggs != [] {
      var tail := aggs[1..];
      assert forall i :: 0 <= i < |tail| ==> tail[i] == aggs[i + 1];
      AggSumsNone(tail, k);
    }
  }

  /** A key with no group holds nothing. */
  lemma AggSumsAbsent(aggs: seq<Aggregate>, k: Key)
    requires k !in AggKeys(aggs)
    ensures AggSums(aggs, k) == Zero
  {
    forall i | 0 <= i < |aggs|
      ensures KeyOf(aggs[i]) != k
    {
      assert KeyOf(aggs[i]) in AggKeys(aggs);
    }
    AggSumsNone(aggs, k);
  }

  /** With distinct keys, a group's entry is all that its key holds. */
  lemma {:induction false} AggSumsAt(aggs: seq<Aggregate>, i: nat)
    requires DistinctKeys(aggs) && i < |aggs|
    ensures AggSums(aggs, KeyOf(aggs[i])) == aggs[i].sums
    decreases |aggs|
  {
    var tail := aggs[1..];
    if i == 0 {
      assert KeyOf(aggs[0]) !in AggKeys(tail);
      AggSumsAbsent(tail, KeyOf(aggs[0]));
    } else {
      assert tail[i - 1] == aggs[i];
      AggSumsAt(tail, i - 1);
    }
  }

  /** Appending one group at the back adds what it holds for k. */
  lemma {:induction false} AggSumsSnoc(aggs: seq<Aggregate>, a: Aggregate, k: Key)
    ensures AggSums(aggs + [a], k) == Add(AggSums(aggs, k), if KeyOf(a) == k then a.sums else Zero)
    decreases |aggs|
  {
    if aggs == [] {
      assert ([] + [a])[1..] == [];
    } else {
      assert (aggs + [a])[1..] == aggs[1..] + [a];
      AggSumsSnoc(aggs[1..], a, k);
    }
  }

  /** The groups hold exactly the per-key sums of the listings. */
  lemma {:induction false} BinTimeSums(s: seq<Listing>, k: Key)
    ensures AggSums(BinTime(s), k) == GroupSums(s, k)
    decreases |s|
  {
    if s != [] {
      BinTimeSums(s[..|s| - 1], k);
      InsertSums(BinTime(s[..|s| - 1]), s[|s| - 1], k);
    }
  }

  lemma {:induction false} BinTimeShape(s: seq<Listing>)
    ensures Sorted(BinTime(s))
    ensures AggKeys(BinTime(s)) == ListingKeys(s)
    ensures TotalSums(BinTime(s)) == ListingTotal(s)
    decreases |s|
  {
    if s != [] {
      var init := s[..|s| - 1];
      BinTimeShape(init);
      InsertSorted(BinTime(init), s[|s| - 1]);
      InsertKeys(BinTime(init), s[|s| - 1]);
      InsertTotal(BinTime(init), s[|s| - 1]);
      ListingKeysSnoc(s);
    }
  }

  /**
   * _bin_time is a group-by: one group per distinct (day, zip) of the input,
   * in strictly increasing key order, each holding its listings' summed
   * price, lat and long and their number; nothing is lost in the totals.
   */
  lemma BinTimeIsGroupBy(s: seq<Listing>)
    ensures Sorted(BinTime(s)) && DistinctKeys(BinTime(s))
    ensures AggKeys(BinTime(s)) == ListingKeys(s)
    ensures forall i :: 0 <= i < |BinTime(s)| ==>
      BinTime(s)[i].sums == GroupSums(s, KeyOf(BinTime(s)[i])) && BinTime(s)[i].sums.count >= 1
    ensures TotalSums(BinTime(s)) == ListingTotal(s) && TotalSums(BinTime(s)).count == |s|
  {
    var r := BinTime(s);
    BinTimeShape(s);
    SortedDistinct(r);
    ListingTotalCount(s);
    forall i | 0 <= i < |r|
      ensures r[i].sums == GroupSums(s, KeyOf(r[i])) && r[i].sums.count >= 1
    {
      AggSumsAt(r, i);
      BinTimeSums(s, KeyOf(r[i]));
      assert KeyOf(r[i]) in AggKeys(r);
      GroupCountPositive(s, KeyOf(r[i]));
    }
  }

  // ---------------------------------------------------------------------
  // Exact-duplicate removal and the whole per-chunk pipeline
  // ---------------------------------------------------------------------

  /** drop_duplicates: keeps the first occurrence of each row, in order. */
  function DropDuplicates(s: seq<Aggregate>): (r: seq<Aggregate>)
    ensures |r| <= |s|
  {
    if s == [] then []
    else
      var prior := DropDuplicates(s[..|s| - 1]);
      if s[|s| - 1] in s[..|s| - 1] then prior else prior + [s[|s| - 1]]
  }

  /** drop_duplicates keeps every distinct row once and adds none. */
  lemma {:induction false} DropDuplicatesSpec(s: seq<Aggregate>)
    ensures forall x :: x in DropDuplicates(s) <==> x in s
    ensures forall i, j :: 0 <= i < j < |DropDuplicates(s)| ==> DropDuplicates(s)[i] != DropDuplicates(s)[j]
    decreases |s|
  {
    if s != [] {
      var init := s[..|s| - 1];
      DropDuplicatesSpec(init);
      assert s == init + [s[|s| - 1]];
    }
  }

  /** When no two rows are equal, drop_duplicates removes nothing. */
  lemma {:induction false} DropDuplicatesNoop(s: seq<Aggregate>)
    requires forall i, j :: 0 <= i < j < |s| ==> s[i] != s[j]
    ensures DropDuplicates(s) == s
    decreases |s|
  {
    if s != [] {
      var init := s[..|s| - 1];
      DropDuplicatesNoop(init);
      assert s[|s| - 1] !in init;
      assert s == init + [s[|s| - 1]];
    }
  }

  /** The listings that reach the aggregator: complete rows, ZIPs exploded. */
  function Cleaned(raw: seq<RawRow>): (s: seq<Listing>)
    ensures |s| <= 2 * |raw|
  {
    CleanZip(RemoveMissing(raw))
  }

  /** process: clean, bin by day and zip, then drop exact duplicates. */
  function Process(raw: seq<RawRow>): (r: seq<Aggregate>)
    ensures |r| <= 2 * |raw|
  {
    DropDuplicates(BinTime(Cleaned(raw)))
  }

  /**
   * The keys of a processed chunk are pairwise distinct, so the duplicate
   * drop after grouping removes nothing, and each row is the group-by of
   * the cleaned listings.
   */
  lemma ProcessIsGroupBy(raw: seq<RawRow>)
    ensures Process(raw) == BinTime(Cleaned(raw))
    ensures Sorted(Process(raw)) && DistinctKeys(Process(raw))
    ensures AggKeys(Process(raw)) == ListingKeys(Cleaned(raw))
    ensures forall i :: 0 <= i < |Process(raw)| ==>
      Process(raw)[i].sums == GroupSums(Cleaned(raw), KeyOf(Process(raw)[i]))
    ensures TotalSums(Process(raw)).count == |Cleaned(raw)|
  {
    var b := BinTime(Cleaned(raw));
    BinTimeIsGroupBy(Cleaned(raw));
    DropDuplicatesNoop(b);
  }

  /** A processed chunk has one aggregate per key. */
  lemma ProcessDistinct(raw: seq<RawRow>)
    ensures DistinctKeys(Process(raw))
  {
    ProcessIsGroupBy(raw);
  }

  /** A processed chunk holds, for every key, the sums over its cleaned listings with that key. */
  lemma ProcessSums(raw: seq<RawRow>, k: Key)
    ensures AggSums(Process(raw), k) == GroupSums(Cleaned(raw), k)
    ensures k !in AggKeys(Process(raw)) ==> GroupSums(Cleaned(raw), k) == Zero
  {
    ProcessIsGroupBy(raw);
    BinTimeSums(Cleaned(raw), k);
    if k !in AggKeys(Process(raw)) {
      AggSumsAbsent(Process(raw), k);
    }
  }

  /** Cleaning works row by row: cleaning a concatenation is concatenating the cleaned parts. */
  lemma CleanedAppend(a: seq<RawRow>, b: seq<RawRow>)
    ensures Cleaned(a + b) == Cleaned(a) + Cleaned(b)
  {
    RemoveMissingAppend(a, b);
    CleanZipAppend(RemoveMissing(a), RemoveMissing(b));
  }

  /**
   * Aggregation of raw rows is additive: the group of two chunks read as
   * one is the sum of each chunk's group.
   */
  lemma GroupSumsCleanedAppend(a: seq<RawRow>, b: seq<RawRow>, k: Key)
    ensures GroupSums(Cleaned(a + b), k) == Add(GroupSums(Cleaned(a), k), GroupSums(Cleaned(b), k))
  {
    CleanedAppend(a, b);
    GroupSumsAppend(Cleaned(a), Cleaned(b), k);
  }

  /** Two identical complete rows with a plain ZIP clean to two identical listings. */
  lemma CleanedTwice(x: RawRow)
    requires Complete(x) && '-' !in x.zip.value
    ensures Cleaned([x, x]) == [Known(x), Known(x)]
  {
    var l := Known(x);
    RemoveMissingAppend([x], [x]);
    RemoveMissingSingle(x);
    assert [x] + [x] == [x, x];
    CleanZipAppend([l], [l]);
    CleanZipPlain(l);
    assert [l] + [l] == [l, l];
  }

  /** Two identical listings fall into one group that counts them both. */
  lemma BinTimeTwice(l: Listing)
    ensures BinTime([l, l]) == [Aggregate(Day(l.postedAt), l.zip,
                                          Sums(2 * l.price, 2.0 * l.lat, 2.0 * l.long, 2))]
  {
    assert [l, l][..1] == [l];
    assert [l][..0] == [];
    assert BinTime([l]) == [Single(l)];
    assert BinTime([l, l]) == Insert([Single(l)], l);
  }

  /** Two identical raw rows are both counted: duplicates are dropped only after grouping. */
  lemma IdenticalRowsBothCount(x: RawRow)
    requires Complete(x) && '-' !in x.zip.value
    ensures Process([x, x]) == [Aggregate(Day(x.postedAt.value), x.zip.value,
                                          Sums(2 * x.price.value, 2.0 * x.lat, 2.0 * x.long, 2))]
  {
    var l := Known(x);
    CleanedTwice(x);
    BinTimeTwice(l);
    var a := Aggregate(Day(l.postedAt), l.zip, Sums(2 * l.price, 2.0 * l.lat, 2.0 * l.long, 2));
    assert [a][..0] == [];
    assert DropDuplicates([a]) == [a];
  }

  /** A row with a missing required cell changes nothing downstream. */
  lemma IncompleteRowIgnored(s: seq<RawRow>, m: RawRow)
    requires !Complete(m)
    ensures Cleaned(s + [m]) == Cleaned(s)
    ensures Process(s + [m]) == Process(s)
  {
    RemoveMissingAppend(s, [m]);
    RemoveMissingSingle(m);
    assert RemoveMissing(s) + [] == RemoveMissing(s);
  }

  /** A complete row with a plain ZIP is a group of its own. */
  lemma ProcessOne(x: RawRow)
    requires Complete(x) && '-' !in x.zip.value
    ensures Cleaned([x]) == [Known(x)]
    ensures Process([x]) == [Single(Known(x))]
  {
    var l := Known(x);
    RemoveMissingSingle(x);
    CleanZipPlain(l);
    assert [l][..0] == [];
    assert BinTime([l]) == [Single(l)];
    assert [Single(l)][..0] == [];
  }
}
