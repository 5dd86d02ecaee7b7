/**
 * The row cleaner: dropping rows with a missing required cell, splitting
 * composite ZIP codes on their first hyphen, and cutting the timestamp down
 * to its calendar day.
 */
module Cleaning {
  import opened Wrappers

  /** One raw listing as read from the input file; an absent cell is None. */
  datatype RawRow = RawRow(postedAt: Option<string>, zip: Option<string>, price: Option<int>, lat: real, long: real)

  /** A listing whose three required cells are all present. */
  datatype Listing = Listing(postedAt: string, zip: string, price: int, lat: real, long: real)

  /** price, zip and posted_at are all present. */
  predicate Complete(r: RawRow)
  {
    r.price.Some? && r.zip.Some? && r.postedAt.Some?
  }

  /** The complete raw row read as a listing. */
  function Known(r: RawRow): Listing
    requires Complete(r)
  {
    Listing(r.postedAt.value, r.zip.value, r.price.value, r.lat, r.long)
  }

  /** A listing written back as a raw row (every required cell present). */
  function AsRaw(l: Listing): (r: RawRow)
    ensures Complete(r) && Known(r) == l
  {
    RawRow(Some(l.postedAt), Some(l.zip), Some(l.price), l.lat, l.long)
  }

  function AsRawRows(ls: seq<Listing>): (rs: seq<RawRow>)
    ensures |rs| == |ls|
    ensures forall i :: 0 <= i < |ls| ==> rs[i] == AsRaw(ls[i])
  {
    seq(|ls|, i requires 0 <= i < |ls| => AsRaw(ls[i]))
  }

  /** Keeps the rows whose price, zip and posted_at are present, in input order. */
  function RemoveMissing(s: seq<RawRow>): (r: seq<Listing>)
    ensures |r| <= |s|
  {
    if s == [] then []
    else RemoveMissing(s[..|s| - 1]) + (if Complete(s[|s| - 1]) then [Known(s[|s| - 1])] else [])
  }

  /** RemoveMissing works row by row: it distributes over concatenation. */
  lemma {:induction false} RemoveMissingAppend(s: seq<RawRow>, t: seq<RawRow>)
    ensures RemoveMissing(s + t) == RemoveMissing(s) + RemoveMissing(t)
    decreases |t|
  {
    if t == [] {
      assert s + t == s;
    } else {
      var t' := t[..|t| - 1];
      assert (s + t)[..|s + t| - 1] == s + t';
      assert (s + t)[|s + t| - 1] == t[|t| - 1];
      RemoveMissingAppend(s, t');
    }
  }

  /** A single row is kept exactly when it is complete. */
  lemma RemoveMissingSingle(x: RawRow)
    ensures RemoveMissing([x]) == if Complete(x) then [Known(x)] else []
  {
    assert [x][..0] == [];
  }

  /** Rows that are already complete all survive, unchanged and in order. */
  lemma {:induction false} RemoveMissingKeepsComplete(ls: seq<Listing>)
    ensures RemoveMissing(AsRawRows(ls)) == ls
    decreases |ls|
  {
    if ls != [] {
      var init := ls[..|ls| - 1];
      assert AsRawRows(ls)[..|ls| - 1] == AsRawRows(init);
      RemoveMissingKeepsComplete(init);
      assert ls == init + [ls[|ls| - 1]];
    }
  }

  /** Applying the filter to its own output changes nothing. */
  lemma RemoveMissingIdempotent(s: seq<RawRow>)
    ensures RemoveMissing(AsRawRows(RemoveMissing(s))) == RemoveMissing(s)
  {
    RemoveMissingKeepsComplete(RemoveMissing(s));
  }

  /** Index of the first hyphen in a ZIP string, if there is one. */
  function HyphenIndex(z: string): (r: Option<nat>)
    ensures r.Some? ==> r.value < |z| && z[r.value] == '-' && '-' !in z[..r.value]
    ensures r.None? ==> '-' !in z
  {
    if z == [] then None
    else if z[0] == '-' then Some(0)
    else match HyphenIndex(z[1..])
      case None => (assert z == [z[0]] + z[1..]; None)
      case Some(i) => (assert z[..i + 1] == [z[0]] + z[1..][..i]; Some(i + 1))
  }

  /** Splits a ZIP on its first hyphen only, as str.split('-', n=1) does. */
  function SplitZip(z: string): (parts: seq<string>)
    ensures 1 <= |parts| <= 2
    ensures '-' !in parts[0]
    ensures |parts| == 1 <==> '-' !in z
    ensures |parts| == 1 ==> parts[0] == z
    ensures |parts| == 2 ==> z == parts[0] + "-" + parts[1]
  {
    match HyphenIndex(z)
    case None => [z]
    case Some(i) => (assert z == z[..i] + "-" + z[i + 1..]; [z[..i], z[i + 1..]])
  }

  /** Whatever follows the first hyphen, hyphens included, stays in the second part. */
  lemma SplitZipAt(a: string, b: string)
    requires '-' !in a
    ensures SplitZip(a + "-" + b) == [a, b]
  {
    var z := a + "-" + b;
    assert z[|a|] == '-';
    var parts := SplitZip(z);
    var p := parts[0];
    assert p == z[..|a|] == a;
    assert parts[1] == z[|a| + 1..] == b;
  }

  lemma SplitZipExamples()
    ensures SplitZip("10001") == ["10001"]
    ensures SplitZip("12345-6789") == ["12345", "6789"]
    ensures SplitZip("a-b-c") == ["a", "b-c"]
  {
    assert "12345-6789" == "12345" + "-" + "6789";
    SplitZipAt("12345", "6789");
    assert "a-b-c" == "a" + "-" + "b-c";
    SplitZipAt("a", "b-c");
  }

  /** One listing fanned out into one row per ZIP component. */
  function Explode(l: Listing): (r: seq<Listing>)
    ensures |r| == |SplitZip(l.zip)|
    ensures forall j :: 0 <= j < |r| ==> r[j] == l.(zip := SplitZip(l.zip)[j])
  {
    var parts := SplitZip(l.zip);
    if |parts| == 1 then [l] else [l.(zip := parts[0]), l.(zip := parts[1])]
  }

  /** The explode step: every listing replaced, in place, by its ZIP components. */
  function CleanZip(s: seq<Listing>): (r: seq<Listing>)
    ensures |s| <= |r| <= 2 * |s|
  {
    if s == [] then [] else CleanZip(s[..|s| - 1]) + Explode(s[|s| - 1])
  }

  /** The last listing's rows come last. */
  lemma CleanZipSnoc(u: seq<Listing>)
    requires u != []
    ensures CleanZip(u) == CleanZip(u[..|u| - 1]) + Explode(u[|u| - 1])
  {
  }

  /** CleanZip works row by row: it distributes over concatenation. */
  lemma {:induction false} CleanZipAppend(s: seq<Listing>, t: seq<Listing>)
    ensures CleanZip(s + t) == CleanZip(s) + CleanZip(t)
    decreases |t|
  {
    if t == [] {
      assert s + t == s;
    } else {
      var t' := t[..|t| - 1];
      var u := s + t;
      assert u[..|u| - 1] == s + t';
      assert u[|u| - 1] == t[|t| - 1];
      var a, b, e := CleanZip(s), CleanZip(t'), Explode(t[|t| - 1]);
      calc {
        CleanZip(u);
        { CleanZipSnoc(u); }
        CleanZip(s + t') + e;
        { CleanZipAppend(s, t'); }
        (a + b) + e;
        a + (b + e);
        { CleanZipSnoc(t); }
        a + CleanZip(t);
      }
    }
  }

  /** A single listing becomes the rows of Explode, which differ only in zip. */
  lemma CleanZipSingle(l: Listing)
    ensures CleanZip([l]) == Explode(l)
  {
    assert [l][..0] == [];
  }

  /**
   * A ZIP with a hyphen fans out into two rows that differ only in zip: the
   * part before the first hyphen and everything after it (a ZIP+4 code such
   * as 12345-6789 gives 12345 and 6789; a-b-c gives a and b-c).
   */
  lemma CleanZipSplitsOnce(l: Listing, a: string, b: string)
    requires '-' !in a && l.zip == a + "-" + b
    ensures CleanZip([l]) == [l.(zip := a), l.(zip := b)]
  {
    CleanZipSingle(l);
    SplitZipAt(a, b);
    var r := Explode(l);
    assert r[0] == l.(zip := a) && r[1] == l.(zip := b);
  }

  /** A ZIP without a hyphen stays one unchanged row. */
  lemma CleanZipPlain(l: Listing)
    requires '-' !in l.zip
    ensures CleanZip([l]) == [l]
  {
    CleanZipSingle(l);
  }

  /**
   * Splitting on the first hyphen only: a ZIP with two hyphens gives two
   * rows, and cleaning those rows again gives three.
   */
  lemma CleanZipNotIdempotent(l: Listing, a: string, b: string, c: string)
    requires '-' !in a && '-' !in b
    requires l.zip == a + "-" + (b + "-" + c)
    ensures |CleanZip([l])| == 2 && |CleanZip(CleanZip([l]))| == 3
    ensures CleanZip(CleanZip([l])) != CleanZip([l])
  {
    var x, y := l.(zip := a), l.(zip := b + "-" + c);
    CleanZipSplitsOnce(l, a, b + "-" + c);
    assert [x, y] == [x] + [y];
    CleanZipAppend([x], [y]);
    CleanZipPlain(x);
    CleanZipSplitsOnce(y, b, c);
  }

  /** The calendar day: the first ten characters of posted_at. */
  function Day(postedAt: string): (d: string)
    ensures |d| == if |postedAt| < 10 then |postedAt| else 10
    ensures d == postedAt[..|d|]
  {
    if |postedAt| <= 10 then postedAt else postedAt[..10]
  }
}
