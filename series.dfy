/** What `PlotOrder._createOrderDict` and `_createModelDict` compute, stated on
    values: shipment records are folded into product -> year -> month totals and
    flattened into one monthly series per product, observed years ascending, months
    1..12 within each year. Records dated in the sentinel year 2050 are ignored. */
module Series {
  import opened Support

  /** Records in this calendar year are bad data and are skipped. */
  const SkippedYear := 2050

  /** One row of the shipment history: product, the year and month of its ship
      date (the first two fields of the `YYYY-MM-DD` text), and the quantity. */
  datatype Shipment = Shipment(productId: int, year: int, month: int, quantity: real)

  /** Ship dates are calendar dates, so every month field is in 1..12. */
  predicate WellFormed(rs: seq<Shipment>)
  {
    forall i :: 0 <= i < |rs| ==> 1 <= rs[i].month <= 12
  }

  /** Does record `r` contribute to product `p`'s series? */
  predicate Counted(r: Shipment, p: int)
  {
    r.productId == p && r.year != SkippedYear
  }

  /** The products that occur in the records (the keys of `productOrderDB_cal`). */
  function Products(rs: seq<Shipment>): set<int>
  {
    if rs == [] then {} else Products(rs[..|rs| - 1]) + {rs[|rs| - 1].productId}
  }

  /** The years, other than 2050, in which product `p` has a record. */
  function YearsOf(rs: seq<Shipment>, p: int): set<int>
  {
    if rs == [] then {}
    else
      var r := rs[|rs| - 1];
      YearsOf(rs[..|rs| - 1], p) + (if Counted(r, p) then {r.year} else {})
  }

  /** The same years in order of first appearance: the key order of the Python
      dictionary `productOrderDB_cal[p]`. */
  function FirstSeen(rs: seq<Shipment>, p: int): seq<int>
  {
    if rs == [] then []
    else
      var r := rs[|rs| - 1];
      var prev := FirstSeen(rs[..|rs| - 1], p);
      if Counted(r, p) && r.year !in prev then prev + [r.year] else prev
  }

  /** Sum of the quantities product `p` shipped in month `m` of year `y`. */
  function MonthTotal(rs: seq<Shipment>, p: int, y: int, m: int): real
  {
    if rs == [] then 0.0
    else
      var r := rs[|rs| - 1];
      MonthTotal(rs[..|rs| - 1], p, y, m)
        + (if Counted(r, p) && r.year == y && r.month == m then r.quantity else 0.0)
  }

  /** The twelve monthly totals of one year, January first. */
  function YearBlock(rs: seq<Shipment>, p: int, y: int): (b: seq<real>)
    ensures |b| == 12
  {
    seq(12, i => MonthTotal(rs, p, y, i + 1))
  }

  lemma YearBlockAt(rs: seq<Shipment>, p: int, y: int, m: int)
    requires 1 <= m <= 12
    ensures YearBlock(rs, p, y)[m - 1] == MonthTotal(rs, p, y, m)
  {
  }

  /** The year blocks of `ys`, concatenated in the order of `ys`. */
  function Blocks(ys: seq<int>, rs: seq<Shipment>, p: int): seq<real>
  {
    if ys == [] then [] else Blocks(ys[..|ys| - 1], rs, p) + YearBlock(rs, p, ys[|ys| - 1])
  }

  /** The flattened series `modelDict[p]`: observed years ascending, months 1..12. */
  function BuiltSeries(rs: seq<Shipment>, p: int): (s: seq<real>)
    ensures |s| == 12 * |YearsOf(rs, p)|
  {
    BlocksLength(SortedInts(YearsOf(rs, p)), rs, p);
    Blocks(SortedInts(YearsOf(rs, p)), rs, p)
  }

  // ---------------------------------------------------------------------------
  // Properties

  /** The first-appearance order lists each observed year exactly once. */
  lemma {:induction false} FirstSeenIsKeyOrder(rs: seq<Shipment>, p: int)
    ensures forall y :: y in FirstSeen(rs, p) <==> y in YearsOf(rs, p)
    ensures forall i, j :: 0 <= i < j < |FirstSeen(rs, p)| ==> FirstSeen(rs, p)[i] != FirstSeen(rs, p)[j]
  {
    if rs != [] {
      FirstSeenIsKeyOrder(rs[..|rs| - 1], p);
    }
  }

  /** Position `12 * j + k` of the blocks is month `k + 1` of the `j`-th year. */
  lemma {:induction false} BlocksAt(ys: seq<int>, rs: seq<Shipment>, p: int, j: nat, k: nat)
    requires j < |ys| && k < 12
    ensures |Blocks(ys, rs, p)| == 12 * |ys|
    ensures Blocks(ys, rs, p)[12 * j + k] == MonthTotal(rs, p, ys[j], k + 1)
  {
    var init := ys[..|ys| - 1];
    BlocksLength(init, rs, p);
    if j < |ys| - 1 {
      BlocksAt(init, rs, p, j, k);
    }
  }

  lemma {:induction false} BlocksLength(ys: seq<int>, rs: seq<Shipment>, p: int)
    ensures |Blocks(ys, rs, p)| == 12 * |ys|
  {
    if ys != [] {
      BlocksLength(ys[..|ys| - 1], rs, p);
    }
  }

  /** The shape of the built series: twelve entries per observed year, and entry
      `12 * j + (mo - 1)` is the total for month `mo` of the `j`-th smallest year. */
  lemma SeriesShape(rs: seq<Shipment>, p: int, j: nat, mo: int)
    requires j < |YearsOf(rs, p)| && 1 <= mo <= 12
    ensures |BuiltSeries(rs, p)| == 12 * |YearsOf(rs, p)|
    ensures var ys := SortedInts(YearsOf(rs, p));
      ys[j] in YearsOf(rs, p)
      && |set y | y in YearsOf(rs, p) && y < ys[j]| == j
      && BuiltSeries(rs, p)[12 * j + (mo - 1)] == MonthTotal(rs, p, ys[j], mo)
  {
    var ys := SortedInts(YearsOf(rs, p));
    BlocksAt(ys, rs, p, j, mo - 1);
    SmallerCount(ys, YearsOf(rs, p), j);
  }

  /** In an ascending enumeration of a set, exactly `j` elements precede the `j`-th. */
  lemma SmallerCount(ys: seq<int>, s: set<int>, j: nat)
    requires j < |ys| && StrictlyIncreasing(ys)
    requires forall x :: x in ys <==> x in s
    ensures |set y | y in s && y < ys[j]| == j
  {
    var below := set y | y in s && y < ys[j];
    var prefix := ys[..j];
    assert forall y :: y in below <==> y in prefix;
    DistinctCard(prefix);
    assert below == set y | y in prefix;
  }

  /** A strictly increasing sequence has as many distinct elements as entries. */
  lemma {:induction false} DistinctCard(xs: seq<int>)
    requires StrictlyIncreasing(xs)
    ensures |set y | y in xs| == |xs|
  {
    if xs != [] {
      var init := xs[..|xs| - 1];
      DistinctCard(init);
      var last := xs[|xs| - 1];
      assert (set y | y in xs) == (set y | y in init) + {last};
      assert last !in (set y | y in init);
    }
  }

  /** A product's series is empty exactly when it has no record outside 2050. */
  lemma SeriesEmptyIffNoYears(rs: seq<Shipment>, p: int)
    ensures BuiltSeries(rs, p) == [] <==> YearsOf(rs, p) == {}
  {
    BlocksLength(SortedInts(YearsOf(rs, p)), rs, p);
  }

  /** The records with the sentinel year removed. */
  function Without2050(rs: seq<Shipment>): (r: seq<Shipment>)
    ensures |r| <= |rs|
    ensures forall i :: 0 <= i < |r| ==> r[i].year != SkippedYear
  {
    if rs == [] then []
    else
      var last := rs[|rs| - 1];
      Without2050(rs[..|rs| - 1]) + (if last.year == SkippedYear then [] else [last])
  }

  /** Records dated 2050 contribute nothing: removing them leaves every built series as it was. */
  lemma SkippedYearIgnored(rs: seq<Shipment>, p: int)
    ensures BuiltSeries(Without2050(rs), p) == BuiltSeries(rs, p)
  {
    YearsWithout2050(rs, p);
    var ys := SortedInts(YearsOf(rs, p));
    BlocksWithout2050(ys, rs, p);
  }

  lemma {:induction false} YearsWithout2050(rs: seq<Shipment>, p: int)
    ensures YearsOf(Without2050(rs), p) == YearsOf(rs, p)
  {
    if rs != [] {
      var init := rs[..|rs| - 1];
      var last := rs[|rs| - 1];
      YearsWithout2050(init, p);
      var w := Without2050(init);
      if last.year != SkippedYear {
        assert Without2050(rs) == w + [last];
        assert (w + [last])[..|w + [last]| - 1] == w;
      } else {
        assert Without2050(rs) == w;
        assert !Counted(last, p);
      }
    }
  }

  lemma {:induction false} TotalWithout2050(rs: seq<Shipment>, p: int, y: int, m: int)
    ensures MonthTotal(Without2050(rs), p, y, m) == MonthTotal(rs, p, y, m)
  {
    if rs != [] {
      var init := rs[..|rs| - 1];
      var last := rs[|rs| - 1];
      TotalWithout2050(init, p, y, m);
      var w := Without2050(init);
      if last.year != SkippedYear {
        assert Without2050(rs) == w + [last];
        assert (w + [last])[..|w + [last]| - 1] == w;
      } else {
        assert Without2050(rs) == w;
        assert !Counted(last, p);
      }
    }
  }

  lemma {:induction false} BlocksWithout2050(ys: seq<int>, rs: seq<Shipment>, p: int)
    ensures Blocks(ys, Without2050(rs), p) == Blocks(ys, rs, p)
  {
    if ys != [] {
      BlocksWithout2050(ys[..|ys| - 1], rs, p);
      var y := ys[|ys| - 1];
      forall i | 0 <= i < 12
        ensures YearBlock(Without2050(rs), p, y)[i] == YearBlock(rs, p, y)[i]
      {
        TotalWithout2050(rs, p, y, i + 1);
      }
    }
  }

  /** With non-negative quantities every monthly total is non-negative. */
  lemma {:induction false} TotalNonNegative(rs: seq<Shipment>, p: int, y: int, m: int)
    requires forall i :: 0 <= i < |rs| ==> rs[i].quantity >= 0.0
    ensures MonthTotal(rs, p, y, m) >= 0.0
  {
    if rs != [] {
      TotalNonNegative(rs[..|rs| - 1], p, y, m);
    }
  }

  /** With non-negative quantities the whole built series is non-negative. */
  lemma SeriesNonNegative(rs: seq<Shipment>, p: int)
    requires forall i :: 0 <= i < |rs| ==> rs[i].quantity >= 0.0
    ensures forall i :: 0 <= i < |BuiltSeries(rs, p)| ==> BuiltSeries(rs, p)[i] >= 0.0
  {
    var ys := SortedInts(YearsOf(rs, p));
    BlocksLength(ys, rs, p);
    forall i | 0 <= i < |BuiltSeries(rs, p)|
      ensures BuiltSeries(rs, p)[i] >= 0.0
    {
      BlocksAt(ys, rs, p, i / 12, i % 12);
      TotalNonNegative(rs, p, ys[i / 12], i % 12 + 1);
    }
  }
}
