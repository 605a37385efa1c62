/** The class `PlotOrder`: it builds the per-product monthly series from the
    shipment records, offers the products with enough data, selects a polynomial
    degree for one product, and assembles a forecast by appending predicted months
    to that product's series in place.

    The regression itself is not modelled. The evaluation tuple of each degree is
    the input `fits`; `order` is the order in which the evaluation threads
    finished; `refit(d, x)` is the value at month index `x` of the model refitted
    at degree `d` on all non-zero months. */
module Visualization {
  import opened Support
  import opened Series
  import opened Selection
  import opened Forecast

  /** The 1-based month indices of the non-zero entries of a series, ascending. */
  function NonZeroMonths(s: seq<real>): (ms: seq<int>)
    ensures |ms| == NonZeroCount(s) <= |s|
    ensures forall k :: 0 <= k < |ms| ==> 1 <= ms[k] <= |s|
  {
    if s == [] then []
    else NonZeroMonths(s[..|s| - 1]) + (if s[|s| - 1] != 0.0 then [|s|] else [])
  }

  /** The quantities at those months, in the same order. */
  function NonZeroQuantities(s: seq<real>): seq<real>
  {
    if s == [] then []
    else NonZeroQuantities(s[..|s| - 1]) + (if s[|s| - 1] != 0.0 then [s[|s| - 1]] else [])
  }

  /** The training points are exactly the non-zero months: as many as there are
      non-zero entries, ascending, each naming a non-zero entry and its quantity, and
      every non-zero entry is named. */
  lemma {:induction false} TrainingPoints(s: seq<real>)
    ensures |NonZeroMonths(s)| == |NonZeroQuantities(s)| == NonZeroCount(s)
    ensures StrictlyIncreasing(NonZeroMonths(s))
    ensures forall k :: 0 <= k < |NonZeroMonths(s)| ==>
      1 <= NonZeroMonths(s)[k] <= |s| && s[NonZeroMonths(s)[k] - 1] != 0.0
      && NonZeroQuantities(s)[k] == s[NonZeroMonths(s)[k] - 1]
    ensures forall i :: 0 <= i < |s| && s[i] != 0.0 ==> i + 1 in NonZeroMonths(s)
  {
    QuantityCount(s);
    MonthsAscending(s);
    PointsNamed(s);
    MonthsCover(s);
  }

  lemma {:induction false} QuantityCount(s: seq<real>)
    ensures |NonZeroQuantities(s)| == NonZeroCount(s)
  {
    if s != [] {
      QuantityCount(s[..|s| - 1]);
    }
  }

  lemma {:induction false} MonthsAscending(s: seq<real>)
    ensures StrictlyIncreasing(NonZeroMonths(s))
  {
    if s != [] {
      MonthsAscending(s[..|s| - 1]);
    }
  }

  /** Month `k` names a non-zero entry, and quantity `k` is that entry. */
  lemma {:induction false} PointsNamed(s: seq<real>)
    ensures |NonZeroQuantities(s)| == |NonZeroMonths(s)|
    ensures forall k :: 0 <= k < |NonZeroMonths(s)| ==>
      s[NonZeroMonths(s)[k] - 1] != 0.0 && NonZeroQuantities(s)[k] == s[NonZeroMonths(s)[k] - 1]
  {
    QuantityCount(s);
    if s != [] {
      var init := s[..|s| - 1];
      PointsNamed(init);
      assert forall i :: 0 <= i < |init| ==> init[i] == s[i];
    }
  }

  lemma {:induction false} MonthsCover(s: seq<real>)
    ensures forall i :: 0 <= i < |s| && s[i] != 0.0 ==> i + 1 in NonZeroMonths(s)
  {
    if s != [] {
      var init := s[..|s| - 1];
      MonthsCover(init);
      assert forall i :: 0 <= i < |init| ==> init[i] == s[i];
    }
  }

  /** A product that is offered (more than ten positive months) can be modelled
      (more than ten non-zero months); when no month is negative the converse holds. */
  lemma OfferedProductCanBeModelled(s: seq<real>)
    ensures PositiveCount(s) > MinDataPoints ==> |NonZeroMonths(s)| > MinDataPoints
    ensures (forall i :: 0 <= i < |s| ==> s[i] >= 0.0) ==>
      (PositiveCount(s) > MinDataPoints <==> |NonZeroMonths(s)| > MinDataPoints)
  {
    PositiveAtMostNonZero(s);
    TrainingPoints(s);
  }

  /** `monthList` and `quantityList` as the first loop of `modeling` builds them. */
  method ExtractPoints(series: seq<real>) returns (monthList: seq<int>, quantityList: seq<real>)
    ensures monthList == NonZeroMonths(series) && quantityList == NonZeroQuantities(series)
    ensures |monthList| == |quantityList| == NonZeroCount(series)
    ensures forall k :: 0 <= k < |monthList| ==>
      1 <= monthList[k] <= |series| && quantityList[k] == series[monthList[k] - 1] != 0.0
  {
    monthList := [];
    quantityList := [];
    for i := 0 to |series|
      invariant monthList == NonZeroMonths(series[..i])
      invariant quantityList == NonZeroQuantities(series[..i])
    {
      assert series[..i + 1][..i] == series[..i];
      if series[i] != 0.0 {
        monthList := monthList + [i + 1];
        quantityList := quantityList + [series[i]];
      }
    }
    assert series[..|series|] == series;
    TrainingPoints(series);
  }
  /** `d` has exactly the month keys 1..12. */
  ghost predicate HasMonthKeys(d: map<int, real>)
  {
    forall m :: m in d <==> 1 <= m <= 12
  }

  /** A year dictionary with every month at zero. */
  ghost predicate IsZeroMonths(d: map<int, real>)
  {
    HasMonthKeys(d) && forall m :: m in d ==> d[m] == 0.0
  }

  /** `table` is `productOrderDB_cal` for these records: one entry per product, one
      per year outside 2050 in which it shipped, and the monthly totals. */
  ghost predicate TableFrom(records: seq<Shipment>, table: map<int, map<int, map<int, real>>>)
  {
    && table.Keys == Products(records)
    && (forall p :: p in table ==> table[p].Keys == YearsOf(records, p))
    && (forall p, y :: p in table && y in table[p] ==> HasMonthKeys(table[p][y]))
    && (forall p, y, m :: p in table && y in table[p] && 1 <= m <= 12 ==>
          table[p][y][m] == MonthTotal(records, p, y, m))
  }

  /** `keyOrder[p]` is the insertion order of the year keys of `productOrderDB_cal[p]`. */
  ghost predicate KeyOrderFrom(records: seq<Shipment>, keyOrder: map<int, seq<int>>)
  {
    && keyOrder.Keys == Products(records)
    && (forall p :: p in keyOrder ==> keyOrder[p] == FirstSeen(records, p))
  }

  /** `modelDict` for these records: one built series per product that has a
      record outside 2050, and no entry for any other product. */
  ghost predicate ModelFrom(records: seq<Shipment>, md: map<int, seq<real>>)
  {
    && (forall p :: p in md <==> p in Products(records) && YearsOf(records, p) != {})
    && (forall p :: p in md ==> md[p] == BuiltSeries(records, p))
  }

  /** The invariant tying the three dictionaries together: the key order lists the
      year keys, and a product with a non-empty series has at least one year. */
  ghost predicate Consistent(table: map<int, map<int, map<int, real>>>, keyOrder: map<int, seq<int>>,
                             md: map<int, seq<real>>)
  {
    && table.Keys == keyOrder.Keys
    && (forall p :: p in table ==> forall y :: y in keyOrder[p] <==> y in table[p])
    && (forall p :: p in md && md[p] != [] ==> p in table && table[p] != map[])
  }

  /** The dictionaries built from any records are consistent. */
  lemma BuiltStateConsistent(records: seq<Shipment>, table: map<int, map<int, map<int, real>>>,
                             keyOrder: map<int, seq<int>>, md: map<int, seq<real>>)
    requires TableFrom(records, table) && KeyOrderFrom(records, keyOrder) && ModelFrom(records, md)
    ensures Consistent(table, keyOrder, md)
  {
    forall p | p in md && md[p] != []
      ensures p in table && table[p] != map[]
    {
      HasElement(YearsOf(records, p));
      var y :| y in YearsOf(records, p);
      assert y in table[p];
    }
    forall p | p in table
      ensures forall y :: y in keyOrder[p] <==> y in table[p]
    {
      FirstSeenIsKeyOrder(records, p);
    }
  }

  /** First loop of `_createOrderDict`: an empty year dictionary per product. */
  method ResetProducts(records: seq<Shipment>)
    returns (table: map<int, map<int, map<int, real>>>, keyOrder: map<int, seq<int>>)
    ensures table.Keys == Products(records) == keyOrder.Keys
    ensures forall p :: p in table ==> table[p] == map[] && keyOrder[p] == []
  {
    table := map[];
    keyOrder := map[];
    for i := 0 to |records|
      invariant table.Keys == Products(records[..i]) == keyOrder.Keys
      invariant forall p :: p in table ==> table[p] == map[] && keyOrder[p] == []
    {
      assert records[..i + 1][..i] == records[..i];
      table := table[records[i].productId := map[]];
      keyOrder := keyOrder[records[i].productId := []];
    }
    assert records[..|records|] == records;
  }

  /** Second loop of `_createOrderDict`: a fresh month dictionary for every
      (product, year) of a record outside 2050, keys in order of first appearance. */
  method AddYearKeys(records: seq<Shipment>, table0: map<int, map<int, map<int, real>>>,
                     keyOrder0: map<int, seq<int>>)
    returns (table: map<int, map<int, map<int, real>>>, keyOrder: map<int, seq<int>>)
    requires table0.Keys == Products(records) == keyOrder0.Keys
    requires forall p :: p in table0 ==> table0[p] == map[] && keyOrder0[p] == []
    ensures table.Keys == Products(records) && KeyOrderFrom(records, keyOrder)
    ensures forall p :: p in table ==> table[p].Keys == YearsOf(records, p)
    ensures forall p, y :: p in table && y in table[p] ==> table[p][y] == map[]
  {
    table, keyOrder := table0, keyOrder0;
    assert records[..0] == [];
    for i := 0 to |records|
      invariant table.Keys == Products(records) == keyOrder.Keys
      invariant YearKeysUpTo(records, table, keyOrder, i)
    {
      var r := records[i];
      ProductOfRecord(records, i);
      if r.year != SkippedYear {
        var p := r.productId;
        ghost var t0, k0 := table, keyOrder;
        table := table[p := table[p][r.year := map[]]];
        if r.year !in keyOrder[p] {
          keyOrder := keyOrder[p := keyOrder[p] + [r.year]];
        }
        YearKeyStep(records, i, t0, k0, table, keyOrder);
      } else {
        YearKeySkip(records, i, table, keyOrder);
      }
    }
    assert records[..|records|] == records;
  }

  /** The year keys and their insertion order after the first `n` records, every
      year dictionary still empty. */
  ghost predicate YearKeysUpTo(records: seq<Shipment>, table: map<int, map<int, map<int, real>>>,
                               keyOrder: map<int, seq<int>>, n: nat)
    requires n <= |records|
  {
    && (forall p :: p in table ==> table[p].Keys == YearsOf(records[..n], p))
    && (forall p :: p in keyOrder ==> keyOrder[p] == FirstSeen(records[..n], p))
    && (forall p, y :: p in table && y in table[p] ==> table[p][y] == map[])
  }

  /** Recording the year of record `i` under its product keeps the keys up to date. */
  lemma YearKeyStep(records: seq<Shipment>, i: nat, t0: map<int, map<int, map<int, real>>>, k0: map<int, seq<int>>,
                    t1: map<int, map<int, map<int, real>>>, k1: map<int, seq<int>>)
    requires i < |records| && records[i].year != SkippedYear && YearKeysUpTo(records, t0, k0, i)
    requires var r := records[i];
      && r.productId in t0 && r.productId in k0
      && t1 == t0[r.productId := t0[r.productId][r.year := map[]]]
      && k1 == if r.year in k0[r.productId] then k0 else k0[r.productId := k0[r.productId] + [r.year]]
    ensures YearKeysUpTo(records, t1, k1, i + 1)
  {
    var r := records[i];
    assert records[..i + 1][..i] == records[..i];
    assert records[..i + 1][i] == r;
    forall p | p in t1 ensures t1[p].Keys == YearsOf(records[..i + 1], p) {
      if p != r.productId {
        assert t1[p] == t0[p];
      }
    }
    forall p | p in k1 ensures k1[p] == FirstSeen(records[..i + 1], p) {
      if p != r.productId {
        assert k1[p] == k0[p];
      }
    }
  }

  /** A record dated 2050 leaves the keys as they were. */
  lemma YearKeySkip(records: seq<Shipment>, i: nat, t: map<int, map<int, map<int, real>>>, k: map<int, seq<int>>)
    requires i < |records| && records[i].year == SkippedYear && YearKeysUpTo(records, t, k, i)
    ensures YearKeysUpTo(records, t, k, i + 1)
  {
    assert records[..i + 1][..i] == records[..i];
  }

  /** Third loop of `_createOrderDict`: every month of every year set to zero. */
  method ZeroFill(table0: map<int, map<int, map<int, real>>>) returns (table: map<int, map<int, map<int, real>>>)
    requires forall p, y :: p in table0 && y in table0[p] ==> table0[p][y] == map[]
    ensures table.Keys == table0.Keys
    ensures forall p :: p in table ==> table[p].Keys == table0[p].Keys
    ensures forall p, y :: p in table && y in table[p] ==> IsZeroMonths(table[p][y])
  {
    table := table0;
    var todo := table0.Keys;
    while todo != {}
      invariant todo <= table.Keys && table.Keys == table0.Keys
      invariant forall p :: p in table ==> table[p].Keys == table0[p].Keys
      invariant forall p :: p in todo ==> table[p] == table0[p]
      invariant forall p, y :: p in table && p !in todo && y in table[p] ==> IsZeroMonths(table[p][y])
      decreases todo
    {
      HasElement(todo);
      var k :| k in todo;
      var years := ZeroYears(table[k]);
      table := table[k := years];
      todo := todo - {k};
    }
  }

  /** The third loop on one product's year dictionary. */
  method ZeroYears(years0: map<int, map<int, real>>) returns (years: map<int, map<int, real>>)
    requires forall y :: y in years0 ==> years0[y] == map[]
    ensures years.Keys == years0.Keys
    ensures forall y :: y in years ==> IsZeroMonths(years[y])
  {
    years := years0;
    var todo := years0.Keys;
    while todo != {}
      invariant todo <= years0.Keys && years.Keys == years0.Keys
      invariant forall y :: y in todo ==> years[y] == map[]
      invariant forall y :: y in years && y !in todo ==> IsZeroMonths(years[y])
      decreases todo
    {
      HasElement(todo);
      var y :| y in todo;
      var d := years[y];
      for i := 1 to 13
        invariant forall m :: m in d <==> 1 <= m < i
        invariant forall m :: m in d ==> d[m] == 0.0
      {
        d := d[i := 0.0];
      }
      years := years[y := d];
      todo := todo - {y};
    }
  }

  /** Fourth loop of `_createOrderDict`: each record outside 2050 adds its
      quantity to its month. */
  method AddQuantities(records: seq<Shipment>, table0: map<int, map<int, map<int, real>>>)
    returns (table: map<int, map<int, map<int, real>>>)
    requires WellFormed(records)
    requires table0.Keys == Products(records)
    requires forall p :: p in table0 ==> table0[p].Keys == YearsOf(records, p)
    requires forall p, y :: p in table0 && y in table0[p] ==> IsZeroMonths(table0[p][y])
    ensures TableFrom(records, table)
  {
    table := table0;
    assert records[..0] == [];
    for i := 0 to |records|
      invariant table.Keys == Products(records)
      invariant forall p :: p in table ==> table[p].Keys == YearsOf(records, p)
      invariant forall p, y :: p in table && y in table[p] ==> HasMonthKeys(table[p][y])
      invariant TotalsUpTo(records, table, i)
    {
      var r := records[i];
      if r.year != SkippedYear {
        ProductOfRecord(records, i);
        YearOfRecord(records, i);
        var years := table[r.productId];
        var months := years[r.year];
        assert r.month in months;
        ghost var t0 := table;
        table := table[r.productId := years[r.year := months[r.month := months[r.month] + r.quantity]]];
        AddStep(records, i, t0, table);
      } else {
        SkipStep(records, i, table);
      }
    }
    assert records[..|records|] == records;
  }

  /** Every month of `table` holds the total of the first `n` records. */
  ghost predicate TotalsUpTo(records: seq<Shipment>, table: map<int, map<int, map<int, real>>>, n: nat)
    requires n <= |records|
  {
    forall p, y, m :: p in table && y in table[p] && 1 <= m <= 12 && m in table[p][y] ==>
      table[p][y][m] == MonthTotal(records[..n], p, y, m)
  }

  /** Adding record `i` to its month keeps the totals up to date. */
  lemma AddStep(records: seq<Shipment>, i: nat, t0: map<int, map<int, map<int, real>>>,
                t1: map<int, map<int, map<int, real>>>)
    requires i < |records| && records[i].year != SkippedYear && TotalsUpTo(records, t0, i)
    requires var r := records[i];
      && r.productId in t0 && r.year in t0[r.productId] && r.month in t0[r.productId][r.year]
      && t1 == t0[r.productId := t0[r.productId][r.year := t0[r.productId][r.year][r.month :=
                   t0[r.productId][r.year][r.month] + r.quantity]]]
    ensures TotalsUpTo(records, t1, i + 1)
    ensures t1.Keys == t0.Keys && forall p :: p in t1 ==> t1[p].Keys == t0[p].Keys
    ensures forall p, y :: p in t1 && y in t1[p] ==> t1[p][y].Keys == t0[p][y].Keys
  {
    var r := records[i];
    assert records[..i + 1][..i] == records[..i];
    forall p, y, m | p in t1 && y in t1[p] && 1 <= m <= 12 && m in t1[p][y]
      ensures t1[p][y][m] == MonthTotal(records[..i + 1], p, y, m)
    {
      if p == r.productId && y == r.year && m == r.month {
        assert t1[p][y][m] == t0[p][y][m] + r.quantity;
      } else {
        assert t1[p][y][m] == t0[p][y][m];
      }
    }
  }

  /** A record dated 2050 leaves the totals as they were. */
  lemma SkipStep(records: seq<Shipment>, i: nat, t: map<int, map<int, map<int, real>>>)
    requires i < |records| && records[i].year == SkippedYear && TotalsUpTo(records, t, i)
    ensures TotalsUpTo(records, t, i + 1)
  {
    assert records[..i + 1][..i] == records[..i];
  }

  /** The outer loop of `_createModelDict`: for each product, its months appended
      year by year in ascending year order. */
  method Flatten(records: seq<Shipment>, table: map<int, map<int, map<int, real>>>)
    returns (md: map<int, seq<real>>)
    requires TableFrom(records, table)
    ensures ModelFrom(records, md)
  {
    TableBlocks(records, table);
    md := map[];
    var todo := table.Keys;
    while todo != {}
      invariant todo <= table.Keys
      invariant forall p :: p in md <==> p in table.Keys - todo && YearsOf(records, p) != {}
      invariant forall p :: p in md ==> md[p] == BuiltSeries(records, p)
      decreases todo
    {
      HasElement(todo);
      var k :| k in todo;
      var sorted := SortedInts(table[k].Keys);
      YearsSeriesBlocks(sorted, table[k], records, k);
      md := AppendSeries(k, table[k], md);
      todo := todo - {k};
    }
  }

  /** The body of that loop for product `k` with year dictionary `years`:
      `modelDict[k].append(...)` for every month of every year, ascending; the
      entry appears with the first append. */
  method AppendSeries(k: int, years: map<int, map<int, real>>, md0: map<int, seq<real>>)
    returns (md: map<int, seq<real>>)
    requires k !in md0 && MonthDicts(years)
    ensures md == if years.Keys == {} then md0 else md0[k := YearsSeries(SortedInts(years.Keys), years)]
  {
    var sorted := SortedInts(years.Keys);
    var series := FlattenYears(sorted, years);
    md := if sorted == [] then md0 else md0[k := series];
  }

  /** The year loop for one product: the months of each year of `ys`, in order. */
  method FlattenYears(ys: seq<int>, years: map<int, map<int, real>>) returns (series: seq<real>)
    requires forall i :: 0 <= i < |ys| ==> ys[i] in years
    requires MonthDicts(years)
    ensures series == YearsSeries(ys, years)
  {
    series := [];
    for j := 0 to |ys|
      invariant series == YearsSeries(ys[..j], years)
    {
      var y := ys[j];
      assert y in years && HasMonths(years[y]);
      assert ys[..j + 1][..j] == ys[..j];
      series := AppendMonths(series, years[y]);
    }
    assert ys[..|ys|] == ys;
  }

  /** Every year dictionary holds the twelve months. */
  ghost predicate MonthDicts(years: map<int, map<int, real>>)
  {
    forall y :: y in years ==> HasMonths(years[y])
  }

  /** The dictionary has an entry for each month 1..12. */
  ghost predicate HasMonths(dic: map<int, real>)
  {
    forall m :: 1 <= m <= 12 ==> m in dic
  }

  /** The month values of the years `ys`, in the order of `ys`. */
  function YearsSeries(ys: seq<int>, years: map<int, map<int, real>>): seq<real>
    requires forall i :: 0 <= i < |ys| ==> ys[i] in years
    requires MonthDicts(years)
  {
    if ys == [] then []
    else
      var y := ys[|ys| - 1];
      assert y in years && HasMonths(years[y]);
      YearsSeries(ys[..|ys| - 1], years) + MonthValues(years[y])
  }

  /** Year dictionaries that are the year blocks flatten to the blocks. */
  lemma {:induction false} YearsSeriesBlocks(ys: seq<int>, years: map<int, map<int, real>>, records: seq<Shipment>, k: int)
    requires forall i :: 0 <= i < |ys| ==> ys[i] in years
    requires MonthDicts(years)
    requires forall y :: y in years ==> IsYearBlock(years[y], records, k, y)
    ensures YearsSeries(ys, years) == Blocks(ys, records, k)
  {
    if ys != [] {
      assert forall i :: 0 <= i < |ys| - 1 ==> ys[..|ys| - 1][i] == ys[i];
      YearsSeriesBlocks(ys[..|ys| - 1], years, records, k);
      assert IsYearBlock(years[ys[|ys| - 1]], records, k, ys[|ys| - 1]);
    }
  }

  /** Inserting the empty series for a missing product, as a `defaultdict` lookup
      does, keeps the dictionaries consistent. */
  lemma DefaultInsertConsistent(table: map<int, map<int, map<int, real>>>, keyOrder: map<int, seq<int>>,
                                md: map<int, seq<real>>, p: int)
    requires Consistent(table, keyOrder, md)
    ensures Consistent(table, keyOrder, if p in md then md else md[p := []])
  {
    if p !in md {
      ConsistentUpdate(table, keyOrder, md, p, []);
    }
  }

  /** Any series may replace that of a product that has years, and the empty
      series that of any product. */
  lemma ConsistentUpdate(table: map<int, map<int, map<int, real>>>, keyOrder: map<int, seq<int>>,
                         md: map<int, seq<real>>, p: int, s: seq<real>)
    requires Consistent(table, keyOrder, md) && (s != [] ==> p in table && table[p] != map[])
    ensures Consistent(table, keyOrder, md[p := s])
  {
  }

  /** The twelve values of a year dictionary, January first. */
  function MonthValues(dic: map<int, real>): (vs: seq<real>)
    requires HasMonths(dic)
    ensures |vs| == 12
  {
    seq(12, i requires 0 <= i < 12 => dic[i + 1])
  }

  /** `dic` holds the months of year `y` of product `k`, in calendar order. */
  ghost predicate IsYearBlock(dic: map<int, real>, records: seq<Shipment>, k: int, y: int)
  {
    HasMonths(dic) && MonthValues(dic) == YearBlock(records, k, y)
  }

  lemma TableBlocks(records: seq<Shipment>, table: map<int, map<int, map<int, real>>>)
    requires TableFrom(records, table)
    ensures forall p, y :: p in table && y in table[p] ==> IsYearBlock(table[p][y], records, p, y)
  {
    forall p, y | p in table && y in table[p]
      ensures IsYearBlock(table[p][y], records, p, y)
    {
      YearDictIsBlock(records, p, y, table[p][y]);
    }
  }

  lemma YearDictIsBlock(records: seq<Shipment>, k: int, y: int, dic: map<int, real>)
    requires forall m :: 1 <= m <= 12 ==> m in dic && dic[m] == MonthTotal(records, k, y, m)
    ensures MonthValues(dic) == YearBlock(records, k, y)
  {
    forall i | 0 <= i < 12 ensures MonthValues(dic)[i] == YearBlock(records, k, y)[i] {
      YearBlockAt(records, k, y, i + 1);
    }
  }

  /** The inner loop: the twelve months of one year appended to `modelDict[k]`. */
  method AppendMonths(series: seq<real>, dic: map<int, real>) returns (extended: seq<real>)
    requires HasMonths(dic)
    ensures extended == series + MonthValues(dic)
  {
    extended := series;
    ghost var block := MonthValues(dic);
    for m := 1 to 13
      invariant extended == series + block[..m - 1]
    {
      assert block[..m] == block[..m - 1] + [dic[m]];
      extended := extended + [dic[m]];
    }
    assert block[..12] == block;
  }

  /** The evaluations `metricsDict` holds after a successful `modeling` call. */
  function AllFits(fits: map<int, FitResult>): map<int, FitResult>
  {
    map d | d in fits && 2 <= d <= 8 :: fits[d]
  }

  /** The refitted model of degree `d` evaluated at each month index in `xs`. */
  function Predictions(refit: (int, int) -> real, d: int, xs: seq<int>): (ys: seq<real>)
    ensures |ys| == |xs|
    ensures forall i :: 0 <= i < |xs| ==> ys[i] == refit(d, xs[i])
  {
    seq(|xs|, i requires 0 <= i < |xs| => refit(d, xs[i]))
  }

  /** What `modeling` decides for a series: nothing with ten or fewer non-zero
      months; otherwise the best test R-squared, every degree's evaluation, the
      selected degree, the training months and the refitted values at them. */
  datatype Fitted = Fitted(maxR2: real, metrics: map<int, FitResult>, best: int, x: seq<int>, y: seq<real>)

  function FitOf(series: seq<real>, order: seq<int>, fits: map<int, FitResult>, refit: (int, int) -> real): Option<Fitted>
    requires IsDegreeOrder(order) && HasAllFits(fits)
  {
    if NonZeroCount(series) <= MinDataPoints then None
    else
      var (best, r2) := Scan(order, fits);
      var x := NonZeroMonths(series);
      Some(Fitted(r2, AllFits(fits), best, x, Predictions(refit, best, x)))
  }

  /** The modelling outcome: refused exactly when there are ten or fewer non-zero
      months; otherwise the selected degree is a candidate whose test R-squared is
      the largest (degree 2 kept on a tie with it), every candidate has its
      evaluation recorded, the training months are the non-zero months, and the
      fitted values are the selected model at those months. */
  lemma FitOfMeaning(series: seq<real>, order: seq<int>, fits: map<int, FitResult>, refit: (int, int) -> real)
    requires IsDegreeOrder(order) && HasAllFits(fits)
    ensures FitOf(series, order, fits, refit).None? <==> |NonZeroMonths(series)| <= MinDataPoints
    ensures FitOf(series, order, fits, refit).Some? ==>
      var f := FitOf(series, order, fits, refit).value;
      && 2 <= f.best <= 8 && f.maxR2 == fits[f.best].testR2
      && (forall d :: 2 <= d <= 8 ==> fits[d].testR2 <= f.maxR2)
      && (fits[SeedDegree].testR2 == f.maxR2 ==> f.best == SeedDegree)
      && (forall d :: d in f.metrics <==> 2 <= d <= 8)
      && (forall d :: d in f.metrics ==> f.metrics[d] == fits[d])
      && |f.x| == |f.y| == NonZeroCount(series) > MinDataPoints
      && (forall k :: 0 <= k < |f.x| ==> 1 <= f.x[k] <= |series| && series[f.x[k] - 1] != 0.0)
      && (forall i :: 0 <= i < |series| && series[i] != 0.0 ==> i + 1 in f.x)
      && (forall k :: 0 <= k < |f.x| ==> f.y[k] == refit(f.best, f.x[k]))
  {
    FitSelection(series, order, fits, refit);
    FitPoints(series, order, fits, refit);
  }

  /** The degree half of `FitOfMeaning`. */
  lemma FitSelection(series: seq<real>, order: seq<int>, fits: map<int, FitResult>, refit: (int, int) -> real)
    requires IsDegreeOrder(order) && HasAllFits(fits)
    ensures FitOf(series, order, fits, refit).Some? ==>
      var f := FitOf(series, order, fits, refit).value;
      && 2 <= f.best <= 8 && f.maxR2 == fits[f.best].testR2
      && (forall d :: 2 <= d <= 8 ==> fits[d].testR2 <= f.maxR2)
      && (fits[SeedDegree].testR2 == f.maxR2 ==> f.best == SeedDegree)
      && (forall d :: d in f.metrics <==> 2 <= d <= 8)
      && (forall d :: d in f.metrics ==> f.metrics[d] == fits[d])
  {
    DegreeSelection(order, fits);
  }

  /** The training-point half of `FitOfMeaning`. */
  lemma FitPoints(series: seq<real>, order: seq<int>, fits: map<int, FitResult>, refit: (int, int) -> real)
    requires IsDegreeOrder(order) && HasAllFits(fits)
    ensures FitOf(series, order, fits, refit).None? <==> |NonZeroMonths(series)| <= MinDataPoints
    ensures FitOf(series, order, fits, refit).Some? ==>
      var f := FitOf(series, order, fits, refit).value;
      && |f.x| == |f.y| == NonZeroCount(series) > MinDataPoints
      && (forall k :: 0 <= k < |f.x| ==> 1 <= f.x[k] <= |series| && series[f.x[k] - 1] != 0.0)
      && (forall i :: 0 <= i < |series| && series[i] != 0.0 ==> i + 1 in f.x)
      && (forall k :: 0 <= k < |f.x| ==> f.y[k] == refit(f.best, f.x[k]))
  {
    TrainingPoints(series);
  }

  /** The per-degree evaluations stored in `metricsDict`, one slot per thread. */
  method RecordFits(order: seq<int>, fits: map<int, FitResult>) returns (metrics: map<int, FitResult>)
    requires IsDegreeOrder(order) && HasAllFits(fits)
    ensures metrics == AllFits(fits)
  {
    metrics := map[];
    for i := 0 to |order|
      invariant forall d :: d in metrics <==> d in order[..i]
      invariant forall d :: d in metrics ==> metrics[d] == fits[d]
    {
      assert order[..i + 1] == order[..i] + [order[i]];
      metrics := metrics[order[i] := fits[order[i]]];
    }
    assert order[..|order|] == order;
    DegreeOrderMembers(order);
    assert forall d :: d in metrics <==> d in AllFits(fits);
  }

  /** The body of `modeling` on the product's series. */
  method FitSeries(series: seq<real>, order: seq<int>, fits: map<int, FitResult>, refit: (int, int) -> real)
    returns (fit: Option<Fitted>)
    requires IsDegreeOrder(order) && HasAllFits(fits)
    ensures fit == FitOf(series, order, fits, refit)
  {
    var monthList, quantityList := ExtractPoints(series);
    if |monthList| > MinDataPoints {
      var metrics := RecordFits(order, fits);
      var best, r2 := SelectBestDegree(order, fits);
      var fitted := Predictions(refit, best, monthList);
      fit := Some(Fitted(r2, metrics, best, monthList, fitted));
    } else {
      fit := None;
    }
  }

  /** The axes of the forecast chart: bar positions for the history and then the
      forecast months, a month label per bar, and the year labels with their
      positions (`None` where `newlabel[-1]` fails). */
  method AxisLayout(historyLength: nat, months: seq<int>, keys: seq<int>, startYear: int, m: int)
    returns (xTicks: seq<int>, monthTicks: seq<int>, labels: Option<seq<int>>, positions: seq<int>)
    ensures xTicks == TickRange(historyLength) + months
    ensures |monthTicks| == |xTicks| && forall i :: 0 <= i < |xTicks| ==> monthTicks[i] == MonthLabel(xTicks[i])
    ensures labels == YearLabels(keys, startYear, m)
    ensures labels.Some? ==> positions == seq(|labels.value|, YearTick)
  {
    xTicks := TickRange(historyLength);
    xTicks := xTicks + months;
    monthTicks := MonthLabels(xTicks);
    labels := ExtendYearLabels(keys, startYear, m);
    positions := [];
    if labels.Some? {
      positions := YearPositions(|labels.value|);
    }
  }

  /** Error raised by `forecastPlot` once the series has been extended: no year key
      is at or before the start year, so `newlabel[-1]` fails. */
  datatype PlotError = NoYearLabel

  class PlotOrder {
    /** `productOrderDB_cal`: product -> year -> month -> summed quantity. */
    var orderTable: map<int, map<int, map<int, real>>>
    /** The key order of each `productOrderDB_cal[p]` (Python dictionaries keep
        insertion order). */
    var yearOrder: map<int, seq<int>>
    /** `modelDict`: product -> monthly series. */
    var modelDict: map<int, seq<real>>
    /** `metricsDict`: degree -> evaluation tuple, from the last `modeling` call. */
    var metricsDict: map<int, FitResult>
    var bestDegree: int
    /** `x_forPlot` and `y_poly_pred` from the last successful `modeling` call. */
    var xForPlot: seq<int>
    var yPolyPred: seq<real>

    ghost predicate Valid()
      reads this
    {
      Consistent(orderTable, yearOrder, modelDict)
    }

    /** `__init__`: read the records and build both dictionaries. */
    constructor (records: seq<Shipment>)
      requires WellFormed(records)
      ensures Valid()
      ensures TableFrom(records, orderTable) && KeyOrderFrom(records, yearOrder) && ModelFrom(records, modelDict)
      ensures metricsDict == map[]
    {
      orderTable := map[];
      yearOrder := map[];
      modelDict := map[];
      metricsDict := map[];
      bestDegree := SeedDegree;
      xForPlot := [];
      yPolyPred := [];
      new;
      CreateModelDict(records);
    }

    /** `_createOrderDict`. */
    method CreateOrderDict(records: seq<Shipment>)
      requires WellFormed(records)
      modifies this
      ensures TableFrom(records, orderTable) && KeyOrderFrom(records, yearOrder)
      ensures modelDict == old(modelDict) && metricsDict == old(metricsDict)
      ensures bestDegree == old(bestDegree) && xForPlot == old(xForPlot) && yPolyPred == old(yPolyPred)
    {
      var table, keyOrder := ResetProducts(records);
      table, keyOrder := AddYearKeys(records, table, keyOrder);
      table := ZeroFill(table);
      table := AddQuantities(records, table);
      orderTable := table;
      yearOrder := keyOrder;
    }

    /** `_createModelDict`: build the order table, then flatten it. */
    method CreateModelDict(records: seq<Shipment>)
      requires WellFormed(records)
      modifies this
      ensures Valid()
      ensures TableFrom(records, orderTable) && KeyOrderFrom(records, yearOrder) && ModelFrom(records, modelDict)
      ensures metricsDict == old(metricsDict)
      ensures bestDegree == old(bestDegree) && xForPlot == old(xForPlot) && yPolyPred == old(yPolyPred)
    {
      CreateOrderDict(records);
      modelDict := Flatten(records, orderTable);
      BuiltStateConsistent(records, orderTable, yearOrder, modelDict);
    }

    /** `findAvaliableProducts`: the products with more than ten positive months. */
    function AvailableProducts(): (r: set<int>)
      reads this
      ensures forall p :: p in r <==> p in modelDict && PositiveCount(modelDict[p]) > MinDataPoints
      ensures forall p :: p in r ==> NonZeroCount(modelDict[p]) > MinDataPoints
    {
      PositiveAtMostNonZeroAll(modelDict);
      set p | p in modelDict && PositiveCount(modelDict[p]) > MinDataPoints
    }

    /** `getMae`: the test MAE of the selected degree. */
    function GetMae(): real
      reads this
      requires bestDegree in metricsDict
    {
      metricsDict[bestDegree].testMae
    }

    /** After modelling, `getMae` reports the test MAE (the fifth field of the
        evaluation tuple) of the degree with the largest test R². */
    lemma SelectedMae(order: seq<int>, fits: map<int, FitResult>)
      requires IsDegreeOrder(order) && HasAllFits(fits)
      requires metricsDict == AllFits(fits) && bestDegree == Scan(order, fits).0
      ensures bestDegree in metricsDict && GetMae() == fits[bestDegree].testMae
      ensures forall d :: 2 <= d <= 8 ==> fits[d].testR2 <= fits[bestDegree].testR2
    {
      DegreeSelection(order, fits);
    }

    /** `modeling`: collect the non-zero months; with more than ten, record every
        degree's evaluation (as the threads finish, in `order`), pick the degree
        with the best test R-squared and fit it on all non-zero months. Returns that
        R-squared, or `None` (nothing fitted) when there are too few points. Looking
        up an unknown product inserts an empty series, as the `defaultdict` does. */
    method Modeling(productID: int, order: seq<int>, fits: map<int, FitResult>, refit: (int, int) -> real)
      returns (maxR2: Option<real>)
      requires Valid() && IsDegreeOrder(order) && HasAllFits(fits)
      modifies this
      ensures Valid()
      ensures orderTable == old(orderTable) && yearOrder == old(yearOrder)
      ensures modelDict == if productID in old(modelDict) then old(modelDict) else old(modelDict)[productID := []]
      ensures var f := FitOf(modelDict[productID], order, fits, refit);
        && (f.None? ==> maxR2.None? && metricsDict == old(metricsDict) && bestDegree == old(bestDegree)
                        && xForPlot == old(xForPlot) && yPolyPred == old(yPolyPred))
        && (f.Some? ==> maxR2 == Some(f.value.maxR2) && metricsDict == f.value.metrics
                        && bestDegree == f.value.best && xForPlot == f.value.x && yPolyPred == f.value.y)
    {
      var series := EnsureSeries(productID);
      var outcome := FitSeries(series, order, fits, refit);
      maxR2 := StoreFit(outcome);
    }

    /** `self.modelDict[productID]` on the `defaultdict`: a missing product gets
        the empty series. */
    method EnsureSeries(productID: int) returns (series: seq<real>)
      requires Valid()
      modifies this
      ensures Valid()
      ensures modelDict == if productID in old(modelDict) then old(modelDict) else old(modelDict)[productID := []]
      ensures series == modelDict[productID]
      ensures orderTable == old(orderTable) && yearOrder == old(yearOrder)
      ensures metricsDict == old(metricsDict) && bestDegree == old(bestDegree)
      ensures xForPlot == old(xForPlot) && yPolyPred == old(yPolyPred)
    {
      DefaultInsertConsistent(orderTable, yearOrder, modelDict, productID);
      modelDict := if productID in modelDict then modelDict else modelDict[productID := []];
      series := modelDict[productID];
    }

    /** The fields a successful fit sets; nothing changes when there is none. */
    method StoreFit(outcome: Option<Fitted>) returns (maxR2: Option<real>)
      modifies this
      ensures orderTable == old(orderTable) && yearOrder == old(yearOrder) && modelDict == old(modelDict)
      ensures outcome.None? ==> maxR2.None? && metricsDict == old(metricsDict) && bestDegree == old(bestDegree)
                                && xForPlot == old(xForPlot) && yPolyPred == old(yPolyPred)
      ensures outcome.Some? ==> maxR2 == Some(outcome.value.maxR2) && metricsDict == outcome.value.metrics
                                && bestDegree == outcome.value.best && xForPlot == outcome.value.x
                                && yPolyPred == outcome.value.y
    {
      if outcome.Some? {
        var f := outcome.value;
        metricsDict, bestDegree, xForPlot, yPolyPred := f.metrics, f.best, f.x, f.y;
        maxR2 := Some(f.maxR2);
      } else {
        maxR2 := None;
      }
    }

    /** `forecastPlot` without the drawing: choose the horizon, model the product,
        predict the months after the start month, append the policed predictions to
        the product's series in place, and lay out both axes. */
    method ForecastPlot(productID: int, choice: nat, startYear: int, startMon: int,
                        order: seq<int>, fits: map<int, FitResult>, refit: (int, int) -> real)
      returns (r: Result<ForecastOutput, PlotError>)
      requires Valid() && IsDegreeOrder(order) && HasAllFits(fits)
      requires productID in modelDict && NonZeroCount(modelDict[productID]) > MinDataPoints
      modifies this
      ensures Valid()
      ensures orderTable == old(orderTable) && yearOrder == old(yearOrder)
      ensures productID in orderTable && orderTable[productID] != map[]
      ensures bestDegree == Scan(order, fits).0 && 2 <= bestDegree <= 8
      ensures metricsDict == AllFits(fits) && bestDegree in metricsDict && GetMae() == fits[bestDegree].testMae
      ensures xForPlot == NonZeroMonths(old(modelDict[productID]))
      ensures yPolyPred == Predictions(refit, bestDegree, xForPlot)
      ensures var m := Horizon(choice);
        var b := bestDegree;
        var currX := StartIndex(startYear, MinOf(orderTable[productID].Keys), startMon);
        var raw := Predictions(refit, b, ForecastIndices(currX, m));
        var low := LowConfidence(Scan(order, fits).1, fits[b].testMae);
        modelDict == old(modelDict)[productID := old(modelDict[productID]) + Appended(raw, low)]
      ensures r.Success? <==> YearLabels(yearOrder[productID], startYear, Horizon(choice)).Some?
      ensures r.Success? ==>
        var m := Horizon(choice);
        var currX := StartIndex(startYear, MinOf(orderTable[productID].Keys), startMon);
        var labels := YearLabels(yearOrder[productID], startYear, m).value;
        && r.value.x == xForPlot && r.value.y == yPolyPred && r.value.months == m
        && r.value.series == modelDict[productID]
        && r.value.xTicks == TickRange(|old(modelDict[productID])|) + ForecastIndices(currX, m)
        && |r.value.xTicks| == |r.value.series|
        && r.value.yearLabels == labels
        && r.value.yearPositions == seq(|labels|, YearTick)
    {
      var m := Horizon(choice);
      var maxR2 := Modeling(productID, order, fits, refit);
      FitOfMeaning(modelDict[productID], order, fits, refit);
      NonEmptySeries(modelDict[productID]);
      var years := orderTable[productID].Keys;
      assert years != {};
      var firstYear := SortedInts(years)[0];
      assert firstYear == MinOf(years);
      var currX := (startYear - firstYear) * 12 + startMon;
      var months := ForecastMonths(currX, m);
      var forecastY := Predictions(refit, bestDegree, months);
      var history := modelDict[productID];
      assert history == old(modelDict[productID]);
      assert maxR2.value == Scan(order, fits).1 && GetMae() == fits[bestDegree].testMae;
      assert currX == StartIndex(startYear, MinOf(orderTable[productID].Keys), startMon);
      AppendForecast(productID, forecastY, maxR2.value);
      ConsistentUpdate(orderTable, yearOrder, old(modelDict), productID, modelDict[productID]);
      AppendedPolicy(forecastY, maxR2.value, GetMae());
      var xTicks, monthTicks, labels, positions := AxisLayout(|history|, months, yearOrder[productID], startYear, m);
      if labels.None? {
        return Failure(NoYearLabel);
      }
      r := Success(ForecastOutput(xForPlot, yPolyPred, m, xTicks, modelDict[productID], labels.value, positions));
    }

    /** The append loop of `forecastPlot`: each prediction goes onto the end of
        `modelDict[productID]`, in place; a negative one as the stub, and every one
        as zero when the model is untrusted. */
    method AppendForecast(productID: int, forecastY: seq<real>, maxR2: real)
      requires productID in modelDict && bestDegree in metricsDict
      modifies this
      ensures orderTable == old(orderTable) && yearOrder == old(yearOrder) && metricsDict == old(metricsDict)
      ensures bestDegree == old(bestDegree) && xForPlot == old(xForPlot) && yPolyPred == old(yPolyPred)
      ensures modelDict == old(modelDict)[productID := old(modelDict[productID])
                             + Appended(forecastY, LowConfidence(maxR2, GetMae()))]
    {
      ghost var low := LowConfidence(maxR2, GetMae());
      ghost var base := modelDict;
      ghost var history := modelDict[productID];
      assert Appended(forecastY[..0], low) == [];
      assert history + [] == history;
      assert base[productID := history] == base;
      for i := 0 to |forecastY|
        invariant modelDict == base[productID := history + Appended(forecastY[..i], low)]
        invariant orderTable == old(orderTable) && yearOrder == old(yearOrder) && metricsDict == old(metricsDict)
        invariant bestDegree == old(bestDegree) && xForPlot == old(xForPlot) && yPolyPred == old(yPolyPred)
      {
        var f := forecastY[i];
        if f < 0.0 {
          f := NegativeStub;
        }
        assert forecastY[..i + 1][..i] == forecastY[..i];
        ghost var done := Appended(forecastY[..i], low);
        assert Appended(forecastY[..i + 1], low) == done + [ForecastValue(forecastY[i], low)];
        if maxR2 < MinR2 && GetMae() > MaeLimit {
          assert history + done + [0.0] == history + (done + [0.0]);
          modelDict := modelDict[productID := modelDict[productID] + [0.0]];
        } else {
          assert history + done + [f] == history + (done + [f]);
          modelDict := modelDict[productID := modelDict[productID] + [f]];
        }
      }
      assert forecastY[..|forecastY|] == forecastY;
    }

    /** The month-label loop of `savedForecastPlot`, over the saved bar positions. */
    method SavedForecastPlot(listX: seq<int>) returns (monthTicks: seq<int>)
      ensures |monthTicks| == |listX|
      ensures forall i :: 0 <= i < |listX| ==> monthTicks[i] == MonthLabel(listX[i]) && 1 <= monthTicks[i] <= 12
    {
      monthTicks := MonthLabels(listX);
    }
  }

  /** Every record's product is a key of the order table. */
  lemma {:induction false} ProductOfRecord(records: seq<Shipment>, i: nat)
    requires i < |records|
    ensures records[i].productId in Products(records)
  {
    if i < |records| - 1 {
      ProductOfRecord(records[..|records| - 1], i);
    }
  }

  /** Every record outside 2050 has its year among its product's years. */
  lemma {:induction false} YearOfRecord(records: seq<Shipment>, i: nat)
    requires i < |records| && records[i].year != SkippedYear
    ensures records[i].year in YearsOf(records, records[i].productId)
  {
    if i < |records| - 1 {
      YearOfRecord(records[..|records| - 1], i);
    }
  }

  lemma NonEmptySeries(s: seq<real>)
    requires NonZeroCount(s) > 0
    ensures s != []
  {
  }

  lemma PositiveAtMostNonZeroAll(m: map<int, seq<real>>)
    ensures forall p :: p in m ==> PositiveCount(m[p]) <= NonZeroCount(m[p])
  {
    forall p | p in m ensures PositiveCount(m[p]) <= NonZeroCount(m[p]) {
      PositiveAtMostNonZero(m[p]);
    }
  }
}
