/** Degree selection in `PlotOrder.modeling`: every candidate degree 2..8 has one
    evaluation tuple, and the degree with the largest test R-squared wins, starting
    from degree 2 and replacing the current choice only on a strictly larger value.
    The tuples are visited in the order the evaluation threads finished, which is
    any permutation of the seven degrees. */
module Selection {

  /** The tuple `(rmse_train, r2_train, rmse_test, r2_test, mae_test)` one degree's
      fit produced; the fitting itself is outside this model. */
  datatype FitResult = FitResult(trainRmse: real, trainR2: real, testRmse: real, testR2: real, testMae: real)

  /** The degree the search starts from. */
  const SeedDegree := 2

  /** The candidate degrees, `range(2, 9)`. */
  const Degrees: seq<int> := [2, 3, 4, 5, 6, 7, 8]

  /** `order` lists each candidate degree exactly once. (The bounds follow from
      the multiset equality; they are spelled out so that contracts can index `fits`.) */
  ghost predicate IsDegreeOrder(order: seq<int>)
  {
    && multiset(order) == multiset(Degrees)
    && forall i :: 0 <= i < |order| ==> 2 <= order[i] <= 8
  }

  /** Every candidate degree has an evaluation. */
  ghost predicate HasAllFits(fits: map<int, FitResult>)
  {
    forall d :: 2 <= d <= 8 ==> d in fits
  }

  /** The choice `(bestDegree, maxR2)` after visiting `order` left to right. */
  function Scan(order: seq<int>, fits: map<int, FitResult>): (int, real)
    requires SeedDegree in fits
    requires forall i :: 0 <= i < |order| ==> order[i] in fits
  {
    if order == [] then (SeedDegree, fits[SeedDegree].testR2)
    else
      var prev := Scan(order[..|order| - 1], fits);
      var k := order[|order| - 1];
      if fits[k].testR2 > prev.1 then (k, fits[k].testR2) else prev
  }

  /** What the scan computes: the largest test R-squared among the seed and the
      visited degrees, attained by the chosen degree; the seed is kept when it
      attains it, and otherwise the winner is the first visited degree attaining it. */
  lemma {:induction false} ScanIsFirstArgmax(order: seq<int>, fits: map<int, FitResult>)
    requires SeedDegree in fits
    requires forall i :: 0 <= i < |order| ==> order[i] in fits
    ensures var (b, m) := Scan(order, fits);
      && b in fits && m == fits[b].testR2
      && fits[SeedDegree].testR2 <= m
      && (forall i :: 0 <= i < |order| ==> fits[order[i]].testR2 <= m)
      && (fits[SeedDegree].testR2 == m ==> b == SeedDegree)
      && (b != SeedDegree ==>
            exists i :: 0 <= i < |order| && order[i] == b
              && forall k :: 0 <= k < i ==> fits[order[k]].testR2 < m)
  {
    if order != [] {
      var init := order[..|order| - 1];
      ScanIsFirstArgmax(init, fits);
      var (b0, m0) := Scan(init, fits);
      var k := order[|order| - 1];
      if fits[k].testR2 > m0 {
        assert order[|order| - 1] == k;
        assert forall j :: 0 <= j < |init| ==> order[j] == init[j];
      } else {
        if b0 != SeedDegree {
          var i :| 0 <= i < |init| && init[i] == b0
            && forall j :: 0 <= j < i ==> fits[init[j]].testR2 < m0;
          assert order[i] == b0;
        }
      }
    }
  }

  /** Over a permutation of 2..8 the scan picks a candidate degree whose test
      R-squared is the maximum over all seven degrees. */
  lemma DegreeSelection(order: seq<int>, fits: map<int, FitResult>)
    requires IsDegreeOrder(order) && HasAllFits(fits)
    ensures var (b, m) := Scan(order, fits);
      && 2 <= b <= 8 && m == fits[b].testR2
      && (forall d :: 2 <= d <= 8 ==> fits[d].testR2 <= m)
      && (fits[SeedDegree].testR2 == m ==> b == SeedDegree)
  {
    DegreeOrderMembers(order);
    ScanIsFirstArgmax(order, fits);
    var (b, m) := Scan(order, fits);
    forall d | 2 <= d <= 8 ensures fits[d].testR2 <= m {
      var i :| 0 <= i < |order| && order[i] == d;
    }
  }

  /** The members of a degree order are exactly the degrees 2..8. */
  lemma DegreeOrderMembers(order: seq<int>)
    requires IsDegreeOrder(order)
    ensures forall d :: 2 <= d <= 8 ==> d in order
  {
    forall d | 2 <= d <= 8 ensures d in order {
      assert Degrees[d - 2] == d;
      assert d in multiset(Degrees);
      assert d in multiset(order);
    }
  }

  /** When one degree alone attains the largest test R-squared, the thread
      completion order does not matter. */
  lemma OrderIrrelevantForUniqueBest(o1: seq<int>, o2: seq<int>, fits: map<int, FitResult>, d: int)
    requires IsDegreeOrder(o1) && IsDegreeOrder(o2) && HasAllFits(fits)
    requires 2 <= d <= 8
    requires forall e :: 2 <= e <= 8 && e != d ==> fits[e].testR2 < fits[d].testR2
    ensures Scan(o1, fits) == Scan(o2, fits)
    ensures Scan(o1, fits).0 == d
  {
    DegreeSelection(o1, fits);
    DegreeSelection(o2, fits);
  }

  /** `bestDegree` and `maxR2` as the loop in `modeling` leaves them. */
  method SelectBestDegree(order: seq<int>, fits: map<int, FitResult>) returns (bestDegree: int, maxR2: real)
    requires IsDegreeOrder(order) && HasAllFits(fits)
    ensures (bestDegree, maxR2) == Scan(order, fits)
    ensures 2 <= bestDegree <= 8 && maxR2 == fits[bestDegree].testR2
    ensures forall d :: 2 <= d <= 8 ==> fits[d].testR2 <= maxR2
    ensures fits[SeedDegree].testR2 == maxR2 ==> bestDegree == SeedDegree
  {
    DegreeOrderMembers(order);
    bestDegree := SeedDegree;
    maxR2 := fits[bestDegree].testR2;
    for i := 0 to |order|
      invariant (bestDegree, maxR2) == Scan(order[..i], fits)
    {
      var k := order[i];
      assert order[..i + 1][..i] == order[..i];
      if fits[k].testR2 > maxR2 {
        bestDegree := k;
        maxR2 := fits[k].testR2;
      }
    }
    assert order[..|order|] == order;
    DegreeSelection(order, fits);
  }
}
