/** Small value-level helpers shared by the forecasting modules: an Option type,
    the ascending enumeration of a finite set of integers (Python's `sorted` over
    dictionary keys), counting, and Python's `str` of an integer. */
module Support {

  datatype Option<+T> = None | Some(value: T)

  datatype Result<+T, +E> = Success(value: T) | Failure(error: E)

  /** The least element of a non-empty finite set. */
  function MinOf(s: set<int>): (m: int)
    requires s != {}
    ensures m in s
    ensures forall y :: y in s ==> m <= y
  {
    HasLeast(s);
    var m :| m in s && forall y :: y in s ==> m <= y;
    m
  }

  /** A set that is not empty has an element. */
  lemma HasElement(s: set<int>)
    requires s != {}
    ensures exists x :: x in s
  {
    if forall x :: x !in s {
      assert false;
    }
  }

  lemma HasLeast(s: set<int>)
    requires s != {}
    ensures exists m :: m in s && forall y :: y in s ==> m <= y
    decreases |s|
  {
    HasElement(s);
    var x :| x in s;
    var rest := s - {x};
    if rest == {} {
      forall y | y in s ensures x <= y {
        assert y !in rest;
      }
    } else {
      assert |rest| == |s| - 1;
      HasLeast(rest);
      var r :| r in rest && forall y :: y in rest ==> r <= y;
      var m := if x < r then x else r;
      forall y | y in s ensures m <= y {
        if y != x { assert y in rest; }
      }
      assert m in s;
    }
  }

  ghost predicate StrictlyIncreasing(s: seq<int>)
  {
    forall i, j :: 0 <= i < j < |s| ==> s[i] < s[j]
  }

  /** The elements of `s` in ascending order, as `sorted(d.keys())` gives them. */
  function SortedInts(s: set<int>): (r: seq<int>)
    ensures |r| == |s|
    ensures forall x :: x in r <==> x in s
    ensures StrictlyIncreasing(r)
    decreases |s|
  {
    if s == {} then []
    else
      var m := MinOf(s);
      var rest := SortedInts(s - {m});
      assert |s - {m}| == |s| - 1;
      assert forall x :: x in rest ==> m < x;
      [m] + rest
  }

  /** Number of entries of `s` that are strictly positive (`len(arr[arr > 0])`). */
  function PositiveCount(s: seq<real>): nat
  {
    if s == [] then 0
    else PositiveCount(s[..|s| - 1]) + (if s[|s| - 1] > 0.0 then 1 else 0)
  }

  /** Number of entries of `s` that are not zero. */
  function NonZeroCount(s: seq<real>): nat
  {
    if s == [] then 0
    else NonZeroCount(s[..|s| - 1]) + (if s[|s| - 1] != 0.0 then 1 else 0)
  }

  /** Every positive entry is a non-zero one, so the positive count never exceeds
      the non-zero count; on a series without negative entries the two agree. */
  lemma {:induction false} PositiveAtMostNonZero(s: seq<real>)
    ensures PositiveCount(s) <= NonZeroCount(s)
    ensures (forall i :: 0 <= i < |s| ==> s[i] >= 0.0) ==> PositiveCount(s) == NonZeroCount(s)
  {
    if s != [] {
      var init := s[..|s| - 1];
      assert forall i :: 0 <= i < |init| ==> init[i] == s[i];
      PositiveAtMostNonZero(init);
    }
  }

  // ---------------------------------------------------------------------------
  // Python's str() of an integer

  function DigitChar(d: nat): (c: char)
    requires d < 10
    ensures '0' <= c <= '9'
  {
    "0123456789"[d]
  }

  predicate IsDigit(c: char)
  {
    '0' <= c <= '9'
  }

  /** Decimal digits of a natural number, most significant first, no padding. */
  function NatText(n: nat): (s: string)
    ensures |s| >= 1
    ensures forall i :: 0 <= i < |s| ==> IsDigit(s[i])
  {
    if n < 10 then [DigitChar(n)] else NatText(n / 10) + [DigitChar(n % 10)]
  }

  /** `str(n)` for a Python int: a minus sign for negatives, then the digits. */
  function IntText(n: int): (s: string)
    ensures |s| >= 1
    ensures forall i :: 0 <= i < |s| ==> IsDigit(s[i]) || s[i] == '-'
    ensures forall i :: 0 < i < |s| ==> IsDigit(s[i])
    ensures s[0] == '-' <==> n < 0
  {
    if n < 0 then "-" + NatText(-n) else NatText(n)
  }

  /** Value of a string of decimal digits (`int(s)` on such a string). */
  function DigitsValue(s: string): nat
    requires forall i :: 0 <= i < |s| ==> IsDigit(s[i])
  {
    if s == [] then 0
    else
      assert IsDigit(s[|s| - 1]);
      DigitsValue(s[..|s| - 1]) * 10 + (s[|s| - 1] as int - '0' as int)
  }

  /** Parsing the printed digits gives the number back. */
  lemma {:induction false} NatTextRoundTrip(n: nat)
    ensures DigitsValue(NatText(n)) == n
  {
    if n >= 10 {
      NatTextRoundTrip(n / 10);
      var s := NatText(n);
      assert s[..|s| - 1] == NatText(n / 10);
    }
  }
}
