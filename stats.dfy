/** `get_stats`: the descriptive statistics of one column of the summary,
    with Tukey's five-number summary computed as R's `fivenum` does. */
module Stats {
  import opened Base
  import opened Values
  import opened Sorting

  /* ---------- ordering numbers ---------- */

  /** Python 2 compares an int and a float by value. */
  predicate NumLe(a: Num, b: Num)
  {
    a.Real() <= b.Real()
  }

  function NumOrder(): ((Num, Num) -> bool)
  {
    (a: Num, b: Num) => NumLe(a, b)
  }

  lemma NumOrderTotal()
    ensures TotalPreorder(NumOrder())
  {
  }

  /** `values.sort()`. */
  function SortNums(values: seq<Num>): (r: seq<Num>)
    ensures |r| == |values| && multiset(r) == multiset(values)
    ensures forall i, j :: 0 <= i < j < |r| ==> r[i].Real() <= r[j].Real()
  {
    NumOrderTotal();
    var r := Sort(values, NumOrder());
    assert forall i, j :: 0 <= i < j < |r| ==> NumLe(r[i], r[j]);
    r
  }

  /* ---------- the five-number summary ---------- */

  /** `ceil` of a real, as an int. */
  function Ceil(x: real): (r: int)
    ensures x <= r as real < x + 1.0
  {
    if x.Floor as real == x then x.Floor else x.Floor + 1
  }

  /** `n4 = floor((n + 3) / 2.0) / 2.0`. */
  function N4(n: nat): real
  {
    ((n + 3) as real / 2.0).Floor as real / 2.0
  }

  /** `d = [1.0, n4, (n + 1) / 2.0, n + 1 - n4, float(n)]`: the depths of the
      minimum, the hinges, the median and the maximum. */
  function Depths(n: nat): (d: seq<real>)
    ensures |d| == 5
  {
    [1.0, N4(n), (n + 1) as real / 2.0, (n + 1) as real - N4(n), n as real]
  }

  /** `[int(floor(q)) - 1 for q in d]`. */
  function FloorIndices(n: nat): (r: seq<int>)
    ensures |r| == 5
  {
    var d := Depths(n);
    seq(5, k requires 0 <= k < 5 => d[k].Floor - 1)
  }

  /** `[int(ceil(q)) - 1 for q in d]`. */
  function CeilIndices(n: nat): (r: seq<int>)
    ensures |r| == 5
  {
    var d := Depths(n);
    seq(5, k requires 0 <= k < 5 => Ceil(d[k]) - 1)
  }

  /** Twice each depth, which is a whole number. */
  function TwiceDepths(n: nat): seq<int>
  {
    var h := (n + 3) / 2;
    [2, h, n + 1, 2 * n + 2 - h, 2 * n]
  }

  lemma HalfFloor(t: int)
    requires t >= 0
    ensures (t as real / 2.0).Floor == t / 2
    ensures Ceil(t as real / 2.0) == (t + 1) / 2
  {
    var q := t / 2;
    if t % 2 == 0 {
      assert t as real / 2.0 == q as real;
    } else {
      assert t as real / 2.0 == q as real + 0.5;
    }
  }

  lemma DepthsAreHalves(n: nat)
    ensures forall k :: 0 <= k < 5 ==> Depths(n)[k] == TwiceDepths(n)[k] as real / 2.0
  {
    HalfFloor(n + 3);
  }

  /** The doubled depths climb from 2 to 2n. */
  lemma TwiceDepthsClimb(n: nat)
    requires n >= 1
    ensures var t := TwiceDepths(n);
      t[0] == 2 && t[4] == 2 * n && forall k :: 0 <= k < 4 ==> t[k] <= t[k + 1]
  {
  }

  /** Each index is half a doubled depth, rounded down or up, less one. */
  lemma IndicesFromTwice(n: nat)
    ensures forall k :: 0 <= k < 5 ==>
      FloorIndices(n)[k] == TwiceDepths(n)[k] / 2 - 1 && CeilIndices(n)[k] == (TwiceDepths(n)[k] + 1) / 2 - 1
  {
    DepthsAreHalves(n);
    var t := TwiceDepths(n);
    forall k | 0 <= k < 5
      ensures FloorIndices(n)[k] == t[k] / 2 - 1 && CeilIndices(n)[k] == (t[k] + 1) / 2 - 1
    {
      HalfFloor(t[k]);
    }
  }

  /** For a non-empty column every index `get_stats` reads is in range; the
      two indices of a depth are equal or adjacent; the minimum is read at 0
      and the maximum at n - 1; and the indices never decrease. */
  lemma FivenumIndices(n: nat)
    requires n >= 1
    ensures forall k :: 0 <= k < 5 ==> 0 <= FloorIndices(n)[k] <= CeilIndices(n)[k] <= FloorIndices(n)[k] + 1
    ensures forall k :: 0 <= k < 5 ==> CeilIndices(n)[k] <= n - 1
    ensures FloorIndices(n)[0] == CeilIndices(n)[0] == 0
    ensures FloorIndices(n)[4] == CeilIndices(n)[4] == n - 1
    ensures forall k :: 0 <= k < 4 ==> FloorIndices(n)[k] <= FloorIndices(n)[k + 1] && CeilIndices(n)[k] <= CeilIndices(n)[k + 1]
  {
    TwiceDepthsClimb(n);
    IndicesFromTwice(n);
  }

  /** `0.5 * (values[floor_idx[k]] + values[ceil_idx[k]])` for the five depths. */
  function Fivenum(sorted: seq<Num>): (r: seq<real>)
    requires |sorted| >= 1
    ensures |r| == 5
  {
    var fi := FloorIndices(|sorted|);
    var ci := CeilIndices(|sorted|);
    FivenumIndices(|sorted|);
    seq(5, k requires 0 <= k < 5 => 0.5 * (sorted[fi[k]].Real() + sorted[ci[k]].Real()))
  }

  /* ---------- the statistics ---------- */

  /** `[(value - mean) ** 2 for value in values]`. */
  function Squares(values: seq<Num>, mean: real): (r: seq<real>)
    ensures |r| == |values|
  {
    seq(|values|, i requires 0 <= i < |values| => (values[i].Real() - mean) * (values[i].Real() - mean))
  }

  /** A sum of squares is never negative, so `sqrt` is taken of a
      non-negative number. */
  lemma SquaresNonNegative(values: seq<Num>, mean: real)
    ensures Sum(Squares(values, mean)) >= 0.0
  {
    var sq := Squares(values, mean);
    forall i | 0 <= i < |sq|
      ensures 0.0 <= sq[i]
    {
      var e := values[i].Real() - mean;
      assert sq[i] == e * e;
    }
    SumBounds(sq, 0.0, SumOfPositives(sq));
  }

  /** An upper bound of the terms, for SumBounds. */
  function SumOfPositives(xs: seq<real>): (r: real)
    ensures r >= 0.0 && forall i :: 0 <= i < |xs| ==> xs[i] <= r
  {
    if xs == [] then 0.0
    else
      var t := SumOfPositives(xs[..|xs| - 1]);
      var x := xs[|xs| - 1];
      if x > t then x else t
  }

  /** The conventional sample standard deviation, with Bessel's correction:
      the square root of `sumSq / (n - 1)`. */
  function PopStd(sumSq: real, n: nat, host: Host): real
    requires n >= 2
  {
    host.sqrt(sumSq / (n - 1) as real)
  }

  /** `stats['pop_std']`, `sqrt(sum(sums) / ((n - 1.0) / n))`: the sum of
      squares is divided by `(n - 1) / n`, not multiplied by it. */
  function PopStdAsWritten(sumSq: real, n: nat, host: Host): real
    requires n >= 2
  {
    host.sqrt(sumSq / ((n as real - 1.0) / n as real))
  }

  /** The radicand of `pop_std` is n times the Bessel-corrected variance. */
  lemma PopStdAsWrittenScaled(sumSq: real, n: nat, host: Host)
    requires n >= 2
    ensures PopStdAsWritten(sumSq, n, host) == host.sqrt(n as real * (sumSq / (n - 1) as real))
  {
    var m := n as real;
    var a := (m - 1.0) / m;
    var b := sumSq / (m - 1.0);
    assert a * m == m - 1.0;
    assert b * (m - 1.0) == sumSq;
    assert (m * b) * a == b * (a * m);
    assert sumSq / a == m * b;
    assert (n - 1) as real == m - 1.0;
    assert sumSq / ((n as real - 1.0) / n as real) == m * b;
    assert n as real * (sumSq / (n - 1) as real) == m * b;
  }

  /** For the column [1, 3] (mean 2) the Bessel-corrected radicand is 2 and
      the one `pop_std` uses is 4: with an exact square root `pop_std` is 2,
      not the sample standard deviation sqrt(2). */
  lemma PopStdExample(host: Host)
    ensures Sum(Squares([Int(1), Int(3)], 2.0)) == 2.0
    ensures PopStdAsWritten(2.0, 2, host) == host.sqrt(4.0)
    ensures PopStd(2.0, 2, host) == host.sqrt(2.0)
  {
    var sq := Squares([Int(1), Int(3)], 2.0);
    assert sq == [1.0, 1.0];
    assert sq[..1] == [1.0];
  }

  /** What `get_stats` returns, read back from its dictionary. */
  datatype Stats = Stats(
    n: nat, mean: real, std: real, popStd: real,
    min: real, q1: real, median: real, q3: real, max: real)

  /** `get_stats(values)`: ZeroDivisionError for an empty column (the mean
      divides by n) and for a column of one value (`pop_std` divides by
      (n - 1) / n); otherwise the statistics of the sorted column. */
  function StatsOf(values: seq<Num>, host: Host): (r: Result<Stats>)
    ensures r.Err? <==> |values| <= 1
    ensures r.Err? ==> r.error == ZeroDivisionError
  {
    if |values| <= 1 then Err(ZeroDivisionError)
    else Ok(Describe(SortNums(values), host))
  }

  /** The statistics of a sorted column of at least two values. */
  function Describe(sorted: seq<Num>, host: Host): Stats
    requires |sorted| >= 2
  {
    var n := |sorted|;
    var mean := SumNums(sorted).Real() / n as real;
    var sumSq := Sum(Squares(sorted, mean));
    var five := Fivenum(sorted);
    Stats(n, mean, host.sqrt(sumSq / n as real), PopStdAsWritten(sumSq, n, host),
          five[0], five[1], five[2], five[3], five[4])
  }

  /** `pop_std` and `std` come from one sum of squares: with an exact
      square root, `pop_std` squared times n - 1 is `std` squared times n
      squared (both are n times that sum). */
  lemma PopStdOfStd(values: seq<Num>, host: Host)
    requires |values| >= 2 && ExactSqrt(host)
    ensures StatsOf(values, host).value.popStd >= 0.0 && StatsOf(values, host).value.std >= 0.0
    ensures PopStdScaled(StatsOf(values, host).value)
  {
    var sorted := SortNums(values);
    var n := |sorted|;
    var mean := SumNums(sorted).Real() / n as real;
    var sumSq := Sum(Squares(sorted, mean));
    SquaresNonNegative(sorted, mean);
    var s := StatsOf(values, host).value;
    assert s == Describe(sorted, host);
    StdPair(s, sumSq, n, host);
  }

  lemma StdPair(s: Stats, sumSq: real, n: nat, host: Host)
    requires n >= 2 && sumSq >= 0.0 && ExactSqrt(host)
    requires s.n == n && s.popStd == PopStdAsWritten(sumSq, n, host) && s.std == host.sqrt(sumSq / n as real)
    ensures s.popStd >= 0.0 && s.std >= 0.0
    ensures PopStdScaled(s)
  {
    RadicandsOf(sumSq, n, host);
    var q, m := s.std, n as real;
    assert (n * n) as real == m * m;
    assert q * q * (m * m) == (q * q * m) * m;
  }

  /** `pop_std` squared times n - 1 equals `std` squared times n squared. */
  predicate PopStdScaled(s: Stats)
  {
    s.popStd * s.popStd * (s.n - 1) as real == s.std * s.std * (s.n * s.n) as real
  }

  /** The squares of `pop_std` and `std`, scaled back to the sum of squares. */
  lemma RadicandsOf(sumSq: real, n: nat, host: Host)
    requires n >= 2 && sumSq >= 0.0 && ExactSqrt(host)
    ensures var p, q := PopStdAsWritten(sumSq, n, host), host.sqrt(sumSq / n as real);
      && p >= 0.0 && q >= 0.0
      && p * p * (n - 1) as real == sumSq * n as real && q * q * n as real == sumSq
  {
    var m := n as real;
    var a := sumSq / ((m - 1.0) / m);
    var b := sumSq / m;
    PopStdAsWrittenScaled(sumSq, n, host);
    Scaled(sumSq, (n - 1) as real);
    Scaled(sumSq, m);
    assert a == m * (sumSq / (n - 1) as real);
    assert a * (n - 1) as real == sumSq * m;
    assert host.sqrt(a) * host.sqrt(a) == a;
    assert host.sqrt(b) * host.sqrt(b) == b;
  }

  lemma Scaled(t: real, m: real)
    requires t >= 0.0 && m > 0.0
    ensures t / m >= 0.0 && (t / m) * m == t
  {
  }

  /** The minimum and the maximum of the summary are the least and the
      greatest value of the column. */
  lemma StatsExtremes(values: seq<Num>, host: Host)
    requires |values| >= 2
    ensures var s := StatsOf(values, host).value;
      && (forall i :: 0 <= i < |values| ==> s.min <= values[i].Real() <= s.max)
      && (exists i :: 0 <= i < |values| && values[i].Real() == s.min)
      && (exists i :: 0 <= i < |values| && values[i].Real() == s.max)
  {
    var sorted := SortNums(values);
    DescribeSorted(sorted, host);
    SortedExtremes(values, sorted);
  }

  /** The summary counts the column, and the hinges and the median lie
      between the minimum and the maximum, in order. */
  lemma StatsOrdered(values: seq<Num>, host: Host)
    requires |values| >= 2
    ensures var s := StatsOf(values, host).value;
      && s.n == |values|
      && s.min <= s.q1 <= s.median <= s.q3 <= s.max
  {
    DescribeSorted(SortNums(values), host);
  }

  /** The mean lies between the minimum and the maximum. */
  lemma MeanWithin(values: seq<Num>, host: Host)
    requires |values| >= 2
    ensures var s := StatsOf(values, host).value; s.min <= s.mean <= s.max
  {
    var sorted := SortNums(values);
    DescribeSorted(sorted, host);
    MeanOfSorted(sorted);
  }

  /** On a sorted column the minimum and the maximum are its ends, and the
      five numbers are in order. */
  lemma DescribeSorted(sorted: seq<Num>, host: Host)
    requires |sorted| >= 2
    requires forall i, j :: 0 <= i < j < |sorted| ==> sorted[i].Real() <= sorted[j].Real()
    ensures var s := Describe(sorted, host);
      && s.n == |sorted| && s.mean == SumNums(sorted).Real() / |sorted| as real
      && s.min == sorted[0].Real() && s.max == sorted[|sorted| - 1].Real()
      && s.min <= s.q1 <= s.median <= s.q3 <= s.max
  {
    FivenumOrdered(sorted);
  }

  /** The first and the last value of a sorted permutation bound every
      value and are values themselves. */
  lemma SortedExtremes(values: seq<Num>, sorted: seq<Num>)
    requires |sorted| >= 1 && multiset(sorted) == multiset(values)
    requires forall i, j :: 0 <= i < j < |sorted| ==> sorted[i].Real() <= sorted[j].Real()
    ensures forall i :: 0 <= i < |values| ==> sorted[0].Real() <= values[i].Real() <= sorted[|sorted| - 1].Real()
    ensures sorted[0] in values && sorted[|sorted| - 1] in values
  {
    var n := |sorted|;
    forall i | 0 <= i < |values|
      ensures sorted[0].Real() <= values[i].Real() <= sorted[n - 1].Real()
    {
      assert values[i] in multiset(sorted);
      var j :| 0 <= j < n && sorted[j] == values[i];
    }
    assert sorted[0] in multiset(values);
    assert sorted[n - 1] in multiset(values);
  }

  /** The five numbers of a sorted column are in order, the first is its
      first value and the last its last. */
  lemma FivenumOrdered(sorted: seq<Num>)
    requires |sorted| >= 1
    requires forall i, j :: 0 <= i < j < |sorted| ==> sorted[i].Real() <= sorted[j].Real()
    ensures var five := Fivenum(sorted);
      && five[0] == sorted[0].Real() && five[4] == sorted[|sorted| - 1].Real()
      && forall k :: 0 <= k < 4 ==> five[k] <= five[k + 1]
  {
    var n := |sorted|;
    var fi := FloorIndices(n);
    var ci := CeilIndices(n);
    FivenumIndices(n);
    forall k | 0 <= k < 4
      ensures Fivenum(sorted)[k] <= Fivenum(sorted)[k + 1]
    {
      assert sorted[fi[k]].Real() <= sorted[fi[k + 1]].Real();
      assert sorted[ci[k]].Real() <= sorted[ci[k + 1]].Real();
    }
  }

  /** The mean of a sorted column lies between its first and last value. */
  lemma MeanOfSorted(sorted: seq<Num>)
    requires |sorted| >= 1
    requires forall i, j :: 0 <= i < j < |sorted| ==> sorted[i].Real() <= sorted[j].Real()
    ensures sorted[0].Real() <= SumNums(sorted).Real() / |sorted| as real <= sorted[|sorted| - 1].Real()
  {
    var n := |sorted|;
    forall i | 0 <= i < n
      ensures sorted[0].Real() <= sorted[i].Real() <= sorted[n - 1].Real()
    {
      if 0 < i { assert sorted[0].Real() <= sorted[i].Real(); }
      if i < n - 1 { assert sorted[i].Real() <= sorted[n - 1].Real(); }
    }
    MeanBetween(sorted, sorted[0].Real(), sorted[n - 1].Real());
  }

  /* ---------- get_stats ---------- */

  /** The loop `for value in values: sums.append((value - mean) ** 2)`. */
  method SquaredDeviations(values: seq<Num>, mean: real) returns (sums: seq<real>)
    ensures sums == Squares(values, mean)
  {
    sums := [];
    for i := 0 to |values|
      invariant sums == Squares(values[..i], mean)
    {
      var d := values[i].Real() - mean;
      SquaresSnoc(values, mean, i);
      sums := sums + [d * d];
      assert d * d == (values[i].Real() - mean) * (values[i].Real() - mean);
      assert sums == Squares(values[..i], mean) + [d * d];
    }
    assert values[..|values|] == values;
  }

  lemma SquaresSnoc(values: seq<Num>, mean: real, i: nat)
    requires i < |values|
    ensures Squares(values[..i + 1], mean)
         == Squares(values[..i], mean) + [(values[i].Real() - mean) * (values[i].Real() - mean)]
  {
    var a := Squares(values[..i + 1], mean);
    var b := Squares(values[..i], mean) + [(values[i].Real() - mean) * (values[i].Real() - mean)];
    forall k | 0 <= k < |a|
      ensures a[k] == b[k]
    {
      assert values[..i + 1][k] == values[k];
      if k < i {
        assert values[..i][k] == values[k];
      }
    }
  }

  /** `get_stats`: sorts the column, then computes the statistics. */
  method GetStats(values: seq<Num>, host: Host) returns (r: Result<Stats>)
    ensures r == StatsOf(values, host)
  {
    var n := |values|;
    if n == 0 {
      return Err(ZeroDivisionError);
    }
    var sorted := SortNums(values);
    var mean := SumNums(sorted).Real() / n as real;
    var sums := SquaredDeviations(sorted, mean);
    var sumSq := Sum(sums);
    var std := host.sqrt(sumSq / n as real);
    if n == 1 {
      return Err(ZeroDivisionError);
    }
    var popStd := PopStdAsWritten(sumSq, n, host);
    var five := Fivenum(sorted);
    return Ok(Stats(n, mean, std, popStd, five[0], five[1], five[2], five[3], five[4]));
  }
}
