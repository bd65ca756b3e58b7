/** The values an aspect can take, with Python 2 arithmetic on them, and the
    functions of the host runtime that the core calls but does not define. */
module Values {
  import opened Base

  /** A Python number: `len()` and `sum([])` give an int, distances a float. */
  datatype Num = Int(i: int) | Float(f: real) {
    function Real(): real {
      match this
      case Int(i) => i as real
      case Float(f) => f
    }
  }

  /** An aspect value: a number, or the literal string `'NA'`. */
  datatype Value = NA | Of(num: Num)

  /** Functions of the host runtime, taken as parameters:
      `math.sqrt`, `float()` (None where it raises ValueError),
      `string.Template(raw).substitute(**values)`, and `eval`
      (any exception it raises already caught and turned into NA). */
  datatype Host = Host(
    sqrt: real -> real,
    toFloat: string -> Option<real>,
    substitute: (string, map<string, Value>) -> Result<string>,
    evaluate: string -> Value)

  /** A host whose square root is the real square root. */
  ghost predicate ExactSqrt(host: Host) {
    forall r: real {:trigger host.sqrt(r)} :: 0.0 <= r ==> 0.0 <= host.sqrt(r) && host.sqrt(r) * host.sqrt(r) == r
  }

  /** `sum(xs)` over reals. */
  function Sum(xs: seq<real>): real
  {
    if xs == [] then 0.0 else Sum(xs[..|xs| - 1]) + xs[|xs| - 1]
  }

  function Reals(xs: seq<Num>): (r: seq<real>)
    ensures |r| == |xs| && forall i :: 0 <= i < |xs| ==> r[i] == xs[i].Real()
  {
    seq(|xs|, i requires 0 <= i < |xs| => xs[i].Real())
  }

  predicate AllInts(xs: seq<Num>)
  {
    forall i :: 0 <= i < |xs| ==> xs[i].Int?
  }

  /** `sum(xs)`: starts from the int 0; adding a float makes the total a float. */
  function SumNums(xs: seq<Num>): (r: Num)
    ensures r.Real() == Sum(Reals(xs))
    ensures r.Int? <==> AllInts(xs)
  {
    if xs == [] then Int(0)
    else
      var t := SumNums(xs[..|xs| - 1]);
      var x := xs[|xs| - 1];
      assert Reals(xs[..|xs| - 1]) == Reals(xs)[..|xs| - 1];
      if t.Int? && x.Int? then Int(t.i + x.i) else Float(t.Real() + x.Real())
  }

  /** `sum(xs) / len(xs)` under Python 2: floor division when every term is
      an int, true division otherwise; None where it raises
      ZeroDivisionError (the empty list). */
  function Average(xs: seq<Num>): (r: Option<Num>)
    ensures r.None? <==> xs == []
    ensures r.Some? ==> (r.value.Int? <==> AllInts(xs))
  {
    if xs == [] then None
    else
      var t := SumNums(xs);
      if t.Int? then Some(Int(t.i / |xs|)) else Some(Float(t.Real() / |xs| as real))
  }

  /** A sum of terms that lie in [lo, hi] lies in [n * lo, n * hi]. */
  lemma {:induction false} SumBounds(xs: seq<real>, lo: real, hi: real)
    requires forall i :: 0 <= i < |xs| ==> lo <= xs[i] <= hi
    ensures |xs| as real * lo <= Sum(xs) <= |xs| as real * hi
    decreases |xs|
  {
    if xs != [] {
      SumBounds(xs[..|xs| - 1], lo, hi);
    }
  }

  /** The average of numbers in [lo, hi] is in [lo, hi], also under floor
      division (lo an int bound). */
  lemma AverageBounds(xs: seq<Num>, lo: int, hi: real)
    requires xs != []
    requires forall i :: 0 <= i < |xs| ==> lo as real <= xs[i].Real() <= hi
    ensures lo as real <= Average(xs).value.Real() <= hi
  {
    var t := SumNums(xs);
    MeanBetween(xs, lo as real, hi);
    if t.Int? {
      FloorBetween(t.i, |xs|, lo, hi);
    }
  }

  /** The mean of numbers in [lo, hi] is in [lo, hi]. */
  lemma MeanBetween(xs: seq<Num>, lo: real, hi: real)
    requires |xs| >= 1 && forall i :: 0 <= i < |xs| ==> lo <= xs[i].Real() <= hi
    ensures lo <= SumNums(xs).Real() / |xs| as real <= hi
  {
    var rs := Reals(xs);
    var t, n := Sum(rs), |xs| as real;
    SumBounds(rs, lo, hi);
    assert n * lo <= t <= n * hi;
    RealAverage(t, n, lo, hi);
  }

  /** Floor division keeps a quotient in [lo, hi] within those bounds when
      `lo` is an int. */
  lemma FloorBetween(t: int, n: int, lo: int, hi: real)
    requires n > 0 && lo as real <= t as real / n as real <= hi
    ensures lo <= t / n && (t / n) as real <= hi
  {
    var q, r := t / n, t % n;
    assert t == q * n + r && 0 <= r < n;
    assert (q as real) * (n as real) <= t as real;
    RealBelow(q as real, t as real, n as real);
    if q < lo {
      assert t < (q + 1) * n <= lo * n;
      assert t as real < (lo as real) * (n as real);
      RealBelow(lo as real, t as real, n as real);
    }
  }

  /** `a * n <= b` and `n > 0` give `a <= b / n`; strictly when strict. */
  lemma RealBelow(a: real, b: real, n: real)
    requires n > 0.0
    ensures a * n <= b ==> a <= b / n
    ensures a * n > b ==> a > b / n
  {
    var q := b / n;
    assert q * n == b;
    if a * n <= b {
      RealCancel(a, q, n);
    } else {
      assert (a - q) * n > 0.0;
    }
  }

  lemma RealCancel(a: real, b: real, n: real)
    requires n > 0.0 && a * n <= b * n
    ensures a <= b
  {
    assert (b - a) * n >= 0.0;
  }

  lemma RealAverage(t: real, n: real, lo: real, hi: real)
    requires n > 0.0 && n * lo <= t <= n * hi
    ensures lo <= t / n <= hi
  {
    var q := t / n;
    assert q * n == t;
    RealCancel(lo, q, n);
    RealCancel(q, hi, n);
  }
}
