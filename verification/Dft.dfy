/** The per-bin Cooley-Tukey transform, over exact complex numbers and an
    abstract exponential of which only `e(2x) = e(x) * e(x)` is used. */
module Dft {
  import opened Common

  datatype Complex = Complex(re: real, im: real)

  const ZERO := Complex(0.0, 0.0)
  const ONE := Complex(1.0, 0.0)

  function Add(a: Complex, b: Complex): Complex {
    Complex(a.re + b.re, a.im + b.im)
  }

  function Mul(a: Complex, b: Complex): Complex {
    Complex(a.re * b.re - a.im * b.im, a.re * b.im + a.im * b.re)
  }

  function Pow(w: Complex, m: nat): Complex {
    if m == 0 then ONE else Mul(Pow(w, m - 1), w)
  }

  ghost predicate Doubling(e: real -> Complex) {
    forall x :: e(2.0 * x) == Mul(e(x), e(x))
  }

  /** The sum over m of xs[m] * w^m. */
  function DirectSum(xs: seq<Complex>, w: Complex): Complex {
    if xs == [] then ZERO
    else
      var m := |xs| - 1;
      Add(DirectSum(xs[..m], w), Mul(xs[m], Pow(w, m)))
  }

  /** The discrete Fourier transform of `samps` at bin `k`, by definition. */
  function DftBin(samps: seq<Complex>, k: nat, e: real -> Complex, pi: real): Complex
    requires samps != []
  {
    DirectSum(samps, e(Angle(pi, k, |samps|)))
  }

  function Angle(pi: real, k: nat, n: nat): real
    requires n > 0
  {
    -2.0 * pi * (k as real) / (n as real)
  }

  predicate IsPowerOfTwo(n: nat) {
    n == 1 || (n > 0 && n % 2 == 0 && IsPowerOfTwo(n / 2))
  }

  /** How often `n` can be halved before it is 1. */
  function Halvings(n: nat): nat
    requires n > 0
  {
    if n == 1 then 0 else 1 + Halvings(n / 2)
  }

  /** Each factor is the square of the one before it. */
  predicate Squaring(factors: seq<Complex>) {
    forall i :: 0 <= i < |factors| - 1 ==> factors[i + 1] == Mul(factors[i], factors[i])
  }

  /** `ct_fft_f`. `factors` is the source's pointer to the factors still ahead. */
  function CtFft(samps: seq<Complex>, n: nat, factors: seq<Complex>, start: nat, step: nat): Complex
    requires IsPowerOfTwo(n)
    requires |factors| > Halvings(n)
    requires start + (n - 1) * step < |samps|
    decreases n
  {
    if n == 1 then samps[start]
    else
      HalfBounds(n / 2, start, step);
      var even := CtFft(samps, n / 2, factors[1..], start, step * 2);
      var odd := CtFft(samps, n / 2, factors[1..], start + step, step * 2);
      Add(even, Mul(factors[0], odd))
  }

  // ------------------------------------------------------------------
  // Arithmetic
  // ------------------------------------------------------------------

  lemma HalfBounds(h: nat, start: nat, step: nat)
    requires h > 0
    ensures start + (h - 1) * (step * 2) <= start + (2 * h - 1) * step
    ensures start + step + (h - 1) * (step * 2) == start + (2 * h - 1) * step
  {}

  lemma MulAssociative(a: Complex, b: Complex, c: Complex)
    ensures Mul(Mul(a, b), c) == Mul(a, Mul(b, c))
  {
    assert Mul(Mul(a, b), c).re == a.re * b.re * c.re - a.im * b.im * c.re - a.re * b.im * c.im - a.im * b.re * c.im;
    assert Mul(a, Mul(b, c)).re == a.re * b.re * c.re - a.re * b.im * c.im - a.im * b.re * c.im - a.im * b.im * c.re;
    assert Mul(Mul(a, b), c).im == a.re * b.re * c.im - a.im * b.im * c.im + a.re * b.im * c.re + a.im * b.re * c.re;
    assert Mul(a, Mul(b, c)).im == a.re * b.re * c.im + a.re * b.im * c.re + a.im * b.re * c.re - a.im * b.im * c.im;
  }

  lemma MulCommutative(a: Complex, b: Complex)
    ensures Mul(a, b) == Mul(b, a)
  {}

  lemma MulDistributes(w: Complex, a: Complex, b: Complex)
    ensures Mul(w, Add(a, b)) == Add(Mul(w, a), Mul(w, b))
  {
    assert w.re * (a.re + b.re) == w.re * a.re + w.re * b.re;
    assert w.im * (a.im + b.im) == w.im * a.im + w.im * b.im;
    assert w.re * (a.im + b.im) == w.re * a.im + w.re * b.im;
    assert w.im * (a.re + b.re) == w.im * a.re + w.im * b.re;
  }

  lemma {:induction false} PowEven(w: Complex, m: nat)
    ensures Pow(w, 2 * m) == Pow(Mul(w, w), m)
    ensures Pow(w, 2 * m + 1) == Mul(w, Pow(Mul(w, w), m))
  {
    if m > 0 {
      PowEven(w, m - 1);
      assert Pow(w, 2 * m - 1) == Mul(Pow(w, 2 * (m - 1)), w);
      MulAssociative(Pow(w, 2 * (m - 1)), w, w);
    }
    MulCommutative(Pow(w, 2 * m), w);
  }

  // ------------------------------------------------------------------
  // The transform
  // ------------------------------------------------------------------

  lemma MulSwap(w: Complex, x: Complex, p: Complex)
    ensures Mul(x, Mul(w, p)) == Mul(w, Mul(x, p))
  {
    MulAssociative(x, w, p);
    MulCommutative(x, w);
    MulAssociative(w, x, p);
  }

  lemma AddShuffle(a: Complex, b: Complex, c: Complex, d: Complex)
    ensures Add(Add(Add(a, b), c), d) == Add(Add(a, c), Add(b, d))
  {}

  lemma SplitStep(w: Complex, even: Complex, odd: Complex, a: Complex, b: Complex, p: Complex)
    ensures Add(Add(Add(even, Mul(w, odd)), Mul(a, p)), Mul(b, Mul(w, p)))
         == Add(Add(even, Mul(a, p)), Mul(w, Add(odd, Mul(b, p))))
  {
    MulSwap(w, b, p);
    MulDistributes(w, odd, Mul(b, p));
    AddShuffle(even, Mul(w, odd), Mul(a, p), Mul(w, Mul(b, p)));
  }

  function Evens(xs: seq<Complex>): seq<Complex> {
    seq(|xs| / 2, m requires 0 <= m < |xs| / 2 => xs[2 * m])
  }

  function Odds(xs: seq<Complex>): seq<Complex> {
    seq(|xs| / 2, m requires 0 <= m < |xs| / 2 => xs[2 * m + 1])
  }

  lemma DirectSumSnoc(xs: seq<Complex>, x: Complex, w: Complex)
    ensures DirectSum(xs + [x], w) == Add(DirectSum(xs, w), Mul(x, Pow(w, |xs|)))
  {
    assert (xs + [x])[..|xs|] == xs;
  }

  ghost predicate Splits(xs: seq<Complex>, w: Complex) {
    DirectSum(xs, w) == Add(DirectSum(Evens(xs), Mul(w, w)), Mul(w, DirectSum(Odds(xs), Mul(w, w))))
  }

  lemma SplitLastPair(ys: seq<Complex>, a: Complex, b: Complex, w: Complex)
    requires |ys| % 2 == 0 && Splits(ys, w)
    ensures Splits(ys + [a] + [b], w)
  {
    var ww, g := Mul(w, w), |ys| / 2;
    var even, odd, p := DirectSum(Evens(ys), ww), DirectSum(Odds(ys), ww), Pow(ww, g);
    assert DirectSum(ys + [a] + [b], w) == Add(Add(Add(even, Mul(w, odd)), Mul(a, p)), Mul(b, Mul(w, p))) by {
      PowEven(w, g);
      DirectSumSnoc(ys, a, w);
      DirectSumSnoc(ys + [a], b, w);
    }
    assert DirectSum(Evens(ys + [a] + [b]), ww) == Add(even, Mul(a, p)) by {
      assert Evens(ys + [a] + [b]) == Evens(ys) + [a];
      DirectSumSnoc(Evens(ys), a, ww);
    }
    assert DirectSum(Odds(ys + [a] + [b]), ww) == Add(odd, Mul(b, p)) by {
      assert Odds(ys + [a] + [b]) == Odds(ys) + [b];
      DirectSumSnoc(Odds(ys), b, ww);
    }
    SplitStep(w, even, odd, a, b, p);
  }

  /** Splitting a sum into its even and odd terms. */
  lemma {:induction false} EvenOddSplit(xs: seq<Complex>, w: Complex)
    requires |xs| % 2 == 0
    ensures Splits(xs, w)
    decreases |xs|
  {
    if |xs| > 0 {
      var ys, a, b := xs[..|xs| - 2], xs[|xs| - 2], xs[|xs| - 1];
      EvenOddSplit(ys, w);
      SplitLastPair(ys, a, b, w);
      assert xs == ys + [a] + [b];
    }
  }

  /** The samples one call of the recursion stands for. */
  function Stride(samps: seq<Complex>, n: nat, start: nat, step: nat): seq<Complex>
    requires n > 0 && start + (n - 1) * step < |samps|
  {
    seq(n, m requires 0 <= m < n => StrideBound(n, start, step, m); samps[start + m * step])
  }

  lemma StrideBound(n: nat, start: nat, step: nat, m: nat)
    requires m < n
    ensures 0 <= m * step <= (n - 1) * step
  {
    assert (n - 1) * step == m * step + (n - 1 - m) * step;
  }

  lemma StrideSplits(samps: seq<Complex>, h: nat, start: nat, step: nat)
    requires h > 0 && start + (2 * h - 1) * step < |samps|
    ensures start + (h - 1) * (step * 2) < |samps| && start + step + (h - 1) * (step * 2) < |samps|
    ensures Evens(Stride(samps, 2 * h, start, step)) == Stride(samps, h, start, step * 2)
    ensures Odds(Stride(samps, 2 * h, start, step)) == Stride(samps, h, start + step, step * 2)
  {
    HalfBounds(h, start, step);
    forall m | 0 <= m < h
      ensures (2 * m) * step == m * (step * 2) && (2 * m + 1) * step == step + m * (step * 2)
    {}
  }

  /** The strided statement: each call computes the direct sum of the samples
      its start and step select, at the base given by its first factor. */
  lemma {:induction false} CtFftIsDirectSum(samps: seq<Complex>, n: nat, factors: seq<Complex>, start: nat, step: nat)
    requires IsPowerOfTwo(n) && |factors| > Halvings(n) && Squaring(factors)
    requires start + (n - 1) * step < |samps|
    ensures CtFft(samps, n, factors, start, step) == DirectSum(Stride(samps, n, start, step), factors[0])
  {
    var w, xs := factors[0], Stride(samps, n, start, step);
    if n == 1 {
      DirectSumSnoc([], xs[0], w);
      assert [] + [xs[0]] == xs;
      assert start + 0 * step == start;
      assert Mul(samps[start], ONE) == samps[start];
    } else {
      var h := n / 2;
      HalfBounds(h, start, step);
      StrideSplits(samps, h, start, step);
      assert factors[1..][0] == Mul(w, w);
      CtFftIsDirectSum(samps, h, factors[1..], start, step * 2);
      CtFftIsDirectSum(samps, h, factors[1..], start + step, step * 2);
      EvenOddSplit(xs, w);
    }
  }

  lemma HalvingDoublesAngle(pi: real, k: nat, n: nat)
    requires n > 0 && n % 2 == 0
    ensures Angle(pi, k, n / 2) == 2.0 * Angle(pi, k, n)
  {
    var x, h := -2.0 * pi * (k as real), (n / 2) as real;
    assert n as real == 2.0 * h;
    assert x / h == 2.0 * (x / (2.0 * h));
  }

  /** `ct_fft_k`: the factors are collected from the longest period to the
      shortest, each then the square of the one before. */
  method CtFftBin(samps: seq<Complex>, k: nat, e: real -> Complex, pi: real) returns (r: Complex)
    requires IsPowerOfTwo(|samps|) && Doubling(e)
    ensures r == DftBin(samps, k, e, pi)
  {
    var factors: seq<Complex> := [];
    var n := |samps|;
    while n != 0
      invariant n >= 0
      invariant n == 0 || IsPowerOfTwo(n)
      invariant n == 0 ==> |factors| == Halvings(|samps|) + 1
      invariant n > 0 ==> |factors| + Halvings(n) == Halvings(|samps|)
      invariant Squaring(factors)
      invariant factors != [] ==> factors[0] == e(Angle(pi, k, |samps|))
      invariant factors == [] ==> n == |samps|
      invariant n > 0 && factors != [] ==> factors[|factors| - 1] == e(Angle(pi, k, 2 * n))
      decreases n
    {
      if factors != [] {
        HalvingDoublesAngle(pi, k, 2 * n);
      }
      factors := factors + [e(Angle(pi, k, n))];
      n := n / 2;
    }
    CtFftIsDirectSum(samps, |samps|, factors, 0, 1);
    assert Stride(samps, |samps|, 0, 1) == samps;
    r := CtFft(samps, |samps|, factors, 0, 1);
  }

  // ------------------------------------------------------------------
  // The power-of-two check and the whole spectrum
  // ------------------------------------------------------------------

  /** Bitwise and of two unsigned numbers. */
  function BitAnd(a: nat, b: nat): nat {
    if a == 0 || b == 0 then 0 else 2 * BitAnd(a / 2, b / 2) + (if a % 2 == 1 && b % 2 == 1 then 1 else 0)
  }

  lemma {:induction false} BitAndSelf(a: nat)
    ensures BitAnd(a, a) == a
  {
    if a > 0 {
      BitAndSelf(a / 2);
    }
  }

  /** `nsamps & (nsamps - 1)` is zero exactly for zero and the powers of two. */
  lemma {:induction false} PowerOfTwoCheck(n: nat)
    requires n > 0
    ensures BitAnd(n, n - 1) == 0 <==> IsPowerOfTwo(n)
  {
    if n > 1 {
      if n % 2 == 0 {
        assert (n - 1) / 2 == n / 2 - 1;
        PowerOfTwoCheck(n / 2);
      } else {
        assert (n - 1) / 2 == n / 2;
        BitAndSelf(n / 2);
      }
    }
  }

  datatype DftError = NotAPowerOfTwo

  function WindowPower(window: (nat, nat) -> real, n: nat, len: nat): real {
    if n == 0 then 0.0 else WindowPower(window, n - 1, len) + window(n - 1, len) * window(n - 1, len)
  }

  /** A constant window weighs each sample the same, and its power is its square
      for each. */
  lemma {:induction false} ConstantWindow(window: (nat, nat) -> real, c: real, n: nat, len: nat)
    requires forall i :: window(i, len) == c
    ensures WindowPower(window, n, len) == (n as real) * (c * c)
  {
    if n > 0 {
      ConstantWindow(window, c, n - 1, len);
      var x, y := (n - 1) as real, c * c;
      assert (x + 1.0) * y == x * y + y;
    }
  }

  function Windowed(samps: seq<Complex>, window: (nat, nat) -> real): (r: seq<Complex>)
    ensures |r| == |samps|
  {
    seq(|samps|, n requires 0 <= n < |samps| =>
      Complex(window(n, |samps|) * samps[n].re, window(n, |samps|) * samps[n].im))
  }

  /** Each sample is multiplied by the coefficient at its place. */
  lemma WindowedWeighs(samps: seq<Complex>, window: (nat, nat) -> real, n: nat)
    requires n < |samps|
    ensures Windowed(samps, window)[n] == Mul(Complex(window(n, |samps|), 0.0), samps[n])
  {
    var w, z := window(n, |samps|), samps[n];
    assert 0.0 * z.re == 0.0 && 0.0 * z.im == 0.0;
  }

  /** The window loop: the weighted samples and the power of the window. */
  method ApplyWindow(samps: seq<Complex>, window: (nat, nat) -> real) returns (winSamps: seq<Complex>, power: real)
    ensures winSamps == Windowed(samps, window) && power == WindowPower(window, |samps|, |samps|)
  {
    power, winSamps := 0.0, [];
    for n := 0 to |samps|
      invariant winSamps == Windowed(samps, window)[..n]
      invariant power == WindowPower(window, n, |samps|)
    {
      var w := window(n, |samps|);
      assert Windowed(samps, window)[n] == Complex(w * samps[n].re, w * samps[n].im);
      winSamps := winSamps + [Complex(w * samps[n].re, w * samps[n].im)];
      power := power + w * w;
    }
  }

  /** `log_pwr_dft`, with the window coefficients and the level in decibels as
      parameters. An empty input passes the check and gives an empty spectrum. */
  method LogPowerDft(samps: seq<Complex>, e: real -> Complex, pi: real,
                     window: (nat, nat) -> real, level: (Complex, nat, real) -> real)
    returns (r: Result<seq<real>, DftError>)
    requires Doubling(e)
    ensures r.Ok? <==> samps == [] || IsPowerOfTwo(|samps|)
    ensures r.Ok? ==>
      && |r.value| == |samps|
      && forall k :: 0 <= k < |samps| ==>
           r.value[k] ==
             level(DftBin(Windowed(samps, window), k, e, pi), |samps|, WindowPower(window, |samps|, |samps|))
  {
    var len := |samps|;
    if len > 0 {
      PowerOfTwoCheck(len);
      if BitAnd(len, len - 1) != 0 {
        return Err(NotAPowerOfTwo);
      }
    }
    var winSamps, power := ApplyWindow(samps, window);
    var out: seq<real> := [];
    for k := 0 to len
      invariant |out| == k
      invariant forall j :: 0 <= j < k ==>
        out[j] == level(DftBin(winSamps, j, e, pi), len, power)
    {
      var bin := CtFftBin(winSamps, k, e, pi);
      out := out + [level(bin, len, power)];
    }
    return Ok(out);
  }
}
