/** What a bin of the transform means: with an exponential that turns sums into
    products, bin k answers the tone that turns k times over the samples, and no
    other. */
module DftTones {
  import opened Dft

  function Plus(x: real, y: real): real {
    x + y
  }

  ghost predicate Exponential(e: real -> Complex) {
    e(0.0) == ONE && forall x, y {:trigger Plus(x, y)} :: e(Plus(x, y)) == Mul(e(x), e(y))
  }

  /** Such an exponential squares when its argument doubles. */
  lemma ExponentialDoubles(e: real -> Complex)
    requires Exponential(e)
    ensures Doubling(e)
  {
    forall x ensures e(2.0 * x) == Mul(e(x), e(x)) { assert Plus(x, x) == 2.0 * x; }
  }

  /** One turn is `2 * pi`, and no part of it that is a multiple of an n-th is. */
  ghost predicate OneTurn(e: real -> Complex, pi: real, n: nat)
    requires n > 0
  {
    && e(2.0 * pi) == ONE
    && forall d: nat :: 0 < d < n ==> e(Turns(pi, d, n)) != ONE
  }

  function Turns(pi: real, j: nat, n: nat): real
    requires n > 0
  {
    2.0 * pi * (j as real) / (n as real)
  }

  /** The tone that turns by `2 * pi * j / n` from each sample to the next. */
  function Tone(e: real -> Complex, pi: real, j: nat, n: nat): seq<Complex>
    requires n > 0
  {
    seq(n, m requires 0 <= m < n => TurnedBy(e, Turns(pi, j, n), m))
  }

  function TurnedBy(e: real -> Complex, x: real, m: nat): Complex {
    e((m as real) * x)
  }

  // ------------------------------------------------------------------
  // Powers
  // ------------------------------------------------------------------

  lemma MulOne(a: Complex)
    ensures Mul(a, ONE) == a && Mul(ONE, a) == a
  {}

  /** A list of powers: each is the one before times `w`. */
  ghost predicate Powers(s: seq<Complex>, w: Complex) {
    s != [] && s[0] == ONE && forall i :: 0 < i < |s| ==> NextPower(s, w, i)
  }

  predicate NextPower(s: seq<Complex>, w: Complex, i: int)
    requires 0 < i < |s|
  {
    s[i] == Mul(s[i - 1], w)
  }

  lemma PowNext(w: Complex, m: nat)
    requires m > 0
    ensures Pow(w, m) == Mul(Pow(w, m - 1), w)
  {}

  lemma PowersOf(w: Complex, m: nat) returns (s: seq<Complex>)
    ensures |s| == m + 1 && Powers(s, w) && forall i :: 0 <= i <= m ==> s[i] == Pow(w, i)
  {
    s := seq(m + 1, i requires 0 <= i <= m => Pow(w, i));
    forall i | 0 < i < |s| ensures NextPower(s, w, i) { PowNext(w, i); }
  }

  lemma {:induction false} PowersAgree(s: seq<Complex>, r: seq<Complex>, w: Complex)
    requires Powers(s, w) && Powers(r, w) && |s| == |r|
    ensures s == r
  {
    if |s| > 1 {
      var m := |s| - 1;
      forall i | 0 < i < m ensures NextPower(s[..m], w, i) { assert NextPower(s, w, i); }
      forall i | 0 < i < m ensures NextPower(r[..m], w, i) { assert NextPower(r, w, i); }
      PowersAgree(s[..m], r[..m], w);
      assert NextPower(s, w, m) && NextPower(r, w, m);
      assert s[m - 1] == s[..m][m - 1] == r[..m][m - 1] == r[m - 1];
      assert s == s[..m] + [s[m]] && r == r[..m] + [r[m]];
    }
  }

  lemma Exchange(a: Complex, b: Complex, c: Complex, d: Complex)
    ensures Mul(Mul(a, b), Mul(c, d)) == Mul(Mul(a, c), Mul(b, d))
  {
    MulAssociative(a, b, Mul(c, d));
    MulAssociative(b, c, d);
    MulCommutative(b, c);
    MulAssociative(c, b, d);
    MulAssociative(a, c, Mul(b, d));
  }

  lemma {:induction false} PowMul(a: Complex, b: Complex, m: nat)
    ensures Pow(Mul(a, b), m) == Mul(Pow(a, m), Pow(b, m))
  {
    if m > 0 {
      PowMul(a, b, m - 1);
      Exchange(Pow(a, m - 1), Pow(b, m - 1), a, b);
    }
  }

  lemma TurnOnce(e: real -> Complex, x: real, m: nat)
    requires Exponential(e)
    ensures m == 0 ==> TurnedBy(e, x, m) == ONE
    ensures m > 0 ==> TurnedBy(e, x, m) == Mul(TurnedBy(e, x, m - 1), e(x))
  {
    if m == 0 {
      assert (m as real) * x == 0.0;
    } else {
      var a, b := (m as real) * x, ((m - 1) as real) * x;
      assert a == Plus(b, x);
    }
  }

  lemma TurnsOf(e: real -> Complex, x: real, m: nat) returns (s: seq<Complex>)
    requires Exponential(e)
    ensures |s| == m + 1 && Powers(s, e(x)) && s[0] == TurnedBy(e, x, 0) && s[m] == TurnedBy(e, x, m)
  {
    s := seq(m + 1, i requires 0 <= i <= m => TurnedBy(e, x, i));
    TurnOnce(e, x, 0);
    forall i | 0 < i < |s| ensures NextPower(s, e(x), i) { TurnOnce(e, x, i); }
  }

  lemma PowOfE(e: real -> Complex, x: real, m: nat)
    requires Exponential(e)
    ensures TurnedBy(e, x, m) == Pow(e(x), m)
  {
    var s := PowersOf(e(x), m);
    var r := TurnsOf(e, x, m);
    PowersAgree(s, r, e(x));
  }

  // ------------------------------------------------------------------
  // Geometric sums
  // ------------------------------------------------------------------

  function Geometric(z: Complex, n: nat): Complex {
    if n == 0 then ZERO else Add(Geometric(z, n - 1), Pow(z, n - 1))
  }

  function Minus(a: Complex, b: Complex): Complex {
    Complex(a.re - b.re, a.im - b.im)
  }

  lemma {:induction false} Telescope(z: Complex, n: nat)
    ensures Mul(Minus(z, ONE), Geometric(z, n)) == Minus(Pow(z, n), ONE)
  {
    if n > 0 {
      Telescope(z, n - 1);
      TelescopeStep(z, Geometric(z, n - 1), Pow(z, n - 1));
    }
  }

  lemma TelescopeStep(z: Complex, g: Complex, p: Complex)
    requires Mul(Minus(z, ONE), g) == Minus(p, ONE)
    ensures Mul(Minus(z, ONE), Add(g, p)) == Minus(Mul(p, z), ONE)
  {
    MulDistributes(Minus(z, ONE), g, p);
    MulCommutative(p, z);
  }

  lemma SquarePositive(x: real, a: real)
    requires a == x * x
    ensures a >= 0.0 && (x != 0.0 ==> a > 0.0)
  {
    if x > 0.0 {
      ProductPositive(x, x, a);
    } else if x < 0.0 {
      var y := -x;
      assert y * y == x * x;
      ProductPositive(y, y, a);
    }
  }

  lemma ProductPositive(x: real, y: real, a: real)
    requires x > 0.0 && y > 0.0 && a == x * y
    ensures a > 0.0
  {}

  lemma SizePositive(x: real, y: real, size: real)
    requires size == x * x + y * y && (x != 0.0 || y != 0.0)
    ensures size > 0.0
  {
    var a, b := x * x, y * y;
    SquarePositive(x, a);
    SquarePositive(y, b);
  }

  lemma Conjugate(x: real, y: real, u: real, v: real, size: real)
    requires size == x * x + y * y && x * u == y * v && x * v + y * u == 0.0
    ensures size * u == 0.0 && size * v == 0.0
  {
    assert x * (x * u) == x * (y * v) && y * (x * v) + y * (y * u) == y * (x * v + y * u) == 0.0;
    assert x * (x * v) + x * (y * u) == x * (x * v + y * u) == 0.0 && y * (x * u) == y * (y * v);
    assert size * u == x * (x * u) + y * (y * u);
    assert size * v == x * (x * v) + y * (y * v);
  }

  lemma NoZeroDivisors(a: Complex, b: Complex)
    requires Mul(a, b) == ZERO && a != ZERO
    ensures b == ZERO
  {
    var x, y := a.re, a.im;
    assert x != 0.0 || y != 0.0;
    var size := x * x + y * y;
    SizePositive(x, y, size);
    Conjugate(x, y, b.re, b.im, size);
    ZeroFactor(size, b.re);
    ZeroFactor(size, b.im);
  }

  lemma ZeroFactor(x: real, y: real)
    requires x > 0.0 && x * y == 0.0
    ensures y == 0.0
  {}

  lemma RootsSumToZero(z: Complex, n: nat)
    requires z != ONE && Pow(z, n) == ONE
    ensures Geometric(z, n) == ZERO
  {
    Telescope(z, n);
    NoZeroDivisors(Minus(z, ONE), Geometric(z, n));
  }

  // ------------------------------------------------------------------
  // Bins and tones
  // ------------------------------------------------------------------

  lemma {:induction false} PowersSum(t: Complex, w: Complex, xs: seq<Complex>)
    requires forall m :: 0 <= m < |xs| ==> xs[m] == Pow(t, m)
    ensures DirectSum(xs, w) == Geometric(Mul(t, w), |xs|)
  {
    if xs != [] {
      var m := |xs| - 1;
      PowersSum(t, w, xs[..m]);
      PowMul(t, w, m);
    }
  }

  lemma BinOfTone(e: real -> Complex, pi: real, j: nat, k: nat, n: nat)
    requires n > 0 && Exponential(e)
    ensures DftBin(Tone(e, pi, j, n), k, e, pi) == Geometric(Mul(e(Turns(pi, j, n)), e(Angle(pi, k, n))), n)
  {
    var xs, t := Tone(e, pi, j, n), e(Turns(pi, j, n));
    forall m | 0 <= m < |xs| ensures xs[m] == Pow(t, m) {
      PowOfE(e, Turns(pi, j, n), m);
    }
    PowersSum(t, e(Angle(pi, k, n)), xs);
  }

  lemma Opposite(e: real -> Complex, x: real, y: real)
    requires Exponential(e) && x + y == 0.0
    ensures Mul(e(x), e(y)) == ONE
  {
    assert Plus(x, y) == 0.0;
  }

  lemma TurnedIs(e: real -> Complex, x: real, m: nat, u: real)
    requires u == (m as real) * x
    ensures TurnedBy(e, x, m) == e(u)
  {}

  lemma OppositeTurns(e: real -> Complex, x: real, y: real, m: nat)
    requires Exponential(e) && x + y == 0.0
    ensures Mul(TurnedBy(e, x, m), TurnedBy(e, y, m)) == ONE
  {
    var f := m as real;
    var u, v := f * x, f * y;
    assert u + v == f * (x + y) == 0.0;
    TurnedIs(e, x, m, u);
    TurnedIs(e, y, m, v);
    Opposite(e, u, v);
  }

  /** Powers of opposite turns are inverses. */
  lemma PowInverse(e: real -> Complex, x: real, y: real, m: nat)
    requires Exponential(e) && x + y == 0.0
    ensures Mul(Pow(e(x), m), Pow(e(y), m)) == ONE
  {
    OppositeTurns(e, x, y, m);
    PowOfE(e, x, m);
    PowOfE(e, y, m);
  }

  lemma AngleIsBack(pi: real, k: nat, n: nat)
    requires n > 0
    ensures Turns(pi, k, n) + Angle(pi, k, n) == 0.0
  {
    var x, d := 2.0 * pi * (k as real), n as real;
    assert -2.0 * pi * (k as real) == -x;
    assert (-x) / d == -(x / d);
  }

  lemma {:induction false} OnesSum(xs: seq<Complex>, w: Complex)
    requires forall m :: 0 <= m < |xs| ==> Mul(xs[m], Pow(w, m)) == ONE
    ensures DirectSum(xs, w) == Complex(|xs| as real, 0.0)
  {
    if xs != [] { OnesSum(xs[..|xs| - 1], w); }
  }

  /** Bin k of the tone that turns k times is the number of samples. */
  lemma ToneInItsBin(e: real -> Complex, pi: real, k: nat, n: nat)
    requires n > 0 && Exponential(e)
    ensures DftBin(Tone(e, pi, k, n), k, e, pi) == Complex(n as real, 0.0)
  {
    var xs, t, w := Tone(e, pi, k, n), e(Turns(pi, k, n)), e(Angle(pi, k, n));
    AngleIsBack(pi, k, n);
    Opposite(e, Turns(pi, k, n), Angle(pi, k, n));
    forall m | 0 <= m < |xs| ensures Mul(xs[m], Pow(w, m)) == ONE {
      PowInverse(e, Turns(pi, k, n), Angle(pi, k, n), m);
      PowOfE(e, Turns(pi, k, n), m);
    }
    OnesSum(xs, w);
  }

  lemma ManyParts(pi: real, j: nat, n: nat)
    requires n > 0
    ensures (n as real) * Turns(pi, j, n) == (j as real) * (2.0 * pi)
  {
    var x, d := 2.0 * pi * (j as real), n as real;
    assert d * (x / d) == x;
  }

  lemma SameTurns(e: real -> Complex, x: real, m: nat, y: real, j: nat)
    requires (m as real) * x == (j as real) * y
    ensures TurnedBy(e, x, m) == TurnedBy(e, y, j)
  {}

  ghost predicate Period(e: real -> Complex, x: real) {
    forall a {:trigger Plus(a, x)} :: e(Plus(a, x)) == e(a)
  }

  lemma TurnIsPeriod(e: real -> Complex, x: real)
    requires Exponential(e) && e(x) == ONE
    ensures Period(e, x)
  {
    forall a ensures e(Plus(a, x)) == e(a) { MulOne(e(a)); }
  }

  lemma {:induction false} FullTurns(e: real -> Complex, x: real, j: nat)
    requires Period(e, x)
    ensures TurnedBy(e, x, j) == e(0.0)
  {
    if j == 0 {
      TurnedIs(e, x, j, 0.0);
    } else {
      FullTurns(e, x, j - 1);
      var b := ((j - 1) as real) * x;
      TurnedIs(e, x, j - 1, b);
      TurnedIs(e, x, j, Plus(b, x));
    }
  }

  lemma WholeTurns(e: real -> Complex, pi: real, j: nat, n: nat)
    requires n > 0 && Exponential(e) && e(2.0 * pi) == ONE
    ensures Pow(e(Turns(pi, j, n)), n) == ONE
  {
    PowOfE(e, Turns(pi, j, n), n);
    TurnIsPeriod(e, 2.0 * pi);
    FullTurns(e, 2.0 * pi, j);
    ManyParts(pi, j, n);
    SameTurns(e, Turns(pi, j, n), n, 2.0 * pi, j);
  }

  lemma WholeTurnsBack(e: real -> Complex, pi: real, k: nat, n: nat)
    requires n > 0 && Exponential(e) && e(2.0 * pi) == ONE
    ensures Pow(e(Angle(pi, k, n)), n) == ONE
  {
    var t, w := e(Turns(pi, k, n)), e(Angle(pi, k, n));
    AngleIsBack(pi, k, n);
    Opposite(e, Turns(pi, k, n), Angle(pi, k, n));
    WholeTurns(e, pi, k, n);
    PowInverse(e, Turns(pi, k, n), Angle(pi, k, n), n);
    MulOne(Pow(w, n));
  }

  lemma TurnsAdd(pi: real, a: nat, b: nat, n: nat)
    requires n > 0
    ensures Turns(pi, a + b, n) == Turns(pi, a, n) + Turns(pi, b, n)
  {
    var x, y, d := 2.0 * pi * (a as real), 2.0 * pi * (b as real), n as real;
    assert 2.0 * pi * ((a + b) as real) == x + y;
    assert (x + y) / d == x / d + y / d;
  }

  /** Two different bins are some turns apart. */
  lemma BinsApart(e: real -> Complex, pi: real, j: nat, k: nat, n: nat)
    requires n > 0 && Exponential(e) && OneTurn(e, pi, n) && j < n && k < n && j != k
    ensures Mul(e(Turns(pi, j, n)), e(Angle(pi, k, n))) != ONE
  {
    var t, u, w := e(Turns(pi, j, n)), e(Turns(pi, k, n)), e(Angle(pi, k, n));
    AngleIsBack(pi, k, n);
    Opposite(e, Turns(pi, k, n), Angle(pi, k, n));
    if Mul(t, w) == ONE {
      SameInverse(t, u, w);
      if j < k {
        ApartBy(e, pi, j, k - j, n);
      } else {
        ApartBy(e, pi, k, j - k, n);
      }
    }
  }

  lemma SameInverse(t: Complex, u: Complex, w: Complex)
    requires Mul(t, w) == ONE && Mul(u, w) == ONE
    ensures t == u
  {
    MulAssociative(t, w, u);
    MulCommutative(w, u);
    MulOne(t);
    MulOne(u);
  }

  lemma ApartBy(e: real -> Complex, pi: real, a: nat, d: nat, n: nat)
    requires n > 0 && Exponential(e) && OneTurn(e, pi, n) && 0 < d < n
    ensures e(Turns(pi, a + d, n)) != e(Turns(pi, a, n))
  {
    var x, y := Turns(pi, a, n), Turns(pi, d, n);
    TurnsAdd(pi, a, d, n);
    assert Plus(x, y) == x + y;
    if e(x + y) == e(x) {
      Opposite(e, x, -x);
      var c := e(-x);
      MulCommutative(e(x), c);
      MulAssociative(c, e(x), e(y));
      MulOne(e(y));
    }
  }

  /** A tone shows in its own bin with the number of samples and in no other. */
  lemma BinsTellTonesApart(e: real -> Complex, pi: real, j: nat, k: nat, n: nat)
    requires n > 0 && Exponential(e) && OneTurn(e, pi, n) && j < n && k < n
    ensures DftBin(Tone(e, pi, j, n), k, e, pi) == if j == k then Complex(n as real, 0.0) else ZERO
  {
    if j == k {
      ToneInItsBin(e, pi, k, n);
    } else {
      var t, w := e(Turns(pi, j, n)), e(Angle(pi, k, n));
      BinOfTone(e, pi, j, k, n);
      WholeTurns(e, pi, j, n);
      WholeTurnsBack(e, pi, k, n);
      PowMul(t, w, n);
      MulOne(ONE);
      BinsApart(e, pi, j, k, n);
      RootsSumToZero(Mul(t, w), n);
    }
  }

  /** The transform of a sum is the sum of the transforms. */
  lemma {:induction false} SumsAdd(xs: seq<Complex>, ys: seq<Complex>, zs: seq<Complex>, w: Complex)
    requires |xs| == |ys| == |zs| && forall m :: 0 <= m < |xs| ==> zs[m] == Add(xs[m], ys[m])
    ensures DirectSum(zs, w) == Add(DirectSum(xs, w), DirectSum(ys, w))
  {
    if xs != [] {
      var m := |xs| - 1;
      SumsAdd(xs[..m], ys[..m], zs[..m], w);
      var p := Pow(w, m);
      MulDistributes(p, xs[m], ys[m]);
      MulCommutative(p, xs[m]);
      MulCommutative(p, ys[m]);
      MulCommutative(p, zs[m]);
      AddShuffle(DirectSum(xs[..m], w), Mul(xs[m], p), DirectSum(ys[..m], w), Mul(ys[m], p));
      AddRegroup(DirectSum(xs[..m], w), DirectSum(ys[..m], w), Mul(xs[m], p), Mul(ys[m], p));
    }
  }

  lemma AddRegroup(a: Complex, b: Complex, c: Complex, d: Complex)
    ensures Add(Add(a, b), Add(c, d)) == Add(Add(a, c), Add(b, d))
  {}
}
