/** The grid search of the three self-calibration programs: passes over a
    shrinking window, each grid point captured again while the transmitter
    reports an error. Arithmetic is exact. */
module Calibration {
  import opened Common

  const MAX_NUM_TX_ERRORS: nat := 10
  const NUM_SEARCH_STEPS: nat := 5

  /** The bounds and step of one of the two corrections. */
  datatype Axis = Axis(start: real, stop: real, step: real)

  /** Offsets are searched for the lowest level, balances for the highest suppression. */
  datatype Goal = Lower | Higher

  datatype Best = Best(level: real, i: real, q: real)

  datatype State = State(i: Axis, q: Axis, best: Best)

  /** What a capture at a correction gives. */
  datatype Outcome = TxError | Level(level: real)

  datatype Capture = Capture(i: real, q: real, outcome: Outcome)

  /** An error-free measurement. */
  datatype Shot = Shot(i: real, q: real, level: real)

  /** One pass: a row of shots for each value of the first correction. */
  type Pass = seq<seq<Shot>>

  /** The run of the device: what the n-th capture gives at a correction. */
  type Device = (nat, real, real) -> Outcome

  datatype Failure = TooManyTxErrors

  predicate Better(goal: Goal, x: real, than: real) {
    if goal.Lower? then x < than else x > than
  }

  function WithStep(start: real, stop: real, steps: nat): Axis {
    Axis(start, stop, (stop - start) / (steps as real + 1.0))
  }

  function Start(steps: nat, seed: real): State {
    State(WithStep(-1.0, 1.0, steps), WithStep(-1.0, 1.0, steps), Best(seed, 0.0, 0.0))
  }

  /** The step added `n` times. */
  function Times(n: nat, step: real): real {
    if n == 0 then 0.0 else Times(n - 1, step) + step
  }

  /** The points of a window's grid, the first one step inside it. */
  function Point(a: Axis, k: nat): real {
    a.start + Times(k + 1, a.step)
  }

  // ------------------------------------------------------------------
  // The search without errors
  // ------------------------------------------------------------------

  function Improve(goal: Goal, best: Best, s: Shot): Best {
    if Better(goal, s.level, best.level) then Best(s.level, s.i, s.q) else best
  }

  function BestOfRow(goal: Goal, best: Best, row: seq<Shot>): Best {
    if row == [] then best
    else Improve(goal, BestOfRow(goal, best, row[..|row| - 1]), row[|row| - 1])
  }

  function BestOfPass(goal: Goal, best: Best, pass: Pass): Best {
    if pass == [] then best
    else BestOfRow(goal, BestOfPass(goal, best, pass[..|pass| - 1]), pass[|pass| - 1])
  }

  /** The window around the best so far that the next pass searches. */
  function Narrow(steps: nat, a: Axis, best: real): Axis {
    WithStep(best - a.step, best + a.step, steps)
  }

  function AfterPass(steps: nat, goal: Goal, s: State, pass: Pass): State {
    var best := BestOfPass(goal, s.best, pass);
    State(Narrow(steps, s.i, best.i), Narrow(steps, s.q, best.q), best)
  }

  function AfterPasses(steps: nat, goal: Goal, s: State, passes: seq<Pass>): State {
    if passes == [] then s
    else AfterPass(steps, goal, AfterPasses(steps, goal, s, passes[..|passes| - 1]), passes[|passes| - 1])
  }

  /** The pass measures the points of the window's grid, each once. */
  predicate RowOnGrid(steps: nat, i: real, q: Axis, row: seq<Shot>) {
    |row| == steps && forall c :: 0 <= c < steps ==> row[c].i == i && row[c].q == Point(q, c)
  }

  predicate RowsOnGrid(rows: nat, steps: nat, s: State, pass: Pass) {
    |pass| == rows && forall r :: 0 <= r < rows ==> RowOnGrid(steps, Point(s.i, r), s.q, pass[r])
  }

  predicate OnGrid(steps: nat, s: State, pass: Pass) {
    RowsOnGrid(steps, steps, s, pass)
  }

  predicate AllOnGrid(steps: nat, goal: Goal, s: State, passes: seq<Pass>) {
    passes != [] ==>
      && AllOnGrid(steps, goal, s, passes[..|passes| - 1])
      && OnGrid(steps, AfterPasses(steps, goal, s, passes[..|passes| - 1]), passes[|passes| - 1])
  }

  // ------------------------------------------------------------------
  // The captures
  // ------------------------------------------------------------------

  function Clean(log: seq<Capture>): seq<Shot> {
    if log == [] then []
    else
      var last := log[|log| - 1];
      Clean(log[..|log| - 1]) + if last.outcome.TxError? then [] else [Shot(last.i, last.q, last.outcome.level)]
  }

  function Errors(log: seq<Capture>): nat {
    if log == [] then 0
    else Errors(log[..|log| - 1]) + if log[|log| - 1].outcome.TxError? then 1 else 0
  }

  function Flatten(pass: Pass): seq<Shot> {
    if pass == [] then [] else Flatten(pass[..|pass| - 1]) + pass[|pass| - 1]
  }

  function FlattenAll(passes: seq<Pass>): seq<Shot> {
    if passes == [] then [] else FlattenAll(passes[..|passes| - 1]) + Flatten(passes[|passes| - 1])
  }

  /** The log is what the device gave, and every capture with an error was
      repeated at the same correction if there was another one. */
  ghost predicate Faithful(device: Device, log: seq<Capture>) {
    && (forall n :: 0 <= n < |log| ==> log[n].outcome == device(n, log[n].i, log[n].q))
    && (forall n :: 0 <= n < |log| - 1 && log[n].outcome.TxError? ==>
          log[n + 1].i == log[n].i && log[n + 1].q == log[n].q)
  }

  predicate Settled(log: seq<Capture>) {
    log != [] ==> !log[|log| - 1].outcome.TxError?
  }

  lemma FaithfulSnoc(device: Device, log: seq<Capture>, c: Capture)
    requires Faithful(device, log) && c.outcome == device(|log|, c.i, c.q)
    requires Settled(log) || (log[|log| - 1].i == c.i && log[|log| - 1].q == c.q)
    ensures Faithful(device, log + [c])
  {}

  lemma CleanSnoc(log: seq<Capture>, c: Capture)
    ensures Errors(log + [c]) == Errors(log) + if c.outcome.TxError? then 1 else 0
    ensures Clean(log + [c]) == Clean(log) + if c.outcome.TxError? then [] else [Shot(c.i, c.q, c.outcome.level)]
  {
    assert (log + [c])[..|log|] == log;
  }

  /** Captures are the measurements and the errors. */
  lemma {:induction false} CapturesAdd(log: seq<Capture>)
    ensures |log| == |Clean(log)| + Errors(log)
  {
    if log != [] { CapturesAdd(log[..|log| - 1]); }
  }

  // ------------------------------------------------------------------
  // The step shrinks to nothing
  // ------------------------------------------------------------------

  /** (2 / (steps + 1))^(p + 1): the step of pass p. */
  function StepAt(steps: nat, p: nat): real {
    if p == 0 then 2.0 / (steps as real + 1.0)
    else 2.0 * StepAt(steps, p - 1) / (steps as real + 1.0)
  }

  lemma {:induction false} StepPositive(steps: nat, p: nat)
    ensures StepAt(steps, p) > 0.0
  {
    if p > 0 { StepPositive(steps, p - 1); }
  }

  lemma Shrinks(x: real, d: real)
    requires x > 0.0 && d >= 3.0
    ensures 0.0 < 2.0 * x / d <= 2.0 * x / 3.0
  {
    var y := 2.0 * x / d;
    assert y * d == 2.0 * x;
    assert y > 0.0;
    assert y * 3.0 <= y * d;
  }

  lemma {:induction false} StepBelow(steps: nat, p: nat)
    requires steps >= 2
    ensures StepAt(steps, p) * (p as real + 2.0) <= 2.0
  {
    var d := steps as real + 1.0;
    if p == 0 {
      Shrinks(1.0, d);
    } else {
      StepBelow(steps, p - 1);
      StepPositive(steps, p - 1);
      var x, y, t := StepAt(steps, p - 1), StepAt(steps, p), p as real;
      Shrinks(x, d);
      assert y <= 2.0 * x / 3.0;
      assert (p - 1) as real + 2.0 == t + 1.0;
      assert y * (t + 2.0) <= (2.0 * x / 3.0) * (t + 2.0);
      assert 2.0 * (t + 2.0) <= 3.0 * (t + 1.0);
      assert x * (2.0 * (t + 2.0)) <= x * (3.0 * (t + 1.0));
    }
  }

  lemma BelowPrecision(x: real, t: real, precision: real)
    requires precision > 0.0 && t > 2.0 / precision && x * t <= 2.0
    ensures x < precision
  {
    var r := 2.0 / precision;
    assert r * precision == 2.0 && r > 0.0;
    assert t * precision > r * precision;
    assert x >= precision ==> x * t >= precision * t;
  }

  /** With two or more steps the window gets smaller than any precision. */
  lemma StepVanishes(steps: nat, precision: real) returns (p: nat)
    requires steps >= 2 && precision > 0.0
    ensures StepAt(steps, p) < precision
  {
    assert 2.0 / precision > 0.0;
    p := (2.0 / precision).Floor + 1;
    StepBelow(steps, p);
    BelowPrecision(StepAt(steps, p), p as real + 2.0, precision);
  }

  lemma {:induction false} OneStepNeverShrinks(p: nat)
    ensures StepAt(1, p) == 1.0
  {
    if p > 0 { OneStepNeverShrinks(p - 1); }
  }

  /** Some step is below the precision exactly when that is positive. */
  lemma StepVanishesIff(steps: nat, precision: real)
    requires steps >= 2
    ensures (exists p: nat :: StepAt(steps, p) < precision) <==> precision > 0.0
  {
    if precision > 0.0 {
      var p := StepVanishes(steps, precision);
    } else {
      forall p: nat ensures !(StepAt(steps, p) < precision) { StepPositive(steps, p); }
    }
  }

  /** `p` passes are made: the first step below the precision is the one after them. */
  ghost predicate IsPassCount(steps: nat, precision: real, p: nat) {
    StepAt(steps, p) < precision && AllAbove(steps, precision, p)
  }

  /** The steps of the first `p` passes are not below the precision. */
  ghost predicate AllAbove(steps: nat, precision: real, p: nat) {
    p > 0 ==> AllAbove(steps, precision, p - 1) && StepAt(steps, p - 1) >= precision
  }

  lemma HalfOrLess(x: real, d: real)
    requires x > 0.0 && d >= 2.0
    ensures 2.0 * x / d <= x
  {
    var y := 2.0 * x / d;
    assert y * d == 2.0 * x;
    assert y > x ==> y * d > x * d;
    assert x * d >= x * 2.0;
  }

  lemma {:induction false} StepFalls(steps: nat, m: nat, p: nat)
    requires steps >= 1 && m <= p
    ensures StepAt(steps, p) <= StepAt(steps, m)
    decreases p
  {
    if m < p {
      StepFalls(steps, m, p - 1);
      StepPositive(steps, p - 1);
      HalfOrLess(StepAt(steps, p - 1), steps as real + 1.0);
    }
  }

  // ------------------------------------------------------------------
  // Where the windows are
  // ------------------------------------------------------------------

  /** A window `steps + 1` steps wide. */
  predicate Spread(steps: nat, a: Axis) {
    a.step > 0.0 && a.stop == a.start + Times(steps + 1, a.step)
  }

  /** A window about `best`, inside the first one, with the step of pass `p`. */
  predicate Centred(steps: nat, a: Axis, best: real, p: nat) {
    && a.step == StepAt(steps, p)
    && Spread(steps, a)
    && a.start + a.stop == 2.0 * best
    && -1.0 <= a.start && a.stop <= 1.0
  }

  predicate Placed(steps: nat, s: State, p: nat) {
    Centred(steps, s.i, s.best.i, p) && Centred(steps, s.q, s.best.q, p)
  }

  lemma {:induction false} TimesIsProduct(n: nat, step: real)
    ensures Times(n, step) == n as real * step
  {
    if n > 0 {
      TimesIsProduct(n - 1, step);
      var x := (n - 1) as real;
      assert n as real == x + 1.0;
      assert (x + 1.0) * step == x * step + step;
    }
  }

  lemma {:induction false} TimesOrdered(m: nat, n: nat, step: real)
    requires m <= n && step >= 0.0
    ensures Times(m, step) <= Times(n, step)
    decreases n
  {
    if m < n { TimesOrdered(m, n - 1, step); }
  }

  lemma WithStepWidth(start: real, stop: real, steps: nat)
    ensures start + Times(steps + 1, WithStep(start, stop, steps).step) == stop
  {
    TimesIsProduct(steps + 1, WithStep(start, stop, steps).step);
    assert (steps + 1) as real == steps as real + 1.0;
  }

  lemma StartPlaced(steps: nat, seed: real)
    ensures Placed(steps, Start(steps, seed), 0)
  {
    WithStepWidth(-1.0, 1.0, steps);
  }

  lemma PointInside(steps: nat, a: Axis, k: nat)
    requires Spread(steps, a) && k < steps
    ensures a.start + a.step <= Point(a, k) <= a.stop - a.step
  {
    TimesOrdered(1, k + 1, a.step);
    TimesOrdered(k + 1, steps, a.step);
  }

  lemma CentreInside(steps: nat, a: Axis)
    requires steps >= 1 && Spread(steps, a)
    ensures a.stop - a.start >= 2.0 * a.step
  {
    assert Times(2, a.step) == Times(1, a.step) + a.step;
    TimesOrdered(2, steps + 1, a.step);
  }

  /** The next window lies in this one, whatever of its points turned out best. */
  lemma NarrowNested(steps: nat, a: Axis, best: real, p: nat, next: real)
    requires steps >= 1 && Centred(steps, a, best, p)
    requires next == best || exists k: nat :: k < steps && next == Point(a, k)
    ensures Centred(steps, Narrow(steps, a, next), next, p + 1)
    ensures a.start <= Narrow(steps, a, next).start && Narrow(steps, a, next).stop <= a.stop
  {
    if next == best {
      CentreInside(steps, a);
    } else {
      var k: nat :| k < steps && next == Point(a, k);
      PointInside(steps, a, k);
    }
    assert a.start + a.step <= next <= a.stop - a.step;
    NarrowSpread(steps, a, next, p);
  }

  lemma NarrowSpread(steps: nat, a: Axis, next: real, p: nat)
    requires a.step == StepAt(steps, p)
    ensures Spread(steps, Narrow(steps, a, next)) && Narrow(steps, a, next).step == StepAt(steps, p + 1)
    ensures Narrow(steps, a, next).start == next - a.step && Narrow(steps, a, next).stop == next + a.step
  {
    WithStepWidth(next - a.step, next + a.step, steps);
    StepPositive(steps, p + 1);
  }

  lemma {:induction false} BestOfRowFrom(goal: Goal, best: Best, row: seq<Shot>)
    ensures var b := BestOfRow(goal, best, row);
            && (b == best || (exists c :: 0 <= c < |row| && b == Best(row[c].level, row[c].i, row[c].q)))
            && (b != best ==> Better(goal, b.level, best.level))
            && !Better(goal, best.level, b.level)
            && forall c :: 0 <= c < |row| ==> !Better(goal, row[c].level, b.level)
  {
    if row != [] {
      var front := row[..|row| - 1];
      BestOfRowFrom(goal, best, front);
      assert forall c :: 0 <= c < |front| ==> front[c] == row[c];
    }
  }

  /** Keeping the best through a pass keeps an extreme: it is the level held
      before or one measured strictly better, and none measured is better. */
  lemma {:induction false} BestOfPassFrom(goal: Goal, best: Best, pass: Pass)
    ensures var b := BestOfPass(goal, best, pass);
            && (b == best || (exists r, c :: 0 <= r < |pass| && 0 <= c < |pass[r]|
                                && b == Best(pass[r][c].level, pass[r][c].i, pass[r][c].q)))
            && (b != best ==> Better(goal, b.level, best.level))
            && !Better(goal, best.level, b.level)
            && forall r, c :: 0 <= r < |pass| && 0 <= c < |pass[r]| ==> !Better(goal, pass[r][c].level, b.level)
  {
    if pass != [] {
      var front := pass[..|pass| - 1];
      BestOfPassFrom(goal, best, front);
      BestOfRowFrom(goal, BestOfPass(goal, best, front), pass[|pass| - 1]);
      assert forall r :: 0 <= r < |front| ==> front[r] == pass[r];
    }
  }

  lemma PassStaysPlaced(steps: nat, goal: Goal, s: State, pass: Pass, p: nat)
    requires steps >= 1 && Placed(steps, s, p) && OnGrid(steps, s, pass)
    ensures Placed(steps, AfterPass(steps, goal, s, pass), p + 1)
    ensures var t := AfterPass(steps, goal, s, pass);
            && s.i.start <= t.i.start && t.i.stop <= s.i.stop
            && s.q.start <= t.q.start && t.q.stop <= s.q.stop
  {
    var b := BestOfPass(goal, s.best, pass);
    BestOfPassFrom(goal, s.best, pass);
    if b != s.best {
      var r, c :| 0 <= r < |pass| && 0 <= c < |pass[r]| && b == Best(pass[r][c].level, pass[r][c].i, pass[r][c].q);
      assert RowOnGrid(steps, Point(s.i, r), s.q, pass[r]);
    }
    NarrowNested(steps, s.i, s.best.i, p, b.i);
    NarrowNested(steps, s.q, s.best.q, p, b.q);
  }

  /** After any number of passes the window is centred on the best correction,
      its step is (2 / (steps + 1))^(p + 1), and it is inside the first window;
      every correction measured in them is strictly between -1 and 1. */
  lemma {:induction false} WindowsStayPlaced(steps: nat, goal: Goal, seed: real, passes: seq<Pass>)
    requires steps >= 1 && AllOnGrid(steps, goal, Start(steps, seed), passes)
    ensures Placed(steps, AfterPasses(steps, goal, Start(steps, seed), passes), |passes|)
    ensures forall p, r, c :: 0 <= p < |passes| && 0 <= r < |passes[p]| && 0 <= c < |passes[p][r]| ==>
      -1.0 < passes[p][r][c].i < 1.0 && -1.0 < passes[p][r][c].q < 1.0
    decreases |passes|
  {
    StartPlaced(steps, seed);
    if passes != [] {
      var front, last := passes[..|passes| - 1], passes[|passes| - 1];
      WindowsStayPlaced(steps, goal, seed, front);
      var s := AfterPasses(steps, goal, Start(steps, seed), front);
      PassStaysPlaced(steps, goal, s, last, |front|);
      forall r, c | 0 <= r < |last| && 0 <= c < |last[r]|
        ensures -1.0 < last[r][c].i < 1.0 && -1.0 < last[r][c].q < 1.0
      {
        assert RowOnGrid(steps, Point(s.i, r), s.q, last[r]);
        PointInside(steps, s.i, r);
        PointInside(steps, s.q, c);
      }
      assert forall p :: 0 <= p < |front| ==> front[p] == passes[p];
    }
  }

  /** What the whole search keeps: no shot of any pass is better, and it is
      either a shot better than the seed or the seed at the zero correction. */
  lemma {:induction false} BestOfAll(steps: nat, goal: Goal, seed: real, passes: seq<Pass>)
    ensures var b := AfterPasses(steps, goal, Start(steps, seed), passes).best;
            && (b == Best(seed, 0.0, 0.0)
                || (exists p, r, c :: 0 <= p < |passes| && 0 <= r < |passes[p]| && 0 <= c < |passes[p][r]|
                      && b == Best(passes[p][r][c].level, passes[p][r][c].i, passes[p][r][c].q)))
            && (b != Best(seed, 0.0, 0.0) ==> Better(goal, b.level, seed))
            && forall p, r, c :: 0 <= p < |passes| && 0 <= r < |passes[p]| && 0 <= c < |passes[p][r]| ==>
                 !Better(goal, passes[p][r][c].level, b.level)
    decreases |passes|
  {
    if passes != [] {
      var front, last := passes[..|passes| - 1], passes[|passes| - 1];
      BestOfAll(steps, goal, seed, front);
      BestOfPassFrom(goal, AfterPasses(steps, goal, Start(steps, seed), front).best, last);
      assert forall p :: 0 <= p < |front| ==> front[p] == passes[p];
    }
  }

  // ------------------------------------------------------------------
  // Runs
  // ------------------------------------------------------------------

  /** The last capture failed at the next point of the row. */
  ghost predicate Repeating(steps: nat, i: real, axis: Axis, log: seq<Capture>, row: seq<Shot>) {
    |row| < steps && log != [] && log[|log| - 1] == Capture(i, Point(axis, |row|), TxError)
  }

  /** A row given up at an error: its first points were measured, and the last
      capture was a failed one of the next. */
  ghost predicate RowCutShort(steps: nat, i: real, axis: Axis, clean0: seq<Shot>, log: seq<Capture>, row: seq<Shot>) {
    RowOnGrid(|row|, i, axis, row) && Clean(log) == clean0 + row && Repeating(steps, i, axis, log, row)
  }

  /** A pass given up at an error: whole rows, then part of one. */
  ghost predicate PassCutShort(steps: nat, s: State, clean0: seq<Shot>, log: seq<Capture>, pass: Pass, row: seq<Shot>) {
    && |pass| < steps && RowsOnGrid(|pass|, steps, s, pass)
    && RowCutShort(steps, Point(s.i, |pass|), s.q, clean0 + Flatten(pass), log, row)
  }

  /** What a search did: its captures, the passes it finished, and what it had of
      the pass and the row it was in when it was aborted. */
  datatype Run = Run(log: seq<Capture>, passes: seq<Pass>, pass: Pass, row: seq<Shot>)

  /** The run is one of the search without errors on the clean measurements: each
      pass measures every point of its grid once and in order, and the passes go
      on until the step is below the precision; or it is the beginning of one, up
      to the capture with the last error allowed. */
  ghost predicate IsRun(steps: nat, precision: real, goal: Goal, seed: real, device: Device, run: Run, finished: bool) {
    var s := Start(steps, seed);
    && Faithful(device, run.log) && AllOnGrid(steps, goal, s, run.passes)
    && if finished then
         && Settled(run.log) && Errors(run.log) < MAX_NUM_TX_ERRORS && Clean(run.log) == FlattenAll(run.passes)
         && run.pass == [] && run.row == []
         && IsPassCount(steps, precision, |run.passes|)
       else
         && Errors(run.log) == MAX_NUM_TX_ERRORS
         && AllAbove(steps, precision, |run.passes| + 1)
         && PassCutShort(steps, AfterPasses(steps, goal, s, run.passes), FlattenAll(run.passes),
                         run.log, run.pass, run.row)
  }

  /** What a search returns, and the captures it makes: in a finished one the
      measurements and the errors, in one cut short fewer than another whole pass
      would have added. */
  ghost predicate IsOutcome(steps: nat, goal: Goal, seed: real, run: Run, r: Result<Best, Failure>, captures: nat) {
    && captures == |run.log|
    && if r.Ok? then
         && r.value == AfterPasses(steps, goal, Start(steps, seed), run.passes).best
         && captures == |run.passes| * (steps * steps) + Errors(run.log)
       else
         && r.error == TooManyTxErrors
         && captures == |run.passes| * (steps * steps) + |run.pass| * steps + |run.row| + MAX_NUM_TX_ERRORS
         && captures < (|run.passes| + 1) * (steps * steps) + MAX_NUM_TX_ERRORS
  }

  lemma PartOfPass(n: nat, rows: nat, more: nat)
    requires rows < n && more < n
    ensures rows * n + more < n * n
  {
    OneMore(rows, n);
    assert (rows + 1) * n <= n * n;
  }

  lemma CapturesOfRun(steps: nat, precision: real, goal: Goal, seed: real, device: Device, run: Run, finished: bool)
    requires IsRun(steps, precision, goal, seed, device, run, finished)
    ensures finished ==> |run.log| == |run.passes| * (steps * steps) + Errors(run.log)
    ensures !finished ==>
      && |run.log| == |run.passes| * (steps * steps) + |run.pass| * steps + |run.row| + MAX_NUM_TX_ERRORS
      && |run.log| < (|run.passes| + 1) * (steps * steps) + MAX_NUM_TX_ERRORS
  {
    var s := Start(steps, seed);
    CapturesAdd(run.log);
    MeasurementsPerPass(steps, goal, s, run.passes);
    if !finished {
      MeasurementsPerRow(steps, AfterPasses(steps, goal, s, run.passes), run.pass, |run.pass|);
      assert run.pass[..|run.pass|] == run.pass;
      PartOfPass(steps, |run.pass|, |run.row|);
      OneMore(|run.passes|, steps * steps);
    }
  }

  lemma AfterSnoc(steps: nat, goal: Goal, s: State, passes: seq<Pass>, pass: Pass)
    ensures AfterPasses(steps, goal, s, passes + [pass])
            == AfterPass(steps, goal, AfterPasses(steps, goal, s, passes), pass)
  {
    assert (passes + [pass])[..|passes|] == passes;
  }

  lemma GridSnoc(steps: nat, goal: Goal, s: State, passes: seq<Pass>, pass: Pass)
    requires AllOnGrid(steps, goal, s, passes) && OnGrid(steps, AfterPasses(steps, goal, s, passes), pass)
    ensures AllOnGrid(steps, goal, s, passes + [pass])
    ensures FlattenAll(passes + [pass]) == FlattenAll(passes) + Flatten(pass)
  {
    assert (passes + [pass])[..|passes|] == passes;
  }

  lemma {:induction false} MeasurementsPerRow(steps: nat, s: State, pass: Pass, rows: nat)
    requires rows <= |pass| && RowsOnGrid(|pass|, steps, s, pass)
    ensures |Flatten(pass[..rows])| == rows * steps
  {
    if rows > 0 {
      MeasurementsPerRow(steps, s, pass, rows - 1);
      assert pass[..rows][..rows - 1] == pass[..rows - 1];
      assert RowOnGrid(steps, Point(s.i, rows - 1), s.q, pass[rows - 1]);
      OneMore(rows - 1, steps);
    }
  }

  lemma {:induction false} MeasurementsPerPass(steps: nat, goal: Goal, s: State, passes: seq<Pass>)
    requires AllOnGrid(steps, goal, s, passes)
    ensures |FlattenAll(passes)| == |passes| * (steps * steps)
    decreases |passes|
  {
    if passes != [] {
      var front, last := passes[..|passes| - 1], passes[|passes| - 1];
      MeasurementsPerPass(steps, goal, s, front);
      MeasurementsPerRow(steps, AfterPasses(steps, goal, s, front), last, |last|);
      assert last[..|last|] == last;
      OneMore(|front|, steps * steps);
    }
  }

  lemma OneMore(n: nat, m: nat)
    ensures (n + 1) * m == n * m + m
  {}

  // ------------------------------------------------------------------
  // What is kept
  // ------------------------------------------------------------------

  predicate Measured(passes: seq<Pass>, i: real, q: real, level: real) {
    exists p, r, c :: 0 <= p < |passes| && 0 <= r < |passes[p]| && 0 <= c < |passes[p][r]|
      && passes[p][r][c] == Shot(i, q, level)
  }

  predicate SomeAbove(passes: seq<Pass>, x: real) {
    exists p, r, c :: 0 <= p < |passes| && 0 <= r < |passes[p]| && 0 <= c < |passes[p][r]|
      && passes[p][r][c].level > x
  }

  function BestIq(passes: seq<Pass>): Best {
    AfterPasses(NUM_SEARCH_STEPS, Higher, Start(NUM_SEARCH_STEPS, 0.0), passes).best
  }

  /** The result of an IQ search is the highest of all measurements and of zero
      at the zero correction, where it started. It was measured exactly when some
      measurement was above zero, or when one at the zero correction was zero. */
  lemma IqBestMeasuredIff(passes: seq<Pass>)
    ensures var b := BestIq(passes);
            && (Measured(passes, b.i, b.q, b.level) <==>
                  SomeAbove(passes, 0.0) || Measured(passes, 0.0, 0.0, 0.0))
            && (SomeAbove(passes, 0.0) <==> b.level > 0.0)
            && !SomeAbove(passes, b.level)
            && (!SomeAbove(passes, 0.0) ==> b == Best(0.0, 0.0, 0.0))
  {
    BestOfAll(NUM_SEARCH_STEPS, Higher, 0.0, passes);
    var b := BestIq(passes);
    if b != Best(0.0, 0.0, 0.0) {
      var p, r, c :| 0 <= p < |passes| && 0 <= r < |passes[p]| && 0 <= c < |passes[p][r]|
        && b == Best(passes[p][r][c].level, passes[p][r][c].i, passes[p][r][c].q);
      assert passes[p][r][c] == Shot(b.i, b.q, b.level);
    }
  }

  /** So an IQ program keeps a result nobody measured exactly when the uncorrected
      suppression was negative, nothing tried came above zero, and the zero
      correction was not measured at zero. */
  lemma IqKeepsUnmeasuredIff(passes: seq<Pass>, initial: real)
    ensures var b := BestIq(passes);
            b.level > initial && !Measured(passes, b.i, b.q, b.level) <==>
              initial < 0.0 && !SomeAbove(passes, 0.0) && !Measured(passes, 0.0, 0.0, 0.0)
  {
    IqBestMeasuredIff(passes);
  }

  /** The offset program keeps a result exactly when some measurement was below
      the uncorrected one, and then it keeps the lowest of all. */
  lemma DcKeepsIff(passes: seq<Pass>, initial: real)
    ensures var b := AfterPasses(NUM_SEARCH_STEPS, Lower, Start(NUM_SEARCH_STEPS, initial), passes).best;
            && (b.level < initial <==>
                  exists p, r, c :: 0 <= p < |passes| && 0 <= r < |passes[p]| && 0 <= c < |passes[p][r]|
                    && passes[p][r][c].level < initial)
            && (b.level < initial ==> Measured(passes, b.i, b.q, b.level))
            && forall p, r, c :: 0 <= p < |passes| && 0 <= r < |passes[p]| && 0 <= c < |passes[p][r]| ==>
                 b.level <= passes[p][r][c].level
  {
    BestOfAll(NUM_SEARCH_STEPS, Lower, initial, passes);
    var b := AfterPasses(NUM_SEARCH_STEPS, Lower, Start(NUM_SEARCH_STEPS, initial), passes).best;
    if b.level < initial {
      var p, r, c :| 0 <= p < |passes| && 0 <= r < |passes[p]| && 0 <= c < |passes[p][r]|
        && b == Best(passes[p][r][c].level, passes[p][r][c].i, passes[p][r][c].q);
      assert passes[p][r][c] == Shot(b.i, b.q, b.level);
    }
  }
}
