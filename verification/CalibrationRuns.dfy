/** What holds of every run of the calibration search, whatever the device does:
    where it captures, what its measurements are, and when it ends. */
module CalibrationRuns {
  import opened Calibration
  import opened CalibrationSteps

  // ------------------------------------------------------------------
  // Every capture is inside the first window
  // ------------------------------------------------------------------

  predicate Inside(i: real, q: real) {
    -1.0 < i < 1.0 && -1.0 < q < 1.0
  }

  predicate AllInside(shots: seq<Shot>) {
    forall shot :: shot in shots ==> Inside(shot.i, shot.q)
  }

  lemma {:induction false} FlattenInside(pass: Pass)
    requires forall r :: 0 <= r < |pass| ==> AllInside(pass[r])
    ensures AllInside(Flatten(pass))
  {
    if pass != [] { FlattenInside(pass[..|pass| - 1]); }
  }

  lemma {:induction false} FlattenAllInside(passes: seq<Pass>)
    requires forall p :: 0 <= p < |passes| ==> AllInside(Flatten(passes[p]))
    ensures AllInside(FlattenAll(passes))
  {
    if passes != [] { FlattenAllInside(passes[..|passes| - 1]); }
  }

  /** The points of a row, all of it or its beginning. */
  lemma RowInside(steps: nat, s: State, p: nat, r: nat, row: seq<Shot>)
    requires Placed(steps, s, p) && r < steps && |row| <= steps
    requires RowOnGrid(|row|, Point(s.i, r), s.q, row)
    ensures AllInside(row)
  {
    PointInside(steps, s.i, r);
    forall c | 0 <= c < |row| ensures Inside(row[c].i, row[c].q) {
      PointInside(steps, s.q, c);
    }
  }

  lemma RowsInside(steps: nat, s: State, p: nat, pass: Pass)
    requires Placed(steps, s, p) && |pass| <= steps && RowsOnGrid(|pass|, steps, s, pass)
    ensures AllInside(Flatten(pass))
  {
    forall r | 0 <= r < |pass| ensures AllInside(pass[r]) {
      RowInside(steps, s, p, r, pass[r]);
    }
    FlattenInside(pass);
  }

  lemma {:induction false} PassOnGrid(steps: nat, goal: Goal, s: State, passes: seq<Pass>, p: nat)
    requires AllOnGrid(steps, goal, s, passes) && p < |passes|
    ensures AllOnGrid(steps, goal, s, passes[..p])
    ensures OnGrid(steps, AfterPasses(steps, goal, s, passes[..p]), passes[p])
    decreases |passes|
  {
    var front := passes[..|passes| - 1];
    if p < |front| {
      PassOnGrid(steps, goal, s, front, p);
      assert front[..p] == passes[..p];
    }
  }

  lemma PassesInside(steps: nat, goal: Goal, seed: real, passes: seq<Pass>)
    requires steps >= 1 && AllOnGrid(steps, goal, Start(steps, seed), passes)
    ensures AllInside(FlattenAll(passes))
  {
    var s := Start(steps, seed);
    forall p | 0 <= p < |passes| ensures AllInside(Flatten(passes[p])) {
      PassOnGrid(steps, goal, s, passes, p);
      WindowsStayPlaced(steps, goal, seed, passes[..p]);
      RowsInside(steps, AfterPasses(steps, goal, s, passes[..p]), p, passes[p]);
    }
    FlattenAllInside(passes);
  }

  lemma {:induction false} CleanHolds(log: seq<Capture>, n: nat)
    requires n < |log| && log[n].outcome.Level?
    ensures Shot(log[n].i, log[n].q, log[n].outcome.level) in Clean(log)
    decreases |log|
  {
    if n < |log| - 1 { CleanHolds(log[..|log| - 1], n); }
  }

  /** A failed capture is at the point of the next one, and so on to a clean one
      or to the last of all. */
  lemma {:induction false} CaptureInside(device: Device, log: seq<Capture>, n: nat)
    requires Faithful(device, log) && AllInside(Clean(log)) && n < |log|
    requires Settled(log) || Inside(log[|log| - 1].i, log[|log| - 1].q)
    ensures Inside(log[n].i, log[n].q)
    decreases |log| - n
  {
    if log[n].outcome.Level? {
      CleanHolds(log, n);
    } else if n < |log| - 1 {
      CaptureInside(device, log, n + 1);
    }
  }

  /** Every correction the search ever sets, in finished and aborted runs and for
      failed captures too, is strictly between -1 and 1. */
  lemma EveryCaptureInside(steps: nat, precision: real, goal: Goal, seed: real, device: Device,
                           run: Run, finished: bool)
    requires steps >= 1 && IsRun(steps, precision, goal, seed, device, run, finished)
    ensures forall n :: 0 <= n < |run.log| ==> Inside(run.log[n].i, run.log[n].q)
  {
    PassesInside(steps, goal, seed, run.passes);
    if !finished {
      var s := AfterPasses(steps, goal, Start(steps, seed), run.passes);
      WindowsStayPlaced(steps, goal, seed, run.passes);
      RowsInside(steps, s, |run.passes|, run.pass);
      RowInside(steps, s, |run.passes|, |run.pass|, run.row);
      PointInside(steps, s.i, |run.pass|);
      PointInside(steps, s.q, |run.row|);
    }
    forall n | 0 <= n < |run.log| ensures Inside(run.log[n].i, run.log[n].q) {
      CaptureInside(device, run.log, n);
    }
  }

  // ------------------------------------------------------------------
  // The measurements are the clean captures
  // ------------------------------------------------------------------

  lemma {:induction false} CleanFrom(log: seq<Capture>, shot: Shot)
    ensures shot in Clean(log) <==> Capture(shot.i, shot.q, Level(shot.level)) in log
  {
    if log != [] {
      CleanFrom(log[..|log| - 1], shot);
      var last := log[|log| - 1];
      assert log == log[..|log| - 1] + [last];
    }
  }

  predicate InPass(pass: Pass, shot: Shot) {
    exists r, c :: 0 <= r < |pass| && 0 <= c < |pass[r]| && pass[r][c] == shot
  }

  lemma {:induction false} InFlatten(pass: Pass, shot: Shot)
    ensures shot in Flatten(pass) <==> InPass(pass, shot)
  {
    if pass != [] {
      var front, last := pass[..|pass| - 1], pass[|pass| - 1];
      InFlatten(front, shot);
      assert forall r :: 0 <= r < |front| ==> front[r] == pass[r];
      if shot in last {
        var c :| 0 <= c < |last| && last[c] == shot;
        assert pass[|front|][c] == shot;
      }
    }
  }

  lemma MeasuredSnoc(front: seq<Pass>, last: Pass, shot: Shot)
    ensures Measured(front + [last], shot.i, shot.q, shot.level) <==>
      Measured(front, shot.i, shot.q, shot.level) || InPass(last, shot)
  {
    var passes := front + [last];
    assert shot == Shot(shot.i, shot.q, shot.level);
    if Measured(front, shot.i, shot.q, shot.level) {
      var p, r, c :| 0 <= p < |front| && 0 <= r < |front[p]| && 0 <= c < |front[p][r]| && front[p][r][c] == shot;
      assert passes[p][r][c] == shot;
    }
    if InPass(last, shot) {
      var r, c :| 0 <= r < |last| && 0 <= c < |last[r]| && last[r][c] == shot;
      assert passes[|front|][r][c] == shot;
    }
  }

  lemma {:induction false} InFlattenAll(passes: seq<Pass>, shot: Shot)
    ensures shot in FlattenAll(passes) <==> Measured(passes, shot.i, shot.q, shot.level)
  {
    if passes != [] {
      var front, last := passes[..|passes| - 1], passes[|passes| - 1];
      InFlattenAll(front, shot);
      InFlatten(last, shot);
      MeasuredSnoc(front, last, shot);
      assert passes == front + [last];
    }
  }

  /** In a finished run a level was measured at a correction exactly when a
      capture there gave it. */
  lemma MeasuredIffCaptured(steps: nat, precision: real, goal: Goal, seed: real, device: Device, run: Run,
                            i: real, q: real, level: real)
    requires IsRun(steps, precision, goal, seed, device, run, true)
    ensures Measured(run.passes, i, q, level) <==> Capture(i, q, Level(level)) in run.log
  {
    InFlattenAll(run.passes, Shot(i, q, level));
    CleanFrom(run.log, Shot(i, q, level));
  }

  // ------------------------------------------------------------------
  // A run of a device without errors
  // ------------------------------------------------------------------

  ghost predicate NeverErrs(device: Device) {
    forall n, i, q :: device(n, i, q).Level?
  }

  lemma {:induction false} NoErrors(device: Device, log: seq<Capture>)
    requires NeverErrs(device) && Faithful(device, log)
    ensures Errors(log) == 0
  {
    if log != [] {
      var last := log[|log| - 1];
      assert last.outcome == device(|log| - 1, last.i, last.q);
      NoErrors(device, log[..|log| - 1]);
    }
  }

  /** A device that never reports an error has a finished run. */
  lemma RunExists(steps: nat, precision: real, goal: Goal, seed: real, device: Device) returns (run: Run)
    requires steps >= 2 && precision > 0.0 && NeverErrs(device)
    ensures IsRun(steps, precision, goal, seed, device, run, true)
  {
    var n := SomeStop(steps, precision, goal, seed, device);
    run := RunToStop(steps, precision, goal, seed, device, n);
    NoErrors(device, run.log);
  }

  // ------------------------------------------------------------------
  // When the search ends
  // ------------------------------------------------------------------

  /** With a precision that is not positive the loop goes on after any passes. */
  lemma GuardStaysTrue(steps: nat, precision: real, goal: Goal, seed: real, passes: seq<Pass>)
    requires steps >= 1 && AllOnGrid(steps, goal, Start(steps, seed), passes) && precision <= 0.0
    ensures AfterPasses(steps, goal, Start(steps, seed), passes).i.step >= precision
  {
    WindowsStayPlaced(steps, goal, seed, passes);
    StepPositive(steps, |passes|);
  }

  /** For a device that never reports an error the search ends exactly when the
      precision asked for is positive. */
  lemma EndsWithoutErrorsIff(steps: nat, precision: real, goal: Goal, seed: real, device: Device)
    requires steps >= 2 && NeverErrs(device)
    ensures (exists run, finished :: IsRun(steps, precision, goal, seed, device, run, finished)) <==> precision > 0.0
  {
    if precision > 0.0 {
      var run := RunExists(steps, precision, goal, seed, device);
    }
    if run: Run, finished: bool :| IsRun(steps, precision, goal, seed, device, run, finished) {
      NoErrors(device, run.log);
      FinishesOnlyIfPositive(steps, precision, goal, seed, device, run, finished);
    }
  }

  const Failing: Device := (n, i, q) => TxError

  /** A device that always reports an error ends the search at any precision that
      allows a pass: after ten captures, all at the first point of a grid of five. */
  lemma FailingDeviceEndsSearch(precision: real, goal: Goal, seed: real)
    requires precision <= StepAt(NUM_SEARCH_STEPS, 0)
    ensures exists run ::
      && IsRun(NUM_SEARCH_STEPS, precision, goal, seed, Failing, run, false)
      && |run.log| == 10 && forall n :: 0 <= n < 10 ==> run.log[n] == Capture(-2.0 / 3.0, -2.0 / 3.0, TxError)
  {
    var s := Start(NUM_SEARCH_STEPS, seed);
    var failed := Capture(Point(s.i, 0), Point(s.q, 0), TxError);
    assert Times(1, s.i.step) == Times(0, s.i.step) + s.i.step;
    assert failed == Capture(-2.0 / 3.0, -2.0 / 3.0, TxError);
    var log := seq(MAX_NUM_TX_ERRORS, _ => failed);
    AllFailed(failed, MAX_NUM_TX_ERRORS);
    assert AllAbove(NUM_SEARCH_STEPS, precision, 1) by {
      assert AllAbove(NUM_SEARCH_STEPS, precision, 0);
    }
    var run := Run(log, [], [], []);
    assert IsRun(NUM_SEARCH_STEPS, precision, goal, seed, Failing, run, false);
    assert |run.log| == 10 && forall n :: 0 <= n < 10 ==> run.log[n] == failed;
  }

  lemma {:induction false} AllFailed(failed: Capture, count: nat)
    requires failed.outcome.TxError?
    ensures var log := seq(count, _ => failed); Errors(log) == count && Clean(log) == []
  {
    if count > 0 {
      AllFailed(failed, count - 1);
      assert seq(count, _ => failed)[..count - 1] == seq(count - 1, _ => failed);
    }
  }

  // ------------------------------------------------------------------
  // An IQ result that nobody measured, and one that somebody did
  // ------------------------------------------------------------------

  const Dull: Device := (n, i, q) => Level(-1.0)

  const DullButAtZero: Device := (n, i, q) => Level(if i == 0.0 && q == 0.0 then 0.0 else -1.0)

  /** In every run in which all captures show -1 the result is 0, which is kept
      in place of an uncorrected suppression below that, and was not measured. */
  lemma IqUnmeasuredExample(precision: real, initial: real) returns (run: Run)
    requires precision > 0.0 && initial < 0.0
    ensures IsRun(NUM_SEARCH_STEPS, precision, Higher, 0.0, Dull, run, true)
    ensures var b := BestIq(run.passes);
            b.level > initial && !Measured(run.passes, b.i, b.q, b.level)
  {
    run := RunExists(NUM_SEARCH_STEPS, precision, Higher, 0.0, Dull);
    forall i, q, level | Measured(run.passes, i, q, level) ensures level == -1.0 {
      MeasuredIffCaptured(NUM_SEARCH_STEPS, precision, Higher, 0.0, Dull, run, i, q, level);
      var n :| 0 <= n < |run.log| && run.log[n] == Capture(i, q, Level(level));
    }
    LevelsBelow(run.passes);
    IqKeepsUnmeasuredIff(run.passes, initial);
  }

  lemma LevelsBelow(passes: seq<Pass>)
    requires forall i, q, level :: Measured(passes, i, q, level) ==> level <= 0.0
    ensures !SomeAbove(passes, 0.0)
  {
    if SomeAbove(passes, 0.0) {
      var p, r, c :| 0 <= p < |passes| && 0 <= r < |passes[p]| && 0 <= c < |passes[p][r]|
        && passes[p][r][c].level > 0.0;
      var shot := passes[p][r][c];
      assert passes[p][r][c] == Shot(shot.i, shot.q, shot.level);
      assert Measured(passes, shot.i, shot.q, shot.level);
    }
  }

  /** The middle of the first grid is the zero correction. A run in which it
      shows 0 and everything else -1 has the same result, and that was measured. */
  lemma IqMeasuredExample(precision: real, initial: real) returns (run: Run)
    requires 0.0 < precision <= StepAt(NUM_SEARCH_STEPS, 0) && initial < 0.0
    ensures IsRun(NUM_SEARCH_STEPS, precision, Higher, 0.0, DullButAtZero, run, true)
    ensures var b := BestIq(run.passes);
            b == Best(0.0, 0.0, 0.0) && b.level > initial && Measured(run.passes, b.i, b.q, b.level)
  {
    run := RunExists(NUM_SEARCH_STEPS, precision, Higher, 0.0, DullButAtZero);
    forall i, q, level | Measured(run.passes, i, q, level)
      ensures level == if i == 0.0 && q == 0.0 then 0.0 else -1.0
    {
      MeasuredIffCaptured(NUM_SEARCH_STEPS, precision, Higher, 0.0, DullButAtZero, run, i, q, level);
      var n :| 0 <= n < |run.log| && run.log[n] == Capture(i, q, Level(level));
    }
    LevelsBelow(run.passes);
    ZeroIsTried(precision, Higher, 0.0, DullButAtZero, run);
    IqBestMeasuredIff(run.passes);
  }

  lemma ZeroIsTried(precision: real, goal: Goal, seed: real, device: Device, run: Run)
    requires precision <= StepAt(NUM_SEARCH_STEPS, 0)
    requires IsRun(NUM_SEARCH_STEPS, precision, goal, seed, device, run, true)
    ensures exists level :: Measured(run.passes, 0.0, 0.0, level)
  {
    var s := Start(NUM_SEARCH_STEPS, seed);
    assert StepAt(NUM_SEARCH_STEPS, 0) == 2.0 / 6.0;
    PassOnGrid(NUM_SEARCH_STEPS, goal, s, run.passes, 0);
    assert run.passes[..0] == [];
    TimesIsProduct(3, s.i.step);
    assert Point(s.i, 2) == 0.0 && Point(s.q, 2) == 0.0;
    var pass := run.passes[0];
    assert RowOnGrid(NUM_SEARCH_STEPS, Point(s.i, 2), s.q, pass[2]);
    var shot := pass[2][2];
    assert run.passes[0][2][2] == Shot(0.0, 0.0, shot.level);
    assert Measured(run.passes, 0.0, 0.0, shot.level);
  }
}
