/** The loops of the self-calibration programs, proved to make a run of the search. */
module CalibrationSearch {
  import opened Common
  import opened Calibration
  import opened CalibrationSteps

  lemma PointFirst(a: Axis)
    ensures Point(a, 0) == a.start + a.step
  {
    assert Times(0, a.step) == 0.0;
  }

  lemma PointNext(a: Axis, k: nat)
    ensures Point(a, k) + a.step == Point(a, k + 1)
  {}

  /** The loop guards let exactly the points of the grid through. */
  lemma PointGuard(steps: nat, a: Axis, k: nat)
    requires Spread(steps, a) && k <= steps
    ensures Point(a, k) <= a.stop - a.step <==> k < steps
  {
    if k < steps {
      PointInside(steps, a, k);
    }
  }

  /** What the loops carry about the captures so far. */
  ghost predicate Counted(device: Device, log: seq<Capture>, captures: nat, errors: nat) {
    Faithful(device, log) && captures == |log| && errors == Errors(log)
  }

  /** One capture, and whether the transmitter reported an error during it. */
  method CaptureAt(device: Device, i: real, q: real, captures0: nat, errors0: nat, ghost log0: seq<Capture>)
    returns (outcome: Outcome, captures: nat, errors: nat, ghost log: seq<Capture>)
    requires Counted(device, log0, captures0, errors0)
    requires Settled(log0) || (log0[|log0| - 1].i == i && log0[|log0| - 1].q == q)
    ensures log == log0 + [Capture(i, q, outcome)] && Counted(device, log, captures, errors)
    ensures errors == errors0 + if outcome.TxError? then 1 else 0
    ensures Clean(log) == Clean(log0) + if outcome.TxError? then [] else [Shot(i, q, outcome.level)]
  {
    outcome := device(captures0, i, q);
    captures := captures0 + 1;
    errors := if outcome.TxError? then errors0 + 1 else errors0;
    CleanSnoc(log0, Capture(i, q, outcome));
    FaithfulSnoc(device, log0, Capture(i, q, outcome));
    log := log0 + [Capture(i, q, outcome)];
  }

  /** The first points of the row are measured and the best of them is kept. */
  ghost predicate RowSoFar(goal: Goal, i: real, axis: Axis, best0: Best, clean0: seq<Shot>,
                           clean: seq<Shot>, row: seq<Shot>, best: Best) {
    RowOnGrid(|row|, i, axis, row) && clean == clean0 + row && best == BestOfRow(goal, best0, row)
  }

  lemma RowSnoc(goal: Goal, i: real, axis: Axis, best0: Best, clean0: seq<Shot>,
                clean: seq<Shot>, row: seq<Shot>, best: Best, shot: Shot)
    requires RowSoFar(goal, i, axis, best0, clean0, clean, row, best)
    requires shot.i == i && shot.q == Point(axis, |row|)
    ensures RowSoFar(goal, i, axis, best0, clean0, clean + [shot], row + [shot], Improve(goal, best, shot))
  {
    assert (row + [shot])[..|row|] == row;
  }

  /** The inner loop. An error steps the second correction back, so that the
      step at the end of the turn repeats the same point. */
  method SearchRow(steps: nat, goal: Goal, i: real, axis: Axis, device: Device, captures0: nat, errors0: nat,
                   best0: Best, ghost log0: seq<Capture>)
    returns (ok: bool, best: Best, captures: nat, errors: nat, ghost log: seq<Capture>, ghost row: seq<Shot>)
    requires Spread(steps, axis)
    requires Counted(device, log0, captures0, errors0) && Settled(log0) && errors0 < MAX_NUM_TX_ERRORS
    ensures Counted(device, log, captures, errors)
    ensures ok ==> Settled(log) && errors < MAX_NUM_TX_ERRORS
    ensures ok ==> RowOnGrid(steps, i, axis, row) && Clean(log) == Clean(log0) + row
    ensures ok ==> best == BestOfRow(goal, best0, row)
    ensures !ok ==> errors == MAX_NUM_TX_ERRORS && RowCutShort(steps, i, axis, Clean(log0), log, row)
  {
    best, captures, errors, log, row := best0, captures0, errors0, log0, [];
    PointFirst(axis);
    PointGuard(steps, axis, 0);
    var q := axis.start + axis.step;
    while q <= axis.stop - axis.step
      invariant |row| <= steps && q == Point(axis, |row|)
      invariant Counted(device, log, captures, errors) && errors < MAX_NUM_TX_ERRORS
      invariant Settled(log) || Repeating(steps, i, axis, log, row)
      invariant RowSoFar(goal, i, axis, best0, Clean(log0), Clean(log), row, best)
      decreases MAX_NUM_TX_ERRORS - errors, steps - |row|
    {
      PointGuard(steps, axis, |row|);
      PointNext(axis, |row|);
      var outcome;
      outcome, captures, errors, log := CaptureAt(device, i, q, captures, errors, log);
      if outcome.TxError? {
        q := q - axis.step;
        if errors >= MAX_NUM_TX_ERRORS {
          return false, best, captures, errors, log, row;
        }
      } else {
        ghost var shot := Shot(i, q, outcome.level);
        RowSnoc(goal, i, axis, best0, Clean(log0), Clean(log)[..|Clean(log)| - 1], row, best, shot);
        if Better(goal, outcome.level, best.level) {
          best := Best(outcome.level, i, q);
        }
        row := row + [shot];
      }
      q := q + axis.step;
    }
    PointGuard(steps, axis, |row|);
    ok := true;
  }

  lemma PassSnoc(r: nat, steps: nat, goal: Goal, s: State, before: seq<Shot>, pass: Pass, row: seq<Shot>)
    requires RowsOnGrid(r, steps, s, pass) && RowOnGrid(steps, Point(s.i, r), s.q, row)
    ensures RowsOnGrid(r + 1, steps, s, pass + [row])
    ensures before + Flatten(pass) + row == before + Flatten(pass + [row])
    ensures BestOfPass(goal, s.best, pass + [row]) == BestOfRow(goal, BestOfPass(goal, s.best, pass), row)
  {
    assert (pass + [row])[..r] == pass;
  }

  /** The two nested loops of one pass. */
  method SearchPass(steps: nat, goal: Goal, s: State, device: Device, captures0: nat, errors0: nat,
                    ghost log0: seq<Capture>)
    returns (ok: bool, best: Best, captures: nat, errors: nat,
             ghost log: seq<Capture>, ghost pass: Pass, ghost row: seq<Shot>)
    requires Spread(steps, s.i) && Spread(steps, s.q)
    requires Counted(device, log0, captures0, errors0) && Settled(log0) && errors0 < MAX_NUM_TX_ERRORS
    ensures Counted(device, log, captures, errors)
    ensures ok ==> Settled(log) && errors < MAX_NUM_TX_ERRORS
    ensures ok ==> OnGrid(steps, s, pass) && Clean(log) == Clean(log0) + Flatten(pass)
    ensures ok ==> best == BestOfPass(goal, s.best, pass)
    ensures !ok ==> errors == MAX_NUM_TX_ERRORS && PassCutShort(steps, s, Clean(log0), log, pass, row)
  {
    best, captures, errors, log, pass, row := s.best, captures0, errors0, log0, [], [];
    ghost var r := 0;
    PointFirst(s.i);
    PointGuard(steps, s.i, 0);
    var i := s.i.start + s.i.step;
    while i <= s.i.stop - s.i.step
      invariant r <= steps && i == Point(s.i, r)
      invariant Counted(device, log, captures, errors) && Settled(log) && errors < MAX_NUM_TX_ERRORS
      invariant RowsOnGrid(r, steps, s, pass) && Clean(log) == Clean(log0) + Flatten(pass)
      invariant best == BestOfPass(goal, s.best, pass)
      decreases steps - r
    {
      PointGuard(steps, s.i, r);
      PointNext(s.i, r);
      ok, best, captures, errors, log, row := SearchRow(steps, goal, i, s.q, device, captures, errors, best, log);
      if !ok {
        return;
      }
      PassSnoc(r, steps, goal, s, Clean(log0), pass, row);
      pass := pass + [row];
      r := r + 1;
      i := i + s.i.step;
    }
    PointGuard(steps, s.i, r);
    ok := true;
  }

  /** Between two passes of the search: what was measured, and the window and best
      it leads to. */
  ghost predicate AtHead(steps: nat, precision: real, goal: Goal, seed: real, device: Device,
                         s: State, log: seq<Capture>, passes: seq<Pass>) {
    && Faithful(device, log) && Settled(log) && Errors(log) < MAX_NUM_TX_ERRORS
    && Placed(steps, s, |passes|) && s == AfterPasses(steps, goal, Start(steps, seed), passes)
    && AllOnGrid(steps, goal, Start(steps, seed), passes) && Clean(log) == FlattenAll(passes)
    && AllAbove(steps, precision, |passes|)
  }

  lemma FirstHead(steps: nat, precision: real, goal: Goal, seed: real, device: Device)
    ensures AtHead(steps, precision, goal, seed, device, Start(steps, seed), [], [])
  {
    StartPlaced(steps, seed);
  }

  lemma GuardIff(steps: nat, precision: real, s: State, p: nat)
    requires Placed(steps, s, p)
    ensures s.i.step >= precision || s.q.step >= precision <==> StepAt(steps, p) >= precision
    ensures Spread(steps, s.i) && Spread(steps, s.q)
  {}

  /** A finished pass leads to the next head. */
  lemma NextHead(steps: nat, precision: real, goal: Goal, seed: real, device: Device,
                 s: State, log: seq<Capture>, passes: seq<Pass>, pass: Pass, next: seq<Capture>)
    requires steps >= 1 && AtHead(steps, precision, goal, seed, device, s, log, passes)
    requires StepAt(steps, |passes|) >= precision && OnGrid(steps, s, pass)
    requires Faithful(device, next) && Settled(next) && Errors(next) < MAX_NUM_TX_ERRORS
    requires Clean(next) == Clean(log) + Flatten(pass)
    ensures AtHead(steps, precision, goal, seed, device, AfterPass(steps, goal, s, pass), next, passes + [pass])
  {
    PassStaysPlaced(steps, goal, s, pass, |passes|);
    AfterSnoc(steps, goal, Start(steps, seed), passes, pass);
    GridSnoc(steps, goal, Start(steps, seed), passes, pass);
  }

  lemma HeadIsBetween(steps: nat, precision: real, goal: Goal, seed: real, device: Device,
                      s: State, log: seq<Capture>, passes: seq<Pass>)
    requires steps >= 1 && AtHead(steps, precision, goal, seed, device, s, log, passes)
    ensures Orderly(steps, Spots(steps, goal, seed), device, log)
    ensures Between(steps, log) && PassesOf(steps, log) == |passes|
  {
    PassesAtIff(steps, goal, seed, passes);
    PassesInOrder(steps, Spots(steps, goal, seed), passes);
  }

  /** The search does not end before any of its heads. */
  lemma HeadIsEarly(steps: nat, precision: real, goal: Goal, seed: real, device: Device,
                    s: State, log: seq<Capture>, passes: seq<Pass>, n: nat)
    requires steps >= 1 && AtHead(steps, precision, goal, seed, device, s, log, passes)
    requires Stops(steps, precision, LogAfter(steps, Spots(steps, goal, seed), device, n))
    ensures |log| <= n
  {
    HeadIsBetween(steps, precision, goal, seed, device, s, log, passes);
    BetweenIsEarly(steps, precision, goal, seed, device, log, n);
  }

  lemma HeadMoves(steps: nat, precision: real, goal: Goal, seed: real, device: Device,
                  s: State, log: seq<Capture>, passes: seq<Pass>, t: State, next: seq<Capture>, more: seq<Pass>)
    requires steps >= 1 && AtHead(steps, precision, goal, seed, device, s, log, passes)
    requires AtHead(steps, precision, goal, seed, device, t, next, more) && |passes| < |more|
    ensures |log| < |next|
  {
    HeadIsBetween(steps, precision, goal, seed, device, s, log, passes);
    HeadIsBetween(steps, precision, goal, seed, device, t, next, more);
    if |next| <= |log| {
      var at := Spots(steps, goal, seed);
      OrderlyIsAfter(steps, at, device, log);
      OrderlyIsAfter(steps, at, device, next);
      AfterPrefix(steps, at, device, |next|, |log|);
      PrefixLess(steps, log, |next|);
    }
  }

  /** The loop over the passes. It ends for every device and precision for which
      the search does. */
  method SearchPasses(steps: nat, precision: real, goal: Goal, seed: real, device: Device)
    returns (r: Result<Best, Failure>, captures: nat, ghost run: Run)
    requires steps >= 2 && Ends(steps, precision, goal, seed, device)
    ensures IsRun(steps, precision, goal, seed, device, run, r.Ok?) && captures == |run.log|
    ensures r == if r.Err? then Err(TooManyTxErrors)
                 else Ok(AfterPasses(steps, goal, Start(steps, seed), run.passes).best)
  {
    ghost var n := EndsAt(steps, precision, goal, seed, device);
    var s := Start(steps, seed);
    var errors: nat := 0;
    ghost var log, passes: seq<Pass> := [], [];
    captures := 0;
    FirstHead(steps, precision, goal, seed, device);
    while s.i.step >= precision || s.q.step >= precision
      invariant captures == |log| && errors == Errors(log)
      invariant AtHead(steps, precision, goal, seed, device, s, log, passes)
      invariant |log| <= n
      decreases n - |log|
    {
      GuardIff(steps, precision, s, |passes|);
      ghost var log0 := log;
      var ok, best;
      ghost var pass, row;
      ok, best, captures, errors, log, pass, row := SearchPass(steps, goal, s, device, captures, errors, log);
      if !ok {
        return Err(TooManyTxErrors), captures, Run(log, passes, pass, row);
      }
      ghost var next := AfterPass(steps, goal, s, pass);
      NextHead(steps, precision, goal, seed, device, s, log0, passes, pass, log);
      HeadMoves(steps, precision, goal, seed, device, s, log0, passes, next, log, passes + [pass]);
      HeadIsEarly(steps, precision, goal, seed, device, next, log, passes + [pass], n);
      s := State(Narrow(steps, s.i, best.i), Narrow(steps, s.q, best.q), best);
      passes := passes + [pass];
    }
    GuardIff(steps, precision, s, |passes|);
    return Ok(s.best), captures, Run(log, passes, [], []);
  }

  /** The whole search at one frequency. Whatever errors the transmitter reports,
      either there are MAX_NUM_TX_ERRORS of them and it is aborted, or the result
      is that of the search without errors on the clean measurements. No capture
      is made beyond the measurements and the errors. */
  method Search(steps: nat, precision: real, goal: Goal, seed: real, device: Device)
    returns (r: Result<Best, Failure>, captures: nat)
    requires steps >= 2 && Ends(steps, precision, goal, seed, device)
    ensures exists run ::
      IsRun(steps, precision, goal, seed, device, run, r.Ok?) && IsOutcome(steps, goal, seed, run, r, captures)
  {
    ghost var run;
    r, captures, run := SearchPasses(steps, precision, goal, seed, device);
    CapturesOfRun(steps, precision, goal, seed, device, run, r.Ok?);
  }

  // ------------------------------------------------------------------
  // The three programs
  // ------------------------------------------------------------------

  /** A correction that is kept, with what it was and how much it gained. */
  datatype Kept = Kept(i: real, q: real, best: real, delta: real)

  /** TX DC offset: starts from the uncorrected level and keeps what is lower. */
  method CalibrateDcOffset(precision: real, initial: real, device: Device) returns (r: Result<Option<Kept>, Failure>)
    requires Ends(NUM_SEARCH_STEPS, precision, Lower, initial, device)
    ensures exists run ::
      && IsRun(NUM_SEARCH_STEPS, precision, Lower, initial, device, run, r.Ok?)
      && r == if r.Err? then Err(TooManyTxErrors) else
           var best := AfterPasses(NUM_SEARCH_STEPS, Lower, Start(NUM_SEARCH_STEPS, initial), run.passes).best;
           Ok(if best.level < initial then Some(Kept(best.i, best.q, best.level, initial - best.level)) else None)
  {
    var found, _ := Search(NUM_SEARCH_STEPS, precision, Lower, initial, device);
    if found.Err? {
      return Err(found.error);
    }
    var best := found.value;
    if best.level < initial {
      return Ok(Some(Kept(best.i, best.q, best.level, initial - best.level)));
    }
    return Ok(None);
  }

  /** RX and TX IQ balance: start from zero, not from the uncorrected
      suppression, and keep what is higher than that. */
  method CalibrateIqBalance(precision: real, initial: real, device: Device) returns (r: Result<Option<Kept>, Failure>)
    requires Ends(NUM_SEARCH_STEPS, precision, Higher, 0.0, device)
    ensures exists run ::
      && IsRun(NUM_SEARCH_STEPS, precision, Higher, 0.0, device, run, r.Ok?)
      && r == if r.Err? then Err(TooManyTxErrors) else
           var best := AfterPasses(NUM_SEARCH_STEPS, Higher, Start(NUM_SEARCH_STEPS, 0.0), run.passes).best;
           Ok(if best.level > initial then Some(Kept(best.i, best.q, best.level, best.level - initial)) else None)
  {
    var found, _ := Search(NUM_SEARCH_STEPS, precision, Higher, 0.0, device);
    if found.Err? {
      return Err(found.error);
    }
    var best := found.value;
    if best.level > initial {
      return Ok(Some(Kept(best.i, best.q, best.level, best.level - initial)));
    }
    return Ok(None);
  }
}
