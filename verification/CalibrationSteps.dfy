/** The search as one capture after another. A device determines every capture, so
    it has one run at most, and whether it has one is decided by the precision and
    by the errors it reports. */
module CalibrationSteps {
  import opened Common
  import opened Calibration

  // ------------------------------------------------------------------
  // Where the next capture is made
  // ------------------------------------------------------------------

  /** The measurements so far, sorted into passes and rows. */
  datatype Grid = Grid(passes: seq<Pass>, pass: Pass, row: seq<Shot>)

  /** A measurement completes the row, the pass, or neither. */
  function Add(steps: nat, g: Grid, shot: Shot): Grid {
    AddRow(steps, g.passes, g.pass, g.row + [shot])
  }

  function AddRow(steps: nat, passes: seq<Pass>, pass: Pass, row: seq<Shot>): Grid {
    if |row| < steps then Grid(passes, pass, row) else AddPass(steps, passes, pass + [row])
  }

  function AddPass(steps: nat, passes: seq<Pass>, pass: Pass): Grid {
    if |pass| < steps then Grid(passes, pass, []) else Grid(passes + [pass], [], [])
  }

  function Place(steps: nat, shots: seq<Shot>): Grid {
    if shots == [] then Grid([], [], [])
    else Add(steps, Place(steps, shots[..|shots| - 1]), shots[|shots| - 1])
  }

  /** The correction for each place: after some passes, a row and a column. */
  type Corrections = (seq<Pass>, nat, nat) -> (real, real)

  function At(at: Corrections, g: Grid): (real, real) {
    at(g.passes, |g.pass|, |g.row|)
  }

  /** Every measurement was made at the correction whose turn it was. */
  predicate InOrder(steps: nat, at: Corrections, shots: seq<Shot>) {
    shots != [] ==>
      var front, last := shots[..|shots| - 1], shots[|shots| - 1];
      InOrder(steps, at, front) && At(at, Place(steps, front)) == (last.i, last.q)
  }

  lemma PlaceSnoc(steps: nat, at: Corrections, shots: seq<Shot>, shot: Shot)
    ensures Place(steps, shots + [shot]) == Add(steps, Place(steps, shots), shot)
    ensures InOrder(steps, at, shots + [shot]) <==>
      InOrder(steps, at, shots) && At(at, Place(steps, shots)) == (shot.i, shot.q)
  {
    assert (shots + [shot])[..|shots|] == shots;
  }

  // ------------------------------------------------------------------
  // Rows and passes
  // ------------------------------------------------------------------

  predicate RowAt(at: Corrections, passes: seq<Pass>, r: nat, row: seq<Shot>) {
    forall c :: 0 <= c < |row| ==> at(passes, r, c) == (row[c].i, row[c].q)
  }

  predicate PassAt(steps: nat, at: Corrections, passes: seq<Pass>, pass: Pass) {
    forall r :: 0 <= r < |pass| ==> |pass[r]| == steps && RowAt(at, passes, r, pass[r])
  }

  predicate PassesAt(steps: nat, at: Corrections, passes: seq<Pass>) {
    passes != [] ==>
      var front, last := passes[..|passes| - 1], passes[|passes| - 1];
      PassesAt(steps, at, front) && |last| == steps && PassAt(steps, at, front, last)
  }

  /** Passes, and part of a pass and of a row, at their corrections. */
  predicate GridAt(steps: nat, at: Corrections, g: Grid) {
    && PassesAt(steps, at, g.passes)
    && |g.pass| < steps && PassAt(steps, at, g.passes, g.pass)
    && |g.row| < steps && RowAt(at, g.passes, |g.pass|, g.row)
  }

  function Shots(g: Grid): seq<Shot> {
    FlattenAll(g.passes) + Flatten(g.pass) + g.row
  }

  lemma SplitLast<T>(before: seq<T>, s: seq<T>)
    requires s != []
    ensures before + s == before + s[..|s| - 1] + [s[|s| - 1]]
    ensures s[..|s| - 1] + [s[|s| - 1]] == s
  {
    assert s[..|s| - 1] + [s[|s| - 1]] == s;
  }

  lemma {:induction false} RowInOrder(steps: nat, at: Corrections, before: seq<Shot>,
                                      passes: seq<Pass>, pass: Pass, row: seq<Shot>)
    requires InOrder(steps, at, before) && Place(steps, before) == Grid(passes, pass, [])
    requires 1 <= steps && |row| <= steps && RowAt(at, passes, |pass|, row)
    ensures InOrder(steps, at, before + row) && Place(steps, before + row) == AddRow(steps, passes, pass, row)
    decreases |row|
  {
    if row == [] {
      assert before + row == before;
    } else {
      var front, last := row[..|row| - 1], row[|row| - 1];
      RowInOrder(steps, at, before, passes, pass, front);
      PlaceSnoc(steps, at, before + front, last);
      SplitLast(before, row);
    }
  }

  lemma FlattenLast(pass: Pass)
    requires pass != []
    ensures Flatten(pass) == Flatten(pass[..|pass| - 1]) + pass[|pass| - 1]
  {}

  lemma FlattenAllLast(passes: seq<Pass>)
    requires passes != []
    ensures FlattenAll(passes) == FlattenAll(passes[..|passes| - 1]) + Flatten(passes[|passes| - 1])
  {}

  lemma {:induction false} PassInOrder(steps: nat, at: Corrections, before: seq<Shot>, passes: seq<Pass>, pass: Pass)
    requires InOrder(steps, at, before) && Place(steps, before) == Grid(passes, [], [])
    requires 1 <= steps && |pass| <= steps && PassAt(steps, at, passes, pass)
    ensures InOrder(steps, at, before + Flatten(pass))
    ensures Place(steps, before + Flatten(pass)) == AddPass(steps, passes, pass)
    decreases |pass|
  {
    if pass == [] {
      assert before + Flatten(pass) == before;
    } else {
      var front, last := pass[..|pass| - 1], pass[|pass| - 1];
      PassInOrder(steps, at, before, passes, front);
      RowInOrder(steps, at, before + Flatten(front), passes, front, last);
      FlattenLast(pass);
      Regroup(before, Flatten(front), last);
      SplitLast([], pass);
    }
  }

  lemma {:induction false} PassesInOrder(steps: nat, at: Corrections, passes: seq<Pass>)
    requires 1 <= steps && PassesAt(steps, at, passes)
    ensures InOrder(steps, at, FlattenAll(passes)) && Place(steps, FlattenAll(passes)) == Grid(passes, [], [])
    decreases |passes|
  {
    if passes != [] {
      var front, last := passes[..|passes| - 1], passes[|passes| - 1];
      PassesInOrder(steps, at, front);
      PassInOrder(steps, at, FlattenAll(front), front, last);
      FlattenAllLast(passes);
      SplitLast([], passes);
    }
  }

  /** Measurements at their corrections are in order and are placed where they are. */
  lemma GridInOrder(steps: nat, at: Corrections, g: Grid)
    requires GridAt(steps, at, g)
    ensures InOrder(steps, at, Shots(g)) && Place(steps, Shots(g)) == g
  {
    PassesInOrder(steps, at, g.passes);
    PassInOrder(steps, at, FlattenAll(g.passes), g.passes, g.pass);
    RowInOrder(steps, at, FlattenAll(g.passes) + Flatten(g.pass), g.passes, g.pass, g.row);
  }

  lemma AddPassAt(steps: nat, at: Corrections, passes: seq<Pass>, pass: Pass)
    requires 1 <= steps && PassesAt(steps, at, passes) && |pass| <= steps && PassAt(steps, at, passes, pass)
    ensures GridAt(steps, at, AddPass(steps, passes, pass))
    ensures Shots(AddPass(steps, passes, pass)) == FlattenAll(passes) + Flatten(pass)
  {
    assert (passes + [pass])[..|passes|] == passes;
  }

  lemma AddRowAt(steps: nat, at: Corrections, passes: seq<Pass>, pass: Pass, row: seq<Shot>)
    requires 1 <= steps && PassesAt(steps, at, passes) && |pass| < steps && PassAt(steps, at, passes, pass)
    requires |row| <= steps && RowAt(at, passes, |pass|, row)
    ensures GridAt(steps, at, AddRow(steps, passes, pass, row))
    ensures Shots(AddRow(steps, passes, pass, row)) == FlattenAll(passes) + Flatten(pass) + row
  {
    if |row| == steps {
      AddPassAt(steps, at, passes, pass + [row]);
      assert (pass + [row])[..|pass|] == pass;
      assert FlattenAll(passes) + (Flatten(pass) + row) == FlattenAll(passes) + Flatten(pass) + row;
    }
  }

  /** And the other way round. */
  lemma {:induction false} PlaceIsGrid(steps: nat, at: Corrections, shots: seq<Shot>)
    requires 1 <= steps && InOrder(steps, at, shots)
    ensures GridAt(steps, at, Place(steps, shots)) && Shots(Place(steps, shots)) == shots
  {
    if shots != [] {
      var front, last := shots[..|shots| - 1], shots[|shots| - 1];
      PlaceIsGrid(steps, at, front);
      var g := Place(steps, front);
      AddRowAt(steps, at, g.passes, g.pass, g.row + [last]);
      Regroup(FlattenAll(g.passes) + Flatten(g.pass), g.row, [last]);
      SplitLast([], shots);
    }
  }

  // ------------------------------------------------------------------
  // The captures a device gives
  // ------------------------------------------------------------------

  /** The first `n` captures, however many errors there are among them. */
  function LogAfter(steps: nat, at: Corrections, device: Device, n: nat): seq<Capture> {
    if n == 0 then []
    else
      var log := LogAfter(steps, at, device, n - 1);
      log + [NextCapture(steps, at, device, log)]
  }

  function NextCapture(steps: nat, at: Corrections, device: Device, log: seq<Capture>): Capture {
    var (i, q) := At(at, Place(steps, Clean(log)));
    Capture(i, q, device(|log|, i, q))
  }

  /** The measurements are in order and a failed last capture was made where the
      next one will be. */
  ghost predicate Orderly(steps: nat, at: Corrections, device: Device, log: seq<Capture>) {
    && Faithful(device, log) && InOrder(steps, at, Clean(log))
    && (Settled(log) || IsNext(steps, at, log, log[|log| - 1]))
  }

  predicate IsNext(steps: nat, at: Corrections, log: seq<Capture>, c: Capture) {
    At(at, Place(steps, Clean(log))) == (c.i, c.q)
  }

  lemma CleanAdd(log: seq<Capture>, c: Capture)
    ensures c.outcome.TxError? ==> Clean(log + [c]) == Clean(log)
    ensures c.outcome.Level? ==> Clean(log + [c]) == Clean(log) + [Shot(c.i, c.q, c.outcome.level)]
    ensures Errors(log + [c]) == Errors(log) + if c.outcome.TxError? then 1 else 0
    ensures Settled(log + [c]) <==> c.outcome.Level?
  {
    CleanSnoc(log, c);
    assert Clean(log) + [] == Clean(log);
  }

  lemma OrderlySnoc(steps: nat, at: Corrections, device: Device, log: seq<Capture>, c: Capture)
    requires Orderly(steps, at, device, log) && IsNext(steps, at, log, c) && c.outcome == device(|log|, c.i, c.q)
    ensures Orderly(steps, at, device, log + [c])
  {
    FaithfulSnoc(device, log, c);
    CleanAdd(log, c);
    if c.outcome.Level? {
      PlaceSnoc(steps, at, Clean(log), Shot(c.i, c.q, c.outcome.level));
    }
  }

  lemma NextOrderly(steps: nat, at: Corrections, device: Device, log: seq<Capture>)
    requires Orderly(steps, at, device, log)
    ensures Orderly(steps, at, device, log + [NextCapture(steps, at, device, log)])
  {
    OrderlySnoc(steps, at, device, log, NextCapture(steps, at, device, log));
  }

  lemma NoneOrderly(steps: nat, at: Corrections, device: Device)
    ensures Orderly(steps, at, device, [])
  {}

  lemma {:induction false} AfterIsOrderly(steps: nat, at: Corrections, device: Device, n: nat)
    ensures Orderly(steps, at, device, LogAfter(steps, at, device, n))
    ensures |LogAfter(steps, at, device, n)| == n
  {
    if n == 0 {
      NoneOrderly(steps, at, device);
    } else {
      AfterIsOrderly(steps, at, device, n - 1);
      NextOrderly(steps, at, device, LogAfter(steps, at, device, n - 1));
    }
  }

  lemma OrderlyFront(steps: nat, at: Corrections, device: Device, log: seq<Capture>)
    requires Orderly(steps, at, device, log) && log != []
    ensures var front, last := log[..|log| - 1], log[|log| - 1];
            Orderly(steps, at, device, front) && last == NextCapture(steps, at, device, front)
  {
    var front, last := log[..|log| - 1], log[|log| - 1];
    SplitLast([], log);
    CleanAdd(front, last);
    if last.outcome.Level? {
      PlaceSnoc(steps, at, Clean(front), Shot(last.i, last.q, last.outcome.level));
    }
    assert IsNext(steps, at, front, last);
    assert Faithful(device, front);
    assert !Settled(front) ==> front[|front| - 1] == log[|log| - 2] && last == log[|log| - 2 + 1];
  }

  /** So the captures of a device are determined. */
  lemma {:induction false} OrderlyIsAfter(steps: nat, at: Corrections, device: Device, log: seq<Capture>)
    requires Orderly(steps, at, device, log)
    ensures log == LogAfter(steps, at, device, |log|)
  {
    if log != [] {
      OrderlyFront(steps, at, device, log);
      OrderlyIsAfter(steps, at, device, log[..|log| - 1]);
      SplitLast([], log);
    }
  }

  lemma {:induction false} AfterPrefix(steps: nat, at: Corrections, device: Device, m: nat, n: nat)
    requires m <= n
    ensures |LogAfter(steps, at, device, n)| == n
    ensures LogAfter(steps, at, device, n)[..m] == LogAfter(steps, at, device, m)
    decreases n
  {
    AfterIsOrderly(steps, at, device, n);
    if m < n {
      AfterPrefix(steps, at, device, m, n - 1);
      var log := LogAfter(steps, at, device, n - 1);
      var next := NextCapture(steps, at, device, log);
      assert (log + [next])[..m] == log[..m];
    }
  }

  // ------------------------------------------------------------------
  // Where a search stops
  // ------------------------------------------------------------------

  /** No pass is under way and no capture is to be repeated. */
  predicate Between(steps: nat, log: seq<Capture>) {
    var g := Place(steps, Clean(log));
    g.pass == [] && g.row == [] && Settled(log)
  }

  function PassesOf(steps: nat, log: seq<Capture>): nat {
    |Place(steps, Clean(log)).passes|
  }

  predicate Stops(steps: nat, precision: real, log: seq<Capture>) {
    || Errors(log) >= MAX_NUM_TX_ERRORS
    || (Between(steps, log) && StepAt(steps, PassesOf(steps, log)) < precision)
  }

  predicate GoesOn(steps: nat, precision: real, log: seq<Capture>) {
    forall m :: 0 <= m < |log| ==> !Stops(steps, precision, log[..m])
  }

  lemma AddPasses(steps: nat, g: Grid, shot: Shot)
    ensures var h := Add(steps, g, shot);
            |h.passes| == |g.passes| || (|h.passes| == |g.passes| + 1 && h.pass == [] && h.row == [])
  {}

  lemma CaptureAdds(steps: nat, log: seq<Capture>, c: Capture)
    ensures c.outcome.TxError? ==>
      PassesOf(steps, log + [c]) == PassesOf(steps, log) && !Between(steps, log + [c])
    ensures c.outcome.Level? ==>
      || PassesOf(steps, log + [c]) == PassesOf(steps, log)
      || (PassesOf(steps, log + [c]) == PassesOf(steps, log) + 1 && Between(steps, log + [c]))
  {
    CleanAdd(log, c);
    if c.outcome.Level? {
      var shot := Shot(c.i, c.q, c.outcome.level);
      PlaceSnoc(steps, (_, _, _) => (0.0, 0.0), Clean(log), shot);
      AddPasses(steps, Place(steps, Clean(log)), shot);
    }
  }

  /** While it goes on the step of every pass begun is above the precision. */
  lemma {:induction false} AboveSoFar(steps: nat, precision: real, log: seq<Capture>)
    requires GoesOn(steps, precision, log)
    ensures AllAbove(steps, precision, PassesOf(steps, log))
    ensures !Between(steps, log) ==> StepAt(steps, PassesOf(steps, log)) >= precision
  {
    if log != [] {
      var front, last := log[..|log| - 1], log[|log| - 1];
      assert forall m :: 0 <= m < |front| ==> front[..m] == log[..m];
      AboveSoFar(steps, precision, front);
      assert !Stops(steps, precision, front);
      SplitLast([], log);
      CaptureAdds(steps, front, last);
    }
  }

  lemma {:induction false} PrefixLess(steps: nat, log: seq<Capture>, m: nat)
    requires m <= |log|
    ensures PassesOf(steps, log[..m]) <= PassesOf(steps, log) && Errors(log[..m]) <= Errors(log)
    ensures |Clean(log[..m])| <= |Clean(log)|
    ensures m < |log| && Settled(log) ==> |Clean(log[..m])| < |Clean(log)|
    ensures m < |log| && !Settled(log) ==> Errors(log[..m]) < Errors(log)
    decreases |log|
  {
    if m < |log| {
      var front, last := log[..|log| - 1], log[|log| - 1];
      PrefixLess(steps, front, m);
      assert front[..m] == log[..m];
      SplitLast([], log);
      CaptureAdds(steps, front, last);
      CleanAdd(front, last);
    } else {
      assert log[..m] == log;
    }
  }

  // ------------------------------------------------------------------
  // The search
  // ------------------------------------------------------------------

  /** The corrections of the search: the points of the windows the passes lead to. */
  function Spots(steps: nat, goal: Goal, seed: real): Corrections {
    (passes: seq<Pass>, r: nat, c: nat) =>
      var s := AfterPasses(steps, goal, Start(steps, seed), passes);
      (Point(s.i, r), Point(s.q, c))
  }

  lemma RowAtIff(steps: nat, goal: Goal, seed: real, passes: seq<Pass>, r: nat, row: seq<Shot>)
    ensures var s := AfterPasses(steps, goal, Start(steps, seed), passes);
            RowAt(Spots(steps, goal, seed), passes, r, row) <==> RowOnGrid(|row|, Point(s.i, r), s.q, row)
  {}

  lemma PassAtIff(steps: nat, goal: Goal, seed: real, passes: seq<Pass>, pass: Pass)
    ensures PassAt(steps, Spots(steps, goal, seed), passes, pass)
            <==> RowsOnGrid(|pass|, steps, AfterPasses(steps, goal, Start(steps, seed), passes), pass)
  {
    forall r | 0 <= r < |pass| { RowAtIff(steps, goal, seed, passes, r, pass[r]); }
  }

  lemma {:induction false} PassesAtIff(steps: nat, goal: Goal, seed: real, passes: seq<Pass>)
    ensures PassesAt(steps, Spots(steps, goal, seed), passes) <==> AllOnGrid(steps, goal, Start(steps, seed), passes)
    decreases |passes|
  {
    if passes != [] {
      var front, last := passes[..|passes| - 1], passes[|passes| - 1];
      PassesAtIff(steps, goal, seed, front);
      PassAtIff(steps, goal, seed, front, last);
    }
  }

  function GridOf(run: Run): Grid {
    Grid(run.passes, run.pass, run.row)
  }

  lemma RunIsGrid(steps: nat, precision: real, goal: Goal, seed: real, device: Device, run: Run, finished: bool)
    requires steps >= 1 && IsRun(steps, precision, goal, seed, device, run, finished)
    ensures GridAt(steps, Spots(steps, goal, seed), GridOf(run)) && Clean(run.log) == Shots(GridOf(run))
  {
    PassesAtIff(steps, goal, seed, run.passes);
    PassAtIff(steps, goal, seed, run.passes, run.pass);
    RowAtIff(steps, goal, seed, run.passes, |run.pass|, run.row);
    if finished {
      assert Flatten([]) == [] && FlattenAll(run.passes) + [] + [] == FlattenAll(run.passes);
    }
  }

  /** The captures of a run are those of its device, sorted as the run says. */
  lemma RunIsOrderly(steps: nat, precision: real, goal: Goal, seed: real, device: Device, run: Run, finished: bool)
    requires steps >= 1 && IsRun(steps, precision, goal, seed, device, run, finished)
    ensures Orderly(steps, Spots(steps, goal, seed), device, run.log)
    ensures Place(steps, Clean(run.log)) == GridOf(run)
  {
    RunIsGrid(steps, precision, goal, seed, device, run, finished);
    GridInOrder(steps, Spots(steps, goal, seed), GridOf(run));
  }

  lemma {:induction false} AboveMeans(steps: nat, precision: real, p: nat, m: nat)
    requires AllAbove(steps, precision, p) && m < p
    ensures StepAt(steps, m) >= precision
  {
    if m < p - 1 { AboveMeans(steps, precision, p - 1, m); }
  }

  lemma MeasurementsOf(steps: nat, goal: Goal, seed: real, g: Grid)
    requires steps >= 1 && GridAt(steps, Spots(steps, goal, seed), g)
    ensures |Shots(g)| == |g.passes| * (steps * steps) + |g.pass| * steps + |g.row|
    ensures |g.pass| * steps + |g.row| < steps * steps
  {
    var s := Start(steps, seed);
    PassesAtIff(steps, goal, seed, g.passes);
    PassAtIff(steps, goal, seed, g.passes, g.pass);
    MeasurementsPerPass(steps, goal, s, g.passes);
    MeasurementsPerRow(steps, AfterPasses(steps, goal, s, g.passes), g.pass, |g.pass|);
    assert g.pass[..|g.pass|] == g.pass;
    PartOfPass(steps, |g.pass|, |g.row|);
  }

  lemma BetweenCount(steps: nat, goal: Goal, seed: real, device: Device, log: seq<Capture>)
    requires steps >= 1 && Orderly(steps, Spots(steps, goal, seed), device, log) && Between(steps, log)
    ensures |Clean(log)| == PassesOf(steps, log) * (steps * steps)
  {
    PlaceIsGrid(steps, Spots(steps, goal, seed), Clean(log));
    MeasurementsOf(steps, goal, seed, Place(steps, Clean(log)));
  }

  lemma PrefixOrderly(steps: nat, at: Corrections, device: Device, log: seq<Capture>, m: nat)
    requires Orderly(steps, at, device, log) && m <= |log|
    ensures Orderly(steps, at, device, log[..m])
  {
    OrderlyIsAfter(steps, at, device, log);
    AfterPrefix(steps, at, device, m, |log|);
    AfterIsOrderly(steps, at, device, m);
  }

  /** A run did not stop before its end, where it does. */
  lemma RunGoesOn(steps: nat, precision: real, goal: Goal, seed: real, device: Device, run: Run, finished: bool)
    requires steps >= 1 && IsRun(steps, precision, goal, seed, device, run, finished)
    ensures GoesOn(steps, precision, run.log) && Stops(steps, precision, run.log)
    ensures finished <==> Errors(run.log) < MAX_NUM_TX_ERRORS
  {
    RunIsOrderly(steps, precision, goal, seed, device, run, finished);
    forall m | 0 <= m < |run.log| ensures !Stops(steps, precision, run.log[..m]) {
      RunNotStopped(steps, precision, goal, seed, device, run, finished, m);
    }
  }

  lemma RunNotStopped(steps: nat, precision: real, goal: Goal, seed: real, device: Device,
                      run: Run, finished: bool, m: nat)
    requires steps >= 1 && IsRun(steps, precision, goal, seed, device, run, finished) && m < |run.log|
    requires Orderly(steps, Spots(steps, goal, seed), device, run.log)
    requires Place(steps, Clean(run.log)) == GridOf(run)
    ensures !Stops(steps, precision, run.log[..m])
  {
    if finished {
      NotStoppedBefore(steps, precision, goal, seed, device, run.log, m);
    } else {
      var p := PassesOf(steps, run.log[..m]);
      PrefixLess(steps, run.log, m);
      AboveMeans(steps, precision, |run.passes| + 1, p);
    }
  }

  /** Between two passes, and with all steps so far above the precision, nothing has
      stopped before. */
  lemma NotStoppedBefore(steps: nat, precision: real, goal: Goal, seed: real, device: Device, log: seq<Capture>, m: nat)
    requires steps >= 1 && Orderly(steps, Spots(steps, goal, seed), device, log) && Between(steps, log)
    requires Errors(log) < MAX_NUM_TX_ERRORS && AllAbove(steps, precision, PassesOf(steps, log)) && m < |log|
    ensures !Stops(steps, precision, log[..m])
  {
    var early := log[..m];
    var p := PassesOf(steps, early);
    PrefixLess(steps, log, m);
    if Between(steps, early) && StepAt(steps, p) < precision {
      if p == PassesOf(steps, log) {
        PrefixOrderly(steps, Spots(steps, goal, seed), device, log, m);
        BetweenCount(steps, goal, seed, device, early);
        BetweenCount(steps, goal, seed, device, log);
      } else {
        AboveMeans(steps, precision, PassesOf(steps, log), p);
      }
    }
  }

  /** So it is no longer than the search, and shorter if another pass follows. */
  lemma BetweenIsEarly(steps: nat, precision: real, goal: Goal, seed: real, device: Device, log: seq<Capture>, n: nat)
    requires steps >= 1 && Orderly(steps, Spots(steps, goal, seed), device, log) && Between(steps, log)
    requires Errors(log) < MAX_NUM_TX_ERRORS && AllAbove(steps, precision, PassesOf(steps, log))
    requires Stops(steps, precision, LogAfter(steps, Spots(steps, goal, seed), device, n))
    ensures |log| <= n
    ensures StepAt(steps, PassesOf(steps, log)) >= precision ==> |log| < n
  {
    var at := Spots(steps, goal, seed);
    OrderlyIsAfter(steps, at, device, log);
    if n < |log| {
      AfterPrefix(steps, at, device, n, |log|);
      NotStoppedBefore(steps, precision, goal, seed, device, log, n);
    }
  }

  function RunOf(steps: nat, log: seq<Capture>): Run {
    var g := Place(steps, Clean(log));
    Run(log, g.passes, g.pass, g.row)
  }

  lemma ErrorsAtStop(steps: nat, precision: real, log: seq<Capture>)
    requires GoesOn(steps, precision, log) && Errors(log) >= MAX_NUM_TX_ERRORS
    ensures Errors(log) == MAX_NUM_TX_ERRORS && !Settled(log)
  {
    var front, last := log[..|log| - 1], log[|log| - 1];
    assert !Stops(steps, precision, front);
    SplitLast([], log);
    CleanAdd(front, last);
  }

  lemma PlacedOnGrid(steps: nat, goal: Goal, seed: real, device: Device, log: seq<Capture>)
    requires steps >= 1 && Orderly(steps, Spots(steps, goal, seed), device, log)
    ensures var run := RunOf(steps, log);
            var s := AfterPasses(steps, goal, Start(steps, seed), run.passes);
            && AllOnGrid(steps, goal, Start(steps, seed), run.passes)
            && |run.pass| < steps && RowsOnGrid(|run.pass|, steps, s, run.pass)
            && |run.row| < steps && RowOnGrid(|run.row|, Point(s.i, |run.pass|), s.q, run.row)
            && Clean(log) == FlattenAll(run.passes) + Flatten(run.pass) + run.row
            && (Settled(log) || Repeating(steps, Point(s.i, |run.pass|), s.q, log, run.row))
  {
    var g := Place(steps, Clean(log));
    PlaceIsGrid(steps, Spots(steps, goal, seed), Clean(log));
    PassesAtIff(steps, goal, seed, g.passes);
    PassAtIff(steps, goal, seed, g.passes, g.pass);
    RowAtIff(steps, goal, seed, g.passes, |g.pass|, g.row);
  }

  /** And captures in order that stop there and not before are those of a run. */
  lemma StopIsRun(steps: nat, precision: real, goal: Goal, seed: real, device: Device, log: seq<Capture>)
    requires steps >= 1 && Orderly(steps, Spots(steps, goal, seed), device, log)
    requires GoesOn(steps, precision, log) && Stops(steps, precision, log)
    ensures IsRun(steps, precision, goal, seed, device, RunOf(steps, log), Errors(log) < MAX_NUM_TX_ERRORS)
  {
    PlacedOnGrid(steps, goal, seed, device, log);
    AboveSoFar(steps, precision, log);
    if Errors(log) >= MAX_NUM_TX_ERRORS {
      ErrorsAtStop(steps, precision, log);
    } else {
      var passes := RunOf(steps, log).passes;
      assert Flatten([]) == [] && FlattenAll(passes) + [] + [] == FlattenAll(passes);
    }
  }

  // ------------------------------------------------------------------
  // One run at most, and when there is one
  // ------------------------------------------------------------------

  /** All runs of a device agree. */
  lemma RunsAgree(steps: nat, precision: real, goal: Goal, seed: real, device: Device,
                  run: Run, finished: bool, other: Run, otherFinished: bool)
    requires steps >= 1
    requires IsRun(steps, precision, goal, seed, device, run, finished)
    requires IsRun(steps, precision, goal, seed, device, other, otherFinished)
    ensures run == other && finished == otherFinished
  {
    var at := Spots(steps, goal, seed);
    RunIsOrderly(steps, precision, goal, seed, device, run, finished);
    RunIsOrderly(steps, precision, goal, seed, device, other, otherFinished);
    RunGoesOn(steps, precision, goal, seed, device, run, finished);
    RunGoesOn(steps, precision, goal, seed, device, other, otherFinished);
    OrderlyIsAfter(steps, at, device, run.log);
    OrderlyIsAfter(steps, at, device, other.log);
    var m, n := |run.log|, |other.log|;
    if m < n {
      AfterPrefix(steps, at, device, m, n);
    } else if n < m {
      AfterPrefix(steps, at, device, n, m);
    }
  }

  lemma {:induction false} FirstStop(steps: nat, precision: real, at: Corrections, device: Device, m: nat, n: nat)
    returns (k: nat)
    requires m <= n && Stops(steps, precision, LogAfter(steps, at, device, n))
    requires GoesOn(steps, precision, LogAfter(steps, at, device, m))
    ensures m <= k <= n && Stops(steps, precision, LogAfter(steps, at, device, k))
    ensures GoesOn(steps, precision, LogAfter(steps, at, device, k))
    decreases n - m
  {
    k := m;
    var log := LogAfter(steps, at, device, m);
    if !Stops(steps, precision, log) {
      var next := LogAfter(steps, at, device, m + 1);
      AfterPrefix(steps, at, device, m, m + 1);
      forall j | 0 <= j < |next| ensures !Stops(steps, precision, next[..j]) {
        assert j < m ==> next[..j] == log[..j];
      }
      k := FirstStop(steps, precision, at, device, m + 1, n);
    }
  }

  /** A run of the search to its first stop. */
  lemma RunToStop(steps: nat, precision: real, goal: Goal, seed: real, device: Device, n: nat) returns (run: Run)
    requires steps >= 1 && Stops(steps, precision, LogAfter(steps, Spots(steps, goal, seed), device, n))
    ensures IsRun(steps, precision, goal, seed, device, run, Errors(run.log) < MAX_NUM_TX_ERRORS)
  {
    var at := Spots(steps, goal, seed);
    var k := FirstStop(steps, precision, at, device, 0, n);
    AfterIsOrderly(steps, at, device, k);
    StopIsRun(steps, precision, goal, seed, device, LogAfter(steps, at, device, k));
    run := RunOf(steps, LogAfter(steps, at, device, k));
  }

  /** What has not stopped is on a pass above the precision. */
  lemma NotStoppedIsAbove(steps: nat, precision: real, log: seq<Capture>, bound: nat)
    requires GoesOn(steps, precision, log) && !Stops(steps, precision, log) && StepAt(steps, bound) < precision
    ensures PassesOf(steps, log) < bound
  {
    var p := PassesOf(steps, log);
    AboveSoFar(steps, precision, log);
    if bound < p { AboveMeans(steps, precision, p, bound); }
  }

  lemma CleanBelow(steps: nat, goal: Goal, seed: real, device: Device, log: seq<Capture>, square: nat, full: nat)
    requires steps >= 1 && Orderly(steps, Spots(steps, goal, seed), device, log)
    requires square == steps * steps && full == PassesOf(steps, log) * square
    ensures |log| < full + square + Errors(log)
  {
    PlaceIsGrid(steps, Spots(steps, goal, seed), Clean(log));
    MeasurementsOf(steps, goal, seed, Place(steps, Clean(log)));
    CapturesAdd(log);
  }

  lemma FullBelow(p: nat, bound: nat, square: nat, full: nat, all: nat)
    requires p < bound && full == p * square && all == bound * square
    ensures full + square <= all
  {
    OneMore(p, square);
    assert (p + 1) * square <= bound * square;
  }

  /** More captures than all passes above the precision and all errors can take. */
  lemma EnoughStop(steps: nat, precision: real, goal: Goal, seed: real, device: Device, log: seq<Capture>,
                   bound: nat, square: nat, all: nat)
    requires steps >= 1 && Orderly(steps, Spots(steps, goal, seed), device, log)
    requires StepAt(steps, bound) < precision && square == steps * steps && all == bound * square
    requires |log| == all + MAX_NUM_TX_ERRORS
    ensures GoesOn(steps, precision, log) ==> Stops(steps, precision, log)
  {
    if GoesOn(steps, precision, log) && !Stops(steps, precision, log) {
      var p := PassesOf(steps, log);
      NotStoppedIsAbove(steps, precision, log, bound);
      var full := p * square;
      FullBelow(p, bound, square, full, all);
      CleanBelow(steps, goal, seed, device, log, square, full);
    }
  }

  lemma SomeStop(steps: nat, precision: real, goal: Goal, seed: real, device: Device) returns (n: nat)
    requires steps >= 2 && precision > 0.0
    ensures Stops(steps, precision, LogAfter(steps, Spots(steps, goal, seed), device, n))
  {
    var at := Spots(steps, goal, seed);
    var bound := StepVanishes(steps, precision);
    var all := bound * (steps * steps);
    n := all + MAX_NUM_TX_ERRORS;
    var log := LogAfter(steps, at, device, n);
    AfterIsOrderly(steps, at, device, n);
    EnoughStop(steps, precision, goal, seed, device, log, bound, steps * steps, all);
    if !GoesOn(steps, precision, log) {
      var m :| 0 <= m < |log| && Stops(steps, precision, log[..m]);
      AfterPrefix(steps, at, device, m, n);
      n := m;
    }
  }

  /** The precision is positive, or sooner or later enough errors are reported. */
  ghost predicate Ends(steps: nat, precision: real, goal: Goal, seed: real, device: Device) {
    || precision > 0.0
    || exists n: nat :: Errors(LogAfter(steps, Spots(steps, goal, seed), device, n)) >= MAX_NUM_TX_ERRORS
  }

  lemma EndsAt(steps: nat, precision: real, goal: Goal, seed: real, device: Device) returns (n: nat)
    requires steps >= 2 && Ends(steps, precision, goal, seed, device)
    ensures Stops(steps, precision, LogAfter(steps, Spots(steps, goal, seed), device, n))
  {
    if precision > 0.0 {
      n := SomeStop(steps, precision, goal, seed, device);
    } else {
      n :| Errors(LogAfter(steps, Spots(steps, goal, seed), device, n)) >= MAX_NUM_TX_ERRORS;
    }
  }

  /** Only a positive precision has finished runs; with any other one a search ends
      in no way but at MAX_NUM_TX_ERRORS errors. The option parser does not check. */
  lemma FinishesOnlyIfPositive(steps: nat, precision: real, goal: Goal, seed: real, device: Device,
                               run: Run, finished: bool)
    requires IsRun(steps, precision, goal, seed, device, run, finished)
    ensures finished ==> precision > 0.0
    ensures precision <= 0.0 ==> Errors(run.log) == MAX_NUM_TX_ERRORS
  {
    StepPositive(steps, |run.passes|);
  }

  /** For every device: the search ends exactly when the precision is positive or
      the captures, if they went on for ever, would show enough errors. */
  lemma SearchEndsIff(steps: nat, precision: real, goal: Goal, seed: real, device: Device)
    requires steps >= 2
    ensures (exists run, finished :: IsRun(steps, precision, goal, seed, device, run, finished))
            <==> Ends(steps, precision, goal, seed, device)
  {
    if Ends(steps, precision, goal, seed, device) {
      var n := EndsAt(steps, precision, goal, seed, device);
      var run := RunToStop(steps, precision, goal, seed, device, n);
    }
    if run: Run, finished: bool :| IsRun(steps, precision, goal, seed, device, run, finished) {
      FinishesOnlyIfPositive(steps, precision, goal, seed, device, run, finished);
      RunIsOrderly(steps, precision, goal, seed, device, run, finished);
      OrderlyIsAfter(steps, Spots(steps, goal, seed), device, run.log);
    }
  }
}
