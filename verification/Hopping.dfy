/** The frequency-hopping example: a queue of timed stream commands that must
    neither run dry nor overflow, and two oscillator stages tuned for each hop. */
module Hopping {
  import opened Common
  import opened Oscillators
  import opened TwinrxDriver

  const FIFO_DEPTH: nat := 16

  // ------------------------------------------------------------------
  // The frequencies
  // ------------------------------------------------------------------

  function HopAt(start: real, rate: real, i: int): real {
    start + i as real * rate
  }

  /** Frequencies from `start` on, `rate` apart and up to `end`. */
  predicate HopsUpTo(freqs: seq<real>, start: real, end: real, rate: real) {
    forall i :: 0 <= i < |freqs| ==> freqs[i] == HopAt(start, rate, i) && freqs[i] <= end
  }

  /** All the hops: the next one would be past the end. */
  predicate AreHops(freqs: seq<real>, start: real, end: real, rate: real) {
    freqs != [] && HopsUpTo(freqs, start, end, rate) && HopAt(start, rate, |freqs|) > end
  }

  /** The loop that collects the hops. */
  method CollectHops(start: real, end: real, rate: real) returns (freqs: seq<real>)
    requires start <= end && rate > 0.0
    ensures AreHops(freqs, start, end, rate)
  {
    freqs := [];
    var f := start;
    ghost var bound := ((end - start) / rate).Floor + 1;
    assert (end - start) / rate >= 0.0;
    while f <= end
      invariant f == HopAt(start, rate, |freqs|)
      invariant HopsUpTo(freqs, start, end, rate)
      invariant |freqs| <= bound
      decreases bound - |freqs|
    {
      WithinBound(start, end, rate, |freqs|, bound);
      HopsSnoc(freqs, start, end, rate, f);
      freqs := freqs + [f];
      f := f + rate;
    }
  }

  lemma HopsSnoc(freqs: seq<real>, start: real, end: real, rate: real, f: real)
    requires HopsUpTo(freqs, start, end, rate) && f == HopAt(start, rate, |freqs|) && f <= end
    ensures HopsUpTo(freqs + [f], start, end, rate)
    ensures HopAt(start, rate, |freqs| + 1) == f + rate
  {
    assert (|freqs| + 1) as real == |freqs| as real + 1.0;
  }

  lemma WithinBound(start: real, end: real, rate: real, n: nat, bound: int)
    requires rate > 0.0 && HopAt(start, rate, n) <= end
    requires bound == ((end - start) / rate).Floor + 1
    ensures n < bound
  {
    Quotient(n as real, end - start, rate);
  }

  lemma Quotient(x: real, span: real, rate: real)
    requires rate > 0.0 && x * rate <= span
    ensures x <= span / rate
  {
    var q := span / rate;
    assert q * rate == span;
    assert x > q ==> x * rate > q * rate;
  }

  // ------------------------------------------------------------------
  // The command queue
  // ------------------------------------------------------------------

  /** How many commands have been issued before the n-th receive. */
  function IssuedBefore(n: nat, hops: nat, repeat: bool): nat {
    var initial := Min(FIFO_DEPTH, hops);
    if repeat then initial + n else Min(initial + n, hops)
  }

  /** The interval added `k` times, as the program does. */
  function DueAt(k: nat, interval: real): real {
    if k == 0 then 0.0 else DueAt(k - 1, interval) + interval
  }

  lemma {:induction false} DueAtIsProduct(k: nat, interval: real)
    ensures DueAt(k, interval) == k as real * interval
  {
    if k > 0 {
      DueAtIsProduct(k - 1, interval);
      var x := (k - 1) as real;
      assert k as real == x + 1.0;
      assert (x + 1.0) * interval == x * interval + interval;
    }
  }

  /** The hops of that many sweeps. */
  function Hops(sweeps: nat, size: nat): (n: nat)
    ensures sweeps > 0 && size > 0 ==> n > 0
  {
    if sweeps == 0 then 0 else Hops(sweeps - 1, size) + size
  }

  lemma {:induction false} HopsIsProduct(sweeps: nat, size: nat)
    ensures Hops(sweeps, size) == sweeps * size
  {
    if sweeps > 0 {
      HopsIsProduct(sweeps - 1, size);
      assert sweeps * size == (sweeps - 1) * size + size;
    }
  }

  lemma IndexInSweep(base: nat, size: nat, done: nat, i: nat)
    requires base == Hops(done, size) && i < size
    ensures (base + i) % size == i
  {
    HopsIsProduct(done, size);
    Euclid(base + i, size, done, i);
  }

  /** The frequency both channels of a new device are tuned to. */
  const DEFAULT_FREQ := 1_000_000_000.0

  /** A stage when the first sweep begins: tuned to the first hop, and the unused
      synthesizer as it was made. */
  function StartOf(plan: real -> real, freqs: seq<real>): (s: Stage)
    requires freqs != []
    ensures s.first == s.active == plan(freqs[0]) && s.second == s.unused == plan(1_000_000_000.0)
  {
    TuneActive(AtRest(plan(DEFAULT_FREQ)), Internal, plan(freqs[0]))
  }

  /** The stage after `n` hops, and what each burst was received with. */
  function Course(plan: real -> real, freqs: seq<real>, n: nat): (Stage, seq<real>)
    requires freqs != []
  {
    if n == 0 then (StartOf(plan, freqs), [])
    else Onward(plan, freqs, Course(plan, freqs, n - 1), (n - 1) % |freqs|)
  }

  function Onward(plan: real -> real, freqs: seq<real>, before: (Stage, seq<real>), i: nat): (Stage, seq<real>)
    requires i < |freqs|
  {
    var after :=
      TuneActive(TuneUnused(before.0, SourceOf(i), plan(freqs[(i + 1) % |freqs|])), SourceOf(i), plan(freqs[i]));
    (after, before.1 + [InUse(after, SourceOf(i))])
  }

  lemma {:induction false} CourseIs(plan: real -> real, freqs: seq<real>, n: nat)
    requires freqs != []
    ensures Course(plan, freqs, n)
            == (AfterHops(Values(plan, freqs), StartOf(plan, freqs), n),
                ReceivedValues(Values(plan, freqs), StartOf(plan, freqs), n))
  {
    if n > 0 { CourseIs(plan, freqs, n - 1); }
  }

  /** Every burst is received with the value of its hop exactly when no hop misses. */
  lemma CourseReceivedIff(plan: real -> real, freqs: seq<real>, n: nat)
    requires freqs != [] && n > 0
    ensures var tuned := Course(plan, freqs, n).1;
            && |tuned| == n
            && ((forall k :: 0 <= k < n ==> tuned[k] == plan(freqs[k % |freqs|]))
                <==> MissFree(Values(plan, freqs), n - 1))
  {
    var vals, start := Values(plan, freqs), StartOf(plan, freqs);
    TunedIsReady(vals, plan(DEFAULT_FREQ));
    CourseIs(plan, freqs, n);
    ReceivedValuesAt(vals, start, n);
    AllReceivedIff(vals, start, n - 1);
    var tuned := Course(plan, freqs, n).1;
    assert forall k :: 0 <= k < n ==> (tuned[k] == plan(freqs[k % |freqs|]) <==> Received(vals, start, k));
  }

  class Hopper {
    const freqs: seq<real>
    const interval: real
    /** The values the two oscillator stages need for a frequency. */
    const plan1: real -> real
    const plan2: real -> real
    const lo1: Settings
    const lo2: Settings
    /** The times of the commands issued, and how many bursts were received. */
    var commands: seq<real>
    var timeSpec: real
    var received: nat
    /** The values of the stages at each burst, and the commands then waiting. */
    ghost var tuned1: seq<real>
    ghost var tuned2: seq<real>
    ghost var waiting: seq<nat>

    constructor (freqs: seq<real>, interval: real, plan1: real -> real, plan2: real -> real)
      requires freqs != []
      ensures this.freqs == freqs && this.interval == interval && this.plan1 == plan1 && this.plan2 == plan2
      ensures commands == [] && timeSpec == 0.0 && received == 0 && waiting == []
      ensures fresh(lo1) && fresh(lo2)
      ensures Tuned(0)
    {
      this.freqs, this.interval, this.plan1, this.plan2 := freqs, interval, plan1, plan2;
      commands, timeSpec, received, waiting := [], 0.0, 0, [];
      tuned1, tuned2 := [], [];
      var first := new Settings(plan1(DEFAULT_FREQ));
      var second := new Settings(plan2(DEFAULT_FREQ));
      first.Start(plan1(freqs[0]));
      second.Start(plan2(freqs[0]));
      lo1, lo2 := first, second;
    }

    /** Command k, counting from one, is due at k intervals. */
    ghost predicate Timed()
      reads this`commands, this`timeSpec
    {
      && timeSpec == DueAt(|commands|, interval)
      && forall k :: 0 <= k < |commands| ==> commands[k] == DueAt(k + 1, interval)
    }

    method Issue()
      requires Timed()
      modifies this`commands, this`timeSpec
      ensures Timed() && |commands| == |old(commands)| + 1
    {
      timeSpec := timeSpec + interval;
      commands := commands + [timeSpec];
    }

    /** Fills the queue before the first sweep. */
    method FillQueue()
      requires freqs != [] && commands == [] && timeSpec == 0.0
      modifies this`commands, this`timeSpec
      ensures Timed() && |commands| == Min(16, |freqs|)
    {
      var initial := Min(FIFO_DEPTH, |freqs|);
      var issued := 0;
      while issued < initial
        invariant issued <= initial && |commands| == issued && Timed()
      {
        Issue();
        issued := issued + 1;
      }
    }

    /** Both stages have made `n` hops. */
    ghost predicate Tuned(n: nat)
      reads this`tuned1, this`tuned2, lo1, lo2
    {
      && freqs != [] && lo1 != lo2 && lo1.Clean() && lo2.Clean()
      && (lo1.AsStage(), tuned1) == Course(plan1, freqs, n)
      && (lo2.AsStage(), tuned2) == Course(plan2, freqs, n)
    }

    /** After `n` hops that many bursts were received, each with at least one
        command waiting and never more than the queue holds. */
    ghost predicate Queued(repeat: bool, n: nat)
      reads this`commands, this`timeSpec, this`received, this`waiting
    {
      && Timed()
      && received == n && |commands| == IssuedBefore(n, |freqs|, repeat) && |waiting| == n
      && forall k :: 0 <= k < n ==> 1 <= waiting[k] <= 16
    }

    ghost predicate Sweeping(repeat: bool)
      reads this, lo1, lo2
    {
      Tuned(received) && Queued(repeat, received)
    }

    /** The tuning part of a hop. */
    method Retune(i: nat, ghost n: nat)
      requires Tuned(n) && i == n % |freqs|
      modifies this`tuned1, this`tuned2, lo1, lo2
      ensures Tuned(n + 1)
    {
      var source := if i % 2 != 0 then Companion else Internal;
      var next, now := freqs[(i + 1) % |freqs|], freqs[i];
      lo1.HopOnce(source, plan1(next), plan1(now));
      lo2.HopOnce(source, plan2(next), plan2(now));
      tuned1 := tuned1 + [InUse(lo1.AsStage(), source)];
      tuned2 := tuned2 + [InUse(lo2.AsStage(), source)];
    }

    /** The receiving part of a hop: one burst, for the oldest command waiting,
        and another command if one is due. */
    method Receive(repeat: bool, ghost n: nat)
      requires freqs != [] && Queued(repeat, n) && (repeat || n < |freqs|)
      modifies this`received, this`waiting, this`commands, this`timeSpec
      ensures Queued(repeat, n + 1)
    {
      waiting := waiting + [|commands| - received];
      received := received + 1;
      if repeat || |commands| < |freqs| {
        Issue();
      }
    }

    /** How many hops were made, if they went as they should. */
    ghost function Made(repeat: bool): Option<nat>
      reads this, lo1, lo2
    {
      if Sweeping(repeat) then Some(received) else None
    }

    /** One hop of a sweep. */
    method Hop(i: nat, repeat: bool, ghost n: nat)
      requires Made(repeat) == Some(n) && i < |freqs| && i == n % |freqs| && (repeat || n < |freqs|)
      modifies this, lo1, lo2
      ensures Made(repeat) == Some(n + 1)
    {
      Retune(i, n);
      Receive(repeat, n);
    }

    /** One sweep, after `done` others, which took `base` hops. */
    method Sweep(repeat: bool, ghost done: nat, ghost base: nat)
      requires Made(repeat) == Some(base) && base == Hops(done, |freqs|) && (repeat || base == 0)
      modifies this, lo1, lo2
      ensures Made(repeat) == Some(base + |freqs|)
    {
      var i := 0;
      while i < |freqs|
        invariant 0 <= i <= |freqs|
        invariant Made(repeat) == Some(base + i)
      {
        IndexInSweep(base, |freqs|, done, i);
        Hop(i, repeat, base + i);
        i := i + 1;
      }
    }

    /** The sweeps, as many as are made until the program is interrupted; without
        repetition there is one. */
    method MakeSweeps(repeat: bool, sweeps: nat) returns (done: nat, ghost made: nat)
      requires Made(repeat) == Some(0) && sweeps > 0
      modifies this, lo1, lo2
      ensures Made(repeat) == Some(made) && made == Hops(done, |freqs|)
      ensures done == if repeat then sweeps else 1
    {
      done, made := 0, 0;
      while done < sweeps
        invariant done <= sweeps && (!repeat ==> done == 0)
        invariant Made(repeat) == Some(made)
        invariant made == Hops(done, |freqs|)
      {
        Sweep(repeat, done, made);
        done, made := done + 1, made + |freqs|;
        if !repeat {
          return;
        }
      }
    }

    /** The program from the filling of the queue on. Every burst is received with
        the values of its hop exactly when no hop misses in either stage. */
    method Run(repeat: bool, sweeps: nat)
      requires freqs != [] && commands == [] && timeSpec == 0.0 && received == 0 && waiting == []
      requires Tuned(0) && sweeps > 0
      modifies this, lo1, lo2
      ensures Sweeping(repeat) && received == (if repeat then sweeps else 1) * |freqs|
      ensures !repeat ==> |commands| == received == |freqs|
      ensures repeat ==> |commands| - received == Min(FIFO_DEPTH, |freqs|)
      ensures |tuned1| == |tuned2| == received > 0
      ensures (forall k :: 0 <= k < received ==> tuned1[k] == plan1(freqs[k % |freqs|]))
              <==> MissFree(Values(plan1, freqs), received - 1)
      ensures (forall k :: 0 <= k < received ==> tuned2[k] == plan2(freqs[k % |freqs|]))
              <==> MissFree(Values(plan2, freqs), received - 1)
    {
      FillQueue();
      var done, made := MakeSweeps(repeat, sweeps);
      HopsIsProduct(done, |freqs|);
      CourseReceivedIff(plan1, freqs, received);
      CourseReceivedIff(plan2, freqs, received);
    }
  }
}
