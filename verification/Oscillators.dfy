/** One stage of local oscillators in hopping mode: two synthesizers used in turn,
    each written only when the value its channel wants has changed. */
module Oscillators {
  import opened Common
  import TwinrxPlan

  /** Where the active channel takes its oscillator from: its own synthesizer, or
      that of the other channel, which then gets the one left over. */
  datatype Source = Internal | Companion

  /** The values of the two synthesizers, and those the two channels want. */
  datatype Stage = Stage(first: real, second: real, active: real, unused: real)

  function InUse(s: Stage, source: Source): real {
    if source.Internal? then s.first else s.second
  }

  function Other(s: Stage, source: Source): real {
    if source.Internal? then s.second else s.first
  }

  /** Tuning the active channel: nothing is written if it wants the value already,
      even if that is in the other synthesizer. */
  function TuneActive(s: Stage, source: Source, v: real): Stage {
    if v == s.active then s
    else if source.Internal? then s.(first := v, active := v)
    else s.(second := v, active := v)
  }

  function TuneUnused(s: Stage, source: Source, v: real): Stage {
    if v == s.unused then s
    else if source.Internal? then s.(second := v, unused := v)
    else s.(first := v, unused := v)
  }

  /** Both channels want the same and have it, as after the device was made. */
  function AtRest(v: real): Stage {
    Stage(v, v, v, v)
  }

  function SourceOf(i: nat): Source {
    if i % 2 != 0 then Companion else Internal
  }

  /** What one hop does: the source is swapped, which writes nothing, then the
      unused channel is tuned for the next hop and the active one for this. */
  function HopTo(vals: seq<real>, s: Stage, i: nat): Stage
    requires i < |vals|
  {
    TuneActive(TuneUnused(s, SourceOf(i), vals[(i + 1) % |vals|]), SourceOf(i), vals[i])
  }

  /** The values a stage needs for the hops. */
  function Values(plan: real -> real, freqs: seq<real>): (vals: seq<real>)
    ensures |vals| == |freqs|
  {
    seq(|freqs|, i requires 0 <= i < |freqs| => plan(freqs[i]))
  }

  /** The value the n-th hop needs, sweep after sweep. */
  function ValueAt(vals: seq<real>, n: nat): real
    requires vals != []
  {
    vals[n % |vals|]
  }

  function SourceAt(vals: seq<real>, n: nat): Source
    requires vals != []
  {
    SourceOf(n % |vals|)
  }

  /** The stage after `n` hops, sweep after sweep. */
  function AfterHops(vals: seq<real>, s: Stage, n: nat): Stage
    requires vals != []
  {
    if n == 0 then s else HopTo(vals, AfterHops(vals, s, n - 1), (n - 1) % |vals|)
  }

  /** The value hop `n` is received with. */
  function ReceivedWith(vals: seq<real>, s: Stage, n: nat): real
    requires vals != []
  {
    InUse(AfterHops(vals, s, n + 1), SourceAt(vals, n))
  }

  /** The values the first `n` hops are received with. */
  function ReceivedValues(vals: seq<real>, s: Stage, n: nat): seq<real>
    requires vals != []
  {
    if n == 0 then [] else ReceivedValues(vals, s, n - 1) + [ReceivedWith(vals, s, n - 1)]
  }

  lemma {:induction false} ReceivedValuesAt(vals: seq<real>, s: Stage, n: nat)
    requires vals != []
    ensures |ReceivedValues(vals, s, n)| == n
    ensures forall k :: 0 <= k < n ==> ReceivedValues(vals, s, n)[k] == ReceivedWith(vals, s, k)
  {
    if n > 0 { ReceivedValuesAt(vals, s, n - 1); }
  }

  predicate Received(vals: seq<real>, s: Stage, n: nat)
    requires vals != []
  {
    ReceivedWith(vals, s, n) == ValueAt(vals, n)
  }

  /** Before hop `n` tunes anything the synthesizer it takes has its value. */
  predicate Pretuned(vals: seq<real>, s: Stage, n: nat)
    requires vals != []
  {
    InUse(AfterHops(vals, s, n), SourceAt(vals, n)) == ValueAt(vals, n)
  }

  /** The stage when the first sweep begins: the active channel was tuned to the
      first frequency while each channel used its own synthesizer. */
  predicate Ready(vals: seq<real>, s: Stage)
    requires vals != []
  {
    s.first == s.active == vals[0] && s.second == s.unused
  }

  lemma TunedIsReady(vals: seq<real>, v: real)
    requires vals != []
    ensures Ready(vals, TuneActive(AtRest(v), Internal, vals[0]))
  {}

  // ------------------------------------------------------------------
  // Indices
  // ------------------------------------------------------------------

  lemma NextIndex(n: nat, size: nat)
    requires size > 0
    ensures (n + 1) % size == if n % size == size - 1 then 0 else n % size + 1
    ensures (n + 1) % size == (n % size + 1) % size
  {
    var q, r := n / size, n % size;
    assert n == size * q + r;
    if r == size - 1 {
      assert n + 1 == size * (q + 1) + 0;
      Euclid(n + 1, size, q + 1, 0);
      Euclid(r + 1, size, 1, 0);
    } else {
      assert n + 1 == size * q + (r + 1);
      Euclid(n + 1, size, q, r + 1);
      Euclid(r + 1, size, 0, r + 1);
    }
  }

  lemma SameIndex(k: nat, size: nat)
    requires size > 0
    ensures (k + size) % size == k % size
  {
    var q, r := k / size, k % size;
    assert k + size == size * (q + 1) + r;
    Euclid(k + size, size, q + 1, r);
  }

  /** Whether hop `n` takes the other synthesizer than the hop before. At the start
      of a sweep it does not if the number of hops is odd. */
  predicate Swaps(size: nat, n: nat)
    requires size > 0
  {
    n > 0 && (n % size != 0 || size % 2 == 0)
  }

  lemma SwapsIff(vals: seq<real>, n: nat)
    requires vals != [] && n > 0
    ensures Swaps(|vals|, n) <==> SourceAt(vals, n) != SourceAt(vals, n - 1)
  {
    NextIndex(n - 1, |vals|);
  }

  // ------------------------------------------------------------------
  // One hop
  // ------------------------------------------------------------------

  lemma HopEffect(vals: seq<real>, s: Stage, n: nat)
    requires vals != []
    ensures var t, u, source := AfterHops(vals, s, n), AfterHops(vals, s, n + 1), SourceAt(vals, n);
            && u.active == ValueAt(vals, n) && u.unused == ValueAt(vals, n + 1)
            && InUse(u, source) == (if ValueAt(vals, n) == t.active then InUse(t, source) else ValueAt(vals, n))
            && Other(u, source) == (if ValueAt(vals, n + 1) == t.unused then Other(t, source) else ValueAt(vals, n + 1))
  {
    NextIndex(n, |vals|);
  }

  /** From the second hop on a synthesizer is written only if the values of two
      hops in a row differ. */
  lemma NextHop(vals: seq<real>, s: Stage, n: nat)
    requires vals != [] && n > 0
    ensures var t, u, source := AfterHops(vals, s, n), AfterHops(vals, s, n + 1), SourceAt(vals, n);
            && InUse(u, source)
               == (if ValueAt(vals, n) == ValueAt(vals, n - 1) then InUse(t, source) else ValueAt(vals, n))
            && Other(u, source)
               == (if ValueAt(vals, n + 1) == ValueAt(vals, n) then Other(t, source) else ValueAt(vals, n + 1))
  {
    HopEffect(vals, s, n - 1);
    HopEffect(vals, s, n);
  }

  // ------------------------------------------------------------------
  // Which hops miss
  // ------------------------------------------------------------------

  /** A hop needs the value of the hop before, which was the first to need it: that
      hop wrote its own synthesizer and left the other one as it was. Where a sweep
      starts without a swap the write is one hop further back. */
  predicate Misses(vals: seq<real>, k: nat)
    requires vals != []
  {
    && k >= 2 && Swaps(|vals|, k) && ValueAt(vals, k) == ValueAt(vals, k - 1)
    && if Swaps(|vals|, k - 1) then ValueAt(vals, k - 2) != ValueAt(vals, k - 1)
       else k >= 3 && ValueAt(vals, k - 2) == ValueAt(vals, k - 1) && ValueAt(vals, k - 3) != ValueAt(vals, k - 1)
  }

  predicate MissFree(vals: seq<real>, n: nat)
    requires vals != []
  {
    forall k :: 2 <= k <= n ==> !Misses(vals, k)
  }

  predicate AllReceived(vals: seq<real>, s: Stage, n: nat)
    requires vals != []
  {
    forall k :: 0 <= k <= n ==> Received(vals, s, k)
  }

  predicate AllPretuned(vals: seq<real>, s: Stage, n: nat)
    requires vals != []
  {
    forall k :: 0 <= k <= n ==> Pretuned(vals, s, k)
  }

  /** What hop `n` leaves in the synthesizer it does not use. */
  function Spare(vals: seq<real>, n: nat): real
    requires vals != []
  {
    if n == 0 || ValueAt(vals, n + 1) != ValueAt(vals, n) then ValueAt(vals, n + 1)
    else if Swaps(|vals|, n) then ValueAt(vals, n - 1)
    else Spare(vals, n - 1)
  }

  lemma FirstHop(vals: seq<real>, s: Stage)
    requires vals != [] && Ready(vals, s)
    ensures Received(vals, s, 0) && Pretuned(vals, s, 0)
    ensures Other(AfterHops(vals, s, 1), SourceAt(vals, 0)) == ValueAt(vals, 1)
  {
    HopEffect(vals, s, 0);
    Euclid(0, |vals|, 0, 0);
  }

  lemma {:induction false} SpareLeft(vals: seq<real>, s: Stage, n: nat)
    requires vals != [] && Ready(vals, s) && AllReceived(vals, s, n)
    ensures Other(AfterHops(vals, s, n + 1), SourceAt(vals, n)) == Spare(vals, n)
  {
    if n == 0 {
      FirstHop(vals, s);
    } else {
      SpareLeft(vals, s, n - 1);
      NextHop(vals, s, n);
      SwapsIff(vals, n);
      assert Received(vals, s, n - 1);
    }
  }

  /** The synthesizer hop `n` takes, before it tunes anything. */
  lemma TakenOver(vals: seq<real>, s: Stage, n: nat)
    requires vals != [] && n > 0 && Ready(vals, s) && AllReceived(vals, s, n - 1)
    ensures InUse(AfterHops(vals, s, n), SourceAt(vals, n))
            == if Swaps(|vals|, n) then Spare(vals, n - 1) else ValueAt(vals, n - 1)
  {
    SpareLeft(vals, s, n - 1);
    SwapsIff(vals, n);
    assert Received(vals, s, n - 1);
  }

  lemma MissesIffSpare(vals: seq<real>, n: nat)
    requires vals != [] && n > 0 && Swaps(|vals|, n)
    ensures Spare(vals, n - 1) != ValueAt(vals, n) <==> Misses(vals, n)
  {
    if n >= 2 && !Swaps(|vals|, n - 1) {
      NextIndex(n - 2, |vals|);
      NextIndex(n - 1, |vals|);
      StartIsLate(|vals|, n - 1);
    }
  }

  /** A sweep that starts without a swap has another swap right before it. */
  lemma StartIsLate(size: nat, m: nat)
    requires size > 0 && m > 0 && !Swaps(size, m) && Swaps(size, m + 1)
    ensures m >= 3 && Swaps(size, m - 1)
  {
    NextIndex(m, size);
    NextIndex(m - 1, size);
    if m < size {
      Euclid(m, size, 0, m);
    }
  }

  // ------------------------------------------------------------------
  // Runs
  // ------------------------------------------------------------------

  /** While every hop before was received with its value, the next one is exactly
      if it does not miss. */
  lemma ReceivedNextIff(vals: seq<real>, s: Stage, n: nat)
    requires vals != [] && n > 0 && Ready(vals, s) && AllReceived(vals, s, n - 1)
    ensures Received(vals, s, n) <==> !Misses(vals, n)
  {
    NextHop(vals, s, n);
    TakenOver(vals, s, n);
    if Swaps(|vals|, n) {
      MissesIffSpare(vals, n);
    }
  }

  /** Over any number of sweeps, all hops are received with their values exactly
      when none of them misses. */
  lemma {:induction false} AllReceivedIff(vals: seq<real>, s: Stage, n: nat)
    requires vals != [] && Ready(vals, s)
    ensures AllReceived(vals, s, n) <==> MissFree(vals, n)
  {
    FirstHop(vals, s);
    if n > 0 {
      AllReceivedIff(vals, s, n - 1);
      if AllReceived(vals, s, n - 1) {
        ReceivedNextIff(vals, s, n);
        assert !Misses(vals, 1);
      } else {
        assert !AllReceived(vals, s, n);
      }
    }
  }

  /** While every hop before was received with its value, the next one finds it
      tuned beforehand exactly if it swaps and does not miss, or does not swap and
      needs the same value as the hop before. */
  lemma PretunedNextIff(vals: seq<real>, s: Stage, n: nat)
    requires vals != [] && n > 0 && Ready(vals, s) && AllReceived(vals, s, n - 1)
    ensures Pretuned(vals, s, n) <==>
      if Swaps(|vals|, n) then !Misses(vals, n) else ValueAt(vals, n) == ValueAt(vals, n - 1)
  {
    TakenOver(vals, s, n);
    if Swaps(|vals|, n) {
      MissesIffSpare(vals, n);
    }
  }

  lemma PretunedIsReceived(vals: seq<real>, s: Stage, n: nat)
    requires vals != [] && Pretuned(vals, s, n)
    ensures Received(vals, s, n)
  {
    HopEffect(vals, s, n);
  }

  /** A hop without a swap that needs another value than the hop before. */
  predicate Retunes(vals: seq<real>, k: nat)
    requires vals != []
  {
    k > 0 && !Swaps(|vals|, k) && ValueAt(vals, k) != ValueAt(vals, k - 1)
  }

  predicate RetuneFree(vals: seq<real>, n: nat)
    requires vals != []
  {
    forall k :: 1 <= k <= n ==> !Retunes(vals, k)
  }

  lemma PretunedStep(vals: seq<real>, s: Stage, n: nat)
    requires vals != [] && n > 0 && Ready(vals, s) && AllPretuned(vals, s, n - 1)
    ensures Pretuned(vals, s, n) <==> !Misses(vals, n) && !Retunes(vals, n)
  {
    forall k | 0 <= k <= n - 1 ensures Received(vals, s, k) {
      PretunedIsReceived(vals, s, k);
    }
    PretunedNextIff(vals, s, n);
  }

  /** All hops find their value tuned beforehand, as the program says they do,
      exactly when none of them misses and no sweep starts on the synthesizer of
      the hop before with another value. */
  lemma {:induction false} PretunedIff(vals: seq<real>, s: Stage, n: nat)
    requires vals != [] && Ready(vals, s)
    ensures AllPretuned(vals, s, n) <==> MissFree(vals, n) && RetuneFree(vals, n)
  {
    if n == 0 {
      FirstHop(vals, s);
    } else {
      PretunedIff(vals, s, n - 1);
      if AllPretuned(vals, s, n - 1) {
        PretunedStep(vals, s, n);
        SplitLast(vals, s, n);
      }
    }
  }

  lemma SplitLast(vals: seq<real>, s: Stage, n: nat)
    requires vals != [] && n > 0
    ensures AllPretuned(vals, s, n) <==> AllPretuned(vals, s, n - 1) && Pretuned(vals, s, n)
    ensures MissFree(vals, n) <==> MissFree(vals, n - 1) && !Misses(vals, n)
    ensures RetuneFree(vals, n) <==> RetuneFree(vals, n - 1) && !Retunes(vals, n)
  {
    assert !Misses(vals, 1);
  }

  // ------------------------------------------------------------------
  // Before the run
  // ------------------------------------------------------------------

  lemma MissesRepeat(vals: seq<real>, k: nat)
    requires vals != [] && k >= 2
    ensures Misses(vals, k + |vals|) <==> Misses(vals, k)
  {
    SameIndex(k, |vals|);
    SameIndex(k - 1, |vals|);
    SameIndex(k - 2, |vals|);
    if k >= 3 {
      SameIndex(k - 3, |vals|);
    } else if !Swaps(|vals|, k - 1) {
      assert 1 % |vals| == 0;
      if |vals| > 1 { Euclid(1, |vals|, 0, 1); }
    }
  }

  lemma {:induction false} MissesEarly(vals: seq<real>, k: nat) returns (j: nat)
    requires vals != [] && Misses(vals, k)
    ensures 2 <= j <= |vals| + 1 && Misses(vals, j)
    decreases k
  {
    if k <= |vals| + 1 {
      j := k;
    } else {
      MissesRepeat(vals, k - |vals|);
      j := MissesEarly(vals, k - |vals|);
    }
  }

  /** Whether a run without end receives every hop is decided by one sweep's values. */
  lemma EverReceivedIff(vals: seq<real>, s: Stage)
    requires vals != [] && Ready(vals, s)
    ensures (forall n: nat :: AllReceived(vals, s, n)) <==> MissFree(vals, |vals| + 1)
  {
    AllReceivedIff(vals, s, |vals| + 1);
    if MissFree(vals, |vals| + 1) {
      forall n: nat ensures AllReceived(vals, s, n) {
        forall k | 2 <= k <= n ensures !Misses(vals, k) {
          if Misses(vals, k) { var j := MissesEarly(vals, k); }
        }
        AllReceivedIff(vals, s, n);
      }
    }
  }

  // ------------------------------------------------------------------
  // Examples
  // ------------------------------------------------------------------

  /** Three hops, of which the third needs what the second was the first to need. */
  lemma ThirdHopMisses(vals: seq<real>, s: Stage)
    requires |vals| == 3 && vals[0] != vals[1] == vals[2] && Ready(vals, s)
    ensures Received(vals, s, 0) && Received(vals, s, 1) && ReceivedWith(vals, s, 2) == vals[0]
  {
    FirstHop(vals, s);
    ReceivedNextIff(vals, s, 1);
    NextHop(vals, s, 2);
    TakenOver(vals, s, 2);
  }

  /** Three hops around the band switch: the third needs the value of the second
      oscillator that the second needed first, finds its channel wanting it
      already, and is received with the value of the first. */
  lemma BandCrossingExample(v: real)
    ensures var vals := Values(TwinrxPlan.Lo2, [1_750_000_000.0, 1_850_000_000.0, 1_950_000_000.0]);
            var s := TuneActive(AtRest(v), Internal, vals[0]);
            && Received(vals, s, 0) && Received(vals, s, 1)
            && ReceivedWith(vals, s, 2) == 2_495_000_000.0 && ValueAt(vals, 2) == 1_400_000_000.0
  {
    TwinrxPlan.Lo2AcrossBands();
    var vals := Values(TwinrxPlan.Lo2, [1_750_000_000.0, 1_850_000_000.0, 1_950_000_000.0]);
    TunedIsReady(vals, v);
    ThirdHopMisses(vals, TuneActive(AtRest(v), Internal, vals[0]));
  }

  /** Three hops with three values: all are received with theirs, but the first of
      the second sweep does not find it tuned. */
  lemma OddSweepExample(x: real, y: real, z: real, v: real)
    requires x != y && y != z && z != x
    ensures var vals := [x, y, z];
            var s := TuneActive(AtRest(v), Internal, x);
            && AllReceived(vals, s, 3)
            && Pretuned(vals, s, 1) && Pretuned(vals, s, 2) && !Pretuned(vals, s, 3)
  {
    var vals := [x, y, z];
    var s := TuneActive(AtRest(v), Internal, x);
    TunedIsReady(vals, v);
    AllReceivedIff(vals, s, 3);
    PretunedNextIff(vals, s, 1);
    PretunedNextIff(vals, s, 2);
    PretunedNextIff(vals, s, 3);
  }
}
