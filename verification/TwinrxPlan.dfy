/** The local oscillator frequencies the TwinRX driver derives from the frequency
    to receive. Frequencies are in hertz. */
module TwinrxPlan {

  const LB_HB_THRESHOLD_FREQ := 1_800_000_000.0
  const LB_TARGET_IF1_FREQ := 2_345_000_000.0
  const HB_TARGET_IF1_FREQ := 1_250_000_000.0
  const INJ_SIDE_THRESHOLD_FREQ := 5_100_000_000.0
  const FIXED_LO1_THRESHOLD_FREQ := 50_000_000.0
  const INST_BANDWIDTH := 80_000_000.0
  const LOWEST_FREQ := 10_000_000.0
  const HIGHEST_FREQ := 6_000_000_000.0
  const DEFAULT_IF_FREQ := 150_000_000.0
  const MAX_SPUR_ORDER: nat := 5

  datatype Side = HighSide | LowSide

  function Clip(f: real): (r: real)
    ensures 10_000_000.0 <= r <= 6_000_000_000.0
    ensures 10_000_000.0 <= f <= 6_000_000_000.0 <==> r == f
  {
    if f < LOWEST_FREQ then LOWEST_FREQ else if f > HIGHEST_FREQ then HIGHEST_FREQ else f
  }

  /** Frequencies are compared with a tolerance of one hertz. */
  predicate Above(f: real, threshold: real) {
    f - threshold > 1.0
  }

  function TargetIf1(f: real): real {
    if Above(Clip(f), LB_HB_THRESHOLD_FREQ) then HB_TARGET_IF1_FREQ else LB_TARGET_IF1_FREQ
  }

  /** The first oscillator. */
  function Lo1(f: real): real {
    var rf := Clip(f);
    if !Above(rf, FIXED_LO1_THRESHOLD_FREQ) then TargetIf1(f) + FIXED_LO1_THRESHOLD_FREQ
    else if !Above(rf, INJ_SIDE_THRESHOLD_FREQ) then rf + TargetIf1(f)
    else rf - TargetIf1(f)
  }

  function Abs(x: real): real {
    if x < 0.0 then -x else x
  }

  /** These harmonics of the two oscillators mix into the band. */
  predicate SpurAt(lo1: real, lo2: real, if2: real, i: int, j: int): (spur: bool)
    ensures spur <==> var delta := lo1 * i as real - lo2 * j as real;
                      || -40_000_000.0 < delta + if2 < 40_000_000.0
                      || -40_000_000.0 < delta - if2 < 40_000_000.0
  {
    var delta := lo1 * i as real - lo2 * j as real;
    Abs(delta + if2) < INST_BANDWIDTH / 2.0 || Abs(delta - if2) < INST_BANDWIDTH / 2.0
  }

  predicate HasMixerSpurs(lo1: real, lo2: real, if2: real, order: nat) {
    exists i, j :: 1 <= i <= order && 1 <= j <= order && SpurAt(lo1, lo2, if2, i, j)
  }

  /** The side on which the second oscillator has no spurs up to the highest
      possible order, the high side first. */
  function Lo2Side(lo1: real, if1: real, if2: real, order: nat): Side {
    if order == 0 then HighSide
    else if !HasMixerSpurs(lo1, if1 + if2, if2, order) then HighSide
    else if !HasMixerSpurs(lo1, if1 - if2, if2, order) then LowSide
    else Lo2Side(lo1, if1, if2, order - 1)
  }

  /** The search for spurs, through all pairs of harmonics. */
  method FindSpurs(lo1: real, lo2: real, if2: real, order: nat) returns (found: bool)
    ensures found <==> HasMixerSpurs(lo1, lo2, if2, order)
  {
    var i := 1;
    while i <= order
      invariant 1 <= i <= order + 1
      invariant forall k, j :: 1 <= k < i && 1 <= j <= order ==> !SpurAt(lo1, lo2, if2, k, j)
    {
      var j := 1;
      while j <= order
        invariant 1 <= j <= order + 1
        invariant forall k :: 1 <= k < j ==> !SpurAt(lo1, lo2, if2, i, k)
      {
        if SpurAt(lo1, lo2, if2, i, j) {
          return true;
        }
        j := j + 1;
      }
      i := i + 1;
    }
    return false;
  }

  /** The loop over the orders, from the highest. */
  method ComputeLo2Side(lo1: real, if1: real, if2: real) returns (side: Side)
    ensures side == Lo2Side(lo1, if1, if2, 5)
  {
    var order: nat := MAX_SPUR_ORDER;
    while order >= 1
      invariant Lo2Side(lo1, if1, if2, order) == Lo2Side(lo1, if1, if2, MAX_SPUR_ORDER)
    {
      var above := FindSpurs(lo1, if1 + if2, if2, order);
      if !above {
        return HighSide;
      }
      var below := FindSpurs(lo1, if1 - if2, if2, order);
      if !below {
        return LowSide;
      }
      order := order - 1;
    }
    return HighSide;
  }

  /** The second oscillator. */
  function Lo2(f: real): real {
    var if1 := TargetIf1(f);
    match Lo2Side(Lo1(f), if1, DEFAULT_IF_FREQ, MAX_SPUR_ORDER)
    case HighSide => if1 + DEFAULT_IF_FREQ
    case LowSide => if1 - DEFAULT_IF_FREQ
  }

  /** Where an oscillator is injected: above what it mixes, or below. */
  function Injection(lo: real, mixed: real): Side {
    if lo > mixed then HighSide else LowSide
  }

  /** The frequency that an oscillator mixes to the intermediate frequency `if_`. */
  function Unmixed(lo: real, if_: real, side: Side): real {
    if side == LowSide then lo + if_ else lo - if_
  }

  /** The frequency the driver reads back, from two oscillators that it tuned exactly. */
  function ReadBack(f: real): real {
    var if1 := Unmixed(Lo2(f), DEFAULT_IF_FREQ, Injection(Lo2(f), TargetIf1(f)));
    Unmixed(Lo1(f), if1, Injection(Lo1(f), Clip(f)))
  }

  /** The driver reads back the frequency it was asked for, in the range of the board,
      exactly if that is 50 MHz or more than a hertz above it; below, the first
      oscillator stays where it is for 50 MHz, and that is what is read. Both
      oscillators stay within their tuning ranges. */
  lemma ReadsBackIff(f: real)
    ensures ReadBack(f) == f <==> 50_000_001.0 < f <= 6_000_000_000.0 || f == 50_000_000.0
    ensures f <= 50_000_001.0 ==> ReadBack(f) == 50_000_000.0
    ensures f > 6_000_000_000.0 ==> ReadBack(f) == 6_000_000_000.0
    ensures 2_000_000_000.0 <= Lo1(f) <= 6_800_000_000.0
    ensures 1_000_000_000.0 <= Lo2(f) <= 3_000_000_000.0
  {}

  /** The first oscillator mixes a frequency in range to 1250 MHz, or 2345 MHz for 1.8
      GHz and below: from above up to 5.1 GHz, from below beyond that, each with a
      hertz of tolerance. The second does so to 150 MHz from the side chosen. */
  lemma OscillatorsMix(f: real)
    requires 10_000_000.0 <= f <= 6_000_000_000.0
    ensures var if1 := if f > 1_800_000_001.0 then 1_250_000_000.0 else 2_345_000_000.0;
            && Lo1(f) == (if f <= 50_000_001.0 then 50_000_000.0 + if1
                          else if f <= 5_100_000_001.0 then f + if1
                          else f - if1)
            && Lo2(f) == (if Lo2Side(Lo1(f), if1, 150_000_000.0, 5) == HighSide
                          then if1 + 150_000_000.0 else if1 - 150_000_000.0)
  {}

  lemma SpursGrow(lo1: real, lo2: real, if2: real, low: nat, high: nat)
    requires low <= high && HasMixerSpurs(lo1, lo2, if2, low)
    ensures HasMixerSpurs(lo1, lo2, if2, high)
  {
    var i, j :| 1 <= i <= low && 1 <= j <= low && SpurAt(lo1, lo2, if2, i, j);
    assert i <= high && j <= high;
  }

  /** The low side is taken exactly if it has no spurs up to some order up to which the
      high side has some. */
  lemma {:induction false} LowSideIff(lo1: real, if1: real, if2: real, order: nat, high: real, low: real)
    requires high == if1 + if2 && low == if1 - if2
    ensures Lo2Side(lo1, if1, if2, order) == LowSide <==>
              exists o :: 1 <= o <= order && HasMixerSpurs(lo1, high, if2, o) && !HasMixerSpurs(lo1, low, if2, o)
  {
    if order > 0 {
      LowSideIff(lo1, if1, if2, order - 1, high, low);
      forall o: nat | o <= order && HasMixerSpurs(lo1, high, if2, o) ensures HasMixerSpurs(lo1, high, if2, order) {
        SpursGrow(lo1, high, if2, o, order);
      }
    }
  }

  lemma NoSpurs(lo1: real, lo2: real)
    requires (lo1 == 4_095_000_000.0 && lo2 == 2_495_000_000.0)
             || (lo1 == 3_100_000_000.0 && lo2 == 1_400_000_000.0)
             || (lo1 == 3_200_000_000.0 && lo2 == 1_400_000_000.0)
             || (lo1 == 2_401_000_000.0 && lo2 == 2_195_000_000.0)
    ensures !HasMixerSpurs(lo1, lo2, DEFAULT_IF_FREQ, MAX_SPUR_ORDER)
  {
    forall i, j | 1 <= i <= MAX_SPUR_ORDER && 1 <= j <= MAX_SPUR_ORDER
      ensures !SpurAt(lo1, lo2, DEFAULT_IF_FREQ, i, j)
    {
      assert i == 1 || i == 2 || i == 3 || i == 4 || i == 5;
      assert j == 1 || j == 2 || j == 3 || j == 4 || j == 5;
    }
  }

  /** Below the band switch at 1.8 GHz the second oscillator is at 2.495 GHz, at the
      two frequencies above it at 1.4 GHz, which makes them equal. */
  lemma Lo2AcrossBands()
    ensures Lo2(1_750_000_000.0) == 2_495_000_000.0
    ensures Lo2(1_850_000_000.0) == 1_400_000_000.0
    ensures Lo2(1_950_000_000.0) == 1_400_000_000.0
  {
    NoSpurs(4_095_000_000.0, 2_495_000_000.0);
    NoSpurs(3_100_000_000.0, 1_400_000_000.0);
    NoSpurs(3_200_000_000.0, 1_400_000_000.0);
  }

  /** At 56 MHz the second harmonics of both would mix into the band with the second
      oscillator above, and it is below. */
  lemma LowSideExample()
    ensures Lo2(56_000_000.0) == 2_195_000_000.0
  {
    assert SpurAt(2_401_000_000.0, 2_495_000_000.0, DEFAULT_IF_FREQ, 2, 2);
    assert HasMixerSpurs(2_401_000_000.0, 2_495_000_000.0, DEFAULT_IF_FREQ, MAX_SPUR_ORDER);
    NoSpurs(2_401_000_000.0, 2_195_000_000.0);
  }
}
