/** The waveform generator: a phase index that wraps around in a machine word,
    read through a table whose length divides it. */
module Waveform {
  import opened Common

  const TABLE_LENGTH: nat := 8192

  /** The modulus of `size_t`. */
  const WORD: nat := 0x1_0000_0000_0000_0000

  /** A rounded step as the unsigned word it is stored in; a negative one wraps. */
  function ToWord(x: int): nat {
    x % WORD
  }

  /** `wave_table_class::operator()`. */
  function Lookup<T>(table: seq<T>, index: nat): T
    requires |table| == TABLE_LENGTH
  {
    table[index % TABLE_LENGTH]
  }

  /** The sample with this number, counting from zero, on unbounded integers. */
  function Sample<T>(table: seq<T>, step: int, n: nat): T
    requires |table| == TABLE_LENGTH
  {
    table[((n + 1) * step) % TABLE_LENGTH]
  }

  /** A stretch of samples. */
  function Samples<T>(table: seq<T>, step: int, from: nat, count: nat): (r: seq<T>)
    requires |table| == TABLE_LENGTH
    ensures |r| == count
  {
    seq(count, n requires 0 <= n < count => Sample(table, step, from + n))
  }

  lemma ModAdd(a: int, k: int, d: int)
    requires d > 0
    ensures (a + d * k) % d == a % d
  {
    var q, r := a / d, a % d;
    assert a == d * q + r;
    Euclid(a + d * k, d, q + k, r);
  }

  /** Wrapping around in the word does not change where the table is read, since
      its length divides the word. */
  lemma WrapKeepsPhase(x: int)
    ensures ToWord(x) % TABLE_LENGTH == x % TABLE_LENGTH
  {
    var q := x / WORD;
    assert x == WORD * q + ToWord(x);
    ModAdd(ToWord(x), (WORD / TABLE_LENGTH) * q, TABLE_LENGTH);
    assert ToWord(x) + TABLE_LENGTH * ((WORD / TABLE_LENGTH) * q) == x;
  }

  /** Adding in the word follows adding on the integers. */
  lemma WrapAdd(a: int, b: int)
    ensures ToWord(ToWord(a) + ToWord(b)) == ToWord(a + b)
  {
    var p, q := a / WORD, b / WORD;
    assert a == WORD * p + ToWord(a) && b == WORD * q + ToWord(b);
    assert a + b == (ToWord(a) + ToWord(b)) + WORD * (p + q);
    ModAdd(ToWord(a) + ToWord(b), p + q, WORD);
  }

  /** `buff[n] = wave_table(index += step)` over the buffer, after `count` samples. */
  method FillBuffer<T>(buff: array<T>, table: seq<T>, rounded: int, index0: nat, ghost count: nat) returns (index: nat)
    requires |table| == TABLE_LENGTH && index0 == ToWord(count * rounded)
    modifies buff
    ensures index == ToWord((count + buff.Length) * rounded)
    ensures buff[..] == Samples(table, rounded, count, buff.Length)
  {
    var step := ToWord(rounded);
    index := index0;
    var n := 0;
    while n < buff.Length
      invariant 0 <= n <= buff.Length
      invariant index == ToWord((count + n) * rounded)
      invariant buff[..n] == Samples(table, rounded, count, n)
    {
      WrapAdd((count + n) * rounded, rounded);
      assert (count + n) * rounded + rounded == (count + n + 1) * rounded;
      index := (index + step) % WORD;
      WrapKeepsPhase((count + n + 1) * rounded);
      buff[n] := Lookup(table, index);
      n := n + 1;
    }
    assert buff[..n] == buff[..];
  }

  /** How many samples the first `rounds` sends took. */
  function Accepted(accepted: nat -> nat, rounds: nat): nat {
    if rounds == 0 then 0 else Accepted(accepted, rounds - 1) + accepted(rounds - 1)
  }

  /** The streaming loop, for as many rounds as are made before it is interrupted:
      the buffer is sent and filled again until enough samples were accepted.
      `accepted` says how many samples each send takes. */
  method Stream<T(0)>(table: seq<T>, rounded: int, spb: nat, total: nat, accepted: nat -> nat, rounds: nat)
    returns (sent: seq<T>, made: nat)
    requires |table| == TABLE_LENGTH
    ensures made <= rounds
    ensures sent == Samples(table, rounded, 0, made * spb)
    ensures |sent| == made * spb && forall n :: 0 <= n < |sent| ==> sent[n] == table[((n + 1) * rounded) % 8192]
    ensures made == rounds || (total > 0 && Accepted(accepted, made) >= total)
    ensures forall m: nat :: m < made && total > 0 ==> Accepted(accepted, m) < total
  {
    var buff := new T[spb];
    var index := FillBuffer(buff, table, rounded, 0, 0);
    var accumulated := 0;
    made, sent := 0, [];
    while made < rounds && !(total > 0 && accumulated >= total)
      invariant made <= rounds
      invariant index == ToWord((made * spb + spb) * rounded)
      invariant buff[..] == Samples(table, rounded, made * spb, spb)
      invariant sent == Samples(table, rounded, 0, made * spb)
      invariant accumulated == Accepted(accepted, made)
      invariant forall m: nat :: m < made && total > 0 ==> Accepted(accepted, m) < total
      decreases rounds - made
    {
      accumulated := accumulated + accepted(made);
      SamplesJoin(table, rounded, made * spb, spb);
      NextRound(made, spb);
      sent := sent + buff[..];
      index := FillBuffer(buff, table, rounded, index, made * spb + spb);
      made := made + 1;
    }
  }

  lemma NextRound(made: nat, spb: nat)
    ensures (made + 1) * spb == made * spb + spb
  {}

  lemma SamplesJoin<T>(table: seq<T>, step: int, a: nat, b: nat)
    requires |table| == TABLE_LENGTH
    ensures Samples(table, step, 0, a) + Samples(table, step, a, b) == Samples(table, step, 0, a + b)
  {}
}
