/** Reading the firmware log: a buffer of strings that each end in a null, with
    an empty string after the last. */
module FirmwareLog {
  import opened Common

  /** `list.index(0, last)`, or the length if there is none. */
  function NullFrom(raw: seq<Byte>, last: nat): (k: nat)
    requires last <= |raw|
    ensures last <= k <= |raw| && (k < |raw| ==> raw[k] == 0)
    ensures forall j :: last <= j < k ==> raw[j] != 0
    decreases |raw| - last
  {
    if last == |raw| || raw[last] == 0 then last else NullFrom(raw, last + 1)
  }

  /** The strings from position `last` on, up to an empty one or to one that does
      not end. */
  function LinesFrom(raw: seq<Byte>, last: nat): seq<seq<Byte>>
    requires last <= |raw|
    decreases |raw| - last
  {
    if last == |raw| || raw[last] == 0 || NullFrom(raw, last) == |raw| then []
    else [raw[last..NullFrom(raw, last)]] + LinesFrom(raw, NullFrom(raw, last) + 1)
  }

  function Lines(raw: seq<Byte>): seq<seq<Byte>> {
    LinesFrom(raw, 0)
  }

  predicate IsLine(s: seq<Byte>) {
    s != [] && 0 !in s
  }

  function Encode(lines: seq<seq<Byte>>): seq<Byte> {
    if lines == [] then [] else lines[0] + [0] + Encode(lines[1..])
  }

  /** What can follow the last line: nothing, an empty string and anything after
      it, or a string without end. */
  predicate Remainder(tail: seq<Byte>) {
    tail == [] || tail[0] == 0 || 0 !in tail
  }

  lemma FirstNull(raw: seq<Byte>, last: nat, k: nat)
    requires last <= k <= |raw| && (k < |raw| ==> raw[k] == 0)
    requires forall j :: last <= j < k ==> raw[j] != 0
    ensures NullFrom(raw, last) == k
  {}

  /** Where nothing more is read. */
  lemma NoLineFrom(raw: seq<Byte>, last: nat)
    requires last <= |raw|
    ensures LinesFrom(raw, last) == [] <==> Remainder(raw[last..])
  {
    var tail := raw[last..];
    if last < |raw| && raw[last] != 0 {
      if 0 in tail {
        var i :| 0 <= i < |tail| && tail[i] == 0;
        assert raw[last + i] == 0;
      } else {
        assert forall j :: last <= j < |raw| ==> raw[j] == tail[j - last];
        FirstNull(raw, last, |raw|);
      }
    }
  }

  lemma Respell(pre: seq<Byte>, s: seq<Byte>, e: seq<Byte>, tail: seq<Byte>)
    ensures pre + ((s + [0] + e) + tail) == pre + (s + [0]) + (e + tail)
  {}

  lemma LineAt(pre: seq<Byte>, s: seq<Byte>, rest: seq<Byte>)
    requires IsLine(s)
    ensures var raw := pre + (s + [0]) + rest;
            && NullFrom(raw, |pre|) == |pre| + |s| < |raw|
            && raw[|pre|..|pre| + |s|] == s
            && raw[|pre|] != 0
  {
    var raw := pre + (s + [0]) + rest;
    forall j | |pre| <= j < |pre| + |s| ensures raw[j] != 0 {
      assert raw[j] == s[j - |pre|] && s[j - |pre|] in s;
    }
    FirstNull(raw, |pre|, |pre| + |s|);
    assert raw[|pre|] == s[0];
  }

  lemma {:induction false} LinesAfter(pre: seq<Byte>, lines: seq<seq<Byte>>, tail: seq<Byte>)
    requires forall s :: s in lines ==> IsLine(s)
    requires Remainder(tail)
    ensures LinesFrom(pre + (Encode(lines) + tail), |pre|) == lines
    decreases |lines|
  {
    var raw := pre + (Encode(lines) + tail);
    if lines == [] {
      assert raw[|pre|..] == tail;
      NoLineFrom(raw, |pre|);
    } else {
      var s, rest := lines[0], Encode(lines[1..]) + tail;
      assert IsLine(s);
      Respell(pre, s, Encode(lines[1..]), tail);
      LineAt(pre, s, rest);
      LinesAfter(pre + (s + [0]), lines[1..], tail);
    }
  }

  /** Any lines, however the buffer goes on after them, are read back. */
  lemma LinesInvertEncode(lines: seq<seq<Byte>>, tail: seq<Byte>)
    requires forall s :: s in lines ==> IsLine(s)
    requires Remainder(tail)
    ensures Lines(Encode(lines) + tail) == lines
  {
    LinesAfter([], lines, tail);
    assert [] + (Encode(lines) + tail) == Encode(lines) + tail;
  }

  lemma SliceLine(raw: seq<Byte>, last: nat, k: nat, end: nat)
    requires last < k < end <= |raw| && raw[k] == 0 && forall j :: last <= j < k ==> raw[j] != 0
    ensures IsLine(raw[last..k])
    ensures raw[last..end] == raw[last..k] + [0] + raw[k + 1..end]
  {}

  lemma {:induction false} ReadFrom(raw: seq<Byte>, last: nat) returns (end: nat)
    requires last <= |raw|
    ensures last <= end <= |raw|
    ensures forall s :: s in LinesFrom(raw, last) ==> IsLine(s)
    ensures raw[last..end] == Encode(LinesFrom(raw, last))
    ensures Remainder(raw[end..])
    decreases |raw| - last
  {
    NoLineFrom(raw, last);
    if LinesFrom(raw, last) == [] {
      end := last;
    } else {
      var k := NullFrom(raw, last);
      end := ReadFrom(raw, k + 1);
      assert LinesFrom(raw, last)[1..] == LinesFrom(raw, k + 1);
      SliceLine(raw, last, k, end);
    }
  }

  /** Any buffer is lines followed by a remainder, in one way only; the lines are
      what is read and the remainder is what is dropped. */
  lemma LinesDropOnlyRemainder(raw: seq<Byte>)
    ensures exists tail ::
      Remainder(tail) && (forall s :: s in Lines(raw) ==> IsLine(s)) && raw == Encode(Lines(raw)) + tail
    ensures forall lines, tail ::
      Remainder(tail) && (forall s :: s in lines ==> IsLine(s)) && raw == Encode(lines) + tail ==> lines == Lines(raw)
  {
    var end := ReadFrom(raw, 0);
    assert raw == raw[0..end] + raw[end..];
    forall lines, tail | Remainder(tail) && (forall s :: s in lines ==> IsLine(s)) && raw == Encode(lines) + tail
      ensures lines == Lines(raw)
    {
      LinesInvertEncode(lines, tail);
    }
  }

  /** The lines with their running numbers, counting on from `from`. */
  function Numbered(from: nat, lines: seq<seq<Byte>>): (r: seq<(nat, seq<Byte>)>)
    ensures |r| == |lines|
    ensures forall n :: 0 <= n < |r| ==> r[n].0 == from + 1 + n && r[n].1 == lines[n]
  {
    seq(|lines|, i requires 0 <= i < |lines| => (from + i + 1, lines[i]))
  }

  lemma NumberedSnoc(from: nat, lines: seq<seq<Byte>>, line: seq<Byte>)
    ensures Numbered(from, lines + [line]) == Numbered(from, lines) + [(from + |lines| + 1, line)]
  {}

  /** The tool's counters for the log. */
  class Reader {
    var logIndex: nat
    var logReadCount: nat

    constructor ()
      ensures logIndex == 0 && logReadCount == 0
    {
      logIndex := 0;
      logReadCount := 0;
    }

    /** `get_log`, each line with its running number. */
    method GetLog(raw: seq<Byte>) returns (lines: seq<(nat, seq<Byte>)>)
      modifies this
      ensures lines == Numbered(old(logIndex), Lines(raw))
      ensures logIndex == old(logIndex) + |Lines(raw)|
      ensures logReadCount == old(logReadCount) + if raw == [] || raw[0] == 0 then 0 else 1
    {
      lines := [];
      if |raw| == 0 {
        return;
      }
      if raw[0] == 0 {
        return;
      }
      logReadCount := logReadCount + 1;
      var last := 0;
      ghost var taken: seq<seq<Byte>> := [];
      while raw[last] != 0
        invariant 0 <= last < |raw|
        invariant logReadCount == old(logReadCount) + 1
        invariant logIndex == old(logIndex) + |taken| && lines == Numbered(old(logIndex), taken)
        invariant Lines(raw) == taken + LinesFrom(raw, last)
        decreases |raw| - last
      {
        var idx := NullFrom(raw, last);
        if idx == |raw| {
          break;
        }
        var line := raw[last..idx];
        NumberedSnoc(old(logIndex), taken, line);
        logIndex := logIndex + 1;
        lines := lines + [(logIndex, line)];
        Regroup(taken, [line], LinesFrom(raw, idx + 1));
        taken := taken + [line];
        last := idx + 1;
        if last >= |raw| {
          break;
        }
      }
      assert LinesFrom(raw, last) == [];
      assert Lines(raw) == taken;
    }
  }
}
