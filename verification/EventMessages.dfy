/** The decoder of the 'U' messages on the serial line: PHY error registers and
    USB event bytes, interleaved. */
module EventMessages {
  import opened Common

  /** How many PHY error registers have a name. */
  const REGISTERS: nat := 9

  datatype State = Idle | InRegister | InEvent(high: nat)

  /** What one character brings about. */
  datatype Output = Silent | Register(index: nat) | Event(byte: nat)
    | UnknownType | UnknownRegister | UnknownEventPart

  predicate Letter(c: char) {
    'A' <= c <= 'P'
  }

  /** One turn of the decoding loop. */
  function Step(s: State, c: char): (State, Output) {
    match s
    case Idle =>
      if c == 'a' then (InRegister, Silent)
      else if Letter(c) then (InEvent(c as int - 'A' as int), Silent)
      else (Idle, UnknownType)
    case InRegister =>
      var i := c as int - 'a' as int;
      if i < 0 || i >= REGISTERS then (Idle, UnknownRegister) else (Idle, Register(i))
    case InEvent(high) =>
      if !Letter(c) then (Idle, UnknownEventPart)
      else (Idle, Event(high * 16 + (c as int - 'A' as int)))
  }

  function Emit(o: Output): seq<Output> {
    if o.Silent? then [] else [o]
  }

  /** The state a message ends in. */
  function EndState(s: State, data: string): State
    decreases |data|
  {
    if data == "" then s else EndState(Step(s, data[0]).0, data[1..])
  }

  /** What a message brings about, in order. */
  function Outputs(s: State, data: string): seq<Output>
    decreases |data|
  {
    if data == "" then [] else Emit(Step(s, data[0]).1) + Outputs(Step(s, data[0]).0, data[1..])
  }

  function EventsIn(os: seq<Output>): seq<nat> {
    if os == [] then []
    else (if os[0].Event? then [os[0].byte] else []) + EventsIn(os[1..])
  }

  /** The registers and complaints, which are printed as they come. */
  function ReportsIn(os: seq<Output>): seq<Output> {
    if os == [] then []
    else (if os[0].Event? then [] else [os[0]]) + ReportsIn(os[1..])
  }

  function ReportOf(o: Output): seq<Output> {
    if o.Event? || o.Silent? then [] else [o]
  }

  function EventOf(o: Output): seq<nat> {
    if o.Event? then [o.byte] else []
  }

  lemma OutputsSplit(s: State, data: string)
    requires data != ""
    ensures var (t, o) := Step(s, data[0]);
            && EventsIn(Outputs(s, data)) == EventOf(o) + EventsIn(Outputs(t, data[1..]))
            && ReportsIn(Outputs(s, data)) == ReportOf(o) + ReportsIn(Outputs(t, data[1..]))
  {
    var (t, o) := Step(s, data[0]);
    if o.Silent? {
      assert Outputs(s, data) == Outputs(t, data[1..]);
    } else {
      assert Outputs(s, data)[1..] == Outputs(t, data[1..]);
    }
  }

  lemma OutputsStep(s: State, data: string, printed: seq<Output>, events: seq<nat>)
    requires data != ""
    ensures var (t, o) := Step(s, data[0]);
            && EndState(s, data) == EndState(t, data[1..])
            && events + EventsIn(Outputs(s, data)) == (events + EventOf(o)) + EventsIn(Outputs(t, data[1..]))
            && printed + ReportsIn(Outputs(s, data)) == (printed + ReportOf(o)) + ReportsIn(Outputs(t, data[1..]))
  {
    var (t, o) := Step(s, data[0]);
    OutputsSplit(s, data);
    Regroup(events, EventOf(o), EventsIn(Outputs(t, data[1..])));
    Regroup(printed, ReportOf(o), ReportsIn(Outputs(t, data[1..])));
  }

  /** The body of the loop: the state variables after a character, and what it
      adds to what is printed and to the events. */
  method DecodeOne(curType0: int, i0: nat, c: char) returns (curType: int, i: nat, report: seq<Output>, event: seq<nat>)
    requires 0 <= curType0 <= 2
    ensures 0 <= curType <= 2
    ensures StateOf(curType, i) == Step(StateOf(curType0, i0), c).0
    ensures var o := Step(StateOf(curType0, i0), c).1;
            report == ReportOf(o) && event == EventOf(o)
  {
    curType, i, report, event := curType0, i0, [], [];
    if curType == 0 {
      if c == 'a' {
        curType := 1;
      } else if c >= 'A' && c <= 'P' {
        i := c as int - 'A' as int;
        curType := 2;
      } else {
        report := [UnknownType];
      }
    } else if curType == 1 {
      var r := c as int - 'a' as int;
      if r < 0 || r >= REGISTERS {
        report := [UnknownRegister];
      } else {
        report := [Register(r)];
      }
      curType := 0;
    } else {
      var i2 := c as int - 'A' as int;
      if c < 'A' || c > 'P' {
        report := [UnknownEventPart];
      } else {
        i := i * 16 + i2;
        event := [i];
      }
      curType := 0;
    }
  }

  /** The decoding loop: registers and complaints are printed as they come, event
      bytes are collected. */
  method Decode(message: string) returns (printed: seq<Output>, events: seq<nat>, end: State)
    ensures printed == ReportsIn(Outputs(Idle, message))
    ensures events == EventsIn(Outputs(Idle, message))
    ensures end == EndState(Idle, message)
  {
    var data := message;
    var curType, i := 0, 0;
    printed, events, end := [], [], Idle;
    while |data| > 0
      invariant 0 <= curType <= 2 && i >= 0 && end == StateOf(curType, i)
      invariant EndState(Idle, message) == EndState(end, data)
      invariant ReportsIn(Outputs(Idle, message)) == printed + ReportsIn(Outputs(end, data))
      invariant EventsIn(Outputs(Idle, message)) == events + EventsIn(Outputs(end, data))
      decreases |data|
    {
      OutputsStep(end, data, printed, events);
      var report, event;
      curType, i, report, event := DecodeOne(curType, i, data[0]);
      end := StateOf(curType, i);
      printed := printed + report;
      events := events + event;
      data := data[1..];
    }
  }

  function StateOf(curType: int, i: nat): State {
    if curType == 0 then Idle else if curType == 1 then InRegister else InEvent(i)
  }

  // ------------------------------------------------------------------
  // The encoding
  // ------------------------------------------------------------------

  predicate Sendable(o: Output) {
    (o.Register? && o.index < REGISTERS) || (o.Event? && o.byte < 0x100)
  }

  function Encode(o: Output): string
    requires Sendable(o)
  {
    match o
    case Register(i) => ['a', 'a' + i as char]
    case Event(b) => ['A' + (b / 16) as char, 'A' + (b % 16) as char]
  }

  function EncodeAll(os: seq<Output>): string
    requires forall o :: o in os ==> Sendable(o)
  {
    if os == [] then "" else Encode(os[0]) + EncodeAll(os[1..])
  }

  lemma TwoSteps(s: string, o: Output)
    requires |s| > 1 && Step(Idle, s[0]).1.Silent? && Step(Step(Idle, s[0]).0, s[1]) == (Idle, o) && !o.Silent?
    ensures EndState(Idle, s) == EndState(Idle, s[2..]) && Outputs(Idle, s) == [o] + Outputs(Idle, s[2..])
  {
    assert s[1..][0] == s[1] && s[1..][1..] == s[2..];
  }

  /** What an item of two characters means: `a` and the letter of a register, or the
      two halves of a byte, the high one first; anything else is complained about. */
  lemma ItemMeans(c: char, d: char)
    ensures c == 'a' && 'a' <= d <= 'i' ==> Outputs(Idle, [c, d]) == [Register(d as int - 'a' as int)]
    ensures c == 'a' && !('a' <= d <= 'i') ==> Outputs(Idle, [c, d]) == [UnknownRegister]
    ensures 'A' <= c <= 'P' && 'A' <= d <= 'P' ==>
      Outputs(Idle, [c, d]) == [Event(16 * (c as int - 'A' as int) + (d as int - 'A' as int))]
    ensures 'A' <= c <= 'P' && !('A' <= d <= 'P') ==> Outputs(Idle, [c, d]) == [UnknownEventPart]
    ensures c != 'a' && !('A' <= c <= 'P') ==> Outputs(Idle, [c]) == [UnknownType]
  {
    assert [c, d][1..] == [d] && [d][1..] == [] && [c][1..] == [];
    assert Outputs(Step(Step(Idle, c).0, d).0, []) == [] && Outputs(Step(Idle, c).0, []) == [];
    assert Outputs(Step(Idle, c).0, [d]) == Emit(Step(Step(Idle, c).0, d).1);
  }

  /** Whatever registers and event bytes are sent, in whatever order, are decoded
      in that order, with nothing left over. */
  lemma {:induction false} DecodeInvertsEncode(os: seq<Output>)
    requires forall o :: o in os ==> Sendable(o)
    ensures EndState(Idle, EncodeAll(os)) == Idle && Outputs(Idle, EncodeAll(os)) == os
  {
    if os != [] {
      var e, rest := Encode(os[0]), EncodeAll(os[1..]);
      DecodeInvertsEncode(os[1..]);
      assert Sendable(os[0]);
      assert (e + rest)[0] == e[0] && (e + rest)[1] == e[1] && (e + rest)[2..] == rest;
      TwoSteps(e + rest, os[0]);
    }
  }

  predicate Complaint(o: Output) {
    o.UnknownType? || o.UnknownRegister? || o.UnknownEventPart?
  }

  /** A message is decoded without complaint and without a half item at the end
      exactly when it is the encoding of some items, which are those decoded. */
  lemma CleanIffEncoded(data: string)
    ensures EndState(Idle, data) == Idle && (forall o :: o in Outputs(Idle, data) ==> !Complaint(o))
            <==> exists os | (forall o :: o in os ==> Sendable(o)) :: data == EncodeAll(os)
  {
    if EndState(Idle, data) == Idle && (forall o :: o in Outputs(Idle, data) ==> !Complaint(o)) {
      CleanIsEncoded(data);
      var os := Outputs(Idle, data);
      assert (forall o :: o in os ==> Sendable(o)) && data == EncodeAll(os);
    }
    if os: seq<Output> :| (forall o :: o in os ==> Sendable(o)) && data == EncodeAll(os) {
      DecodeInvertsEncode(os);
    }
  }

  lemma UnknownReported(data: string)
    requires data != "" && Step(Idle, data[0]).1 == UnknownType
    ensures UnknownType in Outputs(Idle, data)
  {
    assert Outputs(Idle, data)[0] == UnknownType;
  }

  lemma HalfItem(data: string)
    requires |data| == 1
    ensures EndState(Idle, data) == Step(Idle, data[0]).0
  {
    assert data[1..] == "";
  }

  lemma {:induction false} CleanIsEncoded(data: string)
    requires EndState(Idle, data) == Idle
    requires forall o :: o in Outputs(Idle, data) ==> !Complaint(o)
    ensures forall o :: o in Outputs(Idle, data) ==> Sendable(o)
    ensures data == EncodeAll(Outputs(Idle, data))
    decreases |data|
  {
    var os := Outputs(Idle, data);
    if data != "" {
      var t, first := Step(Idle, data[0]).0, Step(Idle, data[0]).1;
      if first == UnknownType { UnknownReported(data); }
      if |data| == 1 { HalfItem(data); }
      var o := Step(t, data[1]).1;
      TwoSteps(data, o);
      assert os[0] == o && os[1..] == Outputs(Idle, data[2..]);
      assert o in os;
      CleanIsEncoded(data[2..]);
      EncodeTwo(data[0], data[1]);
      assert data == data[..2] + data[2..];
      assert forall x :: x in os <==> x == o || x in os[1..];
    }
  }

  lemma EncodeTwo(c: char, d: char)
    requires Step(Idle, c).1.Silent? && !Complaint(Step(Step(Idle, c).0, d).1)
    ensures var o := Step(Step(Idle, c).0, d).1;
            Sendable(o) && Encode(o) == [c, d]
  {
    if c != 'a' {
      var h, l := c as int - 'A' as int, d as int - 'A' as int;
      assert (h * 16 + l) / 16 == h && (h * 16 + l) % 16 == l;
    }
  }

  function Width(o: Output): nat {
    if o.UnknownType? then 1 else 2
  }

  function WidthAll(os: seq<Output>): nat {
    if os == [] then 0 else Width(os[0]) + WidthAll(os[1..])
  }

  /** On any input every character is used once: an unknown type is one, anything
      else reported is two, and at most one is left waiting for its second part. */
  lemma {:induction false} EveryCharacterCounts(data: string)
    ensures |data| == WidthAll(Outputs(Idle, data)) + if EndState(Idle, data).Idle? then 0 else 1
    decreases |data|
  {
    if data != "" {
      var t, o := Step(Idle, data[0]).0, Step(Idle, data[0]).1;
      if !o.Silent? {
        EveryCharacterCounts(data[1..]);
        assert Outputs(Idle, data)[1..] == Outputs(Idle, data[1..]);
      } else if |data| == 1 {
        assert EndState(t, data[1..]) == t && Outputs(t, data[1..]) == [];
      } else {
        TwoSteps(data, Step(t, data[1]).1);
        EveryCharacterCounts(data[2..]);
        assert Outputs(Idle, data)[1..] == Outputs(Idle, data[2..]);
      }
    }
  }
}
