/** The nested counter sets of the side-channel tool. */
module SideChannel {

  // ------------------------------------------------------------------
  // Counter sets
  // ------------------------------------------------------------------

  /** A counter set holds its attributes in the order of its layout, each a number
      or another set. */
  datatype Counters = Counters(attrs: seq<Attr>)

  datatype Attr = Number(name: string, value: int) | Nested(name: string, below: Counters)

  /** How many numbers there are, in all the sets below. */
  function Leaves(attrs: seq<Attr>): nat {
    if attrs == [] then 0
    else LeavesOf(attrs[0]) + Leaves(attrs[1..])
  }

  function LeavesOf(a: Attr): nat {
    match a
    case Number(_, _) => 1
    case Nested(_, below) => Leaves(below.attrs)
  }

  /** The numbers, in order. */
  function Values(attrs: seq<Attr>): (vs: seq<int>)
    ensures |vs| == Leaves(attrs)
  {
    if attrs == [] then []
    else ValuesOf(attrs[0]) + Values(attrs[1..])
  }

  function ValuesOf(a: Attr): (vs: seq<int>)
    ensures |vs| == LeavesOf(a)
  {
    match a
    case Number(_, v) => [v]
    case Nested(_, below) => Values(below.attrs)
  }

  /** `_get_struct_format`. */
  function Format(attrs: seq<Attr>): string {
    if attrs == [] then ""
    else
      (match attrs[0]
       case Number(_, _) => "i"
       case Nested(_, below) => Format(below.attrs)) + Format(attrs[1..])
  }

  /** The names and their nesting, without the numbers. */
  function Shape(attrs: seq<Attr>): (s: seq<Attr>)
    ensures |s| == |attrs|
  {
    if attrs == [] then []
    else [ShapeOf(attrs[0])] + Shape(attrs[1..])
  }

  function ShapeOf(a: Attr): Attr {
    match a
    case Number(name, _) => Number(name, 0)
    case Nested(name, below) => Nested(name, Counters(Shape(below.attrs)))
  }

  /** Whether `n` numbers get through the loop: entering a set, even an empty one,
      takes some data to be left. */
  predicate Accepts(attrs: seq<Attr>, n: nat) {
    attrs == []
    || (AcceptsOne(attrs[0], n) && n >= LeavesOf(attrs[0]) && Accepts(attrs[1..], n - LeavesOf(attrs[0])))
  }

  predicate AcceptsOne(a: Attr, n: nat) {
    n > 0 && (a.Nested? ==> Accepts(a.below.attrs, n))
  }

  /** Nothing without numbers comes after the last number. */
  predicate EndsInNumber(attrs: seq<Attr>) {
    attrs == [] || (if |attrs| == 1 then EndsInNumberOne(attrs[0]) else EndsInNumber(attrs[1..]))
  }

  predicate EndsInNumberOne(a: Attr) {
    a.Nested? ==> a.below.attrs != [] && EndsInNumber(a.below.attrs)
  }

  lemma {:induction false} EndsInNumberHasOne(attrs: seq<Attr>)
    requires attrs != [] && EndsInNumber(attrs)
    ensures Leaves(attrs) > 0
  {
    if |attrs| == 1 {
      if attrs[0].Nested? { EndsInNumberHasOne(attrs[0].below.attrs); }
    } else {
      EndsInNumberHasOne(attrs[1..]);
    }
  }

  /** Data gets through exactly when there is more of it than numbers, or just as
      much and the layout does not end in an empty set. */
  lemma {:induction false} AcceptsIff(attrs: seq<Attr>, n: nat)
    ensures Accepts(attrs, n) <==> n > Leaves(attrs) || (n == Leaves(attrs) && EndsInNumber(attrs))
  {
    if attrs != [] {
      var a, tail := attrs[0], attrs[1..];
      if a.Nested? { AcceptsIff(a.below.attrs, n); }
      if n >= LeavesOf(a) { AcceptsIff(tail, n - LeavesOf(a)); }
      if EndsInNumber(attrs) { EndsInNumberHasOne(attrs); }
      if tail != [] && EndsInNumber(tail) { EndsInNumberHasOne(tail); }
      if a.Nested? && a.below.attrs != [] && EndsInNumber(a.below.attrs) { EndsInNumberHasOne(a.below.attrs); }
      assert |attrs| == 1 <==> tail == [];
    }
  }

  lemma AcceptsOneIff(a: Attr, n: nat)
    ensures AcceptsOne(a, n) <==> n > LeavesOf(a) || (n == LeavesOf(a) && EndsInNumberOne(a))
  {
    if a.Nested? {
      AcceptsIff(a.below.attrs, n);
      if a.below.attrs != [] && EndsInNumber(a.below.attrs) { EndsInNumberHasOne(a.below.attrs); }
    }
  }

  /** Whether `_update` returns when it is given `n` numbers. */
  predicate Succeeds(attrs: seq<Attr>, n: nat) {
    n > 0 && Accepts(attrs, n)
  }

  /** It throws on less data than numbers, and on just as much if the layout is
      empty or ends in an empty set. */
  lemma UpdateSucceedsIff(attrs: seq<Attr>, n: nat)
    ensures Succeeds(attrs, n) <==> n > Leaves(attrs) || (n == Leaves(attrs) && attrs != [] && EndsInNumber(attrs))
  {
    AcceptsIff(attrs, n);
    if attrs != [] && EndsInNumber(attrs) { EndsInNumberHasOne(attrs); }
  }

  /** A number and an empty set after it: one number is not enough. */
  lemma EmptySetExample(value: int)
    ensures var attrs := [Number("resets", value), Nested("spare", Counters([]))];
            Leaves(attrs) == 1 && !Succeeds(attrs, 1) && Succeeds(attrs, 2) && Succeeds(attrs[..1], 1)
  {
    var attrs := [Number("resets", value), Nested("spare", Counters([]))];
    assert attrs[1..] == [attrs[1]] && attrs[1..][1..] == [] && attrs[..1] == [attrs[0]] && attrs[..1][1..] == [];
    assert Leaves(attrs[1..]) == 0 && !EndsInNumber(attrs[1..]);
    UpdateSucceedsIff(attrs, 1);
    UpdateSucceedsIff(attrs, 2);
    UpdateSucceedsIff(attrs[..1], 1);
  }

  /** Numbers are replaced in the order they are written, a set's before what is
      after it. */
  lemma FillExample()
    ensures var inner := [Number("b", 0), Number("c", 0)];
            var attrs := [Number("a", 0), Nested("n", Counters(inner)), Number("d", 0)];
            Fill(attrs, [1, 2, 3, 4, 5]) ==
              [Number("a", 1), Nested("n", Counters([Number("b", 2), Number("c", 3)])), Number("d", 4)]
  {
    var inner := [Number("b", 0), Number("c", 0)];
    var attrs := [Number("a", 0), Nested("n", Counters(inner)), Number("d", 0)];
    var data := [1, 2, 3, 4, 5];
    assert inner[1..] == [Number("c", 0)] && inner[1..][1..] == [];
    assert attrs[1..] == [attrs[1], attrs[2]] && attrs[2..] == [attrs[2]] && attrs[2..][1..] == [];
    assert attrs[1..][1..] == attrs[2..];
    assert Leaves(inner) == 2 && LeavesOf(attrs[1]) == 2;
    assert data[1..] == [2, 3, 4, 5] && data[1..][1..] == [3, 4, 5] && data[1..][2..] == [4, 5];
    FillCons(inner, data[1..]);
    FillCons(inner[1..], data[1..][1..]);
    assert Fill(inner, data[1..]) == [Number("b", 2), Number("c", 3)];
    assert Fill(attrs[2..], [4, 5]) == [Number("d", 4)];
    FillCons(attrs, data);
    FillCons(attrs[1..], data[1..]);
  }

  /** The format has one character for each number. */
  lemma {:induction false} FormatLength(attrs: seq<Attr>)
    ensures |Format(attrs)| == Leaves(attrs)
    ensures forall c :: c in Format(attrs) ==> c == 'i'
  {
    if attrs != [] {
      if attrs[0].Nested? { FormatLength(attrs[0].below.attrs); }
      FormatLength(attrs[1..]);
    }
  }

  function Drop(data: seq<int>, n: nat): seq<int> {
    if n <= |data| then data[n..] else []
  }

  /** The counters with their first numbers replaced by the data, as many as there are. */
  function Fill(attrs: seq<Attr>, data: seq<int>): (r: seq<Attr>)
    ensures |r| == |attrs|
  {
    if attrs == [] then []
    else [FillOne(attrs[0], data)] + Fill(attrs[1..], Drop(data, LeavesOf(attrs[0])))
  }

  function FillOne(a: Attr, data: seq<int>): Attr {
    match a
    case Number(name, v) => if data == [] then a else Number(name, data[0])
    case Nested(name, below) => Nested(name, Counters(Fill(below.attrs, data)))
  }

  /** The values after filling: the data taken up, then the old values that were
      not reached. */
  function Overwritten(values: seq<int>, data: seq<int>): seq<int> {
    if |values| <= |data| then data[..|values|] else data + values[|data|..]
  }

  lemma OverwrittenAt(values: seq<int>, data: seq<int>, i: nat)
    requires i < |values|
    ensures |Overwritten(values, data)| == |values|
    ensures Overwritten(values, data)[i] == if i < |data| then data[i] else values[i]
  {}

  lemma OverwrittenSplit(a: seq<int>, b: seq<int>, data: seq<int>)
    ensures Overwritten(a + b, data) == Overwritten(a, data) + Overwritten(b, Drop(data, |a|))
  {
    var l, r := Overwritten(a + b, data), Overwritten(a, data) + Overwritten(b, Drop(data, |a|));
    assert |l| == |r|;
    forall i | 0 <= i < |l| ensures l[i] == r[i] {
      OverwrittenAt(a + b, data, i);
      if i < |a| {
        OverwrittenAt(a, data, i);
      } else {
        OverwrittenAt(b, Drop(data, |a|), i - |a|);
      }
    }
  }

  lemma FillCons(attrs: seq<Attr>, data: seq<int>)
    requires attrs != []
    ensures Fill(attrs, data)[0] == FillOne(attrs[0], data)
    ensures Fill(attrs, data)[1..] == Fill(attrs[1..], Drop(data, LeavesOf(attrs[0])))
  {}

  /** Filling leaves the names and their nesting alone. */
  lemma {:induction false} FillKeepsShape(attrs: seq<Attr>, data: seq<int>)
    ensures Shape(Fill(attrs, data)) == Shape(attrs)
  {
    if attrs != [] {
      FillCons(attrs, data);
      if attrs[0].Nested? { FillKeepsShape(attrs[0].below.attrs, data); }
      FillKeepsShape(attrs[1..], Drop(data, LeavesOf(attrs[0])));
    }
  }

  /** Reading the numbers back gives the data that was consumed, followed by what
      it did not reach. */
  lemma {:induction false} FillReadsBack(attrs: seq<Attr>, data: seq<int>)
    ensures Values(Fill(attrs, data)) == Overwritten(Values(attrs), data)
  {
    if attrs != [] {
      FillCons(attrs, data);
      if attrs[0].Nested? { FillReadsBack(attrs[0].below.attrs, data); }
      FillReadsBack(attrs[1..], Drop(data, LeavesOf(attrs[0])));
      assert ValuesOf(FillOne(attrs[0], data)) == Overwritten(ValuesOf(attrs[0]), data);
      OverwrittenSplit(ValuesOf(attrs[0]), Values(attrs[1..]), data);
    }
  }

  lemma {:induction false} FillWithNothing(attrs: seq<Attr>)
    ensures Fill(attrs, []) == attrs
  {
    if attrs != [] {
      if attrs[0].Nested? { FillWithNothing(attrs[0].below.attrs); }
      FillWithNothing(attrs[1..]);
    }
  }

  /** `_update`: the numbers are replaced in the order of the layout until either
      runs out. With enough data what is left over is returned; otherwise it
      throws, after having replaced as many as there were. */
  method Update(c: Counters, data: seq<int>) returns (updated: Counters, rest: seq<int>, ok: bool)
    ensures updated.attrs == Fill(c.attrs, data)
    ensures ok <==> Succeeds(c.attrs, |data|)
    ensures ok ==> |data| >= Leaves(c.attrs) && rest == data[Leaves(c.attrs)..]
    decreases c
  {
    updated, rest := c, data;
    if |data| == 0 {
      FillWithNothing(c.attrs);
      return updated, rest, false;
    }
    var attrs := c.attrs;
    var i := 0;
    assert attrs[0..] == attrs;
    while i < |attrs|
      invariant Filling(attrs, data, i, updated.attrs, rest)
    {
      AcceptsOneIff(attrs[i], |rest|);
      if AcceptsOne(attrs[i], |rest|) {
        FillingNext(attrs, data, i, updated.attrs, rest);
      } else {
        FillingStops(attrs, data, i, updated.attrs, rest);
      }
      var filled, left, fits := UpdateOne(attrs[i], rest);
      updated := Counters(updated.attrs[i := filled]);
      if !fits {
        return updated, rest, false;
      }
      rest := left;
      i := i + 1;
    }
    assert updated.attrs[..i] == updated.attrs;
    ok := true;
  }

  /** The first `i` attributes have taken their data and the rest are untouched. */
  ghost predicate Filling(attrs: seq<Attr>, data: seq<int>, i: nat, partial: seq<Attr>, rest: seq<int>) {
    && i <= |attrs| == |partial|
    && partial[i..] == attrs[i..] && (Accepts(attrs, |data|) <==> Accepts(attrs[i..], |rest|))
    && Fill(attrs, data) == partial[..i] + Fill(attrs[i..], rest)
    && |rest| <= |data| && rest == data[|data| - |rest|..]
    && |data| - |rest| == Leaves(attrs) - Leaves(attrs[i..])
  }

  lemma RestStep(data: seq<int>, rest: seq<int>, n: nat)
    requires n <= |rest| <= |data| && rest == data[|data| - |rest|..]
    ensures rest[n..] == data[|data| - |rest[n..]|..]
    ensures Drop(rest, n) == rest[n..]
  {}

  /** One turn of the loop with data enough for it. */
  lemma FillingNext(attrs: seq<Attr>, data: seq<int>, i: nat, partial: seq<Attr>, rest: seq<int>)
    requires Filling(attrs, data, i, partial, rest) && i < |attrs|
    requires AcceptsOne(attrs[i], |rest|) && |rest| >= LeavesOf(attrs[i])
    ensures Filling(attrs, data, i + 1, partial[i := FillOne(attrs[i], rest)], rest[LeavesOf(attrs[i])..])
  {
    AcceptsStep(attrs, i, |rest|);
    Advance(attrs, i, partial, data, rest);
    RestStep(data, rest, LeavesOf(attrs[i]));
  }

  lemma AcceptsStep(attrs: seq<Attr>, i: nat, n: nat)
    requires i < |attrs| && AcceptsOne(attrs[i], n) && n >= LeavesOf(attrs[i])
    ensures Accepts(attrs[i..], n) <==> Accepts(attrs[i + 1..], n - LeavesOf(attrs[i]))
  {
    assert attrs[i..][0] == attrs[i] && attrs[i..][1..] == attrs[i + 1..];
  }

  /** The turn at which the data runs out. */
  lemma FillingStops(attrs: seq<Attr>, data: seq<int>, i: nat, partial: seq<Attr>, rest: seq<int>)
    requires Filling(attrs, data, i, partial, rest) && i < |attrs|
    requires !AcceptsOne(attrs[i], |rest|)
    ensures Fill(attrs, data) == partial[i := FillOne(attrs[i], rest)] && !Accepts(attrs, |data|)
  {
    AcceptsOneIff(attrs[i], |rest|);
    assert attrs[i..][0] == attrs[i];
    Advance(attrs, i, partial, data, rest);
    FillWithNothing(attrs[i + 1..]);
    Rejoin(partial[i := FillOne(attrs[i], rest)], i + 1);
  }

  lemma Rejoin(attrs: seq<Attr>, i: nat)
    requires i <= |attrs|
    ensures attrs[..i] + attrs[i..] == attrs
  {}

  /** What the loop does for one name. */
  method UpdateOne(a: Attr, data: seq<int>) returns (filled: Attr, rest: seq<int>, ok: bool)
    ensures filled == FillOne(a, data)
    ensures ok <==> AcceptsOne(a, |data|)
    ensures ok ==> |data| >= LeavesOf(a) && rest == data[LeavesOf(a)..]
    decreases a
  {
    match a {
      case Number(name, _) =>
        if |data| == 0 {
          return a, data, false;
        }
        return Number(name, data[0]), data[1..], true;
      case Nested(name, below) =>
        var inner, left, fits := Update(below, data);
        return Nested(name, inner), left, fits;
    }
  }

  lemma FillHead(attrs: seq<Attr>, i: nat, rest: seq<int>)
    requires i < |attrs|
    ensures Fill(attrs[i..], rest) == [FillOne(attrs[i], rest)] + Fill(attrs[i + 1..], Drop(rest, LeavesOf(attrs[i])))
    ensures Leaves(attrs[i..]) == LeavesOf(attrs[i]) + Leaves(attrs[i + 1..])
  {
    assert attrs[i..][1..] == attrs[i + 1..];
  }

  /** One turn of the loop, on the values. */
  lemma Advance(attrs: seq<Attr>, i: nat, partial: seq<Attr>, data: seq<int>, rest: seq<int>)
    requires i < |attrs| == |partial|
    requires Fill(attrs, data) == partial[..i] + Fill(attrs[i..], rest)
    requires partial[i..] == attrs[i..]
    ensures var next := partial[i := FillOne(attrs[i], rest)];
            && Fill(attrs, data) == next[..i + 1] + Fill(attrs[i + 1..], Drop(rest, LeavesOf(attrs[i])))
            && next[i + 1..] == attrs[i + 1..]
    ensures Leaves(attrs[i..]) == LeavesOf(attrs[i]) + Leaves(attrs[i + 1..])
  {
    FillHead(attrs, i, rest);
    var next := partial[i := FillOne(attrs[i], rest)];
    assert next[..i + 1] == partial[..i] + [FillOne(attrs[i], rest)];
    assert next[i + 1..] == partial[i..][1..];
  }
}
