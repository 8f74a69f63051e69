/** The listing tool's grouping of found addresses by serial number, erasing from
    the list as it goes. */
module FindDevices {
  import opened Addresses

  const SERIAL := "serial"

  /** What reading the serial through the non-const index operator leaves: an
      address without one gains an empty one. */
  function Touch(a: Address): Address {
    if HasKey(a, SERIAL) then a else a + [(SERIAL, "")]
  }

  function SerialOf(a: Address): string {
    if HasKey(a, SERIAL) then Get(a, SERIAL) else ""
  }

  type Values = map<string, set<string>>

  /** Serial number, key and value of an item that is listed. */
  type Fact = (string, string, string)

  function Facts(a: Address): set<Fact> {
    set i | 0 <= i < |a| && a[i].0 != SERIAL :: (SerialOf(a), a[i].0, a[i].1)
  }

  /** What matters of an address here. */
  datatype Row = Row(serial: string, facts: set<Fact>)

  function Rows(list: seq<Address>): (rows: seq<Row>)
    ensures |rows| == |list|
  {
    seq(|list|, i requires 0 <= i < |list| => Row(SerialOf(list[i]), Facts(list[i])))
  }

  function AllFacts(rows: seq<Row>): set<Fact> {
    if rows == [] then {} else rows[0].facts + AllFacts(rows[1..])
  }

  function Serials(rows: seq<Row>): set<string> {
    if rows == [] then {} else {rows[0].serial} + Serials(rows[1..])
  }

  /** The groups are those of the serials, and hold exactly the facts. */
  ghost predicate Groups(found: map<string, Values>, serials: set<string>, facts: set<Fact>) {
    && found.Keys == serials
    && (forall s, k :: s in found && k in found[s] ==> found[s][k] != {})
    && (forall s, k, v :: (s, k, v) in facts <==> s in found && k in found[s] && v in found[s][k])
  }

  // ------------------------------------------------------------------
  // Lists of addresses
  // ------------------------------------------------------------------

  lemma {:induction false} FactsConcat(a: seq<Row>, b: seq<Row>)
    ensures AllFacts(a + b) == AllFacts(a) + AllFacts(b)
  {
    if a == [] {
      assert a + b == b;
    } else {
      assert (a + b)[1..] == a[1..] + b;
      FactsConcat(a[1..], b);
    }
  }

  lemma {:induction false} SerialsConcat(a: seq<Row>, b: seq<Row>)
    ensures Serials(a + b) == Serials(a) + Serials(b)
  {
    if a == [] {
      assert a + b == b;
    } else {
      assert (a + b)[1..] == a[1..] + b;
      SerialsConcat(a[1..], b);
    }
  }

  lemma TouchSame(a: Address)
    ensures Facts(Touch(a)) == Facts(a) && SerialOf(Touch(a)) == SerialOf(a)
    ensures HasKey(Touch(a), SERIAL) && Get(Touch(a), SERIAL) == SerialOf(a)
  {
    var t := Touch(a);
    if !HasKey(a, SERIAL) {
      assert t[|a|] == (SERIAL, "");
      GetAt(t, |a|);
      forall f ensures f in Facts(t) <==> f in Facts(a) {
        if f in Facts(a) {
          var i :| 0 <= i < |a| && a[i].0 != SERIAL && f == (SerialOf(a), a[i].0, a[i].1);
          assert t[i] == a[i];
        }
      }
    }
  }

  lemma TouchRows(list: seq<Address>, j: nat)
    requires j < |list|
    ensures Rows(list[j := Touch(list[j])]) == Rows(list)
  {
    TouchSame(list[j]);
  }

  lemma {:induction false} SerialListed(rows: seq<Row>, i: nat)
    requires i < |rows|
    ensures rows[i].serial in Serials(rows)
  {
    if i > 0 { SerialListed(rows[1..], i - 1); }
  }

  /** A value is listed under a key of a serial exactly when some found address
      has that serial and holds that value under that key, the key not being
      "serial" itself. */
  lemma {:induction false} FactsMean(list: seq<Address>, s: string, k: string, v: string)
    ensures (s, k, v) in AllFacts(Rows(list)) <==>
      k != SERIAL && exists i :: 0 <= i < |list| && SerialOf(list[i]) == s && HasKey(list[i], k) && Get(list[i], k) == v
  {
    if list != [] {
      assert Rows(list)[1..] == Rows(list[1..]);
      FactsMean(list[1..], s, k, v);
      FactOf(list[0], s, k, v);
      if i: int :| 0 <= i < |list| && SerialOf(list[i]) == s && HasKey(list[i], k) && Get(list[i], k) == v {
        if i > 0 { assert list[1..][i - 1] == list[i]; }
      }
      if i: int :| 0 <= i < |list[1..]| && SerialOf(list[1..][i]) == s
                   && HasKey(list[1..][i], k) && Get(list[1..][i], k) == v {
        assert list[i + 1] == list[1..][i];
      }
    }
  }

  lemma FactOf(a: Address, s: string, k: string, v: string)
    ensures (s, k, v) in Facts(a) <==> k != SERIAL && SerialOf(a) == s && HasKey(a, k) && Get(a, k) == v
  {
    forall i | 0 <= i < |a| ensures HasKey(a, a[i].0) && Get(a, a[i].0) == a[i].1 { GetAt(a, i); }
    if k != SERIAL && HasKey(a, k) {
      var i :| 0 <= i < |a| && a[i].0 == k;
    }
  }

  // ------------------------------------------------------------------
  // The loops
  // ------------------------------------------------------------------

  function AddValue(values: Values, k: string, v: string): Values {
    values[k := (if k in values then values[k] else {}) + {v}]
  }

  /** The loop over the keys of one address. */
  method AddItems(found0: map<string, Values>, a: Address, ghost serials: set<string>, ghost facts: set<Fact>)
    returns (found: map<string, Values>)
    requires SerialOf(a) in found0 && Groups(found0, serials, facts)
    ensures Groups(found, serials, facts + Facts(a))
  {
    found := found0;
    var serial := SerialOf(a);
    ghost var added: set<Fact> := {};
    var i := 0;
    while i < |a|
      invariant i <= |a| && serial in found
      invariant Groups(found, serials, facts + added)
      invariant added == set j | 0 <= j < i && a[j].0 != SERIAL :: (serial, a[j].0, a[j].1)
    {
      var key := a[i].0;
      if key != SERIAL {
        GetAt(a, i);
        AddOne(found, serials, facts + added, serial, key, Get(a, key));
        assert facts + (added + {(serial, key, a[i].1)}) == facts + added + {(serial, key, a[i].1)};
        found := found[serial := AddValue(found[serial], key, Get(a, key))];
        added := added + {(serial, key, a[i].1)};
      }
      i := i + 1;
    }
    assert added == Facts(a);
  }

  lemma AddOne(found: map<string, Values>, serials: set<string>, facts: set<Fact>, s: string, k: string, v: string)
    requires Groups(found, serials, facts) && s in found
    ensures Groups(found[s := AddValue(found[s], k, v)], serials, facts + {(s, k, v)})
  {}

  /** The rows after the first `i`, together with the facts grouped so far, are
      all there is; and none of the first `i` serials comes again. */
  ghost predicate Progress(input: seq<Row>, rows: seq<Row>, i: nat, found: map<string, Values>, facts: set<Fact>) {
    && i <= |rows|
    && Groups(found, Serials(rows[..i]), facts)
    && facts + AllFacts(rows[i..]) == AllFacts(input)
    && Serials(rows) == Serials(input)
    && (forall j :: i <= j < |rows| ==> rows[j].serial !in found)
    && (forall j, k :: 0 <= j < k < i ==> rows[j].serial != rows[k].serial)
  }

  /** As Progress, while the rows from `j` on may still have the last serial. */
  ghost predicate Partial(input: seq<Row>, rows: seq<Row>, i: nat, j: nat,
                          found: map<string, Values>, facts: set<Fact>) {
    && i <= |rows| && Groups(found, Serials(rows[..i]), facts)
    && Remaining(input, rows, i, j, facts)
  }

  ghost predicate Remaining(input: seq<Row>, rows: seq<Row>, i: nat, j: nat, facts: set<Fact>) {
    && 0 < i <= j <= |rows|
    && facts + AllFacts(rows[i..]) == AllFacts(input)
    && Serials(rows) == Serials(input)
    && (forall k :: i <= k < j ==> rows[k].serial !in Serials(rows[..i]))
    && (forall k :: j <= k < |rows| ==> rows[k].serial in Serials(rows[..i]) ==> rows[k].serial == rows[i - 1].serial)
    && (forall k, l :: 0 <= k < l < i ==> rows[k].serial != rows[l].serial)
  }

  /** The grouping loop: every serial is listed once, with exactly the keys and
      values of the addresses that have it. */
  method GroupBySerial(input: seq<Address>) returns (found: map<string, Values>, list: seq<Address>)
    ensures Groups(found, Serials(Rows(input)), AllFacts(Rows(input)))
    ensures forall j, k :: 0 <= j < k < |list| ==> SerialOf(list[j]) != SerialOf(list[k])
    ensures Serials(Rows(list)) == Serials(Rows(input))
  {
    list, found := input, map[];
    ghost var facts: set<Fact> := {};
    var i := 0;
    while i < |list|
      invariant Progress(Rows(input), Rows(list), i, found, facts)
      decreases |list| - i
    {
      found, list, facts := GroupOne(Rows(input), list, i, found, facts);
      i := i + 1;
    }
    assert Rows(list)[..i] == Rows(list);
    forall j, k | 0 <= j < k < |list| ensures SerialOf(list[j]) != SerialOf(list[k]) {
      assert Rows(list)[j].serial != Rows(list)[k].serial;
    }
  }

  /** One turn of the outer loop: starts the group of an address and takes in all
      that belongs to it. */
  method GroupOne(ghost input: seq<Row>, list0: seq<Address>, i: nat,
                  found0: map<string, Values>, ghost facts0: set<Fact>)
    returns (found: map<string, Values>, list: seq<Address>, ghost facts: set<Fact>)
    requires i < |list0| && Progress(input, Rows(list0), i, found0, facts0)
    ensures i < |list| <= |list0| && Progress(input, Rows(list), i + 1, found, facts)
  {
    TouchRows(list0, i);
    TouchSame(list0[i]);
    list := list0[i := Touch(list0[i])];
    ghost var rows := Rows(list);
    var serial := Get(list[i], SERIAL);
    StartGroup(input, rows, i, found0, facts0);
    found := AddItems(found0[serial := map[]], list[i], Serials(rows[..i + 1]), facts0);
    StartPartial(input, rows, i, found0, found, facts0);
    found, list, facts := TakeSame(input, list, i + 1, serial, found, facts0 + Facts(list[i]));
  }

  lemma StartPartial(input: seq<Row>, rows: seq<Row>, i: nat, was: map<string, Values>,
                     found: map<string, Values>, facts: set<Fact>)
    requires i < |rows| && Progress(input, rows, i, was, facts)
    requires Groups(found, Serials(rows[..i + 1]), facts + rows[i].facts)
    ensures Partial(input, rows, i + 1, i + 1, found, facts + rows[i].facts)
  {
    StartGroup(input, rows, i, was, facts);
    assert found.Keys == was.Keys + {rows[i].serial};
  }

  /** Beginning the group of row `i`. */
  lemma StartGroup(input: seq<Row>, rows: seq<Row>, i: nat, found: map<string, Values>, facts: set<Fact>)
    requires i < |rows| && Progress(input, rows, i, found, facts)
    ensures Groups(found[rows[i].serial := map[]], Serials(rows[..i + 1]), facts)
    ensures facts + rows[i].facts + AllFacts(rows[i + 1..]) == AllFacts(input)
    ensures forall k :: 0 <= k < i ==> rows[k].serial != rows[i].serial
  {
    assert rows[..i + 1] == rows[..i] + [rows[i]];
    SerialsConcat(rows[..i], [rows[i]]);
    assert [rows[i]][1..] == [];
    assert rows[i..][1..] == rows[i + 1..];
    forall k | 0 <= k < i ensures rows[k].serial != rows[i].serial {
      SerialListed(rows[..i], k);
      assert rows[..i][k] == rows[k];
    }
  }

  /** The inner loop: whatever else has the serial is added to its group and
      erased from the list. */
  method TakeSame(ghost input: seq<Row>, list0: seq<Address>, i: nat, serial: string,
                  found0: map<string, Values>, ghost facts0: set<Fact>)
    returns (found: map<string, Values>, list: seq<Address>, ghost facts: set<Fact>)
    requires 0 < i <= |list0| && serial == SerialOf(list0[i - 1])
    requires Partial(input, Rows(list0), i, i, found0, facts0)
    ensures i <= |list| <= |list0|
    ensures Progress(input, Rows(list), i, found, facts)
  {
    found, list, facts := found0, list0, facts0;
    var j := i;
    while j < |list|
      invariant i <= j <= |list| <= |list0|
      invariant Partial(input, Rows(list), i, j, found, facts)
      invariant serial == Rows(list)[i - 1].serial
      decreases |list| - j
    {
      TouchRows(list, j);
      TouchSame(list[j]);
      list := list[j := Touch(list[j])];
      ghost var rows := Rows(list);
      assert rows[j] == Row(SerialOf(list[j]), Facts(list[j]));
      if Get(list[j], SERIAL) == serial {
        LastSerialFound(input, rows, i, j, found, facts);
        found := AddItems(found, list[j], Serials(rows[..i]), facts);
        Erased(input, rows, i, j, facts);
        RowsErase(list, j);
        facts := facts + Facts(list[j]);
        list := list[..j] + list[j + 1..];
      } else {
        Passed(input, rows, i, j, found, facts);
        j := j + 1;
      }
    }
    PartialDone(input, Rows(list), i, found, facts);
  }

  lemma PartialDone(input: seq<Row>, rows: seq<Row>, i: nat, found: map<string, Values>, facts: set<Fact>)
    requires Partial(input, rows, i, |rows|, found, facts)
    ensures Progress(input, rows, i, found, facts)
  {}

  lemma LastSerialFound(input: seq<Row>, rows: seq<Row>, i: nat, j: nat, found: map<string, Values>, facts: set<Fact>)
    requires Partial(input, rows, i, j, found, facts)
    ensures rows[i - 1].serial in found
  {
    SerialListed(rows[..i], i - 1);
  }

  lemma Isolate(rows: seq<Row>, i: nat, j: nat)
    requires i <= j < |rows|
    ensures AllFacts(rows[i..]) == rows[j].facts + AllFacts((rows[..j] + rows[j + 1..])[i..])
  {
    assert rows[i..] == rows[i..j] + rows[j..];
    assert rows[j..][1..] == rows[j + 1..];
    assert (rows[..j] + rows[j + 1..])[i..] == rows[i..j] + rows[j + 1..];
    FactsConcat(rows[i..j], rows[j..]);
    FactsConcat(rows[i..j], rows[j + 1..]);
  }

  lemma IsolateSerial(rows: seq<Row>, i: nat, j: nat)
    requires 0 < i <= j < |rows| && rows[j].serial == rows[i - 1].serial
    ensures Serials(rows[..j] + rows[j + 1..]) == Serials(rows)
  {
    assert rows == rows[..j] + rows[j..];
    assert rows[j..][1..] == rows[j + 1..];
    SerialsConcat(rows[..j], rows[j..]);
    SerialsConcat(rows[..j], rows[j + 1..]);
    SerialListed(rows[..j], i - 1);
  }

  /** Erasing a row once its facts are grouped: its serial, being that of an
      earlier row, stays listed. */
  lemma Erased(input: seq<Row>, rows: seq<Row>, i: nat, j: nat, facts: set<Fact>)
    requires Remaining(input, rows, i, j, facts) && j < |rows| && rows[j].serial == rows[i - 1].serial
    ensures (rows[..j] + rows[j + 1..])[..i] == rows[..i]
    ensures Remaining(input, rows[..j] + rows[j + 1..], i, j, facts + rows[j].facts)
  {
    var less := rows[..j] + rows[j + 1..];
    Isolate(rows, i, j);
    IsolateSerial(rows, i, j);
    assert less[..i] == rows[..i];
    forall k | j <= k < |less| ensures less[k] == rows[k + 1] {}
  }

  lemma RowsErase(list: seq<Address>, j: nat)
    requires j < |list|
    ensures Rows(list[..j] + list[j + 1..]) == Rows(list)[..j] + Rows(list)[j + 1..]
  {}

  /** A row of another serial is passed over. */
  lemma Passed(input: seq<Row>, rows: seq<Row>, i: nat, j: nat, found: map<string, Values>, facts: set<Fact>)
    requires Partial(input, rows, i, j, found, facts) && j < |rows| && rows[j].serial != rows[i - 1].serial
    ensures Partial(input, rows, i, j + 1, found, facts)
  {}
}
