/** Finding and making devices: the two ways duplicates are removed, and the
    table of devices already made. */
module Discovery {
  import opened Common
  import opened Addresses

  datatype Filter = Any | Usrp | Clock

  /** Names one of the registered make functions. */
  type Maker = nat

  /** A registered driver: what its find function gives, or that it throws. */
  datatype Driver = Driver(found: Result<seq<Address>, string>, maker: Maker, kind: Filter)

  type Pair = (Address, Maker)

  datatype Error = KeyError | IndexError | MakerError

  predicate Selected(d: Driver, filter: Filter) {
    filter == Any || d.kind == filter
  }

  function WithMaker(addrs: seq<Address>, maker: Maker): seq<Pair> {
    seq(|addrs|, i requires 0 <= i < |addrs| => (addrs[i], maker))
  }

  /** What discovery gives: the addresses of the selected drivers in order of
      registration; a driver that throws contributes nothing. */
  function Discovered(drivers: seq<Driver>, filter: Filter): seq<Pair> {
    if drivers == [] then []
    else
      var d := drivers[|drivers| - 1];
      Discovered(drivers[..|drivers| - 1], filter)
        + if Selected(d, filter) && d.found.Ok? then WithMaker(d.found.value, d.maker) else []
  }

  /** A pair is discovered exactly if the address is one that a driver found which
      the filter selects, by being for any or for that kind, and the maker its. */
  lemma {:induction false} DiscoveredIff(drivers: seq<Driver>, filter: Filter, addr: Address, maker: Maker)
    ensures (addr, maker) in Discovered(drivers, filter) <==>
      exists d :: d in drivers && (filter == Any || d.kind == filter)
        && d.found.Ok? && addr in d.found.value && d.maker == maker
    decreases |drivers|
  {
    if drivers != [] {
      var front, last := drivers[..|drivers| - 1], drivers[|drivers| - 1];
      DiscoveredIff(front, filter, addr, maker);
      assert drivers == front + [last];
      if last.found.Ok? {
        InWithMaker(last.found.value, last.maker, addr, maker);
      }
    }
  }

  lemma InWithMaker(addrs: seq<Address>, own: Maker, addr: Address, maker: Maker)
    ensures (addr, maker) in WithMaker(addrs, own) <==> addr in addrs && maker == own
  {
    var pairs := WithMaker(addrs, own);
    if addr in addrs && maker == own {
      var i :| 0 <= i < |addrs| && addrs[i] == addr;
      assert pairs[i] == (addr, maker);
    }
  }

  /** A driver's place in the registration and an address's among those it found. */
  datatype Place = Place(driver: nat, find: nat)

  /** Before in the order of the drivers, and of what each found. */
  predicate Earlier(a: Place, b: Place) {
    a.driver < b.driver || (a.driver == b.driver && a.find < b.find)
  }

  /** There is a find at this place, and the filter lets it through. */
  predicate FindAt(drivers: seq<Driver>, filter: Filter, place: Place) {
    && place.driver < |drivers|
    && (filter == Any || drivers[place.driver].kind == filter)
    && drivers[place.driver].found.Ok?
    && place.find < |drivers[place.driver].found.value|
  }

  function PairAt(drivers: seq<Driver>, filter: Filter, place: Place): Pair
    requires FindAt(drivers, filter, place)
  {
    (drivers[place.driver].found.value[place.find], drivers[place.driver].maker)
  }

  /** The places of `n` finds of driver `k`. */
  function Places(k: nat, n: nat): (places: seq<Place>)
    ensures |places| == n && forall j :: 0 <= j < n ==> places[j] == Place(k, j)
    ensures forall place :: place in places <==> place.driver == k && place.find < n
  {
    var places := seq(n, j requires 0 <= j < n => Place(k, j));
    assert forall j :: 0 <= j < n ==> places[j] == Place(k, j);
    places
  }

  /** The places of the finds of the last driver, if the filter lets it through. */
  function LastPlaces(drivers: seq<Driver>, filter: Filter): (places: seq<Place>)
    requires drivers != []
    ensures forall place :: place in places <==>
              FindAt(drivers, filter, place) && place.driver == |drivers| - 1
    ensures forall n :: 0 <= n < |places| ==> places[n] == Place(|drivers| - 1, n)
  {
    var last := drivers[|drivers| - 1];
    if (filter == Any || last.kind == filter) && last.found.Ok? then Places(|drivers| - 1, |last.found.value|) else []
  }

  /** The pairs are exactly such finds, each with the maker of its driver, in order. */
  lemma {:induction false} DiscoveredInOrder(drivers: seq<Driver>, filter: Filter) returns (at: seq<Place>)
    ensures forall place :: place in at <==> FindAt(drivers, filter, place)
    ensures forall m, n :: 0 <= m < n < |at| ==> Earlier(at[m], at[n])
    ensures |at| == |Discovered(drivers, filter)|
    ensures forall n :: 0 <= n < |at| ==>
              FindAt(drivers, filter, at[n]) && Discovered(drivers, filter)[n] == PairAt(drivers, filter, at[n])
    decreases |drivers|
  {
    if drivers == [] {
      at := [];
    } else {
      var front := drivers[..|drivers| - 1];
      var before := DiscoveredInOrder(front, filter);
      var here := LastPlaces(drivers, filter);
      at := before + here;
      forall place ensures place in at <==> FindAt(drivers, filter, place) {
        FrontFindAt(drivers, filter, place);
      }
      forall n | 0 <= n < |at| ensures Discovered(drivers, filter)[n] == PairAt(drivers, filter, at[n]) {
        assert at[n] in at;
        FrontFindAt(drivers, filter, at[n]);
        LastPairs(drivers, filter, n - |before|);
      }
      forall m, n | 0 <= m < n < |at| ensures Earlier(at[m], at[n]) {
        assert m < |before| ==> at[m] in before;
      }
    }
  }

  lemma FrontFindAt(drivers: seq<Driver>, filter: Filter, place: Place)
    requires drivers != []
    ensures var front := drivers[..|drivers| - 1];
            && (FindAt(front, filter, place) <==> FindAt(drivers, filter, place) && place.driver < |drivers| - 1)
            && (FindAt(front, filter, place) ==> PairAt(front, filter, place) == PairAt(drivers, filter, place))
  {}

  lemma LastPairs(drivers: seq<Driver>, filter: Filter, j: int)
    requires drivers != []
    ensures var before, here := Discovered(drivers[..|drivers| - 1], filter), LastPlaces(drivers, filter);
            && |Discovered(drivers, filter)| == |before| + |here|
            && before == Discovered(drivers, filter)[..|before|]
            && (0 <= j < |here| ==>
                  FindAt(drivers, filter, here[j])
                  && Discovered(drivers, filter)[|before| + j] == PairAt(drivers, filter, here[j]))
  {
    var last := drivers[|drivers| - 1];
    var before, here := Discovered(drivers[..|drivers| - 1], filter), LastPlaces(drivers, filter);
    var more := if Selected(last, filter) && last.found.Ok? then WithMaker(last.found.value, last.maker) else [];
    assert Discovered(drivers, filter) == before + more && |more| == |here|;
    if 0 <= j < |here| {
      assert here[j] in here && more[j] == PairAt(drivers, filter, here[j]);
    }
  }

  /** `discover_devices_with_makers`. */
  method Discover(drivers: seq<Driver>, filter: Filter) returns (pairs: seq<Pair>)
    ensures pairs == Discovered(drivers, filter)
    ensures forall addr, maker :: (addr, maker) in pairs <==>
      exists d :: d in drivers && (filter == Any || d.kind == filter)
        && d.found.Ok? && addr in d.found.value && d.maker == maker
  {
    pairs := [];
    for i := 0 to |drivers|
      invariant pairs == Discovered(drivers[..i], filter)
    {
      var d := drivers[i];
      assert drivers[..i + 1][..i] == drivers[..i];
      if Selected(d, filter) && d.found.Ok? {
        var j := 0;
        while j < |d.found.value|
          invariant j <= |d.found.value|
          invariant pairs == Discovered(drivers[..i], filter) + WithMaker(d.found.value, d.maker)[..j]
        {
          pairs := pairs + [(d.found.value[j], d.maker)];
          j := j + 1;
        }
      }
    }
    assert drivers[..|drivers|] == drivers;
    forall addr, maker { DiscoveredIff(drivers, filter, addr, maker); }
  }

  // ------------------------------------------------------------------
  // Removing duplicates
  // ------------------------------------------------------------------

  /** The elements whose key has not come before, in order. */
  function Firsts<T>(key: T -> nat, xs: seq<T>): seq<T> {
    if xs == [] then []
    else
      var front, last := xs[..|xs| - 1], xs[|xs| - 1];
      Firsts(key, front) + if Seen(key, front, key(last)) then [] else [last]
  }

  predicate Seen<T>(key: T -> nat, xs: seq<T>, k: nat) {
    exists i :: 0 <= i < |xs| && key(xs[i]) == k
  }

  /** The positions `Firsts` takes its elements from. */
  predicate FirstAt<T>(key: T -> nat, xs: seq<T>, i: int) {
    0 <= i < |xs| && forall j :: 0 <= j < i ==> key(xs[j]) != key(xs[i])
  }

  function Positions<T>(key: T -> nat, xs: seq<T>): seq<nat> {
    if xs == [] then []
    else
      var front, last := xs[..|xs| - 1], xs[|xs| - 1];
      Positions(key, front) + if Seen(key, front, key(last)) then [] else [|front|]
  }

  lemma {:induction false} PositionsAscend<T>(key: T -> nat, xs: seq<T>)
    ensures forall n :: 0 <= n < |Positions(key, xs)| ==> Positions(key, xs)[n] < |xs|
    ensures forall m, n :: 0 <= m < n < |Positions(key, xs)| ==> Positions(key, xs)[m] < Positions(key, xs)[n]
    decreases |xs|
  {
    if xs != [] { PositionsAscend(key, xs[..|xs| - 1]); }
  }

  lemma {:induction false} PositionsOfFirsts<T>(key: T -> nat, xs: seq<T>, i: nat)
    ensures i in Positions(key, xs) <==> FirstAt(key, xs, i)
    decreases |xs|
  {
    if xs != [] {
      var front, last := xs[..|xs| - 1], xs[|xs| - 1];
      PositionsOfFirsts(key, front, i);
      assert xs == front + [last];
      if i == |front| {
        LastIsFirst(key, front, last);
      } else {
        FirstAtFront(key, front, last, i);
      }
    }
  }

  lemma {:induction false} FirstsByPosition<T>(key: T -> nat, xs: seq<T>)
    ensures |Firsts(key, xs)| == |Positions(key, xs)|
    ensures forall n :: 0 <= n < |Positions(key, xs)| ==>
      Positions(key, xs)[n] < |xs| && Firsts(key, xs)[n] == xs[Positions(key, xs)[n]]
    decreases |xs|
  {
    if xs != [] { FirstsByPosition(key, xs[..|xs| - 1]); }
  }

  /** Removing duplicates takes, in order, exactly the elements at which a key
      comes for the first time. */
  lemma FirstsAreFirst<T>(key: T -> nat, xs: seq<T>)
    ensures var at := Positions(key, xs);
            && |at| == |Firsts(key, xs)|
            && (forall m, n :: 0 <= m < n < |at| ==> at[m] < at[n])
            && (forall n :: 0 <= n < |at| ==> at[n] < |xs| && Firsts(key, xs)[n] == xs[at[n]])
            && (forall i: nat :: i in at <==> FirstAt(key, xs, i))
  {
    PositionsAscend(key, xs);
    FirstsByPosition(key, xs);
    forall i: nat ensures i in Positions(key, xs) <==> FirstAt(key, xs, i) { PositionsOfFirsts(key, xs, i); }
  }

  lemma FirstAtFront<T>(key: T -> nat, front: seq<T>, last: T, i: int)
    requires i != |front|
    ensures FirstAt(key, front + [last], i) <==> FirstAt(key, front, i)
  {
    if 0 <= i < |front| {
      forall j | 0 <= j <= i ensures (front + [last])[j] == front[j] {}
    }
  }

  lemma LastIsFirst<T>(key: T -> nat, front: seq<T>, last: T)
    ensures FirstAt(key, front + [last], |front|) <==> !Seen(key, front, key(last))
  {
    var xs := front + [last];
    forall j | 0 <= j < |front| ensures xs[j] == front[j] {}
    if Seen(key, front, key(last)) {
      var j :| 0 <= j < |front| && key(front[j]) == key(last);
      assert key(xs[j]) == key(xs[|front|]);
    }
  }

  /** Every key is left once. */
  lemma FirstsDistinct<T>(key: T -> nat, xs: seq<T>)
    ensures forall m, n :: 0 <= m < n < |Firsts(key, xs)| ==> key(Firsts(key, xs)[m]) != key(Firsts(key, xs)[n])
    ensures forall k :: Seen(key, Firsts(key, xs), k) <==> Seen(key, xs, k)
  {
    FirstsAreFirst(key, xs);
    var at := Positions(key, xs);
    forall m, n | 0 <= m < n < |at| ensures key(Firsts(key, xs)[m]) != key(Firsts(key, xs)[n]) {
      assert at[n] in at && FirstAt(key, xs, at[n]);
    }
    forall k | Seen(key, xs, k) ensures Seen(key, Firsts(key, xs), k) {
      var i := FirstWith(key, xs, k);
      assert i in at;
      var n :| 0 <= n < |at| && at[n] == i;
      assert key(Firsts(key, xs)[n]) == k;
    }
  }

  lemma FirstWith<T>(key: T -> nat, xs: seq<T>, k: nat) returns (i: nat)
    requires Seen(key, xs, k)
    ensures FirstAt(key, xs, i) && key(xs[i]) == k
  {
    i := 0;
    while key(xs[i]) != k
      invariant i < |xs| && Seen(key, xs[i..], k)
      invariant forall j :: 0 <= j < i ==> key(xs[j]) != k
      decreases |xs| - i
    {
      var j :| 0 <= j < |xs[i..]| && key(xs[i..][j]) == k;
      assert j > 0 && xs[i + 1..][j - 1] == xs[i + j];
      i := i + 1;
    }
  }

  function Addrs(pairs: seq<Pair>): seq<Address> {
    seq(|pairs|, i requires 0 <= i < |pairs| => pairs[i].0)
  }

  type Hash = Address -> nat

  function PairHash(hash: Hash): Pair -> nat {
    (p: Pair) => hash(p.0)
  }

  /** The two ways agree: the addresses of the pairs left are the addresses left,
      in the same order. */
  lemma {:induction false} DedupsAgree(hash: Hash, pairs: seq<Pair>)
    ensures Addrs(Firsts(PairHash(hash), pairs)) == Firsts(hash, Addrs(pairs))
    decreases |pairs|
  {
    if pairs != [] {
      var front, last := pairs[..|pairs| - 1], pairs[|pairs| - 1];
      DedupsAgree(hash, front);
      assert Addrs(pairs)[..|pairs| - 1] == Addrs(front);
      assert Seen(PairHash(hash), front, hash(last.0)) <==> Seen(hash, Addrs(front), hash(last.0)) by {
        forall i | 0 <= i < |front| ensures PairHash(hash)(front[i]) == hash(Addrs(front)[i]) {}
      }
    }
  }

  /** `deduplicate_device_addrs`: keeps an address if its hash was new to the set. */
  method DedupAddrs(hash: Hash, addrs: seq<Address>) returns (kept: seq<Address>)
    ensures kept == Firsts(hash, addrs)
  {
    kept := [];
    var hashes: set<nat> := {};
    for i := 0 to |addrs|
      invariant kept == Firsts(hash, addrs[..i])
      invariant forall k :: k in hashes <==> Seen(hash, addrs[..i], k)
    {
      assert addrs[..i + 1][..i] == addrs[..i];
      SeenSnoc(hash, addrs[..i], addrs[i]);
      assert addrs[..i + 1] == addrs[..i] + [addrs[i]];
      var h := hash(addrs[i]);
      if h !in hashes {
        hashes := hashes + {h};
        kept := kept + [addrs[i]];
      }
    }
    assert addrs[..|addrs|] == addrs;
  }

  lemma SeenSnoc<T>(key: T -> nat, xs: seq<T>, x: T)
    ensures forall k :: Seen(key, xs + [x], k) <==> Seen(key, xs, k) || k == key(x)
  {
    forall k ensures Seen(key, xs + [x], k) <==> Seen(key, xs, k) || k == key(x) {
      if Seen(key, xs, k) {
        var i :| 0 <= i < |xs| && key(xs[i]) == k;
        assert key((xs + [x])[i]) == k;
      }
      assert (xs + [x])[|xs|] == x;
    }
  }

  /** `remove_if` and `erase` on the pairs, in place: the elements to keep are
      moved down over those to drop, and what is left behind is cut off. */
  method DedupPairs(hash: Hash, pairs: array<Pair>) returns (kept: nat)
    modifies pairs
    ensures kept <= pairs.Length
    ensures pairs[..kept] == Firsts(PairHash(hash), old(pairs[..]))
  {
    kept := 0;
    var hashes: set<nat> := {};
    var i := 0;
    while i < pairs.Length
      invariant kept <= i <= pairs.Length
      invariant pairs[i..] == old(pairs[i..])
      invariant pairs[..kept] == Firsts(PairHash(hash), old(pairs[..i]))
      invariant forall k :: k in hashes <==> Seen(PairHash(hash), old(pairs[..i]), k)
    {
      ghost var before := old(pairs[..]);
      assert before[..i + 1][..i] == before[..i] == old(pairs[..i]);
      assert pairs[i] == pairs[i..][0] == old(pairs[i..])[0] == before[i];
      SeenSnoc(PairHash(hash), before[..i], before[i]);
      assert before[..i + 1] == before[..i] + [before[i]];
      var h := hash(pairs[i].0);
      var seen := h in hashes;
      hashes := hashes + {h};
      assert pairs[i + 1..] == pairs[i..][1..] == old(pairs[i + 1..]);
      if !seen {
        pairs[kept] := pairs[i];
        kept := kept + 1;
      }
      i := i + 1;
    }
    assert old(pairs[..])[..i] == old(pairs[..]);
  }

  /** `device::find`. */
  method Find(hash: Hash, drivers: seq<Driver>, filter: Filter) returns (found: seq<Address>)
    ensures found == Firsts(hash, Addrs(Discovered(drivers, filter)))
    ensures forall a :: a in found ==>
      exists d :: d in drivers && (filter == Any || d.kind == filter) && d.found.Ok? && a in d.found.value
    ensures forall d, a :: d in drivers && (filter == Any || d.kind == filter) && d.found.Ok? && a in d.found.value ==>
      exists b :: b in found && hash(b) == hash(a)
  {
    var pairs := Discover(drivers, filter);
    found := DedupAddrs(hash, Addrs(pairs));
    FirstsAreFirst(hash, Addrs(pairs));
    FirstsDistinct(hash, Addrs(pairs));
    forall a | a in found
      ensures exists d :: d in drivers && (filter == Any || d.kind == filter) && d.found.Ok? && a in d.found.value
    {
      var i :| 0 <= i < |pairs| && pairs[i].0 == a;
      assert (a, pairs[i].1) in pairs;
    }
    forall d, a | d in drivers && (filter == Any || d.kind == filter) && d.found.Ok? && a in d.found.value
      ensures exists b :: b in found && hash(b) == hash(a)
    {
      assert (a, d.maker) in pairs;
      var i :| 0 <= i < |pairs| && pairs[i] == (a, d.maker);
      assert Seen(hash, Addrs(pairs), hash(a)) by { assert hash(Addrs(pairs)[i]) == hash(a); }
      var k :| 0 <= k < |found| && hash(found[k]) == hash(a);
      assert found[k] in found;
    }
  }

  // ------------------------------------------------------------------
  // The table of devices
  // ------------------------------------------------------------------

  type DeviceId = nat

  /** The table by hash, the devices someone still holds with the hash they were
      made under, and how many were ever made. */
  datatype World = World(table: map<nat, DeviceId>, live: map<DeviceId, nat>, made: nat)

  const Nothing := World(map[], map[], 0)

  datatype Step =
    /** a make that chose an address with this hash; the make function may throw */
    | Make(hash: nat, throws: bool)
    /** the last holder of a device lets go of it */
    | Release(device: DeviceId)

  function MakeStep(w: World, hash: nat, throws: bool): (Result<DeviceId, Error>, World) {
    if hash in w.table && w.table[hash] in w.live then (Ok(w.table[hash]), w)
    else if throws then (Err(MakerError), w)
    else (Ok(w.made), World(w.table[hash := w.made], w.live[w.made := hash], w.made + 1))
  }

  function Next(w: World, s: Step): World {
    match s
    case Make(hash, throws) => MakeStep(w, hash, throws).1
    case Release(d) => w.(live := w.live - {d})
  }

  function RunSteps(w: World, steps: seq<Step>): World
    decreases |steps|
  {
    if steps == [] then w else RunSteps(Next(w, steps[0]), steps[1..])
  }

  /** The table entry of a hash is the live device of that hash, if there is one. */
  ghost predicate Consistent(w: World) {
    && (forall d :: d in w.live ==> d < w.made && w.live[d] in w.table && w.table[w.live[d]] == d)
    && (forall h :: h in w.table ==> w.table[h] < w.made && (w.table[h] in w.live ==> w.live[w.table[h]] == h))
  }

  /** A make whose hash has no live device throws what its make function throws and
      changes nothing, or makes a new live device of that hash. */
  lemma MakeNew(w: World, hash: nat, throws: bool)
    requires Consistent(w) && forall d :: d in w.live ==> w.live[d] != hash
    ensures var (r, v) := MakeStep(w, hash, throws);
            if throws then r == Err(MakerError) && v == w
            else
              && r == Ok(w.made) && w.made !in w.live && v.live == w.live[w.made := hash]
              && v.table == w.table[hash := w.made] && v.made == w.made + 1
  {}

  lemma StepConsistent(w: World, s: Step)
    requires Consistent(w)
    ensures Consistent(Next(w, s))
    ensures Next(w, s).made >= w.made
  {}

  /** Over every run there is at most one live device for each hash. */
  lemma {:induction false} OneDevicePerHash(steps: seq<Step>, w: World)
    requires Consistent(w)
    ensures var v := RunSteps(w, steps);
            && Consistent(v) && v.made >= w.made
            && forall c, d :: c in v.live && d in v.live && v.live[c] == v.live[d] ==> c == d
    decreases |steps|
  {
    if steps != [] {
      StepConsistent(w, steps[0]);
      OneDevicePerHash(steps[1..], Next(w, steps[0]));
    }
  }

  lemma {:induction false} HeldStaysLive(w: World, d: DeviceId, steps: seq<Step>)
    requires Consistent(w) && d in w.live
    requires forall i :: 0 <= i < |steps| ==> steps[i] != Release(d)
    ensures d in RunSteps(w, steps).live && RunSteps(w, steps).live[d] == w.live[d]
    decreases |steps|
  {
    if steps != [] {
      StepConsistent(w, steps[0]);
      assert steps[0] != Release(d);
      forall i | 0 <= i < |steps[1..]| ensures steps[1..][i] != Release(d) {
        assert steps[1..][i] == steps[i + 1];
      }
      HeldStaysLive(Next(w, steps[0]), d, steps[1..]);
    }
  }

  /** A make returns the device an earlier make returned for the same hash as long
      as that one has not been let go in between, and otherwise one that was never
      returned before. */
  lemma MakeAgain(w: World, hash: nat, throws: bool, steps: seq<Step>, throwsAgain: bool)
    requires Consistent(w) && MakeStep(w, hash, throws).0.Ok?
    ensures var (r, u) := MakeStep(w, hash, throws);
            var v := RunSteps(u, steps);
            && (Release(r.value) !in steps ==> MakeStep(v, hash, throwsAgain) == (r, v))
            && (r.value !in v.live && MakeStep(v, hash, throwsAgain).0.Ok? ==>
                  MakeStep(v, hash, throwsAgain).0.value != r.value)
  {
    var (r, u) := MakeStep(w, hash, throws);
    StepConsistent(w, Make(hash, throws));
    assert u == Next(w, Make(hash, throws));
    assert r.value in u.live && u.live[r.value] == hash;
    OneDevicePerHash(steps, u);
    if Release(r.value) !in steps {
      forall i | 0 <= i < |steps| ensures steps[i] != Release(r.value) {
        assert steps[i] in steps;
      }
      HeldStaysLive(u, r.value, steps);
    }
  }

  /** A device object; `held` is false once its last holder let go, which is what
      locking a weak pointer to it finds out. */
  class Device {
    const maker: Maker
    const args: Items
    var held: bool

    constructor (maker: Maker, args: Items)
      ensures this.maker == maker && this.args == args && held
    {
      this.maker := maker;
      this.args := args;
      held := true;
    }
  }

  /** Adds the items of the hint whose key the address does not have. */
  function Merge(a: Items, hint: Items): Items {
    if hint == [] then a
    else
      var b := Merge(a, hint[..|hint| - 1]);
      var item := hint[|hint| - 1];
      if HasKey(b, item.0) then b else b + [item]
  }

  lemma {:induction false} GetAppend(a: Items, b: Items, key: string)
    ensures HasKey(a + b, key) <==> HasKey(a, key) || HasKey(b, key)
    ensures HasKey(a, key) ==> Get(a + b, key) == Get(a, key)
    ensures !HasKey(a, key) && HasKey(b, key) ==> Get(a + b, key) == Get(b, key)
  {
    if HasKey(b, key) {
      var i :| 0 <= i < |b| && b[i].0 == key;
      assert (a + b)[|a| + i].0 == key;
    }
    if HasKey(a, key) {
      var i :| 0 <= i < |a| && a[i].0 == key;
      assert (a + b)[i].0 == key;
    }
    if a == [] {
      assert a + b == b;
    } else {
      assert (a + b)[1..] == a[1..] + b;
      GetAppend(a[1..], b, key);
      if HasKey(a, key) && a[0].0 != key {
        var i :| 0 <= i < |a| && a[i].0 == key;
        assert a[1..][i - 1].0 == key;
      }
    }
  }

  /** A made device is given every key found for it, unchanged, and the keys of
      the hint that are not among those. */
  lemma {:induction false} MergeKeepsFound(a: Items, hint: Items, key: string)
    ensures HasKey(Merge(a, hint), key) <==> HasKey(a, key) || HasKey(hint, key)
    ensures HasKey(a, key) ==> Get(Merge(a, hint), key) == Get(a, key)
    ensures !HasKey(a, key) && HasKey(hint, key) ==> Get(Merge(a, hint), key) == Get(hint, key)
    decreases |hint|
  {
    if hint != [] {
      var front, item := hint[..|hint| - 1], hint[|hint| - 1];
      MergeKeepsFound(a, front, key);
      MergeKeepsFound(a, front, item.0);
      assert hint == front + [item];
      GetAppend(front, [item], key);
      GetAppend(Merge(a, front), [item], key);
      assert [item][0].0 == item.0;
    }
  }

  /** The devices made are different ones, and the table refers to them by number. */
  ghost predicate Tied(w: World, table: map<nat, Device>, devices: seq<Device>) {
    && w.made == |devices|
    && table.Keys == w.table.Keys
    && (forall h :: h in table ==> w.table[h] < |devices| && table[h] == devices[w.table[h]])
    && (forall i, j :: 0 <= i < j < |devices| ==> devices[i] != devices[j])
  }

  lemma EnterTied(w: World, table: map<nat, Device>, devices: seq<Device>, hash: nat, dev: Device)
    requires Tied(w, table, devices) && dev !in devices
    requires !(hash in w.table && w.table[hash] in w.live)
    ensures Tied(MakeStep(w, hash, false).1, table[hash := dev], devices + [dev])
  {}

  /** The static table behind `device::make`. */
  class Registry {
    var table: map<nat, Device>
    ghost var world: World
    ghost var devices: seq<Device>

    constructor ()
      ensures Valid() && world == Nothing && devices == []
    {
      table := map[];
      world := Nothing;
      devices := [];
    }

    /** The table and the devices are as the world says. */
    ghost predicate Valid()
      reads this, devices
    {
      && Consistent(world) && Tied(world, table, devices)
      && (forall i :: 0 <= i < |devices| ==> (devices[i].held <==> i in world.live))
    }

    /** `device::make`. `throws` says whether the make function would. */
    method Make(hash: Hash, drivers: seq<Driver>, hint: Items, filter: Filter, which: nat,
                prefs: Items -> Items, throws: bool)
      returns (r: Result<Device, Error>)
      requires Valid()
      modifies this
      ensures Valid() && old(devices) <= devices && fresh(devices[|old(devices)|..])
      ensures
        var found := Firsts(hash, Addrs(Discovered(drivers, filter)));
        if found == [] then r == Err(KeyError) && world == old(world)
        else if |found| <= which then r == Err(IndexError) && world == old(world)
        else
          var (id, w) := MakeStep(old(world), hash(found[which]), throws);
          && world == w
          && (if id.Ok? then id.value < |devices| && r == Ok(devices[id.value]) && r.value.held else r == Err(id.error))
          && (id.Ok? && |devices| > |old(devices)| ==>
                && r.value.args == prefs(Merge(found[which], hint))
                && (found[which], r.value.maker) in Discovered(drivers, filter)
                && exists d :: d in drivers && (filter == Any || d.kind == filter) && d.found.Ok?
                     && found[which] in d.found.value && d.maker == r.value.maker)
      ensures r.Err? ==> devices == old(devices) && table == old(table)
    {
      var list := Discover(drivers, filter);
      var pairs := new Pair[|list|](i requires 0 <= i < |list| => list[i]);
      assert pairs[..] == list;
      var count := DedupPairs(hash, pairs);
      var makers := pairs[..count];
      DedupsAgree(hash, list);
      assert Addrs(makers) == Firsts(hash, Addrs(list));
      if |makers| == 0 {
        return Err(KeyError);
      }
      if |makers| <= which {
        return Err(IndexError);
      }
      var addr := makers[which].0;
      assert Addrs(makers)[which] == addr;
      FirstsAreFirst(PairHash(hash), list);
      assert makers[which] in list;
      r := Obtain(hash(addr), makers[which].1, prefs(Merge(addr, hint)), throws);
    }

    /** Returns the device in the table if it is still held, or makes one. */
    method Obtain(devHash: nat, maker: Maker, args: Items, throws: bool) returns (r: Result<Device, Error>)
      requires Valid()
      modifies this
      ensures Valid() && old(devices) <= devices && fresh(devices[|old(devices)|..])
      ensures
        var (id, w) := MakeStep(old(world), devHash, throws);
        && world == w
        && (if id.Ok? then id.value < |devices| && r == Ok(devices[id.value]) && r.value.held else r == Err(id.error))
        && (id.Ok? && |devices| > |old(devices)| ==> r.value.args == args && r.value.maker == maker)
      ensures r.Err? ==> devices == old(devices) && table == old(table)
    {
      if devHash in table {
        var p := table[devHash];
        if p.held {
          return Ok(p);
        }
      }
      if throws {
        return Err(MakerError);
      }
      var dev := Enter(devHash, maker, args);
      return Ok(dev);
    }

    /** Makes a device and enters it in the table, over one no longer held. */
    method Enter(devHash: nat, maker: Maker, args: Items) returns (dev: Device)
      requires Valid()
      requires !(devHash in world.table && world.table[devHash] in world.live)
      modifies this
      ensures Valid() && fresh(dev) && dev.held && dev.args == args && dev.maker == maker
      ensures devices == old(devices) + [dev]
      ensures world == MakeStep(old(world), devHash, false).1
    {
      StepConsistent(world, Step.Make(devHash, false));
      dev := new Device(maker, args);
      EnterTied(world, table, devices, devHash, dev);
      table, world := table[devHash := dev], MakeStep(world, devHash, false).1;
      devices := devices + [dev];
    }

    /** The last holder of a device lets go of it. */
    method LetGo(dev: Device)
      requires Valid() && dev in devices
      modifies dev, this`world
      ensures Valid() && devices == old(devices) && table == old(table)
      ensures exists id :: 0 <= id < |devices| && devices[id] == dev && world == Next(old(world), Release(id))
    {
      ghost var id :| 0 <= id < |devices| && devices[id] == dev;
      StepConsistent(world, Release(id));
      assert forall i :: 0 <= i < |devices| && i != id ==> devices[i] != dev;
      dev.held := false;
      world := Next(world, Release(id));
    }
  }
}
