/** Device addresses and the input of the hash that identifies a device. */
module Addresses {

  /** The items of the address dictionary, in insertion order. */
  type Items = seq<(string, string)>

  predicate DistinctKeys(a: Items) {
    forall i, j :: 0 <= i < j < |a| ==> a[i].0 != a[j].0
  }

  type Address = a: Items | DistinctKeys(a)

  predicate HasKey(a: Items, key: string) {
    exists i :: 0 <= i < |a| && a[i].0 == key
  }

  /** The value of the first item under `key`. */
  function Get(a: Items, key: string): string
    requires HasKey(a, key)
  {
    if a[0].0 == key then a[0].1 else Get(a[1..], key)
  }

  function Keys(a: Items): (ks: seq<string>)
    ensures |ks| == |a| && forall i :: 0 <= i < |a| ==> ks[i] == a[i].0
  {
    seq(|a|, i requires 0 <= i < |a| => a[i].0)
  }

  const RESOURCE := "resource"
  const BLACKLIST: seq<string> := ["claimed", "skip_dram", "skip_ddc", "skip_duc"]

  predicate Counts(key: string) {
    key !in BLACKLIST
  }

  // ------------------------------------------------------------------
  // The order of strings, and sorting
  // ------------------------------------------------------------------

  predicate Before(a: string, b: string) {
    b != "" && (a == "" || a[0] < b[0] || (a[0] == b[0] && Before(a[1..], b[1..])))
  }

  lemma {:induction false} BeforeTotal(a: string, b: string)
    ensures a == b || Before(a, b) || Before(b, a)
  {
    if a != "" && b != "" && a[0] == b[0] {
      BeforeTotal(a[1..], b[1..]);
      assert a[1..] == b[1..] ==> a == [a[0]] + b[1..] == b;
    }
  }

  lemma {:induction false} BeforeTransitive(a: string, b: string, c: string)
    requires Before(a, b) && Before(b, c)
    ensures Before(a, c)
  {
    if a != "" && a[0] == b[0] == c[0] {
      BeforeTransitive(a[1..], b[1..], c[1..]);
    }
  }

  lemma {:induction false} BeforeIrreflexive(a: string)
    ensures !Before(a, a)
  {
    if a != "" { BeforeIrreflexive(a[1..]); }
  }

  predicate Ascending(s: seq<string>) {
    forall i, j :: 0 <= i < j < |s| ==> Before(s[i], s[j])
  }

  /** `key` put in its place among `s`. */
  function Insert(s: seq<string>, key: string): seq<string> {
    if s == [] || Before(key, s[0]) then [key] + s else [s[0]] + Insert(s[1..], key)
  }

  /** The keys in ascending order. */
  function Sorted(s: seq<string>): seq<string> {
    if s == [] then [] else Insert(Sorted(s[1..]), s[0])
  }

  lemma {:induction false} InsertContents(s: seq<string>, key: string)
    ensures forall k :: k in Insert(s, key) <==> k in s || k == key
  {
    if s != [] && !Before(key, s[0]) {
      InsertContents(s[1..], key);
      assert forall k :: k in s <==> k == s[0] || k in s[1..];
    }
  }

  lemma {:induction false} InsertAscending(s: seq<string>, key: string)
    requires Ascending(s) && key !in s
    ensures Ascending(Insert(s, key))
  {
    if s == [] {
    } else if Before(key, s[0]) {
      forall j | 0 <= j < |s| ensures Before(key, s[j]) {
        if j > 0 { BeforeTransitive(key, s[0], s[j]); }
      }
    } else {
      BeforeTotal(key, s[0]);
      assert s[0] in s;
      InsertAscending(s[1..], key);
      InsertContents(s[1..], key);
      var r := Insert(s[1..], key);
      forall j | 0 <= j < |r| ensures Before(s[0], r[j]) {
        assert r[j] in r;
      }
    }
  }

  lemma {:induction false} SortedIsSorted(s: seq<string>)
    requires forall i, j :: 0 <= i < j < |s| ==> s[i] != s[j]
    ensures Ascending(Sorted(s))
    ensures forall k :: k in Sorted(s) <==> k in s
  {
    if s != [] {
      SortedIsSorted(s[1..]);
      InsertContents(Sorted(s[1..]), s[0]);
      assert s[0] !in s[1..];
      InsertAscending(Sorted(s[1..]), s[0]);
      assert forall k :: k in s <==> k == s[0] || k in s[1..];
    }
  }

  /** There is only one way to put a set of strings in ascending order. */
  lemma {:induction false} AscendingUnique(s: seq<string>, t: seq<string>)
    requires Ascending(s) && Ascending(t)
    requires forall k :: k in s <==> k in t
    ensures s == t
  {
    HeadIsIn(s);
    HeadIsIn(t);
    if s != [] {
      HeadsAgree(s, t);
      forall k ensures k in s[1..] <==> k in t[1..] {
        TailContents(s, k);
        TailContents(t, k);
      }
      AscendingUnique(s[1..], t[1..]);
      assert s == [s[0]] + s[1..] && t == [t[0]] + t[1..];
    }
  }

  lemma HeadIsIn(s: seq<string>)
    ensures s != [] ==> s[0] in s
  {}

  lemma HeadsAgree(s: seq<string>, t: seq<string>)
    requires Ascending(s) && Ascending(t) && s != [] && t != []
    requires s[0] in t && t[0] in s
    ensures s[0] == t[0]
  {
    var i :| 0 <= i < |s| && s[i] == t[0];
    var j :| 0 <= j < |t| && t[j] == s[0];
    if i > 0 && j > 0 {
      BeforeTransitive(s[0], t[0], s[0]);
      BeforeIrreflexive(s[0]);
    }
  }

  lemma TailContents(s: seq<string>, k: string)
    requires Ascending(s) && s != []
    ensures k in s[1..] <==> k in s && k != s[0]
  {
    BeforeIrreflexive(s[0]);
    assert s == [s[0]] + s[1..];
  }

  // ------------------------------------------------------------------
  // The hash input
  // ------------------------------------------------------------------

  /** The keys that count. */
  function Kept(keys: seq<string>): seq<string> {
    if keys == [] then []
    else if Counts(keys[0]) then [keys[0]] + Kept(keys[1..])
    else Kept(keys[1..])
  }

  /** The strings that are combined, key and value in turn. */
  function Flatten(a: Items, keys: seq<string>): seq<string>
    requires forall k :: k in keys ==> HasKey(a, k)
  {
    if keys == [] then []
    else
      assert keys[0] in keys;
      [keys[0], Get(a, keys[0])] + Flatten(a, keys[1..])
  }

  lemma {:induction false} KeptContents(keys: seq<string>)
    ensures forall k :: k in Kept(keys) <==> k in keys && Counts(k)
    ensures Ascending(keys) ==> Ascending(Kept(keys))
  {
    if keys != [] {
      KeptContents(keys[1..]);
      assert forall k :: k in keys <==> k == keys[0] || k in keys[1..];
      if Ascending(keys) && Counts(keys[0]) {
        var r := Kept(keys[1..]);
        forall j | 0 <= j < |r| ensures Before(keys[0], r[j]) {
          assert r[j] in r;
        }
      }
    }
  }

  lemma HashKeysExist(a: Address)
    ensures Ascending(Sorted(Keys(a)))
    ensures forall k :: k in Sorted(Keys(a)) <==> HasKey(a, k)
    ensures forall k :: k in Kept(Sorted(Keys(a))) <==> HasKey(a, k) && Counts(k)
    ensures Ascending(Kept(Sorted(Keys(a))))
  {
    SortedIsSorted(Keys(a));
    KeptContents(Sorted(Keys(a)));
    forall k ensures k in Keys(a) <==> HasKey(a, k) {
      if HasKey(a, k) {
        var i :| 0 <= i < |a| && a[i].0 == k;
        assert Keys(a)[i] == k;
      }
    }
  }

  /** What the hash of an address is computed from. */
  function HashInput(a: Address): seq<string> {
    if HasKey(a, RESOURCE) then [RESOURCE, Get(a, RESOURCE)]
    else
      HashKeysExist(a);
      Flatten(a, Kept(Sorted(Keys(a))))
  }

  lemma {:induction false} FlattenAt(a: Items, keys: seq<string>, i: nat)
    requires i < |keys| && forall k :: k in keys ==> HasKey(a, k)
    ensures |Flatten(a, keys)| == 2 * |keys|
    ensures Flatten(a, keys)[2 * i] == keys[i] && Flatten(a, keys)[2 * i + 1] == Get(a, keys[i])
  {
    assert keys[0] in keys;
    if |keys| == 1 {
      assert Flatten(a, keys[1..]) == [];
    } else {
      FlattenAt(a, keys[1..], if i == 0 then 0 else i - 1);
    }
  }

  /** Without a resource that is each key that counts, in ascending order, followed
      by its value. */
  lemma InputIsListed(a: Address) returns (keys: seq<string>)
    ensures HasKey(a, "resource") ==> HashInput(a) == ["resource", Get(a, "resource")]
    ensures !HasKey(a, "resource") ==>
      && (forall k :: k in keys <==>
            HasKey(a, k) && k != "claimed" && k != "skip_dram" && k != "skip_ddc" && k != "skip_duc")
      && (forall i, j :: 0 <= i < j < |keys| ==> Before(keys[i], keys[j]))
      && |HashInput(a)| == 2 * |keys|
      && forall i :: 0 <= i < |keys| ==> HashInput(a)[2 * i] == keys[i] && HashInput(a)[2 * i + 1] == Get(a, keys[i])
  {
    CountsIff();
    HashKeysExist(a);
    keys := Kept(Sorted(Keys(a)));
    if !HasKey(a, RESOURCE) && keys != [] {
      FlattenAt(a, keys, 0);
      forall i | 0 <= i < |keys|
        ensures HashInput(a)[2 * i] == keys[i] && HashInput(a)[2 * i + 1] == Get(a, keys[i])
      {
        FlattenAt(a, keys, i);
      }
    }
  }

  /** `hash_combine` over a list of strings. */
  function Combine(combine: (nat, string) -> nat, hash: nat, s: seq<string>): nat {
    if s == [] then hash else combine(Combine(combine, hash, s[..|s| - 1]), s[|s| - 1])
  }

  function HashOf(combine: (nat, string) -> nat, a: Address): nat {
    Combine(combine, 0, HashInput(a))
  }

  /** `hash_device_addr`. */
  method HashDeviceAddr(combine: (nat, string) -> nat, a: Address) returns (hash: nat)
    ensures hash == HashOf(combine, a)
  {
    hash := 0;
    if HasKey(a, RESOURCE) {
      hash := combine(hash, RESOURCE);
      hash := combine(hash, Get(a, RESOURCE));
      CombineTwo(combine, 0, [], RESOURCE, Get(a, RESOURCE));
      assert [] + [RESOURCE, Get(a, RESOURCE)] == HashInput(a);
    } else {
      HashKeysExist(a);
      hash := CombineKeys(combine, a, Sorted(Keys(a)));
    }
  }

  /** The loop over the sorted keys. */
  method CombineKeys(combine: (nat, string) -> nat, a: Address, keys: seq<string>) returns (hash: nat)
    requires forall k :: k in keys ==> HasKey(a, k)
    requires forall k :: k in Kept(keys) ==> HasKey(a, k)
    ensures hash == Combine(combine, 0, Flatten(a, Kept(keys)))
  {
    hash := 0;
    ghost var done: seq<string> := [];
    var i := 0;
    assert keys[0..] == keys;
    while i < |keys|
      invariant i <= |keys|
      invariant hash == Combine(combine, 0, done)
      invariant forall k :: k in Kept(keys[i..]) ==> HasKey(a, k)
      invariant done + Flatten(a, Kept(keys[i..])) == Flatten(a, Kept(keys))
    {
      var key := keys[i];
      ghost var rest := Kept(keys[i + 1..]);
      assert keys[i..][1..] == keys[i + 1..];
      KeptContents(keys[i..]);
      KeptContents(keys[i + 1..]);
      if key !in BLACKLIST {
        var value := Get(a, key);
        CombineTwo(combine, 0, done, key, value);
        assert Kept(keys[i..])[1..] == rest;
        assert done + ([key, value] + Flatten(a, rest)) == (done + [key, value]) + Flatten(a, rest);
        hash := combine(hash, key);
        hash := combine(hash, value);
        done := done + [key, value];
      }
      i := i + 1;
    }
    assert done == Flatten(a, Kept(keys));
  }

  lemma CombineTwo(combine: (nat, string) -> nat, hash: nat, s: seq<string>, x: string, y: string)
    ensures Combine(combine, hash, s + [x, y]) == combine(combine(Combine(combine, hash, s), x), y)
  {
    var t := s + [x, y];
    assert t[..|t| - 1] == s + [x];
    assert (s + [x])[..|s|] == s;
  }

  // ------------------------------------------------------------------
  // Which addresses have the same hash input
  // ------------------------------------------------------------------

  /** Both name the same resource, or neither names one and they agree on every
      key that counts, in whatever order. */
  predicate SameDevice(a: Address, b: Address) {
    if HasKey(a, RESOURCE) && HasKey(b, RESOURCE) then Get(a, RESOURCE) == Get(b, RESOURCE)
    else !HasKey(a, RESOURCE) && !HasKey(b, RESOURCE) && AgreeOn(a, b)
  }

  predicate AgreeOn(a: Address, b: Address) {
    && (forall i :: 0 <= i < |a| && Counts(a[i].0) ==> HasKey(b, a[i].0) && Get(b, a[i].0) == a[i].1)
    && (forall i :: 0 <= i < |b| && Counts(b[i].0) ==> HasKey(a, b[i].0) && Get(a, b[i].0) == b[i].1)
  }

  lemma {:induction false} GetAt(a: Items, i: nat)
    requires DistinctKeys(a) && i < |a|
    ensures HasKey(a, a[i].0) && Get(a, a[i].0) == a[i].1
  {
    if i > 0 { GetAt(a[1..], i - 1); }
  }

  lemma {:induction false} FlattenSame(a: Items, b: Items, keys: seq<string>)
    requires forall k :: k in keys ==> HasKey(a, k) && HasKey(b, k) && Get(a, k) == Get(b, k)
    ensures Flatten(a, keys) == Flatten(b, keys)
  {
    if keys != [] {
      assert keys[0] in keys;
      FlattenSame(a, b, keys[1..]);
    }
  }

  /** The list can be taken apart again. */
  lemma {:induction false} FlattenInjective(a: Items, b: Items, s: seq<string>, t: seq<string>)
    requires forall k :: k in s ==> HasKey(a, k)
    requires forall k :: k in t ==> HasKey(b, k)
    requires Flatten(a, s) == Flatten(b, t)
    ensures s == t && forall k :: k in s ==> Get(a, k) == Get(b, k)
  {
    var f, g := Flatten(a, s), Flatten(b, t);
    if s != [] && t != [] {
      assert s[0] in s && t[0] in t;
      assert f[0] == s[0] && g[0] == t[0] && f[1] == Get(a, s[0]) && g[1] == Get(b, t[0]);
      assert f[2..] == Flatten(a, s[1..]) && g[2..] == Flatten(b, t[1..]);
      FlattenInjective(a, b, s[1..], t[1..]);
      assert s == [s[0]] + s[1..] && t == [t[0]] + t[1..];
    }
  }

  lemma AgreeByKey(a: Address, b: Address)
    ensures AgreeOn(a, b) <==>
      (forall k :: Counts(k) ==> (HasKey(a, k) <==> HasKey(b, k)) && (HasKey(a, k) ==> Get(a, k) == Get(b, k)))
  {
    if AgreeOn(a, b) {
      forall k | Counts(k) && HasKey(a, k) ensures HasKey(b, k) && Get(a, k) == Get(b, k) {
        var i :| 0 <= i < |a| && a[i].0 == k;
        GetAt(a, i);
      }
      forall k | Counts(k) && HasKey(b, k) ensures HasKey(a, k) {
        var i :| 0 <= i < |b| && b[i].0 == k;
      }
    }
    forall i | 0 <= i < |a| ensures HasKey(a, a[i].0) && Get(a, a[i].0) == a[i].1 { GetAt(a, i); }
    forall i | 0 <= i < |b| ensures HasKey(b, b[i].0) && Get(b, b[i].0) == b[i].1 { GetAt(b, i); }
  }

  /** Two addresses are hashed from the same input exactly when they are the same
      device in that sense: so neither the order of the keys nor the ignored keys
      matter, and nothing else is confused before the hash itself. */
  lemma SameInputIff(a: Address, b: Address)
    ensures HashInput(a) == HashInput(b) <==> SameDevice(a, b)
    ensures HashInput(a) == HashInput(b) <==>
      if HasKey(a, "resource") || HasKey(b, "resource")
      then HasKey(a, "resource") && HasKey(b, "resource") && Get(a, "resource") == Get(b, "resource")
      else forall k :: k != "claimed" && k != "skip_dram" && k != "skip_ddc" && k != "skip_duc" ==>
             (HasKey(a, k) <==> HasKey(b, k)) && (HasKey(a, k) ==> Get(a, k) == Get(b, k))
  {
    CountsIff();
    HashKeysExist(a);
    HashKeysExist(b);
    var s, t := Kept(Sorted(Keys(a))), Kept(Sorted(Keys(b)));
    if HasKey(a, RESOURCE) && HasKey(b, RESOURCE) {
      assert HashInput(a)[1] == Get(a, RESOURCE) && HashInput(b)[1] == Get(b, RESOURCE);
    } else if HasKey(a, RESOURCE) {
      NoResourceInput(b);
    } else if HasKey(b, RESOURCE) {
      NoResourceInput(a);
    } else {
      AgreeByKey(a, b);
      if HashInput(a) == HashInput(b) {
        FlattenInjective(a, b, s, t);
      }
      if AgreeOn(a, b) {
        AscendingUnique(s, t);
        FlattenSame(a, b, s);
      }
    }
  }

  lemma CountsIff()
    ensures forall k :: Counts(k) <==> k != "claimed" && k != "skip_dram" && k != "skip_ddc" && k != "skip_duc"
  {
    assert BLACKLIST[0] == "claimed" && BLACKLIST[1] == "skip_dram";
    assert BLACKLIST[2] == "skip_ddc" && BLACKLIST[3] == "skip_duc";
  }

  lemma NoResourceInput(a: Address)
    requires !HasKey(a, RESOURCE)
    ensures HashInput(a) == [] || HashInput(a)[0] != RESOURCE
  {
    HashKeysExist(a);
    var s := Kept(Sorted(Keys(a)));
    if s != [] {
      assert s[0] in s;
    }
  }

  /** The comment says the hash maps one to one with addresses; even its input
      does not. */
  lemma InputNotOneToOne()
    ensures var a: Address := [("serial", "1"), ("claimed", "True")];
            var b: Address := [("serial", "1")];
            a != b && HashInput(a) == HashInput(b)
  {
    var a: Address := [("serial", "1"), ("claimed", "True")];
    var b: Address := [("serial", "1")];
    assert BLACKLIST[0] == "claimed";
    assert a[0].0 == "serial" && b[0].0 == "serial";
    GetAt(a, 0);
    GetAt(b, 0);
    SameInputIff(a, b);
  }
}
