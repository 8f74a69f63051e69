/** What each operation of the tree does, said with paths: which paths exist after
    it, what they hold and list, and which error is thrown when. */
module TreeLaws {
  import opened Common
  import opened Paths
  import opened TreeSpec

  // ------------------------------------------------------------------
  // Paths and names
  // ------------------------------------------------------------------

  lemma SameNode(p: string, q: string)
    ensures NameAt(p) == NameAt(q) <==> Tokens(p) == Tokens(q)
  {
    SpellNameOf(Tokens(p));
    SpellNameOf(Tokens(q));
  }

  lemma UnderAt(p: string, q: string)
    ensures Under(NameAt(p), NameAt(q)) <==> Tokens(p) <= Tokens(q)
  {
    UnderIsPrefix(NameAt(p), NameAt(q));
    SpellNameOf(Tokens(p));
    SpellNameOf(Tokens(q));
  }

  lemma RootAt(p: string)
    ensures NameAt(p).Root? <==> Tokens(p) == []
  {}

  /** The step toward a descendant is the next of its tokens. */
  lemma {:induction false} TowardIsNext(m: Name, n: Name)
    requires Under(m, n) && m != n
    ensures |Spell(m)| < |Spell(n)| && Toward(m, n) == Spell(n)[|Spell(m)|]
    ensures Child(m, Toward(m, n)) == NameOf(Spell(n)[..|Spell(m)| + 1])
  {
    var s := Spell(n);
    assert s[..|s| - 1] == Spell(n.parent);
    NameOfSpell(n);
    if n.parent == m {
      assert s[..|Spell(m)| + 1] == s;
    } else {
      TowardIsNext(m, n.parent);
      assert s[..|Spell(m)| + 1] == Spell(n.parent)[..|Spell(m)| + 1];
    }
  }

  lemma NextToken(q: string, path: string)
    requires Tokens(q) < Tokens(path)
    ensures Under(NameAt(q), NameAt(path)) && NameAt(q) != NameAt(path)
    ensures Toward(NameAt(q), NameAt(path)) == Tokens(path)[|Tokens(q)|]
    ensures Child(NameAt(q), Tokens(path)[|Tokens(q)|]) == NameOf(Tokens(path)[..|Tokens(q)| + 1])
  {
    UnderAt(q, path);
    SameNode(q, path);
    SpellNameOf(Tokens(q));
    SpellNameOf(Tokens(path));
    TowardIsNext(NameAt(q), NameAt(path));
  }

  // ------------------------------------------------------------------
  // Reading
  // ------------------------------------------------------------------

  /** A new tree has its root, which is spelled by no tokens, and nothing else. */
  lemma NewTree(q: string)
    ensures Exists(EmptyTree, q) <==> Tokens(q) == []
    ensures Tokens(q) == [] ==> List(EmptyTree, q) == Ok([]) && Access(EmptyTree, q) == Err(Uninitialized(q))
  {
    RootAt(q);
  }

  /** The names listed at a path are those that exist when joined to it, each once. */
  lemma ListedIff(t: Tree, q: string, k: string)
    requires WellFormed(t) && Exists(t, q) && IsToken(k)
    ensures List(t, q).Ok? && Distinct(List(t, q).value)
    ensures k in List(t, q).value <==> Exists(t, Join(q, k))
  {
    JoinTokens(q, k);
    TokensOfToken(k);
    assert (Tokens(q) + [k])[..|Tokens(q)|] == Tokens(q);
    assert NameAt(Join(q, k)) == Child(NameAt(q), k);
  }

  /** A path that does not exist is reported as not found by all but `create`. */
  lemma MissingIsNotFound(t: Tree, q: string)
    requires !Exists(t, q)
    ensures List(t, q) == Err(PathNotFound(q)) && Access(t, q) == Err(PathNotFound(q))
    ensures Remove(t, q) == (Err(PathNotFound(q)), t) && Pop(t, q) == (Err(PathNotFound(q)), t)
  {}

  /** The errors at a path that exists, in the order they are looked for. */
  lemma ErrorsAt(t: Tree, q: string)
    requires Exists(t, q)
    ensures Access(t, q).Err? ==> Access(t, q).error == Uninitialized(q)
    ensures Tokens(q) == [] ==> Remove(t, q) == (Err(CannotUproot), t)
    ensures Tokens(q) != [] && EndsWithSlash(q) ==> Remove(t, q) == (Err(KeyNotFound("")), t)
    ensures Access(t, q).Err? ==> Pop(t, q) == (Err(Uninitialized(q)), t)
    ensures Access(t, q).Ok? && Tokens(q) == [] ==> Pop(t, q) == (Err(CannotPop), t)
    ensures Access(t, q).Ok? && Tokens(q) != [] && EndsWithSlash(q) ==> Pop(t, q) == (Err(KeyNotFound("")), t)
  {
    RootAt(q);
  }

  /** The typed wrappers pass on a property of the type asked for and every other
      error, and throw the type error for a property of another type. */
  lemma TypedIff(t: Tree, q: string, kind: string, given: string)
    ensures Access(t, q).Ok? ==>
      AccessAs(t, q, kind, given) == if Access(t, q).value.kind == kind then Access(t, q) else Err(WrongType(given))
    ensures Access(t, q).Err? ==> AccessAs(t, q, kind, given) == Access(t, q)
    ensures Pop(t, q).0.Ok? ==>
      && PopAs(t, q, kind, given).1 == Pop(t, q).1
      && PopAs(t, q, kind, given).0 == if Pop(t, q).0.value.kind == kind then Pop(t, q).0 else Err(WrongType(given))
    ensures Pop(t, q).0.Err? ==> PopAs(t, q, kind, given) == Pop(t, q)
  {}

  // ------------------------------------------------------------------
  // Create
  // ------------------------------------------------------------------

  /** Through any handle, a creation succeeds exactly when the node is missing or
      holds no property, and throws that it exists otherwise. */
  lemma CreateSucceedsIff(t: Tree, root: string, path: string, prop: Property)
    ensures var n, full := NameOf(Tokens(root) + Tokens(path)), Join(root, path);
            var (r, u) := Create(t, full, prop);
            && (r.Ok? <==> n !in t || t[n].prop == None)
            && (r.Err? ==> (r, u) == (Err(AlreadyExists(full)), t))
            && (r.Ok? <==> Access(t, full).Err?)
  {
    JoinTokens(root, path);
  }

  /** A path is created once: after that every creation through a spelling of it
      throws and leaves the property that was there. */
  lemma CreateOnce(t: Tree, path: string, prop: Property, spelling: string, other: Property)
    requires Create(t, path, prop).0.Ok? && Tokens(spelling) == Tokens(path)
    ensures var u := Create(t, path, prop).1;
            Access(u, spelling) == Ok(prop) && Create(u, spelling, other) == (Err(AlreadyExists(spelling)), u)
  {}

  /** What a creation leaves at a name. */
  lemma CreatedEntry(t: Tree, path: string, prop: Property, m: Name)
    requires WellFormed(t) && Create(t, path, prop).0.Ok?
    ensures var u, n := Create(t, path, prop).1, NameAt(path);
            && (m in u <==> m in t || Under(m, n))
            && (m in u ==>
                  && u[m].prop == (if m == n then Some(prop) else if m in t then t[m].prop else None)
                  && u[m].keys == (if m in t then t[m].keys else [])
                    + if m != n && Under(m, n) && Child(m, Toward(m, n)) !in t then [Toward(m, n)] else [])
  {
    var n := NameAt(path);
    if m in t {
      GrowExisting(t, n, m);
    } else {
      GrowMissing(t, n, m);
    }
  }

  /** After a creation the paths that exist are those before and the prefixes of
      the path. */
  lemma CreateExists(t: Tree, path: string, prop: Property, q: string)
    requires WellFormed(t) && Create(t, path, prop).0.Ok?
    ensures Exists(Create(t, path, prop).1, q) <==> Exists(t, q) || Tokens(q) <= Tokens(path)
  {
    CreatedEntry(t, path, prop, NameAt(q));
    UnderAt(q, path);
  }

  /** Only the path gains a property. */
  lemma CreateHolds(t: Tree, path: string, prop: Property, q: string)
    requires WellFormed(t) && Create(t, path, prop).0.Ok?
    requires Exists(t, q) || Tokens(q) <= Tokens(path)
    ensures Access(Create(t, path, prop).1, q) ==
      if Tokens(q) == Tokens(path) then Ok(prop) else if Exists(t, q) then Access(t, q) else Err(Uninitialized(q))
  {
    CreatedEntry(t, path, prop, NameAt(q));
    UnderAt(q, path);
    SameNode(q, path);
  }

  /** What existed lists one more name, at the end, where the path leaves the tree;
      a new prefix lists the next one. */
  lemma CreateLists(t: Tree, path: string, prop: Property, q: string)
    requires WellFormed(t) && Create(t, path, prop).0.Ok?
    requires Exists(t, q) || Tokens(q) <= Tokens(path)
    ensures var here, there := Tokens(q), Tokens(path);
            List(Create(t, path, prop).1, q) == Ok(
              (if Exists(t, q) then List(t, q).value else [])
              + if here < there && NameOf(there[..|here| + 1]) !in t then [there[|here|]] else [])
  {
    CreatedEntry(t, path, prop, NameAt(q));
    UnderAt(q, path);
    SameNode(q, path);
    if Tokens(q) < Tokens(path) { NextToken(q, path); }
  }

  // ------------------------------------------------------------------
  // Remove and pop
  // ------------------------------------------------------------------

  /** Leaving a key out of distinct keys closes the gap and keeps the order. */
  lemma {:induction false} OmitAt(keys: seq<string>, key: string) returns (i: nat)
    requires Distinct(keys) && key in keys
    ensures i < |keys| && keys[i] == key && Omit(keys, key) == keys[..i] + keys[i + 1..]
  {
    if keys[0] == key {
      i := 0;
      OmitAbsent(keys[1..], key);
    } else {
      i := OmitAt(keys[1..], key);
      assert keys[1..][i + 1..] == keys[i + 2..];
      assert [keys[0]] + keys[1..][..i] == keys[..i + 1];
      i := i + 1;
    }
  }

  lemma {:induction false} OmitAbsent(keys: seq<string>, key: string)
    requires key !in keys
    ensures Omit(keys, key) == keys
  {
    if keys != [] {
      assert keys[0] in keys;
      OmitAbsent(keys[1..], key);
    }
  }

  /** The list `was` without the one name `gone`. */
  predicate Without(now: seq<string>, was: seq<string>, gone: string) {
    exists i :: 0 <= i < |was| && was[i] == gone && now == was[..i] + was[i + 1..]
  }

  /** `u` is `t` without the path and everything below it, as `q` sees it. */
  predicate TakenAway(t: Tree, u: Tree, path: string, q: string) {
    && (Exists(u, q) <==> Exists(t, q) && !(Tokens(path) <= Tokens(q)))
    && (Exists(u, q) ==> Access(u, q) == Access(t, q) && List(u, q).Ok? && ListTakenAway(t, u, path, q))
  }

  /** The list at the parent has lost the leaf, and no other has changed. */
  predicate ListTakenAway(t: Tree, u: Tree, path: string, q: string) {
    var here, there := Tokens(q), Tokens(path);
    if there != [] && here == there[..|there| - 1]
    then List(u, q).Ok? && List(t, q).Ok? && Without(List(u, q).value, List(t, q).value, there[|there| - 1])
    else List(u, q) == List(t, q)
  }

  lemma PruneTakesAway(t: Tree, path: string, q: string)
    requires WellFormed(t) && Exists(t, path) && Tokens(path) != []
    ensures TakenAway(t, Prune(t, NameAt(path)), path, q)
  {
    var n := NameAt(path);
    assert Exists(Prune(t, n), q) ==> ListTakenAway(t, Prune(t, n), path, q) by {
      if Exists(Prune(t, n), q) { PruneTakesFromList(t, path, q); }
    }
    PruneRemovesSubtree(t, n);
    UnderAt(path, q);
  }

  lemma PruneTakesFromList(t: Tree, path: string, q: string)
    requires WellFormed(t) && Exists(t, path) && Tokens(path) != [] && Exists(Prune(t, NameAt(path)), q)
    ensures ListTakenAway(t, Prune(t, NameAt(path)), path, q)
  {
    var n, m, there := NameAt(path), NameAt(q), Tokens(path);
    PruneRemovesSubtree(t, n);
    SpellNameOf(Tokens(q));
    SpellNameOf(there[..|there| - 1]);
    if m == n.parent {
      var i := OmitAt(t[m].keys, n.last);
    }
  }

  /** A remove that succeeds takes away the node and all its descendants, whatever
      they hold, and nothing else. */
  lemma RemoveTakesSubtree(t: Tree, path: string, q: string)
    requires WellFormed(t) && Remove(t, path).0.Ok?
    ensures TakenAway(t, Remove(t, path).1, path, q)
  {
    RootAt(path);
    PruneTakesAway(t, path, q);
  }

  /** So does a pop, which gives the property the node held. */
  lemma PopTakesSubtree(t: Tree, path: string, q: string)
    requires WellFormed(t) && Pop(t, path).0.Ok?
    ensures Pop(t, path).0 == Access(t, path)
    ensures TakenAway(t, Pop(t, path).1, path, q)
  {
    RootAt(path);
    PruneTakesAway(t, path, q);
  }

  /** Creating a path and removing the one above it takes both. */
  lemma RemoveParent(prop: Property, above: string, below: string)
    requires Tokens(above) != [] && Tokens(above) <= Tokens(below) && !EndsWithSlash(above)
    ensures var t := Create(EmptyTree, below, prop).1;
            var (r, u) := Remove(t, above);
            && Exists(t, above) && Exists(t, below)
            && r == Ok(Unit) && !Exists(u, above) && !Exists(u, below)
  {
    var t := Create(EmptyTree, below, prop).1;
    NewTree(below);
    CreateExists(EmptyTree, below, prop, above);
    CreateExists(EmptyTree, below, prop, below);
    CreateChanges(EmptyTree, below, prop);
    RootAt(above);
    RemoveTakesSubtree(t, above, above);
    RemoveTakesSubtree(t, above, below);
  }

  lemma RemoveParentExample(prop: Property)
    ensures var t := Create(EmptyTree, "/a/b", prop).1;
            var (r, u) := Remove(t, "/a");
            && Exists(t, "/a") && Exists(t, "/a/b")
            && r == Ok(Unit) && !Exists(u, "/a") && !Exists(u, "/a/b")
  {
    TokensOfToken("a");
    TokensOfToken("b");
    TokensConcat("", "a");
    TokensConcat("/a", "b");
    assert "" + "/" + "a" == "/a" && "/a" + "/" + "b" == "/a/b";
    assert Tokens("/a") == ["a"] && Tokens("/a/b") == ["a"] + ["b"];
    RemoveParent(prop, "/a", "/a/b");
  }
}
