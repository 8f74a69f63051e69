/** What the property tree is, as a value: a map from token sequences to
    entries, and what each operation does to it. */
module TreeSpec {
  import opened Common
  import opened Paths

  /** Where a node sits: the token sequence leading to it, last token outermost. */
  datatype Name = Root | Child(parent: Name, last: string)

  /** The node a token sequence leads to. */
  function NameOf(ts: seq<string>): Name {
    if ts == [] then Root else Child(NameOf(ts[..|ts| - 1]), ts[|ts| - 1])
  }

  function NameAt(path: string): Name {
    NameOf(Tokens(path))
  }

  /** The token sequence of a node. */
  function Spell(n: Name): seq<string> {
    if n.Root? then [] else Spell(n.parent) + [n.last]
  }

  /** `m` is `n` or one of its descendants. */
  predicate Under(n: Name, m: Name) {
    m == n || (m.Child? && Under(n, m.parent))
  }

  /** The child of `m` on the way down to `n`. */
  function Toward(m: Name, n: Name): string
    requires Under(m, n) && m != n
  {
    if n.parent == m then n.last else Toward(m, n.parent)
  }

  /** A stored property: the dynamic type it was created with, and which one it is. */
  datatype Property = Property(kind: string, id: nat)

  /** What one node holds: its property if any, its children in insertion order. */
  datatype Entry = Entry(prop: Option<Property>, keys: seq<string>)

  type Tree = t: map<Name, Entry> | Root in t witness map[Root := Entry(None, [])]

  datatype Error =
    | PathNotFound(path: string)
    | KeyNotFound(key: string)
    | CannotUproot
    | CannotPop
    | Uninitialized(path: string)
    | AlreadyExists(path: string)
    | WrongType(path: string)

  const EmptyTree: Tree := map[Root := Entry(None, [])]

  predicate Distinct(s: seq<string>) {
    forall i, j :: 0 <= i < j < |s| ==> s[i] != s[j]
  }

  /** Every node but the root is listed, once, by its parent, which exists;
      parents list nothing else; every name is a token. */
  ghost predicate WellFormed(t: Tree) {
    && (forall n :: n in t ==> Distinct(t[n].keys))
    && (forall p, k :: Child(p, k) in t ==> p in t && k in t[p].keys && IsToken(k))
    && (forall p, k :: p in t && k in t[p].keys ==> Child(p, k) in t)
  }

  // ------------------------------------------------------------------
  // The operations
  // ------------------------------------------------------------------

  /** `t` with an empty node `k` appended to the children of `p`. */
  function AddChild(t: Tree, p: Name, k: string): Tree
    requires p in t
  {
    t[p := Entry(t[p].prop, t[p].keys + [k])][Child(p, k) := Entry(None, [])]
  }

  /** `t` with `n` and everything above it existing. */
  function Grow(t: Tree, n: Name): (u: Tree)
    ensures n in u
  {
    if n in t then t else AddChild(Grow(t, n.parent), n.parent, n.last)
  }

  function SetProperty(t: Tree, n: Name, prop: Property): Tree
    requires n in t
  {
    t[n := Entry(Some(prop), t[n].keys)]
  }

  /** `keys` without `key`. */
  function Omit(keys: seq<string>, key: string): (r: seq<string>)
    ensures forall k :: k in r <==> k in keys && k != key
  {
    if keys == [] then []
    else if keys[0] == key then Omit(keys[1..], key)
    else [keys[0]] + Omit(keys[1..], key)
  }

  /** `t` without the node `n` and everything below it. */
  function Prune(t: Tree, n: Name): Tree
    requires n.Child?
  {
    map m | m in t && !Under(n, m) ::
      if m == n.parent then Entry(t[m].prop, Omit(t[m].keys, n.last)) else t[m]
  }

  /** `_create` on the full path. */
  function Create(t: Tree, path: string, prop: Property): (Result<Unit, Error>, Tree) {
    var n := NameAt(path);
    if n in t && t[n].prop.Some? then (Err(AlreadyExists(path)), t)
    else (Ok(Unit), SetProperty(Grow(t, n), n, prop))
  }

  /** `remove` on the full path: the node is found by walking the tokens but
      erased from its parent under the name `leaf` gives. */
  function Remove(t: Tree, path: string): (Result<Unit, Error>, Tree) {
    var n := NameAt(path);
    if n !in t then (Err(PathNotFound(path)), t)
    else if n.Root? then (Err(CannotUproot), t)
    else if EndsWithSlash(path) then (Err(KeyNotFound("")), t)
    else (Ok(Unit), Prune(t, n))
  }

  /** `_pop` on the full path. */
  function Pop(t: Tree, path: string): (Result<Property, Error>, Tree) {
    var n := NameAt(path);
    if n !in t then (Err(PathNotFound(path)), t)
    else if t[n].prop.None? then (Err(Uninitialized(path)), t)
    else if n.Root? then (Err(CannotPop), t)
    else if EndsWithSlash(path) then (Err(KeyNotFound("")), t)
    else (Ok(t[n].prop.value), Prune(t, n))
  }

  predicate Exists(t: Tree, path: string) {
    NameAt(path) in t
  }

  function List(t: Tree, path: string): Result<seq<string>, Error> {
    var n := NameAt(path);
    if n in t then Ok(t[n].keys) else Err(PathNotFound(path))
  }

  function Access(t: Tree, path: string): Result<Property, Error> {
    var n := NameAt(path);
    if n !in t then Err(PathNotFound(path))
    else if t[n].prop.None? then Err(Uninitialized(path))
    else Ok(t[n].prop.value)
  }

  /** The cast the typed wrappers apply to what they found; their error names
      the path as the caller wrote it. */
  function Cast(r: Result<Property, Error>, kind: string, given: string): Result<Property, Error> {
    if r.Ok? && r.value.kind != kind then Err(WrongType(given)) else r
  }

  /** `access<T>`. */
  function AccessAs(t: Tree, path: string, kind: string, given: string): Result<Property, Error> {
    Cast(Access(t, path), kind, given)
  }

  /** `pop<T>`: the cast comes after the property has left the tree. */
  function PopAs(t: Tree, path: string, kind: string, given: string): (Result<Property, Error>, Tree) {
    var (r, u) := Pop(t, path);
    (Cast(r, kind, given), u)
  }

  // ------------------------------------------------------------------
  // Names
  // ------------------------------------------------------------------

  /** Names and token sequences are the same thing. */
  lemma {:induction false} SpellNameOf(ts: seq<string>)
    ensures Spell(NameOf(ts)) == ts
  {
    if ts != [] { SpellNameOf(ts[..|ts| - 1]); }
  }

  lemma {:induction false} NameOfSpell(n: Name)
    ensures NameOf(Spell(n)) == n
  {
    if n.Child? { NameOfSpell(n.parent); }
  }

  /** Two names are one under the other exactly when the token sequences are
      prefixes. */
  lemma {:induction false} UnderIsPrefix(n: Name, m: Name)
    ensures Under(n, m) <==> Spell(n) <= Spell(m)
  {
    if n == m {
    } else if m.Root? {
      if Spell(n) == [] { NameOfSpell(n); }
    } else {
      UnderIsPrefix(n, m.parent);
      PrefixOfSnoc(Spell(n), Spell(m.parent), m.last);
      NameOfSpell(n);
      NameOfSpell(m);
    }
  }

  lemma PrefixOfSnoc(a: seq<string>, b: seq<string>, x: string)
    ensures a <= b + [x] <==> a <= b || a == b + [x]
  {
    if |a| <= |b| {
      assert (b + [x])[..|a|] == b[..|a|];
    }
  }

  /** All names on the way to `n` are tokens. */
  predicate Tokenized(n: Name) {
    n.Child? ==> IsToken(n.last) && Tokenized(n.parent)
  }

  lemma {:induction false} NameOfTokenized(ts: seq<string>)
    requires forall k :: k in ts ==> IsToken(k)
    ensures Tokenized(NameOf(ts))
  {
    if ts != [] { NameOfTokenized(ts[..|ts| - 1]); }
  }

  lemma NameAtTokenized(path: string)
    ensures Tokenized(NameAt(path))
  {
    TokensAreTokens(path);
    NameOfTokenized(Tokens(path));
  }

  // ------------------------------------------------------------------
  // Create
  // ------------------------------------------------------------------

  /** What exists has everything above it. */
  lemma {:induction false} AboveExists(t: Tree, n: Name, m: Name)
    requires WellFormed(t) && n in t && Under(m, n)
    ensures m in t
    ensures m != n ==> Child(m, Toward(m, n)) in t
  {
    if m != n {
      if n.parent != m { AboveExists(t, n.parent, m); }
    }
  }

  /** Where the path to `n` leaves the tree `t`. */
  predicate LeavesAt(t: Tree, m: Name, n: Name) {
    m in t && Under(m, n) && m != n && Child(m, Toward(m, n)) !in t
  }

  lemma {:induction false} GrowExisting(t: Tree, n: Name, m: Name)
    requires WellFormed(t) && m in t
    ensures m in Grow(t, n)
    ensures Grow(t, n)[m] == Entry(t[m].prop, if LeavesAt(t, m, n) then t[m].keys + [Toward(m, n)] else t[m].keys)
  {
    if n in t {
      if Under(m, n) { AboveExists(t, n, m); }
    } else {
      GrowExisting(t, n.parent, m);
      if m == n.parent {
        assert Grow(t, m) == t;
        TowardParent(n);
      } else if Under(m, n) {
        assert Toward(m, n) == Toward(m, n.parent);
      }
    }
  }

  lemma TowardParent(n: Name)
    requires n.Child?
    ensures Under(n.parent, n) && n.parent != n
    ensures Toward(n.parent, n) == n.last
  {
    NotUnderParent(n);
  }

  lemma {:induction false} GrowMissing(t: Tree, n: Name, m: Name)
    requires WellFormed(t) && m !in t
    ensures m in Grow(t, n) <==> Under(m, n)
    ensures Under(m, n) ==> Grow(t, n)[m] == Entry(None, if m == n then [] else [Toward(m, n)])
  {
    if n in t {
      if Under(m, n) { AboveExists(t, n, m); }
    } else {
      GrowMissing(t, n.parent, m);
      NotUnderParent(n);
    }
  }

  /** Growing adds exactly the missing names above and at `n`, each holding only
      the next one; every property stays where it was; a node that existed gains
      one child, at the end of its list, if the path leaves the tree there. */
  lemma GrowAddsMissingPrefixes(t: Tree, n: Name)
    requires WellFormed(t)
    ensures forall m :: m in Grow(t, n) <==> m in t || Under(m, n)
    ensures forall m :: m in t ==>
      Grow(t, n)[m] == Entry(t[m].prop, if LeavesAt(t, m, n) then t[m].keys + [Toward(m, n)] else t[m].keys)
    ensures forall m :: Under(m, n) && m !in t ==>
      Grow(t, n)[m] == Entry(None, if m == n then [] else [Toward(m, n)])
  {
    forall m | m in t { GrowExisting(t, n, m); }
    forall m | m !in t { GrowMissing(t, n, m); }
  }

  lemma NotUnderParent(n: Name)
    requires n.Child?
    ensures !Under(n, n.parent)
  {
    UnderIsPrefix(n, n.parent);
  }

  lemma {:induction false} GrowWellFormed(t: Tree, n: Name)
    requires WellFormed(t) && Tokenized(n)
    ensures WellFormed(Grow(t, n))
  {
    if n !in t {
      GrowWellFormed(t, n.parent);
      GrowAddsMissingPrefixes(t, n.parent);
      NotUnderParent(n);
      AddChildWellFormed(Grow(t, n.parent), n.parent, n.last);
    }
  }

  lemma AddChildWellFormed(t: Tree, p: Name, k: string)
    requires WellFormed(t) && p in t && Child(p, k) !in t && IsToken(k)
    ensures WellFormed(AddChild(t, p, k))
  {
    var u := AddChild(t, p, k);
    assert forall j :: j in u[p].keys <==> j in t[p].keys || j == k;
    assert k !in t[p].keys;
  }

  lemma SetPropertyWellFormed(t: Tree, n: Name, prop: Property)
    requires WellFormed(t) && n in t
    ensures WellFormed(SetProperty(t, n, prop))
  {}

  // ------------------------------------------------------------------
  // Remove
  // ------------------------------------------------------------------

  lemma {:induction false} OmitDistinct(keys: seq<string>, key: string)
    requires Distinct(keys)
    ensures Distinct(Omit(keys, key))
  {
    if keys != [] {
      OmitDistinct(keys[1..], key);
      assert keys[0] !in keys[1..];
    }
  }

  /** Removing takes away the node and its descendants and nothing else: every
      other node keeps its property, and only the parent's child list changes,
      by the loss of that one name. */
  lemma PruneRemovesSubtree(t: Tree, n: Name)
    requires WellFormed(t) && n in t && n.Child?
    ensures WellFormed(Prune(t, n))
    ensures forall m :: m in Prune(t, n) <==> m in t && !Under(n, m)
    ensures forall m :: m in Prune(t, n) ==> Prune(t, n)[m].prop == t[m].prop
    ensures forall m :: m in Prune(t, n) && m != n.parent ==> Prune(t, n)[m].keys == t[m].keys
    ensures n.parent in Prune(t, n)
    ensures forall k :: k in Prune(t, n)[n.parent].keys <==> k in t[n.parent].keys && k != n.last
  {
    NotUnderParent(n);
    OmitDistinct(t[n.parent].keys, n.last);
  }

  lemma {:induction false} OmitLast(keys: seq<string>, key: string)
    requires key !in keys
    ensures Omit(keys + [key], key) == keys
  {
    if keys != [] {
      assert keys[0] in keys;
      assert (keys + [key])[1..] == keys[1..] + [key];
      OmitLast(keys[1..], key);
    }
  }

  lemma {:induction false} UnderTransitive(a: Name, b: Name, c: Name)
    requires Under(a, b) && Under(b, c)
    ensures Under(a, c)
  {
    if b != c { UnderTransitive(a, b, c.parent); }
  }

  lemma PruneAddChild(t: Tree, p: Name, k: string)
    requires WellFormed(t) && p in t && Child(p, k) !in t
    ensures Prune(AddChild(t, p, k), Child(p, k)) == t
  {
    var n := Child(p, k);
    NotUnderParent(n);
    OmitLast(t[p].keys, k);
    forall m | m in t ensures !Under(n, m) {
      if Under(n, m) { AboveExists(t, m, n); }
    }
  }

  /** Creating a node below an existing parent and removing it again gives the
      tree back; if the parent was missing it does not, for the parent stays. */
  lemma CreateThenRemove(t: Tree, path: string, prop: Property)
    requires WellFormed(t)
    requires NameAt(path) !in t && !EndsWithSlash(path)
    ensures Remove(Create(t, path, prop).1, path).0 == Ok(Unit)
    ensures Remove(Create(t, path, prop).1, path).1 == t <==> NameAt(path).parent in t
  {
    var n := NameAt(path);
    var u := Grow(t, n);
    assert Prune(SetProperty(u, n, prop), n) == Prune(u, n);
    if n.parent in t {
      assert Grow(t, n.parent) == t;
      PruneAddChild(t, n.parent, n.last);
    } else {
      GrowAddsMissingPrefixes(t, n);
      NotUnderParent(n);
      assert n.parent in Prune(u, n);
    }
  }

  // ------------------------------------------------------------------
  // Every operation, every run, any chain of handles
  // ------------------------------------------------------------------

  datatype Op =
    | OpCreate(path: string, prop: Property)
    | OpRemove(path: string)
    | OpPop(path: string)
    | OpPopAs(path: string, kind: string)
    | OpExists(path: string)
    | OpList(path: string)
    | OpAccess(path: string)
    | OpAccessAs(path: string, kind: string)

  /** What the caller gets from an operation. */
  datatype Reply = Done | Answer(found: bool) | Names(names: seq<string>) | Found(prop: Property) | Threw(error: Error)

  function DoneOr(r: Result<Unit, Error>): Reply {
    if r.Ok? then Done else Threw(r.error)
  }

  function FoundOr(r: Result<Property, Error>): Reply {
    if r.Ok? then Found(r.value) else Threw(r.error)
  }

  function NamesOr(r: Result<seq<string>, Error>): Reply {
    if r.Ok? then Names(r.value) else Threw(r.error)
  }

  /** One operation issued through a handle whose root is `root`. */
  function Apply(t: Tree, root: string, op: Op): (Reply, Tree) {
    Act(t, Join(root, op.path), op)
  }

  /** One operation on the full path. */
  function Act(t: Tree, full: string, op: Op): (Reply, Tree) {
    match op
    case OpCreate(_, prop) =>
      var (r, u) := Create(t, full, prop);
      (DoneOr(r), u)
    case OpRemove(_) =>
      var (r, u) := Remove(t, full);
      (DoneOr(r), u)
    case OpPop(_) =>
      var (r, u) := Pop(t, full);
      (FoundOr(r), u)
    case OpPopAs(path, kind) =>
      var (r, u) := PopAs(t, full, kind, path);
      (FoundOr(r), u)
    case OpExists(_) => (Answer(Exists(t, full)), t)
    case OpList(_) => (NamesOr(List(t, full)), t)
    case OpAccess(_) => (FoundOr(Access(t, full)), t)
    case OpAccessAs(path, kind) => (FoundOr(AccessAs(t, full, kind, path)), t)
  }

  predicate Reads(op: Op) {
    op.OpExists? || op.OpList? || op.OpAccess? || op.OpAccessAs?
  }

  /** Each step of a run names the root of the handle it goes through. */
  function Run(t: Tree, steps: seq<(string, Op)>): Tree
    decreases |steps|
  {
    if steps == [] then t
    else Run(Apply(t, steps[0].0, steps[0].1).1, steps[1..])
  }

  lemma CreateChanges(t: Tree, path: string, prop: Property)
    requires WellFormed(t)
    ensures var (r, u) := Create(t, path, prop); WellFormed(u) && (u == t <==> r.Err?)
  {
    var n := NameAt(path);
    var g := Grow(t, n);
    NameAtTokenized(path);
    GrowWellFormed(t, n);
    SetPropertyWellFormed(g, n, prop);
    assert SetProperty(g, n, prop)[n].prop.Some?;
  }

  lemma PruneChanges(t: Tree, n: Name)
    requires WellFormed(t) && n in t && n.Child?
    ensures WellFormed(Prune(t, n)) && Prune(t, n) != t
  {
    PruneRemovesSubtree(t, n);
    assert n !in Prune(t, n);
  }

  lemma RemoveChanges(t: Tree, path: string)
    requires WellFormed(t)
    ensures var (r, u) := Remove(t, path); WellFormed(u) && (u == t <==> r.Err?)
  {
    var n := NameAt(path);
    if n in t && n.Child? { PruneChanges(t, n); }
  }

  lemma PopChanges(t: Tree, path: string)
    requires WellFormed(t)
    ensures var (r, u) := Pop(t, path); WellFormed(u) && (u == t <==> r.Err?) && !(r.Err? && r.error.WrongType?)
  {
    var n := NameAt(path);
    if n in t && n.Child? { PruneChanges(t, n); }
  }

  /** An operation that may change the tree leaves it as it was exactly when it
      throws, but for a typed pop that throws because of the type. */
  lemma ThrowIffUnchanged(t: Tree, root: string, op: Op)
    requires WellFormed(t)
    ensures var (reply, u) := Apply(t, root, op);
            && WellFormed(u)
            && (u == t <==> Reads(op) || (reply.Threw? && !(op.OpPopAs? && reply.error.WrongType?)))
  {
    var full := Join(root, op.path);
    match op
    case OpCreate(_, prop) => CreateChanges(t, full, prop);
    case OpRemove(_) => RemoveChanges(t, full);
    case OpPop(_) => PopChanges(t, full);
    case OpPopAs(_, _) => PopChanges(t, full);
    case _ =>
  }

  /** Over every run from the empty tree, whatever handles are used, the names
      that exist are closed upwards and each child list is what is below. */
  lemma {:induction false} RunsStayWellFormed(t: Tree, steps: seq<(string, Op)>)
    requires WellFormed(t)
    ensures WellFormed(Run(t, steps))
    ensures forall n, m :: n in Run(t, steps) && Under(m, n) ==> m in Run(t, steps)
    decreases |steps|
  {
    if steps == [] {
      forall n, m | n in t && Under(m, n) ensures m in t { AboveExists(t, n, m); }
    } else {
      ThrowIffUnchanged(t, steps[0].0, steps[0].1);
      RunsStayWellFormed(Apply(t, steps[0].0, steps[0].1).1, steps[1..]);
    }
  }

  function Reroot(prefix: string, op: Op): Op {
    op.(path := Join(prefix, op.path))
  }

  /** The error about the type is the one that names the path as it was given. */
  function RerootReply(prefix: string, reply: Reply): Reply {
    if reply.Threw? && reply.error.WrongType? then Threw(WrongType(Join(prefix, reply.error.path))) else reply
  }

  /** An operation on `subtree(prefix)` is the operation on `prefix / path`: the
      same tree, values and errors, but that the error about the type names the
      path given to it. */
  lemma SubtreeOperation(t: Tree, root: string, prefix: string, op: Op)
    ensures var (reply, u) := Apply(t, Join(root, prefix), op);
            Apply(t, root, Reroot(prefix, op)) == (RerootReply(prefix, reply), u)
  {
    JoinAssociative(root, prefix, op.path);
    ActReroot(t, Join(root, Reroot(prefix, op).path), prefix, op);
  }

  lemma ActReroot(t: Tree, full: string, prefix: string, op: Op)
    ensures var (reply, u) := Act(t, full, op);
            Act(t, full, Reroot(prefix, op)) == (RerootReply(prefix, reply), u)
  {
    var other := Reroot(prefix, op);
    match op
    case OpCreate(_, prop) => assert other.prop == prop;
    case OpPopAs(_, kind) => assert other.kind == kind;
    case OpAccessAs(_, kind) => assert other.kind == kind;
    case _ =>
  }

  /** What was just created is what an access through any spelling of the same
      path returns; a pop returns it and takes the node away. */
  lemma CreateThenAccess(t: Tree, path: string, spelling: string, prop: Property)
    requires WellFormed(t) && Tokens(spelling) == Tokens(path)
    requires Create(t, path, prop).0.Ok?
    ensures var u := Create(t, path, prop).1;
            && Access(u, spelling) == Ok(prop)
            && (Tokens(path) != [] && !EndsWithSlash(spelling) ==>
                  Pop(u, spelling).0 == Ok(prop) && !Exists(Pop(u, spelling).1, path))
  {
    assert Under(NameAt(path), NameAt(path));
  }

  /** `remove` of an existing node succeeds exactly when the node is not the
      root and the joined path does not end in a slash. So no handle can remove
      its own root by an empty path, and "/a/" cannot be removed where "/a" can. */
  lemma RemoveSucceedsIff(t: Tree, root: string, path: string)
    requires Exists(t, Join(root, path))
    ensures var ok := Tokens(root) + Tokens(path) != [] && StripLeft(path) != "" && !EndsWithSlash(path);
            Remove(t, Join(root, path)).0.Ok? <==> ok
  {
    JoinTokens(root, path);
    JoinStrips(root, path);
    StripLeftEnd(path);
    var j, tail := Join(root, path), StripLeft(path);
    assert EndsWithSlash(j) <==> tail == "" || EndsWithSlash(tail);
  }

  /** So does `pop`, of a node that has a property. */
  lemma PopSucceedsIff(t: Tree, root: string, path: string)
    ensures var n := NameAt(Join(root, path));
            var ok := Tokens(root) + Tokens(path) != [] && StripLeft(path) != "" && !EndsWithSlash(path);
            Pop(t, Join(root, path)).0.Ok? <==> n in t && t[n].prop.Some? && ok
  {
    if Exists(t, Join(root, path)) {
      RemoveSucceedsIff(t, root, path);
    }
  }

  /** A node that exists can be read but neither removed nor popped through its
      path with a slash at the end. */
  lemma TrailingSlashExample()
    ensures var prop := Property("double", 0);
            var t := Create(EmptyTree, "/a", prop).1;
            && Access(t, "/a/") == Ok(prop)
            && Remove(t, "/a/") == (Err(KeyNotFound("")), t)
            && Pop(t, "/a/") == (Err(KeyNotFound("")), t)
            && Remove(t, "/a").0 == Ok(Unit) && Pop(t, "/a").0 == Ok(prop)
  {
    TokensOfToken("a");
    TokensConcat("", "a");
    assert "" + "/" + "a" == "/a";
    TokensConcat("/a", "");
    assert "/a" + "/" + "" == "/a/";
    assert Tokens("/a/") == ["a"] == Tokens("/a");
    assert NameAt("/a") == NameAt("/a/") == Child(Root, "a") by {
      assert ["a"][..0] == [];
    }
  }

  lemma {:induction false} StripLeftEnd(p: string)
    ensures StripLeft(p) != "" ==> (EndsWithSlash(StripLeft(p)) <==> EndsWithSlash(p))
    ensures StripLeft(p) == "" && p != "" ==> EndsWithSlash(p)
  {
    if p != "" && p[0] == '/' { StripLeftEnd(p[1..]); }
  }

  /** `pop<T>` is the one operation that can throw and still change the tree:
      it does so exactly when it throws because of the type, the property then
      being gone although the caller got an exception. */
  lemma PopAsLosesPropertyIff(t: Tree, path: string, kind: string, given: string)
    requires WellFormed(t)
    ensures var (r, u) := PopAs(t, path, kind, given);
            && (r.Err? && u != t <==> r == Err(WrongType(given)))
            && (r == Err(WrongType(given)) <==>
                  var n := NameAt(path);
                  n.Child? && n in t && !EndsWithSlash(path)
                  && t[n].prop.Some? && t[n].prop.value.kind != kind)
  {
    var n := NameAt(path);
    if n in t && n.Child? {
      PruneRemovesSubtree(t, n);
      assert n !in Prune(t, n);
    }
  }

  lemma PopAsLosesPropertyExample()
    ensures var t := Apply(EmptyTree, "", OpCreate("gain", Property("double", 0))).1;
            && t != EmptyTree
            && Apply(t, "", OpAccess("gain")).0 == Found(Property("double", 0))
            && Apply(t, "", OpPopAs("gain", "int")) == (Threw(WrongType("gain")), EmptyTree)
  {
    var full := Join("", "gain");
    JoinTokens("", "gain");
    TokensOfToken("gain");
    assert NameAt(full) == Child(Root, "gain") by {
      assert NameOf(["gain"][..0]) == Root;
    }
    JoinStrips("", "gain");
    assert !EndsWithSlash(full);
    CreateThenRemove(EmptyTree, full, Property("double", 0));
    assert Child(Root, "gain") in Create(EmptyTree, full, Property("double", 0)).1;
  }
}
