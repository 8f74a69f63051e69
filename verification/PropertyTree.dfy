/** The property tree as it is kept: nodes on the heap, shared by every handle,
    proved to refine the value in TreeSpec. */
module PropertyTree {
  import opened Common
  import opened Paths
  import opened TreeSpec

  /** A node is a dictionary of its children, in insertion order, with a
      property slot. `name` records where it was put. */
  class Node {
    ghost const name: Name
    var prop: Option<Property>
    var keys: seq<string>
    var kids: map<string, Node>

    constructor (ghost name: Name)
      ensures this.name == name && prop == None && keys == [] && kids == map[]
    {
      this.name := name;
      prop := None;
      keys := [];
      kids := map[];
    }

    ghost predicate Holds(n: Name, c: Cell)
      reads this
    {
      name == n && c == Cell(this, prop, keys, kids)
    }

    predicate HasKey(key: string)
      reads this
    {
      key in kids
    }

    /** `dict::pop`: erases the item under `key`, or throws. */
    method PopKey(key: string) returns (r: Result<Unit, Error>)
      modifies this
      ensures prop == old(prop)
      ensures if key in old(kids)
              then r == Ok(Unit) && kids == old(kids) - {key} && keys == Omit(old(keys), key)
              else r == Err(KeyNotFound(key)) && kids == old(kids) && keys == old(keys)
    {
      if !HasKey(key) {
        return Err(KeyNotFound(key));
      }
      kids := kids - {key};
      keys := Omit(keys, key);
      return Ok(Unit);
    }
  }

  // ------------------------------------------------------------------
  // The heap as a value: which node stands at each name, and its fields.
  // ------------------------------------------------------------------

  datatype Cell = Cell(node: Node, prop: Option<Property>, keys: seq<string>, kids: map<string, Node>)

  type Cells = map<Name, Cell>

  /** The links between nodes are those of the names. */
  ghost predicate Tied(c: Cells) {
    && Root in c
    && (forall p, k :: Child(p, k) in c ==> p in c && k in c[p].kids && c[p].kids[k] == c[Child(p, k)].node)
    && (forall p, k :: p in c && k in c[p].kids ==> Child(p, k) in c)
  }

  /** The tree a heap stands for. */
  ghost function TreeOf(c: Cells): Tree
    requires Root in c
  {
    map n | n in c :: Entry(c[n].prop, c[n].keys)
  }

  ghost function WithChild(c: Cells, n: Name, key: string, child: Node): Cells
    requires n in c
  {
    c[n := c[n].(keys := c[n].keys + [key], kids := c[n].kids[key := child])]
    [Child(n, key) := Cell(child, None, [], map[])]
  }

  ghost function WithoutChild(c: Cells, p: Name, key: string): Cells
    requires p in c
  {
    map m | m in c && !Under(Child(p, key), m) ::
      if m == p then c[m].(keys := Omit(c[m].keys, key), kids := c[m].kids - {key}) else c[m]
  }

  ghost function WithProperty(c: Cells, n: Name, prop: Property): Cells
    requires n in c
  {
    c[n := c[n].(prop := Some(prop))]
  }

  lemma WithPropertyTied(c: Cells, n: Name, prop: Property)
    requires Tied(c) && n in c
    ensures Tied(WithProperty(c, n, prop))
    ensures TreeOf(WithProperty(c, n, prop)) == SetProperty(TreeOf(c), n, prop)
  {}

  lemma WithChildTied(c: Cells, n: Name, key: string, child: Node)
    requires Tied(c) && n in c && Child(n, key) !in c
    ensures Tied(WithChild(c, n, key, child))
  {}

  lemma WithChildTree(c: Cells, n: Name, key: string, child: Node)
    requires Root in c && n in c
    ensures TreeOf(WithChild(c, n, key, child)) == AddChild(TreeOf(c), n, key)
  {}

  lemma WithoutChildTied(c: Cells, p: Name, key: string)
    requires Tied(c) && Child(p, key) in c
    ensures p in c && Tied(WithoutChild(c, p, key))
  {}

  lemma WithoutChildTree(c: Cells, p: Name, key: string)
    requires Root in c && p in c
    ensures TreeOf(WithoutChild(c, p, key)) == Prune(TreeOf(c), Child(p, key))
  {}

  /** The guts every handle of one tree points to. */
  class Guts {
    const root: Node
    ghost var cells: Cells
    ghost var Repr: set<object>

    ghost predicate Valid()
      reads this, Repr
      ensures Valid() ==> Root in cells
    {
      Mirrors() && Tied(cells) && WellFormed(View())
    }

    /** The nodes on the heap are as `cells` records them. */
    ghost predicate Mirrors()
      reads this, Repr
    {
      && this in Repr && Root in cells && cells[Root].node == root
      && forall n :: n in cells ==> cells[n].node in Repr && cells[n].node.Holds(n, cells[n])
    }

    ghost function View(): Tree
      reads this
      requires Root in cells
    {
      TreeOf(cells)
    }

    constructor ()
      ensures Valid() && View() == EmptyTree && fresh(Repr)
    {
      root := new Node(Root);
      cells := map[Root := Cell(root, None, [], map[])];
      new;
      Repr := {this, root};
    }

    /** A child link leads to the node recorded for the child. */
    lemma FollowLink(n: Name, node: Node, key: string)
      requires Valid() && n in cells && cells[n].node == node
      ensures node.HasKey(key) <==> Child(n, key) in cells
      ensures node.HasKey(key) ==> node.kids[key] == cells[Child(n, key)].node
    {
      assert node.Holds(n, cells[n]);
    }

    /** `(*node)[name] = node_type()` for a missing name, and the step down to it. */
    method Extend(ghost n: Name, node: Node, key: string) returns (child: Node)
      requires Mirrors() && n in cells && cells[n].node == node
      requires Child(n, key) !in cells
      modifies this, node
      ensures Mirrors() && fresh(Repr - old(Repr))
      ensures cells == WithChild(old(cells), n, key, child)
    {
      child := new Node(Child(n, key));
      node.kids := node.kids[key := child];
      node.keys := node.keys + [key];
      Repr := Repr + {child};
      cells := WithChild(cells, n, key, child);
    }

    method Store(ghost n: Name, node: Node, prop: Property)
      requires Mirrors() && n in cells && cells[n].node == node
      modifies this, node
      ensures Mirrors() && Repr == old(Repr)
      ensures cells == WithProperty(old(cells), n, prop)
    {
      node.prop := Some(prop);
      cells := WithProperty(cells, n, prop);
    }

    /** Erases the child `key` of `parent`; whatever hung below goes with it. */
    method Detach(ghost p: Name, parent: Node, key: string) returns (r: Result<Unit, Error>)
      requires Mirrors() && p in cells && cells[p].node == parent
      modifies this, parent
      ensures Mirrors() && Repr == old(Repr)
      ensures if key in old(cells)[p].kids
              then r == Ok(Unit) && cells == WithoutChild(old(cells), p, key)
              else r == Err(KeyNotFound(key)) && cells == old(cells)
    {
      r := parent.PopKey(key);
      if r.Ok? {
        NotUnderParent(Child(p, key));
        cells := WithoutChild(cells, p, key);
      }
    }
  }

  /** A handle: the shared guts and the root prefix it was opened at. */
  class PropertyTree {
    const guts: Guts
    const root: string

    constructor Make()
      ensures fresh(guts) && guts.Valid() && fresh(guts.Repr)
      ensures guts.View() == EmptyTree && root == ""
    {
      guts := new Guts();
      root := "";
    }

    constructor At(guts: Guts, root: string)
      ensures this.guts == guts && this.root == root
    {
      this.guts := guts;
      this.root := root;
    }

    /** A handle on the same guts, rooted below this one. */
    method Subtree(path: string) returns (sub: PropertyTree)
      ensures fresh(sub) && sub.guts == guts && sub.root == Join(root, path)
    {
      sub := new PropertyTree.At(guts, Join(root, path));
    }

    /** The walk shared by the operations: follows the tokens of the full path
        from the root, remembering the node before the last. */
    method Walk(full: string) returns (node: Node?, parent: Node?)
      requires guts.Valid()
      ensures node == null <==> NameAt(full) !in guts.cells
      ensures node != null ==> guts.cells[NameAt(full)].node == node
      ensures node != null ==> (parent == null <==> NameAt(full).Root?)
      ensures node != null && parent != null ==>
        NameAt(full).parent in guts.cells && guts.cells[NameAt(full).parent].node == parent
    {
      var ts := Tokens(full);
      node, parent := guts.root, null;
      var i := 0;
      while i < |ts|
        invariant i <= |ts|
        invariant NameOf(ts[..i]) in guts.cells && guts.cells[NameOf(ts[..i])].node == node
        invariant parent == null <==> i == 0
        invariant i > 0 ==> NameOf(ts[..i - 1]) in guts.cells && guts.cells[NameOf(ts[..i - 1])].node == parent
      {
        NextName(ts, i);
        guts.FollowLink(NameOf(ts[..i]), node, ts[i]);
        if !node.HasKey(ts[i]) {
          MissingPrefix(guts.View(), ts, i + 1);
          return null, null;
        }
        parent, node := node, node.kids[ts[i]];
        i := i + 1;
      }
      AllOf(ts);
    }

    method Remove(path: string) returns (r: Result<Unit, Error>)
      requires guts.Valid()
      modifies guts.Repr
      ensures guts.Valid() && guts.Repr == old(guts.Repr)
      ensures (r, guts.View()) == TreeSpec.Remove(old(guts.View()), Join(root, path))
    {
      var full := Join(root, path);
      var node, parent := Walk(full);
      if node == null {
        return Err(PathNotFound(full));
      }
      if parent == null {
        return Err(CannotUproot);
      }
      r := EraseLeaf(full, parent);
    }

    /** `parent->pop(path.leaf())`, where the walk along `full` ended below
        `parent`: the name erased is the leaf of the spelling. */
    method EraseLeaf(full: string, parent: Node) returns (r: Result<Unit, Error>)
      requires guts.Valid() && NameAt(full) in guts.cells && NameAt(full).Child?
      requires NameAt(full).parent in guts.cells && guts.cells[NameAt(full).parent].node == parent
      modifies guts.Repr
      ensures guts.Valid() && guts.Repr == old(guts.Repr)
      ensures if EndsWithSlash(full)
              then r == Err(KeyNotFound("")) && guts.View() == old(guts.View())
              else r == Ok(Unit) && guts.View() == Prune(old(guts.View()), NameAt(full))
    {
      ghost var p := NameAt(full).parent;
      LeafIsLastToken(full);
      NoEmptyName(guts.View(), p);
      assert Child(p, "") !in guts.cells;
      ghost var was := guts.cells;
      r := guts.Detach(p, parent, Leaf(full));
      if r.Ok? {
        PruneRemovesSubtree(TreeOf(was), NameAt(full));
        WithoutChildTied(was, p, Leaf(full));
        WithoutChildTree(was, p, Leaf(full));
      }
    }

    method Exists(path: string) returns (found: bool)
      requires guts.Valid()
      ensures found == TreeSpec.Exists(guts.View(), Join(root, path))
    {
      var node, _ := Walk(Join(root, path));
      return node != null;
    }

    method List(path: string) returns (r: Result<seq<string>, Error>)
      requires guts.Valid()
      ensures r == TreeSpec.List(guts.View(), Join(root, path))
    {
      var full := Join(root, path);
      var node, _ := Walk(full);
      return if node == null then Err(PathNotFound(full)) else Ok(node.keys);
    }

    method Pop(path: string) returns (r: Result<Property, Error>)
      requires guts.Valid()
      modifies guts.Repr
      ensures guts.Valid() && guts.Repr == old(guts.Repr)
      ensures (r, guts.View()) == TreeSpec.Pop(old(guts.View()), Join(root, path))
    {
      var full := Join(root, path);
      var node, parent := Walk(full);
      if node == null {
        return Err(PathNotFound(full));
      }
      if node.prop.None? {
        return Err(Uninitialized(full));
      }
      if parent == null {
        return Err(CannotPop);
      }
      var prop := node.prop.value;
      var erased := EraseLeaf(full, parent);
      return if erased.Err? then Err(erased.error) else Ok(prop);
    }

    method Create(path: string, prop: Property) returns (r: Result<Unit, Error>)
      requires guts.Valid()
      modifies guts.Repr
      ensures guts.Valid() && fresh(guts.Repr - old(guts.Repr))
      ensures (r, guts.View()) == TreeSpec.Create(old(guts.View()), Join(root, path), prop)
    {
      var full := Join(root, path);
      ghost var n := NameAt(full);
      GrowAddsMissingPrefixes(guts.View(), n);
      var node := GrowTo(full);
      assert node.prop == guts.View()[n].prop;
      if node.prop.Some? {
        return Err(AlreadyExists(full));
      }
      Fill(n, node, prop);
      return Ok(Unit);
    }

    method Fill(ghost n: Name, node: Node, prop: Property)
      requires guts.Valid() && n in guts.cells && guts.cells[n].node == node
      modifies guts.Repr
      ensures guts.Valid() && guts.Repr == old(guts.Repr)
      ensures guts.View() == SetProperty(old(guts.View()), n, prop)
    {
      SetPropertyWellFormed(guts.View(), n, prop);
      WithPropertyTied(guts.cells, n, prop);
      guts.Store(n, node, prop);
    }

    /** The create loop: walks the tokens, adding what is missing on the way. */
    method GrowTo(full: string) returns (node: Node)
      requires guts.Valid()
      modifies guts.Repr
      ensures guts.Valid() && fresh(guts.Repr - old(guts.Repr))
      ensures NameAt(full) in guts.cells && guts.cells[NameAt(full)].node == node
      ensures guts.View() == Grow(old(guts.View()), NameAt(full))
    {
      var ts := Tokens(full);
      node := guts.root;
      var i := 0;
      while i < |ts|
        invariant i <= |ts|
        invariant guts.Valid() && fresh(guts.Repr - old(guts.Repr))
        invariant NameOf(ts[..i]) in guts.cells && guts.cells[NameOf(ts[..i])].node == node
        invariant guts.View() == Grow(old(guts.View()), NameOf(ts[..i]))
      {
        TokenAt(full, i);
        NextName(ts, i);
        node := StepDown(old(guts.View()), NameOf(ts[..i]), node, ts[i]);
        i := i + 1;
      }
      AllOf(ts);
    }

    /** One turn of the create loop: adds the child if it is missing and moves to it. */
    method StepDown(ghost before: Tree, ghost n: Name, node: Node, key: string) returns (child: Node)
      requires guts.Valid() && n in guts.cells && guts.cells[n].node == node && IsToken(key)
      requires WellFormed(before) && guts.View() == Grow(before, n)
      modifies guts.Repr
      ensures guts.Valid() && fresh(guts.Repr - old(guts.Repr))
      ensures Child(n, key) in guts.cells && guts.cells[Child(n, key)].node == child
      ensures guts.View() == Grow(before, Child(n, key))
    {
      ChildInGrown(before, n, key);
      assert node.HasKey(key) <==> Child(n, key) in guts.View();
      if !node.HasKey(key) {
        AddChildWellFormed(guts.View(), n, key);
        ghost var was := guts.cells;
        child := guts.Extend(n, node, key);
        WithChildTied(was, n, key, child);
        WithChildTree(was, n, key, child);
      } else {
        child := node.kids[key];
      }
    }

    method Access(path: string) returns (r: Result<Property, Error>)
      requires guts.Valid()
      ensures r == TreeSpec.Access(guts.View(), Join(root, path))
    {
      var full := Join(root, path);
      var node, _ := Walk(full);
      if node == null {
        return Err(PathNotFound(full));
      }
      if node.prop.None? {
        return Err(Uninitialized(full));
      }
      return Ok(node.prop.value);
    }

    /** `access<T>`. */
    method AccessAs(path: string, kind: string) returns (r: Result<Property, Error>)
      requires guts.Valid()
      ensures r == TreeSpec.AccessAs(guts.View(), Join(root, path), kind, path)
    {
      r := Access(path);
      if r.Ok? && r.value.kind != kind {
        return Err(WrongType(path));
      }
    }

    /** `pop<T>`. */
    method PopAs(path: string, kind: string) returns (r: Result<Property, Error>)
      requires guts.Valid()
      modifies guts.Repr
      ensures guts.Valid() && guts.Repr == old(guts.Repr)
      ensures (r, guts.View()) == TreeSpec.PopAs(old(guts.View()), Join(root, path), kind, path)
    {
      r := Pop(path);
      if r.Ok? && r.value.kind != kind {
        return Err(WrongType(path));
      }
    }
  }

  /** Growing to `n` creates no child of `n`, so the child was there before or
      growing further adds it. */
  lemma ChildInGrown(t: Tree, n: Name, key: string)
    requires WellFormed(t)
    ensures if Child(n, key) in Grow(t, n) then Grow(t, Child(n, key)) == Grow(t, n)
            else Grow(t, Child(n, key)) == AddChild(Grow(t, n), n, key)
  {
    GrowAddsMissingPrefixes(t, n);
    NotUnderParent(Child(n, key));
  }

  lemma TokenAt(full: string, i: nat)
    requires i < |Tokens(full)|
    ensures IsToken(Tokens(full)[i])
  {
    TokensAreTokens(full);
  }

  lemma NoEmptyName(t: Tree, p: Name)
    requires WellFormed(t)
    ensures Child(p, "") !in t
  {
    assert Child(p, "") in t ==> IsToken("");
  }

  lemma NextName(ts: seq<string>, i: nat)
    requires i < |ts|
    ensures NameOf(ts[..i + 1]) == Child(NameOf(ts[..i]), ts[i])
  {
    assert ts[..i + 1][..i] == ts[..i];
  }

  lemma AllOf(ts: seq<string>)
    ensures ts[..|ts|] == ts
  {}

  /** Once a prefix is missing, so is everything below it. */
  lemma {:induction false} MissingPrefix(t: Tree, ts: seq<string>, i: nat)
    requires WellFormed(t) && i <= |ts| && NameOf(ts[..i]) !in t
    ensures NameOf(ts) !in t
    decreases |ts| - i
  {
    if i < |ts| {
      NextName(ts, i);
      MissingPrefix(t, ts, i + 1);
    } else {
      AllOf(ts);
    }
  }
}
