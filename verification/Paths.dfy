/** The path strings of the property tree: join, leaf, branch and the tokenizer
    that every tree operation walks along. */
module Paths {

  predicate EndsWithSlash(p: string) {
    p != "" && p[|p| - 1] == '/'
  }

  /** `operator/`: trailing slashes of `lhs` and leading slashes of `rhs` are
      peeled off one at a time. */
  function Join(lhs: string, rhs: string): string
    decreases |lhs| + |rhs|
  {
    if EndsWithSlash(lhs) then
      Join(lhs[..|lhs| - 1], rhs)
    else if rhs != "" && rhs[0] == '/' then
      Join(lhs, rhs[1..])
    else
      lhs + "/" + rhs
  }

  /** Position of the last slash, or -1: `rfind`. */
  function LastSlash(p: string): (pos: int)
    ensures -1 <= pos < |p|
    ensures pos == -1 ==> '/' !in p
    ensures pos >= 0 ==> p[pos] == '/' && '/' !in p[pos + 1..]
  {
    if p == "" then -1
    else if EndsWithSlash(p) then |p| - 1
    else
      var pos := LastSlash(p[..|p| - 1]);
      assert p == p[..|p| - 1] + [p[|p| - 1]];
      assert pos >= 0 ==> p[pos + 1..] == p[..|p| - 1][pos + 1..] + [p[|p| - 1]];
      pos
  }

  function Leaf(p: string): string {
    if LastSlash(p) == -1 then p else p[LastSlash(p) + 1..]
  }

  function BranchPath(p: string): string {
    if LastSlash(p) == -1 then p else p[..LastSlash(p)]
  }

  /** Length of the slash-free run at the front. */
  function RunLength(p: string): (k: nat)
    ensures k <= |p| && '/' !in p[..k]
    ensures k < |p| ==> p[k] == '/'
  {
    if p == "" || p[0] == '/' then 0
    else
      var k := RunLength(p[1..]);
      assert p[..k + 1] == [p[0]] + p[1..][..k];
      k + 1
  }

  /** The tokenizer: the maximal slash-free runs, empty ones dropped. */
  function Tokens(p: string): seq<string>
    decreases |p|
  {
    if p == "" then []
    else if p[0] == '/' then Tokens(p[1..])
    else [p[..RunLength(p)]] + Tokens(p[RunLength(p)..])
  }

  predicate IsToken(t: string) {
    t != "" && '/' !in t
  }

  /** The canonical spelling of a token sequence. */
  function Render(ts: seq<string>): string {
    if ts == [] then "" else "/" + ts[0] + Render(ts[1..])
  }

  // ------------------------------------------------------------------
  // The tokenizer
  // ------------------------------------------------------------------

  lemma {:induction false} TokensAreTokens(p: string)
    ensures forall t :: t in Tokens(p) ==> IsToken(t)
    decreases |p|
  {
    if p != "" {
      if p[0] == '/' {
        TokensAreTokens(p[1..]);
      } else {
        TokensAreTokens(p[RunLength(p)..]);
      }
    }
  }

  lemma {:induction false} RunLengthOfToken(t: string, b: string)
    requires '/' !in t
    requires b == "" || b[0] == '/'
    ensures RunLength(t + b) == |t|
  {
    if t != "" {
      assert t[0] in t;
      assert (t + b)[1..] == t[1..] + b;
      RunLengthOfToken(t[1..], b);
    }
  }

  lemma TokensOfToken(t: string)
    requires '/' !in t
    ensures Tokens(t) == if t == "" then [] else [t]
  {
    RunLengthOfToken(t, "");
    assert t + "" == t;
    if t != "" {
      assert t[0] in t;
      assert t[..|t|] == t && t[|t|..] == "";
    }
  }

  /** Cutting a string after its first run. */
  lemma CutRun(a: string, b: string)
    requires a != "" && a[0] != '/'
    ensures var k, s := RunLength(a), a + "/" + b;
            k > 0 && RunLength(s) == k && s[..k] == a[..k] && s[k..] == a[k..] + "/" + b
  {
    var k, s := RunLength(a), a + "/" + b;
    var rest := a[k..] + "/" + b;
    assert s == a[..k] + rest;
    RunLengthOfToken(a[..k], rest);
  }

  /** A slash separates: tokenizing distributes over it. */
  lemma {:induction false} TokensConcat(a: string, b: string)
    ensures Tokens(a + "/" + b) == Tokens(a) + Tokens(b)
    decreases |a|
  {
    var s := a + "/" + b;
    if a == "" {
      assert s[1..] == b;
    } else if a[0] == '/' {
      assert s[1..] == a[1..] + "/" + b;
      TokensConcat(a[1..], b);
    } else {
      CutRun(a, b);
      TokensConcat(a[RunLength(a)..], b);
    }
  }

  lemma TokenThenRender(t: string, ts: seq<string>)
    requires IsToken(t)
    ensures Tokens("/" + t + Render(ts)) == [t] + Tokens(Render(ts))
  {
    var rest := Render(ts);
    assert ("/" + t + rest)[1..] == t + rest;
    TokensOfToken(t);
    if ts == [] {
      assert t + rest == t;
    } else {
      var tail := rest[1..];
      assert t + rest == t + "/" + tail;
      TokensConcat(t, tail);
    }
  }

  /** Rendering a token sequence and tokenizing it again gives it back. */
  lemma {:induction false} TokensOfRender(ts: seq<string>)
    requires forall t :: t in ts ==> IsToken(t)
    ensures Tokens(Render(ts)) == ts
  {
    if ts != [] {
      TokensOfRender(ts[1..]);
      TokenThenRender(ts[0], ts[1..]);
    }
  }

  // ------------------------------------------------------------------
  // Join
  // ------------------------------------------------------------------

  function StripRight(p: string): string {
    if EndsWithSlash(p) then StripRight(p[..|p| - 1]) else p
  }

  function StripLeft(p: string): string {
    if p != "" && p[0] == '/' then StripLeft(p[1..]) else p
  }

  lemma {:induction false} JoinStrips(a: string, b: string)
    ensures Join(a, b) == StripRight(a) + ("/" + StripLeft(b))
    decreases |a| + |b|
  {
    if EndsWithSlash(a) {
      JoinStrips(a[..|a| - 1], b);
    } else if b != "" && b[0] == '/' {
      JoinStrips(a, b[1..]);
    }
  }

  /** Joining paths concatenates what they walk along, whatever slashes the
      two operands begin or end with. */
  lemma {:induction false} JoinTokens(a: string, b: string)
    ensures Tokens(Join(a, b)) == Tokens(a) + Tokens(b)
    decreases |a| + |b|
  {
    if EndsWithSlash(a) {
      var a' := a[..|a| - 1];
      JoinTokens(a', b);
      TokensConcat(a', "");
      assert a' + "/" + "" == a;
    } else if b != "" && b[0] == '/' {
      JoinTokens(a, b[1..]);
    } else {
      TokensConcat(a, b);
    }
  }

  predicate AllSlashes(p: string) {
    forall i :: 0 <= i < |p| ==> p[i] == '/'
  }

  lemma {:induction false} StripsOfSlashes(p: string)
    requires AllSlashes(p)
    ensures StripRight(p) == "" && StripLeft(p) == ""
    decreases |p|
  {
    if p != "" {
      StripsOfSlashes(p[1..]);
      StripsOfSlashes(p[..|p| - 1]);
    }
  }

  lemma {:induction false} StripLeftSkips(p: string, rest: string)
    requires !AllSlashes(p)
    ensures StripLeft(p + rest) == StripLeft(p) + rest
    ensures !AllSlashes(StripLeft(p))
    decreases |p|
  {
    if p[0] == '/' {
      assert (p + rest)[1..] == p[1..] + rest;
      assert p == ['/'] + p[1..];
      StripLeftSkips(p[1..], rest);
    } else {
      assert (p + rest)[0] == p[0];
    }
  }

  lemma {:induction false} StripRightSkips(front: string, p: string)
    requires !AllSlashes(p)
    ensures StripRight(front + p) == front + StripRight(p)
    ensures !AllSlashes(StripRight(p))
    decreases |p|
  {
    if EndsWithSlash(p) {
      var p' := p[..|p| - 1];
      assert p == p' + ['/'];
      assert (front + p)[..|front + p| - 1] == front + p';
      StripRightSkips(front, p');
    }
  }

  lemma {:induction false} StripRightIdempotent(p: string)
    ensures StripRight(StripRight(p)) == StripRight(p)
    decreases |p|
  {
    if EndsWithSlash(p) { StripRightIdempotent(p[..|p| - 1]); }
  }

  lemma {:induction false} StripLeftIdempotent(p: string)
    ensures StripLeft(StripLeft(p)) == StripLeft(p)
    decreases |p|
  {
    if p != "" && p[0] == '/' { StripLeftIdempotent(p[1..]); }
  }

  lemma {:induction false} StripsCommute(p: string)
    requires !AllSlashes(p)
    ensures StripRight(StripLeft(p)) == StripLeft(StripRight(p))
    decreases |p|
  {
    if p[0] == '/' {
      assert p == ['/'] + p[1..];
      StripRightSkips(['/'], p[1..]);
      StripsCommute(p[1..]);
      var r := StripRight(p);
      assert r[0] == '/' && r[1..] == StripRight(p[1..]);
    } else {
      assert p == "" + p;
      StripRightSkips("", p);
      StripRightKeepsHead(p);
    }
  }

  lemma {:induction false} StripRightKeepsHead(p: string)
    requires p != "" && p[0] != '/'
    ensures StripRight(p) != "" && StripRight(p)[0] == p[0]
    decreases |p|
  {
    if EndsWithSlash(p) { StripRightKeepsHead(p[..|p| - 1]); }
  }

  lemma JoinSplitBySlashes(a: string, b: string, c: string)
    requires AllSlashes(b)
    ensures Join(Join(a, b), c) == Join(a, Join(b, c))
  {
    JoinStrips(a, b);
    JoinStrips(b, c);
    JoinStrips(Join(a, b), c);
    JoinStrips(a, Join(b, c));
    StripsOfSlashes(b);
    StripRightIdempotent(a);
    StripLeftIdempotent(c);
    var ra, lc := StripRight(a), StripLeft(c);
    assert (ra + ("/" + ""))[..|ra|] == ra;
    assert ("" + ("/" + lc))[1..] == lc;
  }

  lemma JoinLeftFirst(a: string, b: string, c: string)
    requires !AllSlashes(b)
    ensures Join(Join(a, b), c) == (StripRight(a) + "/") + StripRight(StripLeft(b)) + ("/" + StripLeft(c))
  {
    JoinStrips(a, b);
    JoinStrips(Join(a, b), c);
    assert b + "" == b;
    StripLeftSkips(b, "");
    StripRightSkips(StripRight(a) + "/", StripLeft(b));
  }

  lemma {:induction false} StripRightKeepsName(p: string)
    requires !AllSlashes(p)
    ensures !AllSlashes(StripRight(p))
    decreases |p|
  {
    if EndsWithSlash(p) { StripRightKeepsName(p[..|p| - 1]); }
  }

  lemma StripLeftOfJoin(b: string, c: string)
    requires !AllSlashes(b)
    ensures StripLeft(Join(b, c)) == StripLeft(StripRight(b)) + ("/" + StripLeft(c))
  {
    StripRightKeepsName(b);
    StripLeftSkips(StripRight(b), "/" + StripLeft(c));
    JoinStrips(b, c);
  }

  lemma JoinRightFirst(a: string, b: string, c: string)
    requires !AllSlashes(b)
    ensures Join(a, Join(b, c)) == (StripRight(a) + "/") + (StripLeft(StripRight(b)) + ("/" + StripLeft(c)))
  {
    JoinStrips(a, Join(b, c));
    StripLeftOfJoin(b, c);
  }

  /** Join is associative on the strings themselves, so a handle obtained by
      any chain of subtree calls spells its paths as one join would. */
  lemma JoinAssociative(a: string, b: string, c: string)
    ensures Join(Join(a, b), c) == Join(a, Join(b, c))
  {
    if AllSlashes(b) {
      JoinSplitBySlashes(a, b, c);
    } else {
      JoinLeftFirst(a, b, c);
      JoinRightFirst(a, b, c);
      StripsCommute(b);
    }
  }

  // ------------------------------------------------------------------
  // Leaf and branch
  // ------------------------------------------------------------------

  lemma {:induction false} LastSlashIff(p: string)
    ensures LastSlash(p) == -1 <==> '/' !in p
    ensures LastSlash(p) == |p| - 1 <==> p == "" || EndsWithSlash(p)
  {
    if LastSlash(p) >= 0 {
      assert p[LastSlash(p)] in p;
    }
  }

  lemma SplitAtLeaf(p: string)
    requires '/' in p
    ensures LastSlash(p) >= 0 && p == BranchPath(p) + "/" + Leaf(p)
  {
    LastSlashIff(p);
    SplitAt(p, LastSlash(p));
  }

  lemma SplitAt(p: string, pos: nat)
    requires pos < |p| && p[pos] == '/'
    ensures p == p[..pos] + "/" + p[pos + 1..]
  {
    var q := p[..pos] + "/" + p[pos + 1..];
    assert |q| == |p|;
    forall i | 0 <= i < |p| ensures q[i] == p[i] {}
  }

  /** What the tokens of a path are in terms of its last slash. */
  lemma TokensSplitAtLeaf(p: string)
    ensures Tokens(p) == (if '/' in p then Tokens(BranchPath(p)) else []) + Tokens(Leaf(p))
    ensures Tokens(Leaf(p)) == if Leaf(p) == "" then [] else [Leaf(p)]
  {
    if '/' in p {
      SplitAtLeaf(p);
      TokensConcat(BranchPath(p), Leaf(p));
    } else {
      LastSlashIff(p);
    }
    LeafHasNoSlash(p);
    TokensOfToken(Leaf(p));
  }

  lemma LeafHasNoSlash(p: string)
    ensures '/' !in Leaf(p)
  {}

  /** `leaf` names the node a walk ends at exactly when the path does not end
      in a slash; when it does, `leaf` is the empty string. */
  lemma LeafIsLastToken(p: string)
    requires Tokens(p) != []
    ensures EndsWithSlash(p) ==> Leaf(p) == ""
    ensures Leaf(p) == Tokens(p)[|Tokens(p)| - 1] <==> !EndsWithSlash(p)
  {
    LastSlashIff(p);
    TokensSplitAtLeaf(p);
    TokensAreTokens(p);
    assert IsToken(Tokens(p)[|Tokens(p)| - 1]);
    if !EndsWithSlash(p) {
      assert Leaf(p) != "";
    }
  }

  /** `branch_path` of a path without any slash is the path itself rather than
      its parent, so splitting and joining again is the same walk exactly when
      there is a slash to split at, or nothing to split. */
  lemma BranchAndLeafRejoin(p: string)
    ensures Tokens(Join(BranchPath(p), Leaf(p))) == Tokens(p) <==> p == "" || '/' in p
  {
    LastSlashIff(p);
    JoinTokens(BranchPath(p), Leaf(p));
    TokensSplitAtLeaf(p);
    if '/' !in p {
      TokensOfToken(p);
    }
  }
}
