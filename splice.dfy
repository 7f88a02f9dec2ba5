// The first half of Delete (tree.go:196-257): the node `subst` that leaves
// the tree (the deleted node itself when it has at most one child, else the
// minimum of its right subtree) is cut out and replaced by its only child
// `ptr`; when `subst` is not the deleted node it then takes over the deleted
// node's place, links and colour.  What is left for the rebalancing loop is
// a search tree without the deleted node in which, if `subst` was BLACK,
// the paths through `ptr` lack one BLACK node.
module Removal {
  import opened Nodes
  import opened Structure
  import opened DeleteFixup
  import opened Order
  import opened Rotation

  /** `ptr`: the child of `s` that takes its place, the sentinel if `s` has none (tree.go:201-210). */
  ghost function Ptr(a: Arena, s: int): (c: int)
    requires Shaped(a) && Linked(a, s)
    ensures IsRef(a, c) && (a.left[s] == c || a.right[s] == c)
    ensures a.left[s] == Sentinel || a.right[s] == Sentinel ==> a.sub[s] == {s} + a.sub[c]
  {
    assert Linked(a, s) && SubtreeAt(a, s);
    if a.left[s] == Sentinel then a.right[s] else a.left[s]
  }

  /** Every subtree set without `s`. */
  ghost function Drop(sub: seq<set<int>>, s: int): (r: seq<set<int>>)
    ensures |r| == |sub| && forall i | 0 <= i < |sub| :: r[i] == sub[i] - {s}
  {
    seq(|sub|, i requires 0 <= i < |sub| => sub[i] - {s})
  }

  /**
   * The removal of `s`, which has at most one child (tree.go:220-226): the
   * slot of `s` in its parent, chosen by IsLeftChild, takes `ptr`, and `ptr`
   * gets `up` as its parent (its old grandparent, or `s` itself when `s`
   * will take over the place of its own parent).  The sentinel is written
   * too when it is `ptr`.
   */
  ghost function Remove(a: Arena, s: int, up: int): Arena
    requires Shaped(a) && Linked(a, s) && s != a.root
  {
    assert Linked(a, s);
    var sp := a.parent[s];
    var c := Ptr(a, s);
    var isLeft := a.left[sp] == s;
    a.(left := if isLeft then a.left[sp := c] else a.left,
       right := if isLeft then a.right else a.right[sp := c],
       parent := a.parent[c := up],
       nodes := a.nodes - {s},
       sub := Drop(a.sub, s))
  }

  /** Who is who around a node `s` with at most one child. */
  lemma CutFacts(a: Arena, s: int)
    requires Shaped(a) && Linked(a, s) && s != a.root && (a.left[s] == Sentinel || a.right[s] == Sentinel)
    ensures var sp := a.parent[s]; var c := Ptr(a, s);
      Linked(a, sp) && sp != s && c != s && c != sp && (a.left[sp] == s || a.right[sp] == s) &&
      a.left[sp] != a.right[sp] && s !in a.sub[c] && a.sub[c] < a.sub[s] &&
      (c != Sentinel ==> Linked(a, c) && a.parent[c] == s && c != a.root)
  {
    var sp := a.parent[s];
    var c := Ptr(a, s);
    ChildSide(a, sp, s);
    SubShrinks(a, s);
    assert Linked(a, s) && SubtreeAt(a, s);
    if c != Sentinel {
      ParentOfChild(a, s, c);
    }
    SubShrinks(a, sp);
  }

  /** The children of one node after the removal, and their back links. */
  lemma RemoveDown(a: Arena, s: int, b: Arena, y: int)
    requires Shaped(a) && Linked(a, s) && s != a.root && (a.left[s] == Sentinel || a.right[s] == Sentinel)
    requires b == Remove(a, s, a.parent[s]) && Linked(b, y)
    ensures IsRef(b, b.left[y]) && IsRef(b, b.right[y])
    ensures b.left[y] != Sentinel ==> b.parent[b.left[y]] == y
    ensures b.right[y] != Sentinel ==> b.parent[b.right[y]] == y
  {
    CutFacts(a, s);
    var sp := a.parent[s];
    var c := Ptr(a, s);
    assert Linked(a, y);
    if y != sp {
      OnlyParent(a, y, s);
      if c != Sentinel {
        OnlyParent(a, y, c);
      }
    }
  }

  /** The parent of one node after the removal holds it in one of its slots. */
  lemma RemoveUp(a: Arena, s: int, b: Arena, y: int)
    requires Shaped(a) && Linked(a, s) && s != a.root && (a.left[s] == Sentinel || a.right[s] == Sentinel)
    requires b == Remove(a, s, a.parent[s]) && Linked(b, y) && y != b.root
    ensures 0 < b.parent[y] < |b.key| && b.parent[y] in b.nodes
    ensures b.left[b.parent[y]] == y || b.right[b.parent[y]] == y
  {
    CutFacts(a, s);
    var c := Ptr(a, s);
    assert Linked(a, y);
    var p := a.parent[y];
    ChildSide(a, p, y);
    if y != c {
      assert p != s;
    }
  }

  /** The subtree of one node after the removal is the node and its two new subtrees. */
  lemma RemoveSub(a: Arena, s: int, b: Arena, y: int)
    requires Shaped(a) && Linked(a, s) && s != a.root && (a.left[s] == Sentinel || a.right[s] == Sentinel)
    requires b == Remove(a, s, a.parent[s]) && Linked(b, y)
    requires IsRef(b, b.left[y]) && IsRef(b, b.right[y])
    ensures SubtreeAt(b, y)
  {
    CutFacts(a, s);
    assert Linked(a, y) && SubtreeAt(a, y);
    if y == a.parent[s] {
      RemoveSubParent(a, s, b);
    } else {
      OnlyParent(a, y, s);
      assert b.left[y] == a.left[y] && b.right[y] == a.right[y];
      DropParts(y, s, a.sub[a.left[y]], a.sub[a.right[y]]);
    }
  }

  /** Taking `s` out of a node's subtree takes it out of the parts. */
  lemma DropParts(y: int, s: int, l: set<int>, r: set<int>)
    requires y != s && y !in l && y !in r && l !! r
    ensures ({y} + l + r) - {s} == {y} + (l - {s}) + (r - {s})
    ensures y !in l - {s} && y !in r - {s} && (l - {s}) !! (r - {s})
  {
  }

  /** At the parent of `s`, `ptr`'s subtree takes the place of the subtree of `s`. */
  lemma RemoveSubParent(a: Arena, s: int, b: Arena)
    requires Shaped(a) && Linked(a, s) && s != a.root && (a.left[s] == Sentinel || a.right[s] == Sentinel)
    requires b == Remove(a, s, a.parent[s])
    ensures Linked(b, a.parent[s]) && IsRef(b, b.left[a.parent[s]]) && IsRef(b, b.right[a.parent[s]])
    ensures SubtreeAt(b, a.parent[s])
  {
    CutFacts(a, s);
    var sp := a.parent[s];
    var c := Ptr(a, s);
    assert Linked(a, sp) && SubtreeAt(a, sp);
    assert a.sub[s] == {s} + a.sub[c];
    assert b.sub[c] == a.sub[c];
    if a.left[sp] == s {
      var r := a.right[sp];
      assert b.left[sp] == c && b.right[sp] == r;
      assert s !in a.sub[r];
      assert b.sub[r] == a.sub[r];
      assert b.sub[sp] == {sp} + a.sub[c] + a.sub[r];
    } else {
      var l := a.left[sp];
      assert b.right[sp] == c && b.left[sp] == l;
      assert s !in a.sub[l];
      assert b.sub[l] == a.sub[l];
      assert b.sub[sp] == {sp} + a.sub[l] + a.sub[c];
    }
  }

  /** The removal keeps the tree well formed. */
  lemma RemoveShaped(a: Arena, s: int)
    requires Shaped(a) && Linked(a, s) && s != a.root && (a.left[s] == Sentinel || a.right[s] == Sentinel)
    ensures Shaped(Remove(a, s, a.parent[s]))
  {
    var b := Remove(a, s, a.parent[s]);
    CutFacts(a, s);
    assert a.root != Sentinel ==> Linked(a, a.root);
    forall y | Linked(b, y)
      ensures IsRef(b, b.left[y]) && IsRef(b, b.right[y]) && Linked(a, y)
      ensures (b.left[y] != Sentinel ==> b.parent[b.left[y]] == y) &&
              (b.right[y] != Sentinel ==> b.parent[b.right[y]] == y)
    {
      RemoveDown(a, s, b, y);
    }
    forall y | Linked(b, y) && y != b.root
      ensures 0 < b.parent[y] < |b.key| && b.parent[y] in b.nodes
      ensures b.left[b.parent[y]] == y || b.right[b.parent[y]] == y
    {
      RemoveUp(a, s, b, y);
    }
    forall y | Linked(b, y)
      ensures SubtreeAt(b, y)
    {
      RemoveSub(a, s, b, y);
    }
  }

  /** The removal keeps the search order: every subtree only loses `s`. */
  lemma RemoveOrdered(a: Arena, s: int)
    requires Ordered(a) && Linked(a, s) && s != a.root && (a.left[s] == Sentinel || a.right[s] == Sentinel)
    ensures Ordered(Remove(a, s, a.parent[s]))
  {
    var b := Remove(a, s, a.parent[s]);
    RemoveShaped(a, s);
    CutFacts(a, s);
    var sp := a.parent[s];
    var c := Ptr(a, s);
    forall y | Linked(b, y)
      ensures OrderedAt(b, y)
    {
      assert Linked(a, y) && OrderedAt(a, y);
      if y == sp {
        assert Linked(a, s) && SubtreeAt(a, s);
      } else {
        OnlyParent(a, y, s);
      }
    }
  }

  /** Every node of a balanced tree has at least one BLACK node, a sentinel, below it. */
  lemma {:induction false} HeightPositive(a: Arena, x: int)
    requires Balanced(a) && Linked(a, x)
    ensures a.bh[x] >= 1
    decreases |a.sub[x]|
  {
    assert Linked(a, x) && BalancedAt(a, x);
    SubShrinks(a, x);
    var l := a.left[x];
    if l != Sentinel {
      HeightPositive(a, l);
    }
  }

  /** A RED node with at most one child has none, and removing it leaves a red-black tree. */
  lemma RemoveRed(a: Arena, s: int)
    requires RedBlack(a) && Linked(a, s) && s != a.root && (a.left[s] == Sentinel || a.right[s] == Sentinel)
    requires a.color[s] == RED
    ensures Ptr(a, s) == Sentinel && RedBlack(Remove(a, s, a.parent[s]))
  {
    var b := Remove(a, s, a.parent[s]);
    RemoveShaped(a, s);
    RemoveOrdered(a, s);
    CutFacts(a, s);
    var sp := a.parent[s];
    var c := Ptr(a, s);
    assert Linked(a, s) && BalancedAt(a, s);
    if c != Sentinel {
      HeightPositive(a, c);
      assert false;
    }
    forall y | Linked(b, y)
      ensures BalancedAt(b, y)
      ensures b.color[y] == RED ==> b.color[b.left[y]] == BLACK && b.color[b.right[y]] == BLACK
    {
      assert Linked(a, y) && BalancedAt(a, y);
      if y != sp {
        OnlyParent(a, y, s);
      }
    }
  }

  /**
   * Removing a BLACK node with at most one child leaves a search tree in
   * which only the paths through `ptr` lack a BLACK node, as the loop expects.
   */
  lemma RemoveBlack(a: Arena, s: int)
    requires RedBlack(a) && Linked(a, s) && s != a.root && (a.left[s] == Sentinel || a.right[s] == Sentinel)
    requires a.color[s] == BLACK
    ensures var b := Remove(a, s, a.parent[s]);
      DelInv(b, Ptr(a, s)) && b.parent[Ptr(a, s)] == a.parent[s]
  {
    var b := Remove(a, s, a.parent[s]);
    RemoveShaped(a, s);
    RemoveOrdered(a, s);
    CutFacts(a, s);
    var sp := a.parent[s];
    var c := Ptr(a, s);
    var w := if a.left[sp] == s then a.right[sp] else a.left[sp];
    assert Linked(a, s) && BalancedAt(a, s);
    assert Linked(a, sp) && BalancedAt(a, sp);
    assert a.bh[s] >= 1;
    assert w != Sentinel;
    assert Linked(b, sp);
    if c != Sentinel {
      assert Linked(b, c);
    }
    assert Hangs(b, c);
    assert Sib(b, c) == w;
    forall y | Linked(b, y) && y != sp
      ensures BalancedAt(b, y)
    {
      assert Linked(a, y) && BalancedAt(a, y);
      OnlyParent(a, y, s);
    }
    forall y | Linked(b, y) && b.color[y] == RED && y != c
      ensures (b.color[b.left[y]] == BLACK || b.left[y] == c) && (b.color[b.right[y]] == BLACK || b.right[y] == c)
    {
      assert Linked(a, y);
      if y != sp {
        OnlyParent(a, y, s);
      }
    }
  }

  /** Node `n`'s new name `s`; every other node keeps its own. */
  function Ren(n: int, s: int, v: int): int
  {
    if v == n then s else v
  }

  /** A set of nodes with `n` renamed `s`. */
  ghost function RenSet(n: int, s: int, t: set<int>): set<int>
  {
    if n in t then t - {n} + {s} else t
  }

  /** The subtree sets after `s` takes over the place of `n`. */
  ghost function RenSub(sub: seq<set<int>>, n: int, s: int): (r: seq<set<int>>)
    requires 0 <= n < |sub| && 0 <= s < |sub|
    ensures |r| == |sub| && r[s] == RenSet(n, s, sub[n])
    ensures forall i | 0 <= i < |sub| && i != s :: r[i] == RenSet(n, s, sub[i])
  {
    seq(|sub|, i requires 0 <= i < |sub| => if i == s then RenSet(n, s, sub[n]) else RenSet(n, s, sub[i]))
  }

  /**
   * `s` takes over the place of `n` (tree.go:234-255): it takes `n`'s
   * children, parent and colour, the root pointer or the slot of `n` in its
   * parent (chosen by IsLeftChild) is set to `s`, and so is the parent of
   * each real child.  `n` keeps its stale fields but is no longer linked.
   */
  ghost function Rename(x: Arena, n: int, s: int): Arena
    requires Sized(x) && 0 <= n < |x.key| && 0 < s < |x.key|
    requires 0 <= x.left[n] < |x.key| && 0 <= x.right[n] < |x.key|
    requires n != x.root ==> 0 <= x.parent[n] < |x.key|
  {
    var l := x.left[n];
    var r := x.right[n];
    var np := x.parent[n];
    var isRoot := n == x.root;
    var isLeft := !isRoot && x.left[np] == n;
    var left1 := x.left[s := l];
    var right1 := x.right[s := r];
    var parent1 := x.parent[s := np];
    var parent2 := if l != Sentinel then parent1[l := s] else parent1;
    x.(left := if isLeft then left1[np := s] else left1,
       right := if !isRoot && !isLeft then right1[np := s] else right1,
       parent := if r != Sentinel then parent2[r := s] else parent2,
       color := x.color[s := x.color[n]],
       root := if isRoot then s else x.root,
       nodes := x.nodes - {n} + {s},
       sub := RenSub(x.sub, n, s),
       bh := x.bh[s := x.bh[n]])
  }

  /**
   * `b` is the tree `x` with node `n` renamed `s`: the same links, colours,
   * black heights and subtrees up to the renaming, and the same keys
   * (so only the key seen at the renamed node changes).
   */
  ghost predicate Renamed(x: Arena, n: int, s: int, b: Arena)
    requires Shaped(x) && 0 < s < |x.key|
  {
    |b.left| == |b.right| == |b.parent| == |b.color| == |b.key| == |b.sub| == |b.bh| == |x.key| &&
    b.key == x.key && b.nodes == x.nodes - {n} + {s} && b.root == Ren(n, s, x.root) &&
    b.left[Sentinel] == x.left[Sentinel] && b.right[Sentinel] == x.right[Sentinel] &&
    b.color[Sentinel] == x.color[Sentinel] && b.bh[Sentinel] == x.bh[Sentinel] && b.sub[Sentinel] == x.sub[Sentinel] &&
    forall y {:trigger Linked(x, y)} | Linked(x, y) ::
      b.left[Ren(n, s, y)] == Ren(n, s, x.left[y]) && b.right[Ren(n, s, y)] == Ren(n, s, x.right[y]) &&
      b.color[Ren(n, s, y)] == x.color[y] && b.bh[Ren(n, s, y)] == x.bh[y] &&
      b.sub[Ren(n, s, y)] == RenSet(n, s, x.sub[y]) &&
      (y != x.root ==> b.parent[Ren(n, s, y)] == Ren(n, s, x.parent[y]))
  }

  /** Renaming a node and its two subtrees, all without `s`. */
  lemma RenParts(n: int, s: int, y: int, l: set<int>, r: set<int>)
    requires s != y && s !in l && s !in r && y !in l && y !in r && l !! r
    ensures RenSet(n, s, {y} + l + r) == {Ren(n, s, y)} + RenSet(n, s, l) + RenSet(n, s, r)
    ensures Ren(n, s, y) !in RenSet(n, s, l) && Ren(n, s, y) !in RenSet(n, s, r)
    ensures RenSet(n, s, l) !! RenSet(n, s, r)
  {
  }

  /** The conditions under which a renaming is one: `n` linked, `s` a free slot. */
  ghost predicate Renaming(x: Arena, n: int, s: int, b: Arena) {
    Shaped(x) && Linked(x, n) && 0 < s < |x.key| && s !in x.nodes && Renamed(x, n, s, b)
  }

  /** One node of the renamed tree, seen from the node of `x` it comes from. */
  lemma RenamedNode(x: Arena, n: int, s: int, b: Arena, y: int)
    requires Renaming(x, n, s, b) && Linked(x, y)
    ensures Linked(b, Ren(n, s, y)) && IsRef(b, b.left[Ren(n, s, y)]) && IsRef(b, b.right[Ren(n, s, y)])
    ensures b.color[b.left[Ren(n, s, y)]] == x.color[x.left[y]] && b.bh[b.left[Ren(n, s, y)]] == x.bh[x.left[y]]
    ensures b.color[b.right[Ren(n, s, y)]] == x.color[x.right[y]] && b.bh[b.right[Ren(n, s, y)]] == x.bh[x.right[y]]
    ensures b.sub[b.left[Ren(n, s, y)]] == RenSet(n, s, x.sub[x.left[y]])
    ensures b.sub[b.right[Ren(n, s, y)]] == RenSet(n, s, x.sub[x.right[y]])
  {
    assert Linked(x, y);
    var l := x.left[y];
    var r := x.right[y];
    if l != Sentinel {
      assert Linked(x, l);
    }
    if r != Sentinel {
      assert Linked(x, r);
    }
  }

  /** The node of `x` that a node of the renamed tree comes from. */
  lemma RenamedFrom(x: Arena, n: int, s: int, b: Arena, v: int)
    requires Renaming(x, n, s, b) && Linked(b, v)
    ensures var y := if v == s then n else v; Linked(x, y) && Ren(n, s, y) == v
  {
  }

  /** The links, back links and subtree of one node of the renamed tree. */
  lemma RenamedAt(x: Arena, n: int, s: int, b: Arena, v: int)
    requires Renaming(x, n, s, b) && Linked(b, v)
    ensures IsRef(b, b.left[v]) && IsRef(b, b.right[v])
    ensures b.left[v] != Sentinel ==> b.parent[b.left[v]] == v
    ensures b.right[v] != Sentinel ==> b.parent[b.right[v]] == v
    ensures v != b.root ==>
      0 < b.parent[v] < |b.key| && b.parent[v] in b.nodes && (b.left[b.parent[v]] == v || b.right[b.parent[v]] == v)
    ensures SubtreeAt(b, v)
  {
    var y := if v == s then n else v;
    RenamedFrom(x, n, s, b, v);
    RenamedNode(x, n, s, b, y);
    assert Linked(x, y) && SubtreeAt(x, y);
    SubShrinks(x, y);
    var l := x.left[y];
    var r := x.right[y];
    if l != Sentinel {
      assert Linked(x, l);
    }
    if r != Sentinel {
      assert Linked(x, r);
    }
    if v != b.root {
      var p := x.parent[y];
      ChildSide(x, p, y);
      RenamedNode(x, n, s, b, p);
    }
    RenParts(n, s, y, x.sub[l], x.sub[r]);
  }

  /** Renaming a node keeps the tree well formed. */
  lemma RenamedShaped(x: Arena, n: int, s: int, b: Arena)
    requires Renaming(x, n, s, b)
    ensures Shaped(b)
  {
    assert Linked(x, n);
    assert x.root != Sentinel;
    assert Linked(x, x.root);
    forall v | Linked(b, v)
      ensures IsRef(b, b.left[v]) && IsRef(b, b.right[v])
      ensures (b.left[v] != Sentinel ==> b.parent[b.left[v]] == v) &&
              (b.right[v] != Sentinel ==> b.parent[b.right[v]] == v)
    {
      RenamedAt(x, n, s, b, v);
    }
    forall v | Linked(b, v) && v != b.root
      ensures 0 < b.parent[v] < |b.key| && b.parent[v] in b.nodes
      ensures b.left[b.parent[v]] == v || b.right[b.parent[v]] == v
    {
      RenamedAt(x, n, s, b, v);
    }
    forall v | Linked(b, v)
      ensures SubtreeAt(b, v)
    {
      RenamedAt(x, n, s, b, v);
    }
  }

  /** A key `k` lies on the same side of every other key as the key of `n`, and differs from all of them. */
  ghost predicate SameSide(x: Arena, n: int, k: int)
    requires SentinelOk(x) && Linked(x, n)
  {
    forall z {:trigger Linked(x, z)} | Linked(x, z) && z != n ::
      (x.key[z] < x.key[n] <==> x.key[z] < k) && x.key[z] != k
  }

  /** The search order at one renamed node, on its left. */
  lemma RenamedOrderedLeft(x: Arena, n: int, s: int, b: Arena, v: int)
    requires Renaming(x, n, s, b) && Ordered(x) && SameSide(x, n, x.key[s]) && Shaped(b) && Linked(b, v)
    ensures forall z | z in b.sub[b.left[v]] :: b.key[z] < b.key[v]
  {
    var y := if v == s then n else v;
    RenamedFrom(x, n, s, b, v);
    RenamedNode(x, n, s, b, y);
    assert Linked(x, y) && OrderedAt(x, y);
    SubShrinks(x, y);
    forall z | z in b.sub[b.left[v]]
      ensures b.key[z] < b.key[v]
    {
      var u := if z == s then n else z;
      assert u in x.sub[x.left[y]] && Linked(x, u);
    }
  }

  /** The search order at one renamed node, on its right. */
  lemma RenamedOrderedRight(x: Arena, n: int, s: int, b: Arena, v: int)
    requires Renaming(x, n, s, b) && Ordered(x) && SameSide(x, n, x.key[s]) && Shaped(b) && Linked(b, v)
    ensures forall z | z in b.sub[b.right[v]] :: b.key[v] < b.key[z]
  {
    var y := if v == s then n else v;
    RenamedFrom(x, n, s, b, v);
    RenamedNode(x, n, s, b, y);
    assert Linked(x, y) && OrderedAt(x, y);
    SubShrinks(x, y);
    forall z | z in b.sub[b.right[v]]
      ensures b.key[v] < b.key[z]
    {
      var u := if z == s then n else z;
      assert u in x.sub[x.right[y]] && Linked(x, u);
    }
  }

  /** Renaming `n` as a node whose key sits where the key of `n` did keeps the search order. */
  lemma RenamedOrdered(x: Arena, n: int, s: int, b: Arena)
    requires Renaming(x, n, s, b) && Ordered(x) && SameSide(x, n, x.key[s])
    ensures Ordered(b)
  {
    RenamedShaped(x, n, s, b);
    forall v | Linked(b, v)
      ensures OrderedAt(b, v)
    {
      RenamedOrderedLeft(x, n, s, b, v);
      RenamedOrderedRight(x, n, s, b, v);
    }
  }

  /** Black heights and colours at one renamed node are those of the node it comes from. */
  lemma RenamedColors(x: Arena, n: int, s: int, b: Arena, v: int)
    requires Renaming(x, n, s, b) && Shaped(b) && Linked(b, v)
    ensures var y := if v == s then n else v;
      Linked(x, y) && (BalancedAt(b, v) <==> BalancedAt(x, y)) && b.color[v] == x.color[y] &&
      b.color[b.left[v]] == x.color[x.left[y]] && b.color[b.right[v]] == x.color[x.right[y]] &&
      b.left[v] == Ren(n, s, x.left[y]) && b.right[v] == Ren(n, s, x.right[y])
  {
    var y := if v == s then n else v;
    RenamedFrom(x, n, s, b, v);
    RenamedNode(x, n, s, b, y);
  }

  /** Renaming keeps every red-black invariant, given the key condition for the order. */
  lemma RenamedRedBlack(x: Arena, n: int, s: int, b: Arena)
    requires Renaming(x, n, s, b) && RedBlack(x) && SameSide(x, n, x.key[s])
    ensures RedBlack(b)
  {
    RenamedOrdered(x, n, s, b);
    forall v | Linked(b, v)
      ensures BalancedAt(b, v)
      ensures b.color[v] == RED ==> b.color[b.left[v]] == BLACK && b.color[b.right[v]] == BLACK
    {
      RenamedColors(x, n, s, b, v);
      var y := if v == s then n else v;
      assert Linked(x, y);
    }
    assert Linked(x, n) && x.root != Sentinel && Linked(x, x.root);
  }

  /** A node other than `n`, or the sentinel, keeps its name, colour and black height. */
  lemma RenamedKept(x: Arena, n: int, s: int, b: Arena, c: int)
    requires Renaming(x, n, s, b) && IsRef(x, c) && c != n
    ensures Ren(n, s, c) == c && c != s && b.color[c] == x.color[c] && b.bh[c] == x.bh[c]
    ensures c != Sentinel ==> Linked(b, c)
  {
    if c != Sentinel {
      assert Linked(x, c);
    }
  }

  /** Renaming keeps the RED defect allowed at `ptr`. */
  lemma RenamedRedBut(x: Arena, n: int, s: int, b: Arena, c: int)
    requires Renaming(x, n, s, b) && Shaped(b) && IsRef(x, c) && c != n && RedBut(x, c)
    ensures RedBut(b, c)
  {
    RenamedKept(x, n, s, b, c);
    forall v | Linked(b, v) && b.color[v] == RED && v != c
      ensures (b.color[b.left[v]] == BLACK || b.left[v] == c) && (b.color[b.right[v]] == BLACK || b.right[v] == c)
    {
      RenamedColors(x, n, s, b, v);
      var y := if v == s then n else v;
      assert Linked(x, y);
    }
  }

  /** Renaming keeps `ptr` hanging below its parent, short of one BLACK node on its side. */
  lemma RenamedShortBy(x: Arena, n: int, s: int, b: Arena, c: int)
    requires Renaming(x, n, s, b) && Shaped(b) && IsRef(x, c) && c != n && c != x.root
    requires Hangs(x, c) && ShortBy(x, c) && b.parent[c] == Ren(n, s, x.parent[c])
    ensures c != b.root && Hangs(b, c) && ShortBy(b, c)
  {
    RenamedKept(x, n, s, b, c);
    var q := x.parent[c];
    var w := Sib(x, c);
    assert Linked(x, q) && Linked(x, x.root);
    RenamedNode(x, n, s, b, q);
    if w == n {
      assert Linked(x, n);
    } else {
      RenamedKept(x, n, s, b, w);
    }
    assert Hangs(b, c);
    assert Sib(b, c) == Ren(n, s, w);
    forall v | Linked(b, v) && v != b.parent[c]
      ensures BalancedAt(b, v)
    {
      RenamedColors(x, n, s, b, v);
      var y := if v == s then n else v;
      assert Linked(x, y);
    }
  }

  /** Renaming keeps the invariant of the rebalancing loop at `ptr`. */
  lemma RenamedDelInv(x: Arena, n: int, s: int, b: Arena, c: int)
    requires Renaming(x, n, s, b) && SameSide(x, n, x.key[s]) && DelInv(x, c) && c != n
    requires c != x.root ==> b.parent[c] == Ren(n, s, x.parent[c])
    ensures DelInv(b, c)
  {
    RenamedOrdered(x, n, s, b);
    RenamedKept(x, n, s, b, c);
    RenamedRedBut(x, n, s, b, c);
    assert Linked(x, n) && Linked(x, x.root);
    RenamedNode(x, n, s, b, x.root);
    if c == x.root {
      forall v | Linked(b, v)
        ensures BalancedAt(b, v)
      {
        RenamedColors(x, n, s, b, v);
        var y := if v == s then n else v;
        assert Linked(x, y);
      }
    } else {
      RenamedShortBy(x, n, s, b, c);
    }
  }

  /**
   * Which node leaves the tree (tree.go:201-210): `n` itself when one of its
   * children is the sentinel, else the node with the smallest key of its
   * right subtree, which has no left child.
   */
  ghost predicate Chosen(a: Arena, n: int, s: int)
    requires Shaped(a) && Linked(a, n)
  {
    assert Linked(a, n);
    if a.left[n] == Sentinel || a.right[n] == Sentinel then
      s == n
    else
      s in a.nodes && s in a.sub[a.right[n]] && a.left[s] == Sentinel &&
      forall y | y in a.sub[a.right[n]] :: a.key[s] <= a.key[y]
  }

  /** The chosen node has at most one child; when it is not `n` it lies strictly below `n`. */
  lemma ChosenFacts(a: Arena, n: int, s: int)
    requires Shaped(a) && Linked(a, n) && Chosen(a, n, s)
    ensures Linked(a, s) && (a.left[s] == Sentinel || a.right[s] == Sentinel)
    ensures s != n ==>
      s != a.root && Ptr(a, s) != n && n !in a.sub[s] && a.parent[s] != s &&
      a.left[n] != Sentinel && a.right[n] != Sentinel && s in a.sub[a.right[n]]
  {
    assert Linked(a, n);
    if s != n {
      SubShrinks(a, n);
      assert Linked(a, n) && SubtreeAt(a, n);
      SubWithin(a, a.right[n], s);
      RootNotChild(a, n);
      SubShrinks(a, s);
      CutFacts(a, s);
    }
  }

  /** The removal with another parent for `ptr` differs from the plain one in that parent only. */
  lemma RemoveUpOnly(a: Arena, s: int, up: int)
    requires Shaped(a) && Linked(a, s) && s != a.root
    ensures var x := Remove(a, s, a.parent[s]);
      Remove(a, s, up) == x.(parent := x.parent[Ptr(a, s) := up])
  {
  }

  /** The fields `Rename` reads are in range after the removal. */
  lemma RemoveRefs(a: Arena, s: int, up: int, y: int)
    requires Shaped(a) && Linked(a, s) && s != a.root && Linked(a, y) && y != s
    ensures var x := Remove(a, s, up);
      Sized(x) && 0 <= x.left[y] < |x.key| && 0 <= x.right[y] < |x.key| &&
      (y != a.root && y != Ptr(a, s) ==> 0 < x.parent[y] < |x.key|)
  {
    assert Linked(a, y) && Linked(a, s);
    if y != a.root {
      ChildSide(a, a.parent[y], y);
    }
  }

  /**
   * Delete below the root, up to the rebalancing loop (tree.go:218-257): the
   * chosen node `s` is cut out, its child `ptr` taking its place, and if `s`
   * is not `n` it then takes over the place, links and colour of `n`.  The
   * parent given to `ptr` is the grandparent, or `s` when that grandparent
   * is `n`, where `s` is about to stand.
   */
  ghost function Splice(a: Arena, n: int, s: int): Arena
    requires Shaped(a) && Linked(a, n) && Chosen(a, n, s) && s != a.root
  {
    ChosenFacts(a, n, s);
    if s == n then Remove(a, n, a.parent[n])
    else
      var sp := a.parent[s];
      var up := if sp == n then s else sp;
      RemoveRefs(a, s, up, n);
      assert 0 < s < |a.key| by {
        assert Linked(a, s);
      }
      Rename(Remove(a, s, up), n, s)
  }

  /**
   * The conditions under which `Rename` is a renaming: `x` is a tree with
   * `n` linked and `s` free, and `x1` is `x` except that `ptr` (`c`, a node
   * other than `n` or the sentinel) has been given the parent `up`, which is
   * its parent in `x` under the renaming.
   */
  ghost predicate RenameSetup(x: Arena, n: int, s: int, c: int, up: int, x1: Arena) {
    Shaped(x) && Linked(x, n) && 0 < s < |x.key| && s !in x.nodes &&
    IsRef(x, c) && c != n && up == Ren(n, s, x.parent[c]) &&
    x1 == x.(parent := x.parent[c := up])
  }

  /** What `Rename` reads of `n` is in range. */
  lemma RenameSetupRefs(x: Arena, n: int, s: int, c: int, up: int, x1: Arena)
    requires RenameSetup(x, n, s, c, up, x1)
    ensures Sized(x1) && 0 <= n < |x1.key| && 0 < s < |x1.key|
    ensures IsRef(x, x1.left[n]) && IsRef(x, x1.right[n])
    ensures n != x1.root ==> Linked(x, x1.parent[n]) && x1.parent[n] == x.parent[n]
  {
    assert Linked(x, n) && SubtreeAt(x, n);
    if n != x.root {
      ChildSide(x, x.parent[n], n);
    }
  }

  /** The renamed node `s` has the children of `n`. */
  lemma RenameAtNew(x: Arena, n: int, s: int, c: int, up: int, x1: Arena)
    requires RenameSetup(x, n, s, c, up, x1)
    ensures RenameSetupOk(x1, n, s)
    ensures Rename(x1, n, s).left[s] == Ren(n, s, x.left[n])
    ensures Rename(x1, n, s).right[s] == Ren(n, s, x.right[n])
  {
    RenameSetupRefs(x, n, s, c, up, x1);
    SubShrinks(x, n);
  }

  /** The renamed node `s` has the parent, colour and bookkeeping of `n`. */
  lemma RenameAtNewRest(x: Arena, n: int, s: int, c: int, up: int, x1: Arena)
    requires RenameSetup(x, n, s, c, up, x1)
    ensures RenameSetupOk(x1, n, s)
    ensures var b := Rename(x1, n, s);
      b.color[s] == x.color[n] && b.bh[s] == x.bh[n] && b.sub[s] == RenSet(n, s, x.sub[n]) &&
      (n != x.root ==> b.parent[s] == Ren(n, s, x.parent[n]))
  {
    RenameSetupRefs(x, n, s, c, up, x1);
  }

  /** The ranges `Rename` needs. */
  ghost predicate RenameSetupOk(x1: Arena, n: int, s: int) {
    Sized(x1) && 0 <= n < |x1.key| && 0 < s < |x1.key| &&
    0 <= x1.left[n] < |x1.key| && 0 <= x1.right[n] < |x1.key| &&
    (n != x1.root ==> 0 <= x1.parent[n] < |x1.key|)
  }

  /** A node other than `n` keeps its children (up to the renaming), colour, black height and subtree. */
  lemma RenameAtOld(x: Arena, n: int, s: int, c: int, up: int, x1: Arena, y: int)
    requires RenameSetup(x, n, s, c, up, x1) && Linked(x, y) && y != n
    ensures RenameSetupOk(x1, n, s)
    ensures var b := Rename(x1, n, s);
      b.left[y] == Ren(n, s, x.left[y]) && b.right[y] == Ren(n, s, x.right[y]) &&
      b.color[y] == x.color[y] && b.bh[y] == x.bh[y] && b.sub[y] == RenSet(n, s, x.sub[y])
  {
    RenameAtNew(x, n, s, c, up, x1);
    if n != x.root {
      ChildSide(x, x.parent[n], n);
    }
    if y == x.parent[n] && n != x.root {
    } else {
      OnlyParent(x, y, n);
    }
  }

  /** A node other than `n` whose parent is kept gets the renamed parent. */
  lemma RenameParentAt(x: Arena, n: int, s: int, c: int, up: int, x1: Arena, y: int)
    requires RenameSetup(x, n, s, c, up, x1) && y != n
    requires y == c || (Linked(x, y) && y != x.root)
    ensures RenameSetupOk(x1, n, s)
    ensures Rename(x1, n, s).parent[y] == Ren(n, s, x.parent[y])
  {
    RenameAtNew(x, n, s, c, up, x1);
    assert Linked(x, n);
    if y != c {
      assert Linked(x, y);
      if x.parent[y] == n {
        ChildSide(x, n, y);
      }
    }
  }

  /** One node of `x` after the renaming. */
  lemma RenameAfterAt(x: Arena, n: int, s: int, c: int, up: int, x1: Arena, y: int)
    requires RenameSetup(x, n, s, c, up, x1) && Linked(x, y)
    ensures RenameSetupOk(x1, n, s)
    ensures var b := Rename(x1, n, s);
      b.left[Ren(n, s, y)] == Ren(n, s, x.left[y]) && b.right[Ren(n, s, y)] == Ren(n, s, x.right[y]) &&
      b.color[Ren(n, s, y)] == x.color[y] && b.bh[Ren(n, s, y)] == x.bh[y] &&
      b.sub[Ren(n, s, y)] == RenSet(n, s, x.sub[y]) &&
      (y != x.root ==> b.parent[Ren(n, s, y)] == Ren(n, s, x.parent[y]))
  {
    RenameAtNew(x, n, s, c, up, x1);
    if y == n {
      RenameAtNewRest(x, n, s, c, up, x1);
    } else {
      RenameAtOld(x, n, s, c, up, x1, y);
      if y != x.root {
        RenameParentAt(x, n, s, c, up, x1, y);
      }
    }
  }

  /** Sizes, keys, members, root and sentinel after the renaming. */
  lemma RenameAfterHead(x: Arena, n: int, s: int, c: int, up: int, x1: Arena)
    requires RenameSetup(x, n, s, c, up, x1)
    ensures RenameSetupOk(x1, n, s)
    ensures var b := Rename(x1, n, s);
      |b.left| == |b.right| == |b.parent| == |b.color| == |b.key| == |b.sub| == |b.bh| == |x.key| &&
      b.key == x.key && b.nodes == x.nodes - {n} + {s} && b.root == Ren(n, s, x.root) &&
      b.left[Sentinel] == x.left[Sentinel] && b.right[Sentinel] == x.right[Sentinel] &&
      b.color[Sentinel] == x.color[Sentinel] && b.bh[Sentinel] == x.bh[Sentinel] && b.sub[Sentinel] == x.sub[Sentinel]
  {
    RenameAtNew(x, n, s, c, up, x1);
    assert Linked(x, n);
    if n != x.root {
      ChildSide(x, x.parent[n], n);
    }
  }

  /**
   * Renaming `n` to `s` in a tree where only the parent of `c` was already
   * redirected to its renamed value yields the renamed tree.
   */
  lemma RenameAfter(x: Arena, n: int, s: int, c: int, up: int, x1: Arena)
    requires RenameSetup(x, n, s, c, up, x1)
    ensures RenameSetupOk(x1, n, s)
    ensures Renaming(x, n, s, Rename(x1, n, s))
    ensures Rename(x1, n, s).parent[c] == Ren(n, s, x.parent[c])
  {
    RenameAfterHead(x, n, s, c, up, x1);
    var b := Rename(x1, n, s);
    forall y | Linked(x, y)
      ensures b.left[Ren(n, s, y)] == Ren(n, s, x.left[y]) && b.right[Ren(n, s, y)] == Ren(n, s, x.right[y])
      ensures b.color[Ren(n, s, y)] == x.color[y] && b.bh[Ren(n, s, y)] == x.bh[y]
      ensures b.sub[Ren(n, s, y)] == RenSet(n, s, x.sub[y])
      ensures y != x.root ==> b.parent[Ren(n, s, y)] == Ren(n, s, x.parent[y])
    {
      RenameAfterAt(x, n, s, c, up, x1, y);
    }
    RenameParentAt(x, n, s, c, up, x1, c);
  }

  /**
   * When `s` is not `n`, the spliced tree is the tree with `s` cut out and
   * then `n` renamed `s`, and `ptr` hangs below the renamed grandparent.
   */
  lemma SpliceRenamed(a: Arena, n: int, s: int)
    requires Shaped(a) && Linked(a, n) && Chosen(a, n, s) && s != n
    ensures Linked(a, s) && s != a.root && a.left[s] == Sentinel
    ensures var x := Remove(a, s, a.parent[s]);
      Renaming(x, n, s, Splice(a, n, s)) &&
      Splice(a, n, s).parent[Ptr(a, s)] == Ren(n, s, a.parent[s])
  {
    ChosenFacts(a, n, s);
    var sp := a.parent[s];
    var up := if sp == n then s else sp;
    var x := Remove(a, s, sp);
    var c := Ptr(a, s);
    RemoveShaped(a, s);
    CutFacts(a, s);
    assert Linked(a, s);
    RemoveUpOnly(a, s, up);
    assert RenameSetup(x, n, s, c, up, Remove(a, s, up));
    RenameAfter(x, n, s, c, up, Remove(a, s, up));
  }

  /** The successor's key sits, among all other keys, exactly where the key of `n` does. */
  lemma SpliceSameSide(a: Arena, n: int, s: int)
    requires Ordered(a) && Linked(a, n) && Chosen(a, n, s) && s != n
    ensures Linked(a, s) && s != a.root && a.left[s] == Sentinel
    ensures var x := Remove(a, s, a.parent[s]);
      Shaped(x) && Linked(x, n) && SameSide(x, n, a.key[s])
  {
    ChosenFacts(a, n, s);
    RemoveShaped(a, s);
    var x := Remove(a, s, a.parent[s]);
    SuccessorInRight(a, n, s);
    forall z | Linked(x, z) && z != n
      ensures (x.key[z] < x.key[n] <==> x.key[z] < a.key[s]) && x.key[z] != a.key[s]
    {
      assert Linked(a, z);
      KeysDistinct(a, z, s);
      KeysDistinct(a, z, n);
    }
  }

  /** Only `n` leaves the tree, and no key is rewritten. */
  lemma SpliceNodes(a: Arena, n: int, s: int)
    requires Shaped(a) && Linked(a, n) && Chosen(a, n, s) && s != a.root
    ensures Splice(a, n, s).key == a.key && Splice(a, n, s).nodes == a.nodes - {n}
  {
    ChosenFacts(a, n, s);
    if s != n {
      SpliceRenamed(a, n, s);
    }
  }

  /** A RED node cut out leaves a red-black tree. */
  lemma SpliceRed(a: Arena, n: int, s: int)
    requires RedBlack(a) && Linked(a, n) && Chosen(a, n, s) && s != a.root
    requires a.color[s] == RED
    ensures RedBlack(Splice(a, n, s))
  {
    ChosenFacts(a, n, s);
    RemoveRed(a, s);
    if s != n {
      SpliceRenamed(a, n, s);
      SpliceSameSide(a, n, s);
      RenamedRedBlack(Remove(a, s, a.parent[s]), n, s, Splice(a, n, s));
    }
  }

  /** A BLACK node cut out leaves the loop invariant at `ptr`. */
  lemma SpliceBlack(a: Arena, n: int, s: int)
    requires RedBlack(a) && Linked(a, n) && Chosen(a, n, s) && s != a.root
    requires a.color[s] == BLACK
    ensures Linked(a, s) && DelInv(Splice(a, n, s), Ptr(a, s))
  {
    ChosenFacts(a, n, s);
    RemoveBlack(a, s);
    if s != n {
      SpliceRenamed(a, n, s);
      SpliceSameSide(a, n, s);
      CutFacts(a, s);
      RenamedDelInv(Remove(a, s, a.parent[s]), n, s, Splice(a, n, s), Ptr(a, s));
    }
  }

  /**
   * Delete below the root, up to the loop: `n` leaves the tree and no key
   * but its own; if the node cut out was RED the tree is already valid
   * (tree.go:258-260), otherwise the loop invariant holds at `ptr`.
   */
  lemma SpliceKeeps(a: Arena, n: int, s: int)
    requires RedBlack(a) && Linked(a, n) && Chosen(a, n, s) && s != a.root
    ensures Linked(a, s) && Splice(a, n, s).nodes == a.nodes - {n}
    ensures Shaped(Splice(a, n, s)) && Keys(Splice(a, n, s)) == Keys(a) - {a.key[n]}
    ensures a.color[s] == RED ==> RedBlack(Splice(a, n, s))
    ensures a.color[s] == BLACK ==> DelInv(Splice(a, n, s), Ptr(a, s))
  {
    ChosenFacts(a, n, s);
    SpliceNodes(a, n, s);
    if a.color[s] == RED {
      SpliceRed(a, n, s);
    } else {
      SpliceBlack(a, n, s);
    }
    KeysWithout(a, n);
  }

  /** Without `n` the tree holds every key but that of `n`, since keys are distinct. */
  lemma KeysWithout(a: Arena, n: int)
    requires Ordered(a) && Linked(a, n)
    ensures (set x | x in a.nodes - {n} :: a.key[x]) == Keys(a) - {a.key[n]}
  {
    forall x | x in a.nodes - {n}
      ensures a.key[x] != a.key[n]
    {
      assert Linked(a, x);
      KeysDistinct(a, x, n);
    }
  }

  /**
   * Delete of the root when it has at most one child (tree.go:212-216): its
   * child `ptr` becomes the root and is painted BLACK.  The parent field of
   * the new root still names the deleted node.
   */
  ghost function Uproot(a: Arena, n: int): Arena
    requires Shaped(a) && Linked(a, n)
  {
    var c := Ptr(a, n);
    a.(root := c, nodes := a.nodes - {n}, color := a.color[c := BLACK])
  }

  /** The tree before the new root is painted. */
  ghost function Unrooted(a: Arena, n: int): Arena
    requires Shaped(a) && Linked(a, n)
  {
    a.(root := Ptr(a, n), nodes := a.nodes - {n})
  }

  /** One node below the removed root, in the tree without it. */
  lemma UnrootedAt(a: Arena, n: int, y: int)
    requires Shaped(a) && n == a.root && Linked(a, n) && Chosen(a, n, n) && Linked(a, y) && y != n
    ensures var x := Unrooted(a, n);
      SentinelOk(x) && IsRef(x, x.left[y]) && IsRef(x, x.right[y]) && SubtreeAt(x, y) &&
      (x.left[y] != Sentinel ==> x.parent[x.left[y]] == y) &&
      (x.right[y] != Sentinel ==> x.parent[x.right[y]] == y) &&
      (y != x.root ==> 0 < x.parent[y] < |x.key| && x.parent[y] in x.nodes &&
                       (x.left[x.parent[y]] == y || x.right[x.parent[y]] == y))
  {
    var x := Unrooted(a, n);
    var c := Ptr(a, n);
    assert Linked(a, n) && SubtreeAt(a, n);
    SubShrinks(a, y);
    RootNotChild(a, y);
    SubWithin(a, c, y);
    if y != c {
      ChildSide(a, a.parent[y], y);
    }
  }

  /** Removing a root with at most one child leaves a tree rooted at that child. */
  lemma UnrootedShaped(a: Arena, n: int)
    requires Shaped(a) && n == a.root && Linked(a, n) && Chosen(a, n, n)
    ensures Shaped(Unrooted(a, n)) && Ptr(a, n) == Unrooted(a, n).root
  {
    var x := Unrooted(a, n);
    assert Linked(a, n) && SubtreeAt(a, n);
    assert Rooted(x);
    forall y | Linked(x, y)
      ensures IsRef(x, x.left[y]) && IsRef(x, x.right[y]) && SubtreeAt(x, y)
      ensures x.left[y] != Sentinel ==> x.parent[x.left[y]] == y
      ensures x.right[y] != Sentinel ==> x.parent[x.right[y]] == y
      ensures y != x.root ==> 0 < x.parent[y] < |x.key| && x.parent[y] in x.nodes &&
                              (x.left[x.parent[y]] == y || x.right[x.parent[y]] == y)
    {
      UnrootedAt(a, n, y);
    }
  }

  /** Deleting the root this way leaves a red-black tree holding every key but its own. */
  lemma UprootKeeps(a: Arena, n: int)
    requires RedBlack(a) && n == a.root && Linked(a, n) && Chosen(a, n, n)
    ensures Uproot(a, n).nodes == a.nodes - {n} && Uproot(a, n).key == a.key
    ensures RedBlack(Uproot(a, n)) && Keys(Uproot(a, n)) == Keys(a) - {a.key[n]}
  {
    var x := Unrooted(a, n);
    var c := Ptr(a, n);
    UnrootedShaped(a, n);
    assert Linked(a, n) && SubtreeAt(a, n);
    forall y | Linked(x, y)
      ensures OrderedAt(x, y) && BalancedAt(x, y)
      ensures x.color[y] == RED ==> x.color[x.left[y]] == BLACK && x.color[x.right[y]] == BLACK
    {
      assert Linked(a, y);
    }
    assert DelInv(x, c);
    DelDone(x, c);
    assert Uproot(a, n) == Paint(x, c, BLACK);
    KeysWithout(a, n);
  }

  /**
   * The splice in two steps, as Delete performs it: after the cut, the
   * fields `Rename` reads are in range and the parent of `n` is not `s`.
   */
  lemma SpliceSteps(a: Arena, n: int, s: int, up: int)
    requires Shaped(a) && Linked(a, n) && Chosen(a, n, s) && s != n
    requires up == (if a.parent[s] == n then s else a.parent[s])
    ensures Linked(a, s) && s != a.root
    ensures var x := Remove(a, s, up);
      Sized(x) && 0 <= n < |x.key| && 0 < s < |x.key| &&
      0 <= x.left[n] < |x.key| && 0 <= x.right[n] < |x.key| &&
      (n != x.root ==> 0 <= x.parent[n] < |x.key| && x.parent[n] != s) &&
      Splice(a, n, s) == Rename(x, n, s)
  {
    ChosenFacts(a, n, s);
    RemoveRefs(a, s, up, n);
    assert Linked(a, s) && SubtreeAt(a, s);
    SubShrinks(a, n);
    if n != a.root {
      ChildSide(a, a.parent[n], n);
    }
  }

  /** `s` takes the children, parent and colour of `n` (tree.go:235-238). */
  ghost function Adopt(x: Arena, n: int, s: int): Arena
    requires Sized(x) && 0 <= n < |x.key| && 0 <= s < |x.key|
  {
    x.(left := x.left[s := x.left[n]], right := x.right[s := x.right[n]],
       parent := x.parent[s := x.parent[n]], color := x.color[s := x.color[n]])
  }

  /** The root pointer, or the slot of `n` in its parent chosen by IsLeftChild, is set to `s` (tree.go:240-248). */
  ghost function Reslot(x: Arena, n: int, s: int): Arena
    requires Sized(x) && 0 <= n < |x.key| && (n != x.root ==> 0 <= x.parent[n] < |x.key|)
  {
    if n == x.root then x.(root := s)
    else if x.left[x.parent[n]] == n then x.(left := x.left[x.parent[n] := s])
    else x.(right := x.right[x.parent[n] := s])
  }

  /** Each real child of `s` gets `s` as its parent (tree.go:250-256). */
  ghost function Claim(x: Arena, s: int): Arena
    requires Sized(x) && 0 <= s < |x.key| && 0 <= x.left[s] < |x.key| && 0 <= x.right[s] < |x.key|
  {
    var p1 := if x.left[s] != Sentinel then x.parent[x.left[s] := s] else x.parent;
    x.(parent := if x.right[s] != Sentinel then p1[x.right[s] := s] else p1)
  }

  /** The renaming is the three groups of writes of tree.go:235-256 in order, and the bookkeeping. */
  lemma RenameInSteps(x: Arena, n: int, s: int)
    requires Sized(x) && 0 <= n < |x.key| && 0 < s < |x.key| && s != n
    requires 0 <= x.left[n] < |x.key| && 0 <= x.right[n] < |x.key|
    requires n != x.root ==> 0 <= x.parent[n] < |x.key| && x.parent[n] != s
    ensures var c := Claim(Reslot(Adopt(x, n, s), n, s), s);
      Rename(x, n, s) == c.(nodes := x.nodes - {n} + {s}, sub := RenSub(x.sub, n, s), bh := x.bh[s := x.bh[n]])
  {
  }
}
