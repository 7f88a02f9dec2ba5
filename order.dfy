// In-order facts used by Min, Max and Next (tree.go:331-364): where the next
// larger key lives, and what the upward climb of Next actually reaches.
module Order {
  import opened Nodes
  import opened Structure

  /** `s` holds the next larger key after that of `n`: no key of the tree lies strictly between. */
  ghost predicate IsSuccessor(a: Arena, n: int, s: int)
    requires SentinelOk(a) && Linked(a, n)
  {
    Linked(a, s) && a.key[n] < a.key[s] &&
    forall y {:trigger Linked(a, y)} | Linked(a, y) :: !(a.key[n] < a.key[y] < a.key[s])
  }

  /** No key of the tree is larger than that of `n`. */
  ghost predicate IsLast(a: Arena, n: int)
    requires SentinelOk(a) && Linked(a, n)
  {
    forall y {:trigger Linked(a, y)} | Linked(a, y) :: a.key[y] <= a.key[n]
  }

  /** A node outside a subtree has a key below all of the subtree's keys or above all of them. */
  lemma {:induction false} OutsideBound(a: Arena, x: int, y: int)
    requires Ordered(a) && Linked(a, x) && Linked(a, y) && y !in a.sub[x]
    ensures (forall z | z in a.sub[x] :: a.key[y] < a.key[z]) ||
            (forall z | z in a.sub[x] :: a.key[z] < a.key[y])
    decreases |a.nodes| - |a.sub[x]|
  {
    SubShrinks(a, x);
    assert x != a.root;
    var q := a.parent[x];
    ChildSide(a, q, x);
    SubShrinks(a, q);
    SubsetCard(a.sub[q], a.nodes);
    assert OrderedAt(a, q) && SubtreeAt(a, q);
    if y !in a.sub[q] {
      OutsideBound(a, q, y);
    }
  }

  /** In a search tree no two linked nodes hold the same key. */
  lemma KeysDistinct(a: Arena, y: int, z: int)
    requires Ordered(a) && Linked(a, y) && Linked(a, z) && y != z
    ensures a.key[y] != a.key[z]
  {
    SubShrinks(a, z);
    if y in a.sub[z] {
      assert OrderedAt(a, z) && SubtreeAt(a, z);
    } else {
      OutsideBound(a, z, y);
    }
  }

  /** The smallest key of a non-empty right subtree is the successor. */
  lemma SuccessorInRight(a: Arena, n: int, m: int)
    requires Ordered(a) && Linked(a, n) && a.right[n] != Sentinel
    requires m in a.sub[a.right[n]] && forall y | y in a.sub[a.right[n]] :: a.key[m] <= a.key[y]
    ensures IsSuccessor(a, n, m)
  {
    SubShrinks(a, n);
    SubWithin(a, a.right[n], m);
    assert OrderedAt(a, n) && SubtreeAt(a, n);
    forall y | Linked(a, y)
      ensures !(a.key[n] < a.key[y] < a.key[m])
    {
      if y !in a.sub[n] {
        OutsideBound(a, n, y);
      }
    }
  }

  /**
   * If `n` holds the largest key of the subtree of `x` and `x` is a left
   * child, the parent of `x` is the successor of `n`.
   */
  lemma SuccessorAbove(a: Arena, n: int, x: int)
    requires Ordered(a) && Linked(a, n) && Linked(a, x) && x != a.root
    requires a.left[a.parent[x]] == x
    requires n in a.sub[x] && forall y | y in a.sub[x] :: a.key[y] <= a.key[n]
    ensures IsSuccessor(a, n, a.parent[x])
  {
    var q := a.parent[x];
    ChildSide(a, q, x);
    SubShrinks(a, q);
    assert OrderedAt(a, q) && SubtreeAt(a, q);
    forall y | Linked(a, y)
      ensures !(a.key[n] < a.key[y] < a.key[q])
    {
      if y !in a.sub[q] {
        OutsideBound(a, q, y);
      }
    }
  }

  /**
   * The climb `Next` makes when `n` has no right subtree (tree.go:356-358):
   * up through right-child links, stopping at the root or at a left child.
   */
  ghost function Ascend(a: Arena, n: int): (s: int)
    requires Shaped(a) && Linked(a, n)
    ensures Linked(a, s)
    decreases |a.nodes| - |a.sub[n]|
  {
    if n == a.root then n
    else
      var q := a.parent[n];
      ChildSide(a, q, n);
      if a.right[q] != n then n
      else
        SubShrinks(a, q);
        SubsetCard(a.sub[q], a.nodes);
        Ascend(a, q)
  }

  /** The climb only reaches nodes whose keys are no larger, so it never finds a larger key. */
  lemma {:induction false} AscendBelow(a: Arena, n: int)
    requires Ordered(a) && Linked(a, n)
    ensures a.key[Ascend(a, n)] <= a.key[n]
    decreases |a.nodes| - |a.sub[n]|
  {
    if n != a.root {
      var q := a.parent[n];
      ChildSide(a, q, n);
      if a.right[q] == n {
        SubShrinks(a, q);
        SubsetCard(a.sub[q], a.nodes);
        SubShrinks(a, n);
        assert OrderedAt(a, q);
        AscendBelow(a, q);
      }
    }
  }

  /** Two nodes: the root (slot 2, key 20) and its RED left child (slot 1, key 10). */
  ghost function TwoNodes(): Arena
  {
    Arena([Nil, Sentinel, 1], [Nil, Sentinel, Sentinel], [Nil, 2, Sentinel],
          [BLACK, RED, BLACK], [0, 10, 20], 2, {1, 2}, [{}, {1}, {1, 2}], [0, 1, 1])
  }

  /**
   * In this valid tree node 1 has no right subtree, and the climb of `Next`
   * stops at node 1 itself, while its successor is node 2.
   */
  lemma NextMissesSuccessor()
    ensures RedBlack(TwoNodes()) && Linked(TwoNodes(), 1) && TwoNodes().right[1] == Sentinel
    ensures Ascend(TwoNodes(), 1) == 1 && IsSuccessor(TwoNodes(), 1, 2)
  {
    var a := TwoNodes();
    forall x | Linked(a, x)
      ensures x == 1 || x == 2
    {
    }
    assert Shaped(a);
    assert Ordered(a);
  }
}
