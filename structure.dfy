// Facts about the tree shape that follow from the arena invariants: subtrees
// shrink towards the leaves, a subtree contains the parents of its inner
// nodes, and the root is nobody's child.
module Structure {
  import opened Nodes

  /** The two subtrees below a linked node are strictly smaller parts of its subtree. */
  lemma SubShrinks(a: Arena, x: int)
    requires Shaped(a) && Linked(a, x)
    ensures IsRef(a, a.left[x]) && IsRef(a, a.right[x])
    ensures a.sub[a.left[x]] < a.sub[x] && a.sub[a.right[x]] < a.sub[x]
    ensures |a.sub[a.left[x]]| < |a.sub[x]| && |a.sub[a.right[x]]| < |a.sub[x]|
    ensures x in a.sub[x] && a.sub[x] <= a.nodes
  {
    assert x in a.sub[x] && x !in a.sub[a.left[x]] && x !in a.sub[a.right[x]];
  }

  /** A non-sentinel child points back at the node it hangs from. */
  lemma ParentOfChild(a: Arena, y: int, c: int)
    requires Shaped(a) && Linked(a, y) && c != Sentinel
    requires a.left[y] == c || a.right[y] == c
    ensures Linked(a, c) && a.parent[c] == y && c != a.root
  {
    assert Linked(a, y);
    RootNotChild(a, y);
  }

  /** A node is a child of its parent only. */
  lemma OnlyParent(a: Arena, y: int, v: int)
    requires Shaped(a) && Linked(a, y) && Linked(a, v) && (v == a.root || a.parent[v] != y)
    ensures a.left[y] != v && a.right[y] != v
  {
    if a.left[y] == v || a.right[y] == v {
      ParentOfChild(a, y, v);
    }
  }

  /** A non-root node hangs on exactly one side of its linked parent. */
  lemma ChildSide(a: Arena, p: int, n: int)
    requires Shaped(a) && Linked(a, n) && n != a.root && p == a.parent[n]
    ensures Linked(a, p) && IsRef(a, a.left[p]) && IsRef(a, a.right[p])
    ensures (a.left[p] == n || a.right[p] == n) && a.left[p] != a.right[p]
  {
    assert Linked(a, n);
    assert Linked(a, p) && SubtreeAt(a, p);
    SubShrinks(a, n);
  }

  /** `ChildSide` for any node, as an implication that executable code may rely on. */
  lemma ChildSideIf(a: Arena, n: int)
    ensures Shaped(a) && Linked(a, n) && n != a.root ==>
      Linked(a, a.parent[n]) && (a.left[a.parent[n]] == n <==> a.right[a.parent[n]] != n)
  {
    if Shaped(a) && Linked(a, n) && n != a.root {
      ChildSide(a, a.parent[n], n);
    }
  }

  /** The root does not lie below any linked node. */
  lemma RootNotChild(a: Arena, y: int)
    requires Shaped(a) && Linked(a, y)
    ensures a.root !in a.sub[a.left[y]] && a.root !in a.sub[a.right[y]]
  {
    SubShrinks(a, y);
    assert y in a.sub[a.root];
    SubWithin(a, a.left[y], a.root);
    SubWithin(a, a.right[y], a.root);
  }

  /** A subtree contains the subtree of each of its nodes. */
  lemma {:induction false} SubWithin(a: Arena, c: int, v: int)
    requires Shaped(a) && IsRef(a, c)
    ensures v in a.sub[c] ==> Linked(a, v) && a.sub[v] <= a.sub[c]
    decreases |a.sub[c]|
  {
    if v in a.sub[c] {
      assert c != Sentinel && Linked(a, c);
      SubShrinks(a, c);
      if v != c {
        SubWithin(a, a.left[c], v);
        SubWithin(a, a.right[c], v);
      }
    }
  }

  /** Going up from an inner node of a subtree stays inside that subtree. */
  lemma {:induction false} ParentClosed(a: Arena, c: int, v: int)
    requires Shaped(a) && IsRef(a, c) && v in a.sub[c] && v != c
    ensures Linked(a, v) && v != a.root && Linked(a, a.parent[v]) && a.parent[v] in a.sub[c]
    decreases |a.sub[c]|
  {
    assert c != Sentinel && Linked(a, c);
    SubShrinks(a, c);
    var l, r := a.left[c], a.right[c];
    if v == l || v == r {
      ParentOfChild(a, c, v);
    } else if v in a.sub[l] {
      ParentClosed(a, l, v);
    } else {
      ParentClosed(a, r, v);
    }
  }

  /** A subset is no larger than its superset. */
  lemma {:induction false} SubsetCard(s: set<int>, t: set<int>)
    requires s <= t
    ensures |s| <= |t|
    decreases |s|
  {
    if s != {} {
      if forall z :: z !in s {
        assert false;
      }
      var e :| e in s;
      SubsetCard(s - {e}, t - {e});
    }
  }

  /** A proper subset is strictly smaller. */
  lemma ProperSubsetCard(s: set<int>, t: set<int>)
    requires s < t
    ensures |s| < |t|
  {
    if forall z :: z !in t - s {
      forall z | z in t
        ensures z in s
      {
        assert z !in t - s;
      }
      assert false;
    }
    var e :| e in t - s;
    SubsetCard(s, t - {e});
  }

  /**
   * `b` is `a` with more (unlinked) slots allocated or with unlinked slots
   * rewritten: every field of the sentinel and of the linked nodes is the same.
   */
  ghost predicate Agree(a: Arena, b: Arena)
    requires Sized(a) && Sized(b)
  {
    |a.key| <= |b.key| && b.root == a.root && b.nodes == a.nodes &&
    (forall i {:trigger Linked(a, i)} | Linked(a, i) && 0 <= i < |a.key| ::
      b.left[i] == a.left[i] && b.right[i] == a.right[i] && b.parent[i] == a.parent[i] &&
      b.color[i] == a.color[i] && b.key[i] == a.key[i] && b.sub[i] == a.sub[i] && b.bh[i] == a.bh[i]) &&
    b.left[Sentinel] == a.left[Sentinel] && b.right[Sentinel] == a.right[Sentinel] &&
    b.color[Sentinel] == a.color[Sentinel] && b.sub[Sentinel] == a.sub[Sentinel] && b.bh[Sentinel] == a.bh[Sentinel]
  }

  /** Changing only what lies outside the tree keeps every invariant and the key set. */
  lemma AgreeKeeps(a: Arena, b: Arena)
    requires Sized(b) && RedBlack(a) && Agree(a, b)
    ensures RedBlack(b) && Keys(b) == Keys(a)
  {
    AgreeShaped(a, b);
    forall x | Linked(b, x)
      ensures OrderedAt(b, x) && BalancedAt(b, x)
      ensures b.color[x] == RED ==> b.color[b.left[x]] == BLACK && b.color[b.right[x]] == BLACK
    {
      AgreeAt(a, b, x);
    }
    if a.root != Sentinel {
      assert Linked(a, a.root);
    }
    forall k | k in Keys(a) ensures k in Keys(b) {
      var x :| x in a.nodes && a.key[x] == k;
      assert Linked(a, x);
    }
    forall k | k in Keys(b) ensures k in Keys(a) {
      var x :| x in b.nodes && b.key[x] == k;
      assert Linked(a, x);
    }
  }

  lemma AgreeShaped(a: Arena, b: Arena)
    requires Sized(b) && Shaped(a) && Agree(a, b)
    ensures Shaped(b)
  {
    forall x | Linked(b, x)
      ensures IsRef(b, b.left[x]) && IsRef(b, b.right[x])
    {
      assert Linked(a, x);
    }
    forall x | Linked(b, x)
      ensures SubtreeAt(b, x)
      ensures b.left[x] != Sentinel ==> b.parent[b.left[x]] == x
      ensures b.right[x] != Sentinel ==> b.parent[b.right[x]] == x
    {
      assert Linked(a, x) && SubtreeAt(a, x);
      if a.left[x] != Sentinel {
        assert Linked(a, a.left[x]);
      }
      if a.right[x] != Sentinel {
        assert Linked(a, a.right[x]);
      }
    }
    forall x | Linked(b, x) && x != b.root
      ensures 0 < b.parent[x] < |b.key| && b.parent[x] in b.nodes
      ensures b.left[b.parent[x]] == x || b.right[b.parent[x]] == x
    {
      assert Linked(a, x);
      assert Linked(a, a.parent[x]);
    }
    if a.root != Sentinel {
      assert Linked(a, a.root);
    }
  }

  /** The per-node invariants carry over at one linked node. */
  lemma AgreeAt(a: Arena, b: Arena, x: int)
    requires Sized(b) && RedBlack(a) && Shaped(b) && Agree(a, b) && Linked(b, x)
    ensures OrderedAt(b, x) && BalancedAt(b, x)
    ensures b.color[x] == RED ==> b.color[b.left[x]] == BLACK && b.color[b.right[x]] == BLACK
  {
    assert Linked(a, x) && OrderedAt(a, x) && BalancedAt(a, x);
    var l, r := a.left[x], a.right[x];
    if l != Sentinel {
      assert Linked(a, l);
    }
    if r != Sentinel {
      assert Linked(a, r);
    }
    assert SubtreeAt(a, x);
    forall y | y in a.sub[x] ensures b.key[y] == a.key[y] {
      assert Linked(a, y);
    }
  }
}
