// The search path shared by Search, Insert and InsertNode (tree.go:66-128,
// 171-193): from a node, compare the key, go left on LESS and right on
// GREATER, and stop at an equal key or at an empty child slot.
module Descent {
  import opened Nodes
  import opened Structure

  /** Where a descent ends: at the node holding the key, or at the empty slot it belongs in. */
  datatype Place = Found(node: int) | Slot(parent: int, goLeft: bool)

  /** The end of the descent for key `k` from the linked node `x`. */
  ghost function Descend(a: Arena, x: int, k: int): Place
    requires Shaped(a) && Linked(a, x)
    decreases |a.sub[x]|
  {
    SubShrinks(a, x);
    var r := Compare(k, a.key[x]);
    if r == LESS then
      if a.left[x] == Sentinel then Slot(x, true) else Descend(a, a.left[x], k)
    else if r == GREATER then
      if a.right[x] == Sentinel then Slot(x, false) else Descend(a, a.right[x], k)
    else
      Found(x)
  }

  /**
   * The descent finds a node exactly when the subtree holds the key; otherwise
   * it ends at an empty slot on the side where the key belongs.
   */
  lemma {:induction false} DescendSound(a: Arena, x: int, k: int)
    requires Ordered(a) && Linked(a, x)
    ensures a.sub[x] <= a.nodes
    ensures match Descend(a, x, k)
      case Found(y) => Linked(a, y) && y in a.sub[x] && a.key[y] == k
      case Slot(p, goLeft) =>
        Linked(a, p) && p in a.sub[x] &&
        (goLeft ==> a.left[p] == Sentinel && k < a.key[p]) &&
        (!goLeft ==> a.right[p] == Sentinel && a.key[p] < k) &&
        forall y | y in a.sub[x] :: a.key[y] != k
    decreases |a.sub[x]|
  {
    SubShrinks(a, x);
    assert OrderedAt(a, x);
    var l, r := a.left[x], a.right[x];
    if k < a.key[x] && l != Sentinel {
      DescendSound(a, l, k);
    } else if k > a.key[x] && r != Sentinel {
      DescendSound(a, r, k);
    }
  }

  /**
   * `k` lies on the correct side of every node above `x`: the descent from
   * the root to `x` took the branch that `k` selects at each of them.
   */
  ghost predicate PathBound(a: Arena, x: int, k: int)
    requires Shaped(a)
  {
    forall y {:trigger Linked(a, y)} | Linked(a, y) ::
      (x in a.sub[a.left[y]] ==> k < a.key[y]) &&
      (x in a.sub[a.right[y]] ==> a.key[y] < k)
  }

  /** Nothing lies above the root, so any key is in bounds there. */
  lemma PathBoundRoot(a: Arena, k: int)
    requires Shaped(a)
    ensures PathBound(a, a.root, k)
  {
    forall y | Linked(a, y)
      ensures a.root !in a.sub[a.left[y]] && a.root !in a.sub[a.right[y]]
    {
      RootNotChild(a, y);
    }
  }

  /** One step down the search path keeps the key in bounds. */
  lemma PathBoundStep(a: Arena, x: int, c: int, k: int)
    requires Shaped(a) && Linked(a, x) && PathBound(a, x, k) && c != Sentinel
    requires (a.left[x] == c && k < a.key[x]) || (a.right[x] == c && a.key[x] < k)
    ensures Linked(a, c) && PathBound(a, c, k)
  {
    ParentOfChild(a, x, c);
    forall y | Linked(a, y)
      ensures c in a.sub[a.left[y]] ==> k < a.key[y]
      ensures c in a.sub[a.right[y]] ==> a.key[y] < k
    {
      SubShrinks(a, y);
      if a.left[y] == c || a.right[y] == c {
        ParentOfChild(a, y, c);
      } else {
        if c in a.sub[a.left[y]] {
          ParentClosed(a, a.left[y], c);
        }
        if c in a.sub[a.right[y]] {
          ParentClosed(a, a.right[y], c);
        }
      }
    }
  }

  /** The slot where the descent from the root stops is within bounds for `k`. */
  lemma {:induction false} DescendPath(a: Arena, x: int, k: int)
    requires Ordered(a) && Linked(a, x) && PathBound(a, x, k)
    ensures Descend(a, x, k).Slot? ==> PathBound(a, Descend(a, x, k).parent, k)
    decreases |a.sub[x]|
  {
    SubShrinks(a, x);
    var l, r := a.left[x], a.right[x];
    if k < a.key[x] && l != Sentinel {
      PathBoundStep(a, x, l, k);
      DescendPath(a, l, k);
    } else if k > a.key[x] && r != Sentinel {
      PathBoundStep(a, x, r, k);
      DescendPath(a, r, k);
    }
  }

  /** The bounds along the path survive changes outside the tree. */
  lemma AgreePath(a: Arena, b: Arena, x: int, k: int)
    requires Shaped(a) && Shaped(b) && Agree(a, b) && PathBound(a, x, k)
    ensures PathBound(b, x, k)
  {
    forall y | Linked(b, y)
      ensures x in b.sub[b.left[y]] ==> k < b.key[y]
      ensures x in b.sub[b.right[y]] ==> b.key[y] < k
    {
      assert Linked(a, y);
      if a.left[y] != Sentinel {
        assert Linked(a, a.left[y]);
      }
      if a.right[y] != Sentinel {
        assert Linked(a, a.right[y]);
      }
    }
  }
}
