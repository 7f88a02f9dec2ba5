// Hanging a new RED leaf into the empty slot found by the descent: the
// child write of binaryInsert (tree.go:107-109, 114-116), and the arena
// bookkeeping that goes with it.  The result satisfies the insertion loop
// invariant with the new leaf as the cursor.
module Attach {
  import opened Nodes
  import opened Structure
  import opened Descent
  import opened InsertFixup
  import opened Rotation

  /**
   * `x` is allocated but not in the tree, and is what
   * `NewRBNode(p, nilNode, nilNode, k, d)` makes: a RED leaf whose parent is `p`.
   */
  ghost predicate FreshLeaf(a: Arena, x: int, p: int)
    requires SentinelOk(a)
  {
    0 < x < |a.key| && x !in a.nodes &&
    a.left[x] == Sentinel && a.right[x] == Sentinel && a.parent[x] == p && a.color[x] == RED
  }

  /** Subtree bookkeeping for the new leaf `x` below `p`: it joins the subtree of `p` and of every node above. */
  ghost function GrowSub(a: Arena, p: int, x: int): seq<set<int>>
  {
    seq(|a.sub|, i requires 0 <= i < |a.sub| =>
      if i == x then {x}
      else if i in a.nodes && p in a.sub[i] then a.sub[i] + {x}
      else a.sub[i])
  }

  /** The empty child of `p` on the side `goLeft` now points at `x`, which joins the tree. */
  ghost function Link(a: Arena, p: int, x: int, goLeft: bool): Arena
    requires Sized(a) && 0 <= p < |a.key| && 0 <= x < |a.key|
  {
    a.(left := if goLeft then a.left[p := x] else a.left,
       right := if goLeft then a.right else a.right[p := x],
       nodes := a.nodes + {x}, sub := GrowSub(a, p, x), bh := a.bh[x := 1])
  }

  /** The slot on side `goLeft` of linked node `p` is empty and `x` is a fresh leaf for it. */
  ghost predicate OpenSlot(a: Arena, p: int, x: int, goLeft: bool)
  {
    Shaped(a) && Linked(a, p) && FreshLeaf(a, x, p) &&
    (if goLeft then a.left[p] == Sentinel else a.right[p] == Sentinel)
  }

  /**
   * Linking a fresh leaf at an empty slot whose side and ancestors agree with
   * its key gives the insertion invariant with the leaf as the cursor, and
   * adds exactly its key.
   */
  lemma LinkKeeps(a: Arena, p: int, x: int, goLeft: bool)
    requires RedBlack(a) && OpenSlot(a, p, x, goLeft) && PathBound(a, p, a.key[x])
    requires if goLeft then a.key[x] < a.key[p] else a.key[p] < a.key[x]
    ensures InsertInv(Link(a, p, x, goLeft), x)
    ensures Keys(Link(a, p, x, goLeft)) == Keys(a) + {a.key[x]}
  {
    var b := Link(a, p, x, goLeft);
    LinkShaped(a, p, x, goLeft);
    LinkOrdered(a, p, x, goLeft);
    LinkBalanced(a, p, x, goLeft);
    LinkRed(a, p, x, goLeft);
  }

  lemma LinkShaped(a: Arena, p: int, x: int, goLeft: bool)
    requires OpenSlot(a, p, x, goLeft)
    ensures Shaped(Link(a, p, x, goLeft))
  {
    LinkClosed(a, p, x, goLeft);
    LinkDown(a, p, x, goLeft);
    LinkUp(a, p, x, goLeft);
    LinkSubtrees(a, p, x, goLeft);
  }

  lemma LinkClosed(a: Arena, p: int, x: int, goLeft: bool)
    requires OpenSlot(a, p, x, goLeft)
    ensures SentinelOk(Link(a, p, x, goLeft)) && Closed(Link(a, p, x, goLeft))
  {
    var b := Link(a, p, x, goLeft);
    assert Linked(a, p);
    forall y | Linked(b, y)
      ensures IsRef(b, b.left[y]) && IsRef(b, b.right[y])
    {
      if y != x {
        assert Linked(a, y);
      }
    }
  }

  lemma LinkDown(a: Arena, p: int, x: int, goLeft: bool)
    requires OpenSlot(a, p, x, goLeft)
    requires SentinelOk(Link(a, p, x, goLeft)) && Closed(Link(a, p, x, goLeft))
    ensures DownLinks(Link(a, p, x, goLeft))
  {
    var b := Link(a, p, x, goLeft);
    forall y | Linked(b, y)
      ensures b.left[y] != Sentinel ==> b.parent[b.left[y]] == y
      ensures b.right[y] != Sentinel ==> b.parent[b.right[y]] == y
    {
      if y != x {
        assert Linked(a, y);
      }
    }
  }

  lemma LinkUp(a: Arena, p: int, x: int, goLeft: bool)
    requires OpenSlot(a, p, x, goLeft)
    requires SentinelOk(Link(a, p, x, goLeft))
    ensures UpLinks(Link(a, p, x, goLeft))
  {
    var b := Link(a, p, x, goLeft);
    assert Linked(a, p);
    assert a.root != Sentinel && Linked(a, a.root);
    forall y | Linked(b, y) && y != b.root
      ensures 0 < b.parent[y] < |b.key| && b.parent[y] in b.nodes &&
              (b.left[b.parent[y]] == y || b.right[b.parent[y]] == y)
    {
      if y != x {
        assert Linked(a, y) && Linked(a, a.parent[y]);
      }
    }
  }

  lemma LinkSubtrees(a: Arena, p: int, x: int, goLeft: bool)
    requires OpenSlot(a, p, x, goLeft)
    requires SentinelOk(Link(a, p, x, goLeft)) && Closed(Link(a, p, x, goLeft))
    ensures Subtrees(Link(a, p, x, goLeft)) && Rooted(Link(a, p, x, goLeft))
  {
    var b := Link(a, p, x, goLeft);
    forall y | Linked(b, y)
      ensures SubtreeAt(b, y)
    {
      LinkSubAt(a, p, x, goLeft, y);
    }
    assert Linked(a, p);
    assert a.root != Sentinel && Linked(a, a.root);
    SubShrinks(a, a.root);
    assert p in a.sub[a.root];
  }

  /**
   * How the subtrees around an old node `y` grow: the new leaf joins the
   * subtree of `y` and of at most one child of `y`, exactly when `p` is there
   * (or when `y` is `p` itself and the child is the filled slot).
   */
  lemma LinkGrowsAt(a: Arena, p: int, x: int, goLeft: bool, y: int)
    requires SentinelOk(a) && Linked(a, y) && IsRef(a, a.left[y]) && IsRef(a, a.right[y]) && SubtreeAt(a, y)
    requires 0 < x < |a.key| && x !in a.nodes && 0 <= p < |a.key|
    requires y == p ==> if goLeft then a.left[p] == Sentinel else a.right[p] == Sentinel
    ensures var b := Link(a, p, x, goLeft);
      var l, r := a.left[y], a.right[y];
      var il := p in a.sub[l] || (y == p && goLeft);
      var ir := p in a.sub[r] || (y == p && !goLeft);
      IsRef(a, l) && IsRef(a, r) && !(il && ir) && (il || ir <==> p in a.sub[y]) &&
      b.sub[b.left[y]] == (if il then a.sub[l] + {x} else a.sub[l]) &&
      b.sub[b.right[y]] == (if ir then a.sub[r] + {x} else a.sub[r]) &&
      b.sub[y] == (if p in a.sub[y] then a.sub[y] + {x} else a.sub[y])
  {
    var b := Link(a, p, x, goLeft);
    var l, r := a.left[y], a.right[y];
    assert x != y && x != l && x != r;
    assert b.sub[l] == (if p in a.sub[l] then a.sub[l] + {x} else a.sub[l]);
    assert b.sub[r] == (if p in a.sub[r] then a.sub[r] + {x} else a.sub[r]);
    if y == p {
      assert p !in a.sub[l] && p !in a.sub[r];
      if goLeft {
        assert b.left[y] == x && b.right[y] == r && a.sub[l] == {};
      } else {
        assert b.right[y] == x && b.left[y] == l && a.sub[r] == {};
      }
    } else {
      assert b.left[y] == l && b.right[y] == r;
    }
  }

  /** Set algebra of a growing subtree: adding `x` to one side keeps the split of `sy`. */
  lemma GrowSplit(y: int, x: int, sy: set<int>, sl: set<int>, sr: set<int>, il: bool, ir: bool)
    requires sy == {y} + sl + sr && y !in sl && y !in sr && sl !! sr && x !in sy && !(il && ir)
    ensures var sl', sr' := (if il then sl + {x} else sl), (if ir then sr + {x} else sr);
      (if il || ir then sy + {x} else sy) == {y} + sl' + sr' &&
      y !in sl' && y !in sr' && sl' !! sr'
  {
  }

  lemma LinkSubAt(a: Arena, p: int, x: int, goLeft: bool, y: int)
    requires OpenSlot(a, p, x, goLeft)
    requires var b := Link(a, p, x, goLeft); SentinelOk(b) && Closed(b) && Linked(b, y)
    ensures SubtreeAt(Link(a, p, x, goLeft), y)
  {
    if y != x {
      assert Linked(a, y) && SubtreeAt(a, y);
      LinkGrowsAt(a, p, x, goLeft, y);
      var l, r := a.left[y], a.right[y];
      GrowSplit(y, x, a.sub[y], a.sub[l], a.sub[r],
                p in a.sub[l] || (y == p && goLeft), p in a.sub[r] || (y == p && !goLeft));
    }
  }

  lemma LinkOrdered(a: Arena, p: int, x: int, goLeft: bool)
    requires Ordered(a) && OpenSlot(a, p, x, goLeft) && PathBound(a, p, a.key[x])
    requires if goLeft then a.key[x] < a.key[p] else a.key[p] < a.key[x]
    requires Shaped(Link(a, p, x, goLeft))
    ensures Ordered(Link(a, p, x, goLeft))
  {
    var b := Link(a, p, x, goLeft);
    forall y | Linked(b, y)
      ensures OrderedAt(b, y)
    {
      if y != x {
        assert Linked(a, y) && OrderedAt(a, y) && SubtreeAt(a, y);
        LinkGrowsAt(a, p, x, goLeft, y);
      }
    }
  }

  lemma LinkBalanced(a: Arena, p: int, x: int, goLeft: bool)
    requires Balanced(a) && OpenSlot(a, p, x, goLeft)
    requires Shaped(Link(a, p, x, goLeft))
    ensures Balanced(Link(a, p, x, goLeft))
  {
    var b := Link(a, p, x, goLeft);
    assert Linked(a, p) && BalancedAt(a, p);
    forall y | Linked(b, y)
      ensures BalancedAt(b, y)
    {
      if y != x {
        assert Linked(a, y) && BalancedAt(a, y);
      }
    }
  }

  lemma LinkRed(a: Arena, p: int, x: int, goLeft: bool)
    requires NoRedRed(a) && a.color[a.root] == BLACK && OpenSlot(a, p, x, goLeft)
    requires Shaped(Link(a, p, x, goLeft))
    ensures var b := Link(a, p, x, goLeft);
      RedExcept(b, x) && Linked(b, x) && b.color[x] == RED && b.color[b.root] == BLACK
  {
    var b := Link(a, p, x, goLeft);
    assert Linked(a, p);
    forall y | Linked(b, y) && b.color[y] == RED
      ensures (b.color[b.left[y]] == BLACK || b.left[y] == x) &&
              (b.color[b.right[y]] == BLACK || b.right[y] == x)
    {
      if y != x {
        assert Linked(a, y);
      }
    }
  }

  /** The root pointer of the empty tree now names `x`, which becomes the only node. */
  ghost function Plant(a: Arena, x: int): Arena
    requires Sized(a) && 0 <= x < |a.key|
  {
    a.(root := x, nodes := {x}, sub := a.sub[x := {x}], bh := a.bh[x := 1])
  }

  /** A leaf planted as the root of the empty tree and painted BLACK is a one-node red-black tree. */
  lemma PlantKeeps(a: Arena, x: int)
    requires RedBlack(a) && a.root == Sentinel && 0 < x < |a.key|
    requires a.left[x] == Sentinel && a.right[x] == Sentinel
    ensures RedBlack(Paint(Plant(a, x), x, BLACK))
    ensures Keys(Paint(Plant(a, x), x, BLACK)) == {a.key[x]}
  {
    var b := Paint(Plant(a, x), x, BLACK);
    assert a.nodes == {};
    forall y | Linked(b, y) ensures y == x {
    }
    assert Linked(b, x) && SubtreeAt(b, x);
    assert Shaped(b);
    assert BalancedAt(b, x) && OrderedAt(b, x);
  }

  /**
   * binaryInsertNode as written (tree.go:75-77, 82-84) only sets the child
   * pointer of `p`: a node whose `parent` field does not already name `p`
   * (Go nil for `NewRBNode(nil, nil, nil, k)`, or a stale parent left over
   * from a deletion) is then in the tree without pointing back at `p`.
   */
  lemma LinkWithoutParent(a: Arena, p: int, x: int, goLeft: bool)
    requires Shaped(a) && Linked(a, p) && 0 < x < |a.key| && x !in a.nodes
    requires if goLeft then a.left[p] == Sentinel else a.right[p] == Sentinel
    requires a.parent[x] != p && a.parent[x] != x
    ensures SentinelOk(Link(a, p, x, goLeft)) && !UpLinks(Link(a, p, x, goLeft))
  {
    var b := Link(a, p, x, goLeft);
    assert Linked(b, x) && x != b.root;
    var q := a.parent[x];
    if q in a.nodes {
      assert Linked(a, q);
    }
  }
}
