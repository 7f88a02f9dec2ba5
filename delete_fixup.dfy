// The rebalancing loop of Delete (tree.go:263-320).  After a BLACK node has
// been spliced out, every path through `ptr` has one BLACK node too few; the
// loop either pushes that deficit up the tree or removes it with at most
// three rotations, and the final repainting of `ptr` restores all
// red-black invariants.
module DeleteFixup {
  import opened Nodes
  import opened Structure
  import opened Rotation

  /** `x`, a node or the sentinel standing for an empty subtree, hangs on one side of a linked parent. */
  ghost predicate Hangs(a: Arena, x: int)
    requires Shaped(a) && IsRef(a, x)
  {
    x != a.root && Linked(a, a.parent[x]) &&
    (a.left[a.parent[x]] == x || a.right[a.parent[x]] == x) &&
    a.left[a.parent[x]] != a.right[a.parent[x]]
  }

  /** The other child of the parent of `x`. */
  ghost function Sib(a: Arena, x: int): (w: int)
    requires Shaped(a) && IsRef(a, x) && Hangs(a, x)
    ensures IsRef(a, w) && w != x
    ensures {a.left[a.parent[x]], a.right[a.parent[x]]} == {x, w}
  {
    var q := a.parent[x];
    assert Linked(a, q);
    if a.left[q] == x then a.right[q] else a.left[q]
  }

  /**
   * Every linked node except the parent of `x` is balanced, and at that
   * parent the side of `x` is exactly one BLACK short.
   */
  ghost predicate ShortBy(a: Arena, x: int)
    requires Shaped(a) && IsRef(a, x) && Hangs(a, x)
  {
    var q := a.parent[x];
    var w := Sib(a, x);
    (forall y {:trigger Linked(a, y)} | Linked(a, y) && y != q :: BalancedAt(a, y)) &&
    a.bh[q] == a.bh[w] + Blk(a.color[w]) &&
    a.bh[q] == a.bh[x] + Blk(a.color[x]) + 1
  }

  /** Every RED node other than `x` has BLACK children, except that `x` itself may be one of them. */
  ghost predicate RedBut(a: Arena, x: int)
    requires Shaped(a)
  {
    forall y {:trigger Linked(a, y)} | Linked(a, y) && a.color[y] == RED && y != x ::
      (a.color[a.left[y]] == BLACK || a.left[y] == x) &&
      (a.color[a.right[y]] == BLACK || a.right[y] == x)
  }

  /**
   * The invariant of the loop at tree.go:263: a search tree in which the
   * only defects are one missing BLACK on the paths through `ptr` and a RED
   * `ptr` below or above a RED node; both vanish once `ptr` is painted BLACK.
   */
  ghost predicate DelInv(a: Arena, x: int) {
    Ordered(a) && IsRef(a, x) && RedBut(a, x) &&
    (a.color[a.root] == BLACK || x == a.root) &&
    (x == a.root ==> Balanced(a)) &&
    (x != a.root ==> Hangs(a, x) && ShortBy(a, x))
  }

  /** The defects of `DelInv` below a BLACK `ptr` other than the root, leaving out the search order. */
  ghost predicate Lacking(a: Arena, x: int) {
    Shaped(a) && IsRef(a, x) && x != a.root && a.color[x] == BLACK && a.color[a.root] == BLACK &&
    Hangs(a, x) && ShortBy(a, x) && RedBut(a, x)
  }

  /** The loop goes on: `ptr` is a BLACK node (or the sentinel) other than the root. */
  ghost predicate Descending(a: Arena, x: int) {
    Ordered(a) && Lacking(a, x)
  }

  /** How far `x` is from being the root: the number of nodes outside its subtree. */
  ghost function DelMeasure(a: Arena, x: int): nat
    requires 0 <= x < |a.sub|
  {
    if |a.sub[x]| <= |a.nodes| then |a.nodes| - |a.sub[x]| else 0
  }

  /** One less, never below zero: the bookkeeping of a black height that drops. */
  function Lower(h: nat): (r: nat)
    ensures h > 0 ==> r + 1 == h
  {
    if h == 0 then 0 else h - 1
  }

  /** Who is who around a `ptr` the loop still has to deal with: its parent and its sibling. */
  lemma DescendFacts(a: Arena, x: int)
    requires Lacking(a, x)
    ensures var q := a.parent[x]; var w := Sib(a, x);
      Linked(a, q) && Linked(a, w) && w != q && x != q && a.parent[w] == q && w != a.root &&
      IsRef(a, a.left[w]) && IsRef(a, a.right[w]) && BalancedAt(a, w) &&
      a.bh[q] == a.bh[x] + 2 && a.bh[w] + Blk(a.color[w]) == a.bh[x] + 2
  {
    var q := a.parent[x];
    var w := Sib(a, x);
    assert Linked(a, q);
    SubShrinks(a, q);
    assert w != Sentinel;
    assert Linked(a, w) && BalancedAt(a, w);
    ParentOfChild(a, q, w);
    if x != Sentinel {
      SubShrinks(a, x);
    }
  }

  /** A RED sibling has a BLACK parent and two BLACK children, both of them nodes. */
  lemma RedSibFacts(a: Arena, x: int)
    requires Lacking(a, x) && a.color[Sib(a, x)] == RED
    ensures var q := a.parent[x]; var w := Sib(a, x);
      a.color[q] == BLACK && Linked(a, w) && Linked(a, a.left[w]) && Linked(a, a.right[w]) &&
      a.color[a.left[w]] == BLACK && a.color[a.right[w]] == BLACK
  {
    DescendFacts(a, x);
    var q := a.parent[x];
    var w := Sib(a, x);
    assert Linked(a, q) && Linked(a, w);
    assert a.left[w] != Sentinel && a.right[w] != Sentinel;
  }

  /** `ptr` lies strictly inside its parent's subtree, so its distance from the root is positive. */
  lemma DescendMeasure(a: Arena, x: int)
    requires Lacking(a, x)
    ensures a.sub[x] < a.sub[a.parent[x]] && 0 < DelMeasure(a, x)
    ensures DelMeasure(a, a.parent[x]) < DelMeasure(a, x)
  {
    var q := a.parent[x];
    assert Linked(a, q);
    SubShrinks(a, q);
    SubsetCard(a.sub[q], a.nodes);
    ProperSubsetCard(a.sub[x], a.sub[q]);
  }

  /** The loop stops: painting `ptr` BLACK (tree.go:320) leaves a red-black tree. */
  lemma DelDone(a: Arena, x: int)
    requires DelInv(a, x) && (x == a.root || a.color[x] == RED)
    ensures RedBlack(Paint(a, x, BLACK))
  {
    var b := Paint(a, x, BLACK);
    Recolored(a, b);
    forall y | Linked(b, y)
      ensures BalancedAt(b, y)
      ensures b.color[y] == RED ==> b.color[b.left[y]] == BLACK && b.color[b.right[y]] == BLACK
    {
      assert Linked(a, y);
      if x != a.root {
        if y != a.parent[x] {
          assert BalancedAt(a, y);
          if x != Sentinel {
            OnlyParent(a, y, x);
          }
        }
      } else if x != Sentinel {
        OnlyParent(a, y, x);
      }
    }
  }

  /** A node away from a left rotation at `n` keeps its children, and neither is `n` or `n`'s right child. */
  lemma LeftRotatedElsewhere(a: Arena, n: int, b: Arena, y: int)
    requires Shaped(a) && Linked(a, n) && Linked(a, a.right[n]) && LeftRotated(a, n, b)
    requires Linked(a, y) && y != n && y != a.right[n] && (n == a.root || y != a.parent[n])
    ensures b.left[y] == a.left[y] && b.right[y] == a.right[y]
    ensures a.left[y] != n && a.right[y] != n && a.left[y] != a.right[n] && a.right[y] != a.right[n]
  {
    RotLeftFacts(a, n);
    OnlyParent(a, y, n);
    OnlyParent(a, y, a.right[n]);
  }

  /** A node away from a right rotation at `n` keeps its children, and neither is `n` or `n`'s left child. */
  lemma RightRotatedElsewhere(a: Arena, n: int, b: Arena, y: int)
    requires Shaped(a) && Linked(a, n) && Linked(a, a.left[n]) && RightRotated(a, n, b)
    requires Linked(a, y) && y != n && y != a.left[n] && (n == a.root || y != a.parent[n])
    ensures b.left[y] == a.left[y] && b.right[y] == a.right[y]
    ensures a.left[y] != n && a.right[y] != n && a.left[y] != a.left[n] && a.right[y] != a.left[n]
  {
    RotRightFacts(a, n);
    OnlyParent(a, y, n);
    OnlyParent(a, y, a.left[n]);
  }

  /**
   * Case 1, `ptr` a left child: its sibling is RED.  The sibling turns
   * BLACK, the parent RED, and the parent is rotated left (tree.go:267-272).
   */
  ghost function RedSiblingLeft(a: Arena, x: int): Arena
    requires Shaped(a) && IsRef(a, x) && Hangs(a, x) && a.left[a.parent[x]] == x
    requires Linked(a, a.right[a.parent[x]])
  {
    var q := a.parent[x];
    var c := Paint(Paint(a, a.right[q], BLACK), q, RED);
    Recolored(a, c);
    RotLeft(c, q)
  }

  /** After case 1 the sibling is BLACK, and the same `ptr` still lacks one BLACK. */
  lemma DelRedSiblingLeft(a: Arena, x: int)
    requires Descending(a, x) && a.left[a.parent[x]] == x && a.color[Sib(a, x)] == RED
    ensures Linked(a, a.right[a.parent[x]])
    ensures var b := RedSiblingLeft(a, x);
      Descending(b, x) && b.parent[x] == a.parent[x] && b.left[a.parent[x]] == x &&
      b.color[Sib(b, x)] == BLACK && b.nodes == a.nodes && b.key == a.key && b.sub[x] == a.sub[x]
  {
    DescendFacts(a, x);
    RedSibFacts(a, x);
    var q := a.parent[x];
    var w := a.right[q];
    var c := Paint(Paint(a, w, BLACK), q, RED);
    Recolored(a, c);
    var b := RotLeft(c, q);
    RotLeftOrdered(c, q);
    RotLeftShaped(c, q);
    RotLeftFields(c, q);
    RotLeftFacts(c, q);
    RedSiblingLeftAll(a, x, c, b);
    assert b.parent[x] == q;
    assert Sib(b, x) == a.left[w];
  }

  /** Case 1 with `ptr` a left child: `c` is the tree after the recolouring of tree.go:268-269, `b` after the rotation at tree.go:270. */
  ghost predicate RedSiblingLeftStep(a: Arena, x: int, c: Arena, b: Arena) {
    Lacking(a, x) && a.left[a.parent[x]] == x && a.color[a.right[a.parent[x]]] == RED &&
    Linked(a, a.right[a.parent[x]]) &&
    c == a.(color := a.color[a.right[a.parent[x]] := BLACK][a.parent[x] := RED]) && Shaped(c) &&
    Linked(c, a.parent[x]) && Linked(c, c.right[a.parent[x]]) && LeftRotated(c, a.parent[x], b) &&
    Shaped(b)
  }

  /** Case 1 keeps every node other than the parent balanced, and lets no RED node but `ptr` have a RED child. */
  lemma RedSiblingLeftAll(a: Arena, x: int, c: Arena, b: Arena)
    requires RedSiblingLeftStep(a, x, c, b)
    ensures forall y | Linked(b, y) && y != a.parent[x] :: BalancedAt(b, y)
    ensures forall y | Linked(b, y) && b.color[y] == RED && y != x ::
      (b.color[b.left[y]] == BLACK || b.left[y] == x) && (b.color[b.right[y]] == BLACK || b.right[y] == x)
  {
    forall y | Linked(b, y) && y != a.parent[x]
      ensures BalancedAt(b, y)
    {
      RedSiblingLeftBal(a, x, c, b, y);
    }
    forall y | Linked(b, y) && b.color[y] == RED && y != x
      ensures (b.color[b.left[y]] == BLACK || b.left[y] == x) && (b.color[b.right[y]] == BLACK || b.right[y] == x)
    {
      RedSiblingLeftRed(a, x, c, b, y);
    }
  }

  lemma RedSiblingLeftBal(a: Arena, x: int, c: Arena, b: Arena, y: int)
    requires RedSiblingLeftStep(a, x, c, b)
    requires Linked(b, y) && y != a.parent[x]
    ensures BalancedAt(b, y)
  {
    DescendFacts(a, x);
    var q := a.parent[x];
    var w := a.right[q];
    RotLeftFacts(c, q);
    assert Linked(a, y);
    if y == w {
      assert b.left[w] == q && b.right[w] == a.right[w];
    } else if q != a.root && y == a.parent[q] {
      assert BalancedAt(a, y);
      ChildSide(a, y, q);
    } else {
      assert BalancedAt(a, y);
      LeftRotatedElsewhere(c, q, b, y);
    }
  }

  lemma RedSiblingLeftRed(a: Arena, x: int, c: Arena, b: Arena, y: int)
    requires RedSiblingLeftStep(a, x, c, b)
    requires Linked(b, y)
    requires b.color[y] == RED && y != x
    ensures (b.color[b.left[y]] == BLACK || b.left[y] == x) && (b.color[b.right[y]] == BLACK || b.right[y] == x)
  {
    DescendFacts(a, x);
    RedSibFacts(a, x);
    var q := a.parent[x];
    var w := a.right[q];
    RotLeftFacts(c, q);
    assert Linked(a, y);
    if y == q {
      assert b.left[q] == x && b.right[q] == a.left[w];
    } else if q != a.root && y == a.parent[q] {
      ChildSide(a, y, q);
    } else {
      LeftRotatedElsewhere(c, q, b, y);
    }
  }

  /**
   * Case 2: the sibling and both its children are BLACK.  The sibling turns
   * RED, which takes one BLACK from its side too, and the deficit moves up to
   * the parent (tree.go:274-276 and 300-302).
   */
  ghost function BlackNephews(a: Arena, x: int): Arena
    requires Shaped(a) && IsRef(a, x) && Hangs(a, x)
  {
    var q := a.parent[x];
    a.(color := a.color[Sib(a, x) := RED], bh := a.bh[q := Lower(a.bh[q])])
  }

  /** After case 2 the loop continues at the parent, which is one step nearer the root. */
  lemma DelBlackNephews(a: Arena, x: int)
    requires Descending(a, x) && Linked(a, Sib(a, x)) && a.color[Sib(a, x)] == BLACK
    requires a.color[a.left[Sib(a, x)]] == BLACK && a.color[a.right[Sib(a, x)]] == BLACK
    ensures DelInv(BlackNephews(a, x), a.parent[x])
    ensures DelMeasure(BlackNephews(a, x), a.parent[x]) < DelMeasure(a, x)
    ensures BlackNephews(a, x).nodes == a.nodes && BlackNephews(a, x).key == a.key
  {
    DescendFacts(a, x);
    DescendMeasure(a, x);
    var q := a.parent[x];
    var b := BlackNephews(a, x);
    Recolored(a, b);
    BlackNephewsRedBut(a, x, b);
    BlackNephewsBalanced(a, x, b);
    if q != a.root {
      BlackNephewsUp(a, x, b);
    } else {
      assert Balanced(b);
    }
  }

  /** Below a parent other than the root, case 2 leaves the parent one BLACK short. */
  lemma BlackNephewsUp(a: Arena, x: int, b: Arena)
    requires Lacking(a, x) && Linked(a, Sib(a, x)) && a.color[Sib(a, x)] == BLACK && a.parent[x] != a.root
    requires b == BlackNephews(a, x) && Shaped(b)
    requires forall y {:trigger Linked(b, y)} | Linked(b, y) && y != a.parent[a.parent[x]] :: BalancedAt(b, y)
    ensures Hangs(b, a.parent[x]) && ShortBy(b, a.parent[x])
  {
    DescendFacts(a, x);
    var q := a.parent[x];
    ChildSide(a, a.parent[q], q);
    assert BalancedAt(a, a.parent[q]);
  }

  lemma BlackNephewsRedBut(a: Arena, x: int, b: Arena)
    requires Lacking(a, x) && Linked(a, Sib(a, x)) && a.color[Sib(a, x)] == BLACK
    requires a.color[a.left[Sib(a, x)]] == BLACK && a.color[a.right[Sib(a, x)]] == BLACK
    requires b == BlackNephews(a, x) && Shaped(b)
    ensures RedBut(b, a.parent[x])
  {
    forall y | Linked(b, y) && b.color[y] == RED && y != a.parent[x]
      ensures (b.color[b.left[y]] == BLACK || b.left[y] == a.parent[x]) &&
              (b.color[b.right[y]] == BLACK || b.right[y] == a.parent[x])
    {
      BlackNephewsRed(a, x, b, y);
    }
  }

  lemma BlackNephewsBalanced(a: Arena, x: int, b: Arena)
    requires Lacking(a, x) && Linked(a, Sib(a, x)) && a.color[Sib(a, x)] == BLACK
    requires a.color[a.left[Sib(a, x)]] == BLACK && a.color[a.right[Sib(a, x)]] == BLACK
    requires b == BlackNephews(a, x) && Shaped(b)
    ensures forall y {:trigger Linked(b, y)} | Linked(b, y) && (a.parent[x] == a.root || y != a.parent[a.parent[x]]) ::
      BalancedAt(b, y)
  {
    forall y | Linked(b, y) && (a.parent[x] == a.root || y != a.parent[a.parent[x]])
      ensures BalancedAt(b, y)
    {
      BlackNephewsBal(a, x, b, y);
    }
  }

  lemma BlackNephewsBal(a: Arena, x: int, b: Arena, y: int)
    requires Lacking(a, x) && Linked(a, Sib(a, x)) && a.color[Sib(a, x)] == BLACK
    requires a.color[a.left[Sib(a, x)]] == BLACK && a.color[a.right[Sib(a, x)]] == BLACK
    requires b == BlackNephews(a, x) && Shaped(b) && Linked(b, y)
    requires a.parent[x] == a.root || y != a.parent[a.parent[x]]
    ensures BalancedAt(b, y)
  {
    DescendFacts(a, x);
    var q := a.parent[x];
    var w := Sib(a, x);
    assert Linked(a, y);
    if y != q {
      assert BalancedAt(a, y);
      OnlyParent(a, y, q);
      OnlyParent(a, y, w);
    }
  }

  lemma BlackNephewsRed(a: Arena, x: int, b: Arena, y: int)
    requires Lacking(a, x) && Linked(a, Sib(a, x)) && a.color[Sib(a, x)] == BLACK
    requires a.color[a.left[Sib(a, x)]] == BLACK && a.color[a.right[Sib(a, x)]] == BLACK
    requires b == BlackNephews(a, x) && Shaped(b) && Linked(b, y)
    requires b.color[y] == RED && y != a.parent[x]
    ensures (b.color[b.left[y]] == BLACK || b.left[y] == a.parent[x]) &&
            (b.color[b.right[y]] == BLACK || b.right[y] == a.parent[x])
  {
    DescendFacts(a, x);
    var w := Sib(a, x);
    assert Linked(a, y);
    if y != w {
      OnlyParent(a, y, w);
    }
  }

  /**
   * Case 3, `ptr` a left child: the sibling is BLACK, its right child BLACK
   * and its left child RED.  The left child turns BLACK, the sibling RED, and
   * the sibling is rotated right (tree.go:278-283).
   */
  ghost function NearNephewLeft(a: Arena, x: int): Arena
    requires Shaped(a) && IsRef(a, x) && Hangs(a, x) && a.left[a.parent[x]] == x
    requires Linked(a, a.right[a.parent[x]]) && Linked(a, a.left[a.right[a.parent[x]]])
  {
    var w := a.right[a.parent[x]];
    var c := Paint(Paint(a, a.left[w], BLACK), w, RED);
    Recolored(a, c);
    RotRight(c, w)
  }

  /** After case 3 the new sibling is BLACK with a RED right child: case 4 applies. */
  lemma DelNearNephewLeft(a: Arena, x: int)
    requires Descending(a, x) && a.left[a.parent[x]] == x && Linked(a, Sib(a, x)) && a.color[Sib(a, x)] == BLACK
    requires a.color[a.left[Sib(a, x)]] == RED && a.color[a.right[Sib(a, x)]] == BLACK
    ensures Linked(a, a.right[a.parent[x]]) && Linked(a, a.left[a.right[a.parent[x]]])
    ensures var b := NearNephewLeft(a, x);
      Descending(b, x) && b.parent[x] == a.parent[x] && b.left[a.parent[x]] == x &&
      Linked(b, Sib(b, x)) && b.color[Sib(b, x)] == BLACK && b.color[b.right[Sib(b, x)]] == RED &&
      b.nodes == a.nodes && b.key == a.key && b.sub[x] == a.sub[x]
  {
    DescendFacts(a, x);
    var q := a.parent[x];
    var w := a.right[q];
    var l := a.left[w];
    var c := Paint(Paint(a, l, BLACK), w, RED);
    Recolored(a, c);
    var b := RotRight(c, w);
    RotRightOrdered(c, w);
    RotRightShaped(c, w);
    RotRightFields(c, w);
    RotRightFacts(c, w);
    NearNephewLeftAll(a, x, c, b);
    assert b.parent[x] == q;
    assert Sib(b, x) == l;
  }

  /** Case 3 with `ptr` a left child: `c` is the tree after the recolouring of tree.go:279-280, `b` after the rotation at tree.go:281. */
  ghost predicate NearNephewLeftStep(a: Arena, x: int, c: Arena, b: Arena) {
    Lacking(a, x) && a.left[a.parent[x]] == x && Linked(a, a.right[a.parent[x]]) &&
    a.color[a.right[a.parent[x]]] == BLACK && a.color[a.left[a.right[a.parent[x]]]] == RED &&
    a.color[a.right[a.right[a.parent[x]]]] == BLACK && Linked(a, a.left[a.right[a.parent[x]]]) &&
    c == a.(color := a.color[a.left[a.right[a.parent[x]]] := BLACK][a.right[a.parent[x]] := RED]) &&
    Shaped(c) && Linked(c, a.right[a.parent[x]]) && Linked(c, c.left[a.right[a.parent[x]]]) &&
    RightRotated(c, a.right[a.parent[x]], b) && Shaped(b)
  }

  /** Case 3 keeps every node other than the parent balanced, and lets no RED node but `ptr` have a RED child. */
  lemma NearNephewLeftAll(a: Arena, x: int, c: Arena, b: Arena)
    requires NearNephewLeftStep(a, x, c, b)
    ensures forall y | Linked(b, y) && y != a.parent[x] :: BalancedAt(b, y)
    ensures forall y | Linked(b, y) && b.color[y] == RED && y != x ::
      (b.color[b.left[y]] == BLACK || b.left[y] == x) && (b.color[b.right[y]] == BLACK || b.right[y] == x)
  {
    forall y | Linked(b, y) && y != a.parent[x]
      ensures BalancedAt(b, y)
    {
      NearNephewLeftBal(a, x, c, b, y);
    }
    forall y | Linked(b, y) && b.color[y] == RED && y != x
      ensures (b.color[b.left[y]] == BLACK || b.left[y] == x) && (b.color[b.right[y]] == BLACK || b.right[y] == x)
    {
      NearNephewLeftRed(a, x, c, b, y);
    }
  }

  lemma NearNephewLeftBal(a: Arena, x: int, c: Arena, b: Arena, y: int)
    requires NearNephewLeftStep(a, x, c, b)
    requires Linked(b, y) && y != a.parent[x]
    ensures BalancedAt(b, y)
  {
    DescendFacts(a, x);
    var q := a.parent[x];
    var w := a.right[q];
    var l := a.left[w];
    RotRightFacts(c, w);
    ParentOfChild(a, w, l);
    assert Linked(a, y) && BalancedAt(a, l);
    if y == w {
      assert b.left[w] == a.right[l] && b.right[w] == a.right[w];
    } else if y == l {
      assert b.left[l] == a.left[l] && b.right[l] == w;
    } else {
      assert BalancedAt(a, y);
      RightRotatedElsewhere(c, w, b, y);
    }
  }

  lemma NearNephewLeftRed(a: Arena, x: int, c: Arena, b: Arena, y: int)
    requires NearNephewLeftStep(a, x, c, b)
    requires Linked(b, y)
    requires b.color[y] == RED && y != x
    ensures (b.color[b.left[y]] == BLACK || b.left[y] == x) && (b.color[b.right[y]] == BLACK || b.right[y] == x)
  {
    DescendFacts(a, x);
    var q := a.parent[x];
    var w := a.right[q];
    var l := a.left[w];
    RotRightFacts(c, w);
    ParentOfChild(a, w, l);
    assert Linked(a, y) && Linked(a, l);
    if y == w {
      assert b.left[w] == a.right[l] && b.right[w] == a.right[w];
    } else if y == q {
      assert b.left[q] == x && b.right[q] == l;
    } else {
      RightRotatedElsewhere(c, w, b, y);
    }
  }

  /**
   * Case 4, `ptr` a left child: the sibling is BLACK with a RED right child.
   * The sibling takes the parent's colour, the parent and that child turn
   * BLACK, and the parent is rotated left (tree.go:285-289); the deficit is
   * gone and `ptr` becomes the root, which ends the loop.
   */
  ghost function FarNephewLeft(a: Arena, x: int): Arena
    requires Shaped(a) && IsRef(a, x) && Hangs(a, x) && a.left[a.parent[x]] == x
    requires Linked(a, a.right[a.parent[x]])
  {
    var q := a.parent[x];
    var w := a.right[q];
    assert Linked(a, w);
    var c := Paint(Paint(Paint(a, w, a.color[q]), q, BLACK), a.right[w], BLACK)
               .(bh := a.bh[q := Lower(a.bh[q])][w := a.bh[q]]);
    Recolored(a, c);
    RotLeft(c, q)
  }

  /** After case 4 the tree is balanced and only the root may need repainting. */
  lemma DelFarNephewLeft(a: Arena, x: int)
    requires Descending(a, x) && a.left[a.parent[x]] == x && Linked(a, Sib(a, x)) && a.color[Sib(a, x)] == BLACK
    requires a.color[a.right[Sib(a, x)]] == RED
    ensures Linked(a, a.right[a.parent[x]])
    ensures var b := FarNephewLeft(a, x);
      DelInv(b, b.root) && b.nodes == a.nodes && b.key == a.key &&
      DelMeasure(b, b.root) < DelMeasure(a, x)
  {
    DescendFacts(a, x);
    DescendMeasure(a, x);
    var q := a.parent[x];
    var w := a.right[q];
    var c := Paint(Paint(Paint(a, w, a.color[q]), q, BLACK), a.right[w], BLACK)
               .(bh := a.bh[q := Lower(a.bh[q])][w := a.bh[q]]);
    Recolored(a, c);
    var b := RotLeft(c, q);
    RotLeftOrdered(c, q);
    RotLeftShaped(c, q);
    RotLeftFields(c, q);
    RotLeftFacts(c, q);
    FarNephewLeftAll(a, x, c, b);
    assert b.root != Sentinel && Linked(b, b.root);
  }

  /** Case 4 with `ptr` a left child: `c` is the tree after the recolouring of tree.go:285-287, `b` after the rotation at tree.go:288. */
  ghost predicate FarNephewLeftStep(a: Arena, x: int, c: Arena, b: Arena) {
    Lacking(a, x) && a.left[a.parent[x]] == x && Linked(a, a.right[a.parent[x]]) &&
    a.color[a.right[a.parent[x]]] == BLACK && a.color[a.right[a.right[a.parent[x]]]] == RED &&
    c == a.(color := a.color[a.right[a.parent[x]] := a.color[a.parent[x]]][a.parent[x] := BLACK][a.right[a.right[a.parent[x]]] := BLACK],
           bh := a.bh[a.parent[x] := Lower(a.bh[a.parent[x]])][a.right[a.parent[x]] := a.bh[a.parent[x]]]) &&
    Shaped(c) && Linked(c, a.parent[x]) && Linked(c, c.right[a.parent[x]]) &&
    LeftRotated(c, a.parent[x], b) && Shaped(b)
  }

  /** Case 4 balances every node, and leaves no RED node below the root with a RED child. */
  lemma FarNephewLeftAll(a: Arena, x: int, c: Arena, b: Arena)
    requires FarNephewLeftStep(a, x, c, b)
    ensures forall y | Linked(b, y) :: BalancedAt(b, y)
    ensures forall y | Linked(b, y) && b.color[y] == RED && y != b.root ::
      b.color[b.left[y]] == BLACK && b.color[b.right[y]] == BLACK
  {
    forall y | Linked(b, y)
      ensures BalancedAt(b, y)
    {
      FarNephewLeftBal(a, x, c, b, y);
    }
    forall y | Linked(b, y) && b.color[y] == RED && y != b.root
      ensures b.color[b.left[y]] == BLACK && b.color[b.right[y]] == BLACK
    {
      FarNephewLeftRed(a, x, c, b, y);
    }
  }

  lemma FarNephewLeftBal(a: Arena, x: int, c: Arena, b: Arena, y: int)
    requires FarNephewLeftStep(a, x, c, b)
    requires Linked(b, y)
    ensures BalancedAt(b, y)
  {
    DescendFacts(a, x);
    var q := a.parent[x];
    var w := a.right[q];
    var r := a.right[w];
    RotLeftFacts(c, q);
    assert Linked(a, y);
    if y == q {
      assert b.left[q] == x && b.right[q] == a.left[w];
    } else if y == w {
      ParentOfChild(a, w, r);
      assert b.left[w] == q && b.right[w] == r;
    } else {
      FarNephewLeftBalRest(a, x, c, b, y);
    }
  }

  lemma FarNephewLeftBalRest(a: Arena, x: int, c: Arena, b: Arena, y: int)
    requires FarNephewLeftStep(a, x, c, b)
    requires Linked(b, y)
    requires y != a.parent[x] && y != a.right[a.parent[x]]
    ensures BalancedAt(b, y)
  {
    DescendFacts(a, x);
    var q := a.parent[x];
    var w := a.right[q];
    var r := a.right[w];
    RotLeftFacts(c, q);
    assert Linked(a, y) && BalancedAt(a, y);
    if q != a.root && y == a.parent[q] {
      ChildSide(a, y, q);
    } else {
      FarNephewLeftBalFar(a, x, c, b, y);
    }
  }

  lemma FarNephewLeftBalFar(a: Arena, x: int, c: Arena, b: Arena, y: int)
    requires FarNephewLeftStep(a, x, c, b)
    requires Linked(b, y)
    requires y != a.parent[x] && y != a.right[a.parent[x]]
    requires a.parent[x] == a.root || y != a.parent[a.parent[x]]
    ensures BalancedAt(b, y)
  {
    DescendFacts(a, x);
    var q := a.parent[x];
    var w := a.right[q];
    var r := a.right[w];
    RotLeftFacts(c, q);
    assert Linked(a, y) && BalancedAt(a, y);
    ParentOfChild(a, w, r);
    OnlyParent(a, y, r);
    LeftRotatedElsewhere(c, q, b, y);
  }

  lemma FarNephewLeftRed(a: Arena, x: int, c: Arena, b: Arena, y: int)
    requires FarNephewLeftStep(a, x, c, b)
    requires Linked(b, y)
    requires b.color[y] == RED && y != b.root
    ensures b.color[b.left[y]] == BLACK && b.color[b.right[y]] == BLACK
  {
    DescendFacts(a, x);
    var q := a.parent[x];
    var w := a.right[q];
    var r := a.right[w];
    RotLeftFacts(c, q);
    ParentOfChild(a, w, r);
    assert Linked(a, y);
    if y == w {
      assert b.left[w] == q && b.right[w] == r;
    } else {
      FarNephewLeftRedRest(a, x, c, b, y);
    }
  }

  lemma FarNephewLeftRedRest(a: Arena, x: int, c: Arena, b: Arena, y: int)
    requires FarNephewLeftStep(a, x, c, b)
    requires Linked(b, y)
    requires b.color[y] == RED && y != b.root && y != a.right[a.parent[x]]
    ensures b.color[b.left[y]] == BLACK && b.color[b.right[y]] == BLACK
  {
    DescendFacts(a, x);
    var q := a.parent[x];
    var w := a.right[q];
    var r := a.right[w];
    RotLeftFacts(c, q);
    ParentOfChild(a, w, r);
    assert Linked(a, y);
    if q != a.root && y == a.parent[q] {
      ChildSide(a, y, q);
    } else {
      FarNephewLeftRedFar(a, x, c, b, y);
    }
  }

  lemma FarNephewLeftRedFar(a: Arena, x: int, c: Arena, b: Arena, y: int)
    requires FarNephewLeftStep(a, x, c, b)
    requires Linked(b, y)
    requires b.color[y] == RED && y != b.root && y != a.right[a.parent[x]]
    requires a.parent[x] == a.root || y != a.parent[a.parent[x]]
    ensures b.color[b.left[y]] == BLACK && b.color[b.right[y]] == BLACK
  {
    DescendFacts(a, x);
    var q := a.parent[x];
    var w := a.right[q];
    var r := a.right[w];
    RotLeftFacts(c, q);
    ParentOfChild(a, w, r);
    assert Linked(a, y);
    OnlyParent(a, y, r);
    LeftRotatedElsewhere(c, q, b, y);
  }

  /**
   * Case 1, `ptr` a right child: its sibling is RED.  The sibling turns
   * BLACK, the parent RED, and the parent is rotated right (tree.go:293-298).
   */
  ghost function RedSiblingRight(a: Arena, x: int): Arena
    requires Shaped(a) && IsRef(a, x) && Hangs(a, x) && a.right[a.parent[x]] == x
    requires Linked(a, a.left[a.parent[x]])
  {
    var q := a.parent[x];
    var c := Paint(Paint(a, a.left[q], BLACK), q, RED);
    Recolored(a, c);
    RotRight(c, q)
  }

  /** After case 1 the sibling is BLACK, and the same `ptr` still lacks one BLACK. */
  lemma DelRedSiblingRight(a: Arena, x: int)
    requires Descending(a, x) && a.right[a.parent[x]] == x && a.color[Sib(a, x)] == RED
    ensures Linked(a, a.left[a.parent[x]])
    ensures var b := RedSiblingRight(a, x);
      Descending(b, x) && b.parent[x] == a.parent[x] && b.right[a.parent[x]] == x &&
      b.color[Sib(b, x)] == BLACK && b.nodes == a.nodes && b.key == a.key && b.sub[x] == a.sub[x]
  {
    DescendFacts(a, x);
    RedSibFacts(a, x);
    var q := a.parent[x];
    var w := a.left[q];
    var c := Paint(Paint(a, w, BLACK), q, RED);
    Recolored(a, c);
    var b := RotRight(c, q);
    RotRightOrdered(c, q);
    RotRightShaped(c, q);
    RotRightFields(c, q);
    RotRightFacts(c, q);
    RedSiblingRightAll(a, x, c, b);
    assert b.parent[x] == q;
    assert Sib(b, x) == a.right[w];
  }

  /** Mirrored case 1: `c` is the tree after the recolouring of tree.go:294-295, `b` after the rotation at tree.go:296. */
  ghost predicate RedSiblingRightStep(a: Arena, x: int, c: Arena, b: Arena) {
    Lacking(a, x) && a.right[a.parent[x]] == x && a.color[a.left[a.parent[x]]] == RED &&
    Linked(a, a.left[a.parent[x]]) &&
    c == a.(color := a.color[a.left[a.parent[x]] := BLACK][a.parent[x] := RED]) && Shaped(c) &&
    Linked(c, a.parent[x]) && Linked(c, c.left[a.parent[x]]) && RightRotated(c, a.parent[x], b) &&
    Shaped(b)
  }

  /** Mirrored case 1 keeps every node other than the parent balanced, and lets no RED node but `ptr` have a RED child. */
  lemma RedSiblingRightAll(a: Arena, x: int, c: Arena, b: Arena)
    requires RedSiblingRightStep(a, x, c, b)
    ensures forall y | Linked(b, y) && y != a.parent[x] :: BalancedAt(b, y)
    ensures forall y | Linked(b, y) && b.color[y] == RED && y != x ::
      (b.color[b.right[y]] == BLACK || b.right[y] == x) && (b.color[b.left[y]] == BLACK || b.left[y] == x)
  {
    forall y | Linked(b, y) && y != a.parent[x]
      ensures BalancedAt(b, y)
    {
      RedSiblingRightBal(a, x, c, b, y);
    }
    forall y | Linked(b, y) && b.color[y] == RED && y != x
      ensures (b.color[b.right[y]] == BLACK || b.right[y] == x) && (b.color[b.left[y]] == BLACK || b.left[y] == x)
    {
      RedSiblingRightRed(a, x, c, b, y);
    }
  }

  lemma RedSiblingRightBal(a: Arena, x: int, c: Arena, b: Arena, y: int)
    requires RedSiblingRightStep(a, x, c, b)
    requires Linked(b, y) && y != a.parent[x]
    ensures BalancedAt(b, y)
  {
    DescendFacts(a, x);
    var q := a.parent[x];
    var w := a.left[q];
    RotRightFacts(c, q);
    assert Linked(a, y);
    if y == w {
      assert b.right[w] == q && b.left[w] == a.left[w];
    } else if q != a.root && y == a.parent[q] {
      assert BalancedAt(a, y);
      ChildSide(a, y, q);
    } else {
      assert BalancedAt(a, y);
      RightRotatedElsewhere(c, q, b, y);
    }
  }

  lemma RedSiblingRightRed(a: Arena, x: int, c: Arena, b: Arena, y: int)
    requires RedSiblingRightStep(a, x, c, b)
    requires Linked(b, y)
    requires b.color[y] == RED && y != x
    ensures (b.color[b.right[y]] == BLACK || b.right[y] == x) && (b.color[b.left[y]] == BLACK || b.left[y] == x)
  {
    DescendFacts(a, x);
    RedSibFacts(a, x);
    var q := a.parent[x];
    var w := a.left[q];
    RotRightFacts(c, q);
    assert Linked(a, y);
    if y == q {
      assert b.right[q] == x && b.left[q] == a.right[w];
    } else if q != a.root && y == a.parent[q] {
      ChildSide(a, y, q);
    } else {
      RightRotatedElsewhere(c, q, b, y);
    }
  }

  /**
   * Case 3, `ptr` a right child: the sibling is BLACK, its left child BLACK
   * and its right child RED.  The right child turns BLACK, the sibling RED, and
   * the sibling is rotated left (tree.go:304-309).
   */
  ghost function NearNephewRight(a: Arena, x: int): Arena
    requires Shaped(a) && IsRef(a, x) && Hangs(a, x) && a.right[a.parent[x]] == x
    requires Linked(a, a.left[a.parent[x]]) && Linked(a, a.right[a.left[a.parent[x]]])
  {
    var w := a.left[a.parent[x]];
    var c := Paint(Paint(a, a.right[w], BLACK), w, RED);
    Recolored(a, c);
    RotLeft(c, w)
  }

  /** After case 3 the new sibling is BLACK with a RED left child: case 4 applies. */
  lemma DelNearNephewRight(a: Arena, x: int)
    requires Descending(a, x) && a.right[a.parent[x]] == x && Linked(a, Sib(a, x)) && a.color[Sib(a, x)] == BLACK
    requires a.color[a.right[Sib(a, x)]] == RED && a.color[a.left[Sib(a, x)]] == BLACK
    ensures Linked(a, a.left[a.parent[x]]) && Linked(a, a.right[a.left[a.parent[x]]])
    ensures var b := NearNephewRight(a, x);
      Descending(b, x) && b.parent[x] == a.parent[x] && b.right[a.parent[x]] == x &&
      Linked(b, Sib(b, x)) && b.color[Sib(b, x)] == BLACK && b.color[b.left[Sib(b, x)]] == RED &&
      b.nodes == a.nodes && b.key == a.key && b.sub[x] == a.sub[x]
  {
    DescendFacts(a, x);
    var q := a.parent[x];
    var w := a.left[q];
    var l := a.right[w];
    var c := Paint(Paint(a, l, BLACK), w, RED);
    Recolored(a, c);
    var b := RotLeft(c, w);
    RotLeftOrdered(c, w);
    RotLeftShaped(c, w);
    RotLeftFields(c, w);
    RotLeftFacts(c, w);
    NearNephewRightAll(a, x, c, b);
    assert b.parent[x] == q;
    assert Sib(b, x) == l;
  }

  /** Mirrored case 3: `c` is the tree after the recolouring of tree.go:305-306, `b` after the rotation at tree.go:307. */
  ghost predicate NearNephewRightStep(a: Arena, x: int, c: Arena, b: Arena) {
    Lacking(a, x) && a.right[a.parent[x]] == x && Linked(a, a.left[a.parent[x]]) &&
    a.color[a.left[a.parent[x]]] == BLACK && a.color[a.right[a.left[a.parent[x]]]] == RED &&
    a.color[a.left[a.left[a.parent[x]]]] == BLACK && Linked(a, a.right[a.left[a.parent[x]]]) &&
    c == a.(color := a.color[a.right[a.left[a.parent[x]]] := BLACK][a.left[a.parent[x]] := RED]) &&
    Shaped(c) && Linked(c, a.left[a.parent[x]]) && Linked(c, c.right[a.left[a.parent[x]]]) &&
    LeftRotated(c, a.left[a.parent[x]], b) && Shaped(b)
  }

  /** Mirrored case 3 keeps every node other than the parent balanced, and lets no RED node but `ptr` have a RED child. */
  lemma NearNephewRightAll(a: Arena, x: int, c: Arena, b: Arena)
    requires NearNephewRightStep(a, x, c, b)
    ensures forall y | Linked(b, y) && y != a.parent[x] :: BalancedAt(b, y)
    ensures forall y | Linked(b, y) && b.color[y] == RED && y != x ::
      (b.color[b.right[y]] == BLACK || b.right[y] == x) && (b.color[b.left[y]] == BLACK || b.left[y] == x)
  {
    forall y | Linked(b, y) && y != a.parent[x]
      ensures BalancedAt(b, y)
    {
      NearNephewRightBal(a, x, c, b, y);
    }
    forall y | Linked(b, y) && b.color[y] == RED && y != x
      ensures (b.color[b.right[y]] == BLACK || b.right[y] == x) && (b.color[b.left[y]] == BLACK || b.left[y] == x)
    {
      NearNephewRightRed(a, x, c, b, y);
    }
  }

  lemma NearNephewRightBal(a: Arena, x: int, c: Arena, b: Arena, y: int)
    requires NearNephewRightStep(a, x, c, b)
    requires Linked(b, y) && y != a.parent[x]
    ensures BalancedAt(b, y)
  {
    DescendFacts(a, x);
    var q := a.parent[x];
    var w := a.left[q];
    var l := a.right[w];
    RotLeftFacts(c, w);
    ParentOfChild(a, w, l);
    assert Linked(a, y) && BalancedAt(a, l);
    if y == w {
      assert b.right[w] == a.left[l] && b.left[w] == a.left[w];
    } else if y == l {
      assert b.right[l] == a.right[l] && b.left[l] == w;
    } else {
      assert BalancedAt(a, y);
      LeftRotatedElsewhere(c, w, b, y);
    }
  }

  lemma NearNephewRightRed(a: Arena, x: int, c: Arena, b: Arena, y: int)
    requires NearNephewRightStep(a, x, c, b)
    requires Linked(b, y)
    requires b.color[y] == RED && y != x
    ensures (b.color[b.right[y]] == BLACK || b.right[y] == x) && (b.color[b.left[y]] == BLACK || b.left[y] == x)
  {
    DescendFacts(a, x);
    var q := a.parent[x];
    var w := a.left[q];
    var l := a.right[w];
    RotLeftFacts(c, w);
    ParentOfChild(a, w, l);
    assert Linked(a, y) && Linked(a, l);
    if y == w {
      assert b.right[w] == a.left[l] && b.left[w] == a.left[w];
    } else if y == q {
      assert b.right[q] == x && b.left[q] == l;
    } else {
      LeftRotatedElsewhere(c, w, b, y);
    }
  }

  /**
   * Case 4, `ptr` a right child: the sibling is BLACK with a RED left child.
   * The sibling takes the parent's colour, the parent and that child turn
   * BLACK, and the parent is rotated right (tree.go:311-315); the deficit is
   * gone and `ptr` becomes the root, which ends the loop.
   */
  ghost function FarNephewRight(a: Arena, x: int): Arena
    requires Shaped(a) && IsRef(a, x) && Hangs(a, x) && a.right[a.parent[x]] == x
    requires Linked(a, a.left[a.parent[x]])
  {
    var q := a.parent[x];
    var w := a.left[q];
    assert Linked(a, w);
    var c := Paint(Paint(Paint(a, w, a.color[q]), q, BLACK), a.left[w], BLACK)
               .(bh := a.bh[q := Lower(a.bh[q])][w := a.bh[q]]);
    Recolored(a, c);
    RotRight(c, q)
  }

  /** After case 4 the tree is balanced and only the root may need repainting. */
  lemma DelFarNephewRight(a: Arena, x: int)
    requires Descending(a, x) && a.right[a.parent[x]] == x && Linked(a, Sib(a, x)) && a.color[Sib(a, x)] == BLACK
    requires a.color[a.left[Sib(a, x)]] == RED
    ensures Linked(a, a.left[a.parent[x]])
    ensures var b := FarNephewRight(a, x);
      DelInv(b, b.root) && b.nodes == a.nodes && b.key == a.key &&
      DelMeasure(b, b.root) < DelMeasure(a, x)
  {
    DescendFacts(a, x);
    DescendMeasure(a, x);
    var q := a.parent[x];
    var w := a.left[q];
    var c := Paint(Paint(Paint(a, w, a.color[q]), q, BLACK), a.left[w], BLACK)
               .(bh := a.bh[q := Lower(a.bh[q])][w := a.bh[q]]);
    Recolored(a, c);
    var b := RotRight(c, q);
    RotRightOrdered(c, q);
    RotRightShaped(c, q);
    RotRightFields(c, q);
    RotRightFacts(c, q);
    FarNephewRightAll(a, x, c, b);
    assert b.root != Sentinel && Linked(b, b.root);
  }

  /** Mirrored case 4: `c` is the tree after the recolouring of tree.go:311-313, `b` after the rotation at tree.go:314. */
  ghost predicate FarNephewRightStep(a: Arena, x: int, c: Arena, b: Arena) {
    Lacking(a, x) && a.right[a.parent[x]] == x && Linked(a, a.left[a.parent[x]]) &&
    a.color[a.left[a.parent[x]]] == BLACK && a.color[a.left[a.left[a.parent[x]]]] == RED &&
    c == a.(color := a.color[a.left[a.parent[x]] := a.color[a.parent[x]]][a.parent[x] := BLACK][a.left[a.left[a.parent[x]]] := BLACK],
           bh := a.bh[a.parent[x] := Lower(a.bh[a.parent[x]])][a.left[a.parent[x]] := a.bh[a.parent[x]]]) &&
    Shaped(c) && Linked(c, a.parent[x]) && Linked(c, c.left[a.parent[x]]) &&
    RightRotated(c, a.parent[x], b) && Shaped(b)
  }

  /** Mirrored case 4 balances every node, and leaves no RED node below the root with a RED child. */
  lemma FarNephewRightAll(a: Arena, x: int, c: Arena, b: Arena)
    requires FarNephewRightStep(a, x, c, b)
    ensures forall y | Linked(b, y) :: BalancedAt(b, y)
    ensures forall y | Linked(b, y) && b.color[y] == RED && y != b.root ::
      b.color[b.right[y]] == BLACK && b.color[b.left[y]] == BLACK
  {
    forall y | Linked(b, y)
      ensures BalancedAt(b, y)
    {
      FarNephewRightBal(a, x, c, b, y);
    }
    forall y | Linked(b, y) && b.color[y] == RED && y != b.root
      ensures b.color[b.right[y]] == BLACK && b.color[b.left[y]] == BLACK
    {
      FarNephewRightRed(a, x, c, b, y);
    }
  }

  lemma FarNephewRightBal(a: Arena, x: int, c: Arena, b: Arena, y: int)
    requires FarNephewRightStep(a, x, c, b)
    requires Linked(b, y)
    ensures BalancedAt(b, y)
  {
    DescendFacts(a, x);
    var q := a.parent[x];
    var w := a.left[q];
    var r := a.left[w];
    RotRightFacts(c, q);
    assert Linked(a, y);
    if y == q {
      assert b.right[q] == x && b.left[q] == a.right[w];
    } else if y == w {
      ParentOfChild(a, w, r);
      assert b.right[w] == q && b.left[w] == r;
    } else {
      FarNephewRightBalRest(a, x, c, b, y);
    }
  }

  lemma FarNephewRightBalRest(a: Arena, x: int, c: Arena, b: Arena, y: int)
    requires FarNephewRightStep(a, x, c, b)
    requires Linked(b, y)
    requires y != a.parent[x] && y != a.left[a.parent[x]]
    ensures BalancedAt(b, y)
  {
    DescendFacts(a, x);
    var q := a.parent[x];
    var w := a.left[q];
    var r := a.left[w];
    RotRightFacts(c, q);
    assert Linked(a, y) && BalancedAt(a, y);
    if q != a.root && y == a.parent[q] {
      ChildSide(a, y, q);
    } else {
      FarNephewRightBalFar(a, x, c, b, y);
    }
  }

  lemma FarNephewRightBalFar(a: Arena, x: int, c: Arena, b: Arena, y: int)
    requires FarNephewRightStep(a, x, c, b)
    requires Linked(b, y)
    requires y != a.parent[x] && y != a.left[a.parent[x]]
    requires a.parent[x] == a.root || y != a.parent[a.parent[x]]
    ensures BalancedAt(b, y)
  {
    DescendFacts(a, x);
    var q := a.parent[x];
    var w := a.left[q];
    var r := a.left[w];
    RotRightFacts(c, q);
    assert Linked(a, y) && BalancedAt(a, y);
    ParentOfChild(a, w, r);
    OnlyParent(a, y, r);
    RightRotatedElsewhere(c, q, b, y);
  }

  lemma FarNephewRightRed(a: Arena, x: int, c: Arena, b: Arena, y: int)
    requires FarNephewRightStep(a, x, c, b)
    requires Linked(b, y)
    requires b.color[y] == RED && y != b.root
    ensures b.color[b.right[y]] == BLACK && b.color[b.left[y]] == BLACK
  {
    DescendFacts(a, x);
    var q := a.parent[x];
    var w := a.left[q];
    var r := a.left[w];
    RotRightFacts(c, q);
    ParentOfChild(a, w, r);
    assert Linked(a, y);
    if y == w {
      assert b.right[w] == q && b.left[w] == r;
    } else {
      FarNephewRightRedRest(a, x, c, b, y);
    }
  }

  lemma FarNephewRightRedRest(a: Arena, x: int, c: Arena, b: Arena, y: int)
    requires FarNephewRightStep(a, x, c, b)
    requires Linked(b, y)
    requires b.color[y] == RED && y != b.root && y != a.left[a.parent[x]]
    ensures b.color[b.right[y]] == BLACK && b.color[b.left[y]] == BLACK
  {
    DescendFacts(a, x);
    var q := a.parent[x];
    var w := a.left[q];
    var r := a.left[w];
    RotRightFacts(c, q);
    ParentOfChild(a, w, r);
    assert Linked(a, y);
    if q != a.root && y == a.parent[q] {
      ChildSide(a, y, q);
    } else {
      FarNephewRightRedFar(a, x, c, b, y);
    }
  }

  lemma FarNephewRightRedFar(a: Arena, x: int, c: Arena, b: Arena, y: int)
    requires FarNephewRightStep(a, x, c, b)
    requires Linked(b, y)
    requires b.color[y] == RED && y != b.root && y != a.left[a.parent[x]]
    requires a.parent[x] == a.root || y != a.parent[a.parent[x]]
    ensures b.color[b.right[y]] == BLACK && b.color[b.left[y]] == BLACK
  {
    DescendFacts(a, x);
    var q := a.parent[x];
    var w := a.left[q];
    var r := a.left[w];
    RotRightFacts(c, q);
    ParentOfChild(a, w, r);
    assert Linked(a, y);
    OnlyParent(a, y, r);
    RightRotatedElsewhere(c, q, b, y);
  }
}
