// The red-red repair after an insertion (tree.go:26-64, insertBalance).  The
// loop keeps `InsertInv`: the tree is a search tree with equal black heights
// and the only possible RED node below a RED parent is the cursor `z`.  Each
// iteration either recolours and moves the cursor two levels up, or rotates
// once or twice and stops.
module InsertFixup {
  import opened Nodes
  import opened Structure
  import opened Rotation

  /** Every RED node has BLACK children, except that its child may be `z`. */
  ghost predicate RedExcept(a: Arena, z: int)
    requires Shaped(a)
  {
    forall x {:trigger Linked(a, x)} | Linked(a, x) && a.color[x] == RED ::
      (a.color[a.left[x]] == BLACK || a.left[x] == z) &&
      (a.color[a.right[x]] == BLACK || a.right[x] == z)
  }

  /** The colour part of the loop invariant: balanced, and `z` is the only RED node that may sit below a RED parent. */
  ghost predicate Colored(a: Arena, z: int) {
    Shaped(a) && Balanced(a) && RedExcept(a, z) &&
    Linked(a, z) && a.color[z] == RED && (a.color[a.root] == BLACK || z == a.root)
  }

  /** The loop invariant of insertBalance with cursor `z`. */
  ghost predicate InsertInv(a: Arena, z: int) {
    Ordered(a) && Colored(a, z)
  }

  /** The loop condition: `z` is not the root and its parent is RED. */
  ghost predicate Climbing(a: Arena, z: int)
    requires Shaped(a) && Linked(a, z)
  {
    z != a.root && (assert Linked(a, z); a.color[a.parent[z]] == RED)
  }

  /** Distance of the cursor from the root while the loop runs; zero once it stops. */
  ghost function InsertMeasure(a: Arena, z: int): nat
    requires Shaped(a) && Linked(a, z)
  {
    SubShrinks(a, z);
    SubsetCard(a.sub[z], a.nodes);
    if Climbing(a, z) then |a.nodes| - |a.sub[z]| + 1 else 0
  }

  /** A step that stops the loop lowers the measure to zero. */
  lemma MeasureStops(a: Arena, z: int, b: Arena, y: int)
    requires Shaped(a) && Linked(a, z) && Climbing(a, z)
    requires Shaped(b) && Linked(b, y) && !Climbing(b, y)
    ensures InsertMeasure(b, y) < InsertMeasure(a, z)
  {
    assert InsertMeasure(b, y) == 0;
    SubShrinks(a, z);
    SubsetCard(a.sub[z], a.nodes);
    assert InsertMeasure(a, z) == |a.nodes| - |a.sub[z]| + 1;
  }

  /** Around a climbing cursor: a RED parent that is not the root, below a BLACK grandparent. */
  lemma ClimbFacts(a: Arena, z: int)
    requires Colored(a, z) && Climbing(a, z)
    ensures var p := a.parent[z]; var g := a.parent[p];
      Linked(a, p) && p != a.root && a.color[p] == RED && (a.left[p] == z || a.right[p] == z) &&
      Linked(a, g) && a.color[g] == BLACK && (a.left[g] == p || a.right[g] == p) &&
      a.left[g] != a.right[g] && a.left[p] != a.right[p] &&
      z != g && p != g && z != p && IsRef(a, a.left[g]) && IsRef(a, a.right[g])
  {
    var p := a.parent[z];
    assert Linked(a, z) && Linked(a, p);
    var g := a.parent[p];
    assert Linked(a, g);
    SubShrinks(a, g);
    SubShrinks(a, p);
  }

  /** The cursor has a parent, and that parent a parent, in the tree. */
  ghost predicate UnderGrand(a: Arena, z: int)
  {
    Shaped(a) && Linked(a, z) && z != a.root && Linked(a, a.parent[z]) && a.parent[z] != a.root
  }

  /** The other child of the grandparent. */
  ghost function UncleOf(a: Arena, z: int): (u: int)
    requires UnderGrand(a, z)
    ensures IsRef(a, u) && u != a.parent[z]
  {
    var p := a.parent[z];
    ChildSide(a, a.parent[p], p);
    var g := a.parent[p];
    if a.left[g] == p then a.right[g] else a.left[g]
  }

  /**
   * The RED-uncle step: parent and uncle turn BLACK, the grandparent RED, and
   * the black height below the grandparent grows by one.
   */
  ghost function Recolor(a: Arena, z: int): Arena
    requires UnderGrand(a, z)
  {
    var p := a.parent[z];
    ChildSide(a, a.parent[p], p);
    var g := a.parent[p];
    var u := UncleOf(a, z);
    Paint(Paint(Paint(a, p, BLACK), u, BLACK), g, RED).(bh := a.bh[g := a.bh[g] + 1])
  }

  /** The RED-uncle step keeps the invariant with the cursor moved to the grandparent. */
  lemma InsertRecolor(a: Arena, z: int)
    requires InsertInv(a, z) && Climbing(a, z) && a.color[UncleOf(a, z)] == RED
    ensures var g := a.parent[a.parent[z]];
      InsertInv(Recolor(a, z), g) && InsertMeasure(Recolor(a, z), g) < InsertMeasure(a, z)
  {
    ClimbFacts(a, z);
    var b := Recolor(a, z);
    Recolored(a, b);
    RecolorBalanced(a, z);
    RecolorRed(a, z);
    var p := a.parent[z];
    SubShrinks(a, p);
    SubShrinks(a, a.parent[p]);
    MeasureUp(a, z, b, a.parent[p]);
  }

  /** Moving the cursor to a node with a strictly larger subtree shortens the climb. */
  lemma MeasureUp(a: Arena, z: int, b: Arena, g: int)
    requires Shaped(a) && Linked(a, z) && Climbing(a, z)
    requires Shaped(b) && Linked(b, g) && b.nodes == a.nodes && a.sub[z] < b.sub[g]
    ensures InsertMeasure(b, g) < InsertMeasure(a, z)
  {
    SubShrinks(b, g);
    SubsetCard(b.sub[g], b.nodes);
    ProperSubsetCard(a.sub[z], b.sub[g]);
  }

  lemma RecolorBalanced(a: Arena, z: int)
    requires Colored(a, z) && Climbing(a, z) && a.color[UncleOf(a, z)] == RED
    requires Shaped(Recolor(a, z))
    ensures Balanced(Recolor(a, z))
  {
    ClimbFacts(a, z);
    var b := Recolor(a, z);
    var p, u := a.parent[z], UncleOf(a, z);
    var g := a.parent[p];
    assert u != Sentinel;
    ParentOfChild(a, g, u);
    forall x | Linked(b, x)
      ensures BalancedAt(b, x)
    {
      assert Linked(a, x) && BalancedAt(a, x);
      assert Linked(a, p) && BalancedAt(a, p);
      if x != g && a.left[x] != g && a.right[x] != g {
        assert a.left[x] != p && a.left[x] != u && a.right[x] != p && a.right[x] != u;
      }
    }
  }

  lemma RecolorRed(a: Arena, z: int)
    requires Colored(a, z) && Climbing(a, z) && a.color[UncleOf(a, z)] == RED
    requires Shaped(Recolor(a, z))
    ensures var g := a.parent[a.parent[z]];
      RedExcept(Recolor(a, z), g) && Linked(Recolor(a, z), g) && Recolor(a, z).color[g] == RED &&
      (Recolor(a, z).color[Recolor(a, z).root] == BLACK || g == Recolor(a, z).root)
  {
    ClimbFacts(a, z);
    var b := Recolor(a, z);
    var p, u := a.parent[z], UncleOf(a, z);
    var g := a.parent[p];
    ParentOfChild(a, g, u);
    ParentOfChild(a, g, p);
    forall x | Linked(b, x) && b.color[x] == RED
      ensures (b.color[b.left[x]] == BLACK || b.left[x] == g) &&
              (b.color[b.right[x]] == BLACK || b.right[x] == g)
    {
      assert Linked(a, x);
      if x != g {
        assert a.left[x] != p && a.right[x] != p;
      }
    }
  }

  /** The cursor's parent is the left child of the grandparent. */
  ghost predicate ParentIsLeft(a: Arena, z: int)
    requires Colored(a, z) && Climbing(a, z)
  {
    ClimbFacts(a, z);
    a.left[a.parent[a.parent[z]]] == a.parent[z]
  }

  /** The left-side configurations with a BLACK uncle: `z` is an inner (right) or outer (left) grandchild. */
  ghost predicate InnerLeft(a: Arena, z: int)
    requires Colored(a, z) && Climbing(a, z)
  {
    ClimbFacts(a, z);
    var p := a.parent[z];
    var g := a.parent[p];
    a.left[g] == p && a.color[a.right[g]] == BLACK && a.right[p] == z
  }

  ghost predicate OuterLeft(a: Arena, z: int)
    requires Colored(a, z) && Climbing(a, z)
  {
    ClimbFacts(a, z);
    var p := a.parent[z];
    var g := a.parent[p];
    a.left[g] == p && a.color[a.right[g]] == BLACK && a.left[p] == z
  }

  /** Rotating left at the parent turns the inner case into the outer one, the old parent becoming the cursor. */
  lemma InsertInnerLeft(a: Arena, z: int)
    requires InsertInv(a, z) && Climbing(a, z) && InnerLeft(a, z)
    ensures var p := a.parent[z];
      Linked(a, p) && Linked(a, a.right[p]) &&
      InsertInv(RotLeft(a, p), p) && Climbing(RotLeft(a, p), p) && OuterLeft(RotLeft(a, p), p)
  {
    ClimbFacts(a, z);
    var p := a.parent[z];
    var g := a.parent[p];
    var b := RotLeft(a, p);
    RotLeftOrdered(a, p);
    RotLeftFields(a, p);
    RotLeftFacts(a, p);
    InnerLeftBalanced(a, z, b);
    InnerLeftRed(a, z, b);
    assert Linked(b, z) && b.parent[p] == z && b.parent[z] == g;
    assert b.left[g] == z && b.left[z] == p && b.right[g] == a.right[g];
  }

  lemma InnerLeftBalanced(a: Arena, z: int, b: Arena)
    requires Colored(a, z) && Climbing(a, z) && InnerLeft(a, z)
    requires var p := a.parent[z]; Linked(a, p) && Linked(a, a.right[p]) && LeftRotated(a, p, b)
    requires Shaped(b)
    ensures Balanced(b)
  {
    ClimbFacts(a, z);
    var p := a.parent[z];
    RotLeftFacts(a, p);
    assert Linked(a, p) && BalancedAt(a, p) && Linked(a, z) && BalancedAt(a, z);
    forall x | Linked(b, x)
      ensures BalancedAt(b, x)
    {
      assert Linked(a, x) && BalancedAt(a, x);
    }
  }

  lemma InnerLeftRed(a: Arena, z: int, b: Arena)
    requires Colored(a, z) && Climbing(a, z) && InnerLeft(a, z)
    requires var p := a.parent[z]; Linked(a, p) && Linked(a, a.right[p]) && LeftRotated(a, p, b)
    requires Shaped(b)
    ensures RedExcept(b, a.parent[z])
  {
    ClimbFacts(a, z);
    var p := a.parent[z];
    RotLeftFacts(a, p);
    assert Linked(a, p) && Linked(a, z);
    forall x | Linked(b, x) && b.color[x] == RED
      ensures (b.color[b.left[x]] == BLACK || b.left[x] == p) &&
              (b.color[b.right[x]] == BLACK || b.right[x] == p)
    {
      assert Linked(a, x);
      if x != p && x != z {
        assert a.left[x] != z && a.right[x] != z;
      }
    }
  }

  /** The recolouring of the outer case: the parent turns BLACK and the grandparent RED. */
  ghost function OuterPaint(a: Arena, z: int): Arena
    requires UnderGrand(a, z)
  {
    var p := a.parent[z];
    ChildSide(a, a.parent[p], p);
    a.(color := a.color[p := BLACK][a.parent[p] := RED])
  }

  /** The outer case: recolour, then rotate right at the grandparent; the loop then stops. */
  ghost function OuterLeftStep(a: Arena, z: int): Arena
    requires UnderGrand(a, z) && a.left[a.parent[a.parent[z]]] == a.parent[z]
  {
    var p := a.parent[z];
    ChildSide(a, a.parent[p], p);
    var c := OuterPaint(a, z);
    Recolored(a, c);
    RotRight(c, a.parent[p])
  }

  lemma InsertOuterLeft(a: Arena, z: int)
    requires InsertInv(a, z) && Climbing(a, z) && OuterLeft(a, z)
    ensures InsertInv(OuterLeftStep(a, z), z) && !Climbing(OuterLeftStep(a, z), z)
  {
    ClimbFacts(a, z);
    var p := a.parent[z];
    var g := a.parent[p];
    var c := OuterPaint(a, z);
    Recolored(a, c);
    var b := RotRight(c, g);
    RotRightOrdered(c, g);
    RotRightFields(c, g);
    RotRightFacts(c, g);
    OuterLeftBalanced(a, z, c, b);
    OuterLeftRed(a, z, c, b);
    assert Linked(b, z) && b.parent[z] == p;
  }

  lemma OuterLeftBalanced(a: Arena, z: int, c: Arena, b: Arena)
    requires Colored(a, z) && Climbing(a, z) && OuterLeft(a, z)
    requires c == OuterPaint(a, z)
    requires Shaped(c) && Linked(c, a.parent[a.parent[z]]) && Linked(c, a.parent[z])
    requires c.left[a.parent[a.parent[z]]] == a.parent[z] && RightRotated(c, a.parent[a.parent[z]], b)
    requires Shaped(b)
    ensures Balanced(b)
  {
    forall x | Linked(b, x)
      ensures BalancedAt(b, x)
    {
      OuterLeftBalancedAt(a, z, c, b, x);
    }
  }

  lemma OuterLeftBalancedAt(a: Arena, z: int, c: Arena, b: Arena, x: int)
    requires Colored(a, z) && Climbing(a, z) && OuterLeft(a, z)
    requires c == OuterPaint(a, z)
    requires Shaped(c) && Linked(c, a.parent[a.parent[z]]) && Linked(c, a.parent[z])
    requires c.left[a.parent[a.parent[z]]] == a.parent[z] && RightRotated(c, a.parent[a.parent[z]], b)
    requires Shaped(b)
    requires Linked(b, x)
    ensures BalancedAt(b, x)
  {
    ClimbFacts(a, z);
    var p := a.parent[z];
    var g := a.parent[p];
    RotRightFacts(c, g);
    assert Linked(a, x) && BalancedAt(a, x);
    if x == g || x == p {
      assert Linked(a, p) && BalancedAt(a, p) && Linked(a, g) && BalancedAt(a, g);
    } else if a.left[x] == g || a.right[x] == g {
      assert b.left[x] == a.left[x] || b.left[x] == p;
      assert b.right[x] == a.right[x] || b.right[x] == p;
    } else {
      assert a.left[x] != p && a.right[x] != p;
      assert b.left[x] == a.left[x] && b.right[x] == a.right[x];
    }
  }

  lemma OuterLeftRed(a: Arena, z: int, c: Arena, b: Arena)
    requires Colored(a, z) && Climbing(a, z) && OuterLeft(a, z)
    requires c == OuterPaint(a, z)
    requires Shaped(c) && Linked(c, a.parent[a.parent[z]]) && Linked(c, a.parent[z])
    requires c.left[a.parent[a.parent[z]]] == a.parent[z] && RightRotated(c, a.parent[a.parent[z]], b)
    requires Shaped(b)
    ensures RedExcept(b, z) && (b.color[b.root] == BLACK || z == b.root)
  {
    ClimbFacts(a, z);
    var p := a.parent[z];
    var g := a.parent[p];
    RotRightFacts(c, g);
    forall x | Linked(b, x) && b.color[x] == RED
      ensures (b.color[b.left[x]] == BLACK || b.left[x] == z) &&
              (b.color[b.right[x]] == BLACK || b.right[x] == z)
    {
      OuterLeftRedAt(a, z, c, b, x);
    }
  }

  lemma OuterLeftRedAt(a: Arena, z: int, c: Arena, b: Arena, x: int)
    requires Colored(a, z) && Climbing(a, z) && OuterLeft(a, z)
    requires c == OuterPaint(a, z)
    requires Shaped(c) && Linked(c, a.parent[a.parent[z]]) && Linked(c, a.parent[z])
    requires c.left[a.parent[a.parent[z]]] == a.parent[z] && RightRotated(c, a.parent[a.parent[z]], b)
    requires Shaped(b)
    requires Linked(b, x) && b.color[x] == RED
    ensures (b.color[b.left[x]] == BLACK || b.left[x] == z) &&
            (b.color[b.right[x]] == BLACK || b.right[x] == z)
  {
    ClimbFacts(a, z);
    var p := a.parent[z];
    var g := a.parent[p];
    RotRightFacts(c, g);
    assert b.color == c.color && c.color[p] == BLACK && c.color[g] == RED;
    assert Linked(a, x) && Linked(a, p) && Linked(a, z);
    if x == g {
      assert b.left[g] == a.right[p] && b.right[g] == a.right[g];
    } else if x == z {
      assert b.left[z] == a.left[z] && b.right[z] == a.right[z];
    } else {
      assert x != p;
      assert a.left[x] != p && a.right[x] != p;
    }
  }

  /** The mirror configurations, below a right child. */
  ghost predicate InnerRight(a: Arena, z: int)
    requires Colored(a, z) && Climbing(a, z)
  {
    ClimbFacts(a, z);
    var p := a.parent[z];
    var g := a.parent[p];
    a.right[g] == p && a.color[a.left[g]] == BLACK && a.left[p] == z
  }

  ghost predicate OuterRight(a: Arena, z: int)
    requires Colored(a, z) && Climbing(a, z)
  {
    ClimbFacts(a, z);
    var p := a.parent[z];
    var g := a.parent[p];
    a.right[g] == p && a.color[a.left[g]] == BLACK && a.right[p] == z
  }

  /** Rotating right at the parent turns the inner case into the outer one, the old parent becoming the cursor. */
  lemma InsertInnerRight(a: Arena, z: int)
    requires InsertInv(a, z) && Climbing(a, z) && InnerRight(a, z)
    ensures var p := a.parent[z];
      Linked(a, p) && Linked(a, a.left[p]) &&
      InsertInv(RotRight(a, p), p) && Climbing(RotRight(a, p), p) && OuterRight(RotRight(a, p), p)
  {
    ClimbFacts(a, z);
    var p := a.parent[z];
    var g := a.parent[p];
    var b := RotRight(a, p);
    RotRightOrdered(a, p);
    RotRightFields(a, p);
    RotRightFacts(a, p);
    InnerRightBalanced(a, z, b);
    InnerRightRed(a, z, b);
    assert Linked(b, z) && b.parent[p] == z && b.parent[z] == g;
    assert b.right[g] == z && b.right[z] == p && b.left[g] == a.left[g];
  }

  lemma InnerRightBalanced(a: Arena, z: int, b: Arena)
    requires Colored(a, z) && Climbing(a, z) && InnerRight(a, z)
    requires var p := a.parent[z]; Linked(a, p) && Linked(a, a.left[p]) && RightRotated(a, p, b)
    requires Shaped(b)
    ensures Balanced(b)
  {
    ClimbFacts(a, z);
    var p := a.parent[z];
    RotRightFacts(a, p);
    assert Linked(a, p) && BalancedAt(a, p) && Linked(a, z) && BalancedAt(a, z);
    forall x | Linked(b, x)
      ensures BalancedAt(b, x)
    {
      assert Linked(a, x) && BalancedAt(a, x);
    }
  }

  lemma InnerRightRed(a: Arena, z: int, b: Arena)
    requires Colored(a, z) && Climbing(a, z) && InnerRight(a, z)
    requires var p := a.parent[z]; Linked(a, p) && Linked(a, a.left[p]) && RightRotated(a, p, b)
    requires Shaped(b)
    ensures RedExcept(b, a.parent[z])
  {
    ClimbFacts(a, z);
    var p := a.parent[z];
    RotRightFacts(a, p);
    assert Linked(a, p) && Linked(a, z);
    forall x | Linked(b, x) && b.color[x] == RED
      ensures (b.color[b.right[x]] == BLACK || b.right[x] == p) &&
              (b.color[b.left[x]] == BLACK || b.left[x] == p)
    {
      assert Linked(a, x);
      if x != p && x != z {
        assert a.right[x] != z && a.left[x] != z;
      }
    }
  }

  /** The outer case: recolour, then rotate left at the grandparent; the loop then stops. */
  ghost function OuterRightStep(a: Arena, z: int): Arena
    requires UnderGrand(a, z) && a.right[a.parent[a.parent[z]]] == a.parent[z]
  {
    var p := a.parent[z];
    ChildSide(a, a.parent[p], p);
    var c := OuterPaint(a, z);
    Recolored(a, c);
    RotLeft(c, a.parent[p])
  }

  lemma InsertOuterRight(a: Arena, z: int)
    requires InsertInv(a, z) && Climbing(a, z) && OuterRight(a, z)
    ensures InsertInv(OuterRightStep(a, z), z) && !Climbing(OuterRightStep(a, z), z)
  {
    ClimbFacts(a, z);
    var p := a.parent[z];
    var g := a.parent[p];
    var c := OuterPaint(a, z);
    Recolored(a, c);
    var b := RotLeft(c, g);
    RotLeftOrdered(c, g);
    RotLeftFields(c, g);
    RotLeftFacts(c, g);
    OuterRightBalanced(a, z, c, b);
    OuterRightRed(a, z, c, b);
    assert Linked(b, z) && b.parent[z] == p;
  }

  lemma OuterRightBalanced(a: Arena, z: int, c: Arena, b: Arena)
    requires Colored(a, z) && Climbing(a, z) && OuterRight(a, z)
    requires c == OuterPaint(a, z)
    requires Shaped(c) && Linked(c, a.parent[a.parent[z]]) && Linked(c, a.parent[z])
    requires c.right[a.parent[a.parent[z]]] == a.parent[z] && LeftRotated(c, a.parent[a.parent[z]], b)
    requires Shaped(b)
    ensures Balanced(b)
  {
    forall x | Linked(b, x)
      ensures BalancedAt(b, x)
    {
      OuterRightBalancedAt(a, z, c, b, x);
    }
  }

  lemma OuterRightBalancedAt(a: Arena, z: int, c: Arena, b: Arena, x: int)
    requires Colored(a, z) && Climbing(a, z) && OuterRight(a, z)
    requires c == OuterPaint(a, z)
    requires Shaped(c) && Linked(c, a.parent[a.parent[z]]) && Linked(c, a.parent[z])
    requires c.right[a.parent[a.parent[z]]] == a.parent[z] && LeftRotated(c, a.parent[a.parent[z]], b)
    requires Shaped(b)
    requires Linked(b, x)
    ensures BalancedAt(b, x)
  {
    ClimbFacts(a, z);
    var p := a.parent[z];
    var g := a.parent[p];
    RotLeftFacts(c, g);
    assert Linked(a, x) && BalancedAt(a, x);
    if x == g || x == p {
      assert Linked(a, p) && BalancedAt(a, p) && Linked(a, g) && BalancedAt(a, g);
    } else if a.right[x] == g || a.left[x] == g {
      assert b.right[x] == a.right[x] || b.right[x] == p;
      assert b.left[x] == a.left[x] || b.left[x] == p;
    } else {
      assert a.right[x] != p && a.left[x] != p;
      assert b.right[x] == a.right[x] && b.left[x] == a.left[x];
    }
  }

  lemma OuterRightRed(a: Arena, z: int, c: Arena, b: Arena)
    requires Colored(a, z) && Climbing(a, z) && OuterRight(a, z)
    requires c == OuterPaint(a, z)
    requires Shaped(c) && Linked(c, a.parent[a.parent[z]]) && Linked(c, a.parent[z])
    requires c.right[a.parent[a.parent[z]]] == a.parent[z] && LeftRotated(c, a.parent[a.parent[z]], b)
    requires Shaped(b)
    ensures RedExcept(b, z) && (b.color[b.root] == BLACK || z == b.root)
  {
    ClimbFacts(a, z);
    var p := a.parent[z];
    var g := a.parent[p];
    RotLeftFacts(c, g);
    forall x | Linked(b, x) && b.color[x] == RED
      ensures (b.color[b.right[x]] == BLACK || b.right[x] == z) &&
              (b.color[b.left[x]] == BLACK || b.left[x] == z)
    {
      OuterRightRedAt(a, z, c, b, x);
    }
  }

  lemma OuterRightRedAt(a: Arena, z: int, c: Arena, b: Arena, x: int)
    requires Colored(a, z) && Climbing(a, z) && OuterRight(a, z)
    requires c == OuterPaint(a, z)
    requires Shaped(c) && Linked(c, a.parent[a.parent[z]]) && Linked(c, a.parent[z])
    requires c.right[a.parent[a.parent[z]]] == a.parent[z] && LeftRotated(c, a.parent[a.parent[z]], b)
    requires Shaped(b)
    requires Linked(b, x) && b.color[x] == RED
    ensures (b.color[b.right[x]] == BLACK || b.right[x] == z) &&
            (b.color[b.left[x]] == BLACK || b.left[x] == z)
  {
    ClimbFacts(a, z);
    var p := a.parent[z];
    var g := a.parent[p];
    RotLeftFacts(c, g);
    assert b.color == c.color && c.color[p] == BLACK && c.color[g] == RED;
    assert Linked(a, x) && Linked(a, p) && Linked(a, z);
    if x == g {
      assert b.right[g] == a.left[p] && b.left[g] == a.left[g];
    } else if x == z {
      assert b.right[z] == a.right[z] && b.left[z] == a.left[z];
    } else {
      assert x != p;
      assert a.right[x] != p && a.left[x] != p;
    }
  }

  /** When the loop stops, painting the root BLACK restores every red-black invariant. */
  lemma InsertDone(a: Arena, z: int)
    requires InsertInv(a, z) && !Climbing(a, z)
    ensures RedBlack(Paint(a, a.root, BLACK))
  {
    var b := Paint(a, a.root, BLACK);
    assert Linked(a, z);
    assert a.root != Sentinel && Linked(a, a.root);
    SubShrinks(a, a.root);
    Recolored(a, b);
    forall x | Linked(b, x)
      ensures BalancedAt(b, x) && (b.color[x] == RED ==> b.color[b.left[x]] == BLACK && b.color[b.right[x]] == BLACK)
    {
      assert Linked(a, x) && BalancedAt(a, x);
      RootNotChild(a, x);
      SubShrinks(a, x);
      if b.color[x] == RED && (a.left[x] == z || a.right[x] == z) {
        ParentOfChild(a, x, z);
      }
    }
  }
}
