// The red-black tree itself (tree.go, rbnode.go): an arena of nodes whose
// fields the operations update in place.  Node i's fields are left[i],
// right[i], parent[i], color[i], key[i] and data[i]; node 0 is the tree's
// sentinel `nilNode` and -1 is Go's nil.  The ghost fields carry the
// bookkeeping of `Arena` (which nodes are linked, their subtrees and black
// heights), so that every method is specified by the arena functions whose
// properties the other modules prove.
module RBTree {
  import opened Nodes
  import opened Structure
  import opened Rotation
  import opened Descent
  import opened InsertFixup
  import opened Attach
  import opened Order
  import opened DeleteFixup
  import opened Removal

  class Tree<T(0)> {
    var left: seq<int>
    var right: seq<int>
    var parent: seq<int>
    var color: seq<Color>
    var key: seq<int>
    var data: seq<T>
    var root: int
    ghost var nodes: set<int>
    ghost var sub: seq<set<int>>
    ghost var bh: seq<nat>

    /** The current state of the arena. */
    ghost function Snap(): Arena
      reads this
    {
      Arena(left, right, parent, color, key, root, nodes, sub, bh)
    }

    /** The tree is a red-black tree and every node carries data. */
    ghost predicate Valid()
      reads this
    {
      RedBlack(Snap()) && |data| == |key|
    }

    /** The keys stored in the tree. */
    ghost function Contents(): set<int>
      reads this
      requires SentinelOk(Snap())
    {
      Keys(Snap())
    }

    /** NewRBTree: only the BLACK sentinel, which is also the root. */
    constructor ()
      ensures Valid() && root == Sentinel && nodes == {} && |key| == 1
      ensures color[Sentinel] == BLACK && Contents() == {}
    {
      var zero: T := *;
      // NewRBNode(nil, nil, nil, zero) followed by SetColor(BLACK)
      left, right, parent := [Nil], [Nil], [Nil];
      color, key, data := [BLACK], [0], [zero];
      root := Sentinel;
      nodes, sub, bh := {}, [{}], [0];
    }

    /** NewRBNode: a fresh node, RED because RED is the zero colour, outside the tree. */
    method NewNode(p: int, l: int, r: int, k: int, d: T) returns (x: int)
      requires Sized(Snap()) && |data| == |key|
      modifies this
      ensures left == old(left) + [l] && right == old(right) + [r] && parent == old(parent) + [p]
      ensures color == old(color) + [RED] && key == old(key) + [k] && data == old(data) + [d]
      ensures x == old(|key|) && color[x] == RED
      ensures root == old(root) && nodes == old(nodes) && sub == old(sub) + [{}] && bh == old(bh) + [0]
      ensures Sized(Snap()) && Agree(old(Snap()), Snap())
    {
      x := |key|;
      left, right, parent := left + [l], right + [r], parent + [p];
      color, key, data := color + [RED], key + [k], data + [d];
      sub, bh := sub + [{}], bh + [0];
    }

    /** Reset: overwrites the links and colour of `n`, never its key or data. */
    method Reset(n: int, p: int, l: int, r: int, c: Color)
      requires Sized(Snap()) && 0 <= n < |key|
      modifies this
      ensures left == old(left)[n := l] && right == old(right)[n := r] && parent == old(parent)[n := p]
      ensures color == old(color)[n := c]
      ensures key == old(key) && data == old(data) && root == old(root)
      ensures nodes == old(nodes) && sub == old(sub) && bh == old(bh)
    {
      parent := parent[n := p];
      left := left[n := l];
      right := right[n := r];
      color := color[n := c];
    }

    /** SetColor: only the colour of `n` changes. */
    method SetColor(n: int, c: Color)
      requires 0 <= n < |color|
      modifies this
      ensures Snap() == Paint(old(Snap()), n, c) && data == old(data)
    {
      color := color[n := c];
    }

    /** IsBlack: the sentinel, standing for every absent child, counts as BLACK. */
    function IsBlack(n: int): (b: bool)
      reads this
      requires 0 <= n < |color|
      ensures SentinelOk(Snap()) && n == Sentinel ==> b
    {
      color[n] == BLACK
    }

    /** IsRed: with two colours, exactly the nodes that are not BLACK. */
    function IsRed(n: int): (b: bool)
      reads this
      requires 0 <= n < |color|
      ensures b <==> !IsBlack(n)
    {
      color[n] == RED
    }

    /** IsLeftChild: in the tree, a non-root node is a left child exactly when it is not a right child. */
    function IsLeftChild(n: int): (b: bool)
      reads this
      requires 0 <= n < |parent| && 0 <= parent[n] < |left| && |left| == |right|
      ensures Shaped(Snap()) && Linked(Snap(), n) && n != root ==> (b <==> right[parent[n]] != n)
    {
      ChildSideIf(Snap(), n);
      left[parent[n]] == n
    }

    /** IsRightChild: the mirror of IsLeftChild. */
    function IsRightChild(n: int): (b: bool)
      reads this
      requires 0 <= n < |parent| && 0 <= parent[n] < |right| && |left| == |right|
      ensures Shaped(Snap()) && Linked(Snap(), n) && n != root ==> (b <==> left[parent[n]] != n)
    {
      ChildSideIf(Snap(), n);
      right[parent[n]] == n
    }

    /** Grandparent: two levels up from a node that is neither the root nor a child of the root. */
    function Grandparent(n: int): (g: int)
      reads this
      requires Shaped(Snap()) && Linked(Snap(), n) && n != root && parent[n] != root
      ensures Linked(Snap(), g) && (left[g] == parent[n] || right[g] == parent[n])
    {
      assert Linked(Snap(), n);
      assert Linked(Snap(), parent[n]);
      parent[parent[n]]
    }

    /** Sibling: the parent's other child. */
    function Sibling(n: int): (s: int)
      reads this
      requires Shaped(Snap()) && Linked(Snap(), n) && n != root
      ensures IsRef(Snap(), s) && s != n
      ensures {left[parent[n]], right[parent[n]]} == {n, s}
    {
      assert Linked(Snap(), n);
      var p := parent[n];
      ChildSide(Snap(), p, n);
      if left[p] == n then right[p] else left[p]
    }

    /** Uncle: the grandparent's other child. */
    function Uncle(n: int): (u: int)
      reads this
      requires Shaped(Snap()) && Linked(Snap(), n) && n != root && parent[n] != root
      ensures IsRef(Snap(), u) && u != parent[n]
      ensures {left[Grandparent(n)], right[Grandparent(n)]} == {parent[n], u}
    {
      assert Linked(Snap(), n);
      var p := parent[n];
      var g := Grandparent(n);
      ChildSide(Snap(), g, p);
      if left[g] == p then right[g] else left[g]
    }
  
    /**
     * RotateLeft: the right child `r` of `n` takes its place below `n`'s old
     * parent (or as the root), `n` becomes `r`'s left child and takes `r`'s old
     * left subtree as its right one.  The result is `RotLeft`, which keeps the
     * shape, the search order, the colours and the keys.
     */
    method RotateLeft(n: int)
      requires Shaped(Snap()) && Linked(Snap(), n) && Linked(Snap(), right[n])
      modifies this
      ensures Snap() == RotLeft(old(Snap()), n) && data == old(data)
    {
      assert Linked(Snap(), n) && Linked(Snap(), right[n]);
      var r := right[n];
      sub := sub[n := {n} + sub[left[n]] + sub[left[r]]][r := sub[n]];
      right := right[n := left[r]];
      if left[r] != Sentinel {
        parent := parent[left[r] := n];
      }
      parent := parent[r := parent[n]];
      if n == root {
        root := r;
      } else if IsLeftChild(n) {
        left := left[parent[n] := r];
      } else {
        right := right[parent[n] := r];
      }
      left := left[r := n];
      parent := parent[n := r];
    }

    /** RotateRight: the mirror image of RotateLeft. */
    method RotateRight(n: int)
      requires Shaped(Snap()) && Linked(Snap(), n) && Linked(Snap(), left[n])
      modifies this
      ensures Snap() == RotRight(old(Snap()), n) && data == old(data)
    {
      assert Linked(Snap(), n) && Linked(Snap(), left[n]);
      var l := left[n];
      sub := sub[n := {n} + sub[right[l]] + sub[right[n]]][l := sub[n]];
      left := left[n := right[l]];
      if right[l] != Sentinel {
        parent := parent[right[l] := n];
      }
      parent := parent[l := parent[n]];
      if n == root {
        root := l;
      } else if IsRightChild(n) {
        right := right[parent[n] := l];
      } else {
        left := left[parent[n] := l];
      }
      right := right[l := n];
      parent := parent[n := l];
    }
  
    /** The arena bookkeeping for a node `x` just written into an empty child slot of `p`. */
    ghost method Enter(p: int, x: int)
      requires Sized(Snap()) && 0 <= x < |key|
      modifies this
      ensures nodes == old(nodes) + {x} && sub == GrowSub(old(Snap()), p, x) && bh == old(bh)[x := 1]
      ensures left == old(left) && right == old(right) && parent == old(parent) && color == old(color)
      ensures key == old(key) && data == old(data) && root == old(root)
    {
      sub := GrowSub(Snap(), p, x);
      nodes := nodes + {x};
      bh := bh[x := 1];
    }

    /**
     * The child write of binaryInsert: `p.left` (or `p.right`) becomes a new
     * RED leaf `NewRBNode(p, nilNode, nilNode, k, d)`.  With the slot empty and
     * `k` in bounds along the path, the result satisfies the insertion
     * invariant with the new leaf as the cursor, and holds exactly one more key.
     */
    method HangLeaf(p: int, k: int, d: T, goLeft: bool) returns (x: int)
      requires Valid() && Linked(Snap(), p) && PathBound(Snap(), p, k)
      requires if goLeft then left[p] == Sentinel && k < key[p] else right[p] == Sentinel && key[p] < k
      modifies this
      ensures x == old(|key|) && key == old(key) + [k] && data == old(data) + [d]
      ensures InsertInv(Snap(), x) && |data| == |key| && nodes == old(nodes) + {x}
      ensures Keys(Snap()) == old(Contents()) + {k}
    {
      ghost var a := Snap();
      x := NewNode(p, Sentinel, Sentinel, k, d);
      ghost var a1 := Snap();
      AgreeKeeps(a, a1);
      AgreePath(a, a1, p, k);
      if goLeft {
        left := left[p := x];
      } else {
        right := right[p := x];
      }
      Enter(p, x);
      assert Snap() == Link(a1, p, x, goLeft);
      LinkKeeps(a1, p, x, goLeft);
    }

    /**
     * binaryInsert: descend from the root as Search does; on an equal key
     * return that node and false, otherwise hang a new RED leaf holding
     * `k` and `d` in the empty slot where the descent ended.
     */
    method BinaryInsert(node: int, k: int, d: T) returns (n: int, ok: bool)
      requires Valid() && node == root && root != Sentinel
      modifies this
      ensures ok <==> k !in old(Contents())
      ensures !ok ==> Snap() == old(Snap()) && data == old(data) && n in nodes && key[n] == k
      ensures ok ==> n == old(|key|) && key == old(key) + [k] && data == old(data) + [d]
      ensures ok ==> InsertInv(Snap(), n) && |data| == |key| && nodes == old(nodes) + {n}
      ensures ok ==> Keys(Snap()) == old(Contents()) + {k}
    {
      ghost var a := Snap();
      assert Linked(a, root);
      DescendSound(a, root, k);
      PathBoundRoot(a, k);
      DescendPath(a, root, k);
      n := node;
      while true
        invariant Snap() == a && data == old(data)
        invariant Linked(a, n) && Descend(a, n, k) == Descend(a, root, k)
        decreases |sub[n]|
      {
        SubShrinks(a, n);
        var r := Compare(k, key[n]);
        if r == LESS {
          if left[n] == Sentinel {
            n := HangLeaf(n, k, d, true);
            break;
          }
          n := left[n];
        } else if r == GREATER {
          if right[n] == Sentinel {
            n := HangLeaf(n, k, d, false);
            break;
          }
          n := right[n];
        } else {
          assert key[n] in Keys(a);
          return n, false;
        }
      }
      return n, true;
    }

    /**
     * insertBalance: while the cursor's parent is RED, either recolour and
     * climb two levels, or rotate (once or twice) and stop.
     */
    method InsertBalance(z: int)
      requires InsertInv(Snap(), z) && |data| == |key|
      modifies this
      ensures 0 <= root < |color| && RedBlack(Paint(Snap(), root, BLACK))
      ensures nodes == old(nodes) && key == old(key) && data == old(data)
    {
      var node := z;
      while node != root && IsRed(parent[node])
        invariant InsertInv(Snap(), node) && |data| == |key|
        invariant nodes == old(nodes) && key == old(key) && data == old(data)
        decreases InsertMeasure(Snap(), node)
      {
        ClimbFacts(Snap(), node);
        if IsLeftChild(parent[node]) {
          assert ParentIsLeft(Snap(), node);
          node := BalanceLeft(node);
        } else {
          node := BalanceRight(node);
        }
      }
      InsertDone(Snap(), node);
    }

    /** One round of insertBalance when the cursor's parent is a left child. */
    method BalanceLeft(node: int) returns (next: int)
      requires InsertInv(Snap(), node) && Climbing(Snap(), node) && ParentIsLeft(Snap(), node)
      requires |data| == |key|
      modifies this
      ensures InsertInv(Snap(), next) && |data| == |key|
      ensures InsertMeasure(Snap(), next) < old(InsertMeasure(Snap(), node))
      ensures nodes == old(nodes) && key == old(key) && data == old(data)
    {
      ghost var a := Snap();
      ClimbFacts(a, node);
      var uncle := right[Grandparent(node)];
      if IsRed(uncle) {
        next := PaintUp(node, uncle);
        InsertRecolor(a, node);
      } else {
        next := RotateLeftCase(node);
      }
    }

    /** One round of insertBalance when the cursor's parent is a right child: the mirror image. */
    method BalanceRight(node: int) returns (next: int)
      requires InsertInv(Snap(), node) && Climbing(Snap(), node) && !ParentIsLeft(Snap(), node)
      requires |data| == |key|
      modifies this
      ensures InsertInv(Snap(), next) && |data| == |key|
      ensures InsertMeasure(Snap(), next) < old(InsertMeasure(Snap(), node))
      ensures nodes == old(nodes) && key == old(key) && data == old(data)
    {
      ghost var a := Snap();
      ClimbFacts(a, node);
      var uncle := left[Grandparent(node)];
      if IsRed(uncle) {
        next := PaintUp(node, uncle);
        InsertRecolor(a, node);
      } else {
        next := RotateRightCase(node);
      }
    }

    /** The BLACK-uncle case below a left parent: at most two rotations, after which the loop ends. */
    method RotateLeftCase(node: int) returns (next: int)
      requires InsertInv(Snap(), node) && Climbing(Snap(), node)
      requires InnerLeft(Snap(), node) || OuterLeft(Snap(), node)
      modifies this
      ensures InsertInv(Snap(), next) && !Climbing(Snap(), next)
      ensures InsertMeasure(Snap(), next) < old(InsertMeasure(Snap(), node))
      ensures nodes == old(nodes) && key == old(key) && data == old(data)
    {
      ghost var a := Snap();
      ClimbFacts(a, node);
      next := node;
      if IsRightChild(next) {
        InsertInnerLeft(a, next);
        next := parent[next];
        RotateLeft(next);
      }
      ghost var a2 := Snap();
      OuterLeftCase(next);
      InsertOuterLeft(a2, next);      MeasureStops(a, node, Snap(), next);
    }

    /** The BLACK-uncle case below a right parent: the mirror image. */
    method RotateRightCase(node: int) returns (next: int)
      requires InsertInv(Snap(), node) && Climbing(Snap(), node)
      requires InnerRight(Snap(), node) || OuterRight(Snap(), node)
      modifies this
      ensures InsertInv(Snap(), next) && !Climbing(Snap(), next)
      ensures InsertMeasure(Snap(), next) < old(InsertMeasure(Snap(), node))
      ensures nodes == old(nodes) && key == old(key) && data == old(data)
    {
      ghost var a := Snap();
      ClimbFacts(a, node);
      next := node;
      if IsLeftChild(next) {
        InsertInnerRight(a, next);
        next := parent[next];
        RotateRight(next);
      }
      ghost var a2 := Snap();
      OuterRightCase(next);
      InsertOuterRight(a2, next);      MeasureStops(a, node, Snap(), next);
    }

    /** The RED-uncle case: parent and uncle turn BLACK and the grandparent, returned as the new cursor, RED. */
    method PaintUp(node: int, uncle: int) returns (g: int)
      requires UnderGrand(Snap(), node) && uncle == UncleOf(Snap(), node)
      modifies this
      ensures g == old(parent[parent[node]]) && Snap() == Recolor(old(Snap()), node) && data == old(data)
    {
      var p := parent[node];
      g := Grandparent(node);
      SetColor(p, BLACK);
      SetColor(uncle, BLACK);
      SetColor(g, RED);
      bh := bh[g := bh[g] + 1];
    }

    /** The outer case below a left parent: recolour, then rotate right at the grandparent. */
    method OuterLeftCase(node: int)
      requires UnderGrand(Snap(), node) && left[Grandparent(node)] == parent[node]
      modifies this
      ensures Snap() == OuterLeftStep(old(Snap()), node) && data == old(data)
    {
      ghost var a := Snap();
      var g := Grandparent(node);
      SetColor(parent[node], BLACK);
      SetColor(g, RED);
      Recolored(a, Snap());
      RotateRight(g);
    }

    /** The outer case below a right parent: the mirror image. */
    method OuterRightCase(node: int)
      requires UnderGrand(Snap(), node) && right[Grandparent(node)] == parent[node]
      modifies this
      ensures Snap() == OuterRightStep(old(Snap()), node) && data == old(data)
    {
      ghost var a := Snap();
      var g := Grandparent(node);
      SetColor(parent[node], BLACK);
      SetColor(g, RED);
      Recolored(a, Snap());
      RotateLeft(g);
    }
  
    /**
     * Insert: into the empty tree as a BLACK root whose parent and children
     * are the sentinel; otherwise by binaryInsert and insertBalance, after
     * which the root is painted BLACK.  A key already present returns its
     * node and false and changes nothing.
     */
    method Insert(k: int, d: T) returns (n: int, ok: bool)
      requires Valid()
      modifies this
      ensures Valid()
      ensures ok <==> k !in old(Contents())
      ensures Contents() == old(Contents()) + {k}
      ensures n in nodes && key[n] == k
      ensures !ok ==> Snap() == old(Snap()) && data == old(data)
      ensures ok ==> n == old(|key|) && nodes == old(nodes) + {n} && key == old(key) + [k] && data == old(data) + [d]
      ensures ok && old(root) == Sentinel ==>
        root == n && parent[n] == Sentinel && left[n] == Sentinel && right[n] == Sentinel && color[n] == BLACK
    {
      ghost var a := Snap();
      var node := root;
      if node == Sentinel {
        var x := NewNode(Sentinel, Sentinel, Sentinel, k, d);
        ghost var a1 := Snap();
        AgreeKeeps(a, a1);
        root := x;
        nodes, sub, bh := {x}, sub[x := {x}], bh[x := 1];
        assert Snap() == Plant(a1, x);
        SetColor(root, BLACK);
        PlantKeeps(a1, x);
        return root, true;
      }
      node, ok := BinaryInsert(node, k, d);
      if !ok {
        return node, ok;
      }
      var oldNode := node;
      ghost var a2 := Snap();
      InsertBalance(node);
      SetColor(root, BLACK);
      assert Keys(Snap()) == Keys(a2);
      return oldNode, true;
    }

    /**
     * InsertNode: Insert for a caller-made node `n` that is not in the tree.
     * Unlike the source, the node is first reset to what NewRBNode would give
     * it: parent the attach point, sentinel children, RED.
     */
    method InsertNode(n: int) returns (r: int, ok: bool)
      requires Valid() && 0 < n < |key| && n !in nodes
      modifies this
      ensures Valid()
      ensures ok <==> old(key[n]) !in old(Contents())
      ensures Contents() == old(Contents()) + {old(key[n])}
      ensures r in nodes && key[r] == old(key[n]) && (ok ==> r == n)
      ensures !ok ==> Snap() == old(Snap()) && data == old(data)
      ensures ok ==> nodes == old(nodes) + {n} && key == old(key) && data == old(data)
    {
      ghost var a := Snap();
      var node := root;
      if node == Sentinel {
        Reset(n, Sentinel, Sentinel, Sentinel, RED);
        ghost var a1 := Snap();
        AgreeKeeps(a, a1);
        root := n;
        nodes, sub, bh := {n}, sub[n := {n}], bh[n := 1];
        assert Snap() == Plant(a1, n);
        SetColor(root, BLACK);
        PlantKeeps(a1, n);
        return root, true;
      }
      node, ok := BinaryInsertNode(node, n);
      if !ok {
        return node, ok;
      }
      ghost var a2 := Snap();
      InsertBalance(node);
      SetColor(root, BLACK);
      assert Keys(Snap()) == Keys(a2);
      return n, true;
    }

    /** binaryInsertNode: binaryInsert for the caller's node `n`, which is reset as it is hung. */
    method BinaryInsertNode(node: int, n: int) returns (x: int, ok: bool)
      requires Valid() && node == root && root != Sentinel && 0 < n < |key| && n !in nodes
      modifies this
      ensures ok <==> old(key[n]) !in old(Contents())
      ensures !ok ==> Snap() == old(Snap()) && data == old(data) && x in nodes && key[x] == old(key[n])
      ensures ok ==> x == n && key == old(key) && data == old(data)
      ensures ok ==> InsertInv(Snap(), x) && |data| == |key| && nodes == old(nodes) + {x}
      ensures ok ==> Keys(Snap()) == old(Contents()) + {key[n]}
    {
      ghost var a := Snap();
      var k := key[n];
      assert Linked(a, root);
      DescendSound(a, root, k);
      PathBoundRoot(a, k);
      DescendPath(a, root, k);
      x := node;
      while true
        invariant Snap() == a && data == old(data)
        invariant Linked(a, x) && Descend(a, x, k) == Descend(a, root, k)
        decreases |sub[x]|
      {
        SubShrinks(a, x);
        var r := Compare(k, key[x]);
        if r == LESS {
          if left[x] == Sentinel {
            HangNode(x, n, true);
            x := n;
            break;
          }
          x := left[x];
        } else if r == GREATER {
          if right[x] == Sentinel {
            HangNode(x, n, false);
            x := n;
            break;
          }
          x := right[x];
        } else {
          assert key[x] in Keys(a);
          return x, false;
        }
      }
      return x, true;
    }

    /**
     * The child write of binaryInsertNode, `p.left = n` (or `p.right`),
     * preceded by the reset of `n` the source omits.
     */
    method HangNode(p: int, n: int, goLeft: bool)
      requires Valid() && Linked(Snap(), p) && 0 < n < |key| && n !in nodes && PathBound(Snap(), p, key[n])
      requires if goLeft then left[p] == Sentinel && key[n] < key[p] else right[p] == Sentinel && key[p] < key[n]
      modifies this
      ensures key == old(key) && data == old(data)
      ensures InsertInv(Snap(), n) && |data| == |key| && nodes == old(nodes) + {n}
      ensures Keys(Snap()) == old(Contents()) + {key[n]}
    {
      ghost var a := Snap();
      Reset(n, p, Sentinel, Sentinel, RED);
      ghost var a1 := Snap();
      AgreeKeeps(a, a1);
      AgreePath(a, a1, p, key[n]);
      if goLeft {
        left := left[p := n];
      } else {
        right := right[p := n];
      }
      Enter(p, n);
      assert Snap() == Link(a1, p, n, goLeft);
      LinkKeeps(a1, p, n, goLeft);
    }

    /**
     * Search: follow the comparisons down from the root; the node holding
     * `k`, or Go nil when no node does.  Nothing changes.
     */
    method Search(k: int) returns (n: int)
      requires Valid()
      ensures n == Nil <==> k !in Contents()
      ensures n != Nil ==> n in nodes && key[n] == k
    {
      n := root;
      while n != Sentinel
        invariant IsRef(Snap(), n)
        invariant forall y | y in nodes && key[y] == k :: y in sub[n]
        decreases |sub[n]|
      {
        assert Linked(Snap(), n) && OrderedAt(Snap(), n);
        SubShrinks(Snap(), n);
        var r := Compare(k, key[n]);
        if r == LESS {
          n := left[n];
        } else if r == GREATER {
          n := right[n];
        } else {
          break;
        }
      }
      if n == Sentinel {
        return Nil;
      }
      return n;
    }

    /**
     * Min: the leftmost node below `n`, which holds the smallest key of its
     * subtree.  `n` must be a real node: from the sentinel the source follows
     * its Go-nil left link.
     */
    method Min(n: int) returns (m: int)
      requires Valid() && Linked(Snap(), n)
      ensures m in nodes && m in sub[n] && left[m] == Sentinel
      ensures forall y | y in sub[n] :: key[m] <= key[y]
    {
      m := n;
      assert Linked(Snap(), n);
      SubShrinks(Snap(), n);
      while left[m] != Sentinel
        invariant m in nodes && m in sub[n] && sub[m] <= sub[n]
        invariant forall y | y in sub[n] && y !in sub[m] :: key[m] < key[y]
        decreases |sub[m]|
      {
        assert Linked(Snap(), m) && OrderedAt(Snap(), m) && SubtreeAt(Snap(), m);
        SubShrinks(Snap(), m);
        SubShrinks(Snap(), left[m]);
        m := left[m];
      }
      assert Linked(Snap(), m) && OrderedAt(Snap(), m) && SubtreeAt(Snap(), m);
    }

    /** Max: the mirror image of Min. */
    method Max(n: int) returns (m: int)
      requires Valid() && Linked(Snap(), n)
      ensures m in nodes && m in sub[n] && right[m] == Sentinel
      ensures forall y | y in sub[n] :: key[y] <= key[m]
    {
      m := n;
      assert Linked(Snap(), n);
      SubShrinks(Snap(), n);
      while right[m] != Sentinel
        invariant m in nodes && m in sub[n] && sub[m] <= sub[n]
        invariant forall y | y in sub[n] && y !in sub[m] :: key[y] < key[m]
        decreases |sub[m]|
      {
        assert Linked(Snap(), m) && OrderedAt(Snap(), m) && SubtreeAt(Snap(), m);
        SubShrinks(Snap(), m);
        SubShrinks(Snap(), right[m]);
        m := right[m];
      }
      assert Linked(Snap(), m) && OrderedAt(Snap(), m) && SubtreeAt(Snap(), m);
    }

    /** Leftmost: the node with the smallest key of a non-empty tree. */
    method Leftmost() returns (m: int)
      requires Valid() && root != Sentinel
      ensures m in nodes && forall y | y in nodes :: key[m] <= key[y]
    {
      m := Min(root);
    }

    /** Rightmost: the node with the largest key of a non-empty tree. */
    method Rightmost() returns (m: int)
      requires Valid() && root != Sentinel
      ensures m in nodes && forall y | y in nodes :: key[y] <= key[m]
    {
      m := Max(root);
    }
  
    /**
     * Next as the source writes it.  With a right subtree the answer is that
     * subtree's minimum, the successor.  Without one, the climb through
     * right-child links stops at the root or at a left child and returns that
     * node itself, whose key is never larger than that of `n`.  (The source's
     * nil test after the climb cannot fire: the climb stays on linked nodes.)
     */
    method Next(n: int) returns (s: int)
      requires Valid() && Linked(Snap(), n)
      ensures right[n] != Sentinel ==> IsSuccessor(Snap(), n, s)
      ensures right[n] == Sentinel ==> s == Ascend(Snap(), n) && Linked(Snap(), s) && key[s] <= key[n]
    {
      assert Linked(Snap(), n);
      if right[n] != Sentinel {
        s := Min(right[n]);
        SuccessorInRight(Snap(), n, s);
        return;
      }
      s := n;
      while s != root && IsRightChild(s)
        invariant Linked(Snap(), s) && Ascend(Snap(), s) == Ascend(Snap(), n)
        decreases |nodes| - |sub[s]|
      {
        SubShrinks(Snap(), s);
        SubsetCard(sub[s], nodes);
        ChildSide(Snap(), parent[s], s);
        SubShrinks(Snap(), parent[s]);
        s := parent[s];
      }
      AscendBelow(Snap(), n);
    }

    /**
     * The in-order successor that Next is evidently meant to return: the
     * minimum of the right subtree if there is one, else the parent of the
     * first left child met on the way up, else Go nil when `n` holds the
     * largest key.
     */
    method Successor(n: int) returns (s: int)
      requires Valid() && Linked(Snap(), n)
      ensures s == Nil <==> IsLast(Snap(), n)
      ensures s != Nil ==> IsSuccessor(Snap(), n, s)
    {
      assert Linked(Snap(), n) && OrderedAt(Snap(), n) && SubtreeAt(Snap(), n);
      if right[n] != Sentinel {
        s := Min(right[n]);
        SuccessorInRight(Snap(), n, s);
        return;
      }
      SubShrinks(Snap(), n);
      var x := n;
      while x != root && IsRightChild(x)
        invariant Linked(Snap(), x) && n in sub[x]
        invariant forall y | y in sub[x] :: key[y] <= key[n]
        decreases |nodes| - |sub[x]|
      {
        SubShrinks(Snap(), x);
        SubsetCard(sub[x], nodes);
        var q := parent[x];
        ChildSide(Snap(), q, x);
        SubShrinks(Snap(), q);
        assert OrderedAt(Snap(), q) && SubtreeAt(Snap(), q);
        x := q;
      }
      if x == root {
        return Nil;
      }
      ChildSide(Snap(), parent[x], x);
      SuccessorAbove(Snap(), n, x);
      return parent[x];
    }

    /**
     * The cut of tree.go:220-234: `ptr`, the only child of `s` (or the
     * sentinel), takes the slot of `s` in its parent, chosen by IsLeftChild,
     * and is given the parent `up`.
     */
    method Unhook(s: int, ptr: int, up: int)
      requires Shaped(Snap()) && Linked(Snap(), s) && s != root && ptr == Ptr(Snap(), s)
      modifies this
      ensures Snap() == Remove(old(Snap()), s, up) && data == old(data)
    {
      ChildSide(Snap(), parent[s], s);
      if IsLeftChild(s) {
        left := left[parent[s] := ptr];
      } else {
        right := right[parent[s] := ptr];
      }
      parent := parent[ptr := up];
      nodes, sub := nodes - {s}, Drop(sub, s);
    }

    /**
     * The move of tree.go:235-256: `s` takes the children, parent and colour
     * of `n`, then the root pointer or the slot of `n` in its parent, and the
     * parent field of each real child.
     */
    method Transplant(n: int, s: int)
      requires Sized(Snap()) && 0 <= n < |key| && 0 < s < |key| && s != n
      requires 0 <= left[n] < |key| && 0 <= right[n] < |key|
      requires n != root ==> 0 <= parent[n] < |key| && parent[n] != s
      modifies this
      ensures Snap() == Rename(old(Snap()), n, s) && data == old(data)
    {
      ghost var x := Snap();
      TakeOver(n, s);
      SlotTo(n, s);
      ChildrenTo(s);
      nodes, sub, bh := nodes - {n} + {s}, RenSub(sub, n, s), bh[s := bh[n]];
      RenameInSteps(x, n, s);
    }

    /** tree.go:235-238: `s` takes the children, parent and colour of `n`. */
    method TakeOver(n: int, s: int)
      requires Sized(Snap()) && 0 <= n < |key| && 0 <= s < |key| && s != n
      modifies this
      ensures Snap() == Adopt(old(Snap()), n, s) && data == old(data)
    {
      left := left[s := left[n]];
      right := right[s := right[n]];
      parent := parent[s := parent[n]];
      SetColor(s, color[n]);
    }

    /** tree.go:240-248: the root pointer, or the slot of `n` in its parent chosen by IsLeftChild, is set to `s`. */
    method SlotTo(n: int, s: int)
      requires Sized(Snap()) && 0 <= n < |key| && 0 <= s < |key|
      requires n != root ==> 0 <= parent[n] < |key|
      modifies this
      ensures Snap() == Reslot(old(Snap()), n, s) && data == old(data)
    {
      if n == root {
        root := s;
      } else if IsLeftChild(n) {
        left := left[parent[n] := s];
      } else {
        right := right[parent[n] := s];
      }
    }

    /** tree.go:250-256: each real child of `s` gets `s` as its parent. */
    method ChildrenTo(s: int)
      requires Sized(Snap()) && 0 <= s < |key| && 0 <= left[s] < |key| && 0 <= right[s] < |key|
      modifies this
      ensures Snap() == Claim(old(Snap()), s) && data == old(data)
    {
      if left[s] != Sentinel {
        parent := parent[left[s] := s];
      }
      if right[s] != Sentinel {
        parent := parent[right[s] := s];
      }
    }

    /**
     * Delete: unlinks node `n` and restores every red-black invariant.  Go
     * nil and the sentinel are ignored.  The tree loses the node and its key
     * and nothing else; the keys and data of the other nodes stay where
     * they are.
     */
    method Delete(n: int)
      requires Valid() && (n == Nil || n == Sentinel || n in nodes)
      modifies this
      ensures Valid() && key == old(key) && data == old(data)
      ensures n in old(nodes) ==> nodes == old(nodes) - {n} && Contents() == old(Contents()) - {old(key[n])}
      ensures n !in old(nodes) ==> Snap() == old(Snap())
    {
      if n == Sentinel || n == Nil {
        return;
      }
      ghost var a := Snap();
      SubShrinks(a, n);
      var subst, ptr;
      if left[n] == Sentinel {
        subst, ptr := n, right[n];
      } else if right[n] == Sentinel {
        subst, ptr := n, left[n];
      } else {
        subst := Min(right[n]);
        ptr := right[subst];
      }
      assert Chosen(a, n, subst);
      ChosenFacts(a, n, subst);
      if subst == root {
        root := ptr;
        nodes := nodes - {n};
        SetColor(root, BLACK);
        UprootKeeps(a, n);
        return;
      }
      var substIsRed := IsRed(subst);
      SpliceOut(n, subst, ptr);
      SpliceKeeps(a, n, subst);
      if substIsRed {
        return;
      }
      Rebalance(ptr);
    }

    /**
     * Lines 218-256 of Delete: `subst` is cut out and its child `ptr` takes
     * its place; if `subst` is not `n` it then takes the place of `n`.
     */
    method SpliceOut(n: int, subst: int, ptr: int)
      requires Shaped(Snap()) && Linked(Snap(), n) && Chosen(Snap(), n, subst) && subst != root
      requires ptr == Ptr(Snap(), subst)
      modifies this
      ensures Snap() == Splice(old(Snap()), n, subst) && data == old(data)
    {
      ghost var a := Snap();
      ChosenFacts(a, n, subst);
      if subst == n {
        Unhook(subst, ptr, parent[subst]);
      } else {
        var up := if parent[subst] == n then subst else parent[subst];
        SpliceSteps(a, n, subst, up);
        Unhook(subst, ptr, up);
        Transplant(n, subst);
      }
    }

    /**
     * The loop of tree.go:263-318 and the final repainting of `ptr`
     * (tree.go:320): the tree that comes out is a red-black tree with the
     * same nodes and keys.
     */
    method Rebalance(x: int)
      requires DelInv(Snap(), x) && |data| == |key|
      modifies this
      ensures Valid() && nodes == old(nodes) && key == old(key) && data == old(data)
      ensures Contents() == old(Keys(Snap()))
    {
      ghost var a := Snap();
      var ptr := x;
      while ptr != root && IsBlack(ptr)
        invariant DelInv(Snap(), ptr) && |data| == |key|
        invariant nodes == old(nodes) && key == old(key) && data == old(data)
        decreases DelMeasure(Snap(), ptr)
      {
        if IsLeftChild(ptr) {
          ptr := FixLeft(ptr);
        } else {
          ptr := FixRight(ptr);
        }
      }
      DelDone(Snap(), ptr);
      SetColor(ptr, BLACK);
      assert Keys(Snap()) == Keys(a);
    }

    /** One round of the loop with `ptr` a left child (tree.go:264-289). */
    method FixLeft(ptr: int) returns (next: int)
      requires Descending(Snap(), ptr) && left[parent[ptr]] == ptr && |data| == |key|
      modifies this
      ensures DelInv(Snap(), next) && DelMeasure(Snap(), next) < old(DelMeasure(Snap(), ptr))
      ensures nodes == old(nodes) && key == old(key) && data == old(data)
    {
      ghost var a := Snap();
      DescendFacts(a, ptr);
      var sibling := right[parent[ptr]];
      if IsRed(sibling) {
        DelRedSiblingLeft(a, ptr);
        sibling := RedSiblingLeftCase(ptr, sibling);
      }
      next := FixLeftBlack(ptr, sibling);
    }

    /** The rest of the round once the sibling is BLACK: case 2, or cases 3 and 4. */
    method FixLeftBlack(ptr: int, sibling: int) returns (next: int)
      requires Descending(Snap(), ptr) && left[parent[ptr]] == ptr && |data| == |key|
      requires sibling == right[parent[ptr]] && color[sibling] == BLACK
      modifies this
      ensures DelInv(Snap(), next) && DelMeasure(Snap(), next) < old(DelMeasure(Snap(), ptr))
      ensures nodes == old(nodes) && key == old(key) && data == old(data)
    {
      ghost var a := Snap();
      DescendFacts(a, ptr);
      if IsBlack(left[sibling]) && IsBlack(right[sibling]) {
        DelBlackNephews(a, ptr);
        next := BlackNephewsCase(ptr, sibling);
      } else {
        next := FixLeftNephew(ptr, sibling);
      }
    }

    /** Case 3 with `ptr` a left child: afterwards the far nephew is RED, as case 4 needs. */
    method FixLeftNear(ptr: int, sibling: int) returns (w: int)
      requires Descending(Snap(), ptr) && left[parent[ptr]] == ptr && |data| == |key|
      requires sibling == right[parent[ptr]] && Linked(Snap(), sibling) && color[sibling] == BLACK
      requires color[left[sibling]] == RED && color[right[sibling]] == BLACK
      modifies this
      ensures Descending(Snap(), ptr) && left[parent[ptr]] == ptr && |data| == |key|
      ensures w == right[parent[ptr]] && Linked(Snap(), w) && color[w] == BLACK && color[right[w]] == RED
      ensures DelMeasure(Snap(), ptr) == old(DelMeasure(Snap(), ptr))
      ensures nodes == old(nodes) && key == old(key) && data == old(data)
    {
      ghost var a := Snap();
      DelNearNephewLeft(a, ptr);
      w := NearNephewLeftCase(ptr, sibling);
    }

    /** Cases 3 and 4 with `ptr` a left child: a RED nephew lets the round end the loop. */
    method FixLeftNephew(ptr: int, sibling: int) returns (next: int)
      requires Descending(Snap(), ptr) && left[parent[ptr]] == ptr && |data| == |key|
      requires sibling == right[parent[ptr]] && Linked(Snap(), sibling) && color[sibling] == BLACK
      requires color[left[sibling]] == RED || color[right[sibling]] == RED
      modifies this
      ensures DelInv(Snap(), next) && DelMeasure(Snap(), next) < old(DelMeasure(Snap(), ptr))
      ensures nodes == old(nodes) && key == old(key) && data == old(data)
    {
      var w := sibling;
      if IsBlack(right[w]) {
        w := FixLeftNear(ptr, w);
      }
      ghost var a1 := Snap();
      DelFarNephewLeft(a1, ptr);
      next := FarNephewLeftCase(ptr, w);
    }

    /**
     * One round of the loop with `ptr` a right child (tree.go:291-316), the
     * mirror image of FixLeft.  The sibling is read as the left child of
     * `ptr`'s parent; the source reads the left child of the deleted node's
     * parent instead (tree.go:292).
     */
    method FixRight(ptr: int) returns (next: int)
      requires Descending(Snap(), ptr) && right[parent[ptr]] == ptr && |data| == |key|
      modifies this
      ensures DelInv(Snap(), next) && DelMeasure(Snap(), next) < old(DelMeasure(Snap(), ptr))
      ensures nodes == old(nodes) && key == old(key) && data == old(data)
    {
      ghost var a := Snap();
      DescendFacts(a, ptr);
      var sibling := left[parent[ptr]];
      if IsRed(sibling) {
        DelRedSiblingRight(a, ptr);
        sibling := RedSiblingRightCase(ptr, sibling);
      }
      next := FixRightBlack(ptr, sibling);
    }

    /** The rest of the mirrored round once the sibling is BLACK. */
    method FixRightBlack(ptr: int, sibling: int) returns (next: int)
      requires Descending(Snap(), ptr) && right[parent[ptr]] == ptr && |data| == |key|
      requires sibling == left[parent[ptr]] && color[sibling] == BLACK
      modifies this
      ensures DelInv(Snap(), next) && DelMeasure(Snap(), next) < old(DelMeasure(Snap(), ptr))
      ensures nodes == old(nodes) && key == old(key) && data == old(data)
    {
      ghost var a := Snap();
      DescendFacts(a, ptr);
      if IsBlack(left[sibling]) && IsBlack(right[sibling]) {
        DelBlackNephews(a, ptr);
        next := BlackNephewsCase(ptr, sibling);
      } else {
        next := FixRightNephew(ptr, sibling);
      }
    }

    /** Case 3 with `ptr` a right child: afterwards the far nephew is RED, as case 4 needs. */
    method FixRightNear(ptr: int, sibling: int) returns (w: int)
      requires Descending(Snap(), ptr) && right[parent[ptr]] == ptr && |data| == |key|
      requires sibling == left[parent[ptr]] && Linked(Snap(), sibling) && color[sibling] == BLACK
      requires color[right[sibling]] == RED && color[left[sibling]] == BLACK
      modifies this
      ensures Descending(Snap(), ptr) && right[parent[ptr]] == ptr && |data| == |key|
      ensures w == left[parent[ptr]] && Linked(Snap(), w) && color[w] == BLACK && color[left[w]] == RED
      ensures DelMeasure(Snap(), ptr) == old(DelMeasure(Snap(), ptr))
      ensures nodes == old(nodes) && key == old(key) && data == old(data)
    {
      ghost var a := Snap();
      DelNearNephewRight(a, ptr);
      w := NearNephewRightCase(ptr, sibling);
    }

    /** Cases 3 and 4 with `ptr` a right child. */
    method FixRightNephew(ptr: int, sibling: int) returns (next: int)
      requires Descending(Snap(), ptr) && right[parent[ptr]] == ptr && |data| == |key|
      requires sibling == left[parent[ptr]] && Linked(Snap(), sibling) && color[sibling] == BLACK
      requires color[left[sibling]] == RED || color[right[sibling]] == RED
      modifies this
      ensures DelInv(Snap(), next) && DelMeasure(Snap(), next) < old(DelMeasure(Snap(), ptr))
      ensures nodes == old(nodes) && key == old(key) && data == old(data)
    {
      var w := sibling;
      if IsBlack(left[w]) {
        w := FixRightNear(ptr, w);
      }
      ghost var a1 := Snap();
      DelFarNephewRight(a1, ptr);
      next := FarNephewRightCase(ptr, w);
    }

    /** Case 1, left side (tree.go:267-272): the RED sibling turns BLACK, the parent RED, and the parent is rotated left. */
    method RedSiblingLeftCase(ptr: int, sibling: int) returns (next: int)
      requires Shaped(Snap()) && IsRef(Snap(), ptr) && Hangs(Snap(), ptr) && left[parent[ptr]] == ptr
      requires sibling == right[parent[ptr]] && Linked(Snap(), sibling)
      modifies this
      ensures Snap() == RedSiblingLeft(old(Snap()), ptr) && data == old(data)
      ensures next == right[parent[ptr]]
    {
      ghost var a := Snap();
      SetColor(sibling, BLACK);
      SetColor(parent[ptr], RED);
      Recolored(a, Snap());
      RotateLeft(parent[ptr]);
      next := right[parent[ptr]];
    }

    /** Case 1, right side (tree.go:293-298): the mirror image. */
    method RedSiblingRightCase(ptr: int, sibling: int) returns (next: int)
      requires Shaped(Snap()) && IsRef(Snap(), ptr) && Hangs(Snap(), ptr) && right[parent[ptr]] == ptr
      requires sibling == left[parent[ptr]] && Linked(Snap(), sibling)
      modifies this
      ensures Snap() == RedSiblingRight(old(Snap()), ptr) && data == old(data)
      ensures next == left[parent[ptr]]
    {
      ghost var a := Snap();
      SetColor(sibling, BLACK);
      SetColor(parent[ptr], RED);
      Recolored(a, Snap());
      RotateRight(parent[ptr]);
      next := left[parent[ptr]];
    }

    /**
     * Case 2, either side (tree.go:274-276, 300-302): the sibling turns RED
     * and the loop moves up to the parent, whose black height drops by one.
     */
    method BlackNephewsCase(ptr: int, sibling: int) returns (next: int)
      requires Shaped(Snap()) && IsRef(Snap(), ptr) && Hangs(Snap(), ptr) && sibling == Sib(Snap(), ptr)
      modifies this
      ensures Snap() == BlackNephews(old(Snap()), ptr) && data == old(data)
      ensures next == parent[ptr] == old(parent[ptr])
    {
      SetColor(sibling, RED);
      bh := bh[parent[ptr] := Lower(bh[parent[ptr]])];
      next := parent[ptr];
    }

    /** Case 3, left side (tree.go:278-283): the near nephew turns BLACK, the sibling RED, and the sibling is rotated right. */
    method NearNephewLeftCase(ptr: int, sibling: int) returns (next: int)
      requires Shaped(Snap()) && IsRef(Snap(), ptr) && Hangs(Snap(), ptr) && left[parent[ptr]] == ptr
      requires sibling == right[parent[ptr]] && Linked(Snap(), sibling) && Linked(Snap(), left[sibling])
      modifies this
      ensures Snap() == NearNephewLeft(old(Snap()), ptr) && data == old(data)
      ensures next == right[parent[ptr]]
    {
      ghost var a := Snap();
      SetColor(left[sibling], BLACK);
      SetColor(sibling, RED);
      Recolored(a, Snap());
      RotateRight(sibling);
      next := right[parent[ptr]];
    }

    /** Case 3, right side (tree.go:304-309): the mirror image. */
    method NearNephewRightCase(ptr: int, sibling: int) returns (next: int)
      requires Shaped(Snap()) && IsRef(Snap(), ptr) && Hangs(Snap(), ptr) && right[parent[ptr]] == ptr
      requires sibling == left[parent[ptr]] && Linked(Snap(), sibling) && Linked(Snap(), right[sibling])
      modifies this
      ensures Snap() == NearNephewRight(old(Snap()), ptr) && data == old(data)
      ensures next == left[parent[ptr]]
    {
      ghost var a := Snap();
      SetColor(right[sibling], BLACK);
      SetColor(sibling, RED);
      Recolored(a, Snap());
      RotateLeft(sibling);
      next := left[parent[ptr]];
    }

    /**
     * Case 4, left side (tree.go:285-289): the sibling takes the parent's
     * colour, the parent and the far nephew turn BLACK, the parent is
     * rotated left, and the loop ends at the root.
     */
    method FarNephewLeftCase(ptr: int, sibling: int) returns (next: int)
      requires Shaped(Snap()) && IsRef(Snap(), ptr) && Hangs(Snap(), ptr) && left[parent[ptr]] == ptr
      requires sibling == right[parent[ptr]] && Linked(Snap(), sibling)
      modifies this
      ensures Snap() == FarNephewLeft(old(Snap()), ptr) && data == old(data)
      ensures next == root
    {
      ghost var a := Snap();
      assert Linked(a, sibling);
      SetColor(sibling, color[parent[ptr]]);
      SetColor(parent[ptr], BLACK);
      SetColor(right[sibling], BLACK);
      bh := bh[parent[ptr] := Lower(bh[parent[ptr]])][sibling := bh[parent[ptr]]];
      Recolored(a, Snap());
      RotateLeft(parent[ptr]);
      next := root;
    }

    /** Case 4, right side (tree.go:311-315): the mirror image. */
    method FarNephewRightCase(ptr: int, sibling: int) returns (next: int)
      requires Shaped(Snap()) && IsRef(Snap(), ptr) && Hangs(Snap(), ptr) && right[parent[ptr]] == ptr
      requires sibling == left[parent[ptr]] && Linked(Snap(), sibling)
      modifies this
      ensures Snap() == FarNephewRight(old(Snap()), ptr) && data == old(data)
      ensures next == root
    {
      ghost var a := Snap();
      assert Linked(a, sibling);
      SetColor(sibling, color[parent[ptr]]);
      SetColor(parent[ptr], BLACK);
      SetColor(left[sibling], BLACK);
      bh := bh[parent[ptr] := Lower(bh[parent[ptr]])][sibling := bh[parent[ptr]]];
      Recolored(a, Snap());
      RotateRight(parent[ptr]);
      next := root;
    }
  }
}
