// The two rotation primitives (rbnode.go, RotateLeft and RotateRight) as
// functions on an arena snapshot, and the facts that both fixup algorithms
// rely on: a rotation keeps the shape invariants and the search order, and
// changes no colour, key or node set.
module Rotation {
  import opened Nodes

  /** `n.SetColor(c)`: only `color[n]` changes. */
  function Paint(a: Arena, n: int, c: Color): (b: Arena)
    requires 0 <= n < |a.color|
    ensures |b.color| == |a.color| && b.color[n] == c
    ensures forall x | 0 <= x < |a.color| && x != n :: b.color[x] == a.color[x]
  {
    a.(color := a.color[n := c])
  }

  /**
   * Left rotation at `n`, one field write at a time in the order of the
   * source; `sub` is updated for the two nodes whose subtrees change.
   *
   *        |                      |
   *        n                      r
   *       / \                    / \
   *      l   r       ==>        n   rr
   *         / \                / \
   *        m   rr             l   m
   */
  ghost function RotLeft(a: Arena, n: int): Arena
    requires Shaped(a) && Linked(a, n) && Linked(a, a.right[n])
  {
    var r := a.right[n];
    var m := a.left[r];
    var right1 := a.right[n := m];
    var parent1 := if m != Sentinel then a.parent[m := n] else a.parent;
    var parent2 := parent1[r := parent1[n]];
    var isRoot := n == a.root;
    var q := parent2[n];
    var isLeft := !isRoot && assert Linked(a, a.parent[n]); a.left[q] == n;
    var left1 := if isLeft then a.left[q := r] else a.left;
    var right2 := if isRoot || isLeft then right1 else right1[q := r];
    Arena(left1[r := n], right2, parent2[n := r], a.color, a.key,
          if isRoot then r else a.root, a.nodes,
          a.sub[n := {n} + a.sub[a.left[n]] + a.sub[m]][r := a.sub[n]], a.bh)
  }

  /** Right rotation at `n`: the mirror image of `RotLeft`. */
  ghost function RotRight(a: Arena, n: int): Arena
    requires Shaped(a) && Linked(a, n) && Linked(a, a.left[n])
  {
    var l := a.left[n];
    var m := a.right[l];
    var left1 := a.left[n := m];
    var parent1 := if m != Sentinel then a.parent[m := n] else a.parent;
    var parent2 := parent1[l := parent1[n]];
    var isRoot := n == a.root;
    var q := parent2[n];
    var isRight := !isRoot && assert Linked(a, a.parent[n]); a.right[q] == n;
    var right1 := if isRight then a.right[q := l] else a.right;
    var left2 := if isRoot || isRight then left1 else left1[q := l];
    Arena(left2, right1[l := n], parent2[n := l], a.color, a.key,
          if isRoot then l else a.root, a.nodes,
          a.sub[n := {n} + a.sub[m] + a.sub[a.right[n]]][l := a.sub[n]], a.bh)
  }

  /** Changing colours and black heights (never the sentinel's) keeps the shape and the order. */
  lemma Recolored(a: Arena, b: Arena)
    requires Shaped(a)
    requires b.left == a.left && b.right == a.right && b.parent == a.parent && b.key == a.key
    requires b.root == a.root && b.nodes == a.nodes && b.sub == a.sub
    requires |b.color| == |a.color| && |b.bh| == |a.bh|
    requires b.color[Sentinel] == BLACK && b.bh[Sentinel] == 0
    ensures Shaped(b) && (Ordered(a) ==> Ordered(b))
  {
    forall x | Linked(b, x)
      ensures Linked(a, x)
    {
    }
  }

  /** Who is who around a left rotation at `n` in a well-shaped tree. */
  lemma RotLeftFacts(a: Arena, n: int)
    requires Shaped(a) && Linked(a, n) && Linked(a, a.right[n])
    ensures var r := a.right[n]; var m := a.left[r];
      r != n && r != a.root && a.parent[r] == n &&
      m != n && m != r && a.left[n] != r && IsRef(a, m) && IsRef(a, a.left[n]) &&
      a.sub[m] <= a.sub[r] && a.sub[r] <= a.sub[n] && a.sub[a.left[n]] <= a.sub[n] &&
      n !in a.sub[r] && r !in a.sub[m] && r !in a.sub[a.left[n]] &&
      (m != Sentinel ==> a.parent[m] == r && m in a.nodes && m != a.right[r]) &&
      a.right[r] != n && a.right[r] != r &&
      (n != a.root ==> Linked(a, a.parent[n]) && a.parent[n] != n && a.parent[n] != r && a.parent[n] != m &&
                       (a.left[a.parent[n]] == n || a.right[a.parent[n]] == n) &&
                       a.left[a.parent[n]] != a.right[a.parent[n]])
  {
    var r := a.right[n];
    assert Linked(a, n) && Linked(a, r);
    if a.root != Sentinel {
      assert Linked(a, a.root);
    }
    if a.left[r] != Sentinel {
      assert Linked(a, a.left[r]);
    }
    if n != a.root {
      assert Linked(a, a.parent[n]);
    }
  }

  /** `b` is `a` after a left rotation at `n`, described node by node. */
  ghost predicate LeftRotated(a: Arena, n: int, b: Arena)
    requires Shaped(a) && Linked(a, n) && Linked(a, a.right[n])
  {
    var r := a.right[n];
    var m := a.left[r];
    var q := a.parent[n];
    var isRoot := n == a.root;
    var isLeft := !isRoot && assert Linked(a, q); a.left[q] == n;
    |b.left| == |b.right| == |b.parent| == |b.sub| == |a.key| &&
    b.color == a.color && b.key == a.key && b.bh == a.bh && b.nodes == a.nodes &&
    b.root == (if isRoot then r else a.root) &&
    (forall x | 0 <= x < |a.key| ::
      b.left[x] == (if x == r then n else if isLeft && x == q then r else a.left[x])) &&
    (forall x | 0 <= x < |a.key| ::
      b.right[x] == (if x == n then m else if !isRoot && !isLeft && x == q then r else a.right[x])) &&
    (forall x | 0 <= x < |a.key| ::
      b.parent[x] == (if x == n then r else if x == r then q else if x == m && m != Sentinel then n else a.parent[x])) &&
    (forall x | 0 <= x < |a.key| ::
      b.sub[x] == (if x == r then a.sub[n] else if x == n then {n} + a.sub[a.left[n]] + a.sub[m] else a.sub[x]))
  }

  lemma RotLeftFields(a: Arena, n: int)
    requires Shaped(a) && Linked(a, n) && Linked(a, a.right[n])
    ensures LeftRotated(a, n, RotLeft(a, n))
  {
    RotLeftFacts(a, n);
  }

  lemma LeftRotatedSentinel(a: Arena, n: int, b: Arena)
    requires Shaped(a) && Linked(a, n) && Linked(a, a.right[n]) && LeftRotated(a, n, b)
    ensures SentinelOk(b) && Closed(b)
  {
    RotLeftFacts(a, n);
    forall x | Linked(b, x)
      ensures 0 < x < |b.key| && IsRef(b, b.left[x]) && IsRef(b, b.right[x])
    {
      assert Linked(a, x);
    }
  }

  lemma LeftRotatedDown(a: Arena, n: int, b: Arena)
    requires Shaped(a) && Linked(a, n) && Linked(a, a.right[n]) && LeftRotated(a, n, b)
    requires SentinelOk(b) && Closed(b)
    ensures DownLinks(b)
  {
    RotLeftFacts(a, n);
    var r := a.right[n];
    var m := a.left[r];
    forall x | Linked(b, x)
      ensures b.left[x] != Sentinel ==> b.parent[b.left[x]] == x
      ensures b.right[x] != Sentinel ==> b.parent[b.right[x]] == x
    {
      assert Linked(a, x);
      if x == n {
        assert b.left[x] == a.left[n] && b.right[x] == m;
      } else if x == r {
        assert b.left[x] == n && b.right[x] == a.right[r];
        assert a.right[r] != Sentinel ==> b.parent[a.right[r]] == r;
      } else if n != a.root && x == a.parent[n] {
        assert b.right[x] != Sentinel ==> b.parent[b.right[x]] == x;
      } else {
        assert b.left[x] == a.left[x] && b.right[x] == a.right[x];
        assert a.left[x] != n && a.right[x] != n;
      }
    }
  }

  lemma LeftRotatedUp(a: Arena, n: int, b: Arena)
    requires Shaped(a) && Linked(a, n) && Linked(a, a.right[n]) && LeftRotated(a, n, b)
    requires SentinelOk(b) && Closed(b)
    ensures UpLinks(b)
  {
    RotLeftFacts(a, n);
    var r := a.right[n];
    var m := a.left[r];
    forall x | Linked(b, x) && x != b.root
      ensures 0 < b.parent[x] < |b.key| && b.parent[x] in b.nodes
      ensures b.left[b.parent[x]] == x || b.right[b.parent[x]] == x
    {
      assert Linked(a, x);
      if x == n {
      } else if x == r {
      } else if x == m {
      } else {
        var p := a.parent[x];
        assert x != a.root;
        assert b.parent[x] == p;
        assert Linked(a, p);
      }
    }
  }

  lemma LeftRotatedSubtrees(a: Arena, n: int, b: Arena)
    requires Shaped(a) && Linked(a, n) && Linked(a, a.right[n]) && LeftRotated(a, n, b)
    requires SentinelOk(b) && Closed(b)
    ensures Subtrees(b) && Rooted(b)
  {
    RotLeftFacts(a, n);
    forall x | Linked(b, x)
      ensures SubtreeAt(b, x)
    {
      LeftRotatedSubAt(a, n, b, x);
    }
  }

  lemma LeftRotatedSubAt(a: Arena, n: int, b: Arena, x: int)
    requires Shaped(a) && Linked(a, n) && Linked(a, a.right[n]) && LeftRotated(a, n, b)
    requires SentinelOk(b) && Closed(b) && x in b.nodes
    ensures SubtreeAt(b, x)
  {
    RotLeftFacts(a, n);
    var r := a.right[n];
    var l, m, rr := a.left[n], a.left[r], a.right[r];
    assert Linked(a, x) && Linked(a, n) && Linked(a, r);
    assert SubtreeAt(a, x);
    if x == n {
      assert SubtreeAt(a, r);
      assert b.left[n] == l && b.right[n] == m;
      assert b.sub[l] == a.sub[l] && b.sub[m] == a.sub[m];
      SplitNew(n, a.sub[l], a.sub[r], r, a.sub[m], a.sub[rr]);
    } else if x == r {
      assert SubtreeAt(a, n);
      assert b.left[r] == n && b.right[r] == rr;
      assert b.sub[rr] == a.sub[rr];
      SplitNew(n, a.sub[l], a.sub[r], r, a.sub[m], a.sub[rr]);
    } else {
      assert b.sub[b.left[x]] == a.sub[a.left[x]];
      assert b.sub[b.right[x]] == a.sub[a.right[x]];
    }
  }

  /** Who is who around a right rotation at `n` in a well-shaped tree. */
  lemma RotRightFacts(a: Arena, n: int)
    requires Shaped(a) && Linked(a, n) && Linked(a, a.left[n])
    ensures var r := a.left[n]; var m := a.right[r];
      r != n && r != a.root && a.parent[r] == n &&
      m != n && m != r && a.right[n] != r && IsRef(a, m) && IsRef(a, a.right[n]) &&
      a.sub[m] <= a.sub[r] && a.sub[r] <= a.sub[n] && a.sub[a.right[n]] <= a.sub[n] &&
      n !in a.sub[r] && r !in a.sub[m] && r !in a.sub[a.right[n]] &&
      (m != Sentinel ==> a.parent[m] == r && m in a.nodes && m != a.left[r]) &&
      a.left[r] != n && a.left[r] != r &&
      (n != a.root ==> Linked(a, a.parent[n]) && a.parent[n] != n && a.parent[n] != r && a.parent[n] != m &&
                       (a.right[a.parent[n]] == n || a.left[a.parent[n]] == n) &&
                       a.right[a.parent[n]] != a.left[a.parent[n]])
  {
    var r := a.left[n];
    assert Linked(a, n) && Linked(a, r);
    if a.root != Sentinel {
      assert Linked(a, a.root);
    }
    if a.right[r] != Sentinel {
      assert Linked(a, a.right[r]);
    }
    if n != a.root {
      assert Linked(a, a.parent[n]);
    }
  }

  /** `b` is `a` after a right rotation at `n`, described node by node. */
  ghost predicate RightRotated(a: Arena, n: int, b: Arena)
    requires Shaped(a) && Linked(a, n) && Linked(a, a.left[n])
  {
    var r := a.left[n];
    var m := a.right[r];
    var q := a.parent[n];
    var isRoot := n == a.root;
    var isRight := !isRoot && assert Linked(a, q); a.right[q] == n;
    |b.right| == |b.left| == |b.parent| == |b.sub| == |a.key| &&
    b.color == a.color && b.key == a.key && b.bh == a.bh && b.nodes == a.nodes &&
    b.root == (if isRoot then r else a.root) &&
    (forall x | 0 <= x < |a.key| ::
      b.right[x] == (if x == r then n else if isRight && x == q then r else a.right[x])) &&
    (forall x | 0 <= x < |a.key| ::
      b.left[x] == (if x == n then m else if !isRoot && !isRight && x == q then r else a.left[x])) &&
    (forall x | 0 <= x < |a.key| ::
      b.parent[x] == (if x == n then r else if x == r then q else if x == m && m != Sentinel then n else a.parent[x])) &&
    (forall x | 0 <= x < |a.key| ::
      b.sub[x] == (if x == r then a.sub[n] else if x == n then {n} + a.sub[m] + a.sub[a.right[n]] else a.sub[x]))
  }

  lemma RotRightFields(a: Arena, n: int)
    requires Shaped(a) && Linked(a, n) && Linked(a, a.left[n])
    ensures RightRotated(a, n, RotRight(a, n))
  {
    RotRightFacts(a, n);
  }

  lemma RightRotatedSentinel(a: Arena, n: int, b: Arena)
    requires Shaped(a) && Linked(a, n) && Linked(a, a.left[n]) && RightRotated(a, n, b)
    ensures SentinelOk(b) && Closed(b)
  {
    RotRightFacts(a, n);
    forall x | Linked(b, x)
      ensures 0 < x < |b.key| && IsRef(b, b.right[x]) && IsRef(b, b.left[x])
    {
      assert Linked(a, x);
    }
  }

  lemma RightRotatedDown(a: Arena, n: int, b: Arena)
    requires Shaped(a) && Linked(a, n) && Linked(a, a.left[n]) && RightRotated(a, n, b)
    requires SentinelOk(b) && Closed(b)
    ensures DownLinks(b)
  {
    RotRightFacts(a, n);
    var r := a.left[n];
    var m := a.right[r];
    forall x | Linked(b, x)
      ensures b.right[x] != Sentinel ==> b.parent[b.right[x]] == x
      ensures b.left[x] != Sentinel ==> b.parent[b.left[x]] == x
    {
      assert Linked(a, x);
      if x == n {
        assert b.right[x] == a.right[n] && b.left[x] == m;
      } else if x == r {
        assert b.right[x] == n && b.left[x] == a.left[r];
        assert a.left[r] != Sentinel ==> b.parent[a.left[r]] == r;
      } else if n != a.root && x == a.parent[n] {
        assert b.left[x] != Sentinel ==> b.parent[b.left[x]] == x;
      } else {
        assert b.right[x] == a.right[x] && b.left[x] == a.left[x];
        assert a.right[x] != n && a.left[x] != n;
      }
    }
  }

  lemma RightRotatedUp(a: Arena, n: int, b: Arena)
    requires Shaped(a) && Linked(a, n) && Linked(a, a.left[n]) && RightRotated(a, n, b)
    requires SentinelOk(b) && Closed(b)
    ensures UpLinks(b)
  {
    RotRightFacts(a, n);
    var r := a.left[n];
    var m := a.right[r];
    forall x | Linked(b, x) && x != b.root
      ensures 0 < b.parent[x] < |b.key| && b.parent[x] in b.nodes
      ensures b.right[b.parent[x]] == x || b.left[b.parent[x]] == x
    {
      assert Linked(a, x);
      if x == n {
      } else if x == r {
      } else if x == m {
      } else {
        var p := a.parent[x];
        assert x != a.root;
        assert b.parent[x] == p;
        assert Linked(a, p);
      }
    }
  }

  lemma RightRotatedSubtrees(a: Arena, n: int, b: Arena)
    requires Shaped(a) && Linked(a, n) && Linked(a, a.left[n]) && RightRotated(a, n, b)
    requires SentinelOk(b) && Closed(b)
    ensures Subtrees(b) && Rooted(b)
  {
    RotRightFacts(a, n);
    forall x | Linked(b, x)
      ensures SubtreeAt(b, x)
    {
      RightRotatedSubAt(a, n, b, x);
    }
  }

  lemma RightRotatedSubAt(a: Arena, n: int, b: Arena, x: int)
    requires Shaped(a) && Linked(a, n) && Linked(a, a.left[n]) && RightRotated(a, n, b)
    requires SentinelOk(b) && Closed(b) && x in b.nodes
    ensures SubtreeAt(b, x)
  {
    RotRightFacts(a, n);
    var r := a.left[n];
    var l, m, rr := a.right[n], a.right[r], a.left[r];
    assert Linked(a, x) && Linked(a, n) && Linked(a, r);
    assert SubtreeAt(a, x);
    if x == n {
      assert SubtreeAt(a, r);
      assert b.right[n] == l && b.left[n] == m;
      assert b.sub[l] == a.sub[l] && b.sub[m] == a.sub[m];
      SplitNewMirror(n, a.sub[l], a.sub[r], r, a.sub[m], a.sub[rr]);
    } else if x == r {
      assert SubtreeAt(a, n);
      assert b.right[r] == n && b.left[r] == rr;
      assert b.sub[rr] == a.sub[rr];
      SplitNewMirror(n, a.sub[l], a.sub[r], r, a.sub[m], a.sub[rr]);
    } else {
      assert b.sub[b.right[x]] == a.sub[a.right[x]];
      assert b.sub[b.left[x]] == a.sub[a.left[x]];
    }
  }

  /** Set algebra of a rotation: regrouping `n (l) (r (m) (rr))` as `r (n (l) (m)) (rr)`. */
  lemma SplitNew(n: int, sl: set<int>, sr: set<int>, r: int, sm: set<int>, srr: set<int>)
    requires sr == {r} + sm + srr && r !in sm && r !in srr && sm !! srr
    requires n !in sl && n !in sr && sl !! sr
    ensures n !in sm && sl !! sm && r != n && r !in sl
    ensures {n} + sl + sr == {r} + ({n} + sl + sm) + srr
    ensures r !in {n} + sl + sm && ({n} + sl + sm) !! srr
  {
  }

  /** A left rotation keeps the tree a tree and its node set unchanged. */
  lemma RotLeftShaped(a: Arena, n: int)
    requires Shaped(a) && Linked(a, n) && Linked(a, a.right[n])
    ensures Shaped(RotLeft(a, n))
    ensures RotLeft(a, n).nodes == a.nodes && RotLeft(a, n).color == a.color
    ensures RotLeft(a, n).key == a.key && RotLeft(a, n).bh == a.bh
  {
    var b := RotLeft(a, n);
    RotLeftFields(a, n);
    LeftRotatedSentinel(a, n, b);
    LeftRotatedDown(a, n, b);
    LeftRotatedUp(a, n, b);
    LeftRotatedSubtrees(a, n, b);
  }

  /** A left rotation keeps the search order. */
  lemma RotLeftOrdered(a: Arena, n: int)
    requires Ordered(a) && Linked(a, n) && Linked(a, a.right[n])
    ensures Ordered(RotLeft(a, n))
  {
    var b := RotLeft(a, n);
    RotLeftShaped(a, n);
    RotLeftFields(a, n);
    forall x | Linked(b, x)
      ensures OrderedAt(b, x)
    {
      LeftRotatedOrderedAt(a, n, b, x);
    }
  }

  lemma LeftRotatedOrderedAt(a: Arena, n: int, b: Arena, x: int)
    requires Ordered(a) && Linked(a, n) && Linked(a, a.right[n]) && LeftRotated(a, n, b)
    requires Shaped(b) && Linked(b, x)
    ensures OrderedAt(b, x)
  {
    RotLeftFacts(a, n);
    var r := a.right[n];
    var l, m, rr := a.left[n], a.left[r], a.right[r];
    assert Linked(a, x) && Linked(a, n) && Linked(a, r);
    assert OrderedAt(a, x);
    if x == n {
      assert b.left[n] == l && b.right[n] == m;
      assert b.sub[l] == a.sub[l] && b.sub[m] == a.sub[m];
    } else if x == r {
      assert OrderedAt(a, n) && SubtreeAt(a, r);
      assert b.left[r] == n && b.right[r] == rr;
      assert b.sub[rr] == a.sub[rr];
    } else {
      assert b.sub[b.left[x]] == a.sub[a.left[x]];
      assert b.sub[b.right[x]] == a.sub[a.right[x]];
    }
  }

  /** A right rotation keeps the tree a tree and its node set unchanged. */
  lemma RotRightShaped(a: Arena, n: int)
    requires Shaped(a) && Linked(a, n) && Linked(a, a.left[n])
    ensures Shaped(RotRight(a, n))
    ensures RotRight(a, n).nodes == a.nodes && RotRight(a, n).color == a.color
    ensures RotRight(a, n).key == a.key && RotRight(a, n).bh == a.bh
  {
    var b := RotRight(a, n);
    RotRightFields(a, n);
    RightRotatedSentinel(a, n, b);
    RightRotatedDown(a, n, b);
    RightRotatedUp(a, n, b);
    RightRotatedSubtrees(a, n, b);
  }

  /** A right rotation keeps the search order. */
  lemma RotRightOrdered(a: Arena, n: int)
    requires Ordered(a) && Linked(a, n) && Linked(a, a.left[n])
    ensures Ordered(RotRight(a, n))
  {
    var b := RotRight(a, n);
    RotRightShaped(a, n);
    RotRightFields(a, n);
    forall x | Linked(b, x)
      ensures OrderedAt(b, x)
    {
      RightRotatedOrderedAt(a, n, b, x);
    }
  }

  lemma RightRotatedOrderedAt(a: Arena, n: int, b: Arena, x: int)
    requires Ordered(a) && Linked(a, n) && Linked(a, a.left[n]) && RightRotated(a, n, b)
    requires Shaped(b) && Linked(b, x)
    ensures OrderedAt(b, x)
  {
    RotRightFacts(a, n);
    var r := a.left[n];
    var l, m, rr := a.right[n], a.right[r], a.left[r];
    assert Linked(a, x) && Linked(a, n) && Linked(a, r);
    assert OrderedAt(a, x);
    if x == n {
      assert b.right[n] == l && b.left[n] == m;
      assert b.sub[l] == a.sub[l] && b.sub[m] == a.sub[m];
    } else if x == r {
      assert OrderedAt(a, n) && SubtreeAt(a, r);
      assert b.right[r] == n && b.left[r] == rr;
      assert b.sub[rr] == a.sub[rr];
    } else {
      assert b.sub[b.right[x]] == a.sub[a.right[x]];
      assert b.sub[b.left[x]] == a.sub[a.left[x]];
    }
  }

  /** The same regrouping for a right rotation: `n (l (ll) (m)) (r)` as `l (ll) (n (m) (r))`. */
  lemma SplitNewMirror(n: int, sr: set<int>, sl: set<int>, l: int, sm: set<int>, sll: set<int>)
    requires sl == {l} + sll + sm && l !in sm && l !in sll && sm !! sll
    requires n !in sl && n !in sr && sl !! sr
    ensures n !in sm && sr !! sm && l != n && l !in sr
    ensures {n} + sl + sr == {l} + sll + ({n} + sm + sr)
    ensures l !in {n} + sm + sr && ({n} + sm + sr) !! sll
  {
  }
}
