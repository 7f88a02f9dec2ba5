// The mirror branch of the rebalancing loop reads the sibling of `ptr` as
// the left child of the deleted node's parent (tree.go:292) instead of the
// left child of `ptr`'s own parent, as its twin at tree.go:265 does.  The two
// agree while `subst` is the deleted node, but not once `subst` has moved
// into the deleted node's place.
module DeleteFinding {
  import opened Nodes
  import opened DeleteFixup
  import opened Removal

  /** The sibling as tree.go:292 reads it: the left child of the parent of the deleted node `n`. */
  ghost function MirrorSiblingAsWritten(a: Arena, n: int): int
    requires Sized(a) && 0 <= n < |a.key| && 0 <= a.parent[n] < |a.key|
  {
    a.left[a.parent[n]]
  }

  /**
   * Three BLACK nodes: the root 20 (slot 2) over 10 (slot 1) and 30 (slot
   * 3), which inserting 20, 10, 30, 40 and deleting 40 leaves behind.  The
   * root's parent is the sentinel, as Insert sets it, and the sentinel's
   * parent is 30, left there by the deletion of 40.
   */
  ghost function ThreeBlack(): Arena
  {
    Arena([Nil, Sentinel, 1, Sentinel], [Nil, Sentinel, 3, Sentinel], [3, 2, Sentinel, 2],
          [BLACK, BLACK, BLACK, BLACK], [0, 10, 20, 30], 2, {1, 2, 3},
          [{}, {1}, {1, 2, 3}, {3}], [0, 1, 2, 1])
  }

  /** What deleting 20 leaves before the loop: 30 in slot 3 is the root, over 10 and an empty right side. */
  ghost function ThreeAfter(): Arena
  {
    Arena([Nil, Sentinel, 1, 1], [Nil, Sentinel, Sentinel, Sentinel], [3, 3, Sentinel, Sentinel],
          [BLACK, BLACK, BLACK, BLACK], [0, 10, 20, 30], 3, {1, 3},
          [{}, {1}, {1, 3}, {1, 3}], [0, 1, 2, 2])
  }

  /** The three-node tree is well linked, and its linked slots are exactly 1, 2 and 3. */
  lemma ThreeBlackShaped()
    ensures Shaped(ThreeBlack())
    ensures forall x | Linked(ThreeBlack(), x) :: x == 1 || x == 2 || x == 3
  {
    var a := ThreeBlack();
    forall x | Linked(a, x)
      ensures x == 1 || x == 2 || x == 3
    {
    }
    assert Shaped(a);
  }

  /** The three-node tree is a red-black tree, and deleting its root cuts out the BLACK node 30. */
  lemma ThreeBlackValid()
    ensures RedBlack(ThreeBlack()) && Linked(ThreeBlack(), 2) && Chosen(ThreeBlack(), 2, 3)
    ensures ThreeBlack().color[3] == BLACK && Ptr(ThreeBlack(), 3) == Sentinel
  {
    var a := ThreeBlack();
    ThreeBlackShaped();
    ThreeBlackOrdered();
    assert Chosen(a, 2, 3);
  }

  /** The keys 10, 20 and 30 sit in search-tree order. */
  lemma ThreeBlackOrdered()
    ensures Shaped(ThreeBlack()) && Ordered(ThreeBlack())
  {
    var a := ThreeBlack();
    ThreeBlackShaped();
    forall x | Linked(a, x)
      ensures OrderedAt(a, x)
    {
      assert x == 1 || x == 2 || x == 3;
    }
  }

  /** The splice of tree.go:218-257 on the three-node tree, field by field. */
  lemma ThreeBlackSplice()
    ensures RedBlack(ThreeBlack()) && Linked(ThreeBlack(), 2) && Chosen(ThreeBlack(), 2, 3)
    ensures Splice(ThreeBlack(), 2, 3) == ThreeAfter()
  {
    ThreeBlackValid();
    var a := ThreeBlack();
    var x := Remove(a, 3, 3);
    assert x.left == [Nil, Sentinel, 1, Sentinel];
    assert x.right == [Nil, Sentinel, Sentinel, Sentinel];
    assert x.parent == [3, 2, Sentinel, 2];
    assert |x.sub| == 4 && x.sub[0] == {} && x.sub[1] == {1} && x.sub[3] == {};
    assert x.sub[2] == {1, 2};
    assert x.sub == [{}, {1}, {1, 2}, {}];
    var b := Rename(x, 2, 3);
    assert |b.sub| == 4 && b.sub[0] == {} && b.sub[1] == {1};
    assert b.sub[2] == {1, 3} && b.sub[3] == {1, 3};
    assert b.sub == [{}, {1}, {1, 3}, {1, 3}];
  }

  /**
   * Deleting the root 20 moves 30 into its place and leaves the sentinel as
   * `ptr`, a right child one BLACK short.  The loop takes the mirror branch,
   * where the sibling is node 1, but the source reads the left child of the
   * sentinel, a nil pointer, and calls IsRed on it.
   */
  lemma MirrorSiblingMissed()
    ensures RedBlack(ThreeBlack()) && Linked(ThreeBlack(), 2) && Chosen(ThreeBlack(), 2, 3)
    ensures ThreeBlack().color[3] == BLACK && Ptr(ThreeBlack(), 3) == Sentinel
    ensures var b := Splice(ThreeBlack(), 2, 3);
      DelInv(b, Sentinel) && Sentinel != b.root && b.color[Sentinel] == BLACK &&
      b.left[b.parent[Sentinel]] != Sentinel && Sib(b, Sentinel) == 1 &&
      MirrorSiblingAsWritten(b, 2) == Nil
  {
    ThreeBlackValid();
    ThreeBlackSplice();
    SpliceKeeps(ThreeBlack(), 2, 3);
  }
}
