// `InsertNode` (tree.go:151-169) links the caller's node as it is:
// `binaryInsertNode` (tree.go:75-87) stores it in the empty child slot but
// never points its parent field back at the attach point, and nothing resets
// its own children or colour.  A node built by `NewRBNode` with nil links, or
// one kept after `Delete`, therefore enters the tree with stale links.
module InsertFinding {
  import opened Nodes
  import opened Attach

  /** One BLACK node, key 20 in slot 2, and a detached RED node, key 10 in slot 1, whose links are all nil. */
  ghost function LoneRoot(): Arena
  {
    Arena([Nil, Nil, Sentinel], [Nil, Nil, Sentinel], [Nil, Nil, Sentinel],
          [BLACK, RED, BLACK], [0, 10, 20], 2, {2}, [{}, {}, {2}], [0, 0, 1])
  }

  /**
   * Linking node 1 below node 2 as tree.go:75-78 does keeps node 1's nil
   * links: its children are not the sentinel, so the result is no tree.  Node
   * 1 is not the root, so the guard of the fixup loop (tree.go:27) then asks
   * for the colour of its parent, which is nil: the source panics there.
   */
  lemma InsertNodeStaleLinks()
    ensures RedBlack(LoneRoot()) && 1 !in LoneRoot().nodes && LoneRoot().left[2] == Sentinel
    ensures var b := Link(LoneRoot(), 2, 1, true);
      Linked(b, 1) && 1 != b.root && b.parent[1] == Nil && b.left[1] == Nil && !Shaped(b)
  {
    var a := LoneRoot();
    forall x | Linked(a, x)
      ensures x == 2
    {
    }
    assert Shaped(a);
    var b := Link(a, 2, 1, true);
    assert Linked(b, 1) && !IsRef(b, b.left[1]);
  }
}
