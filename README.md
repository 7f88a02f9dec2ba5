# Red-black tree engine (rbtree) in Dafny

This project models the red-black tree engine of the `rbtree` Go package:
- `tree.go`: `NewRBTree`, `Insert`, `InsertNode`, `insertBalance`, `Search`, `Delete`, `Min`, `Max`, `Leftmost`, `Rightmost` and `Next`;
- `rbnode.go`: node colours, `NewRBNode`, `Reset`, the node accessors, `SetColor`, `RotateLeft` and `RotateRight`.

The tree is an ordered map from keys to opaque data. It is built from linked nodes with `parent`, `left`, `right` and `color` fields. One BLACK sentinel node per tree stands for every absent child.

**How the Go pointers are modelled.** The class `RBTree.Tree` keeps them in an arena:
- node `i` is the i-th node ever allocated;
- each node field is a sequence indexed by node, and the class methods reassign those sequences;
- index 0 is the sentinel and -1 is the Go `nil` pointer.

Three ghost fields record what the node fields mean:
- `nodes`: the nodes linked into the tree;
- `sub`: the nodes of each subtree;
- `bh`: the black height each node is meant to have, which the invariant `Balanced` makes true.

**Invariants.** The datatype `Nodes.Arena` is a snapshot of the whole tree (`Tree.Snap()`). The invariants are predicates over it (`Nodes.RedBlack`):
- shape: children and parents point at each other, and `sub` describes one tree under `root`;
- search order;
- equal black heights;
- no RED node with a RED child;
- a BLACK root and a BLACK sentinel.

**How the methods are specified.** Each method that changes the tree states its new snapshot as a ghost function of the old one:
- `RotLeft`, `Recolor`, `Remove`, `Rename` and `Splice`;
- one function for each case of the two rebalancing loops.

Lemmas then prove that these functions keep the invariants, or move a loop invariant one step towards the end of the loop.

**Keys and comparison.** Keys are `int`, compared by the three-way comparison `Nodes.Compare`. As in the source, the result is only ever tested against `LESS` and `GREATER`.

## Model

| member | source | states |
|---|---|---|
| Nodes.Compare | rbnode.go:21-25 | the comparator returns LESS, GREATER or EQUAL exactly when the first key is smaller, larger or equal |
| RBTree.Tree.constructor | tree.go:15-24 | a new tree is empty: the root is the sentinel, the sentinel is BLACK, the tree holds no keys, and the invariants hold |
| RBTree.Tree.NewNode | rbnode.go:41-57 | a new node is appended with the given links, key and data and the zero colour RED; nothing already allocated changes |
| RBTree.Tree.Reset | rbnode.go:59-64 | exactly parent, left, right and colour of the node are overwritten; key and data stay |
| RBTree.Tree.SetColor | rbnode.go:126-128 | only the colour of the node changes |
| Rotation.Paint | rbnode.go:126-128 | the new colour is set at the node and every other colour is kept |
| RBTree.Tree.IsBlack | rbnode.go:110-112 | the sentinel always reads as BLACK |
| RBTree.Tree.IsRed | rbnode.go:114-116 | a node is RED exactly when it is not BLACK |
| RBTree.Tree.IsLeftChild | rbnode.go:118-120 | for a non-root node of a well-linked tree, it is a left child exactly when it is not its parent's right child |
| RBTree.Tree.IsRightChild | rbnode.go:122-124 | for a non-root node of a well-linked tree, it is a right child exactly when it is not its parent's left child |
| RBTree.Tree.Grandparent | rbnode.go:90-92 | the grandparent is a node of the tree that has the parent as a child |
| RBTree.Tree.Sibling | rbnode.go:102-108 | the sibling is the parent's other child: together they are the parent's two children |
| RBTree.Tree.Uncle | rbnode.go:94-100 | the uncle is the grandparent's other child: together with the parent they are the grandparent's two children |
| RBTree.Tree.RotateLeft | rbnode.go:136-157 | the new tree is the left rotation `RotLeft` of the old one, built field write by field write in the source's order; data is untouched |
| RBTree.Tree.RotateRight | rbnode.go:165-186 | the new tree is the mirror rotation `RotRight` of the old one; data is untouched |
| Rotation.RotLeftFields | rbnode.go:136-157 | the rotated node's right child takes its place under its old parent or as the root; it holds the rotated node on its left, and its inner child moves across. Every other node keeps its links |
| Rotation.RotLeftShaped | rbnode.go:136-157 | a left rotation keeps a well-linked tree with the same nodes, colours and keys, with the `bh` annotation carried over unchanged (a bare rotation does not keep the tree balanced; the rebalancing case lemmas re-establish that) |
| Rotation.RotLeftOrdered | rbnode.go:136-157 | a left rotation keeps the search order |
| Rotation.RotRightFields | rbnode.go:165-186 | the mirror of RotLeftFields for a right rotation |
| Rotation.RotRightShaped | rbnode.go:165-186 | a right rotation keeps a well-linked tree with the same nodes, colours and keys, with the `bh` annotation carried over unchanged (a bare rotation does not keep the tree balanced; the rebalancing case lemmas re-establish that) |
| Rotation.RotRightOrdered | rbnode.go:165-186 | a right rotation keeps the search order |
| Rotation.Recolored | rbnode.go:126-128 | changing colours and black heights of real nodes keeps the shape and the search order |
| Descent.DescendSound | tree.go:100-125 | the descent for a key ends at a node of the subtree holding the key, or at an empty child slot on the side where the key belongs. The second happens only when no node of the subtree holds the key |
| Descent.DescendPath | tree.go:106-119 | the slot the descent reaches has every ancestor on the correct side of the new key, so a leaf there keeps the search order |
| RBTree.Tree.BinaryInsert | tree.go:98-128 | a new node is made only when the key is absent. On a duplicate the tree is unchanged and the node holding the key is returned. Otherwise the new node is a RED leaf that adds exactly its key, and the insertion loop invariant holds at it |
| RBTree.Tree.HangLeaf | tree.go:106-118 | a RED leaf with the key and data is attached at the empty slot; the key set grows by exactly that key and the loop invariant holds at the leaf |
| Attach.LinkKeeps | tree.go:106-118 | linking a fresh leaf at an empty slot on the search path gives the insertion loop invariant at the leaf and adds exactly its key |
| Attach.PlantKeeps | tree.go:134-137 | a leaf made root of the empty tree and painted BLACK is a one-node red-black tree holding exactly its key |
| RBTree.Tree.Insert | tree.go:131-149 | Valid() is kept, and the key set afterwards is the old set plus the key. The returned node holds the key. ok holds exactly when the key was absent; on a duplicate nothing changes. Into an empty tree the new node is a BLACK root whose parent and children are the sentinel |
| RBTree.Tree.InsertBalance | tree.go:26-64 | from the insertion invariant, the loop ends and painting the root BLACK (tree.go:147) yields a red-black tree, with nodes, keys and data unchanged |
| RBTree.Tree.BalanceLeft | tree.go:28-44 | one iteration below a left-child parent keeps the insertion invariant and lowers the loop measure |
| RBTree.Tree.BalanceRight | tree.go:45-61 | the mirrored iteration keeps the invariant and lowers the measure |
| RBTree.Tree.PaintUp | tree.go:31-35 | the RED-uncle recolouring is the `Recolor` step; the cursor moves to the grandparent |
| RBTree.Tree.RotateLeftCase | tree.go:36-44 | the BLACK-uncle case below a left-child parent restores the invariant and stops the loop |
| RBTree.Tree.RotateRightCase | tree.go:53-61 | the mirrored BLACK-uncle case restores the invariant and stops the loop |
| RBTree.Tree.OuterLeftCase | tree.go:41-43 | recolour the parent BLACK and the grandparent RED, then rotate the grandparent right |
| RBTree.Tree.OuterRightCase | tree.go:58-60 | recolour the parent BLACK and the grandparent RED, then rotate the grandparent left |
| InsertFixup.InsertRecolor | tree.go:31-35 | the RED-uncle step keeps the insertion invariant with the cursor two levels up |
| InsertFixup.MeasureUp | tree.go:35 | moving the cursor up to the grandparent lowers the loop measure |
| InsertFixup.MeasureStops | tree.go:27 | a step after which the loop condition fails lowers the measure to zero |
| InsertFixup.InsertInnerLeft | tree.go:37-40 | rotating left at the parent turns the inner case into the outer one, the old parent becoming the cursor |
| InsertFixup.InsertOuterLeft | tree.go:41-43 | the outer case keeps the invariant and ends the loop |
| InsertFixup.InsertInnerRight | tree.go:54-57 | the mirrored inner case turns into the mirrored outer one |
| InsertFixup.InsertOuterRight | tree.go:58-60 | the mirrored outer case keeps the invariant and ends the loop |
| InsertFixup.InsertDone | tree.go:27 | when the loop condition fails, painting the root BLACK (tree.go:147) restores every red-black invariant |
| RBTree.Tree.InsertNode | tree.go:151-169 | like Insert, but links the caller's detached node: ok holds exactly when its key was absent, the key set grows by that key, and the returned node holds it |
| RBTree.Tree.BinaryInsertNode | tree.go:66-96 | the caller's node is linked only when its key is absent; on a duplicate nothing changes and the node holding the key is returned |
| RBTree.Tree.HangNode | tree.go:74-87 | the caller's node, reset to a RED leaf under the attach point, is linked at the empty slot; the key set grows by its key |
| Attach.LinkWithoutParent | tree.go:74-87 | linking a node whose parent field does not name the attach point, as the source does, leaves a child that does not point back at its parent |
| InsertFinding.InsertNodeStaleLinks | tree.go:151-169 | inserting a node made by NewRBNode with nil links below a lone root hangs it there with its nil parent and nil children, so the result is not a tree. The node is not the root, so the loop guard at tree.go:27 then reads the colour of its nil parent, where the source panics |
| RBTree.Tree.Search | tree.go:171-193 | returns nil exactly when the key is absent, and otherwise a node of the tree holding the key; nothing changes |
| RBTree.Tree.Min | tree.go:331-339 | the result is a node of the subtree with no left child whose key is the smallest in the subtree |
| RBTree.Tree.Max | tree.go:341-349 | the result is a node of the subtree with no right child whose key is the largest in the subtree |
| RBTree.Tree.Leftmost | tree.go:323-325 | in a non-empty tree, the node with the smallest key |
| RBTree.Tree.Rightmost | tree.go:327-329 | in a non-empty tree, the node with the largest key |
| Order.KeysDistinct | tree.go:88-92 | no two nodes of a search tree hold the same key |
| Order.SuccessorInRight | tree.go:352-354 | the smallest key of a non-empty right subtree is the next larger key of the tree |
| Order.SuccessorAbove | tree.go:356-358 | if `n` holds the largest key of a left child's subtree, that child's parent holds the next larger key |
| Order.AscendBelow | tree.go:356-358 | the climb through right-child links only reaches keys no larger than the start |
| RBTree.Tree.Next | tree.go:351-364 | as written: with a right subtree, the successor. Otherwise the node where the climb stops, whose key is no larger than `n`'s |
| Order.NextMissesSuccessor | tree.go:351-364 | in a valid two-node tree, the climb from a node without a right subtree returns that node itself, while its successor is its parent |
| RBTree.Tree.Successor | tree.go:351-364 | corrected Next: nil exactly when `n` holds the largest key, and otherwise the node with the next larger key |
| RBTree.Tree.Delete | tree.go:196-321 | Valid() is kept and keys and data are untouched. Deleting a linked node removes exactly it from the nodes and exactly its key from the key set; nil or the sentinel changes nothing |
| Removal.ChosenFacts | tree.go:201-211 | the node that leaves is `n` when it lacks a child, else the smallest node of its right subtree, which has no left child. Either way it is linked and has at most one child |
| Removal.UprootKeeps | tree.go:213-216 | removing a root with at most one child makes the child the root, painted BLACK; the result is a red-black tree holding the old keys minus `n`'s |
| RBTree.Tree.SpliceOut | tree.go:218-257 | the splice changes the tree into `Splice` of the old one: the chosen node is cut out and, if it is not `n`, takes over `n`'s place |
| RBTree.Tree.Unhook | tree.go:221-233 | the chosen node's slot in its parent takes `ptr`, and `ptr` gets the new parent: the `Remove` step |
| RBTree.Tree.Transplant | tree.go:234-256 | the successor takes over `n`'s children, parent, colour, root pointer or parent slot, and its children's parent links: the `Rename` step |
| RBTree.Tree.TakeOver | tree.go:235-238 | the successor copies `n`'s left, right, parent and colour |
| RBTree.Tree.SlotTo | tree.go:240-248 | the root pointer, or `n`'s slot in its parent chosen by IsLeftChild, now names the successor |
| RBTree.Tree.ChildrenTo | tree.go:250-256 | each real child of the successor points back at it |
| Removal.RenameInSteps | tree.go:234-256 | the three writes of TakeOver, SlotTo and ChildrenTo together are the renaming of `n` into the successor |
| Removal.SpliceSteps | tree.go:218-257 | the splice is the removal of the chosen node followed by the renaming, with `ptr`'s new parent as the source picks it |
| Removal.RemoveShaped | tree.go:220-226 | cutting out a node with at most one child keeps a well-linked tree |
| Removal.RemoveOrdered | tree.go:220-226 | cutting out a node with at most one child keeps the search order |
| Removal.RemoveRed | tree.go:219-226 | a RED node with at most one child is a leaf, and cutting it out leaves a red-black tree (the early return at tree.go:259-261) |
| Removal.RemoveBlack | tree.go:219-226 | cutting out a BLACK node leaves the invariant of the rebalancing loop at `ptr`: only paths through `ptr` lack one BLACK |
| Removal.RenameAfter | tree.go:227-256 | after the writes the successor stands where `n` stood: same children, parent, colour, black height and subtree, with `n` renamed; `ptr`'s parent follows the rename |
| Removal.RenamedShaped | tree.go:234-256 | renaming `n` into the successor keeps a well-linked tree |
| Removal.RenamedOrdered | tree.go:209-211 | given that the successor's key sits on the same side of every other key as `n`'s, renaming keeps the search order |
| Removal.RenamedRedBlack | tree.go:238 | renaming with the successor taking `n`'s colour keeps every red-black invariant |
| Removal.RenamedDelInv | tree.go:238 | renaming keeps the rebalancing loop's invariant at `ptr` |
| Removal.SpliceSameSide | tree.go:209-211 | the smallest key of the right subtree is on the same side of every other key as `n`'s key |
| Removal.SpliceRenamed | tree.go:227-256 | in the two-child case the splice is the renaming of the tree with the successor cut out, and `ptr`'s parent follows the renaming |
| Removal.SpliceNodes | tree.go:218-257 | the splice removes exactly `n` from the tree and leaves keys untouched |
| Removal.SpliceRed | tree.go:259-261 | when the removed node was RED, the spliced tree is already a red-black tree |
| Removal.SpliceBlack | tree.go:263 | when the removed node was BLACK, the spliced tree satisfies the loop invariant at `ptr` |
| Removal.SpliceKeeps | tree.go:218-261 | the splice removes exactly `n` and its key, keeps a well-linked tree, and leaves a red-black tree or the loop invariant |
| Removal.KeysWithout | tree.go:196-321 | in a search tree, removing a node removes exactly its key from the key set |
| RBTree.Tree.Rebalance | tree.go:263-320 | from the loop invariant, the loop ends and the final BLACK paint gives a red-black tree; nodes, keys and data are unchanged |
| DeleteFixup.DescendMeasure | tree.go:263 | `ptr`'s parent has a strictly larger subtree, so the loop measure drops when the loop moves up |
| DeleteFixup.DelDone | tree.go:320 | when the loop stops, painting `ptr` BLACK leaves a red-black tree |
| DeleteFixup.Sib | tree.go:265 | the sibling is the other child of `ptr`'s parent |
| RBTree.Tree.FixLeft | tree.go:264-290 | one iteration with `ptr` a left child keeps the loop invariant and lowers the measure |
| RBTree.Tree.FixLeftBlack | tree.go:274-290 | with a BLACK sibling, the rest of the iteration keeps the invariant and lowers the measure |
| RBTree.Tree.FixLeftNephew | tree.go:277-290 | with a RED nephew, cases 3 and 4 restore the balance and end the loop |
| RBTree.Tree.FixLeftNear | tree.go:278-283 | case 3 leaves a BLACK sibling with a RED far child, and the measure is unchanged |
| RBTree.Tree.FixRight | tree.go:291-317 | the mirror iteration, with the sibling read as `ptr`'s parent's left child, keeps the invariant and lowers the measure |
| RBTree.Tree.FixRightBlack | tree.go:300-316 | the mirror of FixLeftBlack |
| RBTree.Tree.FixRightNephew | tree.go:303-316 | the mirror of FixLeftNephew |
| RBTree.Tree.FixRightNear | tree.go:304-309 | the mirror of FixLeftNear |
| RBTree.Tree.RedSiblingLeftCase | tree.go:267-272 | case 1: the new tree is `RedSiblingLeft` of the old one, and the new sibling is read again |
| RBTree.Tree.RedSiblingRightCase | tree.go:293-298 | mirrored case 1: the new tree is `RedSiblingRight` of the old one |
| RBTree.Tree.BlackNephewsCase | tree.go:274-276 | case 2: the new tree is `BlackNephews` of the old one and `ptr` moves to its parent |
| RBTree.Tree.NearNephewLeftCase | tree.go:278-283 | case 3: the new tree is `NearNephewLeft` of the old one |
| RBTree.Tree.NearNephewRightCase | tree.go:304-309 | mirrored case 3: the new tree is `NearNephewRight` of the old one |
| RBTree.Tree.FarNephewLeftCase | tree.go:285-289 | case 4: the new tree is `FarNephewLeft` of the old one and `ptr` becomes the root |
| RBTree.Tree.FarNephewRightCase | tree.go:311-315 | mirrored case 4: the new tree is `FarNephewRight` of the old one and `ptr` becomes the root |
| DeleteFixup.DelRedSiblingLeft | tree.go:267-272 | case 1 keeps the loop invariant at the same `ptr` and the measure, and leaves a BLACK sibling |
| DeleteFixup.DelBlackNephews | tree.go:274-276 | case 2 moves the invariant to `ptr`'s parent, which lowers the measure, with nodes and keys unchanged |
| DeleteFixup.DelNearNephewLeft | tree.go:278-283 | case 3 keeps the invariant and leaves a BLACK sibling with a RED right child |
| DeleteFixup.DelFarNephewLeft | tree.go:285-289 | case 4 removes the deficit: the tree is balanced with no RED-RED below the root, so painting the root BLACK finishes |
| DeleteFixup.DelRedSiblingRight | tree.go:293-298 | mirrored case 1 keeps the invariant and leaves a BLACK sibling |
| DeleteFixup.DelNearNephewRight | tree.go:304-309 | mirrored case 3 keeps the invariant and leaves a BLACK sibling with a RED left child |
| DeleteFixup.DelFarNephewRight | tree.go:311-315 | mirrored case 4 removes the deficit |
| DeleteFinding.ThreeBlackValid | tree.go:196-211 | the three BLACK nodes 10, 20 and 30 form a red-black tree, and deleting the root 20 cuts out the BLACK successor 30, leaving the sentinel as `ptr` |
| DeleteFinding.ThreeBlackSplice | tree.go:218-257 | the splice of that deletion gives the tree with 30 at the root over 10 and an empty right side |
| DeleteFinding.MirrorSiblingMissed | tree.go:292 | there the loop takes the mirror branch with `ptr` one BLACK short, its real sibling node 10 a real node. The sibling read as written, the deleted node's parent's left child, is nil |

## Left out

- `print`, `Print`, `walk`, `Walk` and `Color.String` (tree.go:366-400, rbnode.go:14-19) are console output and a diagnostic visitor, so they are not modelled.
- `bst.go` is an unbalanced baseline that is not part of the engine, and is not part of this model.
- The plain getters (`Color`, `Left`, `Right`, `Key`, `Data`, `Parent`, rbnode.go:66-88) are read directly as field accesses.
- Keys are `int` with one fixed three-way comparison. The custom `Compare` function value and Go generics over `cmp.Ordered` are not modelled. Data is a type parameter the engine never inspects.
- Node identity is an arena index, and the arena never shrinks. A deleted node stays allocated with stale fields, as a Go node the caller still holds would.
- RBTree.Tree.Delete: requires `n` to be nil, the sentinel or a linked node of this tree. The source does not check membership (tree.go:196-199), and on a detached or foreign node it rewrites links it does not own.
- RBTree.Tree.Delete: in the root case (tree.go:213-216) the new root's parent keeps pointing at the deleted node, as in the source. The invariants never constrain the root's parent.
- RBTree.Tree.Min: requires a linked node. On the sentinel, the source follows the sentinel's nil left child and dereferences nil before its own check at tree.go:335 is reached. The same holds for Max, and for Leftmost and Rightmost on an empty tree.
- RBTree.Tree.InsertNode: resets the caller's node to (attach point, sentinel, sentinel, RED) with `Reset` before linking it. The source does neither; see Findings.
- RBTree.Tree.FixRight: reads the sibling as `ptr`'s parent's left child, not the deleted node's parent's left child as tree.go:292 does; see Findings.
- Rotation.RotLeftShaped: the promise that a rotation keeps the in-order key sequence is stated as the same nodes with the same keys plus a kept search order. Together these fix the in-order sequence, but no sequence is built.
- Go `nil` dereferences (panics) are not modelled as outcomes. Every method requires what keeps its reads in the tree, and the findings show the inputs on which the source reads through nil.

## Findings

| source | as written | input that shows it | evidently intended | confidence | as-written member | corrected member |
|---|---|---|---|---|---|---|
| tree.go:356-363 | when `n` has no right subtree, `Next` climbs through right-child links and returns the node where the climb stops | a root 20 with a RED left child 10: `Next(10)` returns 10 itself | return that node's parent, the in-order successor, or nil when the climb reaches the root | high, not executed | Order.NextMissesSuccessor | RBTree.Tree.Successor |
| tree.go:292 | the mirror branch reads the sibling as `n.parent.left`, where `n` is the deleted node | insert 20, 10, 30, 40, delete 40, then delete 20: `ptr` is the sentinel below 30, and `n.parent` is the sentinel, whose left is nil | `ptr.parent.left`, as tree.go:265 reads `ptr.parent.right` | high, not executed | DeleteFinding.MirrorSiblingMissed | RBTree.Tree.FixRight |
| tree.go:74-87 | `binaryInsertNode` stores the node in the empty slot but never sets the node's parent | inserting through `InsertNode` a node whose parent field is nil (from `NewRBNode(nil, nil, nil, k)`) or still names its parent from before a deletion, not the attach point | set the node's parent to the attach point, as `binaryInsert` does through `NewRBNode` | high, not executed | Attach.LinkWithoutParent | RBTree.Tree.HangNode |
| tree.go:151-169 | `InsertNode` links the node without resetting its children and colour | a node made by `NewRBNode(nil, nil, nil, 10)` inserted below a lone root 20 hangs there with nil children and a nil parent; `insertBalance` then dereferences that nil parent at tree.go:27 (`node.parent.IsRed()`) and panics | reset the node to sentinel children and RED first, with `Reset` (rbnode.go:59-64) | high, not executed | InsertFinding.InsertNodeStaleLinks | RBTree.Tree.InsertNode |
