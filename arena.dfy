// The node model of the red-black tree: colours, the comparator, and the
// arena view of the linked nodes together with the invariants every public
// operation must keep.  Node i of the arena is the i-th node ever allocated;
// index 0 is the tree's own BLACK sentinel (`nilNode`), and -1 stands for a
// Go `nil` pointer.
module Nodes {

  /** Node colours; RED is the zero value, so a fresh node is RED. */
  datatype Color = RED | BLACK

  /** The Go `nil` pointer. */
  const Nil: int := -1
  /** The per-tree sentinel node. */
  const Sentinel: int := 0

  /** Comparator results; the engine tests `r == LESS` and `r == GREATER` only. */
  const LESS: int := -1
  const EQUAL: int := 0
  const GREATER: int := 1

  /** The default comparator on keys: a three-way comparison. */
  function Compare(a: int, b: int): (r: int)
    ensures r == LESS <==> a < b
    ensures r == GREATER <==> a > b
    ensures r == EQUAL <==> a == b
  {
    if a < b then LESS else if a > b then GREATER else EQUAL
  }

  /** Contribution of a node's colour to a black height. */
  function Blk(c: Color): (n: nat)
    ensures n == 1 <==> c == BLACK
    ensures n == 0 <==> c == RED
  {
    match c
    case BLACK => 1
    case RED => 0
  }

  /**
   * A snapshot of the arena.  `left`, `right`, `parent`, `color` and `key`
   * are the node fields; `root` is the tree's root pointer.  The last three
   * are bookkeeping: `nodes` is the set of nodes linked into the tree,
   * `sub[x]` the set of nodes in the subtree rooted at `x`, and `bh[x]` the
   * number of BLACK nodes on every path below `x` down to and including a
   * sentinel leaf.
   */
  datatype Arena = Arena(
    left: seq<int>, right: seq<int>, parent: seq<int>,
    color: seq<Color>, key: seq<int>, root: int,
    nodes: set<int>, sub: seq<set<int>>, bh: seq<nat>)

  ghost predicate Sized(a: Arena) {
    |a.left| == |a.right| == |a.parent| == |a.color| == |a.key| == |a.sub| == |a.bh| > 0
  }

  /**
   * Membership of a node in the tree.  The invariants below quantify over
   * linked nodes with this predicate as their only trigger, so that a proof
   * instantiates them exactly at the nodes it names.
   */
  ghost predicate Linked(a: Arena, x: int) {
    x in a.nodes
  }

  /** A link that stays inside the tree: the sentinel or a linked node. */
  ghost predicate IsRef(a: Arena, x: int) {
    0 <= x < |a.key| && (x == Sentinel || x in a.nodes)
  }

  /** The sentinel is BLACK, has Go-nil children and an empty subtree. */
  ghost predicate SentinelOk(a: Arena) {
    Sized(a) &&
    a.color[Sentinel] == BLACK && a.left[Sentinel] == Nil && a.right[Sentinel] == Nil &&
    a.sub[Sentinel] == {} && a.bh[Sentinel] == 0 &&
    Sentinel !in a.nodes &&
    forall x | x in a.nodes :: 0 < x < |a.key|
  }

  /** Children of linked nodes are linked nodes or the sentinel. */
  ghost predicate Closed(a: Arena)
    requires SentinelOk(a)
  {
    forall x {:trigger Linked(a, x)} | Linked(a, x) :: IsRef(a, a.left[x]) && IsRef(a, a.right[x])
  }

  /** Every real child points back at its parent. */
  ghost predicate DownLinks(a: Arena)
    requires SentinelOk(a) && Closed(a)
  {
    forall x {:trigger Linked(a, x)} | Linked(a, x) ::
      (a.left[x] != Sentinel ==> a.parent[a.left[x]] == x) &&
      (a.right[x] != Sentinel ==> a.parent[a.right[x]] == x)
  }

  /** Every linked node other than the root hangs below its parent. */
  ghost predicate UpLinks(a: Arena)
    requires SentinelOk(a)
  {
    forall x {:trigger Linked(a, x)} | Linked(a, x) && x != a.root ::
      0 < a.parent[x] < |a.key| && a.parent[x] in a.nodes &&
      (a.left[a.parent[x]] == x || a.right[a.parent[x]] == x)
  }

  /** `sub[x]` is `x` together with the two disjoint subtrees below it, none containing `x`. */
  ghost predicate SubtreeAt(a: Arena, x: int)
    requires SentinelOk(a) && Linked(a, x) && IsRef(a, a.left[x]) && IsRef(a, a.right[x])
  {
    a.sub[x] == {x} + a.sub[a.left[x]] + a.sub[a.right[x]] &&
    x !in a.sub[a.left[x]] && x !in a.sub[a.right[x]] &&
    a.sub[a.left[x]] !! a.sub[a.right[x]] &&
    a.sub[x] <= a.nodes
  }

  /** `sub` describes a tree. */
  ghost predicate Subtrees(a: Arena)
    requires SentinelOk(a) && Closed(a)
  {
    forall x {:trigger Linked(a, x)} | Linked(a, x) :: SubtreeAt(a, x)
  }

  /** The root is the sentinel (empty tree) or a node whose subtree is everything. */
  ghost predicate Rooted(a: Arena)
    requires SentinelOk(a)
  {
    IsRef(a, a.root) && a.sub[a.root] == a.nodes
  }

  /** The linked nodes form one binary tree whose parent links are consistent. */
  ghost predicate Shaped(a: Arena) {
    SentinelOk(a) && Closed(a) && DownLinks(a) && UpLinks(a) && Subtrees(a) && Rooted(a)
  }

  /** Search order at one node: keys on its left are smaller, keys on its right larger. */
  ghost predicate OrderedAt(a: Arena, x: int)
    requires Shaped(a) && Linked(a, x)
  {
    (forall y | y in a.sub[a.left[x]] :: a.key[y] < a.key[x]) &&
    (forall y | y in a.sub[a.right[x]] :: a.key[x] < a.key[y])
  }

  /** Binary-search-tree order at every node. */
  ghost predicate Ordered(a: Arena) {
    Shaped(a) &&
    forall x {:trigger Linked(a, x)} | Linked(a, x) :: OrderedAt(a, x)
  }

  /** The black height below `x` is the same through both of its children. */
  ghost predicate BalancedAt(a: Arena, x: int)
    requires Shaped(a) && Linked(a, x)
  {
    a.bh[x] == a.bh[a.left[x]] + Blk(a.color[a.left[x]]) &&
    a.bh[x] == a.bh[a.right[x]] + Blk(a.color[a.right[x]])
  }

  /** Equal black heights at every node. */
  ghost predicate Balanced(a: Arena) {
    Shaped(a) &&
    forall x {:trigger Linked(a, x)} | Linked(a, x) :: BalancedAt(a, x)
  }

  /** No RED node has a RED child. */
  ghost predicate NoRedRed(a: Arena) {
    Shaped(a) &&
    forall x {:trigger Linked(a, x)} | Linked(a, x) && a.color[x] == RED ::
      a.color[a.left[x]] == BLACK && a.color[a.right[x]] == BLACK
  }

  /** All red-black tree invariants. */
  ghost predicate RedBlack(a: Arena) {
    Shaped(a) && Ordered(a) && Balanced(a) && NoRedRed(a) && a.color[a.root] == BLACK
  }

  /** The keys stored in the tree. */
  ghost function Keys(a: Arena): set<int>
    requires SentinelOk(a)
  {
    set x | x in a.nodes :: a.key[x]
  }
}
