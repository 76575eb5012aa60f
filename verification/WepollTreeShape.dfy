/** Shapes of the red-black tree of wepoll.c, seen as values.

    A shape records which node sits where; a zipper is a path from a position up to the root together with
    the subtrees hanging off that path, so that a loop that works its way up or down the tree can name both
    the subtree it stands on and everything else. */
module WepollTreeShape {

  // Keys are uintptr_t values.
  const KEY_LIMIT: int := 0x1_0000_0000_0000_0000
  type Key = k: int | 0 <= k < KEY_LIMIT

  class Node {
    var left: Node?
    var right: Node?
    var parent: Node?
    var key: Key
    var red: bool

    // tree_node_init
    constructor ()
      ensures left == null && right == null && parent == null && key == 0 && !red
    {
      left, right, parent, key, red := null, null, null, 0, false;
    }
  }

  // The fields of a node, and the fields of every node of interest.
  datatype Cell = Cell(left: Node?, right: Node?, parent: Node?, key: Key, red: bool)
  type Memory = map<Node, Cell>

  datatype Shape = Nil | Br(left: Shape, node: Node, key: Key, red: bool, right: Shape)

  // The hole is the left (right) child of node; up is the path above node.
  datatype Zip =
    | Top
    | InLeft(node: Node, key: Key, red: bool, up: Zip, right: Shape)
    | InRight(left: Shape, node: Node, key: Key, red: bool, up: Zip)

  ghost function Plug(z: Zip, t: Shape): Shape {
    match z
    case Top => t
    case InLeft(n, k, c, u, r) => Plug(u, Br(t, n, k, c, r))
    case InRight(l, n, k, c, u) => Plug(u, Br(l, n, k, c, t))
  }

  /** The subtree one level up. */
  ghost function Fill(z: Zip, t: Shape): Shape
    requires !z.Top?
  {
    match z
    case InLeft(n, k, c, _, r) => Br(t, n, k, c, r)
    case InRight(l, n, k, c, _) => Br(l, n, k, c, t)
  }

  ghost function Sibling(z: Zip): Shape
    requires !z.Top?
  {
    match z
    case InLeft(_, _, _, _, r) => r
    case InRight(l, _, _, _, _) => l
  }

  ghost function Blackened(t: Shape): Shape {
    if t.Br? then t.(red := false) else t
  }

  /** The path z with the colour of its first node changed. */
  ghost function Paint(z: Zip, c: bool): Zip {
    match z
    case Top => Top
    case InLeft(n, k, _, u, r) => InLeft(n, k, c, u, r)
    case InRight(l, n, k, _, u) => InRight(l, n, k, c, u)
  }

  /** The path z continued by the path base. */
  ghost function Append(z: Zip, base: Zip): Zip {
    match z
    case Top => base
    case InLeft(n, k, c, u, r) => InLeft(n, k, c, Append(u, base), r)
    case InRight(l, n, k, c, u) => InRight(l, n, k, c, Append(u, base))
  }

  // ----- Nodes: no node occurs twice

  ghost function Nodes(t: Shape): set<Node> {
    match t
    case Nil => {}
    case Br(l, n, _, _, r) => Nodes(l) + {n} + Nodes(r)
  }

  ghost function ZipNodes(z: Zip): set<Node> {
    match z
    case Top => {}
    case InLeft(n, _, _, u, t) => {n} + Nodes(t) + ZipNodes(u)
    case InRight(t, n, _, _, u) => {n} + Nodes(t) + ZipNodes(u)
  }

  ghost predicate Apart(t: Shape) {
    match t
    case Nil => true
    case Br(l, n, _, _, r) => n !in Nodes(l) && n !in Nodes(r) && Nodes(l) !! Nodes(r) && Apart(l) && Apart(r)
  }

  ghost predicate ZipApart(z: Zip) {
    match z
    case Top => true
    case InLeft(n, _, _, u, t) =>
      n !in Nodes(t) && n !in ZipNodes(u) && Nodes(t) !! ZipNodes(u) && Apart(t) && ZipApart(u)
    case InRight(t, n, _, _, u) =>
      n !in Nodes(t) && n !in ZipNodes(u) && Nodes(t) !! ZipNodes(u) && Apart(t) && ZipApart(u)
  }

  ghost predicate AllApart(z: Zip, t: Shape) {
    Apart(t) && ZipApart(z) && Nodes(t) !! ZipNodes(z)
  }

  // ----- Entries: the abstract contents

  ghost function Entries(t: Shape): set<(Key, Node)> {
    match t
    case Nil => {}
    case Br(l, n, k, _, r) => Entries(l) + {(k, n)} + Entries(r)
  }

  ghost function ZipEntries(z: Zip): set<(Key, Node)> {
    match z
    case Top => {}
    case InLeft(n, k, _, u, t) => ZipEntries(u) + {(k, n)} + Entries(t)
    case InRight(t, n, k, _, u) => ZipEntries(u) + {(k, n)} + Entries(t)
  }

  // ----- Search order

  /** All keys of t lie strictly between lo and hi, in search order. */
  ghost predicate Sorted(t: Shape, lo: int, hi: int) {
    match t
    case Nil => true
    case Br(l, _, k, _, r) => lo < k < hi && Sorted(l, lo, k) && Sorted(r, k, hi)
  }

  ghost function Lo(z: Zip): int {
    match z
    case Top => -1
    case InLeft(_, _, _, u, _) => Lo(u)
    case InRight(_, _, k, _, _) => k
  }

  ghost function Hi(z: Zip): int {
    match z
    case Top => KEY_LIMIT
    case InLeft(_, k, _, _, _) => k
    case InRight(_, _, _, _, u) => Hi(u)
  }

  ghost predicate ZipSorted(z: Zip) {
    match z
    case Top => true
    case InLeft(_, k, _, u, t) => Lo(u) < k < Hi(u) && Sorted(t, k, Hi(u)) && ZipSorted(u)
    case InRight(t, _, k, _, u) => Lo(u) < k < Hi(u) && Sorted(t, Lo(u), k) && ZipSorted(u)
  }

  // ----- Colours

  ghost predicate Red(t: Shape) { t.Br? && t.red }

  ghost predicate ZipRed(z: Zip) { !z.Top? && z.red }

  /** Black nodes on the leftmost path; on every path when t is balanced. */
  ghost function BlackHeight(t: Shape): nat {
    match t
    case Nil => 0
    case Br(l, _, _, c, _) => BlackHeight(l) + if c then 0 else 1
  }

  ghost predicate Balanced(t: Shape) {
    match t
    case Nil => true
    case Br(l, _, _, c, r) =>
      BlackHeight(l) == BlackHeight(r) && Balanced(l) && Balanced(r) && (c ==> !Red(l) && !Red(r))
  }

  /** The path is balanced once a subtree of black height h fills the hole. */
  ghost predicate ZipBalanced(z: Zip, h: nat) {
    match z
    case Top => true
    case InLeft(_, _, c, u, t) =>
      BlackHeight(t) == h && Balanced(t) && (c ==> !Red(t) && !ZipRed(u)) && ZipBalanced(u, h + if c then 0 else 1)
    case InRight(t, _, _, c, u) =>
      BlackHeight(t) == h && Balanced(t) && (c ==> !Red(t) && !ZipRed(u)) && ZipBalanced(u, h + if c then 0 else 1)
  }

  /** The node at the far end of the path is black. */
  ghost predicate BlackRoot(z: Zip) {
    z.Top? || (if z.up.Top? then !z.red else BlackRoot(z.up))
  }

  ghost predicate RedBlack(t: Shape) {
    Apart(t) && Sorted(t, -1, KEY_LIMIT) && Balanced(t) && !Red(t)
  }

  lemma {:induction false} PlugParts(z: Zip, t: Shape)
    ensures Nodes(Plug(z, t)) == Nodes(t) + ZipNodes(z)
    ensures Apart(Plug(z, t)) <==> AllApart(z, t)
  {
    match z
    case Top =>
    case InLeft(n, k, c, u, r) => PlugParts(u, Br(t, n, k, c, r));
    case InRight(l, n, k, c, u) => PlugParts(u, Br(l, n, k, c, t));
  }

  lemma {:induction false} PlugEntries(z: Zip, t: Shape)
    ensures Entries(Plug(z, t)) == Entries(t) + ZipEntries(z)
    ensures Sorted(Plug(z, t), -1, KEY_LIMIT) <==> ZipSorted(z) && Sorted(t, Lo(z), Hi(z))
  {
    match z
    case Top =>
    case InLeft(n, k, c, u, r) => PlugEntries(u, Br(t, n, k, c, r));
    case InRight(l, n, k, c, u) => PlugEntries(u, Br(l, n, k, c, t));
  }

  /** A balanced subtree in a path balanced for it makes a balanced tree, and conversely. */
  lemma {:induction false} PlugBalanced(z: Zip, t: Shape)
    ensures Balanced(Plug(z, t)) <==> Balanced(t) && ZipBalanced(z, BlackHeight(t)) && !(Red(t) && ZipRed(z))
    ensures Red(Plug(z, t)) <==> if z.Top? then Red(t) else !BlackRoot(z)
  {
    match z
    case Top =>
    case InLeft(n, k, c, u, r) => PlugBalanced(u, Br(t, n, k, c, r));
    case InRight(l, n, k, c, u) => PlugBalanced(u, Br(l, n, k, c, t));
  }

  /** Position (z, t) belongs to a search tree without duplicate nodes that holds exactly E. */
  ghost predicate Fits(z: Zip, t: Shape, E: set<(Key, Node)>) {
    AllApart(z, t) && ZipSorted(z) && Sorted(t, Lo(z), Hi(z)) && Entries(t) + ZipEntries(z) == E
  }

  lemma {:induction false} LiftFits(z: Zip, t: Shape, E: set<(Key, Node)>)
    requires !z.Top?
    ensures Fits(z, t, E) <==> Fits(z.up, Fill(z, t), E)
  {
  }

  /** Colours do not matter for the contents. */
  lemma {:induction false} PaintFits(z: Zip, t: Shape, E: set<(Key, Node)>, c: bool)
    requires Fits(z, t, E)
    ensures Fits(Paint(z, c), t, E)
    ensures t.Br? ==> Fits(z, t.(red := c), E)
  {
  }

  lemma {:induction false} RotLeftFits(z: Zip, t: Shape, E: set<(Key, Node)>)
    requires Fits(z, t, E) && t.Br? && t.right.Br?
    ensures Fits(z, RotLeft(t), E)
  {
    assert Apart(t.right) && Sorted(t.right, t.key, Hi(z));
    assert Nodes(RotLeft(t)) == Nodes(t) && Entries(RotLeft(t)) == Entries(t);
  }

  lemma {:induction false} RotRightFits(z: Zip, t: Shape, E: set<(Key, Node)>)
    requires Fits(z, t, E) && t.Br? && t.left.Br?
    ensures Fits(z, RotRight(t), E)
  {
    assert Apart(t.left) && Sorted(t.left, Lo(z), t.key);
    assert Nodes(RotRight(t)) == Nodes(t) && Entries(RotRight(t)) == Entries(t);
  }

  /** Every node of a tree is the focus of some zipper. */
  lemma {:induction false} Locate(z: Zip, t: Shape, n: Node) returns (z': Zip, t': Shape)
    requires n in Nodes(t)
    ensures Plug(z', t') == Plug(z, t) && t'.Br? && t'.node == n
    decreases t
  {
    if n == t.node {
      z', t' := z, t;
    } else if n in Nodes(t.left) {
      z', t' := Locate(InLeft(t.node, t.key, t.red, z, t.right), t.left, n);
    } else {
      z', t' := Locate(InRight(t.left, t.node, t.key, t.red, z), t.right, n);
    }
  }

  // ----- Which pointers represent a shape

  /** The subtree hanging at pointer p, below node up, has shape t. */
  ghost predicate Rep(m: Memory, p: Node?, up: Node?, t: Shape)
    decreases t
  {
    match t
    case Nil => p == null
    case Br(l, n, k, c, r) =>
      && p == n && n in m && m[n].parent == up && m[n].key == k && m[n].red == c
      && Rep(m, m[n].left, n, l) && Rep(m, m[n].right, n, r)
  }

  /** A hole filled by pointer `hole` below node `up` lies on the path z from the root. */
  ghost predicate ZipRep(m: Memory, root: Node?, z: Zip, up: Node?, hole: Node?) {
    match z
    case Top => up == null && root == hole
    case InLeft(n, k, c, u, t) =>
      && up == n && n in m && m[n].left == hole && m[n].key == k && m[n].red == c
      && Rep(m, m[n].right, n, t) && ZipRep(m, root, u, m[n].parent, n)
    case InRight(t, n, k, c, u) =>
      && up == n && n in m && m[n].right == hole && m[n].key == k && m[n].red == c
      && Rep(m, m[n].left, n, t) && ZipRep(m, root, u, m[n].parent, n)
  }

  /** The whole tree, seen from pointer p below node up. */
  ghost predicate At(m: Memory, root: Node?, z: Zip, up: Node?, p: Node?, t: Shape) {
    ZipRep(m, root, z, up, p) && Rep(m, p, up, t)
  }

  lemma {:induction false} LiftAt(m: Memory, root: Node?, z: Zip, up: Node, p: Node?, t: Shape)
    requires At(m, root, z, up, p, t) && !z.Top?
    ensures up == z.node && up in m && At(m, root, z.up, m[up].parent, up, Fill(z, t))
    ensures !z.up.Top? ==> m[up].parent == z.up.node && z.up.node in m
  {
    assert ZipRep(m, root, z.up, m[up].parent, up);
  }

  ghost predicate Same(m: Memory, m': Memory, S: set<Node>) {
    forall n :: n in S && n in m ==> n in m' && m'[n] == m[n]
  }

  lemma {:induction false} FrameRep(m: Memory, m': Memory, p: Node?, up: Node?, t: Shape)
    requires Rep(m, p, up, t) && Same(m, m', Nodes(t))
    ensures Rep(m', p, up, t)
    decreases t
  {
    if t.Br? {
      FrameRep(m, m', m[p].left, p, t.left);
      FrameRep(m, m', m[p].right, p, t.right);
    }
  }

  lemma {:induction false} FrameZip(m: Memory, m': Memory, root: Node?, z: Zip, up: Node?, hole: Node?)
    requires ZipRep(m, root, z, up, hole) && Same(m, m', ZipNodes(z))
    ensures ZipRep(m', root, z, up, hole)
  {
    match z
    case Top =>
    case InLeft(n, _, _, u, t) => FrameRep(m, m', m[n].right, n, t); FrameZip(m, m', root, u, m[n].parent, n);
    case InRight(t, n, _, _, u) => FrameRep(m, m', m[n].left, n, t); FrameZip(m, m', root, u, m[n].parent, n);
  }

  /** A subtree survives a change of its parent pointer. */
  lemma {:induction false} Reparent(m: Memory, m': Memory, p: Node?, up: Node?, up': Node?, t: Shape)
    requires Rep(m, p, up, t) && Apart(t) && Same(m, m', Nodes(t) - {p})
    requires p != null ==> p in m && p in m' && m'[p] == m[p].(parent := up')
    ensures Rep(m', p, up', t)
  {
    if t.Br? {
      FrameRep(m, m', m[p].left, p, t.left);
      FrameRep(m, m', m[p].right, p, t.right);
    }
  }

  lemma {:induction false} RepaintRoot(m: Memory, m': Memory, p: Node, up: Node?, t: Shape, c: bool)
    requires Rep(m, p, up, t) && t.Br? && Apart(t) && Same(m, m', Nodes(t) - {p})
    requires p in m && p in m' && m'[p] == m[p].(red := c)
    ensures Rep(m', p, up, t.(red := c))
  {
    FrameRep(m, m', m[p].left, p, t.left);
    FrameRep(m, m', m[p].right, p, t.right);
  }

  /** A path survives a change of the pointer to its hole. */
  lemma {:induction false} Refill(m: Memory, m': Memory, root: Node?, root': Node?, z: Zip, up: Node?, hole: Node?,
      hole': Node?)
    requires ZipRep(m, root, z, up, hole) && ZipApart(z)
    requires z.Top? ==> root' == hole'
    requires !z.Top? ==> root' == root && up in m' && Same(m, m', ZipNodes(z) - {up})
    requires z.InLeft? ==> m'[up] == m[up].(left := hole')
    requires z.InRight? ==> m'[up] == m[up].(right := hole')
    ensures ZipRep(m', root', z, up, hole')
  {
    match z
    case Top =>
    case InLeft(n, _, _, u, t) => FrameRep(m, m', m[n].right, n, t); FrameZip(m, m', root, u, m[n].parent, n);
    case InRight(t, n, _, _, u) => FrameRep(m, m', m[n].left, n, t); FrameZip(m, m', root, u, m[n].parent, n);
  }

  lemma {:induction false} PlugRep(m: Memory, root: Node?, z: Zip, up: Node?, p: Node?, t: Shape)
    requires At(m, root, z, up, p, t)
    ensures Rep(m, root, null, Plug(z, t))
  {
    match z
    case Top =>
    case InLeft(n, k, c, u, r) => PlugRep(m, root, u, m[n].parent, n, Br(t, n, k, c, r));
    case InRight(l, n, k, c, u) => PlugRep(m, root, u, m[n].parent, n, Br(l, n, k, c, t));
  }

  lemma {:induction false} UnplugRep(m: Memory, root: Node?, z: Zip, t: Shape) returns (up: Node?, p: Node?)
    requires Rep(m, root, null, Plug(z, t))
    ensures At(m, root, z, up, p, t)
  {
    match z
    case Top => up, p := null, root;
    case InLeft(n, k, c, u, r) =>
      var _, _ := UnplugRep(m, root, u, Br(t, n, k, c, r));
      up, p := n, m[n].left;
    case InRight(l, n, k, c, u) =>
      var _, _ := UnplugRep(m, root, u, Br(l, n, k, c, t));
      up, p := n, m[n].right;
  }

  // ----- Pointer writes and rotations

  ghost function SetLeft(m: Memory, n: Node, v: Node?): Memory {
    if n in m then m[n := m[n].(left := v)] else m
  }

  ghost function SetRight(m: Memory, n: Node, v: Node?): Memory {
    if n in m then m[n := m[n].(right := v)] else m
  }

  ghost function SetParent(m: Memory, n: Node, v: Node?): Memory {
    if n in m then m[n := m[n].(parent := v)] else m
  }

  ghost function SetRed(m: Memory, n: Node, c: bool): Memory {
    if n in m then m[n := m[n].(red := c)] else m
  }

  ghost function ParentSet(m: Memory, n: Node?, v: Node?): Memory {
    if n == null then m else SetParent(m, n, v)
  }

  /** Puts q in the place that p has below parent. */
  ghost function Relinked(m: Memory, parent: Node?, p: Node, q: Node?): Memory {
    if parent == null || parent !in m then m
    else if m[parent].left == p then SetLeft(m, parent, q)
    else SetRight(m, parent, q)
  }

  /** Turns the edge from p to q around. */
  ghost function Swapped(m: Memory, p: Node, q: Node, parent: Node?): Memory {
    SetParent(SetParent(Relinked(m, parent, p, q), q, parent), p, q)
  }

  ghost function RotatedLeft(m: Memory, p: Node, q: Node, s: Node?, parent: Node?): Memory {
    var m1 := SetRight(Swapped(m, p, q, parent), p, s);
    SetLeft(ParentSet(m1, s, p), q, p)
  }

  ghost function RotatedRight(m: Memory, p: Node, q: Node, s: Node?, parent: Node?): Memory {
    var m1 := SetLeft(Swapped(m, p, q, parent), p, s);
    SetRight(ParentSet(m1, s, p), q, p)
  }

  ghost function RotLeft(t: Shape): Shape
    requires t.Br? && t.right.Br?
  {
    var q := t.right;
    Br(Br(t.left, t.node, t.key, t.red, q.left), q.node, q.key, q.red, q.right)
  }

  ghost function RotRight(t: Shape): Shape
    requires t.Br? && t.left.Br?
  {
    var q := t.left;
    Br(q.left, q.node, q.key, q.red, Br(q.right, t.node, t.key, t.red, t.right))
  }

  /** p has a right child and its neighbours are as a rotation needs them: known, and no two of them the same. */
  ghost predicate CanRotateLeft(m: Memory, p: Node) {
    p in m && var q := m[p].right;
    && q != null && q in m && q != p && m[p].parent != q && m[p].parent != p && m[q].left != q && m[q].left != p
    && (m[p].parent != null ==> m[p].parent in m && m[p].parent != m[q].left) && (m[q].left != null ==> m[q].left in m)
  }

  ghost predicate CanRotateRight(m: Memory, p: Node) {
    p in m && var q := m[p].left;
    && q != null && q in m && q != p && m[p].parent != q && m[p].parent != p && m[q].right != q && m[q].right != p
    && (m[p].parent != null ==> m[p].parent in m && m[p].parent != m[q].right) &&
      (m[q].right != null ==> m[q].right in m)
  }

  lemma {:induction false} RotatableLeft(m: Memory, root: Node?, z: Zip, up: Node?, p: Node, t: Shape)
    requires At(m, root, z, up, p, t) && AllApart(z, t) && t.Br? && t.right.Br?
    ensures CanRotateLeft(m, p) && m[p].right == t.right.node && m[p].parent == up && (z.Top? <==> up == null)
  {
    assert Rep(m, m[p].right, p, t.right) && Apart(t.right);
    var s := m[t.right.node].left;
    assert Rep(m, s, t.right.node, t.right.left);
    assert s != null ==> s in Nodes(t.right.left);
    assert up != null ==> up in ZipNodes(z);
  }

  lemma {:induction false} RotatableRight(m: Memory, root: Node?, z: Zip, up: Node?, p: Node, t: Shape)
    requires At(m, root, z, up, p, t) && AllApart(z, t) && t.Br? && t.left.Br?
    ensures CanRotateRight(m, p) && m[p].left == t.left.node && m[p].parent == up && (z.Top? <==> up == null)
  {
    assert Rep(m, m[p].left, p, t.left) && Apart(t.left);
    var s := m[t.left.node].right;
    assert Rep(m, s, t.left.node, t.left.right);
    assert s != null ==> s in Nodes(t.left.right);
    assert up != null ==> up in ZipNodes(z);
  }

  lemma {:induction false} RelinkedZip(m: Memory, root: Node?, z: Zip, up: Node?, p: Node, q: Node?)
    requires ZipRep(m, root, z, up, p) && ZipApart(z) && p !in ZipNodes(z)
    ensures ZipRep(Relinked(m, up, p, q), if z.Top? then q else root, z, up, q)
    ensures Relinked(m, up, p, q).Keys == m.Keys
    ensures forall n :: n in m && n !in ZipNodes(z) ==> Relinked(m, up, p, q)[n] == m[n]
  {
    if z.InRight? {
      assert m[up].left != null ==> m[up].left in Nodes(z.left);
    }
    Refill(m, Relinked(m, up, p, q), root, if z.Top? then q else root, z, up, p, q);
  }

  /** The part of a rotation that stays inside the rotated subtree. */
  lemma {:induction false} ExchangedLeft(m: Memory, m': Memory, up: Node?, p: Node, t: Shape, q: Node, s: Node?)
    requires Rep(m, p, up, t) && Apart(t) && t.Br? && t.right.Br? && q == t.right.node && q in m && s == m[q].left
    requires p in m' && m'[p] == m[p].(parent := q, right := s)
    requires q in m' && m'[q] == m[q].(parent := up, left := p)
    requires s != null && s in m ==> s in m' && m'[s] == m[s].(parent := p)
    requires Same(m, m', Nodes(t) - {p, q} - (if s == null then {} else {s}))
    ensures Rep(m', q, up, RotLeft(t))
  {
    assert Rep(m, m[p].right, p, t.right) && Rep(m, s, q, t.right.left) && Apart(t.right);
    assert s != null ==> s in Nodes(t.right.left);
    FrameRep(m, m', m[p].left, p, t.left);
    FrameRep(m, m', m[q].right, q, t.right.right);
    Reparent(m, m', s, q, p, t.right.left);
  }

  lemma {:induction false} ExchangedRight(m: Memory, m': Memory, up: Node?, p: Node, t: Shape, q: Node, s: Node?)
    requires Rep(m, p, up, t) && Apart(t) && t.Br? && t.left.Br? && q == t.left.node && q in m && s == m[q].right
    requires p in m' && m'[p] == m[p].(parent := q, left := s)
    requires q in m' && m'[q] == m[q].(parent := up, right := p)
    requires s != null && s in m ==> s in m' && m'[s] == m[s].(parent := p)
    requires Same(m, m', Nodes(t) - {p, q} - (if s == null then {} else {s}))
    ensures Rep(m', q, up, RotRight(t))
  {
    assert Rep(m, m[p].left, p, t.left) && Rep(m, s, q, t.left.right) && Apart(t.left);
    assert s != null ==> s in Nodes(t.left.right);
    FrameRep(m, m', m[p].right, p, t.right);
    FrameRep(m, m', m[q].left, q, t.left.left);
    Reparent(m, m', s, q, p, t.left.right);
  }

  lemma {:induction false} RotatedLeftAt(m: Memory, root: Node?, z: Zip, up: Node?, p: Node, t: Shape, q: Node)
    requires At(m, root, z, up, p, t) && AllApart(z, t) && t.Br? && t.right.Br? && q == t.right.node && q in m
    ensures At(RotatedLeft(m, p, q, m[q].left, up), if z.Top? then q else root, z, up, q, RotLeft(t))
  {
    assert Rep(m, m[p].right, p, t.right) && Rep(m, m[q].left, q, t.right.left);
    assert p in Nodes(t) && q in Nodes(t.right) && (m[q].left != null ==> m[q].left in Nodes(t.right.left));
    RelinkedZip(m, root, z, up, p, q);
    var m' := RotatedLeft(m, p, q, m[q].left, up);
    FrameZip(Relinked(m, up, p, q), m', if z.Top? then q else root, z, up, q);
    assert Apart(t.right);
    ExchangedLeft(m, m', up, p, t, q, m[q].left);
  }

  lemma {:induction false} RotatedRightAt(m: Memory, root: Node?, z: Zip, up: Node?, p: Node, t: Shape, q: Node)
    requires At(m, root, z, up, p, t) && AllApart(z, t) && t.Br? && t.left.Br? && q == t.left.node && q in m
    ensures At(RotatedRight(m, p, q, m[q].right, up), if z.Top? then q else root, z, up, q, RotRight(t))
  {
    assert Rep(m, m[p].left, p, t.left) && Rep(m, m[q].right, q, t.left.right);
    assert p in Nodes(t) && q in Nodes(t.left) && (m[q].right != null ==> m[q].right in Nodes(t.left.right));
    RelinkedZip(m, root, z, up, p, q);
    var m' := RotatedRight(m, p, q, m[q].right, up);
    FrameZip(Relinked(m, up, p, q), m', if z.Top? then q else root, z, up, q);
    assert Apart(t.left);
    ExchangedRight(m, m', up, p, t, q, m[q].right);
  }

  // ----- Keys and nodes of the contents

  lemma {:induction false} SortedEntries(t: Shape, lo: int, hi: int)
    requires Sorted(t, lo, hi)
    ensures forall e :: e in Entries(t) ==> lo < e.0 < hi
  {
    if t.Br? {
      SortedEntries(t.left, lo, t.key);
      SortedEntries(t.right, t.key, hi);
    }
  }

  /** Keys off the path lie outside the interval of the hole. */
  lemma {:induction false} ZipSortedEntries(z: Zip)
    requires ZipSorted(z)
    ensures Lo(z) < Hi(z)
    ensures forall e :: e in ZipEntries(z) ==> e.0 <= Lo(z) || Hi(z) <= e.0
  {
    match z
    case Top =>
    case InLeft(_, k, _, u, t) => ZipSortedEntries(u); SortedEntries(t, k, Hi(u));
    case InRight(t, _, k, _, u) => ZipSortedEntries(u); SortedEntries(t, Lo(u), k);
  }

  lemma {:induction false} EntryNodes(t: Shape)
    ensures Nodes(t) == set e | e in Entries(t) :: e.1
  {
    if t.Br? {
      EntryNodes(t.left);
      EntryNodes(t.right);
      assert (t.key, t.node) in Entries(t);
      assert forall e :: e in Entries(t) ==> e in Entries(t.left) || e == (t.key, t.node) || e in Entries(t.right);
    }
  }

  /** A whole tree, seen from its root. */
  lemma {:induction false} StartAt(m: Memory, root: Node?, t: Shape)
    requires Rep(m, root, null, t) && RedBlack(t)
    ensures At(m, root, Top, null, root, t) && Fits(Top, t, Entries(t)) && Plug(Top, t) == t && ZipNodes(Top) == {}
    ensures root == null <==> t.Nil?
    ensures root != null ==> root in m && m[root].parent == null
  {
  }

  // ----- Height

  /** The number of nodes on the longest path to null. */
  ghost function Height(t: Shape): nat {
    match t
    case Nil => 0
    case Br(l, _, _, _, r) => 1 + if Height(l) < Height(r) then Height(r) else Height(l)
  }

  ghost function Pow2(n: nat): nat {
    if n == 0 then 1 else 2 * Pow2(n - 1)
  }

  lemma {:induction false} Pow2Sum(a: nat, b: nat)
    ensures Pow2(a + b) == Pow2(a) * Pow2(b)
  {
    if a > 0 {
      Pow2Sum(a - 1, b);
    }
  }

  lemma {:induction false} HeightBound(t: Shape)
    requires Balanced(t)
    ensures Height(t) <= 2 * BlackHeight(t) + if Red(t) then 1 else 0
  {
    if t.Br? {
      HeightBound(t.left);
      HeightBound(t.right);
    }
  }

  lemma {:induction false} SizeBound(t: Shape)
    requires Balanced(t) && Apart(t)
    ensures Pow2(BlackHeight(t)) <= |Nodes(t)| + 1
  {
    if t.Br? {
      SizeBound(t.left);
      SizeBound(t.right);
      assert |Nodes(t)| == |Nodes(t.left) + {t.node}| + |Nodes(t.right)| == |Nodes(t.left)| + 1 + |Nodes(t.right)|;
    }
  }

  /** A red-black tree of n nodes is at most 2 log2(n + 1) high. */
  lemma {:induction false} HeightIsLogarithmic(t: Shape)
    requires RedBlack(t)
    ensures Shallow(t, Height(t))
  {
    var h := BlackHeight(t);
    HeightBound(t);
    SizeBound(t);
    Pow2Monotone(Height(t), h + h);
    Pow2Sum(h, h);
    Squares(Pow2(h), |Nodes(t)| + 1);
  }

  /** depth <= 2 log2(n + 1), for the n nodes of t */
  ghost predicate Shallow(t: Shape, depth: nat) { Pow2(depth) <= (|Nodes(t)| + 1) * (|Nodes(t)| + 1) }

  lemma StepsBound(t: Shape, steps: nat)
    requires RedBlack(t) && steps <= Height(t)
    ensures Shallow(t, steps)
  {
    HeightIsLogarithmic(t);
    Pow2Monotone(steps, Height(t));
  }

  lemma {:induction false} Pow2Monotone(a: nat, b: nat)
    requires a <= b
    ensures Pow2(a) <= Pow2(b)
    decreases b
  {
    if a < b {
      Pow2Monotone(a, b - 1);
    }
  }

  lemma Squares(a: nat, b: nat)
    requires a <= b
    ensures a * a <= b * b
  {
    assert a * a <= a * b <= b * b;
  }
}
