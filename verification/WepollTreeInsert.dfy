/** What the rebalancing after tree_add does to shapes. */
module WepollTreeInsert {
  import opened WepollTreeShape

  /** The colours are right but for t and its parent perhaps being both red. */
  ghost predicate Shaded(z: Zip, t: Shape) {
    t.Br? && t.red && Balanced(t) && ZipBalanced(z, BlackHeight(t)) && BlackRoot(z)
  }

  /** A red node t was put into the hole of z; the tree is red-black but for t and its parent being both red. */
  ghost predicate Adding(z: Zip, t: Shape, E: set<(Key, Node)>) {
    Fits(z, t, E) && Shaded(z, t)
  }

  // ----- The uncle is red: the colours are swapped and the problem moves up two levels

  ghost function RecoloredUp(u: Zip): Zip
    requires !u.Top?
  {
    match u
    case InLeft(g, k, _, v, uncle) => InLeft(g, k, true, v, Blackened(uncle))
    case InRight(uncle, g, k, _, v) => InRight(Blackened(uncle), g, k, true, v)
  }

  ghost function Recolored(z: Zip, t: Shape): Shape
    requires !z.Top? && !z.up.Top?
  {
    Fill(RecoloredUp(z.up), Fill(Paint(z, false), t))
  }

  lemma {:induction false} RecoloredAdding(z: Zip, t: Shape, E: set<(Key, Node)>)
    requires Adding(z, t, E) && ZipRed(z) && !z.up.Top? && Red(Sibling(z.up))
    ensures Adding(z.up.up, Recolored(z, t), E)
  {
    LiftFits(z, t, E);
    RecolorFits(z.up, Fill(z, t), E);
    LiftFits(RecoloredUp(z.up), Fill(Paint(z, false), t), E);
    RecoloredShaded(z, t);
  }

  lemma {:induction false} RecolorFits(u: Zip, t: Shape, E: set<(Key, Node)>)
    requires Fits(u, t, E) && !u.Top? && t.Br?
    ensures Fits(RecoloredUp(u), t.(red := false), E)
  {
  }

  lemma {:induction false} RecoloredShaded(z: Zip, t: Shape)
    requires Shaded(z, t) && ZipRed(z) && !z.up.Top? && Red(Sibling(z.up))
    ensures Shaded(z.up.up, Recolored(z, t))
  {
    assert ZipBalanced(z.up, BlackHeight(t)) && BlackRoot(z.up);
  }

  lemma {:induction false} RecoloredAt(m: Memory, root: Node?, z: Zip, up: Node?, p: Node, t: Shape)
    requires At(m, root, z, up, p, t) && AllApart(z, t) && !z.Top? && !z.up.Top? && Sibling(z.up).Br?
    requires z.up.node in m
    ensures var m' := SetRed(SetRed(SetRed(m, Sibling(z.up).node, false), z.node, false), z.up.node, true);
      At(m', root, z.up.up, m[z.up.node].parent, z.up.node, Recolored(z, t))
  {
    var m' := SetRed(SetRed(SetRed(m, Sibling(z.up).node, false), z.node, false), z.up.node, true);
    var u := z.up;
    var g := u.node;
    var s := Sibling(u);
    var t1 := Fill(z, t);
    assert At(m, root, u, m[z.node].parent, z.node, t1);
    assert AllApart(u, t1) && ZipApart(u) && Apart(t1) && Apart(s);
    RepaintRoot(m, m', z.node, g, t1, false);
    RepaintRoot(m, m', s.node, g, s, false);
    FrameZip(m, m', root, u.up, m[g].parent, g);
  }

  lemma {:induction false} RecoloredStep(m: Memory, root: Node?, z: Zip, up: Node?, p: Node, t: Shape,
      E: set<(Key, Node)>)
    requires At(m, root, z, up, p, t) && Adding(z, t, E) && ZipRed(z) && !z.up.Top? && Red(Sibling(z.up)) &&
      z.up.node in m
    ensures Adding(z.up.up, Recolored(z, t), E)
    ensures var m' := SetRed(SetRed(SetRed(m, Sibling(z.up).node, false), z.node, false), z.up.node, true);
      z.up.node in m' && At(m', root, z.up.up, m'[z.up.node].parent, z.up.node, Recolored(z, t))
  {
    RecoloredAdding(z, t, E);
    RecoloredAt(m, root, z, up, p, t);
  }

  // ----- The node is an inner grandchild: one rotation makes it an outer one

  ghost function InnerZip(z: Zip, t: Shape): Zip
    requires !z.Top? && t.Br?
  {
    match z
    case InRight(l, p, k, c, u) => InLeft(t.node, t.key, t.red, u, t.right)
    case InLeft(p, k, c, u, r) => InRight(t.left, t.node, t.key, t.red, u)
  }

  ghost function InnerShape(z: Zip, t: Shape): Shape
    requires !z.Top? && t.Br?
  {
    match z
    case InRight(l, p, k, c, u) => Br(l, p, k, c, t.left)
    case InLeft(p, k, c, u, r) => Br(t.right, p, k, c, r)
  }

  lemma {:induction false} InnerAdding(z: Zip, t: Shape, E: set<(Key, Node)>)
    requires Adding(z, t, E) && ZipRed(z)
    ensures Adding(InnerZip(z, t), InnerShape(z, t), E)
  {
    LiftFits(z, t, E);
    if z.InRight? {
      RotLeftFits(z.up, Fill(z, t), E);
    } else {
      RotRightFits(z.up, Fill(z, t), E);
    }
    LiftFits(InnerZip(z, t), InnerShape(z, t), E);
  }

  lemma {:induction false} InnerAt(m: Memory, root: Node?, z: Zip, up: Node, p: Node, t: Shape, parent: Node?)
    requires At(m, root, z, up, p, t) && AllApart(z, t) && !z.Top? && t.Br? && up in m && p in m &&
      parent == m[up].parent
    ensures var root' := if z.up.Top? then p else root;
      && (z.InRight? ==> At(RotatedLeft(m, up, p, m[p].left, parent), root', InnerZip(z, t), p, up, InnerShape(z, t)))
      && (z.InLeft? ==> At(RotatedRight(m, up, p, m[p].right, parent), root', InnerZip(z, t), p, up, InnerShape(z, t)))
  {
    if z.InRight? {
      RotatedLeftAt(m, root, z.up, parent, up, Fill(z, t), p);
    } else {
      RotatedRightAt(m, root, z.up, parent, up, Fill(z, t), p);
    }
  }

  // ----- The node is an outer grandchild: one rotation at the grandparent ends the repair

  ghost function OuterZip(z: Zip): Zip
    requires !z.Top? && !z.up.Top?
  {
    var g := z.up;
    match z
    case InLeft(p, k, _, _, r) => InLeft(p, k, false, g.up, Br(r, g.node, g.key, true, Sibling(g)))
    case InRight(l, p, k, _, _) => InRight(Br(Sibling(g), g.node, g.key, true, l), p, k, false, g.up)
  }

  lemma {:induction false} OuterShaded(z: Zip, t: Shape)
    requires Shaded(z, t) && ZipRed(z) && !z.up.Top? && !Red(Sibling(z.up)) && z.InLeft? == z.up.InLeft?
    ensures Shaded(OuterZip(z), t)
  {
    assert ZipBalanced(z.up, BlackHeight(t)) && BlackRoot(z.up);
  }

  lemma {:induction false} OuterAdding(z: Zip, t: Shape, E: set<(Key, Node)>)
    requires Adding(z, t, E) && ZipRed(z) && !z.up.Top? && !Red(Sibling(z.up)) && z.InLeft? == z.up.InLeft?
    ensures Adding(OuterZip(z), t, E)
  {
    var u := Paint(z.up, true);
    var t1 := Fill(Paint(z, false), t);
    PaintFits(z, t, E, false);
    LiftFits(Paint(z, false), t, E);
    PaintFits(z.up, t1, E, true);
    LiftFits(u, t1, E);
    if z.InLeft? {
      RotRightFits(u.up, Fill(u, t1), E);
    } else {
      RotLeftFits(u.up, Fill(u, t1), E);
    }
    LiftFits(OuterZip(z), t, E);
    OuterShaded(z, t);
  }

  lemma {:induction false} OuterLeftAt(m: Memory, m1: Memory, root: Node?, z: Zip, up: Node, p: Node, t: Shape, g: Node,
      parent: Node?)
    requires At(m, root, z, up, p, t) && AllApart(z, t) && t.Br? && z.InLeft? && z.up.InLeft?
    requires up in m && g == z.up.node && g in m && parent == m[g].parent
    requires m1 == SetRed(SetRed(m, up, false), g, true)
    ensures At(RotatedRight(m1, g, up, m[up].right, parent), if z.up.up.Top? then up else root, OuterZip(z), up, p, t)
  {
    RepaintedAt(m, m1, root, z, up, p, t, g);
    RepaintedApart(z, t);
    LiftAt(m, root, z, up, p, t);
    RotatedRightAt(m1, root, z.up.up, parent, g, Fill(Paint(z.up, true), Fill(Paint(z, false), t)), up);
  }

  lemma {:induction false} OuterRightAt(m: Memory, m1: Memory, root: Node?, z: Zip, up: Node, p: Node, t: Shape,
      g: Node, parent: Node?)
    requires At(m, root, z, up, p, t) && AllApart(z, t) && t.Br? && z.InRight? && z.up.InRight?
    requires up in m && g == z.up.node && g in m && parent == m[g].parent
    requires m1 == SetRed(SetRed(m, up, false), g, true)
    ensures At(RotatedLeft(m1, g, up, m[up].left, parent), if z.up.up.Top? then up else root, OuterZip(z), up, p, t)
  {
    RepaintedAt(m, m1, root, z, up, p, t, g);
    RepaintedApart(z, t);
    LiftAt(m, root, z, up, p, t);
    RotatedLeftAt(m1, root, z.up.up, parent, g, Fill(Paint(z.up, true), Fill(Paint(z, false), t)), up);
  }

  lemma {:induction false} RepaintedApart(z: Zip, t: Shape)
    requires AllApart(z, t) && !z.Top? && !z.up.Top?
    ensures AllApart(z.up.up, Fill(Paint(z.up, true), Fill(Paint(z, false), t)))
  {
    assert AllApart(z.up, Fill(z, t));
  }

  lemma {:induction false} RepaintedAt(m: Memory, m1: Memory, root: Node?, z: Zip, up: Node, p: Node, t: Shape, g: Node)
    requires At(m, root, z, up, p, t) && AllApart(z, t) && !z.Top? && !z.up.Top?
    requires up in m && g == z.up.node && g in m
    requires m1 == SetRed(SetRed(m, up, false), g, true)
    ensures At(m1, root, z.up.up, m[g].parent, g, Fill(Paint(z.up, true), Fill(Paint(z, false), t)))
  {
    LiftAt(m, root, z, up, p, t);
    assert AllApart(z.up, Fill(z, t));
    var s := Sibling(z.up);
    assert z.up.InLeft? ==> Rep(m, m[g].right, g, s);
    assert z.up.InRight? ==> Rep(m, m[g].left, g, s);
    RepaintRoot(m, m1, up, g, Fill(z, t), false);
    FrameRep(m, m1, if z.up.InLeft? then m[g].right else m[g].left, g, s);
    FrameZip(m, m1, root, z.up.up, m[g].parent, g);
  }

  /** Nothing is left to repair but the colour of the root. */
  lemma {:induction false} Added(z: Zip, t: Shape, E: set<(Key, Node)>)
    requires Adding(z, t, E) && !ZipRed(z)
    ensures RedBlack(Blackened(Plug(z, t))) && Entries(Plug(z, t)) == E && Nodes(Plug(z, t)) == Nodes(t) + ZipNodes(z)
  {
    PlugParts(z, t);
    PlugEntries(z, t);
    PlugBalanced(z, t);
  }

  /** What the pointer tests of the loop body find out. */
  lemma {:induction false} GrandparentLeft(m: Memory, root: Node?, z: Zip, up: Node, p: Node, t: Shape,
      E: set<(Key, Node)>)
    requires At(m, root, z, up, p, t) && Adding(z, t, E) && ZipRed(z) && z.up.InLeft?
    ensures up in m && m[up].parent == z.up.node && z.up.node in m && z.node == up
    ensures z.InRight? <==> m[up].right == p
    ensures var s := m[z.up.node].right;
      if Sibling(z.up).Br? then s == Sibling(z.up).node && s in m && m[s].red == Sibling(z.up).red else s == null
  {
    LiftAt(m, root, z, up, p, t);
    assert z.InLeft? ==> Rep(m, m[up].right, up, z.right) && (m[up].right != null ==> m[up].right in Nodes(z.right));
    assert Rep(m, m[z.up.node].right, z.up.node, Sibling(z.up));
  }

  lemma {:induction false} GrandparentRight(m: Memory, root: Node?, z: Zip, up: Node, p: Node, t: Shape,
      E: set<(Key, Node)>)
    requires At(m, root, z, up, p, t) && Adding(z, t, E) && ZipRed(z) && z.up.InRight?
    ensures up in m && m[up].parent == z.up.node && z.up.node in m && z.node == up
    ensures z.InLeft? <==> m[up].left == p
    ensures var s := m[z.up.node].left;
      if Sibling(z.up).Br? then s == Sibling(z.up).node && s in m && m[s].red == Sibling(z.up).red else s == null
  {
    LiftAt(m, root, z, up, p, t);
    assert z.InRight? ==> Rep(m, m[up].left, up, z.left) && (m[up].left != null ==> m[up].left in Nodes(z.left));
    assert Rep(m, m[z.up.node].left, z.up.node, Sibling(z.up));
  }

  /** The first half of the else branch: an inner grandchild is rotated outwards. */
  lemma {:induction false} InsertTurnedLeft(m: Memory, root: Node?, z: Zip, up: Node, p: Node, t: Shape,
      E: set<(Key, Node)>)
    requires At(m, root, z, up, p, t) && Adding(z, t, E) && ZipRed(z) && z.InRight?
    ensures t.Br? && Adding(InnerZip(z, t), InnerShape(z, t), E)
    ensures ZipRed(InnerZip(z, t)) && InnerZip(z, t).InLeft? && InnerZip(z, t).up == z.up
    ensures CanRotateLeft(m, up) && m[up].right == p
    ensures At(RotatedLeft(m, up, p, m[p].left, m[up].parent), if m[up].parent == null then p else root,
              InnerZip(z, t), p, up, InnerShape(z, t))
  {
    InnerAdding(z, t, E);
    LiftAt(m, root, z, up, p, t);
    LiftFits(z, t, E);
    RotatableLeft(m, root, z.up, m[up].parent, up, Fill(z, t));
    InnerAt(m, root, z, up, p, t, m[up].parent);
  }

  lemma {:induction false} InsertTurnedRight(m: Memory, root: Node?, z: Zip, up: Node, p: Node, t: Shape,
      E: set<(Key, Node)>)
    requires At(m, root, z, up, p, t) && Adding(z, t, E) && ZipRed(z) && z.InLeft?
    ensures t.Br? && Adding(InnerZip(z, t), InnerShape(z, t), E)
    ensures ZipRed(InnerZip(z, t)) && InnerZip(z, t).InRight? && InnerZip(z, t).up == z.up
    ensures CanRotateRight(m, up) && m[up].left == p
    ensures At(RotatedRight(m, up, p, m[p].right, m[up].parent), if m[up].parent == null then p else root,
              InnerZip(z, t), p, up, InnerShape(z, t))
  {
    InnerAdding(z, t, E);
    LiftAt(m, root, z, up, p, t);
    LiftFits(z, t, E);
    RotatableRight(m, root, z.up, m[up].parent, up, Fill(z, t));
    InnerAt(m, root, z, up, p, t, m[up].parent);
  }

  /** The second half of the else branch: recolour parent and grandparent, then rotate at the grandparent. */
  lemma {:induction false} InsertFinishedLeft(m: Memory, root: Node?, z: Zip, up: Node, p: Node, t: Shape,
      E: set<(Key, Node)>, g: Node)
    requires At(m, root, z, up, p, t) && Adding(z, t, E) && ZipRed(z) && z.InLeft? && z.up.InLeft?
    requires !Red(Sibling(z.up)) && g == z.up.node
    ensures up in m && g in m
    ensures Adding(OuterZip(z), t, E) && !ZipRed(OuterZip(z))
    ensures var m1 := SetRed(SetRed(m, up, false), g, true);
      && CanRotateRight(m1, g) && m1[g].left == up
      && var m2 := RotatedRight(m1, g, up, m1[up].right, m1[g].parent);
      && p in m2 && m2[p].parent == up
      && At(m2, if m1[g].parent == null then up else root, OuterZip(z), up, p, t)
  {
    OuterAdding(z, t, E);
    LiftAt(m, root, z, up, p, t);
    var m1 := SetRed(SetRed(m, up, false), g, true);
    RepaintedAt(m, m1, root, z, up, p, t, g);
    RepaintedApart(z, t);
    RotatableRight(m1, root, z.up.up, m[g].parent, g, Fill(Paint(z.up, true), Fill(Paint(z, false), t)));
    OuterLeftAt(m, m1, root, z, up, p, t, g, m[g].parent);
  }

  lemma {:induction false} InsertFinishedRight(m: Memory, root: Node?, z: Zip, up: Node, p: Node, t: Shape,
      E: set<(Key, Node)>, g: Node)
    requires At(m, root, z, up, p, t) && Adding(z, t, E) && ZipRed(z) && z.InRight? && z.up.InRight?
    requires !Red(Sibling(z.up)) && g == z.up.node
    ensures up in m && g in m
    ensures Adding(OuterZip(z), t, E) && !ZipRed(OuterZip(z))
    ensures var m1 := SetRed(SetRed(m, up, false), g, true);
      && CanRotateLeft(m1, g) && m1[g].right == up
      && var m2 := RotatedLeft(m1, g, up, m1[up].left, m1[g].parent);
      && p in m2 && m2[p].parent == up
      && At(m2, if m1[g].parent == null then up else root, OuterZip(z), up, p, t)
  {
    OuterAdding(z, t, E);
    LiftAt(m, root, z, up, p, t);
    var m1 := SetRed(SetRed(m, up, false), g, true);
    RepaintedAt(m, m1, root, z, up, p, t, g);
    RepaintedApart(z, t);
    RotatableLeft(m1, root, z.up.up, m[g].parent, g, Fill(Paint(z.up, true), Fill(Paint(z, false), t)));
    OuterRightAt(m, m1, root, z, up, p, t, g, m[g].parent);
  }

  /** A red parent is not the root, and the pointer test tells on which side of the grandparent it is. */
  lemma {:induction false} ParentFacts(m: Memory, root: Node?, z: Zip, up: Node, p: Node, t: Shape, E: set<(Key, Node)>)
    requires At(m, root, z, up, p, t) && Adding(z, t, E)
    ensures up in m && ZipRed(z) == m[up].red
    ensures ZipRed(z) ==>
      && !z.up.Top? && m[up].parent != null && m[up].parent in m
      && (z.up.InLeft? <==> m[m[up].parent].left == up)
  {
    LiftAt(m, root, z, up, p, t);
    if ZipRed(z) && z.up.InRight? {
      var g := z.up.node;
      assert AllApart(z.up, Fill(z, t)) && Rep(m, m[g].left, g, z.up.left);
      assert m[g].left != null ==> m[g].left in Nodes(z.up.left);
    }
  }

  lemma {:induction false} RootFacts(m: Memory, root: Node?, z: Zip, up: Node?, p: Node, t: Shape, E: set<(Key, Node)>)
    requires At(m, root, z, up, p, t) && Adding(z, t, E) && (up != null && up in m ==> !m[up].red)
    ensures root != null && root in m
    ensures var shape := Blackened(Plug(z, t));
      Rep(SetRed(m, root, false), root, null, shape) && RedBlack(shape) && Entries(shape) == E
  {
    assert !ZipRed(z);
    Added(z, t, E);
    PlugRep(m, root, z, up, p, t);
    PlugParts(z, t);
    RepaintRoot(m, SetRed(m, root, false), root, null, Plug(z, t), false);
  }

  // ----- Finding the place for a new key

  ghost function DownLeft(z: Zip, t: Shape): Zip
    requires t.Br?
  {
    InLeft(t.node, t.key, t.red, z, t.right)
  }

  ghost function DownRight(z: Zip, t: Shape): Zip
    requires t.Br?
  {
    InRight(t.left, t.node, t.key, t.red, z)
  }

  lemma {:induction false} Down(m: Memory, root: Node?, z: Zip, up: Node?, p: Node, t: Shape, E: set<(Key, Node)>)
    requires At(m, root, z, up, p, t) && Fits(z, t, E)
    ensures t.Br? && p in m && m[p].key == t.key && m[p].parent == up
    ensures (t.key, p) in E
    ensures At(m, root, DownLeft(z, t), p, m[p].left, t.left) && Fits(DownLeft(z, t), t.left, E)
    ensures At(m, root, DownRight(z, t), p, m[p].right, t.right) && Fits(DownRight(z, t), t.right, E)
    ensures Plug(DownLeft(z, t), t.left) == Plug(z, t) == Plug(DownRight(z, t), t.right)
    ensures Lo(DownLeft(z, t)) == Lo(z) && Hi(DownLeft(z, t)) == t.key
    ensures Lo(DownRight(z, t)) == t.key && Hi(DownRight(z, t)) == Hi(z)
    ensures m[p].left == null <==> t.left.Nil?
    ensures m[p].right == null <==> t.right.Nil?
    ensures m[p].left != null ==> m[p].left in m && m[m[p].left].parent == p
    ensures m[p].right != null ==> m[p].right in m && m[m[p].right].parent == p
  {
    LiftFits(DownLeft(z, t), t.left, E);
    LiftFits(DownRight(z, t), t.right, E);
  }

  /** No entry has a key that belongs into an empty hole. */
  lemma {:induction false} HoleIsFree(z: Zip, E: set<(Key, Node)>, key: Key)
    requires Fits(z, Nil, E) && Lo(z) < key < Hi(z)
    ensures forall e :: e in E ==> e.0 != key
  {
    ZipSortedEntries(z);
  }

  ghost function Hung(m: Memory, z: Zip, up: Node?, node: Node, key: Key): Memory {
    var m1 := if up == null then m else if z.InLeft? then SetLeft(m, up, node) else SetRight(m, up, node);
    m1[node := Cell(null, null, up, key, true)]
  }

  lemma {:induction false} HungAt(m: Memory, root: Node?, z: Zip, up: Node?, node: Node, key: Key, E: set<(Key, Node)>)
    requires At(m, root, z, up, null, Nil) && Fits(z, Nil, E) && RedBlack(Plug(z, Nil))
    requires node !in m && node !in ZipNodes(z) && Lo(z) < key < Hi(z)
    ensures At(Hung(m, z, up, node, key), if up == null then node else root, z, up, node, Br(Nil, node, key, true, Nil))
    ensures Adding(z, Br(Nil, node, key, true, Nil), E + {(key, node)})
  {
    PlugBalanced(z, Nil);
    assert up == null <==> z.Top?;
    var t := Br(Nil, node, key, true, Nil);
    assert ZipEntries(z) == E;
    assert Nodes(t) == {node} && Entries(t) == {(key, node)};
    assert Entries(t) + ZipEntries(z) == E + {(key, node)};
    assert Sorted(Nil, Lo(z), key) && Sorted(Nil, key, Hi(z));
    assert Fits(z, t, E + {(key, node)});
    assert Shaded(z, t);
    assert Rep(Hung(m, z, up, node, key), node, up, t);
    Refill(m, Hung(m, z, up, node, key), root, if up == null then node else root, z, up, null, node);
  }

  lemma NodesGrow(t: Shape, t': Shape, key: Key, node: Node)
    requires Entries(t') == Entries(t) + {(key, node)}
    ensures Nodes(t') == Nodes(t) + {node}
  {
    EntryNodes(t);
    EntryNodes(t');
  }
}
