/** What tree_del does to shapes: taking a node out, and rebalancing a subtree that is one black node short. */
module WepollTreeRemove {
  import opened WepollTreeShape

  /** Everything is red-black, but the paths through the hole of z are one black node short. */
  ghost predicate Removing(z: Zip, t: Shape, E: set<(Key, Node)>) {
    Fits(z, t, E) && Short(z, t)
  }

  ghost predicate Short(z: Zip, t: Shape) {
    Balanced(t) && ZipBalanced(z, BlackHeight(t) + 1) && BlackRoot(z)
  }

  /** Position (z, t) belongs to a red-black tree with contents E. */
  ghost predicate Settled(z: Zip, t: Shape, E: set<(Key, Node)>) {
    && Fits(z, t, E)
    && Balanced(t) && ZipBalanced(z, BlackHeight(t)) && !(Red(t) && ZipRed(z))
    && (if z.Top? then !Red(t) else BlackRoot(z))
  }

  lemma {:induction false} SettledTree(z: Zip, t: Shape, E: set<(Key, Node)>)
    ensures Settled(z, t, E) <==> RedBlack(Plug(z, t)) && Entries(Plug(z, t)) == E
  {
    PlugParts(z, t);
    PlugEntries(z, t);
    PlugBalanced(z, t);
  }

  lemma {:induction false} SettledRep(m: Memory, root: Node?, z: Zip, up: Node?, p: Node?, t: Shape,
      E: set<(Key, Node)>)
    requires At(m, root, z, up, p, t) && Settled(z, t, E)
    ensures Rep(m, root, null, Plug(z, t)) && RedBlack(Plug(z, t)) && Entries(Plug(z, t)) == E
  {
    SettledTree(z, t, E);
    PlugRep(m, root, z, up, p, t);
  }

  // ----- Pointer tests of the loop

  /** The loop stops at the root; elsewhere there is a sibling, and the pointer test tells the sides apart. */
  lemma {:induction false} SiblingExists(m: Memory, root: Node?, z: Zip, up: Node?, p: Node?, t: Shape,
      E: set<(Key, Node)>)
    requires At(m, root, z, up, p, t) && Removing(z, t, E)
    ensures p == root <==> z.Top?
    ensures !z.Top? ==> Sibling(z).Br? && up != null && up in m && z.node == up && m[up].red == z.red
    ensures !z.Top? ==> (z.InLeft? <==> m[up].left == p)
    ensures !z.Top? ==>
      var s := if z.InLeft? then m[up].right else m[up].left;
      s == Sibling(z).node && s in m && m[s].red == Sibling(z).red
  {
    if !z.Top? {
      RootInZip(m, root, z, up, p);
      assert p != null ==> p in Nodes(t);
    }
  }

  lemma {:induction false} RootInZip(m: Memory, root: Node?, z: Zip, up: Node?, p: Node?)
    requires ZipRep(m, root, z, up, p) && !z.Top?
    ensures root != null && root in ZipNodes(z)
  {
    if !z.up.Top? {
      RootInZip(m, root, z.up, m[z.node].parent, z.node);
    }
  }

  // ----- Focusing on the sibling and back

  ghost function Switched(z: Zip, t: Shape): Zip
    requires !z.Top?
  {
    match z
    case InLeft(n, k, c, u, _) => InRight(t, n, k, c, u)
    case InRight(_, n, k, c, u) => InLeft(n, k, c, u, t)
  }

  lemma {:induction false} SwitchAt(m: Memory, root: Node?, z: Zip, up: Node, p: Node?, t: Shape, s: Node?)
    requires At(m, root, z, up, p, t) && !z.Top? && up in m && s == if z.InLeft? then m[up].right else m[up].left
    ensures At(m, root, Switched(z, t), up, s, Sibling(z))
  {
  }

  lemma {:induction false} SwitchFits(z: Zip, t: Shape, E: set<(Key, Node)>)
    requires Fits(z, t, E) && !z.Top?
    ensures Fits(Switched(z, t), Sibling(z), E)
  {
    LiftFits(z, t, E);
    LiftFits(Switched(z, t), Sibling(z), E);
  }

  // ----- No nephew is red

  ghost function Reddened(z: Zip, t: Shape): (r: Shape)
    requires !z.Top? && Sibling(z).Br?
    ensures r.Br?
  {
    Fill(Switched(z, t), Sibling(z).(red := true))
  }

  ghost predicate NoRedNephew(s: Shape) { s.Br? && !s.red && !Red(s.left) && !Red(s.right) }

  /** No nephew is red: the sibling turns red, and the parent is one black node short, unless it is red and can turn
      black. */
  lemma {:induction false} Redden(z: Zip, t: Shape, E: set<(Key, Node)>)
    requires Removing(z, t, E) && !z.Top? && NoRedNephew(Sibling(z))
    ensures !z.red ==> Removing(z.up, Reddened(z, t), E)
    ensures z.red ==> Settled(z.up, Blackened(Reddened(z, t)), E)
  {
    ReddenFits(z, t, E);
    PaintFits(z.up, Reddened(z, t), E, false);
    assert Balanced(Sibling(z)) && Balanced(Sibling(z).(red := true));
  }

  lemma {:induction false} ReddenFits(z: Zip, t: Shape, E: set<(Key, Node)>)
    requires Fits(z, t, E) && !z.Top? && Sibling(z).Br?
    ensures Fits(z.up, Reddened(z, t), E)
  {
    SwitchFits(z, t, E);
    PaintFits(Switched(z, t), Sibling(z), E, true);
    LiftFits(Switched(z, t), Sibling(z).(red := true), E);
  }

  lemma {:induction false} ReddenedAt(m: Memory, root: Node?, z: Zip, up: Node, p: Node?, t: Shape,
      E: set<(Key, Node)>, s: Node)
    requires At(m, root, z, up, p, t) && Removing(z, t, E) && !z.Top? && Sibling(z).Br? && s == Sibling(z).node
    ensures var m1 := SetRed(m, s, true);
      && up in m1 && At(m1, root, z.up, m1[up].parent, up, Reddened(z, t))
      && var m2 := SetRed(m1, up, false);
      && At(m2, root, z.up, m1[up].parent, up, Blackened(Reddened(z, t)))
  {
    var m1 := SetRed(m, s, true);
    LiftAt(m, root, z, up, p, t);
    assert Rep(m, if z.InLeft? then m[up].right else m[up].left, up, Sibling(z));
    RepaintRoot(m, m1, s, up, Sibling(z), true);
    FrameRep(m, m1, p, up, t);
    FrameZip(m, m1, root, z.up, m[up].parent, up);
    var m2 := SetRed(m1, up, false);
    var t1 := Reddened(z, t);
    ReddenFits(z, t, E);
    RepaintRoot(m1, m2, up, m1[up].parent, t1, false);
    FrameZip(m1, m2, root, z.up, m1[up].parent, up);
  }

  /** The outcome of the round then. */
  lemma {:induction false} ReddenedStep(m: Memory, root: Node?, z: Zip, up: Node, p: Node?, t: Shape,
      E: set<(Key, Node)>, s: Node)
    requires At(m, root, z, up, p, t) && Removing(z, t, E) && !z.Top? && NoRedNephew(Sibling(z)) && s == Sibling(z).node
    ensures var m1 := SetRed(m, s, true);
      var T := Reddened(z, t);
      && up in m1 && m1[up].red == z.red && m1[up].red == T.red
      && (!z.red ==> At(m1, root, z.up, m1[up].parent, up, T) && Removing(z.up, T, E))
      && (z.red ==> var B := Plug(z.up, Blackened(T));
        Rep(SetRed(m1, up, false), root, null, B) && RedBlack(B) && Entries(B) == E)
  {
    Redden(z, t, E);
    ReddenedAt(m, root, z, up, p, t, E, s);
    SiblingExists(m, root, z, up, p, t, E);
    if z.red {
      SettledRep(SetRed(SetRed(m, s, true), up, false), root, z.up, m[up].parent, up, Blackened(Reddened(z, t)), E);
    }
  }

  // ----- The rotations, seen from either side

  /** The child of the sibling that is next to the hole, and the other one. */
  ghost function Inner(z: Zip): Shape
    requires !z.Top? && Sibling(z).Br?
  {
    if z.InLeft? then Sibling(z).left else Sibling(z).right
  }

  ghost function Outer(z: Zip): Shape
    requires !z.Top? && Sibling(z).Br?
  {
    if z.InLeft? then Sibling(z).right else Sibling(z).left
  }

  ghost function Lowered(z: Zip): Zip
    requires !z.Top? && Sibling(z).Br?
  {
    match z
    case InLeft(n, k, _, u, s) => InLeft(n, k, true, InLeft(s.node, s.key, false, u, s.right), s.left)
    case InRight(s, n, k, _, u) => InRight(s.right, n, k, true, InRight(s.left, s.node, s.key, false, u))
  }

  /** A red sibling is rotated above the parent; afterwards the sibling is black. */
  lemma {:induction false} Lower(z: Zip, t: Shape, E: set<(Key, Node)>)
    requires Removing(z, t, E) && !z.Top? && Red(Sibling(z))
    ensures Removing(Lowered(z), t, E) && Sibling(Lowered(z)).Br? && !Red(Sibling(Lowered(z)))
    ensures Lowered(z).up.up == z.up
  {
    LowerFits(z, t, E);
    assert Balanced(Sibling(z)) && BlackHeight(Sibling(z)) == BlackHeight(t) + 1;
  }

  lemma {:induction false} LowerFits(z: Zip, t: Shape, E: set<(Key, Node)>)
    requires Fits(z, t, E) && !z.Top? && Sibling(z).Br?
    ensures Fits(Lowered(z), t, E)
  {
    var s := Sibling(z);
    var s' := s.(red := false);
    var zs := Switched(Paint(z, true), t);
    PaintFits(z, t, E, true);
    SwitchFits(Paint(z, true), t, E);
    PaintFits(zs, s, E, false);
    SwitchFits(zs, s', E);
    var z1 := Switched(zs, s');
    LiftFits(z1, t, E);
    if z.InLeft? {
      RotLeftFits(z.up, Fill(z1, t), E);
    } else {
      RotRightFits(z.up, Fill(z1, t), E);
    }
    LiftFits(Lowered(z).up, Fill(Lowered(z), t), E);
    LiftFits(Lowered(z), t, E);
  }

  ghost function Turned(z: Zip): Zip
    requires !z.Top? && Sibling(z).Br? && Inner(z).Br?
  {
    var r := Inner(z);
    match z
    case InLeft(n, k, c, u, s) =>
      InLeft(n, k, c, u, Br(r.left, r.node, r.key, false, Br(r.right, s.node, s.key, true, s.right)))
    case InRight(s, n, k, c, u) =>
      InRight(Br(Br(s.left, s.node, s.key, true, r.left), r.node, r.key, false, r.right), n, k, c, u)
  }

  /** The sibling's inner child is red: a rotation at the sibling makes its outer child red. */
  lemma {:induction false} Turn(z: Zip, t: Shape, E: set<(Key, Node)>)
    requires Removing(z, t, E) && !z.Top? && Sibling(z).Br? && !Sibling(z).red && Red(Inner(z)) && !Red(Outer(z))
    ensures Removing(Turned(z), t, E)
    ensures !z.Top? && Sibling(Turned(z)).Br? && !Sibling(Turned(z)).red && Red(Outer(Turned(z)))
    ensures Turned(z).up == z.up && Turned(z).red == z.red && (Turned(z).InLeft? <==> z.InLeft?)
  {
    var s, r := Sibling(z), Inner(z);
    var r' := r.(red := false);
    SwitchFits(z, t, E);
    var zs := Switched(z, t);
    var zr := if z.InLeft? then InLeft(s.node, s.key, s.red, zs, s.right)
      else InRight(s.left, s.node, s.key, s.red, zs);
    LiftFits(zr, r, E);
    PaintFits(zr, r, E, false);
    PaintFits(zr, r', E, true);
    LiftFits(Paint(zr, true), r', E);
    var s1 := Fill(Paint(zr, true), r');
    if z.InLeft? {
      RotRightFits(zs, s1, E);
      SwitchFits(zs, RotRight(s1), E);
    } else {
      RotLeftFits(zs, s1, E);
      SwitchFits(zs, RotLeft(s1), E);
    }
    TurnColors(z, t);
  }

  lemma {:induction false} TurnColors(z: Zip, t: Shape)
    requires Short(z, t) && !z.Top? && Sibling(z).Br? && !Sibling(z).red && Red(Inner(z)) && !Red(Outer(z))
    ensures Short(Turned(z), t)
  {
    var s, r := Sibling(z), Inner(z);
    assert Balanced(s) && Balanced(r) && BlackHeight(s) == BlackHeight(t) + 1;
    var low := if z.InLeft? then Br(r.right, s.node, s.key, true, s.right) else Br(s.left, s.node, s.key, true, r.left);
    assert Balanced(low) && BlackHeight(low) == BlackHeight(t);
    assert Balanced(Sibling(Turned(z)));
  }

  /** The new sibling of a finishing round: as red as the parent was, above a black outer child. */
  ghost function Raised(z: Zip): Shape
    requires !z.Top? && Sibling(z).Br? && Outer(z).Br?
  {
    var s, r := Sibling(z), Outer(z).(red := false);
    if z.InLeft? then Br(s.left, s.node, s.key, z.red, r) else Br(r, s.node, s.key, z.red, s.right)
  }

  ghost function Finished(z: Zip, t: Shape): Shape
    requires !z.Top? && Sibling(z).Br? && Outer(z).Br?
  {
    var s := Raised(z);
    if z.InLeft? then Br(Br(t, z.node, z.key, false, s.left), s.node, s.key, z.red, s.right)
    else Br(s.left, s.node, s.key, z.red, Br(s.right, z.node, z.key, false, t))
  }

  /** The sibling's outer child is red: a rotation at the parent supplies the missing black node. */
  lemma {:induction false} Finish(z: Zip, t: Shape, E: set<(Key, Node)>)
    requires Removing(z, t, E) && !z.Top? && Sibling(z).Br? && !Sibling(z).red && Red(Outer(z))
    ensures Settled(z.up, Finished(z, t), E)
  {
    FinishFits(z, t, E);
    FinishColors(z, t);
  }

  lemma {:induction false} FinishFits(z: Zip, t: Shape, E: set<(Key, Node)>)
    requires Fits(z, t, E) && !z.Top? && Sibling(z).Br? && Outer(z).Br?
    ensures Fits(z.up, Finished(z, t), E)
  {
    RaiseFits(z, t, E);
    var t1 := Fill(Paint(Switched(z, t), false), Raised(z));
    if z.InLeft? {
      RotLeftFits(z.up, t1, E);
    } else {
      RotRightFits(z.up, t1, E);
    }
  }

  /** Before the rotation only colours have changed. */
  lemma {:induction false} RaiseFits(z: Zip, t: Shape, E: set<(Key, Node)>)
    requires Fits(z, t, E) && !z.Top? && Sibling(z).Br? && Outer(z).Br?
    ensures Fits(z.up, Fill(Paint(Switched(z, t), false), Raised(z)), E)
  {
    var s, r := Sibling(z), Outer(z);
    SwitchFits(z, t, E);
    var zs := Switched(z, t);
    PaintFits(zs, s, E, z.red);
    var zr := if z.InLeft? then InRight(s.left, s.node, s.key, z.red, zs)
      else InLeft(s.node, s.key, z.red, zs, s.right);
    LiftFits(zr, r, E);
    PaintFits(zr, r, E, false);
    LiftFits(zr, r.(red := false), E);
    PaintFits(zs, Raised(z), E, false);
    LiftFits(Paint(zs, false), Raised(z), E);
  }

  lemma {:induction false} FinishColors(z: Zip, t: Shape)
    requires Short(z, t) && !z.Top? && Sibling(z).Br? && !Sibling(z).red && Red(Outer(z))
    ensures Balanced(Finished(z, t)) && ZipBalanced(z.up, BlackHeight(Finished(z, t)))
    ensures Red(Finished(z, t)) == z.red && (z.up.Top? ==> !z.red) && BlackRoot(z.up)
  {
    var s, r := Sibling(z), Outer(z);
    assert Balanced(s) && Balanced(r) && BlackHeight(s) == BlackHeight(t) + 1;
    assert Balanced(r.(red := false)) && BlackHeight(r.(red := false)) == BlackHeight(t) + 1;
    var low := if z.InLeft? then Br(t, z.node, z.key, false, s.left) else Br(s.right, z.node, z.key, false, t);
    assert Balanced(low) && BlackHeight(low) == BlackHeight(t) + 1;
    var T := Finished(z, t);
    assert Balanced(T) && BlackHeight(T) == BlackHeight(t) + 1 + if z.red then 0 else 1;
    assert ZipBalanced(z.up, BlackHeight(T));
  }

  // ----- The same on pointers, up to the rotations

  /** What the tests on the sibling's children find out. */
  lemma {:induction false} Nephews(m: Memory, root: Node?, z: Zip, up: Node, p: Node?, t: Shape)
    requires At(m, root, z, up, p, t) && !z.Top? && Sibling(z).Br?
    ensures var q := Sibling(z); var s := q.node;
      && up == z.node && up in m && s in m && s == (if z.InLeft? then m[up].right else m[up].left)
      && m[up].red == z.red
      && (if q.left.Br? then m[s].left == q.left.node && m[s].left in m && m[m[s].left].red == q.left.red
          else m[s].left == null)
      && (if q.right.Br? then m[s].right == q.right.node && m[s].right in m && m[m[s].right].red == q.right.red
          else m[s].right == null)
  {
    SiblingRep(m, root, z, up, p, t);
  }

  lemma {:induction false} SiblingRep(m: Memory, root: Node?, z: Zip, up: Node, p: Node?, t: Shape)
    requires At(m, root, z, up, p, t) && !z.Top? && Sibling(z).Br?
    ensures var s := Sibling(z).node;
      && up == z.node && up in m && s in m && s == (if z.InLeft? then m[up].right else m[up].left)
      && Rep(m, s, up, Sibling(z)) && s in Nodes(Sibling(z))
      && Rep(m, m[s].left, s, Sibling(z).left) && Rep(m, m[s].right, s, Sibling(z).right)
  {
    assert Rep(m, if z.InLeft? then m[up].right else m[up].left, up, Sibling(z));
  }

  lemma {:induction false} Lowering(m: Memory, m1: Memory, root: Node?, z: Zip, up: Node, p: Node?, t: Shape,
      s: Node)
    requires At(m, root, z, up, p, t) && AllApart(z, t) && !z.Top? && Red(Sibling(z)) && s == Sibling(z).node
    requires m1 == SetRed(SetRed(m, s, false), up, true)
    ensures up in m1 && m1[up].parent == m[up].parent
    ensures var t1 := Fill(Paint(Switched(z, t), true), Sibling(z).(red := false));
      At(m1, root, z.up, m[up].parent, up, t1) && AllApart(z.up, t1)
  {
    LiftAt(m, root, z, up, p, t);
    SiblingRep(m, root, z, up, p, t);
    assert Apart(Sibling(z));
    RepaintRoot(m, m1, s, up, Sibling(z), false);
    FrameRep(m, m1, p, up, t);
    FrameZip(m, m1, root, z.up, m[up].parent, up);
  }

  /** The sibling before its rotation. */
  ghost function Bent(z: Zip): Shape
    requires !z.Top? && Sibling(z).Br? && Inner(z).Br?
  {
    var s, r := Sibling(z), Inner(z).(red := false);
    if z.InLeft? then Br(r, s.node, s.key, true, s.right) else Br(s.left, s.node, s.key, true, r)
  }

  lemma {:induction false} Turning(m: Memory, m1: Memory, root: Node?, z: Zip, up: Node, p: Node?, t: Shape,
      E: set<(Key, Node)>, s: Node, r: Node)
    requires At(m, root, z, up, p, t) && Removing(z, t, E) && !z.Top? && Sibling(z).Br? && s == Sibling(z).node
    requires Inner(z).Br? && r == Inner(z).node
    requires m1 == SetRed(SetRed(m, r, false), s, true)
    ensures up in m && s in m && r in m
    ensures s == (if z.InLeft? then m[up].right else m[up].left) && r == if z.InLeft? then m[s].left else m[s].right
    ensures At(m1, root, Switched(z, t), up, s, Bent(z)) && AllApart(Switched(z, t), Bent(z))
  {
    SiblingRep(m, root, z, up, p, t);
    SwitchAt(m, root, z, up, p, t, s);
    SwitchFits(z, t, E);
    assert Apart(Sibling(z));
    RepaintRoot(m, m1, r, s, Inner(z), false);
    FrameRep(m, m1, if z.InLeft? then m[s].right else m[s].left, s, Outer(z));
    FrameZip(m, m1, root, Switched(z, t), up, s);
  }

  lemma {:induction false} Finishing(m: Memory, m1: Memory, root: Node?, z: Zip, up: Node, p: Node?, t: Shape,
      s: Node, r: Node)
    requires At(m, root, z, up, p, t) && AllApart(z, t) && !z.Top? && Sibling(z).Br? && s == Sibling(z).node
    requires Outer(z).Br? && r == Outer(z).node
    requires m1 == SetRed(SetRed(SetRed(m, s, z.red), r, false), up, false)
    ensures up in m1 && s in m1 && m1[up].parent == m[up].parent
    ensures s == if z.InLeft? then m1[up].right else m1[up].left
    ensures var t1 := Fill(Paint(Switched(z, t), false), Raised(z));
      At(m1, root, z.up, m[up].parent, up, t1)
  {
    LiftAt(m, root, z, up, p, t);
    SiblingRep(m, root, z, up, p, t);
    assert Apart(Sibling(z));
    RepaintRoot(m, m1, r, s, Outer(z), false);
    FrameRep(m, m1, if z.InLeft? then m[s].left else m[s].right, s, Inner(z));
    FrameRep(m, m1, p, up, t);
    FrameZip(m, m1, root, z.up, m[up].parent, up);
  }

  // ----- The hole is the left child of its parent

  lemma {:induction false} LoweredLeftAt(m: Memory, root: Node?, z: Zip, up: Node, p: Node?, t: Shape,
      E: set<(Key, Node)>, s: Node)
    requires At(m, root, z, up, p, t) && Removing(z, t, E) && z.InLeft? && Red(z.right) && s == z.right.node
    ensures var m1 := SetRed(SetRed(m, s, false), up, true);
      && CanRotateLeft(m1, up) && m1[up].right == s
      && var m2 := RotatedLeft(m1, up, s, m1[s].left, m1[up].parent);
      && At(m2, if m1[up].parent == null then s else root, Lowered(z), up, p, t)
      && up in m2 && m2[up].right != null && m2[up].right == Lowered(z).right.node
  {
    Lower(z, t, E);
    var m1 := SetRed(SetRed(m, s, false), up, true);
    Lowering(m, m1, root, z, up, p, t, s);
    var t1 := Fill(InLeft(z.node, z.key, true, z.up, z.right.(red := false)), t);
    RotatableLeft(m1, root, z.up, m1[up].parent, up, t1);
    RotatedLeftAt(m1, root, z.up, m1[up].parent, up, t1, s);
    var m2 := RotatedLeft(m1, up, s, m1[s].left, m1[up].parent);
    assert Rep(m2, m2[s].left, s, Fill(Lowered(z), t)) && Rep(m2, m2[up].right, up, Lowered(z).right);
  }

  lemma {:induction false} TurnedLeftAt(m: Memory, root: Node?, z: Zip, up: Node, p: Node?, t: Shape,
      E: set<(Key, Node)>, s: Node, r: Node)
    requires At(m, root, z, up, p, t) && Removing(z, t, E) && z.InLeft? && z.right.Br? && s == z.right.node
    requires z.right.left.Br? && r == z.right.left.node
    ensures var m1 := SetRed(SetRed(m, r, false), s, true);
      && CanRotateRight(m1, s) && m1[s].left == r && m1[s].parent == up
      && var m2 := RotatedRight(m1, s, r, m1[r].right, up);
      && At(m2, root, Turned(z), up, p, t)
      && up in m2 && m2[up].right == r
  {
    var m1 := SetRed(SetRed(m, r, false), s, true);
    SwitchFits(z, t, E);
    Turning(m, m1, root, z, up, p, t, E, s, r);
    var zs := Switched(z, t);
    var s1 := Br(z.right.left.(red := false), z.right.node, z.right.key, true, z.right.right);
    RotatableRight(m1, root, zs, up, s, s1);
    RotatedRightAt(m1, root, zs, up, s, s1, r);
    SwitchAt(RotatedRight(m1, s, r, m1[r].right, up), root, zs, up, r, RotRight(s1), p);
  }

  lemma {:induction false} FinishedLeftAt(m: Memory, root: Node?, z: Zip, up: Node, p: Node?, t: Shape,
      E: set<(Key, Node)>, s: Node, r: Node)
    requires At(m, root, z, up, p, t) && Removing(z, t, E) && z.InLeft? && z.right.Br? && s == z.right.node
    requires z.right.right.Br? && r == z.right.right.node
    ensures var m1 := SetRed(SetRed(SetRed(m, s, z.red), r, false), up, false);
      && CanRotateLeft(m1, up) && m1[up].right == s
      && var m2 := RotatedLeft(m1, up, s, m1[s].left, m1[up].parent);
      && At(m2, if m1[up].parent == null then s else root, z.up, m1[up].parent, s, Finished(z, t))
  {
    var m1 := SetRed(SetRed(SetRed(m, s, z.red), r, false), up, false);
    Finishing(m, m1, root, z, up, p, t, s, r);
    RaiseFits(z, t, E);
    var s1 := Br(z.right.left, z.right.node, z.right.key, z.red, z.right.right.(red := false));
    var t1 := Br(t, z.node, z.key, false, s1);
    RotatableLeft(m1, root, z.up, m1[up].parent, up, t1);
    RotatedLeftAt(m1, root, z.up, m1[up].parent, up, t1, s);
  }

  /** The outcome of the round when the outer nephew is red. */
  lemma {:induction false} FinishedLeftStep(m: Memory, root: Node?, z: Zip, up: Node, p: Node?, t: Shape,
      E: set<(Key, Node)>, s: Node, r: Node)
    requires At(m, root, z, up, p, t) && Removing(z, t, E) && z.InLeft? && z.right.Br? && s == z.right.node &&
      !z.right.red
    requires Red(z.right.right) && r == z.right.right.node
    ensures var m1 := SetRed(SetRed(SetRed(m, s, z.red), r, false), up, false);
      && CanRotateLeft(m1, up) && m1[up].right == s
      && var m2 := RotatedLeft(m1, up, s, m1[s].left, m1[up].parent);
      && var T := Plug(z.up, Finished(z, t));
      && Rep(m2, if m1[up].parent == null then s else root, null, T) && RedBlack(T) && Entries(T) == E
  {
    Finish(z, t, E);
    FinishedLeftAt(m, root, z, up, p, t, E, s, r);
    var m1 := SetRed(SetRed(SetRed(m, s, z.red), r, false), up, false);
    var m2 := RotatedLeft(m1, up, s, m1[s].left, m1[up].parent);
    SettledRep(m2, if m1[up].parent == null then s else root, z.up, m1[up].parent, s, Finished(z, t), E);
  }

  // ----- The hole is the right child of its parent

  lemma {:induction false} LoweredRightAt(m: Memory, root: Node?, z: Zip, up: Node, p: Node?, t: Shape,
      E: set<(Key, Node)>, s: Node)
    requires At(m, root, z, up, p, t) && Removing(z, t, E) && z.InRight? && Red(z.left) && s == z.left.node
    ensures var m1 := SetRed(SetRed(m, s, false), up, true);
      && CanRotateRight(m1, up) && m1[up].left == s
      && var m2 := RotatedRight(m1, up, s, m1[s].right, m1[up].parent);
      && At(m2, if m1[up].parent == null then s else root, Lowered(z), up, p, t)
      && up in m2 && m2[up].left != null && m2[up].left == Lowered(z).left.node
  {
    Lower(z, t, E);
    var m1 := SetRed(SetRed(m, s, false), up, true);
    Lowering(m, m1, root, z, up, p, t, s);
    var t1 := Fill(InRight(z.left.(red := false), z.node, z.key, true, z.up), t);
    RotatableRight(m1, root, z.up, m1[up].parent, up, t1);
    RotatedRightAt(m1, root, z.up, m1[up].parent, up, t1, s);
    var m2 := RotatedRight(m1, up, s, m1[s].right, m1[up].parent);
    assert Rep(m2, m2[s].right, s, Fill(Lowered(z), t)) && Rep(m2, m2[up].left, up, Lowered(z).left);
  }

  lemma {:induction false} TurnedRightAt(m: Memory, root: Node?, z: Zip, up: Node, p: Node?, t: Shape,
      E: set<(Key, Node)>, s: Node, r: Node)
    requires At(m, root, z, up, p, t) && Removing(z, t, E) && z.InRight? && z.left.Br? && s == z.left.node
    requires z.left.right.Br? && r == z.left.right.node
    ensures var m1 := SetRed(SetRed(m, r, false), s, true);
      && CanRotateLeft(m1, s) && m1[s].right == r && m1[s].parent == up
      && var m2 := RotatedLeft(m1, s, r, m1[r].left, up);
      && At(m2, root, Turned(z), up, p, t)
      && up in m2 && m2[up].left == r
  {
    var m1 := SetRed(SetRed(m, r, false), s, true);
    SwitchFits(z, t, E);
    Turning(m, m1, root, z, up, p, t, E, s, r);
    var zs := Switched(z, t);
    var s1 := Br(z.left.left, z.left.node, z.left.key, true, z.left.right.(red := false));
    RotatableLeft(m1, root, zs, up, s, s1);
    RotatedLeftAt(m1, root, zs, up, s, s1, r);
    SwitchAt(RotatedLeft(m1, s, r, m1[r].left, up), root, zs, up, r, RotLeft(s1), p);
  }

  lemma {:induction false} FinishedRightAt(m: Memory, root: Node?, z: Zip, up: Node, p: Node?, t: Shape,
      E: set<(Key, Node)>, s: Node, r: Node)
    requires At(m, root, z, up, p, t) && Removing(z, t, E) && z.InRight? && z.left.Br? && s == z.left.node
    requires z.left.left.Br? && r == z.left.left.node
    ensures var m1 := SetRed(SetRed(SetRed(m, s, z.red), r, false), up, false);
      && CanRotateRight(m1, up) && m1[up].left == s
      && var m2 := RotatedRight(m1, up, s, m1[s].right, m1[up].parent);
      && At(m2, if m1[up].parent == null then s else root, z.up, m1[up].parent, s, Finished(z, t))
  {
    var m1 := SetRed(SetRed(SetRed(m, s, z.red), r, false), up, false);
    Finishing(m, m1, root, z, up, p, t, s, r);
    RaiseFits(z, t, E);
    var s1 := Br(z.left.left.(red := false), z.left.node, z.left.key, z.red, z.left.right);
    var t1 := Br(s1, z.node, z.key, false, t);
    RotatableRight(m1, root, z.up, m1[up].parent, up, t1);
    RotatedRightAt(m1, root, z.up, m1[up].parent, up, t1, s);
  }

  /** The outcome of the round when the outer nephew is red. */
  lemma {:induction false} FinishedRightStep(m: Memory, root: Node?, z: Zip, up: Node, p: Node?, t: Shape,
      E: set<(Key, Node)>, s: Node, r: Node)
    requires At(m, root, z, up, p, t) && Removing(z, t, E) && z.InRight? && z.left.Br? && s == z.left.node &&
      !z.left.red
    requires Red(z.left.left) && r == z.left.left.node
    ensures var m1 := SetRed(SetRed(SetRed(m, s, z.red), r, false), up, false);
      && CanRotateRight(m1, up) && m1[up].left == s
      && var m2 := RotatedRight(m1, up, s, m1[s].right, m1[up].parent);
      && var T := Plug(z.up, Finished(z, t));
      && Rep(m2, if m1[up].parent == null then s else root, null, T) && RedBlack(T) && Entries(T) == E
  {
    Finish(z, t, E);
    FinishedRightAt(m, root, z, up, p, t, E, s, r);
    var m1 := SetRed(SetRed(SetRed(m, s, z.red), r, false), up, false);
    var m2 := RotatedRight(m1, up, s, m1[s].right, m1[up].parent);
    SettledRep(m2, if m1[up].parent == null then s else root, z.up, m1[up].parent, s, Finished(z, t), E);
  }
}
