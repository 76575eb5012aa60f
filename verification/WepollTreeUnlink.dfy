/** The first half of tree_del: a node leaves the tree, and with two children its successor takes its place. */
module WepollTreeUnlink {
  import opened WepollTreeShape
  import opened WepollTreeRemove

  // ----- The leftmost node of a subtree

  ghost function Min(r: Shape): (s: Shape)
    requires r.Br?
    ensures s.Br? && s.left.Nil? && s.node in Nodes(r)
  {
    if r.left.Nil? then r else Min(r.left)
  }

  ghost function WithoutMin(r: Shape): Shape
    requires r.Br?
  {
    if r.left.Nil? then r.right else Br(WithoutMin(r.left), r.node, r.key, r.red, r.right)
  }

  /** The path to the leftmost node of r, which hangs in the hole of base. */
  ghost function MinZip(r: Shape, base: Zip): Zip
    requires r.Br?
  {
    if r.left.Nil? then base else MinZip(r.left, InLeft(r.node, r.key, r.red, base, r.right))
  }

  lemma {:induction false} MinPlug(r: Shape, base: Zip)
    requires r.Br?
    ensures Plug(MinZip(r, base), Min(r).right) == Plug(base, WithoutMin(r))
    ensures Plug(MinZip(r, base), Min(r)) == Plug(base, r)
    ensures !base.Top? ==> !MinZip(r, base).Top?
  {
    if r.left.Br? {
      MinPlug(r.left, InLeft(r.node, r.key, r.red, base, r.right));
    }
  }

  lemma {:induction false} MinFits(r: Shape, lo: int, hi: int)
    requires r.Br? && Sorted(r, lo, hi) && Apart(r)
    ensures var s := Min(r);
      && lo < s.key < hi && Sorted(WithoutMin(r), s.key, hi)
      && Entries(r) == Entries(WithoutMin(r)) + {(s.key, s.node)}
      && Apart(WithoutMin(r)) && Nodes(r) == Nodes(WithoutMin(r)) + {s.node} && s.node !in Nodes(WithoutMin(r))
  {
    if r.left.Br? {
      MinFits(r.left, lo, r.key);
    }
  }

  lemma {:induction false} MinBalanced(r: Shape, base: Zip)
    requires r.Br? && Balanced(r) && ZipBalanced(base, BlackHeight(r)) && !(r.red && ZipRed(base))
    requires !base.Top? && BlackRoot(base)
    ensures var s := Min(r);
      && Balanced(s.right) && ZipBalanced(MinZip(r, base), BlackHeight(s.right) + if s.red then 0 else 1)
      && (s.red ==> !Red(s.right)) && BlackRoot(MinZip(r, base))
  {
    if r.left.Br? {
      MinBalanced(r.left, InLeft(r.node, r.key, r.red, base, r.right));
    }
  }

  // ----- What is left after the removal of the root of t

  ghost function Joined(t: Shape): Shape
    requires t.Br?
  {
    if t.left.Nil? then t.right
    else if t.right.Nil? then t.left
    else Br(t.left, Min(t.right).node, Min(t.right).key, t.red, WithoutMin(t.right))
  }

  /** The position where a black node may be missing. */
  ghost function JoinZip(z: Zip, t: Shape): Zip
    requires t.Br?
  {
    if t.left.Nil? || t.right.Nil? then z
    else MinZip(t.right, InRight(t.left, Min(t.right).node, Min(t.right).key, t.red, z))
  }

  ghost function JoinShape(t: Shape): Shape
    requires t.Br?
  {
    if t.left.Nil? then t.right
    else if t.right.Nil? then t.left
    else Min(t.right).right
  }

  ghost function JoinRed(t: Shape): bool
    requires t.Br?
  {
    if t.left.Nil? || t.right.Nil? then t.red else Min(t.right).red
  }

  lemma {:induction false} JoinPlug(z: Zip, t: Shape)
    requires t.Br?
    ensures Plug(JoinZip(z, t), JoinShape(t)) == Plug(z, Joined(t))
  {
    if t.left.Br? && t.right.Br? {
      MinPlug(t.right, InRight(t.left, Min(t.right).node, Min(t.right).key, t.red, z));
    }
  }

  lemma {:induction false} JoinedFits(z: Zip, t: Shape, E: set<(Key, Node)>)
    requires Fits(z, t, E) && t.Br?
    ensures Fits(z, Joined(t), E - {(t.key, t.node)})
  {
    JoinedSorted(t, Lo(z), Hi(z));
    JoinedParts(t, Lo(z), Hi(z));
    ZipSortedEntries(z);
  }

  lemma {:induction false} JoinedSorted(t: Shape, lo: int, hi: int)
    requires t.Br? && Sorted(t, lo, hi) && Apart(t)
    ensures Sorted(Joined(t), lo, hi)
  {
    if t.left.Br? && t.right.Br? {
      MinFits(t.right, t.key, hi);
      SortedWider(t.left, lo, t.key, Min(t.right).key);
    } else {
      SortedWider(t.left, lo, t.key, hi);
      SortedDown(t.right, t.key, hi, lo);
    }
  }

  lemma {:induction false} JoinedParts(t: Shape, lo: int, hi: int)
    requires t.Br? && Sorted(t, lo, hi) && Apart(t)
    ensures Apart(Joined(t)) && Nodes(Joined(t)) == Nodes(t) - {t.node}
    ensures Entries(Joined(t)) == Entries(t) - {(t.key, t.node)} && (t.key, t.node) in Entries(t)
    ensures lo < t.key < hi
  {
    SortedEntries(t.left, lo, t.key);
    SortedEntries(t.right, t.key, hi);
    if t.left.Br? && t.right.Br? {
      MinFits(t.right, t.key, hi);
    }
  }

  lemma {:induction false} SortedWider(t: Shape, lo: int, hi: int, hi': int)
    requires Sorted(t, lo, hi) && hi <= hi'
    ensures Sorted(t, lo, hi')
  {
    if t.Br? {
      SortedWider(t.right, t.key, hi, hi');
    }
  }

  lemma {:induction false} SortedDown(t: Shape, lo: int, hi: int, lo': int)
    requires Sorted(t, lo, hi) && lo' <= lo
    ensures Sorted(t, lo', hi)
  {
    if t.Br? {
      SortedDown(t.left, lo, t.key, lo');
    }
  }

  lemma {:induction false} JoinColors(z: Zip, t: Shape)
    requires t.Br? && Balanced(t) && ZipBalanced(z, BlackHeight(t)) && !(t.red && ZipRed(z))
    requires if z.Top? then !t.red else BlackRoot(z)
    ensures Balanced(JoinShape(t)) &&
      ZipBalanced(JoinZip(z, t), BlackHeight(JoinShape(t)) + if JoinRed(t) then 0 else 1)
    ensures JoinRed(t) ==> !Red(JoinShape(t))
    ensures BlackRoot(JoinZip(z, t))
  {
    if t.left.Br? && t.right.Br? {
      MinBalanced(t.right, InRight(t.left, Min(t.right).node, Min(t.right).key, t.red, z));
    }
  }

  /** Taking out a red node leaves a red-black tree; taking out a black one leaves one black node missing. */
  lemma {:induction false} Joins(z: Zip, t: Shape, E: set<(Key, Node)>)
    requires Settled(z, t, E) && t.Br?
    ensures var E' := E - {(t.key, t.node)};
      if JoinRed(t) then Settled(JoinZip(z, t), JoinShape(t), E') else Removing(JoinZip(z, t), JoinShape(t), E')
  {
    var E' := E - {(t.key, t.node)};
    JoinedFits(z, t, E);
    JoinPlug(z, t);
    PlugParts(z, Joined(t));
    PlugEntries(z, Joined(t));
    PlugParts(JoinZip(z, t), JoinShape(t));
    PlugEntries(JoinZip(z, t), JoinShape(t));
    JoinColors(z, t);
  }

  // ----- The pointer writes

  /** The successor of the removed node leaves its place deep in the right subtree, whose root p gets a new parent. */
  lemma {:induction false} WithoutMinRep(m: Memory, m': Memory, p: Node, up: Node, up': Node, r: Shape,
                                         par: Node, next: Node, child: Node?)
    requires Rep(m, p, up, r) && Apart(r) && r.Br? && r.left.Br?
    requires next == Min(r).node && next in m && par == m[next].parent && child == m[next].right
    requires p in m && p in m' && m'[p] == m[p].(parent := up', left := if p == par then child else m[p].left)
    requires par in m && par in m' && (p != par ==> m'[par] == m[par].(left := child))
    requires child != null ==> child in m && child in m' && m'[child] == m[child].(parent := par)
    requires Same(m, m', Nodes(r) - {p, par, next} - (if child == null then {} else {child}))
    ensures Rep(m', p, up', WithoutMin(r))
    decreases r
  {
    var q := m[p].left;
    assert Rep(m, q, p, r.left) && Rep(m, m[p].right, p, r.right) && Apart(r.left);
    assert Rep(m, m[q].right, q, r.left.right);
    MinParent(m, q, p, r.left);
    FrameRep(m, m', m[p].right, p, r.right);
    if r.left.left.Nil? {
      assert child != null ==> child in Nodes(r.left.right);
      Reparent(m, m', child, next, p, r.left.right);
    } else {
      WithoutMinRep(m, m', q, p, p, r.left, par, next, child);
    }
  }

  /** The parent and the right child of the leftmost node stay inside the subtree. */
  lemma {:induction false} MinParent(m: Memory, p: Node, up: Node, r: Shape)
    requires Rep(m, p, up, r) && Apart(r) && r.Br?
    ensures var next := Min(r).node;
      && next in m && m[next].parent != null &&
        (m[next].right != null ==> m[next].right in Nodes(r) && m[next].right in m)
      && Rep(m, m[next].right, next, Min(r).right) && next != m[next].right && m[next].right != p
      && (if r.left.Nil? then m[next].parent == up && next == p
          else m[next].parent in Nodes(r) && m[next].parent in m && next != p && m[next].parent != next
               && m[next].parent != m[next].right)
    decreases r
  {
    assert Rep(m, m[p].right, p, r.right) && Rep(m, m[p].left, p, r.left);
    assert m[p].right != null ==> m[p].right in Nodes(r.right);
    if r.left.Br? {
      MinParent(m, m[p].left, p, r.left);
    }
  }

  /** A node with at most one child is replaced by that child. */
  ghost function UnlinkedOne(m: Memory, parent: Node?, node: Node, next: Node?): Memory {
    ParentSet(Relinked(m, parent, node, next), next, parent)
  }

  /** A node with two children is replaced by its successor next. */
  ghost function UnlinkedTwo(m: Memory, parent: Node?, node: Node, red: bool, left: Node, right: Node, next: Node,
                             par: Node, child: Node?): Memory
  {
    var m1 := SetParent(SetLeft(SetRed(Relinked(m, parent, node, next), next, red), next, left), left, next);
    if next != right then
      ParentSet(SetParent(SetRight(SetLeft(SetParent(m1, next, parent), par, child), next, right), right, next), child,
        par)
    else
      ParentSet(SetParent(m1, next, parent), child, next)
  }

  lemma {:induction false} UnlinkOneAt(m: Memory, root: Node?, z: Zip, up: Node?, node: Node, t: Shape, next: Node?)
    requires At(m, root, z, up, node, t) && AllApart(z, t) && t.Br? && node in m && (t.left.Nil? || t.right.Nil?)
    requires next == if m[node].left == null then m[node].right else m[node].left
    ensures At(UnlinkedOne(m, up, node, next), if up == null then next else root, z, up, next, Joined(t))
  {
    assert Rep(m, m[node].left, node, t.left) && Rep(m, m[node].right, node, t.right);
    RelinkedZip(m, root, z, up, node, next);
    var m1 := Relinked(m, up, node, next);
    var m' := UnlinkedOne(m, up, node, next);
    assert next != null ==> next in Nodes(Joined(t)) && next in Nodes(t);
    assert up != null ==> up in ZipNodes(z);
    FrameZip(m1, m', if up == null then next else root, z, up, next);
    Reparent(m, m', next, node, up, Joined(t));
  }

  /** Nodes that the writes of UnlinkedTwo touch, and how they lie in the tree. */
  lemma {:induction false} UnlinkTwoFacts(m: Memory, root: Node?, z: Zip, up: Node?, node: Node, t: Shape, next: Node)
    requires At(m, root, z, up, node, t) && AllApart(z, t) && t.Br? && t.left.Br? && t.right.Br? &&
      next == Min(t.right).node
    ensures node == t.node && (z.Top? <==> up == null) && node in Nodes(t) && t.left.node in Nodes(t.left) &&
      t.right.node in Nodes(t.right)
    ensures node in m && next in m && m[node].left == t.left.node && m[node].right == t.right.node &&
      m[node].red == t.red
    ensures m[node].parent == up
    ensures t.left.node in m && t.right.node in m && m[next].parent != null && m[next].parent in m
    ensures m[next].right != null ==> m[next].right in m && m[next].right in Nodes(t.right)
    ensures next in Nodes(t.right) && (t.right.left.Nil? <==> next == t.right.node)
    ensures m[next].parent in (if t.right.left.Nil? then {node} else Nodes(t.right))
    ensures m[next].parent != next && m[next].right != next && m[next].parent != m[next].right
    ensures m[next].right != t.right.node && m[next].key == Min(t.right).key && m[next].red == Min(t.right).red
    ensures m[next].left == null && Rep(m, m[next].right, next, Min(t.right).right)
    ensures up != null ==> up in ZipNodes(z) && up in m
  {
    assert Rep(m, m[node].left, node, t.left) && Rep(m, m[node].right, node, t.right) && Apart(t.right);
    MinParent(m, m[node].right, node, t.right);
    MinCell(m, m[node].right, node, t.right);
    assert up != null ==> up in m;
  }

  lemma {:induction false} MinCell(m: Memory, p: Node?, up: Node?, r: Shape)
    requires Rep(m, p, up, r) && r.Br?
    ensures var s := Min(r); s.node in m && m[s.node].key == s.key && m[s.node].red == s.red && m[s.node].left == null
    decreases r
  {
    if r.left.Br? {
      MinCell(m, m[p].left, p, r.left);
    }
  }

  lemma {:induction false} UnlinkNearAt(m: Memory, root: Node?, z: Zip, up: Node?, node: Node, t: Shape, next: Node,
                                        left: Node, right: Node)
    requires At(m, root, z, up, node, t) && AllApart(z, t) && t.Br? && t.left.Br? && t.right.Br? &&
      next == Min(t.right).node
    requires left == t.left.node && right == t.right.node && next in m && m[next].parent != null && next == right
    ensures At(UnlinkedTwo(m, up, node, t.red, left, right, next, m[next].parent, m[next].right),
              if up == null then next else root, z, up, next, Joined(t))
  {
    var par, child := m[next].parent, m[next].right;
    UnlinkTwoFacts(m, root, z, up, node, t, next);
    RelinkedZip(m, root, z, up, node, next);
    var m1 := Relinked(m, up, node, next);
    var m' := UnlinkedTwo(m, up, node, t.red, left, right, next, par, child);
    FrameZip(m1, m', if up == null then next else root, z, up, next);
    assert left in Nodes(t.left) && right in Nodes(t.right);
    Reparent(m, m', left, node, next, t.left);
    assert Apart(t.right) && Min(t.right) == t.right && WithoutMin(t.right) == t.right.right;
    assert child != null ==> child in Nodes(t.right.right);
    Reparent(m, m', child, next, next, t.right.right);
  }

  /** The cells after the writes for a successor that is not the right child itself. */
  lemma {:induction false} FarCells(m: Memory, up: Node?, node: Node, red: bool, left: Node, right: Node, next: Node,
                                    par: Node, child: Node?)
    requires left in m && right in m && next in m && par in m && (child != null ==> child in m) &&
      (up != null ==> up in m)
    requires up != left && up != right && up != next && up != par && (up != null ==> up != child)
    requires next != left && next != right && next != par && next != child && left != right && left != par
    requires left != child && right != child && par != child
    ensures var m' := UnlinkedTwo(m, up, node, red, left, right, next, par, child);
      var m1 := Relinked(m, up, node, next);
      && m'.Keys == m.Keys
      && m'[left] == m[left].(parent := next)
      && m'[right] == m[right].(parent := next, left := if right == par then child else m[right].left)
      && (right != par ==> m'[par] == m[par].(left := child))
      && m'[next] == m[next].(red := red, left := left, right := right, parent := up)
      && (child != null ==> m'[child] == m[child].(parent := par))
      && (forall n :: n in m && n != left && n != right && n != par && n != next && n != child ==> m'[n] == m1[n])
  {
  }

  lemma {:induction false} UnlinkFarAt(m: Memory, root: Node?, z: Zip, up: Node?, node: Node, t: Shape, next: Node,
                                       left: Node, right: Node)
    requires At(m, root, z, up, node, t) && AllApart(z, t) && t.Br? && t.left.Br? && t.right.Br? &&
      next == Min(t.right).node
    requires left == t.left.node && right == t.right.node && next in m && m[next].parent != null && next != right
    ensures At(UnlinkedTwo(m, up, node, t.red, left, right, next, m[next].parent, m[next].right),
              if up == null then next else root, z, up, next, Joined(t))
  {
    hide UnlinkedTwo, Relinked, Rep, ZipRep, Joined, Min;
    var par, child := m[next].parent, m[next].right;
    UnlinkTwoFacts(m, root, z, up, node, t, next);
    RelinkedZip(m, root, z, up, node, next);
    FarZip(m, root, z, up, node, t, next, left, right);
    FarCells(m, up, node, t.red, left, right, next, par, child);
    FarRep(m, UnlinkedTwo(m, up, node, t.red, left, right, next, par, child), up, node, t, next, left, right);
  }

  lemma {:induction false} FarZip(m: Memory, root: Node?, z: Zip, up: Node?, node: Node, t: Shape, next: Node,
                                  left: Node, right: Node)
    requires At(m, root, z, up, node, t) && AllApart(z, t) && t.Br? && t.left.Br? && t.right.Br? &&
      next == Min(t.right).node
    requires left == t.left.node && right == t.right.node && next in m && m[next].parent != null && next != right
    ensures ZipRep(UnlinkedTwo(m, up, node, t.red, left, right, next, m[next].parent, m[next].right),
              if up == null then next else root, z, up, next)
  {
    hide UnlinkedTwo, Relinked, Rep, ZipRep, Joined, Min;
    var par, child := m[next].parent, m[next].right;
    UnlinkTwoFacts(m, root, z, up, node, t, next);
    RelinkedZip(m, root, z, up, node, next);
    FarCells(m, up, node, t.red, left, right, next, par, child);
    var m' := UnlinkedTwo(m, up, node, t.red, left, right, next, par, child);
    FrameZip(Relinked(m, up, node, next), m', if up == null then next else root, z, up, next);
  }

  lemma {:induction false} FarRep(m: Memory, m': Memory, up: Node?, node: Node, t: Shape, next: Node, left: Node,
      right: Node)
    requires Rep(m, node, up, t) && Apart(t) && t.Br? && t.left.Br? && t.right.Br? && next == Min(t.right).node &&
      t.right.left.Br?
    requires left == t.left.node && right == t.right.node && next in m && m[next].parent != null && next in m'
    requires left in m && right in m && m[next].parent in m && left in m' && right in m' && m[next].parent in m'
    requires m'[left] == m[left].(parent := next)
    requires m'[right] == m[right].(parent := next, left :=
      if right == m[next].parent then m[next].right else m[right].left)
    requires right != m[next].parent ==> m'[m[next].parent] == m[m[next].parent].(left := m[next].right)
    requires m'[next] == m[next].(red := t.red, left := left, right := right, parent := up)
    requires m[next].right != null ==>
      m[next].right in m && m[next].right in m' && m'[m[next].right] == m[m[next].right].(parent := m[next].parent)
    requires Same(m, m', Nodes(t.left) - {left}) &&
      Same(m, m', Nodes(t.right) - {m[next].parent, next, m[next].right, right})
    ensures Rep(m', next, up, Joined(t))
  {
    MinCell(m, right, node, t.right);
    Reparent(m, m', left, node, next, t.left);
    WithoutMinRep(m, m', right, node, next, t.right, m[next].parent, next, m[next].right);
  }

  // ----- Where the rebalancing starts

  lemma {:induction false} MinZipNode(m: Memory, p: Node?, up: Node?, r: Shape, base: Zip)
    requires Rep(m, p, up, r) && r.Br? && !base.Top? && Min(r).node in m
    ensures var z := MinZip(r, base);
      !z.Top? && z.node == if r.left.Nil? then base.node else m[Min(r).node].parent
    decreases r
  {
    if r.left.Br? {
      MinZipNode(m, m[p].left, p, r.left, InLeft(r.node, r.key, r.red, base, r.right));
    }
  }

  lemma {:induction false} Forget(m: Memory, root: Node?, z: Zip, up: Node?, p: Node?, t: Shape, node: Node)
    requires At(m, root, z, up, p, t) && node !in Nodes(t) && node !in ZipNodes(z)
    ensures At(m - {node}, root, z, up, p, t)
  {
    FrameRep(m, m - {node}, p, up, t);
    FrameZip(m, m - {node}, root, z, up, p);
  }

  lemma {:induction false} JoinPosition(m: Memory, m': Memory, root': Node?, z: Zip, up: Node?, node: Node, t: Shape,
      next: Node)
    requires Rep(m, node, up, t) && t.Br? && t.left.Br? && t.right.Br? && next == Min(t.right).node && next in m
    requires At(m', root', z, up, next, Joined(t))
    ensures At(m', root', JoinZip(z, t), if t.right.left.Nil? then next
      else m[next].parent, m[next].right, JoinShape(t))
  {
    var base := InRight(t.left, next, Min(t.right).key, t.red, z);
    MinZipNode(m, m[node].right, node, t.right, base);
    MinRight(m, m[node].right, node, t.right);
    JoinPlug(z, t);
    PlugRep(m', root', z, up, next, Joined(t));
    var up', p' := UnplugRep(m', root', JoinZip(z, t), JoinShape(t));
  }

  lemma {:induction false} MinRight(m: Memory, p: Node?, up: Node?, r: Shape)
    requires Rep(m, p, up, r) && r.Br?
    ensures Min(r).node in m && Rep(m, m[Min(r).node].right, Min(r).node, Min(r).right)
    decreases r
  {
    if r.left.Br? {
      MinRight(m, m[p].left, p, r.left);
    }
  }

  /** The outcome for a node with at most one child. */
  lemma {:induction false} UnlinkOne(m: Memory, root: Node?, z: Zip, up: Node?, node: Node, t: Shape, next: Node?,
      E: set<(Key, Node)>)
    requires At(m, root, z, up, node, t) && Settled(z, t, E) && t.Br? && node in m && (t.left.Nil? || t.right.Nil?)
    requires next == if m[node].left == null then m[node].right else m[node].left
    ensures JoinRed(t) == m[node].red && m[node].key == t.key
    ensures var m' := UnlinkedOne(m, up, node, next);
      && node !in Nodes(Plug(z, Joined(t)))
      && At(m' - {node}, if up == null then next else root, JoinZip(z, t), up, next, JoinShape(t))
  {
    UnlinkOneAt(m, root, z, up, node, t, next);
    JoinedParts(t, Lo(z), Hi(z));
    PlugParts(z, Joined(t));
    Forget(UnlinkedOne(m, up, node, next), if up == null then next else root, z, up, next, Joined(t), node);
  }

  /** The outcome for a node with two children. */
  lemma {:induction false} UnlinkTwo(m: Memory, root: Node?, z: Zip, up: Node?, node: Node, t: Shape, next: Node,
                                     left: Node, right: Node, E: set<(Key, Node)>)
    requires At(m, root, z, up, node, t) && Settled(z, t, E) && t.Br? && t.left.Br? && t.right.Br? &&
      next == Min(t.right).node
    requires left == t.left.node && right == t.right.node && next in m
    ensures m[next].parent != null && m[next].parent in m && (m[next].right != null ==> m[next].right in m)
    ensures next == right ==> m[next].parent == node
    ensures JoinRed(t) == m[next].red && node in m && m[node].red == t.red
    ensures var m' := UnlinkedTwo(m, up, node, t.red, left, right, next, m[next].parent, m[next].right);
      && node !in Nodes(Plug(z, Joined(t)))
      && At(m' - {node}, if up == null then next else root, JoinZip(z, t), if next == right then next
        else m[next].parent,
            m[next].right, JoinShape(t))
  {
    UnlinkTwoFacts(m, root, z, up, node, t, next);
    if next == right {
      UnlinkNearAt(m, root, z, up, node, t, next, left, right);
    } else {
      UnlinkFarAt(m, root, z, up, node, t, next, left, right);
    }
    var m' := UnlinkedTwo(m, up, node, t.red, left, right, next, m[next].parent, m[next].right);
    var root' := if up == null then next else root;
    JoinedParts(t, Lo(z), Hi(z));
    PlugParts(z, Joined(t));
    Forget(m', root', z, up, next, Joined(t), node);
    JoinPosition(m, m' - {node}, root', z, up, node, t, next);
  }

  /** What the tests on the children of the node find out. */
  lemma {:induction false} UnlinkKind(m: Memory, root: Node?, z: Zip, up: Node?, node: Node, t: Shape)
    requires At(m, root, z, up, node, t) && t.Br?
    ensures node in m && m[node].parent == up && node == t.node && (up != null ==> up in m)
    ensures if t.left.Nil? then m[node].left == null else m[node].left == t.left.node && t.left.node in m
    ensures if t.right.Nil? then m[node].right == null else m[node].right == t.right.node && t.right.node in m
    ensures Rep(m, m[node].right, node, t.right)
  {
    assert Rep(m, m[node].left, node, t.left);
    assert Rep(m, m[node].right, node, t.right);
  }

  // ----- The ends of tree_del

  /** Painting node black leaves the tree T with contents E. */
  ghost predicate Painted(m: Memory, root: Node?, node: Node?, T: Shape, E: set<(Key, Node)>) {
    && RedBlack(T) && Entries(T) == E
    && Rep(if node == null then m else SetRed(m, node, false), root, null, T)
    && (node != null ==> node in m)
  }

  lemma {:induction false} RootPainted(m: Memory, root: Node?, T: Shape, E: set<(Key, Node)>)
    requires Rep(m, root, null, T) && RedBlack(T) && Entries(T) == E
    ensures Painted(m, root, root, T, E)
  {
    if root != null {
      assert SetRed(m, root, false) == m;
    }
  }

  lemma {:induction false} AtRoot(m: Memory, root: Node?, z: Zip, up: Node?, p: Node?, t: Shape, E: set<(Key, Node)>)
    requires At(m, root, z, up, p, t) && Removing(z, t, E) && !Red(t) && p == root
    ensures Painted(m, root, p, t, E)
  {
    SiblingExists(m, root, z, up, p, t, E);
    RootPainted(m, root, t, E);
  }

  lemma ChildFacts(m: Memory, root: Node?, z: Zip, up: Node?, p: Node?, t: Shape)
    requires At(m, root, z, up, p, t)
    ensures p != null ==> p in m && t.Br?
    ensures Red(t) <==> p != null && m[p].red
  {
  }

  lemma {:induction false} BlackChild(m: Memory, root: Node?, z: Zip, up: Node?, p: Node, t: Shape, E: set<(Key, Node)>)
    requires At(m, root, z, up, p, t) && Removing(z, t, E) && p in m && m[p].red
    ensures var T := Plug(z, Blackened(t));
      Rep(SetRed(m, p, false), root, null, T) && RedBlack(T) && Entries(T) == E
  {
    var m' := SetRed(m, p, false);
    RepaintRoot(m, m', p, up, t, false);
    FrameZip(m, m', root, z, up, p);
    PaintFits(z, t, E, false);
    assert Settled(z, Blackened(t), E);
    SettledRep(m', root, z, up, p, Blackened(t), E);
  }

  /** A node of the tree, with everything around it. */
  lemma {:induction false} Focus(m: Memory, root: Node?, shape: Shape, node: Node) returns (z: Zip, t: Shape)
    requires Rep(m, root, null, shape) && RedBlack(shape) && node in Nodes(shape)
    ensures node in m && At(m, root, z, m[node].parent, node, t) && Settled(z, t, Entries(shape)) && t.Br?
    ensures t.node == node && t.key == m[node].key && (t.key, node) in Entries(shape)
  {
    z, t := Locate(Top, shape, node);
    SettledTree(z, t, Entries(shape));
    var up, p := UnplugRep(m, root, z, t);
  }

  lemma NodesShrink(t: Shape, t': Shape, key: Key, node: Node)
    requires RedBlack(t) && Entries(t') == Entries(t) - {(key, node)} && (key, node) in Entries(t)
    ensures Nodes(t') == Nodes(t) - {node}
  {
    EntryNodes(t);
    EntryNodes(t');
    forall e | e in Entries(t) && e.1 == node
      ensures e == (key, node)
    {
      OneKey(t, e, (key, node));
    }
  }

  lemma {:induction false} OneKey(t: Shape, e: (Key, Node), e': (Key, Node))
    requires Apart(t) && e in Entries(t) && e' in Entries(t) && e.1 == e'.1
    ensures e == e'
  {
    EntryNodes(t.left);
    EntryNodes(t.right);
    assert forall x :: x in Entries(t.left) ==> x.1 in Nodes(t.left);
    assert forall x :: x in Entries(t.right) ==> x.1 in Nodes(t.right);
    if e in Entries(t.left) && e' in Entries(t.left) {
      OneKey(t.left, e, e');
    } else if e in Entries(t.right) && e' in Entries(t.right) {
      OneKey(t.right, e, e');
    }
  }
}
