/** The intrusive red-black tree of wepoll.c: nodes carry parent pointers and are relinked in place. */
module WepollTree {
  import opened WepollTreeShape
  import opened WepollTreeInsert
  import opened WepollTreeRemove
  import opened WepollTreeUnlink

  class Tree {
    var root: Node?
    // The shape the pointers represent, and a copy of the fields of its nodes.
    ghost var shape: Shape
    ghost var mem: Memory

    ghost predicate Mirrors()
      reads this, mem.Keys
    {
      forall n :: n in mem ==> mem[n] == Cell(n.left, n.right, n.parent, n.key, n.red)
    }

    ghost predicate Valid()
      reads this, mem.Keys
    {
      && Mirrors() && mem.Keys == Nodes(shape)
      && Rep(mem, root, null, shape) && RedBlack(shape)
    }

    // tree_init
    constructor ()
      ensures Valid() && shape == Nil
    {
      root, shape, mem := null, Nil, map[];
    }

    // ----- Single pointer writes, kept in step with the copy

    method WriteLeft(n: Node, v: Node?)
      requires Mirrors() && n in mem
      modifies this`mem, n`left
      ensures Mirrors() && mem == SetLeft(old(mem), n, v) && mem.Keys == old(mem.Keys)
    {
      n.left := v;
      mem := SetLeft(mem, n, v);
    }

    method WriteRight(n: Node, v: Node?)
      requires Mirrors() && n in mem
      modifies this`mem, n`right
      ensures Mirrors() && mem == SetRight(old(mem), n, v) && mem.Keys == old(mem.Keys)
    {
      n.right := v;
      mem := SetRight(mem, n, v);
    }

    method WriteParent(n: Node, v: Node?)
      requires Mirrors() && n in mem
      modifies this`mem, n`parent
      ensures Mirrors() && mem == SetParent(old(mem), n, v) && mem.Keys == old(mem.Keys)
    {
      n.parent := v;
      mem := SetParent(mem, n, v);
    }

    method WriteRed(n: Node, c: bool)
      requires Mirrors() && n in mem
      modifies this`mem, n`red
      ensures Mirrors() && mem == SetRed(old(mem), n, c) && mem.Keys == old(mem.Keys)
    {
      n.red := c;
      mem := SetRed(mem, n, c);
    }

    /** Makes next take node's place below parent. */
    method ReplaceChild(parent: Node?, node: Node, next: Node?)
      requires Mirrors() && (parent != null ==> parent in mem)
      modifies this`root, this`mem, mem.Keys
      ensures Mirrors() && mem == Relinked(old(mem), parent, node, next) && mem.Keys == old(mem.Keys)
      ensures root == if parent == null then next else old(root)
    {
      if parent != null {
        if parent.left == node {
          WriteLeft(parent, next);
        } else {
          WriteRight(parent, next);
        }
      } else {
        root := next;
      }
    }

    method Reattach(child: Node?, parent: Node?)
      requires Mirrors() && (child != null ==> child in mem)
      modifies this`mem, mem.Keys
      ensures Mirrors() && mem.Keys == old(mem.Keys) && mem == ParentSet(old(mem), child, parent)
    {
      if child != null {
        WriteParent(child, parent);
      }
    }

    /** The pointer writes that both rotations begin with. */
    method Swap(parent: Node?, p: Node, q: Node)
      requires Mirrors() && p in mem && q in mem && (parent != null ==> parent in mem)
      modifies this`root, this`mem, mem.Keys
      ensures Mirrors() && mem.Keys == old(mem.Keys)
      ensures mem == Swapped(old(mem), p, q, parent) && root == if parent == null then q else old(root)
    {
      hide SetLeft, SetRight, SetParent, Relinked, Mirrors;
      ReplaceChild(parent, p, q);
      WriteParent(q, parent);
      WriteParent(p, q);
    }

    /** The pointer writes of TREE__ROTATE(left, right). */
    method ExchangeLeft(parent: Node?, p: Node, q: Node, inner: Node?)
      requires Mirrors() && p in mem && q in mem && (parent != null ==> parent in mem) &&
        (inner != null ==> inner in mem)
      modifies this`root, this`mem, mem.Keys
      ensures Mirrors() && mem.Keys == old(mem.Keys)
      ensures mem == RotatedLeft(old(mem), p, q, inner, parent) && root == if parent == null then q else old(root)
    {
      hide SetLeft, SetRight, ParentSet, Swapped, Mirrors;
      Swap(parent, p, q);
      WriteRight(p, inner);
      Reattach(inner, p);
      WriteLeft(q, p);
    }

    // TREE__ROTATE(left, right)
    method RotateLeft(node: Node)
      requires Mirrors() && CanRotateLeft(mem, node)
      modifies this`root, this`mem, mem.Keys
      ensures Mirrors() && mem.Keys == old(mem.Keys)
      ensures var m := old(mem);
        var q := m[node].right;
        && mem == RotatedLeft(m, node, q, m[q].left, m[node].parent)
        && root == if m[node].parent == null then q else old(root)
    {
      var p := node;
      var q := node.right;
      var parent := p.parent;
      var inner := q.left;
      ExchangeLeft(parent, p, q, inner);
    }

    /** The pointer writes of TREE__ROTATE(right, left). */
    method ExchangeRight(parent: Node?, p: Node, q: Node, inner: Node?)
      requires Mirrors() && p in mem && q in mem && (parent != null ==> parent in mem) &&
        (inner != null ==> inner in mem)
      modifies this`root, this`mem, mem.Keys
      ensures Mirrors() && mem.Keys == old(mem.Keys)
      ensures mem == RotatedRight(old(mem), p, q, inner, parent) && root == if parent == null then q else old(root)
    {
      hide SetLeft, SetRight, ParentSet, Swapped, Mirrors;
      Swap(parent, p, q);
      WriteLeft(p, inner);
      Reattach(inner, p);
      WriteRight(q, p);
    }

    // TREE__ROTATE(right, left)
    method RotateRight(node: Node)
      requires Mirrors() && CanRotateRight(mem, node)
      modifies this`root, this`mem, mem.Keys
      ensures Mirrors() && mem.Keys == old(mem.Keys)
      ensures var m := old(mem);
        var q := m[node].left;
        && mem == RotatedRight(m, node, q, m[q].right, m[node].parent)
        && root == if m[node].parent == null then q else old(root)
    {
      var p := node;
      var q := node.left;
      var parent := p.parent;
      var inner := q.right;
      ExchangeRight(parent, p, q, inner);
    }

    // TREE__REBALANCE_AFTER_INSERT(left, right)
    method RebalanceInsertLeft(parent: Node, child: Node, ghost z: Zip, ghost t: Shape, ghost E: set<(Key, Node)>)
      returns (node: Node, ghost z': Zip, ghost t': Shape)
      requires Mirrors() && At(mem, root, z, parent, child, t) && Adding(z, t, E) && ZipRed(z) && z.up.InLeft?
      modifies this`root, this`mem, mem.Keys
      ensures Mirrors() && mem.Keys == old(mem.Keys)
      ensures node in mem && At(mem, root, z', mem[node].parent, node, t') && Adding(z', t', E)
      ensures ZipRed(z') ==> z' == z.up.up
    {
      hide At, Adding, Recolored, OuterZip, SetRed;
      node := child;
      GrandparentLeft(mem, root, z, parent, node, t, E);
      var grandparent := parent.parent;
      var uncle := grandparent.right;
      if uncle != null && uncle.red {
        RecoloredStep(mem, root, z, parent, node, t, E);
        WriteRed(uncle, false);
        PaintBlackRed(parent, grandparent);
        node := grandparent;
        z', t' := z.up.up, Recolored(z, t);
      } else {
        node, z', t' := TurnAndFinishLeft(parent, node, grandparent, z, t, E);
      }
    }

    method TurnAndFinishLeft(parent: Node, child: Node, grandparent: Node, ghost z: Zip, ghost t: Shape,
        ghost E: set<(Key, Node)>)
      returns (node: Node, ghost z': Zip, ghost t': Shape)
      requires Mirrors() && At(mem, root, z, parent, child, t) && Adding(z, t, E) && ZipRed(z) && z.up.InLeft?
      requires !Red(Sibling(z.up)) && grandparent == z.up.node && parent in mem &&
        (z.InRight? <==> mem[parent].right == child)
      modifies this`root, this`mem, mem.Keys
      ensures Mirrors() && mem.Keys == old(mem.Keys)
      ensures node in mem && At(mem, root, z', mem[node].parent, node, t') && Adding(z', t', E)
      ensures !ZipRed(z')
    {
      hide At, Adding, InnerShape, InnerZip, OuterZip, RotatedLeft, RotatedRight, SetRed;
      node := child;
      z', t' := z, t;
      var up := parent;
      if node == parent.right {
        InsertTurnedLeft(mem, root, z, parent, node, t, E);
        RotateLeft(parent);
        z', t' := InnerZip(z, t), InnerShape(z, t);
        node, up := parent, node;
      }
      z' := FinishInsertLeft(up, node, grandparent, z', t', E);
    }

    method FinishInsertLeft(parent: Node, node: Node, grandparent: Node, ghost z: Zip, ghost t: Shape,
        ghost E: set<(Key, Node)>)
      returns (ghost z': Zip)
      requires Mirrors() && At(mem, root, z, parent, node, t) && Adding(z, t, E) && ZipRed(z) && z.InLeft? &&
        z.up.InLeft?
      requires !Red(Sibling(z.up)) && grandparent == z.up.node
      modifies this`root, this`mem, mem.Keys
      ensures Mirrors() && mem.Keys == old(mem.Keys)
      ensures node in mem && At(mem, root, z', mem[node].parent, node, t) && Adding(z', t, E)
      ensures !ZipRed(z')
    {
      hide At, Adding, OuterZip, RotatedRight, SetRed, Mirrors;
      InsertFinishedLeft(mem, root, z, parent, node, t, E, grandparent);
      PaintBlackRed(parent, grandparent);
      RotateRight(grandparent);
      z' := OuterZip(z);
    }

    // TREE__REBALANCE_AFTER_INSERT(right, left)
    method RebalanceInsertRight(parent: Node, child: Node, ghost z: Zip, ghost t: Shape, ghost E: set<(Key, Node)>)
      returns (node: Node, ghost z': Zip, ghost t': Shape)
      requires Mirrors() && At(mem, root, z, parent, child, t) && Adding(z, t, E) && ZipRed(z) && z.up.InRight?
      modifies this`root, this`mem, mem.Keys
      ensures Mirrors() && mem.Keys == old(mem.Keys)
      ensures node in mem && At(mem, root, z', mem[node].parent, node, t') && Adding(z', t', E)
      ensures ZipRed(z') ==> z' == z.up.up
    {
      hide At, Adding, Recolored, OuterZip, SetRed;
      node := child;
      GrandparentRight(mem, root, z, parent, node, t, E);
      var grandparent := parent.parent;
      var uncle := grandparent.left;
      if uncle != null && uncle.red {
        RecoloredStep(mem, root, z, parent, node, t, E);
        WriteRed(uncle, false);
        PaintBlackRed(parent, grandparent);
        node := grandparent;
        z', t' := z.up.up, Recolored(z, t);
      } else {
        node, z', t' := TurnAndFinishRight(parent, node, grandparent, z, t, E);
      }
    }

    method TurnAndFinishRight(parent: Node, child: Node, grandparent: Node, ghost z: Zip, ghost t: Shape,
        ghost E: set<(Key, Node)>)
      returns (node: Node, ghost z': Zip, ghost t': Shape)
      requires Mirrors() && At(mem, root, z, parent, child, t) && Adding(z, t, E) && ZipRed(z) && z.up.InRight?
      requires !Red(Sibling(z.up)) && grandparent == z.up.node && parent in mem &&
        (z.InLeft? <==> mem[parent].left == child)
      modifies this`root, this`mem, mem.Keys
      ensures Mirrors() && mem.Keys == old(mem.Keys)
      ensures node in mem && At(mem, root, z', mem[node].parent, node, t') && Adding(z', t', E)
      ensures !ZipRed(z')
    {
      hide At, Adding, InnerShape, InnerZip, OuterZip, RotatedLeft, RotatedRight, SetRed;
      node := child;
      z', t' := z, t;
      var up := parent;
      if node == parent.left {
        InsertTurnedRight(mem, root, z, parent, node, t, E);
        RotateRight(parent);
        z', t' := InnerZip(z, t), InnerShape(z, t);
        node, up := parent, node;
      }
      z' := FinishInsertRight(up, node, grandparent, z', t', E);
    }

    method FinishInsertRight(parent: Node, node: Node, grandparent: Node, ghost z: Zip, ghost t: Shape,
        ghost E: set<(Key, Node)>)
      returns (ghost z': Zip)
      requires Mirrors() && At(mem, root, z, parent, node, t) && Adding(z, t, E) && ZipRed(z) && z.InRight? &&
        z.up.InRight?
      requires !Red(Sibling(z.up)) && grandparent == z.up.node
      modifies this`root, this`mem, mem.Keys
      ensures Mirrors() && mem.Keys == old(mem.Keys)
      ensures node in mem && At(mem, root, z', mem[node].parent, node, t) && Adding(z', t, E)
      ensures !ZipRed(z')
    {
      hide At, Adding, OuterZip, RotatedLeft, SetRed, Mirrors;
      InsertFinishedRight(mem, root, z, parent, node, t, E, grandparent);
      PaintBlackRed(parent, grandparent);
      RotateLeft(grandparent);
      z' := OuterZip(z);
    }

    /** One round of the rebalancing loop of tree_add. */
    method RebalanceInsert(parent: Node, child: Node, ghost z: Zip, ghost t: Shape, ghost E: set<(Key, Node)>)
      returns (node: Node, ghost z': Zip, ghost t': Shape)
      requires Mirrors() && At(mem, root, z, parent, child, t) && Adding(z, t, E) && parent.red
      modifies this`root, this`mem, mem.Keys
      ensures Mirrors() && mem.Keys == old(mem.Keys)
      ensures node in mem && At(mem, root, z', mem[node].parent, node, t') && Adding(z', t', E)
      ensures ZipRed(z) && !z.up.Top? && (ZipRed(z') ==> z' == z.up.up)
    {
      hide At, Adding;
      ParentFacts(mem, root, z, parent, child, t, E);
      if parent == parent.parent.left {
        node, z', t' := RebalanceInsertLeft(parent, child, z, t, E);
      } else {
        node, z', t' := RebalanceInsertRight(parent, child, z, t, E);
      }
    }

    // The rebalancing loop of tree_add
    method RebalanceAfterInsert(start: Node, ghost z0: Zip, ghost t0: Shape, ghost E: set<(Key, Node)>)
      requires Mirrors() && start in mem && At(mem, root, z0, mem[start].parent, start, t0) && Adding(z0, t0, E)
      modifies this, mem.Keys
      ensures Mirrors() && mem.Keys == old(mem.Keys)
      ensures Rep(mem, root, null, shape) && RedBlack(shape) && Entries(shape) == E
    {
      hide At, Adding, Rep, RedBlack, Blackened, Plug, SetRed, Entries;
      var node := start;
      ghost var z, t := z0, t0;
      var parent := node.parent;
      while parent != null && parent.red
        invariant Mirrors() && mem.Keys == old(mem.Keys) && node in mem && parent == mem[node].parent
        invariant At(mem, root, z, parent, node, t) && Adding(z, t, E)
        decreases ZipRed(z), z
      {
        node, z, t := RebalanceInsert(parent, node, z, t, E);
        parent := node.parent;
      }
      Finish(parent, node, z, t, E);
    }

    /** The end of tree_add: the root becomes black. */
    method Finish(parent: Node?, node: Node, ghost z: Zip, ghost t: Shape, ghost E: set<(Key, Node)>)
      requires Mirrors() && At(mem, root, z, parent, node, t) && Adding(z, t, E) && (parent != null ==> !parent.red)
      modifies this, mem.Keys
      ensures Mirrors() && mem.Keys == old(mem.Keys)
      ensures Rep(mem, root, null, shape) && RedBlack(shape) && Entries(shape) == E
    {
      hide At, Adding, Rep, RedBlack, Blackened, Plug, SetRed, Entries;
      RootFacts(mem, root, z, parent, node, t, E);
      WriteRed(root, false);
      shape := Blackened(Plug(z, t));
    }

    /** The descent of tree_add: the node to hang the key under, or the node that has the key already. */
    method FindPlace(key: Key) returns (parent: Node?, found: bool, ghost z: Zip)
      requires Valid()
      ensures found ==> exists e :: e in Entries(shape) && e.0 == key
      ensures !found ==>
        && At(mem, root, z, parent, null, Nil) && Plug(z, Nil) == shape && Fits(z, Nil, Entries(shape)) &&
          Lo(z) < key < Hi(z)
        && (parent != null ==> parent in mem && (z.InLeft? <==> key < parent.key))
    {
      hide At, Rep, RedBlack, Plug, Fits;
      ghost var E := Entries(shape);
      StartAt(mem, root, shape);
      ghost var t := shape;
      z, parent, found := Top, root, false;
      if parent == null {
        return;
      }
      while true
        invariant parent != null && parent in mem && At(mem, root, z, mem[parent].parent, parent, t)
        invariant Plug(z, t) == shape && Lo(z) < key < Hi(z) && Fits(z, t, E)
        decreases t
      {
        Down(mem, root, z, mem[parent].parent, parent, t, E);
        if key < parent.key {
          z, t := DownLeft(z, t), t.left;
          if parent.left == null {
            return;
          }
          parent := parent.left;
        } else if key > parent.key {
          z, t := DownRight(z, t), t.right;
          if parent.right == null {
            return;
          }
          parent := parent.right;
        } else {
          found := true;
          return;
        }
      }
    }

    /** Hangs a new red node into the hole below parent. */
    method Hang(parent: Node?, node: Node, key: Key, ghost z: Zip)
      requires Mirrors() && node !in mem && (parent != null ==> parent in mem && (z.InLeft? <==> key < parent.key))
      modifies this`mem, this`root, mem.Keys, node
      ensures Mirrors() && mem == Hung(old(mem), z, parent, node, key) && root ==
        if parent == null then node else old(root)
      ensures mem.Keys == old(mem.Keys) + {node} && mem[node].parent == parent
    {
      hide SetLeft, SetRight;
      if parent != null {
        if key < parent.key {
          WriteLeft(parent, node);
        } else {
          WriteRight(parent, node);
        }
      } else {
        root := node;
      }
      MakeLeaf(parent, node, key);
    }

    method MakeLeaf(parent: Node?, node: Node, key: Key)
      requires Mirrors() && node !in mem
      modifies this`mem, node
      ensures Mirrors() && mem == old(mem)[node := Cell(null, null, parent, key, true)]
    {
      node.key := key;
      node.left, node.right := null, null;
      node.parent := parent;
      node.red := true;
      mem := mem[node := Cell(null, null, parent, key, true)];
    }

    /** tree_add: -1 exactly when the key is present, and then nothing changes. */
    method Add(node: Node, key: Key) returns (r: int)
      requires Valid() && node !in Nodes(shape)
      modifies this, mem.Keys, node
      ensures Valid()
      ensures r == if exists e :: e in old(Entries(shape)) && e.0 == key then -1 else 0
      ensures r == -1 ==> shape == old(shape) && mem == old(mem) && root == old(root) && unchanged(node)
      ensures r == 0 ==> Entries(shape) == old(Entries(shape)) + {(key, node)}
    {
      hide At, Rep, RedBlack, Plug, Fits, Adding, Hung, Mirrors, Nodes, Entries;
      ghost var E := Entries(shape);
      var parent, found, z := FindPlace(key);
      if found {
        return -1;
      }
      HoleIsFree(z, E, key);
      PlugParts(z, Nil);
      HungAt(mem, root, z, parent, node, key, E);
      Hang(parent, node, key, z);
      RebalanceAfterInsert(node, z, Br(Nil, node, key, true, Nil), E + {(key, node)});
      NodesGrow(old(shape), shape, key, node);
      return 0;
    }

    method PaintBlackRed(black: Node, red: Node)
      requires Mirrors() && black in mem && red in mem
      modifies this`mem, mem.Keys
      ensures Mirrors() && mem.Keys == old(mem.Keys)
      ensures mem == SetRed(SetRed(old(mem), black, false), red, true)
    {
      hide Mirrors, SetRed;
      WriteRed(black, false);
      WriteRed(red, true);
    }

    /** The sibling takes over the colour of the parent; parent and nephew turn black. */
    method PassColor(sibling: Node, nephew: Node, parent: Node, red: bool)
      requires Mirrors() && sibling in mem && nephew in mem && parent in mem
      modifies this`mem, mem.Keys
      ensures Mirrors() && mem.Keys == old(mem.Keys)
      ensures mem == SetRed(SetRed(SetRed(old(mem), sibling, red), nephew, false), parent, false)
    {
      hide Mirrors, SetRed;
      WriteRed(sibling, red);
      WriteRed(nephew, false);
      WriteRed(parent, false);
    }

    // ----- TREE__REBALANCE_AFTER_REMOVE(left, right)

    /** A red sibling is rotated away. */
    method LowerSiblingLeft(parent: Node, node: Node?, ghost z: Zip, ghost t: Shape, ghost E: set<(Key, Node)>)
      returns (sibling: Node, ghost z': Zip)
      requires Mirrors() && At(mem, root, z, parent, node, t) && Removing(z, t, E) && z.InLeft?
      modifies this`root, this`mem, mem.Keys
      ensures Mirrors() && mem.Keys == old(mem.Keys)
      ensures At(mem, root, z', parent, node, t) && Removing(z', t, E) && z'.InLeft?
      ensures z'.right.Br? && !z'.right.red && z'.right.node == sibling
      ensures !z'.red ==> z' == z
    {
      hide At, Removing, RotatedLeft, SetRed;
      SiblingExists(mem, root, z, parent, node, t, E);
      z' := z;
      sibling := parent.right;
      if sibling.red {
        LoweredLeftAt(mem, root, z, parent, node, t, E, sibling);
        Lower(z, t, E);
        PaintBlackRed(sibling, parent);
        RotateLeft(parent);
        z' := Lowered(z);
        sibling := parent.right;
      }
    }

    /** The sibling has a red child: after at most two rotations the tree is red-black again. */
    method FinishRemoveLeft(parent: Node, node: Node?, sibling: Node, ghost z: Zip, ghost t: Shape,
        ghost E: set<(Key, Node)>)
      returns (ghost T: Shape)
      requires Mirrors() && At(mem, root, z, parent, node, t) && Removing(z, t, E) && z.InLeft?
      requires z.right.Br? && !z.right.red && z.right.node == sibling && (Red(z.right.left) || Red(z.right.right))
      modifies this`root, this`mem, mem.Keys
      ensures Mirrors() && mem.Keys == old(mem.Keys)
      ensures Rep(mem, root, null, T) && RedBlack(T) && Entries(T) == E
    {
      hide At, Removing, Rep, RedBlack, Entries;
      ghost var z' := z;
      var s := sibling;
      Nephews(mem, root, z, parent, node, t);
      if s.right == null || !s.right.red {
        z' := TurnSiblingLeft(parent, node, s, z, t, E);
        Nephews(mem, root, z', parent, node, t);
        s := parent.right;
      }
      T := ShiftBlackLeft(parent, node, s, z', t, E);
    }

    method ShiftBlackLeft(parent: Node, node: Node?, sibling: Node, ghost z: Zip, ghost t: Shape,
        ghost E: set<(Key, Node)>)
      returns (ghost T: Shape)
      requires Mirrors() && At(mem, root, z, parent, node, t) && Removing(z, t, E) && z.InLeft?
      requires z.right.Br? && !z.right.red && z.right.node == sibling && Red(z.right.right)
      modifies this`root, this`mem, mem.Keys
      ensures Mirrors() && mem.Keys == old(mem.Keys)
      ensures Rep(mem, root, null, T) && RedBlack(T) && Entries(T) == E
    {
      hide At, Removing, SetRed, RotatedLeft, Plug, Rep, RedBlack, Entries, Finished;
      Nephews(mem, root, z, parent, node, t);
      var nephew := sibling.right;
      var red := parent.red;
      T := Plug(z.up, Finished(z, t));
      FinishedLeftStep(mem, root, z, parent, node, t, E, sibling, nephew);
      hide Mirrors, CanRotateLeft;
      PassColor(sibling, nephew, parent, red);
      RotateLeft(parent);
    }

    method TurnSiblingLeft(parent: Node, node: Node?, sibling: Node, ghost z: Zip, ghost t: Shape,
        ghost E: set<(Key, Node)>)
      returns (ghost z': Zip)
      requires Mirrors() && At(mem, root, z, parent, node, t) && Removing(z, t, E) && z.InLeft?
      requires z.right.Br? && !z.right.red && z.right.node == sibling && Red(z.right.left) && !Red(z.right.right)
      modifies this`root, this`mem, mem.Keys
      ensures Mirrors() && mem.Keys == old(mem.Keys)
      ensures At(mem, root, z', parent, node, t) && Removing(z', t, E) && z'.InLeft?
      ensures z'.right.Br? && !z'.right.red && Red(z'.right.right)
    {
      hide At, Removing, SetRed, RotatedRight;
      Nephews(mem, root, z, parent, node, t);
      TurnedLeftAt(mem, root, z, parent, node, t, E, sibling, sibling.left);
      Turn(z, t, E);
      PaintBlackRed(sibling.left, sibling);
      RotateRight(sibling);
      z' := Turned(z);
    }

    /** One round of the loop; done means that it is left with node == root. */
    method RebalanceRemoveLeft(parent: Node, node: Node?, ghost z0: Zip, ghost t: Shape, ghost E: set<(Key, Node)>)
      returns (done: bool, ghost T: Shape)
      requires Mirrors() && At(mem, root, z0, parent, node, t) && Removing(z0, t, E) && z0.InLeft?
      modifies this`root, this`mem, mem.Keys
      ensures Mirrors() && mem.Keys == old(mem.Keys) && parent in mem
      ensures done ==> Rep(mem, root, null, T) && RedBlack(T) && Entries(T) == E
      ensures !done && !mem[parent].red ==>
        At(mem, root, z0.up, mem[parent].parent, parent, T) && Removing(z0.up, T, E) && T.Br? && !T.red
      ensures !done && mem[parent].red ==>
        Rep(SetRed(mem, parent, false), root, null, T) && RedBlack(T) && Entries(T) == E
    {
      hide At, Removing, Settled, Rep, RedBlack, Plug, SetRed, Entries, Reddened;
      var sibling; ghost var z;
      sibling, z := LowerSiblingLeft(parent, node, z0, t, E);
      Nephews(mem, root, z, parent, node, t);
      if (sibling.left != null && sibling.left.red) || (sibling.right != null && sibling.right.red) {
        T := FinishRemoveLeft(parent, node, sibling, z, t, E);
        done := true;
      } else {
        ReddenedStep(mem, root, z, parent, node, t, E, sibling);
        WriteRed(sibling, true);
        done := false;
        T := if z.red then Plug(z.up, Blackened(Reddened(z, t))) else Reddened(z, t);
      }
    }

    // ----- TREE__REBALANCE_AFTER_REMOVE(right, left)

    /** A red sibling is rotated away. */
    method LowerSiblingRight(parent: Node, node: Node?, ghost z: Zip, ghost t: Shape, ghost E: set<(Key, Node)>)
      returns (sibling: Node, ghost z': Zip)
      requires Mirrors() && At(mem, root, z, parent, node, t) && Removing(z, t, E) && z.InRight?
      modifies this`root, this`mem, mem.Keys
      ensures Mirrors() && mem.Keys == old(mem.Keys)
      ensures At(mem, root, z', parent, node, t) && Removing(z', t, E) && z'.InRight?
      ensures z'.left.Br? && !z'.left.red && z'.left.node == sibling
      ensures !z'.red ==> z' == z
    {
      hide At, Removing, RotatedRight, SetRed;
      SiblingExists(mem, root, z, parent, node, t, E);
      z' := z;
      sibling := parent.left;
      if sibling.red {
        LoweredRightAt(mem, root, z, parent, node, t, E, sibling);
        Lower(z, t, E);
        PaintBlackRed(sibling, parent);
        RotateRight(parent);
        z' := Lowered(z);
        sibling := parent.left;
      }
    }

    /** The sibling has a red child: after at most two rotations the tree is red-black again. */
    method FinishRemoveRight(parent: Node, node: Node?, sibling: Node, ghost z: Zip, ghost t: Shape,
        ghost E: set<(Key, Node)>)
      returns (ghost T: Shape)
      requires Mirrors() && At(mem, root, z, parent, node, t) && Removing(z, t, E) && z.InRight?
      requires z.left.Br? && !z.left.red && z.left.node == sibling && (Red(z.left.right) || Red(z.left.left))
      modifies this`root, this`mem, mem.Keys
      ensures Mirrors() && mem.Keys == old(mem.Keys)
      ensures Rep(mem, root, null, T) && RedBlack(T) && Entries(T) == E
    {
      hide At, Removing, Rep, RedBlack, Entries;
      ghost var z' := z;
      var s := sibling;
      Nephews(mem, root, z, parent, node, t);
      if s.left == null || !s.left.red {
        z' := TurnSiblingRight(parent, node, s, z, t, E);
        Nephews(mem, root, z', parent, node, t);
        s := parent.left;
      }
      T := ShiftBlackRight(parent, node, s, z', t, E);
    }

    method ShiftBlackRight(parent: Node, node: Node?, sibling: Node, ghost z: Zip, ghost t: Shape,
        ghost E: set<(Key, Node)>)
      returns (ghost T: Shape)
      requires Mirrors() && At(mem, root, z, parent, node, t) && Removing(z, t, E) && z.InRight?
      requires z.left.Br? && !z.left.red && z.left.node == sibling && Red(z.left.left)
      modifies this`root, this`mem, mem.Keys
      ensures Mirrors() && mem.Keys == old(mem.Keys)
      ensures Rep(mem, root, null, T) && RedBlack(T) && Entries(T) == E
    {
      hide At, Removing, SetRed, RotatedRight, Plug, Rep, RedBlack, Entries, Finished;
      Nephews(mem, root, z, parent, node, t);
      var nephew := sibling.left;
      var red := parent.red;
      T := Plug(z.up, Finished(z, t));
      FinishedRightStep(mem, root, z, parent, node, t, E, sibling, nephew);
      hide Mirrors, CanRotateRight;
      PassColor(sibling, nephew, parent, red);
      RotateRight(parent);
    }

    method TurnSiblingRight(parent: Node, node: Node?, sibling: Node, ghost z: Zip, ghost t: Shape,
        ghost E: set<(Key, Node)>)
      returns (ghost z': Zip)
      requires Mirrors() && At(mem, root, z, parent, node, t) && Removing(z, t, E) && z.InRight?
      requires z.left.Br? && !z.left.red && z.left.node == sibling && Red(z.left.right) && !Red(z.left.left)
      modifies this`root, this`mem, mem.Keys
      ensures Mirrors() && mem.Keys == old(mem.Keys)
      ensures At(mem, root, z', parent, node, t) && Removing(z', t, E) && z'.InRight?
      ensures z'.left.Br? && !z'.left.red && Red(z'.left.left)
    {
      hide At, Removing, SetRed, RotatedLeft;
      Nephews(mem, root, z, parent, node, t);
      TurnedRightAt(mem, root, z, parent, node, t, E, sibling, sibling.right);
      Turn(z, t, E);
      PaintBlackRed(sibling.right, sibling);
      RotateLeft(sibling);
      z' := Turned(z);
    }

    /** One round of the loop; done means that it is left with node == root. */
    method RebalanceRemoveRight(parent: Node, node: Node?, ghost z0: Zip, ghost t: Shape, ghost E: set<(Key, Node)>)
      returns (done: bool, ghost T: Shape)
      requires Mirrors() && At(mem, root, z0, parent, node, t) && Removing(z0, t, E) && z0.InRight?
      modifies this`root, this`mem, mem.Keys
      ensures Mirrors() && mem.Keys == old(mem.Keys) && parent in mem
      ensures done ==> Rep(mem, root, null, T) && RedBlack(T) && Entries(T) == E
      ensures !done && !mem[parent].red ==>
        At(mem, root, z0.up, mem[parent].parent, parent, T) && Removing(z0.up, T, E) && T.Br? && !T.red
      ensures !done && mem[parent].red ==>
        Rep(SetRed(mem, parent, false), root, null, T) && RedBlack(T) && Entries(T) == E
    {
      hide At, Removing, Settled, Rep, RedBlack, Plug, SetRed, Entries, Reddened;
      var sibling; ghost var z;
      sibling, z := LowerSiblingRight(parent, node, z0, t, E);
      Nephews(mem, root, z, parent, node, t);
      if (sibling.left != null && sibling.left.red) || (sibling.right != null && sibling.right.red) {
        T := FinishRemoveRight(parent, node, sibling, z, t, E);
        done := true;
      } else {
        ReddenedStep(mem, root, z, parent, node, t, E, sibling);
        WriteRed(sibling, true);
        done := false;
        T := if z.red then Plug(z.up, Blackened(Reddened(z, t))) else Reddened(z, t);
      }
    }

    // ----- tree_del

    /** The successor of a node with two children: the leftmost node of its right subtree. */
    method FindNext(right: Node, ghost up: Node, ghost r: Shape) returns (next: Node)
      requires Mirrors() && Rep(mem, right, up, r) && r.Br?
      ensures next == Min(r).node && next in mem
    {
      next := right;
      ghost var s, u := r, up;
      while next.left != null
        invariant Rep(mem, next, u, s) && s.Br? && next in mem && Min(s) == Min(r)
        decreases s
      {
        u, s := next, s.left;
        next := next.left;
      }
    }

    /** Replaces node by its only child, or by nothing. */
    method UnlinkSingle(parent: Node?, node: Node, next: Node?)
      requires Mirrors() && (parent != null ==> parent in mem) && (next != null ==> next in mem)
      modifies this`root, this`mem, mem.Keys
      ensures Mirrors() && mem.Keys == old(mem.Keys)
      ensures mem == UnlinkedOne(old(mem), parent, node, next) && root == if parent == null then next else old(root)
    {
      hide Mirrors, Relinked, SetParent;
      ReplaceChild(parent, node, next);
      Reattach(next, parent);
    }

    /** Replaces node by its successor next, which has parent par and right child `child`. */
    method UnlinkDouble(above: Node?, node: Node, red: bool, left: Node, right: Node, next: Node, par: Node,
        child: Node?)
      returns (parent: Node)
      requires Mirrors() && (above != null ==> above in mem) && left in mem && right in mem && next in mem && par in mem
      requires child != null ==> child in mem
      modifies this`root, this`mem, mem.Keys
      ensures Mirrors() && mem.Keys == old(mem.Keys)
      ensures parent == if next == right then next else par
      ensures mem == UnlinkedTwo(old(mem), above, node, red, left, right, next, par, child)
      ensures root == if above == null then next else old(root)
    {
      hide Mirrors, Relinked, SetParent, SetLeft, SetRight, SetRed, ParentSet;
      AdoptLeft(above, node, left, next, red);
      if next != right {
        AdoptRight(above, right, next, par, child);
        parent := par;
      } else {
        WriteParent(next, above);
        parent := next;
      }
      Reattach(child, if next != right then par else next);
    }

    /** next moves to node's place and takes over its colour and left subtree. */
    method AdoptLeft(above: Node?, node: Node, left: Node, next: Node, red: bool)
      requires Mirrors() && (above != null ==> above in mem) && left in mem && next in mem
      modifies this`root, this`mem, mem.Keys
      ensures Mirrors() && mem.Keys == old(mem.Keys)
      ensures mem == SetParent(SetLeft(SetRed(Relinked(old(mem), above, node, next), next, red), next, left), left,
        next)
      ensures root == if above == null then next else old(root)
    {
      hide Mirrors, Relinked, SetParent, SetLeft, SetRed;
      ReplaceChild(above, node, next);
      WriteRed(next, red);
      WriteLeft(next, left);
      WriteParent(left, next);
    }

    /** next leaves its child to its old parent and takes over node's right subtree. */
    method AdoptRight(above: Node?, right: Node, next: Node, parent: Node, child: Node?)
      requires Mirrors() && right in mem && next in mem && parent in mem
      modifies this`mem, mem.Keys
      ensures Mirrors() && mem.Keys == old(mem.Keys)
      ensures mem == SetParent(SetRight(SetLeft(SetParent(old(mem), next, above), parent, child), next, right), right,
        next)
    {
      hide Mirrors, SetParent, SetLeft, SetRight;
      WriteParent(next, above);
      WriteLeft(parent, child);
      WriteRight(next, right);
      WriteParent(right, next);
    }

    /** The first half of tree_del: takes node out of the tree. */
    method Unlink(node: Node, ghost z: Zip, ghost t: Shape, ghost E: set<(Key, Node)>)
      returns (child: Node?, parent: Node?, red: bool)
      requires Mirrors() && node in mem && At(mem, root, z, mem[node].parent, node, t) && Settled(z, t, E) && t.Br?
      modifies this`root, this`mem, mem.Keys
      ensures Mirrors() && mem.Keys == old(mem.Keys) - {node}
      ensures At(mem, root, JoinZip(z, t), parent, child, JoinShape(t)) && red == JoinRed(t)
    {
      hide At, Settled, Rep, JoinZip, JoinShape, JoinRed, UnlinkedOne, UnlinkedTwo, Relinked, Plug, Nodes, Joined, Min;
      UnlinkKind(mem, root, z, mem[node].parent, node, t);
      parent := node.parent;
      var left := node.left;
      var right := node.right;
      if left == null || right == null {
        child := if left == null then right else left;
        red := node.red;
        UnlinkOne(mem, root, z, parent, node, t, child, E);
        UnlinkSingle(parent, node, child);
      } else {
        var next := FindNext(right, node, t.right);
        UnlinkTwo(mem, root, z, parent, node, t, next, left, right, E);
        child, red := next.right, next.red;
        parent := UnlinkDouble(parent, node, node.red, left, right, next, next.parent, child);
      }
      mem := mem - {node};
    }

    /** One round of the loop of tree_del, on the side where node hangs. */
    method RebalanceRemove(parent: Node, node: Node?, ghost z: Zip, ghost t: Shape, ghost E: set<(Key, Node)>)
      returns (done: bool, ghost T: Shape)
      requires Mirrors() && At(mem, root, z, parent, node, t) && Removing(z, t, E) && node != root
      modifies this`root, this`mem, mem.Keys
      ensures Mirrors() && mem.Keys == old(mem.Keys) && parent in mem && !z.Top?
      ensures done ==> Rep(mem, root, null, T) && RedBlack(T) && Entries(T) == E
      ensures !done && !mem[parent].red ==>
        At(mem, root, z.up, mem[parent].parent, parent, T) && Removing(z.up, T, E) && T.Br? && !T.red
      ensures !done && mem[parent].red ==>
        Rep(SetRed(mem, parent, false), root, null, T) && RedBlack(T) && Entries(T) == E
    {
      hide At, Removing, Rep, RedBlack, Entries, SetRed;
      SiblingExists(mem, root, z, parent, node, t, E);
      if node == parent.left {
        done, T := RebalanceRemoveLeft(parent, node, z, t, E);
      } else {
        done, T := RebalanceRemoveRight(parent, node, z, t, E);
      }
    }

    /** The loop of tree_del, entered when a black node is missing below the hole of z0. */
    method RebalanceAfterRemove(node0: Node?, parent0: Node?, ghost z0: Zip, ghost t0: Shape, ghost E: set<(Key, Node)>)
      requires Mirrors() && At(mem, root, z0, parent0, node0, t0) && Removing(z0, t0, E) && !Red(t0)
      modifies this`root, this`mem, this`shape, mem.Keys
      ensures Mirrors() && mem.Keys == old(mem.Keys)
      ensures Rep(mem, root, null, shape) && RedBlack(shape) && Entries(shape) == E
    {
      hide At, Removing, Rep, RedBlack, Entries, SetRed, Plug;
      var node, parent := node0, parent0;
      ghost var z, t := z0, t0;
      var looping := true;
      while looping
        invariant Mirrors() && mem.Keys == old(mem.Keys)
        invariant looping ==> At(mem, root, z, parent, node, t) && Removing(z, t, E) && !Red(t)
        invariant !looping ==> Painted(mem, root, node, shape, E)
        decreases looping, z
      {
        if node == root {
          AtRoot(mem, root, z, parent, node, t, E);
          shape, looping := t, false;
        } else {
          SiblingExists(mem, root, z, parent, node, t, E);
          var done; ghost var T;
          done, T := RebalanceRemove(parent, node, z, t, E);
          if done {
            RootPainted(mem, root, T, E);
            node, shape, looping := root, T, false;
          } else {
            node := parent;
            parent := parent.parent;
            if node.red {
              shape, looping := T, false;
            } else {
              z, t := z.up, T;
            }
          }
        }
      }
      Blacken(node, E);
    }

    /** The end of the rebalancing: the node that has been reached becomes black. */
    method Blacken(node: Node?, ghost E: set<(Key, Node)>)
      requires Mirrors() && Painted(mem, root, node, shape, E)
      modifies this`mem, mem.Keys
      ensures Mirrors() && mem.Keys == old(mem.Keys)
      ensures Rep(mem, root, null, shape) && RedBlack(shape) && Entries(shape) == E
    {
      hide Rep, RedBlack, Entries, SetRed;
      if node != null {
        WriteRed(node, false);
      }
    }

    /** tree_del */
    method Delete(node: Node)
      requires Valid() && node in Nodes(shape)
      modifies this, mem.Keys
      ensures Valid()
      ensures Entries(shape) == old(Entries(shape)) - {(old(node.key), node)} &&
        (old(node.key), node) in old(Entries(shape))
    {
      hide At, Removing, Settled, Rep, RedBlack, Plug, JoinZip, JoinShape, JoinRed, SetRed, Nodes, Entries;
      ghost var E := Entries(shape);
      ghost var z, t := Focus(mem, root, shape, node);
      Joins(z, t, E);
      ghost var E' := E - {(mem[node].key, node)};
      ghost var z', t' := JoinZip(z, t), JoinShape(t);
      var child, parent, red := Unlink(node, z, t, E);
      ChildFacts(mem, root, z', parent, child, t');
      if red {
        SettledRep(mem, root, z', parent, child, t', E');
        shape := Plug(z', t');
      } else if child != null && child.red {
        BlackChild(mem, root, z', parent, child, t', E');
        WriteRed(child, false);
        shape := Plug(z', Blackened(t'));
      } else {
        RebalanceAfterRemove(child, parent, z', t', E');
      }
      NodesShrink(old(shape), shape, old(mem)[node].key, node);
    }

    /** tree_find: the node with the key, if there is one; of n nodes it looks at no more than 2 log2(n + 1). */
    method Find(key: Key) returns (r: Node?, ghost steps: nat)
      requires Valid()
      ensures r != null ==> (key, r) in Entries(shape)
      ensures r == null ==> forall e :: e in Entries(shape) ==> e.0 != key
      ensures Shallow(shape, steps)
    {
      hide At, Rep, RedBlack, Plug, Fits;
      ghost var E := Entries(shape);
      StartAt(mem, root, shape);
      ghost var z, t := Top, shape;
      r, steps := root, 0;
      ghost var up := null;
      while r != null
        invariant At(mem, root, z, up, r, t) && Fits(z, t, E) && Lo(z) < key < Hi(z)
        invariant r == null <==> t.Nil?
        invariant steps + Height(t) <= Height(shape)
        decreases t
      {
        Down(mem, root, z, up, r, t, E);
        steps := steps + 1;
        up := r;
        if key < r.key {
          z, t := DownLeft(z, t), t.left;
          r := r.left;
        } else if key > r.key {
          z, t := DownRight(z, t), t.right;
          r := r.right;
        } else {
          StepsBound(shape, steps);
          return;
        }
      }
      HoleIsFree(z, E, key);
      StepsBound(shape, steps);
    }
  }
}
