/** Whole histories of one tree: whatever is added and deleted, the tree stays red-black and stays a map from keys to
    nodes. */
module WepollTreeHistory {
  import opened WepollTreeShape
  import opened WepollTreeUnlink
  import opened WepollTree

  datatype Op = Insert(node: Node, key: Key) | Erase(node: Node)

  ghost predicate Has(E: set<(Key, Node)>, key: Key) { exists e :: e in E && e.0 == key }

  /** The nodes that are in use. */
  ghost function Used(E: set<(Key, Node)>): set<Node> { set e | e in E :: e.1 }

  /** Only a free node may be added, and only a node of the tree may be deleted. */
  ghost predicate Legal(E: set<(Key, Node)>, op: Op) { op.Insert? <==> op.node !in Used(E) }

  ghost function Applied(E: set<(Key, Node)>, op: Op): set<(Key, Node)> {
    match op
    case Insert(node, key) => if Has(E, key) then E else E + {(key, node)}
    case Erase(node) => set e | e in E && e.1 != node
  }

  ghost function AfterAll(E: set<(Key, Node)>, ops: seq<Op>): set<(Key, Node)>
    decreases |ops|
  {
    if ops == [] then E else AfterAll(Applied(E, ops[0]), ops[1..])
  }

  ghost predicate AllLegal(E: set<(Key, Node)>, ops: seq<Op>)
    decreases |ops|
  {
    ops == [] || (Legal(E, ops[0]) && AllLegal(Applied(E, ops[0]), ops[1..]))
  }

  /** A partial one-to-one map from keys to nodes. */
  ghost predicate OneToOne(E: set<(Key, Node)>) {
    forall a, b :: a in E && b in E && (a.0 == b.0 || a.1 == b.1) ==> a == b
  }

  lemma {:induction false} SortedOneToOne(t: Shape, lo: int, hi: int)
    requires Sorted(t, lo, hi) && Apart(t)
    ensures OneToOne(Entries(t))
  {
    if t.Br? {
      SortedOneToOne(t.left, lo, t.key);
      SortedOneToOne(t.right, t.key, hi);
      SortedEntries(t.left, lo, t.key);
      SortedEntries(t.right, t.key, hi);
      forall a, b | a in Entries(t) && b in Entries(t) && a.1 == b.1 ensures a == b {
        OneKey(t, a, b);
      }
    }
  }

  /** The contents of a red-black tree are a map. */
  lemma ContentsAreMap(t: Shape)
    requires RedBlack(t)
    ensures OneToOne(Entries(t)) && Used(Entries(t)) == Nodes(t)
  {
    SortedOneToOne(t, -1, KEY_LIMIT);
    EntryNodes(t);
  }

  lemma ErasedIsApplied(E: set<(Key, Node)>, key: Key, node: Node)
    requires OneToOne(E) && (key, node) in E
    ensures Applied(E, Erase(node)) == E - {(key, node)}
  {
  }

  /** Runs a history on a tree: the tree ends up red-black, with exactly the contents that the history leaves. */
  method History(t: Tree, ops: seq<Op>)
    requires t.Valid() && AllLegal(Entries(t.shape), ops)
    modifies t, t.mem.Keys, set op | op in ops :: op.node
    ensures t.Valid() && Entries(t.shape) == AfterAll(old(Entries(t.shape)), ops)
  {
    hide Rep, RedBlack, Entries, Nodes;
    ghost var E0 := Entries(t.shape);
    var i := 0;
    while i < |ops|
      invariant i <= |ops| && t.Valid() && AllLegal(Entries(t.shape), ops[i..])
      invariant t.mem.Keys <= old(t.mem.Keys) + set op | op in ops :: op.node
      invariant AfterAll(Entries(t.shape), ops[i..]) == AfterAll(E0, ops)
    {
      assert ops[i] in ops && ops[i..][1..] == ops[i + 1..];
      ContentsAreMap(t.shape);
      Perform(t, ops[i]);
      ContentsAreMap(t.shape);
      i := i + 1;
    }
  }

  /** One operation. An addition reports -1 exactly if the key is taken. */
  method Perform(t: Tree, op: Op)
    requires t.Valid() && Legal(Entries(t.shape), op)
    modifies t, t.mem.Keys, op.node
    ensures t.Valid() && Entries(t.shape) == Applied(old(Entries(t.shape)), op)
    ensures t.mem.Keys <= old(t.mem.Keys) + {op.node}
  {
    ContentsAreMap(t.shape);
    hide Rep, RedBlack, Entries, Nodes;
    match op {
      case Insert(node, key) =>
        var r := t.Add(node, key);
      case Erase(node) =>
        ghost var E := Entries(t.shape);
        t.Delete(node);
        ghost var key := old(node.key);
        ErasedIsApplied(E, key, node);
    }
    ContentsAreMap(t.shape);
  }
}
