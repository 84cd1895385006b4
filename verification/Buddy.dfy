/**
 The buddy allocator as the kernel keeps it: heap nodes with parent and child pointers, each
 interior node caching the OR of its children's flags. Every operation is proved against the
 value-level operations of module PageTree.
 */
module Buddy {
  import opened Bits
  import opened Errors
  import opened Options
  import opened PageTree
  import opened Marking

  /** The two-element children array, when there is one. */
  datatype Kids = NoKids | Kids(lo: Node, hi: Node)

  class Node {
    const parent: Node?
    const address: nat
    const order: nat
    const right: bool        // PNODE_BUDDY_OFFSET_NEGATIVE
    var flags: Flags
    var children: Kids
    ghost const path: Path   // which child to take at each step from the root
    ghost var model: Tree    // the subtree hanging here, as a value

    constructor Root(flags: Flags)
      ensures parent == null && address == 0 && order == MAX_ORDER && path == [] && !right
      ensures this.flags == flags && children == NoKids && model == Leaf(flags)
    {
      parent, address, order, right := null, 0, MAX_ORDER, false;
      this.flags, children := flags, NoKids;
      path, model := [], Leaf(flags);
    }

    /** ba_make_child */
    constructor Child(parent: Node, right: bool)
      requires parent.order > 0
      ensures this.parent == parent && order == parent.order - 1
      ensures path == parent.path + [right] && this.right == right
      ensures address == parent.address + (if right then Pow2(parent.order - 1) else 0)
      ensures flags == parent.flags && children == NoKids && model == Leaf(parent.flags)
    {
      this.parent := parent;
      address := parent.address + (if right then Pow2(parent.order - 1) else 0);
      order := parent.order - 1;
      this.right := right;
      flags, children := parent.flags, NoKids;
      path, model := parent.path + [right], Leaf(parent.flags);
    }
  }

  /** What a search is for, and the tree it started from. */
  datatype Query = Query(t0: Tree, m: nat, want: Flags, rev: bool)

  /** The stack of a search: its nodes, the subtrees they show, and the subtree under inspection. */
  datatype Trail = Trail(at: seq<Node>, st: seq<Item>, it: Item)

  /** Pages not yet searched: what decreases although splitting grows the tree. */
  ghost function Pages(tr: Trail): nat {
    Weight(tr.st) + Pow2(tr.it.order)
  }

  class BuddyAllocator {
    var root: Node
    ghost var nodes: set<Node>   // every node reachable from the root

    /** Links and position of one node. */
    ghost predicate Linked(n: Node)
      reads this, nodes`children
      requires n in nodes
    {
      && n.order <= MAX_ORDER && |n.path| == MAX_ORDER - n.order
      && n.address == Addr(n.path, MAX_ORDER)
      && (n.parent == null <==> n == root)
      && (n == root ==> n.path == [] && !n.right)
      && (n.parent != null ==>
            && n.parent in nodes && n.parent.order == n.order + 1
            && n.path == n.parent.path + [n.right]
            && n.parent.children.Kids?
            && n == if n.right then n.parent.children.hi else n.parent.children.lo)
      && (n.children.Kids? ==>
            && n.order > 0 && n.children.lo in nodes && n.children.hi in nodes
            && n.children.lo.parent == n && n.children.hi.parent == n
            && !n.children.lo.right && n.children.hi.right)
    }

    /** The cached flags and the model of one node agree with its children. */
    ghost predicate Cached(n: Node)
      reads this, nodes
      requires n in nodes
    {
      match n.children
      case NoKids => n.model == Leaf(n.flags)
      case Kids(lo, hi) =>
        lo in nodes && hi in nodes && n.model == Branch(lo.model, hi.model) && n.flags == Or(lo.flags, hi.flags)
    }

    ghost predicate Valid()
      reads this, nodes
    {
      && root in nodes
      && (forall n {:trigger Linked(n)} | n in nodes :: Linked(n))
      && (forall n {:trigger Cached(n)} | n in nodes :: Cached(n))
    }

    constructor ()
      ensures Valid() && fresh(nodes)
      ensures root.model == Leaf(FREE_UNMAPPED)
    {
      var r := new Node.Root(FREE_UNMAPPED);
      root := r;
      nodes := {r};
    }

    // ---------- what Valid says about the value of the tree ----------

    lemma {:induction false} NodeAt(n: Node)
      requires Valid() && n in nodes
      ensures Has(root.model, n.path) && At(root.model, n.path) == n.model
      decreases |n.path|
    {
      assert Linked(n);
      if n.parent != null {
        assert Linked(n.parent) && Cached(n.parent);
        NodeAt(n.parent);
        AtSnoc(root.model, n.parent.path, n.right);
      }
    }

    lemma {:induction false} NodeSummary(n: Node)
      requires Valid() && n in nodes
      ensures n.flags == Summary(n.model) && Fits(n.model, n.order)
      decreases n.order
    {
      assert Linked(n) && Cached(n);
      if n.children.Kids? {
        assert Linked(n.children.lo) && Linked(n.children.hi);
        NodeSummary(n.children.lo);
        NodeSummary(n.children.hi);
      }
    }

    // ---------- climbing ----------

    /** Links do not depend on flags or models. */
    twostate lemma SameLinks()
      requires nodes == old(nodes) && root == old(root)
      requires forall n | n in nodes :: n.children == old(n.children)
      requires old(forall n {:trigger Linked(n)} | n in nodes :: Linked(n))
      ensures forall n {:trigger Linked(n)} | n in nodes :: Linked(n)
    {
      forall n | n in nodes ensures Linked(n) {
        assert old(Linked(n));
      }
    }

    /** Cutting two leaves off their parent keeps the other links. */
    twostate lemma PrunedLinks(parent: Node)
      requires parent in old(nodes) && old(parent.children.Kids?) && parent.children.NoKids?
      requires var lo, hi := old(parent.children.lo), old(parent.children.hi);
        old(lo in nodes && hi in nodes && lo.children.NoKids? && hi.children.NoKids?) && nodes == old(nodes) - {lo, hi}
      requires root == old(root)
      requires forall n | n in nodes && n != parent :: n.children == old(n.children)
      requires old(forall n {:trigger Linked(n)} | n in nodes :: Linked(n))
      ensures root in old(nodes) ==> root in nodes
      ensures parent in nodes && forall n {:trigger Linked(n)} | n in nodes :: Linked(n)
    {
      assert old(Linked(parent));
      assert old(Linked(parent.children.lo)) && old(Linked(parent.children.hi));
      forall n | n in nodes ensures Linked(n) {
        assert old(Linked(n));
      }
    }

    /** Models and flags of all nodes at some moment. */
    ghost function Snapshot(): (m: map<Node, (Flags, Tree)>)
      reads this, nodes
    {
      map n | n in nodes :: (n.flags, n.model)
    }

    /** In the snapshot, an interior node agreed with its children. */
    ghost predicate Coherent(was: map<Node, (Flags, Tree)>, n: Node)
      reads n`children
    {
      n in was && (n.children.Kids? ==>
        var lo, hi := n.children.lo, n.children.hi;
        lo in was && hi in was && was[n] == (Or(was[lo].0, was[hi].0), Branch(was[lo].1, was[hi].1)))
    }

    /**
     Loop invariant of Overwrite: the subtree at child already has block p replaced by s; only
     the parent of child may disagree with its children; nodes elsewhere are as in the snapshot.
     */
    ghost predicate Climbing(child: Node, was: map<Node, (Flags, Tree)>, p: Path, s: Tree, statusOnly: bool)
      reads this, nodes
    {
      && child in nodes && was.Keys == nodes
      && (forall n {:trigger Linked(n)} | n in nodes :: Linked(n))
      && (forall n {:trigger Coherent(was, n)} | n in nodes && n.order > child.order :: Coherent(was, n))
      && (forall n {:trigger Cached(n)} | n in nodes && n != child.parent :: Cached(n))
      && (forall n {:trigger was[n]} | n in nodes ::
            && (statusOnly ==> n.flags.mapping == was[n].0.mapping)
            && (n.order >= child.order && n != child ==> n.model == was[n].1))
      && child.path <= p && Has(was[child].1, p[|child.path|..])
      && child.model == Put(was[child].1, p[|child.path|..], s)
    }

    /** After one node has been brought up to date, only its parent may be out of date. */
    twostate lemma OthersCached(node: Node)
      requires node in nodes && nodes == old(nodes) && Cached(node)
      requires forall n {:trigger Linked(n)} | n in nodes :: Linked(n)
      requires forall n | n in nodes :: n.children == old(n.children) && (n != node ==> n.flags == old(n.flags) && n.model == old(n.model))
      requires forall n | n in nodes && n != node :: old(Cached(n))
      ensures forall n {:trigger Cached(n)} | n in nodes && n != node.parent :: Cached(n)
    {
      forall n | n in nodes && n != node.parent ensures Cached(n) {
        assert Linked(n);
        if n != node { assert old(Cached(n)); }
      }
    }

    /** What one round of climbing has to make of the parent. */
    lemma LiftValue(child: Node, was: map<Node, (Flags, Tree)>, p: Path, s: Tree, statusOnly: bool)
      requires Climbing(child, was, p, s, statusOnly) && child.parent != null
      ensures child.parent in nodes && child.parent.children.Kids? && child.parent.order == child.order + 1
      ensures var node := child.parent;
        var lo, hi := node.children.lo, node.children.hi;
        && lo in nodes && hi in nodes && lo != node && hi != node && was[node].0 == Or(was[lo].0, was[hi].0)
        && node.path <= p && Has(was[node].1, p[|node.path|..])
        && Branch(lo.model, hi.model) == Put(was[node].1, p[|node.path|..], s)
    {
      var node := child.parent;
      assert Linked(child) && Linked(node) && Coherent(was, node);
      var lo, hi := node.children.lo, node.children.hi;
      assert Linked(lo) && Linked(hi);
      ClimbStep(was[node].1, child.right, p, |node.path|, s);
      assert {lo.model, hi.model} == {child.model, (if child.right then was[lo].1 else was[hi].1)};
    }

    /** One round of the climbing loop: recompute the parent of child from its two children. */
    method Recompute(ghost child: Node, node: Node, statusOnly: bool, ghost was: map<Node, (Flags, Tree)>, ghost p: Path, ghost s: Tree)
      requires Climbing(child, was, p, s, statusOnly) && child.parent == node
      modifies node`flags, node`model
      ensures Climbing(node, was, p, s, statusOnly) && node.order == child.order + 1
    {
      LiftValue(child, was, p, s, statusOnly);
      var lo, hi := node.children.lo, node.children.hi;
      var newFlag := Or(lo.flags, hi.flags);
      node.flags := if statusOnly then node.flags.(status := newFlag.status) else newFlag;
      node.model := Branch(lo.model, hi.model);
      SameLinks();
      OthersCached(node);
    }

    /**
     The part of pnode_set_status and pnode_set_flags that overwrites the masked flags of a leaf
     and recomputes the flags of every ancestor. With statusOnly the mapping bits are kept.
     */
    method Overwrite(target: Node, flag: Flags, statusOnly: bool)
      requires Valid() && target in nodes && target.children.NoKids?
      modifies nodes`flags, nodes`model
      ensures Valid() && Has(old(root.model), target.path)
      ensures target.flags == if statusOnly then old(target.flags).(status := flag.status) else flag
      ensures root.model == Put(old(root.model), target.path, Leaf(target.flags))
    {
      ghost var was := Snapshot();
      var node := target.parent;
      target.flags := if statusOnly then target.flags.(status := flag.status) else flag;
      target.model := Leaf(target.flags);
      ghost var child := target;
      ghost var s := target.model;
      SameLinks();
      forall n | n in nodes ensures Coherent(was, n) && (n != node ==> Cached(n)) {
        assert Linked(n) && old(Cached(n));
      }
      while node != null
        invariant child in nodes && node == child.parent && s == target.model == Leaf(target.flags)
        invariant Climbing(child, was, target.path, s, statusOnly)
        decreases MAX_ORDER - child.order
      {
        assert Linked(child) && Linked(node);
        Recompute(child, node, statusOnly, was, target.path, s);
        child := node;
        node := node.parent;
      }
      assert Linked(child);
    }

    /** In the snapshot, an interior node agreed with its children; its cached flags still do. */
    ghost predicate Kept(was: map<Node, Tree>, n: Node)
      reads this, nodes
      requires n in nodes
    {
      n in was && (n.children.Kids? ==>
        var lo, hi := n.children.lo, n.children.hi;
        lo in was && hi in was && was[n] == Branch(was[lo], was[hi]) &&
        lo in nodes && hi in nodes && n.flags == Or(lo.flags, hi.flags))
    }

    /** Loop invariant of RepairTree: the subtree at node is repaired along p. */
    ghost predicate Repairing(node: Node, was: map<Node, Tree>, p: Path)
      reads this, nodes
    {
      && root in nodes && node in nodes && nodes <= was.Keys
      && (forall n {:trigger Linked(n)} | n in nodes :: Linked(n))
      && (forall n {:trigger Kept(was, n)} | n in nodes && n.order > node.order :: Kept(was, n))
      && (forall n {:trigger Cached(n)} | n in nodes && n != node.parent :: Cached(n))
      && (forall n {:trigger was[n]} | n in nodes && n.order >= node.order && n != node :: n.model == was[n])
      && node.path <= p && Has(was[node], p[|node.path|..])
      && node.model == Repair(was[node], p[|node.path|..])
    }

    /** What one round of pnode_repair_tree has to make of the parent. */
    lemma MergeValue(node: Node, was: map<Node, Tree>, p: Path)
      requires Repairing(node, was, p) && node.parent != null
      ensures node.parent in nodes && node.parent.children.Kids? && node.parent.order == node.order + 1
      ensures var parent := node.parent;
        var lo, hi := parent.children.lo, parent.children.hi;
        var both := Branch(lo.model, hi.model);
        && lo in nodes && hi in nodes && lo != parent && hi != parent && (node == lo || node == hi)
        && lo.order == node.order && hi.order == node.order && parent.flags == Or(lo.flags, hi.flags)
        && parent.path <= p && Has(was[parent], p[|parent.path|..])
        && Repair(was[parent], p[|parent.path|..]) == Rejoin(both)
        && (Mergeable(both) <==> lo.children.NoKids? && hi.children.NoKids? && lo.flags == hi.flags && lo.flags.status == PNODE_FREE)
        && (Mergeable(both) ==> lo.model == Leaf(parent.flags))
    {
      var parent := node.parent;
      assert Linked(node) && Linked(parent) && Kept(was, parent);
      var lo, hi := parent.children.lo, parent.children.hi;
      assert Linked(lo) && Linked(hi) && Cached(lo) && Cached(hi);
      ClimbStep(was[parent], node.right, p, |parent.path|, was[node]);
      assert Branch(lo.model, hi.model) == WithChild(was[parent], node.right, node.model);
    }

    /** One round of pnode_repair_tree. */
    method MergeStep(node: Node, parent: Node, ghost was: map<Node, Tree>, ghost p: Path) returns (merged: bool)
      requires Repairing(node, was, p) && node.parent == parent
      modifies this`nodes, parent`children, parent`model
      ensures Repairing(parent, was, p) && parent.order == node.order + 1
      ensures nodes <= old(nodes)
      ensures merged ==> old(node.children.NoKids?) && node.flags.status == PNODE_FREE && node !in nodes
      ensures forall n | n in old(nodes) && n !in nodes :: n.order == node.order
      ensures !merged ==> nodes == old(nodes) && parent.children.Kids? && parent.children == old(parent.children)
    {
      MergeValue(node, was, p);
      var lo, hi := parent.children.lo, parent.children.hi;
      merged := lo.children.NoKids? && hi.children.NoKids? && lo.flags == hi.flags && lo.flags.status == PNODE_FREE;
      if merged {
        parent.children := NoKids;
        nodes := nodes - {lo, hi};
        parent.model := lo.model;
        PrunedLinks(parent);
      } else {
        parent.model := Branch(lo.model, hi.model);
        SameLinks();
      }
      MergedCache(parent);
      MergedKept((parent, was));
    }

    /** A merge touches no cached value above the parent, and below it only that of the parent. */
    twostate lemma MergedCache(parent: Node)
      requires parent in nodes && nodes <= old(nodes) && Cached(parent)
      requires forall n {:trigger Linked(n)} | n in nodes :: Linked(n)
      requires forall n | n in nodes :: n.flags == old(n.flags) && (n != parent ==> n.model == old(n.model) && n.children == old(n.children))
      requires old(forall n {:trigger Cached(n)} | n in nodes && n != parent :: Cached(n))
      ensures forall n {:trigger Cached(n)} | n in nodes && n != parent.parent :: Cached(n)
    {
      forall n | n in nodes && n != parent && n != parent.parent ensures Cached(n) {
        assert Linked(n) && old(Cached(n));
      }
    }

    twostate lemma MergedKept(pw: (Node, map<Node, Tree>))
      requires pw.0 in nodes && nodes <= old(nodes)
      requires forall n {:trigger Linked(n)} | n in nodes :: Linked(n)
      requires forall n | n in nodes :: n.flags == old(n.flags) && (n != pw.0 ==> n.children == old(n.children))
      requires old(forall n {:trigger Kept(pw.1, n)} | n in nodes && n.order >= pw.0.order :: Kept(pw.1, n))
      ensures forall n {:trigger Kept(pw.1, n)} | n in nodes && n.order > pw.0.order :: Kept(pw.1, n)
    {
      forall n | n in nodes && n.order > pw.0.order ensures Kept(pw.1, n) {
        assert Linked(n) && old(Kept(pw.1, n));
      }
    }

    /**
     pnode_repair_tree: merge equal FREE siblings on the way from target to the root. `gone` reports
     whether target itself was merged away.
     */
    method RepairTree(target: Node) returns (gone: bool)
      requires Valid() && target in nodes && target.children.NoKids?
      modifies this`nodes, nodes`children, nodes`model
      ensures Valid() && nodes <= old(nodes) && Has(old(root.model), target.path)
      ensures root.model == Repair(old(root.model), target.path) && (gone <==> target !in nodes)
      ensures target.flags.status != PNODE_FREE ==>
        nodes == old(nodes) && forall n | n in nodes :: n.children == old(n.children)
    {
      ghost var was := map n | n in nodes :: n.model;
      ghost var p := target.path;
      var node := target;
      gone := false;
      forall n | n in nodes ensures Kept(was, n) { assert Linked(n) && Cached(n); }
      while node.parent != null
        invariant node in nodes && nodes <= old(nodes) && Repairing(node, was, p)
        invariant (gone <==> target !in nodes) && target.order <= node.order && (target.order == node.order ==> node == target)
        invariant target.flags.status != PNODE_FREE ==>
          && nodes == old(nodes) && (forall n | n in nodes :: n.children == old(n.children))
          && (node == target || node.children.Kids?)
        decreases MAX_ORDER - node.order
      {
        assert Linked(node) && Linked(node.parent);
        var parent := node.parent;
        var merged := MergeStep(node, parent, was, p);
        if node == target { gone := merged; }
        node := parent;
      }
      assert Linked(node);
    }

    // ---------- changing the flags of a leaf ----------

    /** pnode_set_status */
    method SetStatus(target: Node, status: bv3, bypass: bool, failSilently: bool) returns (r: Err)
      requires Valid() && target in nodes && target.children.NoKids?
      modifies this`nodes, nodes`flags, nodes`children, nodes`model
      ensures Valid() && root == old(root) && nodes <= old(nodes)
      ensures var f := old(target.flags);
        var ok := Permits(f, target.right, Flags(status, 0), bypass);
        && (r == ESUCCESS <==> ok && f.status != PNODE_BLOCKED && f.status != status)
        && (r == KPANIC <==> !ok && !failSilently) && (r == ESUCCESS || r == EINVAL || r == KPANIC)
        && root.model == (if r == ESUCCESS then Mark(old(root.model), target.path, f.(status := status)) else old(root.model))
      ensures status != PNODE_FREE || r != ESUCCESS ==>
        nodes == old(nodes) && forall n | n in nodes :: n.children == old(n.children)
    {
      if !Permits(target.flags, target.right, Flags(status, 0), bypass) {
        return if failSilently then EINVAL else KPANIC;
      }
      if target.flags.status == PNODE_BLOCKED { return EINVAL; }
      if target.flags.status == status { return EINVAL; }
      Overwrite(target, Flags(status, 0), true);
      MarkIsPutThenRepair(old(root.model), target.path, target.flags);
      var _ := RepairTree(target);
      r := ESUCCESS;
    }

    /** pnode_set_flags; `gone` reports whether the node was merged away. */
    method SetFlags(target: Node, flag: Flags, bypass: bool, failSilently: bool) returns (r: Err, gone: bool)
      requires Valid() && target in nodes && target.children.NoKids?
      modifies this`nodes, nodes`flags, nodes`children, nodes`model
      ensures Valid() && root == old(root) && nodes <= old(nodes)
      ensures var ok := Permits(old(target.flags), target.right, flag, bypass);
        && (r == ESUCCESS <==> ok) && (r == KPANIC <==> !ok && !failSilently) && (r == ESUCCESS || r == EINVAL || r == KPANIC)
        && root.model == (if ok then Mark(old(root.model), target.path, flag) else old(root.model))
      ensures gone <==> target !in nodes
      ensures flag.status != PNODE_FREE || r != ESUCCESS ==>
        nodes == old(nodes) && forall n | n in nodes :: n.children == old(n.children)
    {
      if !Permits(target.flags, target.right, flag, bypass) {
        return if failSilently then EINVAL else KPANIC, false;
      }
      Overwrite(target, flag, false);
      MarkIsPutThenRepair(old(root.model), target.path, flag);
      gone := RepairTree(target);
      r := ESUCCESS;
    }

    // ---------- splitting ----------

    /** Bring the ghost models of all ancestors of node up to date after node.model changed. */
    ghost method LiftModels(node: Node, was: map<Node, (Flags, Tree)>)
      requires Climbing(node, was, node.path, node.model, true)
      requires forall n | n in nodes :: n.flags == was[n].0
      requires node.parent != null ==> Cached(node)
      modifies nodes`model
      ensures Valid() && root in was && Has(was[root].1, node.path)
      ensures root.model == Put(was[root].1, node.path, old(node.model))
    {
      var child := node;
      ghost var s := node.model;
      while child.parent != null
        invariant child in nodes && Climbing(child, was, node.path, s, true)
        invariant forall n | n in nodes :: n.flags == was[n].0
        decreases MAX_ORDER - child.order
      {
        assert Linked(child) && Linked(child.parent);
        LiftModel(child, was, node.path, s);
        child := child.parent;
      }
      assert Linked(child);
    }

    ghost method LiftModel(child: Node, was: map<Node, (Flags, Tree)>, p: Path, s: Tree)
      requires Climbing(child, was, p, s, true) && child.parent != null
      requires forall n | n in nodes :: n.flags == was[n].0
      modifies child.parent`model
      ensures Climbing(child.parent, was, p, s, true) && child.parent.order == child.order + 1
    {
      var node := child.parent;
      LiftValue(child, was, p, s, true);
      var lo, hi := node.children.lo, node.children.hi;
      node.model := Branch(lo.model, hi.model);
      SameLinks();
      OthersCached(node);
    }

    /** The allocation in ba_split_node. */
    method HangChildren(node: Node)
      requires node in nodes && node.order > 0
      modifies this`nodes, node`children
      ensures node.children.Kids? && fresh(node.children.lo) && fresh(node.children.hi)
      ensures nodes == old(nodes) + {node.children.lo, node.children.hi}
      ensures var lo, hi := node.children.lo, node.children.hi;
        && lo.parent == node && lo.order == node.order - 1 && lo.path == node.path + [false] && !lo.right
        && hi.parent == node && hi.order == node.order - 1 && hi.path == node.path + [true] && hi.right
        && lo.address == node.address && hi.address == node.address + Pow2(node.order - 1)
        && lo.children.NoKids? && hi.children.NoKids?
        && lo.flags == hi.flags == node.flags && lo.model == hi.model == Leaf(node.flags)
    {
      var lo := new Node.Child(node, false);
      var hi := new Node.Child(node, true);
      node.children := Kids(lo, hi);
      nodes := nodes + {lo, hi};
    }

    /** ba_split_node; the pool the two children come from is taken not to run out. */
    method SplitNode(node: Node)
      requires Valid() && node in nodes && node.children.NoKids? && node.order > 0
      modifies this`nodes, nodes`model, node`children
      ensures Valid() && root == old(root)
      ensures node.children.Kids? && fresh(node.children.lo) && fresh(node.children.hi)
      ensures nodes == old(nodes) + {node.children.lo, node.children.hi}
      ensures node.children.lo.children.NoKids? && node.children.hi.children.NoKids?
      ensures Has(old(root.model), node.path) && At(old(root.model), node.path) == Leaf(node.flags)
      ensures root.model == Put(old(root.model), node.path, Split(Leaf(node.flags)))
      ensures forall n | n in old(nodes) && n != node :: n.children == old(n.children)
    {
      NodeAt(node);
      assert Linked(node) && Cached(node);
      HangChildren(node);
      ghost var was := Snapshot();
      node.model := Branch(node.children.lo.model, node.children.hi.model);
      GrownLinks(node);
      GrownCache(node);
      forall n | n in nodes && n.order > node.order ensures Coherent(was, n) {
        assert old(Cached(n)) && Linked(n);
      }
      LiftModels(node, was);
    }

    /** Two fresh leaves were hung below the leaf node; nothing else changed but its model. */
    twostate predicate Grown(node: Node)
      reads this, nodes
    {
      && old(Valid()) && node in old(nodes) && old(node.children.NoKids?) && node.order > 0 && root == old(root)
      && old(nodes) <= nodes
      && node.children.Kids?
      && (var lo, hi := node.children.lo, node.children.hi;
          && lo !in old(nodes) && hi !in old(nodes) && nodes == old(nodes) + {lo, hi}
          && lo.parent == node && lo.order == node.order - 1 && lo.path == node.path + [false] && !lo.right
          && hi.parent == node && hi.order == node.order - 1 && hi.path == node.path + [true] && hi.right
          && lo.address == node.address && hi.address == node.address + Pow2(node.order - 1)
          && lo.children.NoKids? && hi.children.NoKids?
          && lo.flags == hi.flags == node.flags && lo.model == hi.model == Leaf(node.flags)
          && node.model == Branch(lo.model, hi.model))
      && (forall n | n in old(nodes) :: n.flags == old(n.flags) && (n != node ==> n.model == old(n.model) && n.children == old(n.children)))
    }

    twostate lemma GrownLinks(node: Node)
      requires Grown(node)
      ensures forall n {:trigger Linked(n)} | n in nodes :: Linked(n)
    {
      assert old(Linked(node));
      AddrSnoc(node.path, false, MAX_ORDER);
      AddrSnoc(node.path, true, MAX_ORDER);
      forall n | n in nodes ensures Linked(n) {
        if n in old(nodes) { assert old(Linked(n)); }
      }
    }

    twostate lemma GrownCache(node: Node)
      requires Grown(node)
      requires forall n {:trigger Linked(n)} | n in nodes :: Linked(n)
      ensures forall n {:trigger Cached(n)} | n in nodes && n != node.parent :: Cached(n)
    {
      forall n | n in nodes && n != node.parent ensures Cached(n) {
        if n in old(nodes) && n != node {
          assert Linked(n) && old(Linked(n)) && old(Cached(n));
        }
      }
    }

    // ---------- searching ----------

    /** Node n is the subtree the item describes. */
    ghost predicate Shows(n: Node?, it: Item)
      reads this, nodes
    {
      n != null && n in nodes && n.path == it.path && n.order == it.order && n.model == it.tree
    }

    /** Splitting a leaf does not touch subtrees elsewhere. */
    method SplitApart(node: Node, ghost st: seq<Item>, ghost at: seq<Node>)
      requires Valid() && node in nodes && node.children.NoKids? && node.order > 0
      requires |at| == |st| && forall i | 0 <= i < |st| :: Shows(at[i], st[i]) && Apart(st[i].path, node.path)
      modifies this`nodes, nodes`model, node`children
      ensures Valid() && root == old(root) && old(nodes) <= nodes && fresh(nodes - old(nodes))
      ensures node.children.Kids? && node.model == Split(old(node.model))
      ensures node in nodes && Has(old(root.model), node.path)
      ensures root.model == Put(old(root.model), node.path, Split(At(old(root.model), node.path)))
      ensures forall i | 0 <= i < |st| :: Shows(at[i], st[i])
    {
      NodeAt(node);
      ghost var t := root.model;
      forall i | 0 <= i < |st| ensures Has(t, st[i].path) && At(t, st[i].path) == st[i].tree { NodeAt(at[i]); }
      SplitNode(node);
      assert Cached(node) && Linked(node);
      forall i | 0 <= i < |st| ensures Shows(at[i], st[i]) {
        NodeAt(at[i]);
        ApartChild(st[i].path, node.path, true);
        AtPutOther(t, node.path, Split(At(t, node.path)), st[i].path);
      }
      NodeAt(node);
      AtPut(t, node.path, Split(At(t, node.path)));
    }

    /** The array holds the nodes of the ghost stack and curr the item under inspection. */
    ghost predicate Mirrors(stack: array<Node?>, top: nat, curr: Node, tr: Trail)
      reads this, nodes, stack
    {
      && stack.Length == MAX_ORDER + 1 && top == |tr.at| == |tr.st| <= MAX_ORDER
      && Shows(curr, tr.it)
      && (forall i | 0 <= i < top :: stack[i] == tr.at[i] && Shows(tr.at[i], tr.st[i]))
    }

    /** The loop invariant of ba_search. */
    ghost predicate InSearch(q: Query, stack: array<Node?>, top: nat, curr: Node, tr: Trail, spilled: bool)
      reads this, nodes, stack
    {
      && Valid() && Mirrors(stack, top, curr, tr)
      && Searching(q.t0, q.m, q.want, q.rev, tr.st, tr.it, root.model, spilled)
    }

    /** Make sure that the node under inspection has children. */
    method Open(curr: Node, ghost tr: Trail)
      requires Valid() && Shows(curr, tr.it) && (curr.children.Kids? || curr.order > 0)
      requires |tr.at| == |tr.st| && forall i | 0 <= i < |tr.st| :: Shows(tr.at[i], tr.st[i]) && Apart(tr.st[i].path, curr.path)
      modifies this`nodes, nodes`model, curr`children
      ensures Valid() && root == old(root) && old(nodes) <= nodes && fresh(nodes - old(nodes))
      ensures curr in nodes && curr.children.Kids? && curr.model == Split(tr.it.tree) && tr.it.order > 0
      ensures Has(old(root.model), tr.it.path) && root.model == Put(old(root.model), tr.it.path, Split(tr.it.tree))
      ensures forall i | 0 <= i < |tr.st| :: Shows(tr.at[i], tr.st[i])
    {
      NodeAt(curr);
      assert Linked(curr) && Cached(curr);
      if curr.children.NoKids? {
        SplitApart(curr, tr.st, tr.at);
      } else {
        PutSame(root.model, curr.path);
      }
    }

    /** The heap part of a push: first child to inspect next, second child onto the stack. */
    method PushNodes(stack: array<Node?>, top: nat, curr: Node, rev: bool, ghost tr: Trail)
      returns (first: Node, ghost second: Node)
      requires Valid() && Mirrors(stack, top, curr, tr) && top < MAX_ORDER
      requires curr.children.Kids? || curr.order > 0
      requires forall i | 0 <= i < |tr.st| :: Apart(tr.st[i].path, curr.path)
      modifies this`nodes, nodes`model, curr`children, stack
      ensures Valid() && root == old(root) && old(nodes) <= nodes && fresh(nodes - old(nodes))
      ensures tr.it.order > 0 && Has(old(root.model), tr.it.path) && root.model == Put(old(root.model), tr.it.path, Split(tr.it.tree))
      ensures Mirrors(stack, top + 1, first, Trail(tr.at + [second], tr.st + [Half(tr.it, !rev)], Half(tr.it, rev)))
    {
      Open(curr, tr);
      ChildrenShow(curr, tr.it);
      second := if rev then curr.children.lo else curr.children.hi;
      first := if rev then curr.children.hi else curr.children.lo;
      stack[top] := if rev then curr.children.lo else curr.children.hi;
      stack[top + 1] := null;
      ghost var at, st := tr.at + [second], tr.st + [Half(tr.it, !rev)];
      forall i | 0 <= i < top + 1 ensures stack[i] == at[i] && Shows(at[i], st[i]) {
        if i < top { assert at[i] == tr.at[i] && st[i] == tr.st[i]; }
      }
    }

    lemma ChildrenShow(n: Node, it: Item)
      requires Valid() && n in nodes && n.children.Kids? && n.path == it.path && n.order == it.order && n.model == Split(it.tree)
      ensures it.order > 0 && Shows(n.children.lo, Half(it, false)) && Shows(n.children.hi, Half(it, true))
    {
      assert Linked(n) && Cached(n);
      assert Linked(n.children.lo) && Linked(n.children.hi);
    }

    /** The push of ba_search. */
    method Push(stack: array<Node?>, top: nat, curr: Node, rev: bool, spilled: bool, ghost q: Query, ghost tr: Trail)
      returns (first: Node, newSpilled: bool, ghost tr': Trail)
      requires InSearch(q, stack, top, curr, tr, spilled) && q.rev == rev
      requires Match(Summary(curr.model), q.want) && (curr.children.Kids? || curr.order > q.m)
      modifies this`nodes, nodes`model, curr`children, stack
      ensures root == old(root) && old(nodes) <= nodes && fresh(nodes - old(nodes))
      ensures top < MAX_ORDER && InSearch(q, stack, top + 1, first, tr', newSpilled)
      ensures Pages(tr') == Pages(tr) && tr'.it.order < tr.it.order
    {
      assert Cached(curr);
      newSpilled := spilled || top + 1 == MAX_ORDER;
      SearchDown(q.t0, q.m, q.want, q.rev, tr.st, tr.it, root.model, spilled);
      ghost var st, it, t := tr.st + [Half(tr.it, !rev)], Half(tr.it, rev), Put(root.model, tr.it.path, Split(tr.it.tree));
      assert Searching(q.t0, q.m, q.want, q.rev, st, it, t, newSpilled);
      assert Weight(st) + Pow2(it.order) == Pages(tr) && it.order < tr.it.order;
      ghost var second;
      first, second := PushNodes(stack, top, curr, rev, tr);
      tr' := Trail(tr.at + [second], st, it);
      assert Pages(tr') == Weight(st) + Pow2(it.order);
    }

    /** The heap part of a pop. */
    method PopNodes(stack: array<Node?>, top: nat, ghost curr: Node, ghost tr: Trail) returns (next: Node?)
      requires Valid() && Mirrors(stack, top, curr, tr)
      modifies stack
      ensures Valid() && (next == null <==> top == 0)
      ensures next != null ==>
        Mirrors(stack, top - 1, next, Trail(tr.at[..top - 1], tr.st[..top - 1], tr.st[top - 1]))
    {
      stack[top] := null;
      next := if top == 0 then null else stack[top - 1];
    }

    /** The pop of ba_search; null when the stack is empty. */
    method Pop(stack: array<Node?>, top: nat, ghost curr: Node, ghost spilled: bool, ghost q: Query, ghost tr: Trail)
      returns (next: Node?, ghost tr': Trail)
      requires InSearch(q, stack, top, curr, tr, spilled)
      requires !Match(Summary(curr.model), q.want) || (curr.children.NoKids? && curr.order < q.m)
      modifies stack
      ensures Valid() && (next == null <==> top == 0)
      ensures next == null ==>
        && Fits(q.t0, MAX_ORDER) && Find(q.t0, MAX_ORDER, q.m, q.want, q.rev) == None && root.model == q.t0
        && spilled == Spills(q.t0, MAX_ORDER, q.m, q.want, q.rev)
      ensures next != null ==> InSearch(q, stack, top - 1, next, tr', spilled) && Pages(tr') < Pages(tr)
    {
      assert Cached(curr);
      SearchUp(q.t0, q.m, q.want, q.rev, tr.st, tr.it, root.model, spilled);
      next := PopNodes(stack, top, curr, tr);
      tr' := if top == 0 then tr else Trail(tr.at[..top - 1], tr.st[..top - 1], tr.st[top - 1]);
    }

    /** What the fields of a node say about its subtree. */
    lemma Inspected(n: Node)
      requires Valid() && n in nodes
      ensures n.flags == Summary(n.model)
    {
      NodeSummary(n);
      assert Linked(n) && Cached(n);
    }

    /** The item under inspection is the block asked for. */
    lemma Found(q: Query, stack: array<Node?>, top: nat, curr: Node, tr: Trail, spilled: bool)
      requires InSearch(q, stack, top, curr, tr, spilled)
      requires Match(Summary(curr.model), q.want) && curr.children.NoKids? && curr.order == q.m
      ensures Fits(q.t0, MAX_ORDER) && Find(q.t0, MAX_ORDER, q.m, q.want, q.rev) == Some(curr.path) && root.model == Carve(q.t0, curr.path)
      ensures spilled <==> Spills(q.t0, MAX_ORDER, q.m, q.want, q.rev)
    {
      assert Linked(curr) && Cached(curr);
      SearchHit(q.t0, q.m, q.want, q.rev, tr.st, tr.it, root.model, spilled);
    }

    /** r is what the search was to find, carved out of the tree it started from. */
    ghost predicate Answers(q: Query, r: Node?, spilled: bool)
      reads this, nodes
    {
      && root in nodes && Fits(q.t0, MAX_ORDER) && (spilled <==> Spills(q.t0, MAX_ORDER, q.m, q.want, q.rev))
      && match Find(q.t0, MAX_ORDER, q.m, q.want, q.rev)
         case None => r == null && root.model == q.t0
         case Some(p) => r != null && r in nodes && r.path == p && r.order == q.m && r.children.NoKids? && root.model == Carve(q.t0, p)
    }

    /** One round of ba_search: go down, stop at curr, or go back to the top of the stack. */
    method Inspect(stack: array<Node?>, top: nat, curr: Node, m: nat, want: Flags, rev: bool, spilled: bool, ghost q: Query, ghost tr: Trail)
      returns (hit: bool, next: Node?, newTop: nat, newSpilled: bool, ghost tr': Trail)
      requires InSearch(q, stack, top, curr, tr, spilled) && q.m == m && q.want == want && q.rev == rev
      modifies this`nodes, nodes`model, curr`children, stack
      ensures Valid() && root == old(root) && old(nodes) <= nodes
      ensures forall n | n in nodes :: n in old(nodes) || fresh(n)
      ensures hit || next == null ==> Answers(q, next, newSpilled)
      ensures !hit && next != null ==>
        && InSearch(q, stack, newTop, next, tr', newSpilled)
        && (Pages(tr') < Pages(tr) || (Pages(tr') == Pages(tr) && tr'.it.order < tr.it.order))
    {
      Inspected(curr);
      newTop, newSpilled, tr', hit := top, spilled, tr, false;
      var containsReq := Match(curr.flags, want);
      if containsReq && (curr.children.Kids? || curr.order > m) {
        next, newSpilled, tr' := Push(stack, top, curr, rev, spilled, q, tr);
        newTop := top + 1;
      } else if containsReq && curr.order == m {
        Found(q, stack, top, curr, tr, spilled);
        hit, next := true, curr;
      } else {
        next, tr' := Pop(stack, top, curr, spilled, q, tr);
        if next != null { newTop := top - 1; }
      }
    }

    /** The loop of ba_search. */
    method Walk(stack: array<Node?>, m: nat, want: Flags, rev: bool) returns (r: Node?, spilled: bool)
      requires Valid() && Fits(root.model, MAX_ORDER) && stack.Length == MAX_ORDER + 1
      modifies this`nodes, nodes`model, nodes`children, stack
      ensures Valid() && root == old(root) && old(nodes) <= nodes
      ensures forall n | n in nodes :: n in old(nodes) || fresh(n)
      ensures Answers(Query(old(root.model), m, want, rev), r, spilled)
    {
      assert Linked(root);
      var top: nat := 0;
      var hit := false;
      r, spilled := root, false;
      ghost var q := Query(root.model, m, want, rev);
      ghost var tr := Trail([], [], Item([], MAX_ORDER, root.model));
      SearchStart(root.model, m, want, rev);
      while !hit && r != null
        invariant root == old(root) && old(nodes) <= nodes
        invariant forall n | n in nodes :: n in old(nodes) || fresh(n)
        invariant if hit || r == null then Valid() && Answers(q, r, spilled) else InSearch(q, stack, top, r, tr, spilled)
        decreases !hit && r != null, Pages(tr), tr.it.order
      {
        hit, r, top, spilled, tr := Inspect(stack, top, r, m, want, rev, spilled, q, tr);
      }
    }

    /**
     ba_search with PNODE_SEARCH_MODIFY. The C stack has MAX_ORDER slots; here it has one more, and
     `spilled` reports whether that extra slot was written.
     */
    method Search(m: nat, want: Flags, rev: bool) returns (r: Node?, spilled: bool)
      requires Valid()
      modifies this`nodes, nodes`model, nodes`children
      ensures Valid() && root == old(root) && old(nodes) <= nodes && fresh(nodes - old(nodes))
      ensures Fits(old(root.model), MAX_ORDER)
      ensures spilled <==> Spills(old(root.model), MAX_ORDER, m, want, rev)
      ensures match Find(old(root.model), MAX_ORDER, m, want, rev)
        case None => r == null && root.model == old(root.model)
        case Some(p) => r != null && r in nodes && r.path == p && r.order == m && r.children.NoKids? && root.model == Carve(old(root.model), p)
    {
      NodeSummary(root);
      assert Linked(root);
      var stack := new Node?[MAX_ORDER + 1](_ => null);
      r, spilled := Walk(stack, m, want, rev);
    }

    // ---------- lookup by address, traversal, marking ----------

    /**
     ba_find_node. With reqOrder >= 0 it splits down to that order; otherwise it returns the leaf
     that holds the address, but null (the EUNEXPEXEC pointer) when that leaf has order 0.
     */
    method FindNode(address: nat, reqOrder: int) returns (n: Node?)
      requires Valid()
      modifies this`nodes, nodes`model, nodes`children
      ensures Valid() && root == old(root) && old(nodes) <= nodes && fresh(nodes - old(nodes))
      ensures reqOrder >= 0 ==>
        && n != null && n in nodes && n.path == PathOf(address, MAX_ORDER, reqOrder)
        && root.model == Carve(old(root.model), n.path)
        && (Has(old(root.model), n.path) ==> nodes == old(nodes))
      ensures reqOrder < 0 ==>
        && root.model == old(root.model) && nodes == old(nodes)
        && (n != null ==> n in nodes && n.children.NoKids? && n.order > 0 && n.path == PathOf(address, MAX_ORDER, n.order))
        && (n == null ==> Has(root.model, PathOf(address, MAX_ORDER, 0)))
    {
      var canSplit := reqOrder >= 0;
      var stop := if canSplit then reqOrder else 0;
      var curr := root;
      assert Linked(root);
      CarveNothing(root.model, []);
      ghost var t0, goal := root.model, PathOf(address, MAX_ORDER, stop);
      while curr.order > stop
        invariant Valid() && root == old(root) && old(nodes) <= nodes && fresh(nodes - old(nodes))
        invariant curr in nodes && curr.path == PathOf(address, MAX_ORDER, curr.order) && curr.order <= MAX_ORDER
        invariant curr.order >= stop || curr == root
        invariant root.model == Carve(t0, curr.path) && (!canSplit ==> root.model == t0 && nodes == old(nodes))
        invariant Has(t0, goal) ==> nodes == old(nodes)
        decreases curr.order
      {
        if Has(t0, goal) {
          NoLeafAbove(t0, address, curr.order, stop);
          NodeAt(curr);
          assert Cached(curr);
        }
        if curr.children.NoKids? && !canSplit { return curr; }
        PathOfSnoc(address, MAX_ORDER, curr.order - 1);
        curr := Descend(curr, Bit(address, curr.order - 1), t0);
      }
      NodeAt(curr);
      n := if canSplit then curr else null;
    }

    /** One step of ba_find_node: a child of curr, which is split if it has none. */
    method Descend(curr: Node, b: bool, ghost t0: Tree) returns (next: Node)
      requires Valid() && curr in nodes && curr.order > 0 && root.model == Carve(t0, curr.path)
      modifies this`nodes, nodes`model, curr`children
      ensures Valid() && root == old(root) && old(nodes) <= nodes && fresh(nodes - old(nodes))
      ensures next in nodes && next.order == curr.order - 1 && next.path == curr.path + [b]
      ensures root.model == Carve(t0, next.path)
      ensures old(curr.children.Kids?) ==> nodes == old(nodes) && root.model == old(root.model)
    {
      NodeAt(curr);
      assert Linked(curr) && Cached(curr);
      CarveSnoc(t0, curr.path, b);
      PutSame(root.model, curr.path);
      if curr.children.NoKids? {
        SplitNode(curr);
        assert Linked(curr);
      }
      assert Linked(curr.children.lo) && Linked(curr.children.hi);
      next := if b then curr.children.hi else curr.children.lo;
    }

    /** On the way down to a node that exists there is no leaf to split. */
    static lemma NoLeafAbove(t: Tree, address: nat, order: nat, stop: nat)
      requires stop < order <= MAX_ORDER && Has(t, PathOf(address, MAX_ORDER, stop))
      ensures var p := PathOf(address, MAX_ORDER, order); Has(t, p) && At(t, p).Branch? && Carve(t, p) == t
    {
      var p := PathOf(address, MAX_ORDER, order);
      PathOfPrefix(address, MAX_ORDER, order, stop);
      HasPrefix(t, p, PathOf(address, MAX_ORDER, stop));
      CarveNothing(t, p);
    }

    /** ba_get_min_leaf */
    method MinLeaf(start: Node) returns (n: Node)
      requires Valid() && start in nodes
      ensures n in nodes && n.children.NoKids? && n.address == start.address
    {
      n := start;
      assert Linked(n);
      while n.children.Kids?
        invariant n in nodes && n.address == start.address
        decreases n.order
      {
        assert Linked(n) && Linked(n.children.lo);
        AddrSnoc(n.path, false, MAX_ORDER);
        n := n.children.lo;
      }
    }

    /** Where a child lies inside its parent. */
    lemma ChildRange(n: Node)
      requires Valid() && n in nodes && n.parent != null
      ensures n.parent in nodes && n.parent.children.Kids? && n.parent.order == n.order + 1 <= MAX_ORDER
      ensures n.right ==> n.address + Pow2(n.order) == n.parent.address + Pow2(n.parent.order)
      ensures !n.right ==>
        && n.parent.children.hi in nodes && n.parent.children.hi.address == n.address + Pow2(n.order)
        && n.address + Pow2(n.order) < PAGES
    {
      Pow2_20();
      assert Linked(n) && Linked(n.parent);
      assert Linked(n.parent.children.hi);
      AddrSnoc(n.parent.path, false, MAX_ORDER);
      AddrSnoc(n.parent.path, true, MAX_ORDER);
      AddrBounds(n.parent.path, MAX_ORDER);
    }

    /** ba_get_next_leaf: the leaf that starts where this one ends; null is the ENOPAGE pointer. */
    method NextLeaf(leaf: Node) returns (n: Node?)
      requires Valid() && leaf in nodes
      ensures n == null <==> leaf.address + Pow2(leaf.order) == PAGES
      ensures n != null ==> n in nodes && n.children.NoKids? && n.address == leaf.address + Pow2(leaf.order)
    {
      var node := leaf;
      Pow2_20();
      assert Linked(node);
      while node.right
        invariant node in nodes && node.order <= MAX_ORDER
        invariant node.address + Pow2(node.order) == leaf.address + Pow2(leaf.order)
        decreases MAX_ORDER - node.order
      {
        assert Linked(node);
        if node.parent == null { return null; }
        ChildRange(node);
        node := node.parent;
      }
      assert Linked(node);
      if node.parent == null { return null; }
      ChildRange(node);
      node := node.parent;
      n := MinLeaf(node.children.hi);
    }

    /** The leaf nodes of the heap are the leaves of the value. */
    lemma LeafPage(n: Node, x: nat)
      requires Valid() && n in nodes && n.children.NoKids?
      requires n.address <= x < n.address + Pow2(n.order)
      ensures x < PAGES && Fits(root.model, MAX_ORDER)
      ensures FlagsAt(root.model, MAX_ORDER, x) == n.flags
    {
      Pow2_20();
      assert Linked(n) && Cached(n) && Linked(root);
      NodeAt(n);
      NodeSummary(root);
      AddrBounds(n.path, MAX_ORDER);
      FlagsAtLeaf(root.model, MAX_ORDER, n.path, x);
    }

    lemma NodeRange(n: Node)
      requires Valid() && n in nodes
      ensures n.address + Pow2(n.order) <= PAGES && Fits(root.model, MAX_ORDER)
    {
      Pow2_20();
      assert Linked(n) && Linked(root);
      AddrBounds(n.path, MAX_ORDER);
      NodeSummary(root);
    }

    /** ba_find_node for a single page. */
    method FindPage(address: nat) returns (n: Node)
      requires Valid()
      modifies this`nodes, nodes`model, nodes`children
      ensures Valid() && root == old(root) && old(nodes) <= nodes && fresh(nodes - old(nodes))
      ensures n in nodes && n.children.NoKids? && n.order == 0 && n.address == address % PAGES && n.path == PathOf(address, MAX_ORDER, 0)
      ensures root.model == Carve(old(root.model), n.path)
    {
      Pow2_20();
      PathOfHolds(address, MAX_ORDER, 0);
      n := FindNode(address, 0);
      assert Linked(n);
    }

    /** Nodes with the same path are the same. */
    lemma {:induction false} OnePerPath(n: Node, m: Node)
      requires Valid() && n in nodes && m in nodes && n.path == m.path
      ensures n == m
      decreases |n.path|
    {
      assert Linked(n) && Linked(m);
      if n != root && m != root {
        assert n.path[..|n.path| - 1] == n.parent.path && m.path[..|m.path| - 1] == m.parent.path;
        OnePerPath(n.parent, m.parent);
      }
    }

    /** Where the tree has a path there is a node. */
    lemma {:induction false} NodeOf(p: Path) returns (n: Node)
      requires Valid() && Has(root.model, p)
      ensures n in nodes && n.path == p
      decreases |p|
    {
      assert Linked(root);
      n := root;
      if p != [] {
        var q, b := p[..|p| - 1], p[|p| - 1];
        assert p == q + [b];
        HasPrefix(root.model, q, p);
        var m := NodeOf(q);
        NodeAt(m);
        assert Linked(m) && Cached(m);
        n := if b then m.children.hi else m.children.lo;
        assert Linked(n);
      }
    }

    /** A write on a node that was carved out of t, as on values. */
    method WriteFlags(node: Node, flag: Flags, bypass: bool, failSilently: bool, ghost t: Tree) returns (r: Err, gone: bool)
      requires Valid() && node in nodes && node.children.NoKids? && root.model == Carve(t, node.path) && Covers(t, node.path)
      modifies this`nodes, nodes`flags, nodes`children, nodes`model
      ensures Valid() && root == old(root) && nodes <= old(nodes)
      ensures Outcome(r, root.model) == Write(t, node.path, flag, bypass, failSilently)
      ensures gone <==> !Has(root.model, node.path)
      ensures !gone ==> node in nodes
      ensures flag.status != PNODE_FREE ==> nodes == old(nodes)
    {
      LeafToMark(node, t);
      MarkOfCarved(t, node.path, flag);
      forall m | m in nodes && m.path == node.path ensures m == node { OnePerPath(m, node); }
      r, gone := SetFlags(node, flag, bypass, failSilently);
      if !gone {
        NodeAt(node);
      } else if Has(root.model, node.path) {
        ghost var m := NodeOf(node.path);
      }
    }

    /** What is known of the leaf about to be marked. */
    lemma LeafToMark(node: Node, t: Tree)
      requires Valid() && node in nodes && node.children.NoKids? && root.model == Carve(t, node.path)
      ensures Covers(t, node.path) && Along(t, node.path) == node.flags && node.right == OnRight(node.path)
      ensures |node.path| <= MAX_ORDER && node.order == MAX_ORDER - |node.path| && node.address == Addr(node.path, MAX_ORDER)
    {
      assert Linked(node) && Cached(node);
      NodeAt(node);
      CarvedLeaf(t, node.path);
    }

    /** The node of the next round of ba_mark_pages, at page x; null when x is the end of memory. */
    method NextToMark(node: Node, cnt: nat, ghost x: nat) returns (next: Node?)
      requires Valid() && node in nodes && cnt > 0 && |node.path| <= MAX_ORDER && x == EndOf(node.path, MAX_ORDER)
      modifies this`nodes, nodes`model, nodes`children
      ensures Valid() && root == old(root) && old(nodes) <= nodes && fresh(nodes - old(nodes))
      ensures Fits(old(root.model), MAX_ORDER) && (next == null <==> x == PAGES) && x <= PAGES
      ensures next == null ==> root.model == old(root.model)
      ensures next != null ==>
        && next in nodes && next.children.NoKids? && next.path == NextBlock(old(root.model), MAX_ORDER, x, cnt)
        && Addr(next.path, MAX_ORDER) == x < Pow2(MAX_ORDER) && next.order == MAX_ORDER - |next.path|
        && root.model == Carve(old(root.model), next.path)
    {
      assert Linked(node);
      NodeRange(node);
      Pow2_20();
      next := NextLeaf(node);
      if next == null { return; }
      LeafStarts(next, x);
      if Pow2(next.order) > cnt {
        next := FindPage(next.address);
      }
      assert Linked(next);
    }

    /** The leaf node that starts at page x is the one values name. */
    lemma LeafStarts(n: Node, x: nat)
      requires Valid() && n in nodes && n.children.NoKids? && n.address == x
      ensures Fits(root.model, MAX_ORDER) && x < PAGES && LeafAt(root.model, MAX_ORDER, x) == n.path
      ensures Pow2(n.order) == Size(n.path, MAX_ORDER) && root.model == Carve(root.model, n.path)
    {
      assert Linked(n) && Cached(n);
      NodeAt(n);
      NodeRange(n);
      LeafAtIs(root.model, MAX_ORDER, n.path, x);
      CarveNothing(root.model, n.path);
    }

    /** One round of the loop of ba_mark_pages; `stop` when the call ends with r. */
    method MarkFollowing(node: Node, cnt: nat, flag: Flags, bypass: bool, failSilently: bool, ghost x: nat)
      returns (stop: bool, r: Err, next: Node, left: nat, ghost y: nat)
      requires Valid() && node in nodes && cnt > 0 && |node.path| <= MAX_ORDER && x == EndOf(node.path, MAX_ORDER)
      modifies this`nodes, nodes`flags, nodes`children, nodes`model
      ensures Valid() && root == old(root) && fresh(nodes - old(nodes)) && Fits(old(root.model), MAX_ORDER) && Fits(root.model, MAX_ORDER)
      ensures flag.status != PNODE_FREE ==> old(nodes) <= nodes
      ensures Rest(old(root.model), MAX_ORDER, x, cnt, flag, bypass, failSilently) ==
        if stop then Outcome(r, root.model) else Rest(root.model, MAX_ORDER, y, left, flag, bypass, failSilently)
      ensures !stop ==> next in nodes && |next.path| <= MAX_ORDER && y == EndOf(next.path, MAX_ORDER) && left < cnt
    {
      ghost var t := root.model;
      stop, next, left, y := true, node, cnt, x;
      var leaf := NextToMark(node, cnt, x);
      if leaf == null {
        EndOfMemory(t, x, cnt, flag, bypass, failSilently);
        r := ENOPAGE;
      } else {
        next := leaf;
        y, left := EndOf(next.path, MAX_ORDER), cnt - Pow2(next.order);
        stop, r := MarkRound(next, flag, bypass, failSilently, t, x, cnt, y, left);
      }
    }

    /** The write of a round, and what it means for the rest of the loop. */
    method MarkRound(node: Node, flag: Flags, bypass: bool, failSilently: bool, ghost t: Tree, ghost x: nat, ghost cnt: nat, ghost y: nat, ghost left: nat)
      returns (stop: bool, r: Err)
      requires Valid() && node in nodes && node.children.NoKids? && root.model == Carve(t, node.path) && Fits(t, MAX_ORDER)
      requires cnt > 0 && x < Pow2(MAX_ORDER) && node.path == NextBlock(t, MAX_ORDER, x, cnt) && Addr(node.path, MAX_ORDER) == x
      requires y == EndOf(node.path, MAX_ORDER) && left == Left(cnt, node.path, MAX_ORDER)
      modifies this`nodes, nodes`flags, nodes`children, nodes`model
      ensures Valid() && root == old(root) && nodes <= old(nodes) && (!stop ==> node in nodes) && Fits(root.model, MAX_ORDER)
      ensures flag.status != PNODE_FREE ==> nodes == old(nodes)
      ensures Rest(t, MAX_ORDER, x, cnt, flag, bypass, failSilently) ==
        if stop then Outcome(r, root.model) else Rest(root.model, MAX_ORDER, y, left, flag, bypass, failSilently)
    {
      RestRound(t, MAX_ORDER, x, cnt, node.path, y, left, flag, bypass, failSilently);
      r, stop := WriteFlags(node, flag, bypass, failSilently, t);
      if r == KPANIC { stop := true; } else if stop { r := KFREED; }
    }

    static lemma EndOfMemory(t: Tree, x: nat, cnt: nat, flag: Flags, bypass: bool, silent: bool)
      requires Fits(t, MAX_ORDER) && x == PAGES && cnt > 0
      ensures Rest(t, MAX_ORDER, x, cnt, flag, bypass, silent) == Outcome(ENOPAGE, t)
    {
      Pow2_20();
    }

    /** The loop of ba_mark_pages. */
    method MarkRest(start: Node, count: nat, flag: Flags, bypass: bool, failSilently: bool, ghost x: nat) returns (r: Err)
      requires Valid() && start in nodes && |start.path| <= MAX_ORDER && x == EndOf(start.path, MAX_ORDER) && Fits(root.model, MAX_ORDER)
      modifies this`nodes, nodes`flags, nodes`children, nodes`model
      ensures Valid() && root == old(root) && fresh(nodes - old(nodes))
      ensures Rest(old(root.model), MAX_ORDER, x, count, flag, bypass, failSilently) == Outcome(r, root.model)
      ensures flag.status != PNODE_FREE ==> old(nodes) <= nodes
    {
      var node, cnt, stop := start, count, false;
      ghost var y := x;
      while cnt > 0
        invariant Valid() && root == old(root) && fresh(nodes - old(nodes)) && Fits(root.model, MAX_ORDER)
        invariant flag.status != PNODE_FREE ==> old(nodes) <= nodes
        invariant node in nodes && |node.path| <= MAX_ORDER && y == EndOf(node.path, MAX_ORDER)
        invariant Rest(root.model, MAX_ORDER, y, cnt, flag, bypass, failSilently)
          == Rest(old(root.model), MAX_ORDER, x, count, flag, bypass, failSilently)
      {
        stop, r, node, cnt, y := MarkFollowing(node, cnt, flag, bypass, failSilently, y);
        if stop { return; }
      }
      r := ESUCCESS;
    }

    /**
     ba_mark_pages. The counter is unsigned and decremented before it is tested, so a count of 0 stands
     for 2^32. KFREED: the node just written was merged away and is about to be used.
     */
    method MarkPages(address: nat, pageCnt: nat, flag: Flags, bypass: bool, failSilently: bool) returns (r: Err)
      requires Valid() && pageCnt < 0x1_0000_0000
      modifies this`nodes, nodes`flags, nodes`children, nodes`model
      ensures Valid() && root == old(root) && Fits(old(root.model), MAX_ORDER)
      ensures MarkCall(old(root.model), MAX_ORDER, address, pageCnt, flag, bypass, failSilently) == Outcome(r, root.model)
      ensures var first, last := address % PAGES, address % PAGES + if pageCnt == 0 then 0x1_0000_0000 else pageCnt;
        Marks(old(root.model), old(root.model), MAX_ORDER, Outcome(r, root.model), first, first, last, flag, bypass, failSilently)
      ensures flag.status != PNODE_FREE ==> r != KFREED && old(nodes) <= nodes
    {
      NodeRange(root);
      ghost var t := root.model;
      CallPromises(t, address, pageCnt, flag, bypass, failSilently);
      var node := FindPage(address);
      FirstNode(node, t, address);
      var gone;
      r, gone := WriteFlags(node, flag, bypass, failSilently, t);
      NodeRange(root);
      if r != KPANIC {
        var cnt: nat := if pageCnt == 0 then 0xFFFF_FFFF else pageCnt - 1;
        if cnt == 0 { r := ESUCCESS; }
        else if gone { r := KFREED; }
        else { r := MarkRest(node, cnt, flag, bypass, failSilently, SecondPage(address, MAX_ORDER)); }
      }
    }

    lemma FirstNode(node: Node, t: Tree, address: nat)
      requires Valid() && node in nodes && node.path == PathOf(address, MAX_ORDER, 0) && node.order == 0 && node.address == address % PAGES
      requires Fits(t, MAX_ORDER)
      ensures node.path == FirstBlock(t, MAX_ORDER, address) && |node.path| <= MAX_ORDER
      ensures EndOf(node.path, MAX_ORDER) == SecondPage(address, MAX_ORDER)
    {
      assert Linked(node);
      Pow2_20();
    }

    /** What values say of the call. */
    static lemma CallPromises(t: Tree, address: nat, n: nat, flag: Flags, bypass: bool, silent: bool)
      requires Fits(t, MAX_ORDER)
      ensures var o, first := MarkCall(t, MAX_ORDER, address, n, flag, bypass, silent), address % PAGES;
        && Marks(t, t, MAX_ORDER, o, first, first, first + if n == 0 then 0x1_0000_0000 else n, flag, bypass, silent)
        && (flag.status != PNODE_FREE ==> o.err != KFREED)
    {
      Pow2_20();
      CallMarks(t, MAX_ORDER, address, n, flag, bypass, silent, address % PAGES, address % PAGES + 1 + CountLeft(n));
      CallExact(t, MAX_ORDER, address, n, flag, bypass, silent);
    }

    /** What Put and Repair do at a node, in terms of what they do at the child on the path. */
    static lemma ClimbStep(t: Tree, side: bool, p: Path, d: nat, s: Tree)
      requires d < |p| && p[d] == side && t.Branch? && Has(Child(t, side), p[d + 1..])
      ensures Has(t, p[d..])
      ensures Put(t, p[d..], s) == WithChild(t, side, Put(Child(t, side), p[d + 1..], s))
      ensures Repair(t, p[d..]) == Rejoin(WithChild(t, side, Repair(Child(t, side), p[d + 1..])))
    {
      assert p[d..][1..] == p[d + 1..];
    }
  }
}
