/** The bins of the kernel heap: doubly linked lists threaded through the headers of the nodes. */
module HeapBin {
  import opened Options

  /** heap_node; a node is named by its offset in the pool. */
  datatype Node = Node(next: Option<nat>, prev: Option<nat>, size: nat, free: bool, resizeable: bool)

  /** construct_heap_node */
  function Made(size: nat): Node { Node(None, None, size, false, false) }

  /** The headers that have been written into the pool. */
  class Pool {
    var nodes: map<nat, Node>

    constructor ()
      ensures nodes == map[]
    {
      nodes := map[];
    }
  }

  function At(l: seq<nat>, i: int): Option<nat> {
    if 0 <= i < |l| then Some(l[i]) else None
  }

  ghost predicate Unique(l: seq<nat>) {
    forall i, j | 0 <= i < j < |l| :: l[i] != l[j]
  }

  /** The node at position i of l points to its neighbours in l. */
  predicate LinkAt(nodes: map<nat, Node>, l: seq<nat>, i: nat)
    requires i < |l|
  {
    l[i] in nodes && nodes[l[i]].next == At(l, i + 1) && nodes[l[i]].prev == At(l, i - 1)
  }

  /** The links of the nodes of l, and the two ends, are those of the list l. */
  ghost predicate Chain(nodes: map<nat, Node>, l: seq<nat>, head: Option<nat>, tail: Option<nat>) {
    && head == At(l, 0) && tail == At(l, |l| - 1)
    && (forall n | n in l :: n in nodes)
    && (forall i: nat {:trigger LinkAt(nodes, l, i)} | i < |l| :: LinkAt(nodes, l, i))
  }

  /** Nodes outside the list do not matter to it. */
  lemma ChainSame(a: map<nat, Node>, b: map<nat, Node>, l: seq<nat>, head: Option<nat>, tail: Option<nat>)
    requires Chain(a, l, head, tail) && forall n | n in l :: n in b && b[n].next == a[n].next && b[n].prev == a[n].prev
    ensures Chain(b, l, head, tail)
  {
    forall i: nat | i < |l| ensures LinkAt(b, l, i) { assert LinkAt(a, l, i) && l[i] in l; }
  }

  /** The same nodes, links apart. */
  ghost predicate SameBodies(a: map<nat, Node>, b: map<nat, Node>) {
    && a.Keys == b.Keys
    && forall k | k in a :: a[k].size == b[k].size && a[k].free == b[k].free && a[k].resizeable == b[k].resizeable
  }

  /** Only links of nodes of l differ. */
  ghost predicate OnlyLinks(a: map<nat, Node>, b: map<nat, Node>, l: seq<nat>) {
    SameBodies(a, b) && forall k | k in a && k !in l :: a[k] == b[k]
  }

  function Without(l: seq<nat>, n: nat): seq<nat> {
    if l == [] then [] else if l[0] == n then l[1..] else [l[0]] + Without(l[1..], n)
  }

  lemma {:induction false} WithoutAt(l: seq<nat>, i: nat)
    requires Unique(l) && i < |l|
    ensures Without(l, l[i]) == l[..i] + l[i + 1..]
  {
    if i > 0 {
      assert l[1..][i - 1] == l[i] && l[0] != l[i];
      WithoutAt(l[1..], i - 1);
      assert l[1..][..i - 1] == l[1..i] && l[1..][i..] == l[i + 1..];
      assert [l[0]] + l[1..i] == l[..i];
    }
  }

  /** The links of l after n is appended: only n and the old last node have changed. */
  lemma Appended(a: map<nat, Node>, b: map<nat, Node>, l: seq<nat>, n: nat, head: Option<nat>, tail: Option<nat>)
    requires Chain(a, l, head, tail) && Unique(l) && n in b && n !in l && l != []
    requires b[n].next == None && b[n].prev == tail
    requires forall k | k in l :: k in b && b[k].prev == a[k].prev && b[k].next == if k == l[|l| - 1] then Some(n) else a[k].next
    ensures Chain(b, l + [n], head, Some(n))
  {
    var m := l + [n];
    forall i: nat | i < |m| ensures LinkAt(b, m, i) {
      if i < |l| {
        assert LinkAt(a, l, i) && m[i] == l[i] && l[i] in l;
        assert i == |l| - 1 || l[i] != l[|l| - 1];
      }
    }
  }

  /** The neighbours `prev` and `next`, where there are any, are linked to each other. */
  function Relinked(a: map<nat, Node>, prev: Option<nat>, next: Option<nat>): map<nat, Node>
    requires (prev.Some? ==> prev.value in a) && (next.Some? ==> next.value in a)
  {
    var b := if prev.Some? then a[prev.value := a[prev.value].(next := next)] else a;
    if next.Some? then b[next.value := b[next.value].(prev := prev)] else b
  }

  lemma RelinkedAt(a: map<nat, Node>, l: seq<nat>, i: nat, k: nat)
    requires Unique(l) && i < |l| && k < |l| && k != i && forall n | n in l :: n in a
    ensures var b := Relinked(a, At(l, i - 1), At(l, i + 1));
      && l[k] in b && b[l[k]].next == (if k + 1 == i then At(l, i + 1) else a[l[k]].next)
      && b[l[k]].prev == (if k == i + 1 then At(l, i - 1) else a[l[k]].prev)
  {
    assert i > 0 ==> (l[k] == l[i - 1] <==> k == i - 1);
    assert i + 1 < |l| ==> (l[k] == l[i + 1] <==> k == i + 1);
  }

  /** Positions and ends of a list without its element i. */
  lemma Rest(l: seq<nat>, i: nat, j: int)
    requires i < |l|
    ensures At(l[..i] + l[i + 1..], j) == if j < i then At(l, j) else At(l, j + 1)
  {
  }

  lemma UniqueRest(l: seq<nat>, i: nat)
    requires Unique(l) && i < |l|
    ensures Unique(l[..i] + l[i + 1..])
  {
    var m := l[..i] + l[i + 1..];
    forall j, k | 0 <= j < k < |m| ensures m[j] != m[k] {
      assert m[j] == l[if j < i then j else j + 1] && m[k] == l[if k < i then k else k + 1];
    }
  }

  lemma RelinkedBodies(a: map<nat, Node>, l: seq<nat>, i: nat)
    requires i < |l| && forall n | n in l :: n in a
    ensures OnlyLinks(a, Relinked(a, At(l, i - 1), At(l, i + 1)), l)
  {
    assert i > 0 ==> l[i - 1] in l;
    assert i + 1 < |l| ==> l[i + 1] in l;
  }

  lemma RemovedAt(a: map<nat, Node>, b: map<nat, Node>, l: seq<nat>, i: nat, m: seq<nat>, j: nat, head: Option<nat>, tail: Option<nat>)
    requires Chain(a, l, head, tail) && Unique(l) && i < |l| && m == l[..i] + l[i + 1..] && j < |m|
    requires b == Relinked(a, At(l, i - 1), At(l, i + 1))
    ensures LinkAt(b, m, j)
  {
    var k := if j < i then j else j + 1;
    assert LinkAt(a, l, k);
    RelinkedAt(a, l, i, k);
    Rest(l, i, j);
    Rest(l, i, j + 1);
    Rest(l, i, j - 1);
  }

  /** The links of l after the node at i is taken out: its neighbours, if any, point to each other. */
  lemma Removed(a: map<nat, Node>, b: map<nat, Node>, l: seq<nat>, i: nat, m: seq<nat>, head: Option<nat>, tail: Option<nat>)
    requires Chain(a, l, head, tail) && Unique(l) && i < |l| && m == l[..i] + l[i + 1..]
    requires b == Relinked(a, At(l, i - 1), At(l, i + 1))
    ensures Chain(b, m, At(m, 0), At(m, |m| - 1))
  {
    forall j: nat | j < |m| ensures LinkAt(b, m, j) { RemovedAt(a, b, l, i, m, j, head, tail); }
    forall n | n in m ensures n in b { assert n in l; }
  }

  lemma {:induction false} WithoutHas(l: seq<nat>, n: nat)
    requires Unique(l) && n in l
    ensures Unique(Without(l, n)) && forall k :: k in Without(l, n) <==> k in l && k != n
  {
    var i :| 0 <= i < |l| && l[i] == n;
    WithoutAt(l, i);
    UniqueRest(l, i);
    RestHas(l, i, l[..i], l[i + 1..]);
  }

  lemma RestHas(l: seq<nat>, i: nat, a: seq<nat>, b: seq<nat>)
    requires Unique(l) && i < |l| && a == l[..i] && b == l[i + 1..]
    ensures forall k :: k in a + b <==> k in l && k != l[i]
  {
    assert l == a + [l[i]] + b;
    forall k | k in a ensures k != l[i] { var j :| 0 <= j < |a| && a[j] == k; assert l[j] == k; }
    forall k | k in b ensures k != l[i] { var j :| 0 <= j < |b| && b[j] == k; assert l[i + 1 + j] == k; }
  }

  /** The first node of the list that is big enough. */
  function FirstFit(nodes: map<nat, Node>, l: seq<nat>, size: nat): (r: Option<nat>)
    requires forall n | n in l :: n in nodes
    ensures r.Some? ==> r.value in l && nodes[r.value].size >= size
    ensures r.None? ==> forall n | n in l :: nodes[n].size < size
  {
    if l == [] then None else if nodes[l[0]].size >= size then Some(l[0]) else FirstFit(nodes, l[1..], size)
  }

  class HeapBin {
    var head: Option<nat>
    var tail: Option<nat>
    ghost var list: seq<nat>

    constructor ()
      ensures head == None && tail == None && list == []
    {
      head, tail, list := None, None, [];
    }

    ghost predicate Linked(nodes: map<nat, Node>)
      reads this
    {
      Chain(nodes, list, head, tail) && Unique(list)
    }

    /** bin_push */
    method Push(pool: Pool, n: nat)
      requires Linked(pool.nodes) && n in pool.nodes && n !in list
      modifies this, pool
      ensures Linked(pool.nodes) && list == old(list) + [n] && OnlyLinks(old(pool.nodes), pool.nodes, list)
    {
      var node := pool.nodes[n];
      ghost var nodes := pool.nodes;
      if head.None? {
        pool.nodes := pool.nodes[n := node.(next := None, prev := None)];
        head, tail := Some(n), Some(n);
      } else {
        assert tail == Some(list[|list| - 1]);
        var last := tail.value;
        pool.nodes := pool.nodes[n := node.(next := None, prev := tail)];
        pool.nodes := pool.nodes[last := pool.nodes[last].(next := Some(n))];
        Appended(nodes, pool.nodes, list, n, head, tail);
        tail := Some(n);
      }
      list := list + [n];
    }

    /** bin_remove, of a node that is in the bin. */
    method Remove(pool: Pool, n: nat)
      requires Linked(pool.nodes) && n in list
      modifies this, pool
      ensures Linked(pool.nodes) && list == Without(old(list), n) && OnlyLinks(old(pool.nodes), pool.nodes, old(list))
    {
      ghost var i :| 0 <= i < |list| && list[i] == n;
      ghost var l, nodes := list, pool.nodes;
      ghost var m := l[..i] + l[i + 1..];
      WithoutAt(l, i);
      UniqueRest(l, i);
      Rest(l, i, 0);
      Rest(l, i, |m| - 1);
      RelinkedBodies(nodes, l, i);
      Unlink(pool, n, i);
      Removed(nodes, pool.nodes, l, i, m, old(head), old(tail));
      list := m;
    }

    /** The neighbours of the node at i, and the ends of the bin, are linked past it. */
    method Unlink(pool: Pool, n: nat, ghost i: nat)
      requires Linked(pool.nodes) && i < |list| && list[i] == n
      modifies this`head, this`tail, pool
      ensures forall k | k in list :: k in old(pool.nodes)
      ensures pool.nodes == Relinked(old(pool.nodes), At(list, i - 1), At(list, i + 1))
      ensures head == (if i == 0 then At(list, 1) else At(list, 0))
      ensures tail == (if i == |list| - 1 then At(list, |list| - 2) else At(list, |list| - 1))
    {
      var node := pool.nodes[n];
      assert LinkAt(pool.nodes, list, i);
      if node.next.None? {
        if node.prev.None? {
          head, tail := None, None;
        } else {
          tail := node.prev;
          SetNext(pool, tail.value, None);
        }
      } else if node.prev.None? {
        head := node.next;
        SetPrev(pool, head.value, None);
      } else {
        SetNext(pool, node.prev.value, node.next);
        SetPrev(pool, node.next.value, node.prev);
      }
    }

    static method SetNext(pool: Pool, n: nat, next: Option<nat>)
      requires n in pool.nodes
      modifies pool
      ensures pool.nodes == old(pool.nodes)[n := old(pool.nodes)[n].(next := next)]
    {
      pool.nodes := pool.nodes[n := pool.nodes[n].(next := next)];
    }

    static method SetPrev(pool: Pool, n: nat, prev: Option<nat>)
      requires n in pool.nodes
      modifies pool
      ensures pool.nodes == old(pool.nodes)[n := old(pool.nodes)[n].(prev := prev)]
    {
      pool.nodes := pool.nodes[n := pool.nodes[n].(prev := prev)];
    }

    /** bin_find_node */
    method Find(pool: Pool, size: nat) returns (n: Option<nat>)
      requires Linked(pool.nodes)
      ensures n == FirstFit(pool.nodes, list, size)
    {
      n := head;
      ghost var i := 0;
      assert list[0..] == list;
      while n.Some?
        invariant i <= |list| && n == At(list, i)
        invariant FirstFit(pool.nodes, list, size) == FirstFit(pool.nodes, list[i..], size)
        decreases |list| - i
      {
        assert list[i..][1..] == list[i + 1..];
        assert LinkAt(pool.nodes, list, i);
        if pool.nodes[n.value].size >= size { return; }
        n := pool.nodes[n.value].next;
        i := i + 1;
      }
    }
  }
}
