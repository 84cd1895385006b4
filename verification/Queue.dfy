/**
 The singly linked queues of the multitasking code, with head and tail: kmt_queue_push and
 kmt_queue_pop, and the same code written out in the mutex and remote call functions.
 */
module Queue {
  import opened Options

  class Node<T> {
    const item: T
    var next: Node?<T>

    constructor (item: T)
      ensures this.item == item && next == null
    {
      this.item, next := item, null;
    }
  }

  /** What an empty queue or the end of one points to, else node i. */
  function At<T>(nodes: seq<Node<T>>, i: nat): Node?<T> {
    if i < |nodes| then nodes[i] else null
  }

  /** What the nodes hold. */
  function Items<T>(nodes: seq<Node<T>>): (s: seq<T>)
    ensures |s| == |nodes| && forall i | 0 <= i < |s| :: s[i] == nodes[i].item
  {
    if nodes == [] then [] else [nodes[0].item] + Items(nodes[1..])
  }

  class KmtQueue<T> {
    var head: Node?<T>
    var tail: Node?<T>
    ghost var nodes: seq<Node<T>>

    /** The nodes form a chain from head to tail, without repetition. */
    ghost predicate Valid()
      reads this, nodes
    {
      && head == At(nodes, 0) && tail == (if nodes == [] then null else nodes[|nodes| - 1])
      && (forall i | 0 <= i < |nodes| :: nodes[i].next == At(nodes, i + 1))
      && (forall i, j | 0 <= i < j < |nodes| :: nodes[i] != nodes[j])
    }

    ghost function Contents(): seq<T>
      reads this
    {
      Items(nodes)
    }

    constructor ()
      ensures Valid() && Contents() == []
    {
      head, tail, nodes := null, null, [];
    }

    /** kmt_queue_push */
    method Push(x: T)
      requires Valid()
      modifies this, tail
      ensures Valid() && Contents() == old(Contents()) + [x]
      ensures nodes[..|nodes| - 1] == old(nodes) && fresh(nodes[|nodes| - 1])
    {
      var node := new Node(x);
      if tail != null { tail.next := node; } else { head := node; }
      tail := node;
      nodes := nodes + [node];
    }

    /** kmt_queue_pop; None is the invalid thread id. */
    method Pop() returns (r: Option<T>)
      requires Valid()
      modifies this
      ensures Valid()
      ensures match r
        case None => old(Contents()) == [] && nodes == old(nodes)
        case Some(x) => old(Contents()) == [x] + Contents() && nodes == old(nodes)[1..]
    {
      if head == null { return None; }
      r := Some(head.item);
      head := head.next;
      if head == null { tail := null; }
      nodes := nodes[1..];
    }

    /** kmt_queue_is_empty */
    method IsEmpty() returns (empty: bool)
      requires Valid()
      ensures empty <==> Contents() == []
    {
      empty := head == null;
    }
  }

  /** An array of queues: each one has nodes of its own. */
  class QueueArray<T> {
    const queues: seq<KmtQueue<T>>
    ghost var lists: seq<seq<T>>
    ghost var Repr: set<object>

    ghost predicate Valid()
      reads this, Repr
    {
      && |lists| == |queues|
      && (forall p | 0 <= p < |queues| :: QueueAt(p))
      && (forall p, q {:trigger Separate(p, q)} | 0 <= p < |queues| && 0 <= q < |queues| && p != q :: Separate(p, q))
    }

    /** Queues p and q share nothing. */
    ghost predicate Separate(p: nat, q: nat)
      requires p < |queues| && q < |queues|
      reads this, Repr
    {
      && queues[p] in Repr && queues[q] in Repr && queues[p] != queues[q]
      && forall n | n in queues[p].nodes :: n !in queues[q].nodes
    }

    /** Queue p is in order and holds the p-th list. */
    ghost predicate QueueAt(p: nat)
      requires p < |queues| == |lists|
      reads this, Repr
    {
      && queues[p] in Repr && (forall n | n in queues[p].nodes :: n in Repr)
      && queues[p].Valid() && queues[p].Contents() == lists[p]
    }

    constructor (n: nat)
      ensures Valid() && fresh(Repr) && this !in Repr && lists == seq(n, _ => [])
    {
      var qs: seq<KmtQueue<T>> := [];
      for i := 0 to n
        invariant |qs| == i
        invariant forall p | 0 <= p < i :: fresh(qs[p]) && qs[p].Valid() && qs[p].nodes == []
        invariant forall p, q | 0 <= p < q < i :: qs[p] != qs[q]
      {
        var q := new KmtQueue<T>();
        qs := qs + [q];
      }
      queues, lists, Repr := qs, seq(n, _ => []), set q | q in qs;
    }

    /** A queue none of whose objects has changed keeps what it holds. */
    twostate lemma QueueKept(new q: nat)
      requires q < |queues| && |lists| == old(|lists|) == |queues| && old(QueueAt(q))
      requires unchanged(queues[q]) && forall n | n in old(queues[q].nodes) :: unchanged(n)
      requires old(Repr) <= Repr && lists[q] == old(lists[q])
      ensures QueueAt(q) && queues[q].nodes == old(queues[q].nodes)
    {
      var nodes := queues[q].nodes;
      forall i | 0 <= i < |nodes| ensures nodes[i].next == old(nodes[i].next) { assert nodes[i] in old(queues[q].nodes); }
    }

    method Push(p: nat, x: T)
      requires Valid() && p < |queues| && this !in Repr
      modifies this, Repr
      ensures Valid() && fresh(Repr - old(Repr)) && this !in Repr
      ensures lists == old(lists)[p := old(lists)[p] + [x]]
    {
      assert QueueAt(p);
      queues[p].Push(x);
      ghost var node := queues[p].nodes[|queues[p].nodes| - 1];
      assert queues[p].nodes == old(queues[p].nodes) + [node];
      Repr := Repr + {node};
      lists := lists[p := lists[p] + [x]];
      forall q | 0 <= q < |queues| && q != p ensures QueueAt(q) && queues[q].nodes == old(queues[q].nodes) {
        assert old(QueueAt(q)) && old(Separate(q, p));
        QueueKept(q);
      }
      assert QueueAt(p);
      forall q, r | 0 <= q < |queues| && 0 <= r < |queues| && q != r ensures Separate(q, r) {
        assert old(QueueAt(q)) && old(QueueAt(r)) && old(Separate(q, r));
      }
    }

    method Pop(p: nat) returns (r: Option<T>)
      requires Valid() && p < |queues| && this !in Repr
      modifies this, Repr
      ensures Valid() && Repr == old(Repr)
      ensures match r
        case None => old(lists)[p] == [] && lists == old(lists)
        case Some(x) => old(lists)[p] != [] && x == old(lists)[p][0] && lists == old(lists)[p := old(lists)[p][1..]]
    {
      assert QueueAt(p);
      r := queues[p].Pop();
      if r.Some? { lists := lists[p := lists[p][1..]]; }
      forall q | 0 <= q < |queues| && q != p ensures QueueAt(q) && queues[q].nodes == old(queues[q].nodes) {
        assert old(QueueAt(q)) && old(Separate(q, p));
        QueueKept(q);
      }
      assert QueueAt(p);
      forall q, s | 0 <= q < |queues| && 0 <= s < |queues| && q != s ensures Separate(q, s) { assert old(Separate(q, s)); }
    }

    method IsEmpty(p: nat) returns (empty: bool)
      requires Valid() && p < |queues|
      ensures empty <==> lists[p] == []
    {
      assert QueueAt(p);
      empty := queues[p].IsEmpty();
    }
  }
}
