/** A price level: a doubly linked FIFO queue of order nodes beside the cached size of the level.

    The pointer operations are those of the original's list: append, erase by iterator, and splice
    to the end. An iterator is a node. The ghost sequence `nodes` is what the links spell. */
module OrderQueue {
  import opened MachineInts
  import opened PriorityBook

  class Node {
    const id: uint64
    var size: uint32
    var prev: Node?
    var next: Node?
    ghost const home: Level

    constructor (id: uint64, size: uint32, ghost home: Level)
      ensures this.id == id && this.size == size && this.home == home
    {
      this.id := id;
      this.size := size;
      this.prev := null;
      this.next := null;
      this.home := home;
    }
  }

  /** The node at a place, or null beyond either end. */
  ghost function Nth(s: seq<Node>, i: int): Node? {
    if 0 <= i < |s| then s[i] else null
  }

  /** The places next to i when place k is skipped. */
  ghost function Before(i: int, k: int): int {
    if i - 1 == k then i - 2 else i - 1
  }

  ghost function After(i: int, k: int): int {
    if i + 1 == k then i + 2 else i + 1
  }

  /** Links that skip place k spell the sequence without it. */
  lemma Skipped(s: seq<Node>, k: nat)
    requires k < |s|
    requires forall i {:trigger s[i].prev} | 0 <= i < |s| && i != k :: s[i].prev == Nth(s, Before(i, k))
    requires forall i {:trigger s[i].next} | 0 <= i < |s| && i != k :: s[i].next == Nth(s, After(i, k))
    ensures var r := RemoveAt(s, k);
            && (forall i {:trigger r[i].prev} | 0 <= i < |r| :: r[i].prev == Nth(r, i - 1))
            && (forall i {:trigger r[i].next} | 0 <= i < |r| :: r[i].next == Nth(r, i + 1))
  {
    var r := RemoveAt(s, k);
    forall i | 0 <= i < |r|
      ensures r[i].prev == Nth(r, i - 1) && r[i].next == Nth(r, i + 1)
    {
      var j := if i < k then i else i + 1;
      assert s[j].prev == Nth(s, Before(j, k)) && s[j].next == Nth(s, After(j, k));
    }
  }

  class Level {
    var head: Node?
    var tail: Node?
    var count: nat
    var totalSize: uint64
    ghost var nodes: seq<Node>
    ghost const key: LevelKey

    /** The links spell `nodes`, and the nodes belong to no other level. */
    ghost predicate Linked()
      reads this`head, this`tail, this`count, this`nodes, nodes`prev, nodes`next
    {
      && count == |nodes|
      && head == Nth(nodes, 0)
      && tail == Nth(nodes, |nodes| - 1)
      && (forall i | 0 <= i < |nodes| :: nodes[i].home == this)
      && (forall i, j | 0 <= i < j < |nodes| :: nodes[i] != nodes[j])
      && (forall i {:trigger nodes[i].prev} | 0 <= i < |nodes| ::
            nodes[i].prev == Nth(nodes, i - 1))
      && (forall i {:trigger nodes[i].next} | 0 <= i < |nodes| ::
            nodes[i].next == Nth(nodes, i + 1))
    }

    ghost predicate Blank()
      reads this, nodes
    {
      Linked() && nodes == [] && totalSize == 0
    }

    constructor (ghost key: LevelKey)
      ensures Blank() && this.key == key
    {
      head, tail, count, totalSize := null, null, 0, 0;
      nodes := [];
      this.key := key;
    }

    predicate IsEmpty()
      reads this
    {
      head == null
    }

    /** Assigning a fresh level: the old nodes are let go. */
    method Reset()
      modifies this
      ensures Blank()
    {
      head, tail, count, totalSize := null, null, 0, 0;
      nodes := [];
    }

    method PushBack(id: uint64, size: uint32) returns (n: Node)
      requires Linked()
      modifies this`head, this`tail, this`count, this`nodes, nodes
      ensures Linked() && fresh(n) && nodes == old(nodes) + [n]
      ensures n.id == id && n.size == size && n.home == this
      ensures forall m | m in old(nodes) :: m.size == old(m.size) && m.home == this
    {
      n := new Node(id, size, this);
      LinkLast(n);
    }

    method LinkLast(n: Node)
      requires Linked() && n !in nodes && n.home == this
      modifies this`head, this`tail, this`count, this`nodes, nodes, n
      ensures Linked() && nodes == old(nodes) + [n]
      ensures n.size == old(n.size) && forall m | m in old(nodes) :: m.size == old(m.size) && m.home == this
    {
      n.prev := tail;
      n.next := null;
      if tail == null {
        head := n;
      } else {
        tail.next := n;
      }
      tail := n;
      count := count + 1;
      nodes := nodes + [n];
    }

    /** Removing a node leaves every other node where it is: no other iterator is invalidated. */
    method Erase(n: Node, ghost k: nat)
      requires Linked() && k < |nodes| && nodes[k] == n
      modifies this`head, this`tail, this`count, this`nodes, nodes
      ensures Linked() && nodes == RemoveAt(old(nodes), k)
      ensures forall m | m in old(nodes) :: m.size == old(m.size) && m.home == this
    {
      Unlink(n, k);
      count := count - 1;
      Skipped(nodes, k);
      nodes := RemoveAt(nodes, k);
    }

    /** The pointer surgery of an erase: the two neighbours now name each other. */
    method Unlink(n: Node, ghost k: nat)
      requires Linked() && k < |nodes| && nodes[k] == n
      modifies this`head, this`tail, nodes
      ensures forall i {:trigger nodes[i].prev} | 0 <= i < |nodes| && i != k :: nodes[i].prev == Nth(nodes, Before(i, k))
      ensures forall i {:trigger nodes[i].next} | 0 <= i < |nodes| && i != k :: nodes[i].next == Nth(nodes, After(i, k))
      ensures head == Nth(nodes, After(-1, k)) && tail == Nth(nodes, Before(|nodes|, k))
      ensures forall m | m in nodes :: m.size == old(m.size)
    {
      UnlinkNext(n, k);
      UnlinkPrev(n, k);
    }

    method UnlinkNext(n: Node, ghost k: nat)
      requires Linked() && k < |nodes| && nodes[k] == n
      modifies this`head, nodes`next
      ensures head == Nth(nodes, After(-1, k)) && n.next == old(n.next)
      ensures forall i {:trigger nodes[i].next} | 0 <= i < |nodes| && i != k :: nodes[i].next == Nth(nodes, After(i, k))
    {
      assert n.prev == Nth(nodes, k - 1) && n.next == Nth(nodes, k + 1);
      if n.prev == null {
        head := n.next;
      } else {
        n.prev.next := n.next;
      }
    }

    method UnlinkPrev(n: Node, ghost k: nat)
      requires k < |nodes| && nodes[k] == n && n.next == Nth(nodes, k + 1) && tail == Nth(nodes, |nodes| - 1)
      requires forall i, j | 0 <= i < j < |nodes| :: nodes[i] != nodes[j]
      requires forall i {:trigger nodes[i].prev} | 0 <= i < |nodes| :: nodes[i].prev == Nth(nodes, i - 1)
      modifies this`tail, nodes`prev
      ensures tail == Nth(nodes, Before(|nodes|, k))
      ensures forall i {:trigger nodes[i].prev} | 0 <= i < |nodes| && i != k :: nodes[i].prev == Nth(nodes, Before(i, k))
    {
      if n.next == null {
        tail := n.prev;
      } else {
        n.next.prev := n.prev;
      }
    }

    /** Moving a node behind all others, within the same list; a node that is last stays put. */
    method SpliceToEnd(n: Node, ghost k: nat)
      requires Linked() && k < |nodes| && nodes[k] == n
      modifies this`head, this`tail, this`count, this`nodes, nodes
      ensures Linked() && nodes == RemoveAt(old(nodes), k) + [n]
      ensures forall m | m in old(nodes) :: m.size == old(m.size) && m.home == this
    {
      assert n.next == Nth(nodes, k + 1);
      if n.next != null {
        Erase(n, k);
        LinkLast(n);
      }
    }
  }
}
