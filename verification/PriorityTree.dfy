/** http2/writesched_priority.go: the links of the priority tree (section 5.3 of RFC 7540). */
module PriorityTree {
  import opened Common
  import opened WriteSched

  datatype NodeState = Open | Closed | Idle

  class Node {
    const id: nat
    /** The actual weight is weight + 1. */
    var weight: Byte
    var state: NodeState
    var q: seq<Request>
    var bytes: int
    var subtreeBytes: int

    var parent: Node?
    /** Head of the list of kids. */
    var kids: Node?
    var prev: Node?
    var next: Node?
    /** Orders the kids of one parent: each is after those before it in the list. */
    ghost var pos: int

    constructor (id: nat, state: NodeState)
      ensures this.id == id && this.state == state && weight == 15 && q == [] && bytes == subtreeBytes == 0
      ensures parent == kids == prev == next == null
    {
      this.id, this.state, weight, q, bytes, subtreeBytes := id, state, 15, [], 0, 0;
      parent, kids, prev, next, pos := null, null, null, null, 0;
    }
  }

  /** Every link of m leads to a node of s that links back. */
  ghost predicate LinkedAt(s: set<Node>, m: Node)
    requires m in s
    reads s`parent, s`kids, s`prev, s`next, s`pos
  {
    && (m.parent != null ==> m.parent in s && m.parent != m)
    && (m.parent == null ==> m.prev == null && m.next == null)
    && (m.kids != null ==> m.kids in s && m.kids.parent == m && m.kids.prev == null)
    && (m.prev != null ==> m.prev in s && m.prev.next == m && m.prev.parent == m.parent)
    && (m.next != null ==> m.next in s && m.next.prev == m && m.next.parent == m.parent && m.pos < m.next.pos)
    && (m.prev == null && m.parent != null ==> m.parent.kids == m)
  }

  /** The kids of one parent form one list, ordered by pos. */
  ghost predicate Ordered(s: set<Node>, a: Node, b: Node)
    requires a in s && b in s
    reads s`parent, s`kids, s`prev, s`next, s`pos
  {
    a.parent != null && a.parent == b.parent ==>
      && (a.pos == b.pos ==> a == b)
      && (a.pos < b.pos ==> a.next != null && a.next in s && a.next.pos <= b.pos)
  }

  /** No kid comes before the head of the list. */
  ghost predicate Headed(s: set<Node>, m: Node)
    requires m in s
    reads s`parent, s`kids, s`prev, s`next, s`pos
  {
    m.parent != null && m.parent in s ==> m.parent.kids != null && m.parent.kids in s && m.parent.kids.pos <= m.pos
  }

  ghost predicate Linked(s: set<Node>)
    reads s`parent, s`kids, s`prev, s`next, s`pos
  {
    && (forall m <- s :: LinkedAt(s, m))
    && (forall m <- s :: Headed(s, m))
    && (forall a, b :: a in s && b in s ==> Ordered(s, a, b))
  }

  /** Takes n out of the list of its parent. */
  method Detach(n: Node, ghost s: set<Node>)
    requires Linked(s) && n in s
    modifies s`parent, s`kids, s`prev, s`next
    ensures Detached(n, s)
  {
    if n.parent != null {
      if n.prev == null {
        n.parent.kids := n.next;
      } else {
        n.prev.next := n.next;
      }
      if n.next != null {
        n.next.prev := n.prev;
      }
    }
    n.parent, n.next, n.prev := null, null, null;
  }

  /** What Detach does to each link. */
  twostate predicate Detached(new n: Node, s: set<Node>)
    requires n in s
    reads s
  {
    forall m <- s ::
      && m.parent == (if m == n then null else old(m.parent))
      && m.kids == (if m == old(n.parent) && old(m.kids) == n then old(n.next) else old(m.kids))
      && m.prev == (if m == n then null else if m == old(n.next) then old(n.prev) else old(m.prev))
      && m.next == (if m == n then null else if m == old(n.prev) then old(n.next) else old(m.next))
      && m.pos == old(m.pos)
  }

  twostate lemma DetachedAt(new n: Node, s: set<Node>)
    requires n in s && old(Linked(s)) && Detached(n, s)
    ensures forall m <- s :: LinkedAt(s, m)
  {
    hide Ordered;
    forall m | m in s ensures LinkedAt(s, m) {
      assert old(LinkedAt(s, m)) && old(LinkedAt(s, n));
    }
  }

  twostate lemma DetachedHead(new n: Node, s: set<Node>)
    requires n in s && old(Linked(s)) && Detached(n, s)
    ensures forall m <- s :: Headed(s, m)
  {
    forall m | m in s ensures Headed(s, m) {
      assert old(LinkedAt(s, m)) && old(LinkedAt(s, n)) && old(Headed(s, m)) && old(Headed(s, n));
      assert old(Ordered(s, n, m));
    }
  }

  twostate lemma DetachedOrder(new n: Node, s: set<Node>)
    requires n in s && old(Linked(s)) && Detached(n, s)
    ensures forall a, b :: a in s && b in s ==> Ordered(s, a, b)
  {
    forall a, b | a in s && b in s ensures Ordered(s, a, b) {
      assert old(LinkedAt(s, a)) && old(LinkedAt(s, n));
      assert old(Ordered(s, a, b)) && old(Ordered(s, n, b));
    }
  }

  /** Puts n, which has no parent, at the head of the kids of `parent`. */
  method Attach(n: Node, parent: Node, ghost s: set<Node>)
    requires Linked(s) && n in s && parent in s && n != parent && n.parent == null
    modifies s`parent, s`kids, s`prev, s`next, s`pos
    ensures Attached(n, parent, s)
  {
    n.parent := parent;
    n.next := parent.kids;
    n.prev := null;
    if n.next != null {
      n.next.prev := n;
      n.pos := n.next.pos - 1;
    }
    parent.kids := n;
  }

  /** What Attach does to each link. */
  twostate predicate Attached(new n: Node, new parent: Node, s: set<Node>)
    requires n in s && parent in s
    reads s
  {
    && (forall m <- s ::
      && m.parent == (if m == n then parent else old(m.parent))
      && m.kids == (if m == parent then n else old(m.kids))
      && m.prev == (if m == n then null else if m == old(parent.kids) then n else old(m.prev))
      && m.next == (if m == n then old(parent.kids) else old(m.next))
      && (m != n ==> m.pos == old(m.pos)))
    && (old(parent.kids) != null && old(parent.kids) in s ==> n.pos < old(parent.kids.pos))
  }

  twostate lemma AttachedAt(new n: Node, new parent: Node, s: set<Node>)
    requires n in s && parent in s && n != parent && old(n.parent) == null
    requires old(Linked(s)) && Attached(n, parent, s)
    ensures forall m <- s :: LinkedAt(s, m) && Headed(s, m)
  {
    forall m | m in s ensures LinkedAt(s, m) && Headed(s, m) {
      assert old(LinkedAt(s, m)) && old(LinkedAt(s, n)) && old(LinkedAt(s, parent)) && old(Headed(s, m));
    }
  }

  twostate lemma AttachedOrder(new n: Node, new parent: Node, s: set<Node>)
    requires n in s && parent in s && n != parent && old(n.parent) == null
    requires old(Linked(s)) && Attached(n, parent, s)
    ensures forall a, b :: a in s && b in s ==> Ordered(s, a, b)
  {
    forall a, b | a in s && b in s ensures Ordered(s, a, b) {
      assert old(LinkedAt(s, a)) && old(LinkedAt(s, n)) && old(LinkedAt(s, parent));
      assert old(Ordered(s, a, b)) && old(Headed(s, a)) && old(Headed(s, b));
    }
  }

  /** Moves n to the head of the kids of `parent`, or out of the tree; making n its own parent is a panic. */
  method SetParent(n: Node, parent: Node?, ghost s: set<Node>)
    requires Linked(s) && n in s && (parent != null ==> parent in s)
    requires n != parent
    modifies s`parent, s`kids, s`prev, s`next, s`pos
    ensures Linked(s)
    ensures forall m <- s :: m.parent == if m == n then parent else old(m.parent)
    ensures forall m <- s :: m != n && (m.parent == null || (m.parent != parent && m.parent != old(n.parent))) ==> m.prev == old(m.prev) && m.next == old(m.next)
    ensures forall m <- s :: m != parent && m != old(n.parent) ==> m.kids == old(m.kids)
    ensures old(n.parent) == parent ==> unchanged(s)
    ensures forall m <- s :: m != n ==> m.pos == old(m.pos)
    ensures parent != null && old(n.parent) != parent ==> parent.kids == n && n.next == old(parent.kids)
  {
    if n.parent == parent {
      return;
    }
    Detach(n, s);
    DetachedAt(n, s);
    DetachedHead(n, s);
    DetachedOrder(n, s);
    if parent != null {
      label detached:
      Attach(n, parent, s);
      AttachedAt@detached(n, parent, s);
      AttachedOrder@detached(n, parent, s);
    }
  }
}
