/** http2/writesched_priority.go: the scheduler that follows stream priorities. */
module PrioritySched {
  import opened Common
  import opened FlowControl
  import opened WriteSched
  import opened SchedRuns
  import opened PriorityTree
  import opened PriorityForest

  const DEFAULT_WEIGHT: Byte := 15

  datatype PriorityParam = PriorityParam(streamDep: nat, exclusive: bool, weight: Byte)

  ghost function ParentMap(s: set<Node>): (p: Parents)
    reads s`parent
    ensures p.Keys == s
  {
    map m | m in s :: m.parent
  }

  lemma FirstKid(s: set<Node>, p: Node)
    requires Linked(s) && p in s
    ensures p.kids != null ==> p.kids in s && p.kids.parent == p
    ensures forall m <- s :: m.parent == p ==> p.kids != null && p.kids.pos <= m.pos
  {
    assert LinkedAt(s, p);
    assert forall m <- s :: Headed(s, m);
  }

  lemma NextKid(s: set<Node>, k: Node)
    requires Linked(s) && k in s
    ensures k.next != null ==> k.parent != null && k.next in s && k.next.parent == k.parent && k.pos < k.next.pos
    ensures k.parent != null ==> forall m <- s :: m.parent == k.parent && m != k && k.pos <= m.pos ==> k.next != null && k.next.pos <= m.pos
  {
    assert LinkedAt(s, k);
    assert forall m <- s :: Ordered(s, k, m);
  }

  /** Moves every kid of dep except n to n, while following the list of kids as it was. */
  method AdoptKids(n: Node, dep: Node, ghost s: set<Node>)
    requires Linked(s) && n in s && dep in s && n != dep
    modifies s`parent, s`kids, s`prev, s`next, s`pos
    ensures Linked(s)
    ensures forall m <- s :: m.parent == if m != n && old(m.parent) == dep then n else old(m.parent)
  {
    hide LinkedAt, Ordered, Headed;
    ghost var kidsLeft := set m | m in s && m.parent == dep;
    var k := dep.kids;
    FirstKid(s, dep);
    while k != null
      invariant Linked(s)
      invariant k != null ==> k in s && k.parent == dep && k in kidsLeft
      invariant forall m <- s :: k != null && m.parent == dep && k.pos <= m.pos ==> m in kidsLeft
      invariant forall m <- kidsLeft :: k != null && m in s && m.parent == dep && k.pos <= m.pos
      invariant forall m <- s :: old(m.parent) == dep && m != n && m !in kidsLeft ==> m.parent == n
      invariant forall m <- s :: old(m.parent) != dep || m == n ==> m.parent == old(m.parent)
      decreases kidsLeft
    {
      var next := k.next;
      NextKid(s, k);
      kidsLeft := kidsLeft - {k};
      if k != n {
        SetParent(k, n, s);
      }
      k := next;
    }
  }

  /** If dep depends on n, moves dep to the parent of n. */
  method MoveUp(n: Node, dep: Node, ghost s: set<Node>, ghost d: map<Node, nat>)
    requires Linked(s) && n in s && dep in s && n != dep
    requires Ranked(ParentMap(s), d)
    modifies s`parent, s`kids, s`prev, s`next, s`pos
    ensures Linked(s)
    ensures ParentMap(s) == MovedUp(old(ParentMap(s)), d, n, dep)
  {
    hide LinkedAt, Ordered, Headed;
    ghost var p := ParentMap(s);
    var x := dep.parent;
    while x != null
      invariant x != null ==> x in s
      invariant Above(p, d, n, dep) <==> x != null && (x == n || Above(p, d, n, x))
      decreases if x == null then 0 else d[x] + 1
    {
      if x == n {
        AboveRank(p, d, n, dep);
        SetParent(dep, n.parent, s);
        break;
      }
      x := x.parent;
    }
  }

  /** Makes n depend on dep. */
  method DependOn(n: Node, dep: Node, exclusive: bool, ghost s: set<Node>, ghost d: map<Node, nat>)
    requires Linked(s) && n in s && dep in s && n != dep
    requires Ranked(ParentMap(s), d)
    modifies s`parent, s`kids, s`prev, s`next, s`pos
    ensures Linked(s)
    ensures ParentMap(s) == Adjusted(old(ParentMap(s)), d, n, dep, exclusive)
  {
    hide Linked, Ranked, Above;
    MoveUp(n, dep, s, d);
    if exclusive {
      AdoptKids(n, dep, s);
    }
    SetParent(n, dep, s);
  }

  /** The loop over the kids of n in removeNode, which goes on through the kids of the parent. */
  method ReleaseKids(n: Node, ghost s: set<Node>, ghost d: map<Node, nat>)
    requires Linked(s) && n in s && Ranked(ParentMap(s), d)
    modifies s`parent, s`kids, s`prev, s`next, s`pos
    ensures Linked(s)
    ensures forall m <- s :: m.parent == if m == old(n.kids) then n.parent else old(m.parent)
  {
    hide LinkedAt, Ordered, Headed;
    ghost var moved := false;
    ghost var left := s;
    FirstKid(s, n);
    assert n.parent == ParentMap(s)[n];
    assert n.kids != null ==> n.kids.parent == ParentMap(s)[n.kids];
    var k := n.kids;
    while k != null
      invariant Linked(s)
      invariant !moved ==> k == old(n.kids) && left == s && forall m <- s :: m.parent == old(m.parent)
      invariant moved ==> forall m <- s :: m.parent == if m == old(n.kids) then old(n.parent) else old(m.parent)
      invariant k != null ==> k in s && k in left
      invariant moved && k != null ==> k.parent == old(n.parent) != null && forall m <- s :: m.parent == k.parent && k.pos <= m.pos ==> m in left
      invariant k == null ==> moved || old(n.kids) == null
      decreases left, !moved
    {
      SetParent(k, n.parent, s);
      NextKid(s, k);
      left := if moved then left - {k} else left;
      moved := true;
      k := k.next;
    }
  }

  lemma LinkedWith(s: set<Node>, n: Node)
    requires Linked(s) && n !in s && n.parent == n.kids == n.prev == n.next == null
    ensures Linked(s + {n})
  {
    forall m | m in s + {n} ensures LinkedAt(s + {n}, m) {
      assert m in s ==> LinkedAt(s, m);
    }
    forall m | m in s + {n} ensures Headed(s + {n}, m) {
      assert m in s ==> Headed(s, m) && LinkedAt(s, m);
    }
    forall a, b | a in s + {n} && b in s + {n} ensures Ordered(s + {n}, a, b) {
      assert a in s && b in s ==> Ordered(s, a, b) && LinkedAt(s, a);
    }
  }

  /** Adds b to the bytes of n and to the sums kept by n and all nodes above it. */
  method AddBytes(n: Node, b: int, ghost s: set<Node>, ghost d: map<Node, nat>)
    requires n in s && Ranked(ParentMap(s), d)
    modifies s`bytes, s`subtreeBytes
    ensures forall m <- s :: m.bytes == old(m.bytes) + if m == n then b else 0
    ensures forall m <- s :: m.subtreeBytes == old(m.subtreeBytes) + if Reachable(ParentMap(s), d, m, n) then b else 0
  {
    ghost var p := ParentMap(s);
    n.bytes := n.bytes + b;
    var x: Node? := n;
    while x != null
      invariant x != null ==> x in s
      invariant forall m <- s :: m.bytes == old(m.bytes) + if m == n then b else 0
      invariant forall m <- s ::
        m.subtreeBytes == old(m.subtreeBytes) +
          if Reachable(p, d, m, n) && (x == null || !Reachable(p, d, m, x)) then b else 0
      invariant forall m <- s :: x != null && Reachable(p, d, m, x) ==> Reachable(p, d, m, n)
      decreases if x == null then 0 else d[x] + 1
    {
      SelfNotAbove(p, d, x);
      x.subtreeBytes := x.subtreeBytes + b;
      x := x.parent;
    }
  }

  lemma SelfNotAbove(p: Parents, d: map<Node, nat>, x: Node)
    requires Ranked(p, d) && x in p
    ensures !Above(p, d, x, x)
  {
    if Above(p, d, x, x) {
      AboveRank(p, d, x, x);
      assert false;
    }
  }

  /** The nodes in any order: all that is used of the sort is that it permutes. */
  method Permute(nodes: seq<Node>) returns (r: seq<Node>)
    ensures multiset(r) == multiset(nodes)
  {
    r := [];
    var rest := nodes;
    while rest != []
      invariant multiset(r) + multiset(rest) == multiset(nodes)
      decreases |rest|
    {
      var i :| 0 <= i < |rest|;
      assert rest == rest[..i] + [rest[i]] + rest[i + 1..];
      r := r + [rest[i]];
      rest := rest[..i] + rest[i + 1..];
    }
  }

  predicate Distinct(a: seq<Node>) {
    forall i, j :: 0 <= i < j < |a| ==> a[i] != a[j]
  }

  lemma {:induction false} OnceEach(a: seq<Node>, x: Node)
    requires Distinct(a)
    ensures multiset(a)[x] <= 1
  {
    if a != [] {
      assert a == [a[0]] + a[1..];
      assert a[0] !in a[1..];
      OnceEach(a[1..], x);
    }
  }

  lemma StillDistinct(a: seq<Node>, b: seq<Node>)
    requires Distinct(a) && multiset(a) == multiset(b)
    ensures Distinct(b)
    ensures forall x :: x in a <==> x in b
  {
    assert forall x :: x in a <==> x in multiset(a);
    assert forall x :: x in b <==> x in multiset(b);
    forall i, j | 0 <= i < j < |b|
      ensures b[i] != b[j]
    {
      OnceEach(a, b[i]);
      assert b == b[..j] + b[j..];
      assert b[i] in b[..j] && b[j] in b[j..];
    }
  }

  /** Puts the kids of n in another order, by taking them all out and putting them back. */
  method Resort(n: Node, ghost s: set<Node>)
    requires Linked(s) && n in s
    modifies s`parent, s`kids, s`prev, s`next, s`pos
    ensures Linked(s)
    ensures forall m <- s :: m.parent == old(m.parent)
    ensures forall m <- s :: m.parent != n ==> m.prev == old(m.prev) && m.next == old(m.next) && m.pos == old(m.pos)
    ensures forall m <- s :: m != n ==> m.kids == old(m.kids)
  {
    hide Linked;
    var tmp := TakeKids(n, s);
    ghost var taken := tmp;
    tmp := Permute(tmp);
    StillDistinct(taken, tmp);
    PutKids(n, tmp, s);
  }

  method TakeKids(n: Node, ghost s: set<Node>) returns (tmp: seq<Node>)
    requires Linked(s) && n in s
    modifies s`parent, s`kids, s`prev, s`next, s`pos
    ensures Linked(s) && n.kids == null && n !in tmp
    ensures Distinct(tmp)
    ensures forall m <- s :: m in tmp <==> old(m.parent) == n
    ensures forall m <- tmp :: m in s
    ensures forall m <- s :: m.parent == if m in tmp then null else old(m.parent)
    ensures forall m <- s :: m !in tmp ==> m.prev == old(m.prev) && m.next == old(m.next) && m.pos == old(m.pos)
    ensures forall m <- s :: m != n ==> m.kids == old(m.kids)
  {
    hide LinkedAt, Ordered, Headed;
    NotOwnParent(s, n);
    tmp := [];
    ghost var left := set m | m in s && m.parent == n;
    while n.kids != null
      invariant Linked(s)
      invariant left == set m | m in s && m.parent == n
      invariant Distinct(tmp)
      invariant forall m <- tmp :: m in s && old(m.parent) == n
      invariant forall m <- s :: old(m.parent) == n ==> m in tmp || m.parent == n
      invariant forall m <- s :: m.parent == if m in tmp then null else old(m.parent)
      invariant forall m <- s :: old(m.parent) != n ==> m.prev == old(m.prev) && m.next == old(m.next) && m.pos == old(m.pos)
      invariant forall m <- s :: m != n ==> m.kids == old(m.kids)
      decreases left
    {
      FirstKid(s, n);
      var k := n.kids;
      tmp := tmp + [k];
      SetParent(k, null, s);
      left := left - {k};
    }
    FirstKid(s, n);
  }

  lemma NotOwnParent(s: set<Node>, n: Node)
    requires Linked(s) && n in s
    ensures n.parent != n
  {
    assert LinkedAt(s, n);
  }

  method PutKids(n: Node, tmp: seq<Node>, ghost s: set<Node>)
    requires Linked(s) && n in s && n !in tmp
    requires Distinct(tmp)
    requires forall m <- s :: m.parent != n
    requires forall m <- tmp :: m in s && m.parent == null
    modifies s`parent, s`kids, s`prev, s`next, s`pos
    ensures Linked(s)
    ensures forall m <- s :: m.parent == if m in tmp then n else old(m.parent)
    ensures forall m <- s :: m !in tmp ==> m.prev == old(m.prev) && m.next == old(m.next) && m.pos == old(m.pos)
    ensures forall m <- s :: m != n ==> m.kids == old(m.kids)
  {
    hide LinkedAt, Ordered, Headed;
    var i := |tmp|;
    while i > 0
      invariant 0 <= i <= |tmp| && Linked(s)
      invariant forall m <- s :: m.parent == if m in tmp[i..] then n else old(m.parent)
      invariant forall m <- s :: m !in tmp[i..] ==> m.prev == old(m.prev) && m.next == old(m.next) && m.pos == old(m.pos)
      invariant forall m <- s :: m != n ==> m.kids == old(m.kids)
    {
      i := i - 1;
      assert tmp[i..] == [tmp[i]] + tmp[i + 1..];
      assert tmp[i] in tmp && tmp[i] !in tmp[i + 1..];
      SetParent(tmp[i], n, s);
    }
    assert tmp[0..] == tmp;
  }

  /** The requests touch only known windows; those of a node other than the root are of its stream. */
  ghost predicate Queueable(q: seq<Request>, id: nat, windows: set<Flow>, conns: set<Conn>) {
    forall r <- q :: r.Valid() && Within(r, windows, conns) && OfNode(r, id)
  }

  ghost predicate OfNode(r: Request, id: nat) {
    id != 0 ==> r.stream != null && r.stream.id == id
  }

  ghost predicate StuckNode(q: seq<Request>, id: nat, windows: set<Flow>, conns: set<Conn>)
    requires Queueable(q, id, windows, conns)
    reads windows, conns
  {
    assert q != [] ==> q[0] in q;
    Stuck(q)
  }

  lemma RestQueueable(q: seq<Request>, q': seq<Request>, id: nat, windows: set<Flow>, conns: set<Conn>)
    requires Queueable(q, id, windows, conns) && FromHead(q, q') && forall r <- q' :: r.Valid()
    ensures Queueable(q', id, windows, conns)
  {
    assert q[0] in q;
    forall r | r in q' ensures Within(r, windows, conns) && OfNode(r, id) {
      if q' != q[1..] && r != q'[0] {
        assert r in q'[1..];
      }
    }
  }

  /** Consumes from the queue of one node. */
  method ConsumeNode(n: Node, limit: Int32, ghost windows: set<Flow>, ghost conns: set<Conn>) returns (r: Request, ok: bool)
    requires limit > 0 && Queueable(n.q, n.id, windows, conns)
    modifies n`q, windows
    ensures Queueable(n.q, n.id, windows, conns)
    ensures ok == !old(Stuck(n.q))
    ensures !ok ==> n.q == old(n.q) && r.Windows() == {}
    ensures ok ==> AllAtoms(old(n.q)) == Atoms(r) + AllAtoms(n.q) && r.DataSize() <= limit
    ensures ok ==> Within(r, windows, conns) && OfNode(r, n.id)
    ensures forall f <- windows :: f.n == old(f.n) - Debit(r, f)
    ensures WithinLimits(r)
  {
    hide Atoms, AllAtoms;
    var q := new WriteQueue();
    q.s := n.q;
    assert q.s != [] ==> q.s[0] in q.s;
    r, ok := q.ConsumeHead(limit);
    if ok {
      RestQueueable(n.q, q.s, n.id, windows, conns);
    }
    n.q := q.s;
  }

  /** The links of removeNode. */
  method DropNode(n: Node, ghost s: set<Node>, ghost d: map<Node, nat>)
    requires Linked(s) && n in s && Ranked(ParentMap(s), d)
    modifies s`parent, s`kids, s`prev, s`next, s`pos
    ensures Linked(s)
    ensures old(n.kids) != null ==> old(n.kids) in s && old(ParentMap(s))[old(n.kids)] == n
    ensures ParentMap(s) == Removed(old(ParentMap(s)), n, old(n.kids))
  {
    hide LinkedAt, Ordered, Headed, Ranked;
    FirstKid(s, n);
    NotOwnParent(s, n);
    ReleaseKids(n, s, d);
    SetParent(n, null, s);
  }

  /** A new node as a kid of `parent`. */
  method GrowNode(id: nat, state: NodeState, parent: Node, ghost s: set<Node>) returns (n: Node)
    requires Linked(s) && parent in s
    modifies s`parent, s`kids, s`prev, s`next, s`pos
    ensures fresh(n) && Linked(s + {n})
    ensures n.q == [] && n.state == state && n.weight == DEFAULT_WEIGHT && n.id == id
    ensures n.parent == parent && forall m <- s :: m.parent == old(m.parent)
    ensures parent.kids == n && forall m <- s :: m != parent ==> m.kids == old(m.kids)
  {
    hide LinkedAt, Ordered, Headed;
    n := new Node(id, state);
    LinkedWith(s, n);
    SetParent(n, parent, s + {n});
  }

  // ----- Keeping a node in a list of limited size -----

  /** The list after n was added: a full one loses its oldest node. */
  ghost function KeptList(list: seq<Node>, maxSize: nat, n: Node): (kept: seq<Node>) {
    if maxSize == 0 then list else (if |list| == maxSize then list[1..] else list) + [n]
  }

  ghost function KeptNodes(nodes: map<nat, Node>, list: seq<Node>, maxSize: nat): (kept: map<nat, Node>) {
    if 0 < |list| == maxSize then nodes - {list[0].id} else nodes
  }

  /** The parents after that; first is the first kid of the oldest node. */
  ghost function KeptParents(p: Parents, list: seq<Node>, maxSize: nat, first: Node?): (kept: Parents)
    requires forall m <- list :: m in p
    ensures kept.Keys == p.Keys
  {
    if 0 < |list| == maxSize then Removed(p, list[0], first) else p
  }

  ghost function FirstKidOfOldest(list: seq<Node>): (k: Node?)
    reads list`kids
  {
    if list == [] then null else list[0].kids
  }

  class PriorityWriteScheduler {
    /** Stands for stream 0 and queues the frames of no stream. */
    const root: Node
    var nodes: map<nat, Node>
    var maxID: nat
    /** Nodes kept although their streams are closed or idle, oldest first. */
    var closedNodes: seq<Node>
    var idleNodes: seq<Node>
    const maxClosedNodesInTree: nat
    const maxIdleNodesInTree: nat
    var writeThrottleLimit: Int32
    const enableWriteThrottle: bool

    /** All nodes ever created, in the tree or not. */
    ghost var all: set<Node>
    /** The parent of each node. */
    ghost var parents: Parents
    /** How far each node is below the top of its tree. */
    ghost var depth: map<Node, nat>
    /** The windows of all streams that ever pushed. */
    ghost var windows: set<Flow>
    ghost var conns: set<Conn>

    ghost predicate Valid()
      reads this, all
    {
      && Shaped() && Listed() && writeThrottleLimit > 0 && root.state == Open
      && (forall m <- all :: Queueable(m.q, m.id, windows, conns))
    }

    ghost predicate Listed()
      reads this`closedNodes, this`idleNodes, this`all, this`maxID
    {
      && (forall n <- closedNodes :: n in all && n != root)
      && (forall n <- idleNodes :: n in all && n != root && n.id <= maxID)
    }

    ghost predicate Shaped()
      reads this`nodes, this`all, this`parents, this`depth
      reads all`parent, all`kids, all`prev, all`next, all`pos
    {
      && Linked(all) && Deep(parents, depth)
      && parents.Keys == all && (forall m <- all :: m.parent == parents[m])
      && root in all && parents[root] == null && root.id == 0
      && 0 in nodes && nodes[0] == root
      && (forall id <- nodes :: nodes[id] in all && nodes[id].id == id)
      && (forall m <- all :: m.id == 0 ==> m == root)
    }

    constructor (maxClosedNodesInTree: nat, maxIdleNodesInTree: nat, throttleOutOfOrderWrites: bool)
      ensures Valid() && fresh(all)
      ensures nodes == map[0 := root] && all == {root} && root.q == []
      ensures maxID == 0 && closedNodes == idleNodes == [] && parents == map[root := null] && windows == {} && conns == {}
      ensures this.maxClosedNodesInTree == maxClosedNodesInTree && this.maxIdleNodesInTree == maxIdleNodesInTree
      ensures enableWriteThrottle == throttleOutOfOrderWrites
      ensures writeThrottleLimit == if throttleOutOfOrderWrites then 1024 else MAX_INT32
    {
      var r := new Node(0, Open);
      root, nodes, maxID := r, map[0 := r], 0;
      closedNodes, idleNodes := [], [];
      this.maxClosedNodesInTree, this.maxIdleNodesInTree := maxClosedNodesInTree, maxIdleNodesInTree;
      enableWriteThrottle := throttleOutOfOrderWrites;
      writeThrottleLimit := if throttleOutOfOrderWrites then 1024 else MAX_INT32;
      all, parents, depth, windows, conns := {r}, map[r := null], map[r := 0], {}, {};
    }

    /** The node a stream is made to depend on: one not in the tree stands for the root. */
    function Dependency(priority: PriorityParam): (dep: Node)
      reads this
    {
      if priority.streamDep in nodes then nodes[priority.streamDep] else root
    }

    /** The weight of n after a change of priority, if it was w before. */
    ghost function NewWeight(n: Node, priority: PriorityParam, w: Byte): (w': Byte)
      reads this
    {
      if priority.streamDep !in nodes then DEFAULT_WEIGHT else if n == Dependency(priority) then w else priority.weight
    }

    /** Sections 5.3.1 and 5.3.3 of RFC 7540, for a node that is in the tree. */
    method AdjustNode(n: Node, priority: PriorityParam)
      requires Valid() && n in all && n != root
      modifies this`parents, this`depth, all`parent, all`kids, all`prev, all`next, all`pos, n`weight
      ensures Valid()
      ensures parents ==
              if n == Dependency(priority) then old(parents)
              else Adjusted(old(parents), old(depth), n, Dependency(priority),
                            priority.streamDep in nodes && priority.exclusive)
      ensures n.weight == NewWeight(n, priority, old(n.weight))
    {
      hide Shaped, Above, Adjusted, Queueable, Ranked;
      ShapedNodes();
      if priority.streamDep !in nodes {
        MoveTo(n, root, false);
        n.weight := DEFAULT_WEIGHT;
        return;
      }
      var parent := nodes[priority.streamDep];
      if n == parent {
        return;
      }
      MoveTo(n, parent, priority.exclusive);
      n.weight := priority.weight;
    }

    method MoveTo(n: Node, dep: Node, exclusive: bool)
      requires Shaped() && n in all && n != root && dep in all && n != dep
      modifies this`parents, this`depth, all`parent, all`kids, all`prev, all`next, all`pos
      ensures Shaped()
      ensures Ranked(old(parents), old(depth))
      ensures parents == Adjusted(old(parents), old(depth), n, dep, exclusive)
    {
      hide Linked, Above, Adjusted, Deep, Ranked, Depths, ParentMap;
      DeepRanked(parents, depth);
      ParentsNow();
      DependOn(n, dep, exclusive, all, depth);
      ParentMapAt(all);
      ghost var r := AdjustedIsForest(parents, depth, n, dep, exclusive);
      TopStays(parents, depth, n, dep, exclusive, root);
      parents := Adjusted(parents, depth, n, dep, exclusive);
      depth := Depths(parents, r);
    }

    lemma ParentsNow()
      requires Shaped()
      ensures ParentMap(all) == parents && parents.Keys == all
    {
    }

    /** Takes n out of the tree; only its first kid finds a new parent. */
    method RemoveNode(n: Node)
      requires Shaped() && n in all && n != root
      modifies this`nodes, this`parents, this`depth, all`parent, all`kids, all`prev, all`next, all`pos
      ensures Shaped()
      ensures parents == Removed(old(parents), n, old(n.kids))
      ensures nodes == old(nodes) - {n.id}
    {
      hide Linked, Ranked, Removed, Deep, Depths, ParentMap;
      ghost var first := n.kids;
      DeepRanked(parents, depth);
      ParentsNow();
      DropNode(n, all, depth);
      ParentMapAt(all);
      RemovedRanked(parents, depth, n, first);
      TopKept(parents, n, first, root);
      nodes := nodes - {n.id};
      parents := Removed(parents, n, first);
      depth := Depths(parents, depth);
    }

    static lemma ParentMapAt(s: set<Node>)
      ensures forall m <- s :: ParentMap(s)[m] == m.parent
    {
    }

    static lemma TopKept(p: Parents, n: Node, first: Node?, top: Node)
      requires n in p && top in p && p[top] == null && (first != null ==> first in p && p[first] == n)
      ensures Removed(p, n, first)[top] == null
    {
    }

    /** Adds a node with nothing queued below `parent`. */
    method AddNode(id: nat, state: NodeState, parent: Node) returns (n: Node)
      requires Shaped() && id != 0 && parent in all
      modifies this`nodes, this`parents, this`depth, this`all, all`parent, all`kids, all`prev, all`next, all`pos
      ensures Shaped() && fresh(n) && all == old(all) + {n}
      ensures n.q == [] && n.state == state && n.weight == DEFAULT_WEIGHT && n.id == id
      ensures nodes == old(nodes)[id := n]
      ensures parents == old(parents)[n := parent]
      ensures parent.kids == n && forall m <- old(all) :: m != parent ==> m.kids == old(m.kids)
    {
      hide Linked, Queueable, Deep;
      n := GrowNode(id, state, parent, all);
      DeepWith(parents, depth, n, parent);
      nodes := nodes[id := n];
      parents, depth, all := parents[n := parent], depth[n := depth[parent] + 1], all + {n};
    }

    /** A node for a stream that has none. */
    method NewNode(streamID: nat, state: NodeState, parent: Node) returns (n: Node)
      requires Valid() && streamID != 0 && streamID !in nodes && parent in all
      modifies this`nodes, this`parents, this`depth, this`all, this`maxID
      modifies all`parent, all`kids, all`prev, all`next, all`pos
      ensures Valid() && fresh(n) && all == old(all) + {n}
      ensures nodes == old(nodes)[streamID := n] && maxID == if streamID > old(maxID) then streamID else old(maxID)
      ensures n.id == streamID && n.state == state && n.q == [] && n.weight == DEFAULT_WEIGHT
      ensures parents == old(parents)[n := parent]
      ensures parent.kids == n && forall m <- old(all) :: m != parent ==> m.kids == old(m.kids)
    {
      hide Shaped, Queueable;
      ShapedNodes();
      n := AddNode(streamID, state, parent);
      EmptyQueueable(streamID, windows, conns);
      if streamID > maxID {
        maxID := streamID;
      }
    }

    /**
      * Opens a stream; ok is false where the code panics: for stream 0 and for a
      * stream whose node is not idle.
      */
    method OpenStream(streamID: nat, pusherID: nat) returns (ok: bool)
      requires Valid()
      modifies this`nodes, this`parents, this`depth, this`all, this`maxID
      modifies all`state, all`parent, all`kids, all`prev, all`next, all`pos
      ensures Valid() && old(all) <= all && fresh(all - old(all))
      ensures ok <==> streamID != 0 && (streamID in old(nodes) ==> old(nodes[streamID].state) == Idle)
      ensures !ok ==> unchanged(this) && unchanged(all)
      ensures ok ==> streamID in nodes && nodes == old(nodes)[streamID := nodes[streamID]] && nodes[streamID].state == Open
      ensures ok && streamID in old(nodes) ==> unchanged(this) && unchanged(all - {nodes[streamID]})
      ensures ok && streamID !in old(nodes) ==>
                var n, parent := nodes[streamID], if pusherID in old(nodes) then old(nodes[pusherID]) else root;
                && fresh(n) && all == old(all) + {n} && n.q == [] && n.weight == DEFAULT_WEIGHT
                && maxID == (if streamID > old(maxID) then streamID else old(maxID))
                && parents == old(parents)[n := parent]
                && parent.kids == n && forall m <- old(all) :: m.state == old(m.state) && (m != parent ==> m.kids == old(m.kids))
    {
      hide Shaped, Queueable;
      ShapedNodes();
      if streamID in nodes {
        if nodes[streamID].state != Idle {
          return false;
        }
        nodes[streamID].state := Open;
        return true;
      }
      var parent := if pusherID in nodes then nodes[pusherID] else root;
      var n := NewNode(streamID, Open, parent);
      return true;
    }

    static lemma EmptyQueueable(id: nat, windows: set<Flow>, conns: set<Conn>)
      ensures Queueable([], id, windows, conns)
    {
    }

    /**
      * Queues a frame at its stream, or at the root if it has none that is known;
      * ok is false where the code panics: for DATA on a stream that is not known.  at is
      * the node it is queued at, which the code does not return.
      */
    method Push(r: Request) returns (ok: bool, at: Node)
      requires Valid() && r.Valid()
      modifies this`windows, this`conns, all`q
      ensures Valid()
      ensures ok <==> r.DataSize() == 0 || r.StreamID() in nodes
      ensures at == if !r.IsControl() && r.StreamID() in nodes then nodes[r.StreamID()] else root
      ensures forall m <- all :: m.q == old(m.q) + if ok && m == at then [r] else []
      ensures windows == old(windows) + if ok then r.Windows() else {}
      ensures conns == old(conns) + if ok && r.stream != null then {r.stream.sc} else {}
    {
      hide Shaped;
      ShapedNodes();
      at := root;
      var n := root;
      if !r.IsControl() {
        if r.StreamID() in nodes {
          n := nodes[r.StreamID()];
        } else if r.DataSize() > 0 {
          return false, root;
        }
      }
      windows := windows + r.Windows();
      conns := conns + if r.stream == null then {} else {r.stream.sc};
      n.q := n.q + [r];
      return true, n;
    }

    /** Keeps a closed or idle node in the tree, at the cost of the oldest if there are too many. */
    method Retain(list: seq<Node>, maxSize: nat, n: Node) returns (kept: seq<Node>)
      requires Shaped() && n in all && n != root && (forall m <- list :: m in all && m != root)
      modifies this`nodes, this`parents, this`depth, all`parent, all`kids, all`prev, all`next, all`pos
      ensures Shaped() && forall m <- kept :: m in all && m != root
      ensures |list| <= maxSize ==> |kept| <= maxSize
      ensures kept == KeptList(list, maxSize, n)
      ensures parents == KeptParents(old(parents), list, maxSize, old(FirstKidOfOldest(list)))
      ensures nodes == KeptNodes(old(nodes), list, maxSize)
    {
      hide Shaped, Removed;
      if maxSize == 0 {
        return list;
      }
      kept := list;
      if |list| == maxSize {
        RemoveNode(list[0]);
        kept := list[1..];
      }
      kept := kept + [n];
    }

    /**
      * Closes an open stream: its queue is discarded, and its node kept for a while or
      * removed.  ok is false where the code panics: for stream 0 and for a stream that
      * is not known or not open.
      */
    method CloseStream(streamID: nat) returns (ok: bool)
      requires Valid()
      modifies this`nodes, this`parents, this`depth, this`closedNodes
      modifies all`state, all`q, all`bytes, all`subtreeBytes, all`parent, all`kids, all`prev, all`next, all`pos
      ensures Valid()
      ensures ok <==> streamID != 0 && streamID in old(nodes) && old(nodes[streamID].state) == Open
      ensures !ok ==> unchanged(this) && unchanged(all)
      ensures ok ==>
                var n := old(nodes[streamID]);
                && n.state == Closed && n.q == [] && n.bytes == 0
                && (forall m <- all :: m != n ==> m.q == old(m.q) && m.state == old(m.state) && m.bytes == old(m.bytes))
                && closedNodes == KeptList(old(closedNodes), maxClosedNodesInTree, n)
                && if maxClosedNodesInTree == 0
                   then nodes == old(nodes) - {streamID} && parents == Removed(old(parents), n, old(n.kids))
                   else && nodes == KeptNodes(old(nodes), old(closedNodes), maxClosedNodesInTree)
                        && parents == KeptParents(old(parents), old(closedNodes), maxClosedNodesInTree, old(FirstKidOfOldest(closedNodes)))
      ensures forall id <- old(nodes) :: id !in nodes <==>
                && ok
                && if maxClosedNodesInTree == 0 then id == streamID
                   else |old(closedNodes)| == maxClosedNodesInTree && old(closedNodes)[0].id == id
      ensures |old(closedNodes)| <= maxClosedNodesInTree ==> |closedNodes| <= maxClosedNodesInTree
    {
      hide Shaped, Queueable, Removed, KeptParents, KeptList, Listed;
      if streamID == 0 || streamID !in nodes || nodes[streamID].state != Open {
        return false;
      }
      ShapedNodes();
      var n := nodes[streamID];
      Discard(n);
      Retire(n);
      return true;
    }

    /** Keeps the node of a closed stream for a while, or removes it. */
    method Retire(n: Node)
      requires Valid() && n in all && n != root
      modifies this`nodes, this`parents, this`depth, this`closedNodes, all`parent, all`kids, all`prev, all`next, all`pos
      ensures Valid()
      ensures closedNodes == KeptList(old(closedNodes), maxClosedNodesInTree, n)
      ensures |old(closedNodes)| <= maxClosedNodesInTree ==> |closedNodes| <= maxClosedNodesInTree
      ensures nodes == if maxClosedNodesInTree == 0 then old(nodes) - {n.id}
                       else KeptNodes(old(nodes), old(closedNodes), maxClosedNodesInTree)
      ensures parents == if maxClosedNodesInTree == 0 then Removed(old(parents), n, old(n.kids))
                         else KeptParents(old(parents), old(closedNodes), maxClosedNodesInTree, old(FirstKidOfOldest(closedNodes)))
    {
      hide Shaped, Queueable, Removed, KeptParents, KeptNodes;
      if maxClosedNodesInTree > 0 {
        var kept := Retain(closedNodes, maxClosedNodesInTree, n);
        closedNodes := kept;
      } else {
        RemoveNode(n);
      }
    }

    method Discard(n: Node)
      requires Valid() && n in all && n != root
      modifies n`state, n`q, all`bytes, all`subtreeBytes
      ensures Valid()
      ensures n.state == Closed && n.q == [] && n.bytes == 0
      ensures forall m <- all :: m != n ==> m.bytes == old(m.bytes)
    {
      hide Shaped, Listed, Queueable;
      EmptyQueueable(n.id, windows, conns);
      n.state := Closed;
      Book(n, -n.bytes);
      n.q := [];
    }

    /** A node for a stream that is not open yet; the oldest such node makes room, whatever has become of it. */
    method AddIdle(streamID: nat) returns (n: Node)
      requires Valid() && streamID > maxID && streamID !in nodes && maxIdleNodesInTree > 0
      modifies this`nodes, this`parents, this`depth, this`all, this`maxID, this`idleNodes
      modifies all`parent, all`kids, all`prev, all`next, all`pos
      ensures Valid() && fresh(n) && all == old(all) + {n} && maxID == streamID
      ensures n.state == Idle && n.q == [] && n.weight == DEFAULT_WEIGHT && n.id == streamID && streamID in nodes && nodes[streamID] == n
      ensures nodes == KeptNodes(old(nodes), old(idleNodes), maxIdleNodesInTree)[streamID := n]
      ensures idleNodes == KeptList(old(idleNodes), maxIdleNodesInTree, n)
      ensures parents == KeptParents(old(parents)[n := root], old(idleNodes), maxIdleNodesInTree, old(FirstKidOfOldest(idleNodes)))
    {
      hide Valid, Shaped, Queueable, KeptParents, KeptList;
      Outline();
      assert idleNodes != [] ==> idleNodes[0] in idleNodes;
      n := NewNode(streamID, Idle, root);
      KeepIdle(n);
    }

    method KeepIdle(n: Node)
      requires Valid() && n in all && n != root && n.id <= maxID && maxIdleNodesInTree > 0
      modifies this`nodes, this`parents, this`depth, this`idleNodes, all`parent, all`kids, all`prev, all`next, all`pos
      ensures Valid()
      ensures nodes == KeptNodes(old(nodes), old(idleNodes), maxIdleNodesInTree)
      ensures idleNodes == KeptList(old(idleNodes), maxIdleNodesInTree, n)
      ensures parents == KeptParents(old(parents), old(idleNodes), maxIdleNodesInTree, old(FirstKidOfOldest(idleNodes)))
    {
      hide Shaped, Queueable, Removed, KeptParents, KeptNodes;
      var kept := Retain(idleNodes, maxIdleNodesInTree, n);
      idleNodes := kept;
    }

    static lemma NewIsLeaf(p: Parents, top: Node, n: Node, list: seq<Node>, maxSize: nat, first: Node?)
      requires n !in p && top in p && (forall m <- p :: p[m] == null || p[m] in p) && (forall m <- list :: m in p)
      ensures var p' := KeptParents(p[n := top], list, maxSize, first); forall m <- p' :: p'[m] != n
    {
    }

    /** The parents of all nodes, of which n has none below it, once n depends on its stream. */
    ghost function Placed(p: Parents, n: Node, priority: PriorityParam): (p': Parents)
      requires n in p
      reads this
    {
      if n == Dependency(priority) then p
      else Adopted(p, n, Dependency(priority), priority.streamDep in nodes && priority.exclusive)
    }

    /** What a change of priority on a stream that may still be opened does. */
    twostate predicate KeptAsIdle(streamID: nat, priority: PriorityParam)
      reads this, all
    {
      && streamID in nodes && maxID == streamID
      && nodes == KeptNodes(old(nodes), old(idleNodes), maxIdleNodesInTree)[streamID := nodes[streamID]]
      && (forall m <- old(idleNodes) :: m in old(parents))
      && var n := nodes[streamID];
         && n in all && fresh(n) && all == old(all) + {n} && n.id == streamID && n.state == Idle && n.q == []
         && n.weight == NewWeight(n, priority, DEFAULT_WEIGHT)
         && idleNodes == KeptList(old(idleNodes), maxIdleNodesInTree, n)
         && parents == Placed(KeptParents(old(parents)[n := root], old(idleNodes), maxIdleNodesInTree, old(FirstKidOfOldest(idleNodes))), n, priority)
    }

    twostate lemma DropsOldest(new streamID: nat, new priority: PriorityParam)
      requires KeptAsIdle(streamID, priority) && streamID !in old(nodes)
      ensures all >= old(all) && fresh(all - old(all))
      ensures forall id <- old(nodes) :: id !in nodes <==>
                0 < |old(idleNodes)| == maxIdleNodesInTree && old(idleNodes)[0].id == id
    {
    }

    method AdjustIdle(streamID: nat, priority: PriorityParam)
      requires Valid() && streamID > maxID && streamID !in nodes && maxIdleNodesInTree > 0
      modifies this`nodes, this`parents, this`depth, this`all, this`maxID, this`idleNodes
      modifies all`parent, all`kids, all`prev, all`next, all`pos
      ensures Valid() && KeptAsIdle(streamID, priority)
    {
      hide Valid, Shaped, Placed, NewWeight, KeptParents, KeptList, KeptNodes, Ranked, FirstKidOfOldest, Dependency, Listed;
      Outline();
      var n := AddIdle(streamID);
      NewIsLeaf(old(parents), root, n, old(idleNodes), maxIdleNodesInTree, old(FirstKidOfOldest(idleNodes)));
      PlaceLeaf(n, priority);
    }

    /** A change of priority of a node with nothing below it. */
    method PlaceLeaf(n: Node, priority: PriorityParam)
      requires Valid() && n in all && n != root && n in parents && forall m <- parents :: parents[m] != n
      modifies this`parents, this`depth, all`parent, all`kids, all`prev, all`next, all`pos, n`weight
      ensures Valid() && parents == Placed(old(parents), n, priority)
      ensures n.weight == NewWeight(n, priority, old(n.weight))
    {
      hide Valid, Shaped, Adjusted, Above, Adopted, Ranked;
      Outline();
      AdjustNode(n, priority);
      LeafAdjusted(old(parents), old(depth), n, Dependency(priority), priority.streamDep in nodes && priority.exclusive);
    }

    lemma Outline()
      requires Valid()
      ensures root in all && root.id == 0 && 0 in nodes && nodes[0] == root
      ensures forall id <- nodes :: nodes[id] in all && nodes[id].id == id && (nodes[id] == root ==> id == 0)
      ensures parents.Keys == all && Ranked(parents, depth)
      ensures forall m <- parents :: parents[m] == null || parents[m] in parents
      ensures forall m <- idleNodes :: m in all && m != root && m.id <= maxID
    {
      DeepRanked(parents, depth);
    }

    /**
      * Changes the priority of a stream; an unknown one that may still be opened is
      * kept as idle.  ok is false where the code panics: for stream 0.
      */
    method AdjustStream(streamID: nat, priority: PriorityParam) returns (ok: bool)
      requires Valid()
      modifies this`nodes, this`parents, this`depth, this`all, this`maxID, this`idleNodes
      modifies all`weight, all`parent, all`kids, all`prev, all`next, all`pos
      ensures Valid() && old(all) <= all && fresh(all - old(all))
      ensures ok <==> streamID != 0
      ensures forall m <- old(all) :: m.weight == old(m.weight) || (streamID in old(nodes) && m == old(nodes[streamID]))
      ensures ok && streamID in old(nodes) ==>
                var n, dep := old(nodes[streamID]), old(Dependency(priority));
                && nodes == old(nodes) && idleNodes == old(idleNodes) && maxID == old(maxID) && all == old(all)
                && n.weight == NewWeight(n, priority, old(n.weight))
                && parents == if n == dep then old(parents)
                              else Adjusted(old(parents), old(depth), n, dep, priority.streamDep in old(nodes) && priority.exclusive)
      ensures !ok || (streamID !in old(nodes) && (streamID <= old(maxID) || maxIdleNodesInTree == 0)) ==>
                unchanged(this) && unchanged(all)
      ensures streamID !in old(nodes) && streamID > old(maxID) && maxIdleNodesInTree > 0 ==>
                KeptAsIdle(streamID, priority)
      ensures forall id <- old(nodes) :: id !in nodes <==>
                && streamID !in old(nodes) && streamID > old(maxID)
                && 0 < |old(idleNodes)| == maxIdleNodesInTree && old(idleNodes)[0].id == id
    {
      hide Valid, Shaped, Adjusted, Above, Ranked, KeptAsIdle, NewWeight;
      if streamID == 0 {
        return false;
      }
      Outline();
      if streamID in nodes {
        AdjustNode(nodes[streamID], priority);
      } else if streamID > maxID && maxIdleNodesInTree > 0 {
        AdjustIdle(streamID, priority);
        DropsOldest(streamID, priority);
      }
      return true;
    }

    // ----- Pop -----

    /** No node changed its parent, and lists of kids were reordered only below depth d. */
    twostate predicate Relinked(d: nat)
      reads this, all
    {
      && all == old(all) && depth == old(depth)
      && (forall m <- all :: m.parent == old(m.parent))
      && (forall m <- all :: m in depth && depth[m] <= d ==> m.pos == old(m.pos))
    }

    /** The marked nodes are those with nothing to give. */
    ghost predicate Marked(stuck: set<Node>)
      requires forall m <- all :: Queueable(m.q, m.id, windows, conns)
      reads this, all`q, windows, conns
    {
      forall m <- all :: (m in stuck <==> StuckNode(m.q, m.id, windows, conns))
    }

    /** The nodes of open streams. */
    ghost function OpenNodes(): (s: set<Node>)
      reads this`all, all`state
    {
      set m | m in all && m.id != 0 && m.state == Open
    }

    /** The kids of x have the same weight. */
    ghost predicate Even(x: Node)
      reads this`all, all`parent, all`weight
    {
      forall a, b :: a in all && b in all && a.parent == x && b.parent == x ==> a.weight == b.weight
    }

    /** a comes before its sibling b, and the kids of their parent have the same weight. */
    ghost predicate Elder(a: Node, b: Node)
      requires a in all && b in all
      reads this`all, all`parent, all`weight, all`pos
    {
      a.parent != null && a.parent == b.parent && a.pos < b.pos && Even(a.parent)
    }

    ghost function Elders(): (s: set<(Node, Node)>)
      reads this`all, all`parent, all`weight, all`pos
    {
      set a, b | a in all && b in all && Elder(a, b) :: (a, b)
    }

    /** Kids of different weights may be put in any order. */
    twostate lemma EldersKept(n: Node)
      requires all == old(all) && old(!Even(n))
      requires forall m <- all :: m.parent == old(m.parent) && m.weight == old(m.weight)
      requires forall m <- all :: m.parent != n ==> m.pos == old(m.pos)
      ensures Elders() == old(Elders())
    {
      forall a, b | a in all && b in all ensures Elder(a, b) == old(Elder(a, b)) {
        if a.parent != null {
          assert Even(a.parent) == old(Even(a.parent));
        }
      }
    }

    /**
      * Nothing that goes before n can be written from: not the nodes above it, and
      * among kids of the same weight nothing in or below those that come before.
      */
    ghost predicate Due(n: Node)
      requires Valid() && n in all
      reads this, all, windows, conns
    {
      DeepRanked(parents, depth);
      && (forall a <- all :: Above(parents, depth, a, n) ==> StuckNode(a.q, a.id, windows, conns))
      && (forall a, b :: a in all && b in all && Elder(a, b) && Reachable(parents, depth, b, n) ==>
            forall m <- all :: Reachable(parents, depth, a, m) ==> StuckNode(m.q, m.id, windows, conns))
    }

    /** Whether a stream above n is open, so that n writes out of order. */
    ghost predicate OutOfOrder(n: Node)
      requires Valid() && n in all
      reads this, all
    {
      DeepRanked(parents, depth);
      BelowOpen(parents, depth, OpenNodes(), n)
    }

    /** Whether the callback of Pop would take something from n. */
    method Ready(n: Node, openParent: bool, ghost stuck: set<Node>) returns (b: bool)
      requires Valid() && n in all && Marked(stuck)
      ensures b == (n !in stuck)
    {
      hide Linked, Deep;
      assert Queueable(n.q, n.id, windows, conns);
      var limit := if openParent then writeThrottleLimit else MAX_INT32;
      if n.q == [] {
        return false;
      }
      assert n.q[0] in n.q;
      b := !n.q[0].Blocked(limit);
    }

    /** Whether the kids of n have different weights. */
    method NeedsSort(n: Node) returns (b: bool)
      requires Valid() && n in all && n.kids != null
      ensures b <==> exists m <- all :: m.parent == n && m.weight != n.kids.weight
    {
      hide LinkedAt, Ordered, Headed, Deep, Queueable;
      FirstKid(all, n);
      var w := n.kids.weight;
      NextKid(all, n.kids);
      var k := n.kids.next;
      ghost var left := all - {n.kids};
      while k != null
        invariant k != null ==> k in left && k in all && k.parent == n
        invariant forall m <- all :: m.parent == n && (k == null || m.pos < k.pos) ==> m.weight == w
        invariant forall m <- all :: m.parent == n && k != null && k.pos <= m.pos ==> m in left
        decreases left
      {
        if k.weight != w {
          return true;
        }
        NextKid(all, k);
        left := left - {k};
        k := k.next;
      }
      return false;
    }

    method SortKids(n: Node)
      requires Valid() && n in all && n.kids != null
      modifies all`parent, all`kids, all`prev, all`next, all`pos
      ensures Valid() && Relinked(depth[n]) && Elders() == old(Elders())
    {
      hide Valid, Elders, Elder, Even;
      Outline();
      var needSort := NeedsSort(n);
      if needSort {
        Uneven(n);
        Reorder(n);
        EldersKept(n);
      }
    }

    method Reorder(n: Node)
      requires Valid() && n in all && n.kids != null
      modifies all`parent, all`kids, all`prev, all`next, all`pos
      ensures Valid() && Relinked(depth[n])
      ensures forall m <- all :: m.parent != n ==> m.pos == old(m.pos)
    {
      hide Linked, Queueable;
      Resort(n, all);
    }

    lemma Uneven(n: Node)
      requires Valid() && n in all && n.kids != null && exists m <- all :: m.parent == n && m.weight != n.kids.weight
      ensures !Even(n)
    {
      hide LinkedAt, Ordered, Headed, Deep, Queueable;
      FirstKid(all, n);
    }

    /**
      * Visits n and the nodes below it until one has something to give.  The callback
      * that Pop hands to the walk either takes something, which ends the walk, or
      * changes nothing, so the walk is a search for the node to take from.
      */
    method Walk(n: Node, openParent: bool, ghost p: Parents, ghost top: nat, ghost stuck: set<Node>, ghost open: set<Node>, ghost elder: set<(Node, Node)>)
      returns (at: Node?, under: bool)
      requires Valid() && n in all && p == parents && Ranked(p, depth) && Marked(stuck)
      requires forall m <- all :: depth[m] <= top
      requires n in p && openParent == BelowOpen(p, depth, open, n) && open == OpenNodes() && elder == Elders()
      modifies all`parent, all`kids, all`prev, all`next, all`pos
      ensures Valid() && Relinked(depth[n]) && Elders() == elder
      ensures at == null ==> AllMarked(p, depth, n, stuck)
      ensures at != null ==> at in all && at in p && at !in stuck && Reachable(p, depth, n, at) && under == BelowOpen(p, depth, open, at)
      ensures at != null ==> ClearPath(p, depth, n, at, stuck, elder)
      decreases top - depth[n], 2
    {
      hide Shaped, Listed, Ranked, Above, ClearPath, BelowOpen, AllMarked, StuckNode, Queueable, Elders;
      ParentsNow();
      var ready := Ready(n, openParent, stuck);
      if ready {
        ClearHere(p, depth, n, stuck, elder);
        return n, openParent;
      }
      if n.kids == null {
        NoKids(n, p, stuck);
        return null, false;
      }
      // The root does not count as open: no data can be sent on it.
      var openKids := openParent || (n.id != 0 && n.state == Open);
      SortKids(n);
      at, under := WalkKids(n, openKids, p, top, stuck, open, elder);
      if at == null {
        ParentsNow();
        AllMarkedBelow(p, depth, n, stuck);
      }
    }

    lemma NoKids(n: Node, p: Parents, stuck: set<Node>)
      requires Shaped() && n in all && p == parents && Ranked(p, depth) && n.kids == null && n in stuck
      ensures AllMarked(p, depth, n, stuck)
    {
      FirstKid(all, n);
      AllMarkedBelow(p, depth, n, stuck);
    }

    /** Visits the kids of n in turn, each with all below it. */
    method WalkKids(n: Node, openParent: bool, ghost p: Parents, ghost top: nat, ghost stuck: set<Node>, ghost open: set<Node>, ghost elder: set<(Node, Node)>)
      returns (at: Node?, under: bool)
      requires Valid() && n in all && p == parents && Ranked(p, depth) && Marked(stuck)
      requires forall m <- all :: depth[m] <= top
      requires n in p && openParent == (n in open || BelowOpen(p, depth, open, n)) && open == OpenNodes() && elder == Elders() && n in stuck
      modifies all`parent, all`kids, all`prev, all`next, all`pos
      ensures Valid() && Relinked(depth[n] + 1) && Elders() == elder
      ensures at == null ==> forall k <- p :: p[k] == n ==> AllMarked(p, depth, k, stuck)
      ensures at != null ==> at in all && at in p && at !in stuck && Above(p, depth, n, at) && under == BelowOpen(p, depth, open, at)
      ensures at != null ==> ClearPath(p, depth, n, at, stuck, elder)
      decreases top - depth[n], 0
    {
      hide Valid, Shaped, Ranked, Above, ClearPath, BelowOpen, OpenNodes, AllMarked, Reachable, Marked, Elders;
      FirstVisited(n, p, stuck);
      var k := n.kids;
      ghost var left := all;
      while k != null
        invariant Valid() && Relinked(depth[n] + 1) && n in depth && Elders() == elder
        invariant Visited(n, k, left, p, stuck)
        decreases left
      {
        VisitedKid(n, k, left, p, stuck);
        BelowOpenAt(p, depth, open, k);
        EldersVisited(n, k, left, p, stuck);
        at, under := Walk(k, openParent, p, top, stuck, open, elder);
        if at != null {
          BelowKid(p, depth, n, k, at);
          ClearThrough(p, depth, n, k, at, stuck, elder);
          return;
        }
        VisitedNext(n, k, left, p, stuck);
        left := left - {k};
        k := k.next;
      }
      VisitedAll(n, left, p, stuck);
      return null, false;
    }

    /** The kids of n before k have nothing to give; k and those after it are left. */
    ghost predicate Visited(n: Node, k: Node?, left: set<Node>, p: Parents, stuck: set<Node>)
      requires Ranked(p, depth)
      reads this`all, this`depth, all`parent, all`pos
    {
      && (k != null ==> k in left && k in all && k.parent == n)
      && (forall m <- all :: m.parent == n && k != null && k.pos <= m.pos ==> m in left)
      && (forall m <- all :: m.parent == n && (k == null || m.pos < k.pos) ==> AllMarked(p, depth, m, stuck))
    }

    lemma EldersVisited(n: Node, k: Node, left: set<Node>, p: Parents, stuck: set<Node>)
      requires Valid() && n in all && p == parents && Ranked(p, depth) && Visited(n, k, left, p, stuck)
      ensures forall e <- p :: (e, k) in Elders() ==> AllMarked(p, depth, e, stuck)
    {
      hide Linked, Ranked, AllMarked, Even;
    }

    lemma FirstVisited(n: Node, p: Parents, stuck: set<Node>)
      requires Valid() && n in all && p == parents && Ranked(p, depth)
      ensures n in depth && Visited(n, n.kids, all, p, stuck)
    {
      hide LinkedAt, Ordered, Headed, Ranked, AllMarked;
      FirstKid(all, n);
    }

    lemma VisitedKid(n: Node, k: Node, left: set<Node>, p: Parents, stuck: set<Node>)
      requires Valid() && n in all && p == parents && Ranked(p, depth) && Visited(n, k, left, p, stuck)
      ensures k in all && k in p && p[k] == n && k in left && n in depth
      ensures forall m <- all :: m in depth && (m.parent == n ==> depth[m] == depth[n] + 1)
    {
      hide Linked, Ranked, AllMarked;
    }

    lemma VisitedNext(n: Node, k: Node, left: set<Node>, p: Parents, stuck: set<Node>)
      requires Valid() && n in all && k in all && Ranked(p, depth) && n in depth
      requires Visited(n, k, left, p, stuck)
      requires AllMarked(p, depth, k, stuck)
      ensures Visited(n, k.next, left - {k}, p, stuck)
    {
      hide LinkedAt, Ordered, Headed, Ranked, AllMarked;
      NextKid(all, k);
    }

    lemma VisitedAll(n: Node, left: set<Node>, p: Parents, stuck: set<Node>)
      requires Valid() && p == parents && Ranked(p, depth) && Visited(n, null, left, p, stuck)
      ensures forall k <- p :: p[k] == n ==> AllMarked(p, depth, k, stuck)
    {
      hide Linked, Ranked, AllMarked;
    }

    static lemma {:induction false} Deepest(d: map<Node, nat>, keys: set<Node>) returns (top: nat)
      requires keys <= d.Keys
      ensures forall m <- keys :: d[m] <= top
    {
      if keys == {} {
        top := 0;
      } else {
        var m :| m in keys;
        var rest := Deepest(d, keys - {m});
        top := if rest < d[m] then d[m] else rest;
      }
    }

    method Book(n: Node, b: int)
      requires Valid() && n in all
      modifies all`bytes, all`subtreeBytes
      ensures Valid()
      ensures forall m <- all :: m.bytes == old(m.bytes) + if m == n then b else 0
    {
      hide Shaped, Queueable, Ranked, Reachable;
      ShapedRanked();
      ParentsNow();
      AddBytes(n, b, all, depth);
    }

    /** The limit on out-of-order writes after a write. */
    ghost function Throttled(under: bool, limit: Int32): (limit': int) {
      if under then Min(limit + 1024, MAX_INT32) else if enableWriteThrottle then 1024 else limit
    }

    /** Books the bytes written at n, and moves the limit on out-of-order writes. */
    method Charge(n: Node, size: nat, under: bool)
      requires Valid() && n in all
      modifies this`writeThrottleLimit, all`bytes, all`subtreeBytes
      ensures Valid()
      ensures forall m <- all :: m.bytes == old(m.bytes) + if m == n then size else 0
      ensures writeThrottleLimit == Throttled(under, old(writeThrottleLimit))
    {
      hide Shaped, Listed, Queueable;
      Book(n, size);
      if under {
        writeThrottleLimit := Wrap32(writeThrottleLimit + 1024);
        if writeThrottleLimit < 0 {
          writeThrottleLimit := MAX_INT32;
        }
      } else if enableWriteThrottle {
        writeThrottleLimit := 1024;
      }
    }

    /** The nodes that can be reached from the root and have something to give. */
    ghost function Candidates(): (s: set<Node>)
      requires Valid()
      reads this, all, windows, conns
    {
      DeepRanked(parents, depth);
      set m | m in all && Reachable(parents, depth, root, m) && !StuckNode(m.q, m.id, windows, conns)
    }

    /** The walk of Pop from the root. */
    method Find() returns (n: Node?, under: bool)
      requires Valid()
      modifies all`parent, all`kids, all`prev, all`next, all`pos
      ensures Valid() && parents == old(parents)
      ensures Candidates() == old(Candidates())
      ensures if n == null then old(Candidates()) == {} else n in old(Candidates())
      ensures n != null ==> n in all && Queueable(n.q, n.id, windows, conns) && !StuckNode(n.q, n.id, windows, conns)
      ensures n != null ==> under == old(OutOfOrder(n)) && old(Due(n))
    {
      hide Linked, Deep, Ranked, Reachable, Above, BelowOpen, Queueable, StuckNode, Elders, ClearPath, Due;
      ghost var p := parents;
      DeepRanked(p, depth);
      BelowOpenAt(p, depth, OpenNodes(), root);
      ghost var top := Deepest(depth, depth.Keys);
      ghost var stuck := set m | m in all && StuckNode(m.q, m.id, windows, conns);
      ghost var due := set m | m in all && ClearPath(p, depth, root, m, stuck, Elders());
      forall m | m in due ensures Due(m) {
        ClearIsDue(m, stuck);
      }
      n, under := Walk(root, false, p, top, stuck, OpenNodes(), Elders());
    }

    lemma ClearIsDue(n: Node, stuck: set<Node>)
      requires Valid() && n in all && Marked(stuck) && Ranked(parents, depth)
      requires ClearPath(parents, depth, root, n, stuck, Elders())
      ensures Due(n)
    {
      hide Linked, Deep, Ranked, Above, Queueable, StuckNode, ClearPath, Even;
      forall a | a in all && Above(parents, depth, a, n) ensures StuckNode(a.q, a.id, windows, conns) {
        ClearAbove(parents, depth, root, n, stuck, Elders(), a);
      }
      forall a, b | a in all && b in all && Elder(a, b) && Reachable(parents, depth, b, n)
        ensures forall m <- all :: Reachable(parents, depth, a, m) ==> StuckNode(m.q, m.id, windows, conns)
      {
        assert (a, b) in Elders();
        ClearBeside(parents, depth, root, n, stuck, Elders(), a, b);
      }
    }

    /** All that can be written from is at the root or below it. */
    lemma RootFirst()
      requires Valid()
      ensures root in all && Queueable(root.q, root.id, windows, conns)
      ensures forall n <- Candidates() :: Due(n) && !StuckNode(root.q, root.id, windows, conns) ==> n == root
    {
      hide Linked, Queueable, StuckNode;
    }

    lemma ShapedNodes()
      requires Shaped()
      ensures root in all && 0 in nodes && nodes[0] == root
      ensures forall id <- nodes :: nodes[id] in all && nodes[id].id == id && (nodes[id] == root ==> id == 0)
    {
    }

    lemma ShapedRanked()
      requires Shaped()
      ensures Ranked(parents, depth)
    {
      DeepRanked(parents, depth);
    }

    /** What the callback of Pop does at the node that has something to give. */
    method Take(n: Node, under: bool) returns (r: Request)
      requires Valid() && n in all
      requires Queueable(n.q, n.id, windows, conns) && !StuckNode(n.q, n.id, windows, conns)
      modifies this`writeThrottleLimit, n`q, all`bytes, all`subtreeBytes, windows
      ensures Valid()
      ensures AllAtoms(old(n.q)) == Atoms(r) + AllAtoms(n.q) && Within(r, windows, conns) && OfNode(r, n.id)
      ensures forall m <- all :: m.bytes == old(m.bytes) + if m == n then r.DataSize() else 0
      ensures forall f <- windows :: f.n == old(f.n) - Debit(r, f)
      ensures WithinLimits(r) && (under ==> r.DataSize() <= old(writeThrottleLimit))
      ensures writeThrottleLimit == Throttled(under, old(writeThrottleLimit))
    {
      hide Shaped, Atoms, AllAtoms, Queueable;
      var limit := if under then writeThrottleLimit else MAX_INT32;
      var ok;
      r, ok := ConsumeNode(n, limit, windows, conns);
      assert Valid();
      Charge(n, r.DataSize(), under);
    }

    /**
      * The next frame to write: something from a node below the root with something
      * to give, if there is one.  Only the queue of that node changes, and the tree
      * keeps its shape.  at is that node, which the code does not return.
      */
    method Pop() returns (r: Request, ok: bool, at: Node?)
      requires Valid()
      modifies this`writeThrottleLimit, all`parent, all`kids, all`prev, all`next, all`pos, all`q, all`bytes, all`subtreeBytes, windows
      ensures Valid() && parents == old(parents) && depth == old(depth)
      ensures ok <==> old(Candidates()) != {}
      ensures ok <==> at != null
      ensures ok ==> at in old(Candidates()) && AllAtoms(old(at.q)) == Atoms(r) + AllAtoms(at.q)
      ensures ok ==> at in all && Within(r, windows, conns) && OfNode(r, at.id)
      ensures ok ==> old(Due(at)) && (!old(StuckNode(root.q, root.id, windows, conns)) ==> at == root)
      ensures ok && old(OutOfOrder(at)) ==> r.DataSize() <= old(writeThrottleLimit)
      ensures writeThrottleLimit == if ok then Throttled(old(OutOfOrder(at)), old(writeThrottleLimit)) else old(writeThrottleLimit)
      ensures forall m <- all :: m.bytes == old(m.bytes) + if ok && m == at then r.DataSize() else 0
      ensures forall m <- all :: m.q == old(m.q) || m == at
      ensures !ok ==> r.DataSize() == 0 && Candidates() == {}
      ensures forall f <- windows :: f.n == old(f.n) - Debit(r, f)
      ensures WithinLimits(r)
    {
      hide Shaped, Listed, Candidates, OutOfOrder, Due, Atoms, AllAtoms, StuckNode, Queueable;
      RootFirst();
      var n, under := Find();
      if n == null {
        return Request(Other(0), null, None), false, null;
      }
      r := Take(n, under);
      return r, true, n;
    }
  }

  // ----- Runs that lose a stream -----

  /**
    * Room for one idle node: after a change of priority on stream a, which is then
    * opened, one on stream b drops the node of a.  DATA on a, and its close, then panic.
    */
  method EvictsOpenStream(maxClosed: nat, throttle: bool, a: nat, b: nat, first: PriorityParam, second: PriorityParam, r: Request)
    returns (kept: bool, pushed: bool, closed: bool)
    requires 0 < a < b && r.Valid() && r.DataSize() > 0 && r.StreamID() == a
    ensures !kept && !pushed && !closed
  {
    hide PriorityWriteScheduler.Valid;
    var ws := Evict(maxClosed, throttle, a, b, first, second);
    kept := a in ws.nodes;
    var at;
    pushed, at := ws.Push(r);
    closed := ws.CloseStream(a);
  }

  method Evict(maxClosed: nat, throttle: bool, a: nat, b: nat, first: PriorityParam, second: PriorityParam)
    returns (ws: PriorityWriteScheduler)
    requires 0 < a < b
    ensures fresh(ws) && fresh(ws.all) && fresh(ws.windows) && ws.Valid() && a !in ws.nodes
  {
    hide PriorityWriteScheduler.Valid, KeptParents, PriorityWriteScheduler.Placed, Adjusted;
    ws := new PriorityWriteScheduler(maxClosed, 1, throttle);
    var ok := ws.AdjustStream(a, first);
    ok := ws.OpenStream(a, 0);
    assert ok && ws.nodes[a].state == Open;
    ok := ws.AdjustStream(b, second);
  }

  /** Opens a, then b and c pushed by a. */
  method OpenThree(maxIdle: nat, throttle: bool, a: nat, b: nat, c: nat)
    returns (ws: PriorityWriteScheduler, ghost na: Node, ghost nb: Node, ghost nc: Node)
    requires 0 < a && 0 < b && 0 < c && a != b && b != c && a != c
    ensures fresh(ws) && fresh(ws.all) && ws.Valid() && ws.maxClosedNodesInTree == 0
    ensures ws.nodes == map[0 := ws.root, a := na, b := nb, c := nc]
    ensures ws.parents == map[ws.root := null, na := ws.root, nb := na, nc := na] && ws.all == {ws.root, na, nb, nc} && ws.windows == {}
    ensures na != ws.root && nb != ws.root && nb != na && nc != nb && nc != na
    ensures na.kids == nc && na.state == Open && ws.root.q == nb.q == nc.q == []
  {
    hide PriorityWriteScheduler.Valid;
    ws := new PriorityWriteScheduler(0, maxIdle, throttle);
    var ok := ws.OpenStream(a, 0);
    na := ws.nodes[a];
    ok := ws.OpenStream(b, a);
    nb := ws.nodes[b];
    ok := ws.OpenStream(c, a);
    nc := ws.nodes[c];
  }

  lemma OthersUnreachable(ws: PriorityWriteScheduler, na: Node, nb: Node, nc: Node)
    requires ws.Valid() && ws.parents == Removed(map[ws.root := null, na := ws.root, nb := na, nc := na], na, nc)
    requires na != ws.root && nb != ws.root && nb != na && nc != nb && nc != na
    requires ws.root.q == [] && nc.q == []
    ensures ws.Candidates() == {}
  {
    hide Linked;
    DeepRanked(ws.parents, ws.depth);
    assert !Reachable(ws.parents, ws.depth, ws.root, na);
    assert !Reachable(ws.parents, ws.depth, ws.root, nb);
  }

  /**
    * No room for closed nodes: streams b and c are pushed by a, which is then closed.
    * Stream b is no longer below the root: Pop finds nothing, although a frame is queued there.
    */
  method StrandsStream(maxIdle: nat, throttle: bool, a: nat, b: nat, c: nat, r: Request)
    returns (pushed: bool, popped: bool)
    requires 0 < a && 0 < b && 0 < c && a != b && b != c && a != c
    requires r.Valid() && !r.IsControl() && r.StreamID() == b
    modifies r.Windows()
    ensures pushed && !popped
  {
    hide PriorityWriteScheduler.Valid, Removed;
    ghost var na, nb, nc;
    var ws;
    ws, na, nb, nc := OpenThree(maxIdle, throttle, a, b, c);
    var ok := ws.CloseStream(a);
    assert ok;
    var at, wr, from;
    pushed, at := ws.Push(r);
    OthersUnreachable(ws, na, nb, nc);
    wr, popped, from := ws.Pop();
  }
}
