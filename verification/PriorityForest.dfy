/** The shape of the priority tree, as a map from each node to its parent. */
module PriorityForest {
  import opened PriorityTree

  type Parents = map<Node, Node?>

  /** Ranks that grow from parent to kid: there is no cycle. */
  ghost predicate Ranked(p: Parents, r: map<Node, nat>) {
    r.Keys == p.Keys && forall m <- p :: p[m] != null ==> p[m] in p && r[p[m]] < r[m]
  }

  /** The rank is the number of proper ancestors. */
  ghost predicate Deep(p: Parents, d: map<Node, nat>) {
    && d.Keys == p.Keys
    && forall m <- p :: if p[m] == null then d[m] == 0 else p[m] in p && d[m] == d[p[m]] + 1
  }

  lemma DeepRanked(p: Parents, d: map<Node, nat>)
    requires Deep(p, d)
    ensures Ranked(p, d)
  {
  }

  lemma DeepWith(p: Parents, d: map<Node, nat>, n: Node, parent: Node)
    requires Deep(p, d) && n !in p && parent in p
    ensures parent in d && Deep(p[n := parent], d[n := d[parent] + 1])
  {
  }

  /** a is a proper ancestor of m. */
  ghost predicate Above(p: Parents, r: map<Node, nat>, a: Node, m: Node)
    requires Ranked(p, r) && m in p
    decreases r[m]
  {
    p[m] != null && (p[m] == a || Above(p, r, a, p[m]))
  }

  lemma {:induction false} AboveRank(p: Parents, r: map<Node, nat>, a: Node, m: Node)
    requires Ranked(p, r) && m in p && a in p && Above(p, r, a, m)
    ensures r[a] < r[m]
    decreases r[m]
  {
    if p[m] != a {
      AboveRank(p, r, a, p[m]);
    }
  }

  ghost function DepthOf(p: Parents, r: map<Node, nat>, m: Node): (d: nat)
    requires Ranked(p, r) && m in p
    decreases r[m]
  {
    if p[m] == null then 0 else DepthOf(p, r, p[m]) + 1
  }

  ghost function Depths(p: Parents, r: map<Node, nat>): (d: map<Node, nat>)
    requires Ranked(p, r)
    ensures Deep(p, d)
  {
    map m | m in p :: DepthOf(p, r, m)
  }

  /**
    * Making n depend on `dep` (section 5.3.3 of RFC 7540).  If dep depends on n, it
    * is first moved to the parent of n.  If exclusive, the other kids dep then has
    * become kids of n.
    */
  ghost function MovedUp(p: Parents, r: map<Node, nat>, n: Node, dep: Node): (p': Parents)
    requires Ranked(p, r) && n in p && dep in p
    ensures p'.Keys == p.Keys
  {
    if Above(p, r, n, dep) then p[dep := p[n]] else p
  }

  ghost function Adopted(p: Parents, n: Node, dep: Node, exclusive: bool): (p': Parents)
    requires n in p
    ensures p'.Keys == p.Keys
  {
    map m | m in p :: if m == n then dep else if exclusive && p[m] == dep then n else p[m]
  }

  ghost function Adjusted(p: Parents, r: map<Node, nat>, n: Node, dep: Node, exclusive: bool): (p': Parents)
    requires Ranked(p, r) && n in p && dep in p
    ensures p'.Keys == p.Keys
  {
    Adopted(MovedUp(p, r, n, dep), n, dep, exclusive)
  }

  lemma MovedUpRanked(p: Parents, r: map<Node, nat>, n: Node, dep: Node)
    requires Ranked(p, r) && n in p && dep in p && n != dep
    ensures var p' := MovedUp(p, r, n, dep); Ranked(p', r) && !Above(p', r, n, dep)
  {
    var p' := MovedUp(p, r, n, dep);
    if Above(p, r, n, dep) {
      AboveRank(p, r, n, dep);
      assert Ranked(p', r);
      if Above(p', r, n, dep) {
        AboveRank(p', r, n, p[n]);
        assert false;
      }
    }
  }

  ghost function AdoptedRank(p: Parents, r: map<Node, nat>, n: Node, dep: Node, exclusive: bool): (r': map<Node, nat>)
    requires Ranked(p, r) && n in p && dep in p
    ensures r'.Keys == p.Keys
  {
    var a := r[dep] + 1;
    map m | m in p ::
      if m == n || Above(p, r, n, m) then r[m] + a
      else if exclusive && Above(p, r, dep, m) then r[m] + a + r[n] + 1
      else r[m]
  }

  lemma AdoptedRanked(p: Parents, r: map<Node, nat>, n: Node, dep: Node, exclusive: bool)
    requires Ranked(p, r) && n in p && dep in p && n != dep && !Above(p, r, n, dep)
    ensures Ranked(Adopted(p, n, dep, exclusive), AdoptedRank(p, r, n, dep, exclusive))
  {
    var p', r' := Adopted(p, n, dep, exclusive), AdoptedRank(p, r, n, dep, exclusive);
    forall m | m in p' && p'[m] != null
      ensures p'[m] in p' && r'[p'[m]] < r'[m]
    {
      if m == n {
        if Above(p, r, dep, dep) {
          AboveRank(p, r, dep, dep);
          assert false;
        }
      } else {
        assert Above(p, r, n, m) <==> p[m] == n || Above(p, r, n, p[m]);
        assert Above(p, r, dep, m) <==> p[m] == dep || Above(p, r, dep, p[m]);
      }
    }
  }

  /** However n is moved, the nodes still form a forest. */
  lemma AdjustedIsForest(p: Parents, r: map<Node, nat>, n: Node, dep: Node, exclusive: bool) returns (r': map<Node, nat>)
    requires Ranked(p, r) && n in p && dep in p && n != dep
    ensures Ranked(Adjusted(p, r, n, dep, exclusive), r')
  {
    MovedUpRanked(p, r, n, dep);
    var p' := MovedUp(p, r, n, dep);
    AdoptedRanked(p', r, n, dep, exclusive);
    r' := AdoptedRank(p', r, n, dep, exclusive);
  }

  /** n ends up a kid of dep; with the exclusive flag its only kid, and no node is lost from above or below n. */
  lemma AdjustedParents(p: Parents, r: map<Node, nat>, n: Node, dep: Node, exclusive: bool)
    requires Ranked(p, r) && n in p && dep in p && n != dep
    ensures var p' := Adjusted(p, r, n, dep, exclusive);
            && p'[n] == dep
            && (exclusive ==> forall m <- p' :: p'[m] == dep <==> m == n)
            && (forall m <- p :: m != n && m != dep && p[m] != dep ==> p'[m] == p[m])
            && (p'[dep] == if Above(p, r, n, dep) then p[n] else p[dep])
            && (forall m <- p :: m != n && p[m] == dep ==> p'[m] == if exclusive then n else dep)
  {
    if Above(p, r, n, dep) {
      AboveRank(p, r, n, dep);
    }
  }

  /** Nothing depends on a leaf, so nothing has to move up for it. */
  lemma LeafAdjusted(p: Parents, r: map<Node, nat>, n: Node, dep: Node, exclusive: bool)
    requires Ranked(p, r) && n in p && dep in p && forall m <- p :: p[m] != n
    ensures Adjusted(p, r, n, dep, exclusive) == Adopted(p, n, dep, exclusive)
  {
    if Above(p, r, n, dep) {
      var k := KidOnPath(p, r, n, dep);
      assert false;
    }
  }

  /** A node at the top that is not moved itself stays there. */
  lemma TopStays(p: Parents, r: map<Node, nat>, n: Node, dep: Node, exclusive: bool, top: Node)
    requires Ranked(p, r) && n in p && dep in p && n != dep && top in p && top != n && p[top] == null
    ensures Adjusted(p, r, n, dep, exclusive)[top] == null
    ensures !Above(p, r, n, top)
  {
  }

  /** m is top or below it. */
  ghost predicate Reachable(p: Parents, r: map<Node, nat>, top: Node, m: Node)
    requires Ranked(p, r) && m in p
  {
    m == top || Above(p, r, top, m)
  }

  /** One of the nodes above m is open. */
  ghost predicate BelowOpen(p: Parents, r: map<Node, nat>, open: set<Node>, m: Node)
    requires Ranked(p, r) && m in p
    decreases r[m]
  {
    p[m] != null && (p[m] in open || BelowOpen(p, r, open, p[m]))
  }

  lemma BelowOpenAt(p: Parents, r: map<Node, nat>, open: set<Node>, m: Node)
    requires Ranked(p, r) && m in p
    ensures p[m] == null ==> !BelowOpen(p, r, open, m)
    ensures p[m] != null ==> p[m] in p && (BelowOpen(p, r, open, m) <==> p[m] in open || BelowOpen(p, r, open, p[m]))
  {
  }

  /** What is below n is reached through a kid of n. */
  lemma {:induction false} KidOnPath(p: Parents, r: map<Node, nat>, n: Node, m: Node) returns (k: Node)
    requires Ranked(p, r) && m in p && Above(p, r, n, m)
    ensures k in p && p[k] == n && Reachable(p, r, k, m)
    decreases r[m]
  {
    if p[m] == n {
      k := m;
    } else {
      k := KidOnPath(p, r, n, p[m]);
    }
  }

  lemma {:induction false} BelowKid(p: Parents, r: map<Node, nat>, n: Node, k: Node, m: Node)
    requires Ranked(p, r) && m in p && k in p && p[k] == n && Reachable(p, r, k, m)
    ensures Above(p, r, n, m)
    decreases r[m]
  {
    if m != k {
      BelowKid(p, r, n, k, p[m]);
    }
  }

  /** All of s that is m or below it is marked. */
  ghost predicate AllMarked(p: Parents, r: map<Node, nat>, m: Node, marked: set<Node>)
    requires Ranked(p, r)
  {
    forall x <- p :: Reachable(p, r, m, x) ==> x in marked
  }

  lemma AllMarkedBelow(p: Parents, r: map<Node, nat>, n: Node, marked: set<Node>)
    requires Ranked(p, r) && n in p && n in marked
    requires forall k <- p :: p[k] == n ==> AllMarked(p, r, k, marked)
    ensures AllMarked(p, r, n, marked)
  {
    forall x | x in p && Reachable(p, r, n, x) ensures x in marked {
      if x != n {
        var k := KidOnPath(p, r, n, x);
        assert AllMarked(p, r, k, marked);
      }
    }
  }

  /**
    * On the way down from top to m every node but m is marked, and so is all that is
    * m's elder at each level: the kids that come before, with all below them.
    */
  ghost predicate ClearPath(p: Parents, r: map<Node, nat>, top: Node, m: Node, marked: set<Node>, elder: set<(Node, Node)>)
    requires Ranked(p, r) && m in p
    decreases r[m]
  {
    || m == top
    || (&& p[m] != null && p[m] in marked
        && (forall k <- p :: (k, m) in elder ==> AllMarked(p, r, k, marked))
        && ClearPath(p, r, top, p[m], marked, elder))
  }

  lemma ClearHere(p: Parents, r: map<Node, nat>, m: Node, marked: set<Node>, elder: set<(Node, Node)>)
    requires Ranked(p, r) && m in p
    ensures ClearPath(p, r, m, m, marked, elder)
  {
  }

  lemma {:induction false} ClearThrough(p: Parents, r: map<Node, nat>, n: Node, k: Node, m: Node, marked: set<Node>, elder: set<(Node, Node)>)
    requires Ranked(p, r) && m in p && k in p && p[k] == n && n in marked
    requires forall e <- p :: (e, k) in elder ==> AllMarked(p, r, e, marked)
    requires ClearPath(p, r, k, m, marked, elder)
    ensures ClearPath(p, r, n, m, marked, elder)
    decreases r[m]
  {
    hide AllMarked;
    if m == k {
      assert ClearPath(p, r, n, n, marked, elder);
    } else if m != n {
      ClearThrough(p, r, n, k, p[m], marked, elder);
    }
  }

  lemma {:induction false} ClearAbove(p: Parents, r: map<Node, nat>, top: Node, m: Node, marked: set<Node>, elder: set<(Node, Node)>, a: Node)
    requires Ranked(p, r) && m in p && top in p && p[top] == null && ClearPath(p, r, top, m, marked, elder)
    requires Above(p, r, a, m)
    ensures a in marked
    decreases r[m]
  {
    if p[m] != a {
      ClearAbove(p, r, top, p[m], marked, elder, a);
    }
  }

  lemma {:induction false} ClearBeside(p: Parents, r: map<Node, nat>, top: Node, m: Node, marked: set<Node>, elder: set<(Node, Node)>, e: Node, k: Node)
    requires Ranked(p, r) && m in p && top in p && p[top] == null && ClearPath(p, r, top, m, marked, elder)
    requires e in p && k in p && p[k] != null && (e, k) in elder && Reachable(p, r, k, m)
    ensures AllMarked(p, r, e, marked)
    decreases r[m]
  {
    hide AllMarked;
    if m != k {
      ClearBeside(p, r, top, p[m], marked, elder, e, k);
    }
  }

  // ----- Removing a node -----

  /** Taking n out moves its first kid, and only that one, to the parent of n. */
  ghost function Removed(p: Parents, n: Node, first: Node?): (p': Parents)
    requires n in p
    ensures p'.Keys == p.Keys
  {
    map m | m in p :: if m == n then null else if m == first then p[n] else p[m]
  }

  lemma RemovedRanked(p: Parents, r: map<Node, nat>, n: Node, first: Node?)
    requires Ranked(p, r) && n in p && (first != null ==> first in p && p[first] == n)
    ensures Ranked(Removed(p, n, first), r)
  {
  }

  /** Whether removing n cuts off none of the nodes that could be reached from the top. */
  ghost predicate KeepsReachable(p: Parents, p': Parents, r: map<Node, nat>, top: Node, n: Node)
    requires Ranked(p, r) && Ranked(p', r)
  {
    forall m <- p :: m != n && Reachable(p, r, top, m) ==> Reachable(p', r, top, m)
  }

  lemma {:induction false} OnlyKidKept(p: Parents, r: map<Node, nat>, top: Node, n: Node, first: Node?, m: Node)
    requires Ranked(p, r) && n in p && top in p && n != top && p[top] == null && m in p && m != n
    requires first != null ==> first in p && p[first] == n
    requires forall k <- p :: p[k] == n ==> k == first
    requires Ranked(Removed(p, n, first), r) && Reachable(p, r, top, m)
    ensures Reachable(Removed(p, n, first), r, top, m)
    decreases r[m]
  {
    if m != top {
      if p[m] == n {
        assert Reachable(p, r, top, n);
        OnlyKidKept(p, r, top, n, first, p[n]);
      } else {
        OnlyKidKept(p, r, top, n, first, p[m]);
      }
    }
  }

  /** Removal keeps all other reachable nodes reachable exactly when n has no kid but the first. */
  lemma RemovalKeepsReachable(p: Parents, r: map<Node, nat>, top: Node, n: Node, first: Node?)
    requires Ranked(p, r) && n in p && top in p && n != top && p[top] == null && Reachable(p, r, top, n)
    requires first != null ==> first in p && p[first] == n
    ensures Ranked(Removed(p, n, first), r)
    ensures KeepsReachable(p, Removed(p, n, first), r, top, n) <==> forall k <- p :: p[k] == n ==> k == first
  {
    RemovedRanked(p, r, n, first);
    var p' := Removed(p, n, first);
    if forall k <- p :: p[k] == n ==> k == first {
      forall m | m in p && m != n && Reachable(p, r, top, m) ensures Reachable(p', r, top, m) {
        OnlyKidKept(p, r, top, n, first, m);
      }
    } else {
      var k :| k in p && p[k] == n && k != first;
      assert Reachable(p, r, top, k);
      assert p'[k] == n && !Above(p', r, top, n);
      assert !Reachable(p', r, top, k);
    }
  }
}
