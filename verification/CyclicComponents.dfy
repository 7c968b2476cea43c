/** Strongly connected components by two depth-first passes (Kosaraju), and the
    components that contain a cycle. The order in which a node's successors are
    visited is left open: every order gives a correct result. */
module CyclicComponents {
  import opened Graphs

  ghost predicate NoDuplicates<T>(s: seq<T>) {
    forall i, j :: 0 <= i < j < |s| ==> s[i] != s[j]
  }

  /** Some finished node is mutually reachable with `w` and stands before
      everything that `w` reaches; all of that is finished. */
  ghost predicate Settled<T(!new)>(g: Graph<T>, order: seq<T>, w: T) {
    exists k :: 0 <= k < |order| && Leads(g, order, k, w)
  }

  ghost predicate Leads<T(!new)>(g: Graph<T>, order: seq<T>, k: nat, w: T)
    requires k < |order|
  {
    Mutual(g, w, order[k]) && forall u :: Reaches(g, w, u) ==> u in order[k..]
  }

  ghost predicate Pending<T(!new)>(g: Graph<T>, open: set<T>, w: T) {
    exists x :: x in open && Mutual(g, w, x)
  }

  /** What the first pass keeps: `open` are the nodes whose visit has started but not finished. */
  ghost predicate OrderInv<T(!new)>(g: Graph<T>, visited: set<T>, order: seq<T>, open: set<T>) {
    && open <= visited <= Nodes(g)
    && (forall x :: x in order <==> x in visited && x !in open)
    && NoDuplicates(order)
    && (forall x :: x in order ==> Successors(g, x) <= visited)
    && (forall w :: w in order ==> Settled(g, order, w) || Pending(g, open, w))
  }

  /** Everything an unfinished node reaches is finished or reached through another unfinished node. */
  lemma ReachIsFinished<T(!new)>(g: Graph<T>, visited: set<T>, order: seq<T>, open: set<T>, v: T, u: T)
    requires OrderInv(g, visited, order, open + {v})
    requires Successors(g, v) <= visited && Reaches(g, v, u)
    requires forall x :: x in open ==> !Reaches(g, v, x)
    ensures u == v || u in order
  {
    if u != v && u !in order {
      var done := (set x | x in order) + {v};
      var x, y := ExitPoint(g, done, v, u);
      assert y in visited;
      ReachesEdge(g, x, y);
      ReachesTrans(g, v, x, y);
      assert false;
    }
  }

  lemma SettledStays<T(!new)>(g: Graph<T>, order: seq<T>, v: T, w: T)
    requires Settled(g, order, w)
    ensures Settled(g, [v] + order, w)
  {
    var k :| 0 <= k < |order| && Leads(g, order, k, w);
    assert ([v] + order)[k + 1] == order[k];
    assert ([v] + order)[k + 1..] == order[k..];
    assert Leads(g, [v] + order, k + 1, w);
  }

  lemma PendingMoves<T(!new)>(g: Graph<T>, open: set<T>, v: T, w: T)
    requires Mutual(g, w, v) && Pending(g, open, v)
    ensures Pending(g, open, w)
  {
    var x :| x in open && Mutual(g, v, x);
    ReachesTrans(g, w, v, x);
    ReachesTrans(g, x, v, w);
  }

  /** Finishing a node keeps the invariant of the first pass. */
  lemma FinishKeepsOrderInv<T(!new)>(g: Graph<T>, visited: set<T>, order: seq<T>, open: set<T>, v: T)
    requires OrderInv(g, visited, order, open + {v}) && v !in open
    requires Successors(g, v) <= visited
    requires forall x :: x in open ==> Reaches(g, x, v)
    ensures OrderInv(g, visited, [v] + order, open)
  {
    var order' := [v] + order;
    assert Settled(g, order', v) || Pending(g, open, v) by {
      ReachesRefl(g, v);
      if x :| x in open && Reaches(g, v, x) {
        assert Mutual(g, v, x);
      } else {
        forall u | Reaches(g, v, u) ensures u in order'[0..] {
          ReachIsFinished(g, visited, order, open, v, u);
        }
        assert Leads(g, order', 0, v);
      }
    }
    forall w | w in order' ensures Settled(g, order', w) || Pending(g, open, w) {
      if w != v {
        assert w in order;
        if Settled(g, order, w) {
          SettledStays(g, order, v, w);
        } else {
          var x :| x in open + {v} && Mutual(g, w, x);
          if x == v {
            if Pending(g, open, v) {
              PendingMoves(g, open, v, w);
            } else {
              forall u | Reaches(g, w, u) ensures u in order'[0..] {
                ReachesTrans(g, v, w, u);
                ReachIsFinished(g, visited, order, open, v, u);
              }
              assert Leads(g, order', 0, w);
            }
          }
        }
      }
    }
  }

  /** The state of the first pass (`dfs_finish_order`). */
  class FinishOrder<T(==, !new)> {
    const g: Graph<T>
    var visited: set<T>
    var order: seq<T>

    constructor (g: Graph<T>)
      ensures this.g == g && visited == {} && order == []
    {
      this.g := g;
      visited, order := {}, [];
    }

    method Dfs(v: T, ghost open: set<T>)
      requires OrderInv(g, visited, order, open) && v in Nodes(g)
      requires forall x :: x in open ==> Reaches(g, x, v)
      modifies this
      ensures OrderInv(g, visited, order, open)
      ensures old(visited) <= visited && v in visited
      decreases Nodes(g) - visited
    {
      if v in visited {
        return;
      }
      visited := visited + {v};
      var todo := Successors(g, v);
      while todo != {}
        invariant OrderInv(g, visited, order, open + {v})
        invariant old(visited) + {v} <= visited
        invariant todo <= Successors(g, v) && Successors(g, v) - todo <= visited
        decreases todo
      {
        var w :| w in todo;
        todo := todo - {w};
        forall x | x in open + {v} ensures Reaches(g, x, w) {
          ReachesEdge(g, v, w);
          if x != v {
            ReachesTrans(g, x, v, w);
          }
        }
        Dfs(w, open + {v});
      }
      FinishKeepsOrderInv(g, visited, order, open, v);
      order := [v] + order;
    }

    method Run()
      requires visited == {} && order == []
      modifies this
      ensures OrderInv(g, visited, order, {}) && visited == Nodes(g)
    {
      var todo := g.Keys;
      while todo != {}
        invariant OrderInv(g, visited, order, {})
        invariant todo <= g.Keys && g.Keys - todo <= visited
        decreases todo
      {
        var v :| v in todo;
        todo := todo - {v};
        Dfs(v, {});
      }
      assert forall v, w :: v in g && w in g[v] ==> v in order && w in Successors(g, v);
    }
  }

  /** The property of the finish order that the second pass relies on. */
  ghost predicate GoodOrder<T(!new)>(g: Graph<T>, order: seq<T>) {
    && NoDuplicates(order)
    && (forall x :: x in order <==> x in Nodes(g))
    && (forall w :: w in order ==> Settled(g, order, w))
  }

  function Reverse<T(==)>(g: Graph<T>): (r: Graph<T>) {
    map t | t in Targets(g) :: Sources(g, t)
  }

  function Targets<T(==)>(g: Graph<T>): set<T> {
    set v, w | v in g && w in g[v] :: w
  }

  function Sources<T(==)>(g: Graph<T>, t: T): set<T> {
    set s | s in g && t in g[s]
  }

  lemma ReverseIsReverse<T(!new)>(g: Graph<T>)
    ensures IsReverse(g, Reverse(g)) && Nodes(Reverse(g)) <= Nodes(g)
  {
    var r := Reverse(g);
    forall a, b ensures Edge(r, a, b) <==> Edge(g, b, a) {
      if Edge(g, b, a) {
        assert a in Targets(g) && b in Sources(g, a);
      }
    }
  }

  /** Nodes whose visit is over have all their successors visited. */
  ghost predicate CollectInv<T>(rev: Graph<T>, visited: set<T>, open: set<T>) {
    open <= visited && forall x :: x in visited && x !in open ==> Successors(rev, x) <= visited
  }

  /** The state of the second pass over the reversed graph (`dfs_collect`). */
  class Collector<T(==, !new)> {
    const rev: Graph<T>
    var visited: set<T>

    constructor (rev: Graph<T>)
      ensures this.rev == rev && visited == {}
    {
      this.rev := rev;
      visited := {};
    }

    method Collect(v: T, acc: seq<T>, ghost open: set<T>, ghost all: set<T>) returns (comp: seq<T>)
      requires CollectInv(rev, visited, open) && visited <= all && v in all && Closed(rev, all)
      requires NoDuplicates(acc) && forall x :: x in acc ==> x in visited
      modifies this
      ensures CollectInv(rev, visited, open) && old(visited) <= visited <= all && v in visited
      ensures NoDuplicates(comp)
      ensures forall x :: x in comp <==> x in acc || (x in visited && x !in old(visited))
      ensures forall x :: x in visited && x !in old(visited) ==> Reaches(rev, v, x)
      decreases all - visited
    {
      if v in visited {
        return acc;
      }
      visited := visited + {v};
      comp := [v] + acc;
      ReachesRefl(rev, v);
      var todo := Successors(rev, v);
      while todo != {}
        invariant CollectInv(rev, visited, open + {v})
        invariant old(visited) + {v} <= visited <= all
        invariant todo <= Successors(rev, v) && Successors(rev, v) - todo <= visited
        invariant NoDuplicates(comp)
        invariant forall x :: x in comp <==> x in acc || (x in visited && x !in old(visited))
        invariant forall x :: x in visited && x !in old(visited) ==> Reaches(rev, v, x)
        decreases todo
      {
        var w :| w in todo;
        todo := todo - {w};
        label before:
        comp := Collect(w, comp, open + {v}, all);
        forall x | x in visited && x !in old@before(visited) ensures Reaches(rev, v, x) {
          ReachesEdge(rev, v, w);
          ReachesTrans(rev, v, w, x);
        }
      }
    }
  }

  /** The lists partition the nodes, and two nodes share a list exactly when each reaches the other. */
  ghost predicate IsSccPartition<T(!new)>(g: Graph<T>, comps: seq<seq<T>>) {
    Covers(comps, Nodes(g)) && AreComponents(g, comps) && Disjoint(comps)
  }

  ghost predicate Covers<T(!new)>(comps: seq<seq<T>>, s: set<T>) {
    forall x :: x in s <==> InSome(comps, x)
  }

  ghost predicate Disjoint<T(!new)>(comps: seq<seq<T>>) {
    forall i, j, x :: 0 <= i < j < |comps| && x in comps[i] ==> x !in comps[j]
  }

  ghost predicate InSome<T>(comps: seq<seq<T>>, x: T) {
    exists c :: c in comps && x in c
  }

  ghost predicate AreComponents<T(!new)>(g: Graph<T>, comps: seq<seq<T>>) {
    forall c :: c in comps ==> IsComponent(g, c)
  }

  ghost predicate IsComponent<T(!new)>(g: Graph<T>, c: seq<T>) {
    c != [] && NoDuplicates(c) && forall x, y :: x in c ==> (y in c <==> Mutual(g, x, y))
  }

  /** What one collection adds is exactly the component of its start. */
  lemma CollectedIsComponent<T(!new)>(g: Graph<T>, rev: Graph<T>, order: seq<T>, i: nat,
                                      before: set<T>, comp: seq<T>, after: set<T>)
    requires IsReverse(g, rev) && GoodOrder(g, order) && i < |order|
    requires Closed(rev, before) && Closed(rev, after) && before <= after <= Nodes(g)
    requires forall k :: 0 <= k < i ==> order[k] in before
    requires order[i] in after && order[i] !in before
    requires NoDuplicates(comp) && forall x :: x in comp <==> x in after && x !in before
    requires forall x :: x in comp ==> Reaches(rev, order[i], x)
    ensures IsComponent(g, comp)
  {
    var v := order[i];
    forall x | x in comp ensures Mutual(g, x, v) {
      ReverseReaches(g, rev, x, v);
      assert x in order && Settled(g, order, x);
      var k :| 0 <= k < |order| && Leads(g, order, k, x);
      var f := order[k];
      if k < i {
        ReverseReaches(g, rev, x, f);
        ClosedContainsReach(rev, before, f, x);
        assert false;
      }
      assert v in order[k..];
      if k > i {
        assert false;
      }
    }
    forall x, y | x in comp ensures y in comp <==> Mutual(g, x, y) {
      if y in comp {
        ReachesTrans(g, x, v, y);
        ReachesTrans(g, y, v, x);
      } else if Mutual(g, x, y) {
        ReverseReaches(g, rev, x, y);
        ReverseReaches(g, rev, y, x);
        ClosedContainsReach(rev, after, x, y);
        ClosedContainsReach(rev, before, y, x);
        assert false;
      }
    }
    assert v in comp;
  }

  ghost predicate PrefixIn<T>(order: seq<T>, n: nat, s: set<T>)
    requires n <= |order|
  {
    forall k :: 0 <= k < n ==> order[k] in s
  }

  lemma PrefixGrows<T>(order: seq<T>, i: nat, s: set<T>, t: set<T>)
    requires i < |order| && PrefixIn(order, i, s) && s <= t && order[i] in t
    ensures PrefixIn(order, i + 1, t)
  {
  }

  method KosarajuScc<T(==, !new)>(g: Graph<T>) returns (comps: seq<seq<T>>)
    ensures IsSccPartition(g, comps)
  {
    var first := new FinishOrder(g);
    first.Run();
    var order := first.order;
    assert GoodOrder(g, order);
    var rev := Reverse(g);
    ReverseIsReverse(g);
    ReverseStaysInside(g, rev);
    var second := new Collector(rev);
    comps := [];
    for i := 0 to |order|
      invariant second.rev == rev && Closed(rev, second.visited) && second.visited <= Nodes(g)
      invariant PrefixIn(order, i, second.visited)
      invariant Covers(comps, second.visited) && AreComponents(g, comps) && Disjoint(comps)
    {
      var v := order[i];
      ghost var before := second.visited;
      if v !in second.visited {
        var comp := second.Collect(v, [], {}, Nodes(g));
        CollectedIsComponent(g, rev, order, i, before, comp, second.visited);
        AddedComponent(g, comps, comp, before, second.visited);
        comps := comps + [comp];
      }
      PrefixGrows(order, i, before, second.visited);
    }
    assert forall x :: x in Nodes(g) ==> x in order;
  }

  lemma ReverseStaysInside<T(!new)>(g: Graph<T>, rev: Graph<T>)
    requires IsReverse(g, rev)
    ensures Closed(rev, Nodes(g))
  {
    forall v, w | v in Nodes(g) && Edge(rev, v, w) ensures w in Nodes(g) {
      assert Edge(g, w, v);
    }
  }

  lemma AddedComponent<T(!new)>(g: Graph<T>, comps: seq<seq<T>>, comp: seq<T>, before: set<T>, after: set<T>)
    requires Covers(comps, before) && AreComponents(g, comps) && Disjoint(comps) && IsComponent(g, comp)
    requires before <= after && forall x :: x in comp <==> x in after && x !in before
    ensures Covers(comps + [comp], after) && AreComponents(g, comps + [comp]) && Disjoint(comps + [comp])
  {
    var more := comps + [comp];
    forall x ensures x in after <==> InSome(more, x) {
      if x in before {
        var c :| c in comps && x in c;
        assert c in more;
      } else if x in after {
        assert comp in more;
      }
    }
    forall i, j, x | 0 <= i < j < |more| && x in more[i] ensures x !in more[j] {
      assert comps == more[..|comps|];
      assert more[i] in comps;
      assert InSome(comps, x);
    }
  }

  // ----- components that contain a cycle -----

  predicate HasCycle<T(==)>(g: Graph<T>, comp: seq<T>) {
    match |comp|
    case 0 => false
    case 1 => comp[0] in Successors(g, comp[0])
    case _ => true
  }

  function KeepCyclic<T(==)>(g: Graph<T>, comps: seq<seq<T>>): seq<seq<T>> {
    if comps == [] then []
    else (if HasCycle(g, comps[0]) then [comps[0]] else []) + KeepCyclic(g, comps[1..])
  }

  ghost predicate OnCycle<T(!new)>(g: Graph<T>, x: T) {
    exists p :: IsCycle(g, p) && p[0] == x
  }

  lemma {:induction false} KeepCyclicMembers<T(!new)>(g: Graph<T>, comps: seq<seq<T>>, c: seq<T>)
    ensures c in KeepCyclic(g, comps) <==> c in comps && HasCycle(g, c)
  {
    if comps != [] {
      KeepCyclicMembers(g, comps[1..], c);
      assert comps == [comps[0]] + comps[1..];
    }
  }

  /** A component passes the filter exactly when its nodes lie on cycles. */
  lemma HasCycleMeansOnCycle<T(!new)>(g: Graph<T>, comp: seq<T>, x: T)
    requires IsComponent(g, comp) && x in comp
    ensures HasCycle(g, comp) <==> OnCycle(g, x)
  {
    if OnCycle(g, x) {
      var p :| IsCycle(g, p) && p[0] == x;
      CycleMutual(g, p, 0, 1);
      CycleMutual(g, p, 1, 0);
      assert Edge(g, p[1 - 1], p[1]);
      assert p[1] in comp;
      if |comp| == 1 {
        assert p[1] == comp[0] == x;
      }
    } else if |comp| == 1 {
      if HasCycle(g, comp) {
        ReachesRefl(g, x);
        var p := EdgeOnCycle(g, x, x);
        assert false;
      }
    } else {
      assert comp[0] != comp[1];
      var y := if comp[0] == x then comp[1] else comp[0];
      assert y in comp && Mutual(g, x, y);
      var a, b := ExitPoint(g, {x}, x, y);
      ReachesTrans(g, b, y, x);
      var p := EdgeOnCycle(g, x, b);
      assert false;
    }
  }

  /** The result lists exactly the components through which a cycle passes. */
  method CyclicComponents<T(==, !new)>(g: Graph<T>) returns (comps: seq<seq<T>>)
    ensures forall c :: c in comps ==> IsComponent(g, c)
    ensures forall x :: InSome(comps, x) <==> OnCycle(g, x)
  {
    var all := KosarajuScc(g);
    comps := KeepCyclic(g, all);
    forall c ensures c in comps <==> c in all && HasCycle(g, c) {
      KeepCyclicMembers(g, all, c);
    }
    forall x ensures InSome(comps, x) <==> OnCycle(g, x) {
      if OnCycle(g, x) {
        var p :| IsCycle(g, p) && p[0] == x;
        assert Edge(g, p[1 - 1], p[1]);
        assert InSome(all, x);
        var c :| c in all && x in c;
        HasCycleMeansOnCycle(g, c, x);
      }
      if InSome(comps, x) {
        var c :| c in comps && x in c;
        HasCycleMeansOnCycle(g, c, x);
      }
    }
  }
}
