/** Control-flow graphs of functions and the visiting order of their blocks. */
module Cfg {
  import opened Graphs

  /** Reference variables a statement or a terminator uses, and those a statement defines. */
  datatype Stmt = Stmt(uses: set<int>, defs: set<int>)

  /** `succs` may repeat a target. */
  datatype Block = Block(stmts: seq<Stmt>, uses: set<int>, succs: seq<int>)

  /** `params` are the reference parameters. A jump target need not be a block. */
  datatype Function = Function(blocks: map<int, Block>, entry: int, params: set<int>)

  function Succ(f: Function, b: int): seq<int> {
    if b in f.blocks then f.blocks[b].succs else []
  }

  function Pred(f: Function, b: int): set<int> {
    set p | p in f.blocks && b in f.blocks[p].succs
  }

  ghost function FlowGraph(f: Function): Graph<int> {
    map b | b in f.blocks :: set s | s in f.blocks[b].succs
  }

  /** Control may get from the function's entry to `b`. */
  ghost predicate Reachable(f: Function, b: int) {
    Reaches(FlowGraph(f), f.entry, b)
  }

  /** All blocks and targets, and the entry. */
  ghost function Ids(f: Function): set<int> {
    Nodes(FlowGraph(f)) + {f.entry}
  }

  lemma FlowEdge(f: Function, a: int, b: int)
    ensures Edge(FlowGraph(f), a, b) <==> b in Succ(f, a)
    ensures b in Succ(f, a) ==> b in Ids(f) && a in f.blocks && a in Pred(f, b)
    ensures Reachable(f, a) && b in Succ(f, a) ==> Reachable(f, b)
  {
    if Reachable(f, a) && b in Succ(f, a) {
      ReachesEdge(FlowGraph(f), a, b);
      ReachesTrans(FlowGraph(f), f.entry, a, b);
    }
  }

  /** A reachable block other than the entry has a reachable predecessor. */
  lemma ReachableHasPred(f: Function, b: int) returns (p: int)
    requires Reachable(f, b) && b != f.entry
    ensures p in Pred(f, b) && Reachable(f, p)
  {
    var w :| WalkBetween(FlowGraph(f), w, f.entry, b);
    p := w[|w| - 2];
    assert Edge(FlowGraph(f), w[(|w| - 1) - 1], w[|w| - 1]);
    WalkReaches(FlowGraph(f), w, 0, |w| - 2);
    FlowEdge(f, p, b);
  }

  /** The state of the depth-first search of `compute_rpo`. */
  class Search {
    const f: Function
    var visited: set<int>
    var order: seq<int>

    constructor (f: Function)
      ensures this.f == f && visited == {} && order == []
    {
      this.f := f;
      visited, order := {}, [];
    }

    /** Every finished block's successors are visited; visited blocks not yet finished are `open`. */
    ghost predicate Ok(open: set<int>)
      reads this
    {
      && open <= visited <= Ids(f)
      && (forall b :: b in order <==> b in visited && b !in open)
      && (forall i, j :: 0 <= i < j < |order| ==> order[i] != order[j])
      && (forall b :: b in visited ==> Reachable(f, b))
      && (forall b, s :: b in order && s in Succ(f, b) ==> s in visited)
    }

    method Dfs(b: int, ghost open: set<int>)
      requires Ok(open) && b in Ids(f) && Reachable(f, b)
      modifies this
      ensures Ok(open) && old(visited) <= visited && b in visited
      decreases Ids(f) - visited
    {
      if b in visited {
        return;
      }
      visited := visited + {b};
      var succs, i := Succ(f, b), 0;
      while i < |succs|
        invariant 0 <= i <= |succs|
        invariant Ok(open + {b}) && b !in open && old(visited) + {b} <= visited
        invariant forall j :: 0 <= j < i ==> succs[j] in visited
      {
        FlowEdge(f, b, succs[i]);
        Dfs(succs[i], open + {b});
        i := i + 1;
      }
      order := [b] + order;
    }
  }

  /** The order lists exactly the reachable ids, each once. */
  ghost predicate IsOrder(f: Function, order: seq<int>) {
    && (forall b :: b in order <==> Reachable(f, b))
    && (forall i, j :: 0 <= i < j < |order| ==> order[i] != order[j])
  }

  method ComputeRpo(f: Function) returns (order: seq<int>)
    ensures IsOrder(f, order)
  {
    var s := new Search(f);
    ReachesRefl(FlowGraph(f), f.entry);
    s.Dfs(f.entry, {});
    order := s.order;
    var done := s.visited;
    forall b | Reachable(f, b) ensures b in order {
      forall x | x in done ensures Successors(FlowGraph(f), x) <= done {
        forall y | y in Successors(FlowGraph(f), x) ensures y in done {
          FlowEdge(f, x, y);
        }
      }
      ClosedContainsReach(FlowGraph(f), done, f.entry, b);
    }
  }
}
