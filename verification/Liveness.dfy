/** Liveness of reference variables: a backward fixpoint over the blocks, and what it means
    in terms of paths through the function. */
module Liveness {
  import opened Graphs
  import opened Cfg
  import opened Options

  type Entries = map<int, set<int>>

  function EntryOf(e: Entries, b: int): set<int> {
    if b in e then e[b] else {}
  }

  /** The variables live before statement `i` of the block, given those live at its end. */
  function LiveBefore(b: Block, i: nat, end: set<int>): set<int>
    requires i <= |b.stmts|
    decreases |b.stmts| - i
  {
    if i == |b.stmts| then end else b.stmts[i].uses + (LiveBefore(b, i + 1, end) - b.stmts[i].defs)
  }

  function UnionEntries(e: Entries, ids: seq<int>): set<int> {
    if ids == [] then {} else UnionEntries(e, ids[..|ids| - 1]) + EntryOf(e, ids[|ids| - 1])
  }

  function LiveAtEnd(f: Function, e: Entries, b: int): set<int>
    requires b in f.blocks
  {
    UnionEntries(e, f.blocks[b].succs) + f.blocks[b].uses
  }

  function NewEntry(f: Function, e: Entries, b: int): set<int>
    requires b in f.blocks
  {
    var first := LiveBefore(f.blocks[b], 0, LiveAtEnd(f, e, b));
    if b == f.entry then f.params + first else first
  }

  lemma {:induction false} UnionHas(e: Entries, ids: seq<int>, v: int)
    ensures v in UnionEntries(e, ids) <==> exists s :: s in ids && v in EntryOf(e, s)
    decreases |ids|
  {
    if ids != [] {
      var n := |ids| - 1;
      UnionHas(e, ids[..n], v);
      assert ids == ids[..n] + [ids[n]];
    }
  }

  // ----- paths -----

  /** `Start(b)` is the point where control enters `b`; `At(b, i)` stands before its statement
      `i`, or before its terminator. */
  datatype Point = Start(b: int) | At(b: int, i: nat)

  ghost function Points(f: Function): set<Point> {
    (set b | b in f.blocks :: Start(b))
    + (set b, i: nat | b in f.blocks && 0 <= i <= |f.blocks[b].stmts| :: At(b, i))
  }

  /** Where control goes from a point without passing a definition of `v`. */
  ghost function Next(f: Function, v: int, p: Point): set<Point> {
    if p.b !in f.blocks then {}
    else
      match p
      case Start(b) => {At(b, 0)}
      case At(b, i) =>
        var blk := f.blocks[b];
        if i < |blk.stmts| then (if v in blk.stmts[i].defs then {} else {At(b, i + 1)})
        else if i == |blk.stmts| then set s | s in blk.succs && s in f.blocks :: Start(s)
        else {}
  }

  ghost function PointGraph(f: Function, v: int): Graph<Point> {
    map p | p in Points(f) :: Next(f, v, p)
  }

  /** The point reads `v`; entering the function, every reference parameter counts as read. */
  ghost predicate Reads(f: Function, p: Point, v: int) {
    p.b in f.blocks &&
    match p
    case Start(b) => b == f.entry && v in f.params
    case At(b, i) =>
      var blk := f.blocks[b];
      if i < |blk.stmts| then v in blk.stmts[i].uses else i == |blk.stmts| && v in blk.uses
  }

  /** Some path leads from the point to a read of `v`, and no statement passed on it defines `v`. */
  ghost predicate LivePath(f: Function, p: Point, v: int) {
    exists q :: Reaches(PointGraph(f, v), p, q) && Reads(f, q, v)
  }

  /** Every variable in the computed entry sets is live by a path. */
  ghost predicate Sound(f: Function, e: Entries) {
    forall b, v {:trigger v in EntryOf(e, b)} :: v in EntryOf(e, b) ==> b in f.blocks && LivePath(f, Start(b), v)
  }

  lemma PathStep(f: Function, p: Point, q: Point, v: int)
    requires p in Points(f) && q in Next(f, v, p) && LivePath(f, q, v)
    ensures LivePath(f, p, v)
  {
    var r :| Reaches(PointGraph(f, v), q, r) && Reads(f, r, v);
    assert Edge(PointGraph(f, v), p, q);
    ReachesEdge(PointGraph(f, v), p, q);
    ReachesTrans(PointGraph(f, v), p, q, r);
  }

  lemma ReadIsPath(f: Function, p: Point, v: int)
    requires Reads(f, p, v)
    ensures LivePath(f, p, v)
  {
    ReachesRefl(PointGraph(f, v), p);
  }

  /** What the transfer function finds from sound entry sets is live by a path. */
  lemma EndSound(f: Function, e: Entries, b: int, v: int)
    requires Sound(f, e) && b in f.blocks && v in LiveAtEnd(f, e, b)
    ensures LivePath(f, At(b, |f.blocks[b].stmts|), v)
  {
    var blk := f.blocks[b];
    var p := At(b, |blk.stmts|);
    if v in blk.uses {
      ReadIsPath(f, p, v);
    } else {
      UnionHas(e, blk.succs, v);
      var s :| s in blk.succs && v in EntryOf(e, s);
      assert Start(s) in Next(f, v, p);
      PathStep(f, p, Start(s), v);
    }
  }

  lemma {:induction false} BeforeSound(f: Function, e: Entries, b: int, i: nat, v: int)
    requires Sound(f, e) && b in f.blocks && i <= |f.blocks[b].stmts|
    requires v in LiveBefore(f.blocks[b], i, LiveAtEnd(f, e, b))
    ensures LivePath(f, At(b, i), v)
    decreases |f.blocks[b].stmts| - i
  {
    var blk := f.blocks[b];
    if i == |blk.stmts| {
      EndSound(f, e, b, v);
    } else if v in blk.stmts[i].uses {
      ReadIsPath(f, At(b, i), v);
    } else {
      BeforeSound(f, e, b, i + 1, v);
      PathStep(f, At(b, i), At(b, i + 1), v);
    }
  }

  lemma NewEntrySound(f: Function, e: Entries, b: int, v: int)
    requires Sound(f, e) && b in f.blocks && v in NewEntry(f, e, b)
    ensures LivePath(f, Start(b), v)
  {
    if b == f.entry && v in f.params {
      ReadIsPath(f, Start(b), v);
    } else {
      BeforeSound(f, e, b, 0, v);
      PathStep(f, Start(b), At(b, 0), v);
    }
  }

  // ----- the fixpoint -----

  /** All reachable ids are blocks. */
  ghost predicate TargetsExist(f: Function) {
    forall b :: Reachable(f, b) ==> b in f.blocks
  }

  /** The entry sets agree with their own transfer on every reachable block. */
  ghost predicate Fixed(f: Function, e: Entries) {
    forall b {:trigger FixedAt(f, e, b)} :: Reachable(f, b) ==> FixedAt(f, e, b)
  }

  ghost predicate FixedAt(f: Function, e: Entries, b: int) {
    b in f.blocks && EntryOf(e, b) == NewEntry(f, e, b)
  }

  ghost predicate IsLiveAt(f: Function, e: Entries, p: Point, v: int) {
    p.b in f.blocks &&
    match p
    case Start(b) => v in EntryOf(e, b)
    case At(b, i) => i <= |f.blocks[b].stmts| && v in LiveBefore(f.blocks[b], i, LiveAtEnd(f, e, b))
  }

  /** At a fixpoint, a variable that is dead at a point is dead wherever control goes without
      passing a definition of it. */
  lemma DeadSpreads(f: Function, e: Entries, v: int, p: Point, q: Point)
    requires Fixed(f, e) && Reachable(f, p.b) && p in Points(f)
    requires q in Next(f, v, p) && IsLiveAt(f, e, q, v)
    ensures IsLiveAt(f, e, p, v)
  {
    if p.Start? {
      assert FixedAt(f, e, p.b);
    } else if p.i == |f.blocks[p.b].stmts| {
      UnionHas(e, f.blocks[p.b].succs, v);
    }
  }

  lemma ReadIsLive(f: Function, e: Entries, v: int, p: Point)
    requires Fixed(f, e) && Reachable(f, p.b) && Reads(f, p, v)
    ensures IsLiveAt(f, e, p, v)
  {
    if p.Start? {
      assert FixedAt(f, e, p.b);
    }
  }

  lemma NextIsPoint(f: Function, v: int, p: Point, q: Point)
    requires p in Points(f) && q in Next(f, v, p)
    ensures q in Points(f) && (Reachable(f, p.b) ==> Reachable(f, q.b))
  {
    if p.At? && p.i == |f.blocks[p.b].stmts| {
      FlowEdge(f, p.b, q.b);
    }
  }

  /** At a fixpoint everything live by a path is found. */
  lemma Complete(f: Function, e: Entries, p: Point, v: int)
    requires Fixed(f, e) && p in Points(f) && Reachable(f, p.b) && LivePath(f, p, v)
    ensures IsLiveAt(f, e, p, v)
  {
    var g := PointGraph(f, v);
    var q :| Reaches(g, p, q) && Reads(f, q, v);
    if !IsLiveAt(f, e, p, v) {
      var dead := set x | x in Points(f) && Reachable(f, x.b) && !IsLiveAt(f, e, x, v);
      forall x | x in dead ensures Successors(g, x) <= dead {
        forall y | y in Successors(g, x) ensures y in dead {
          NextIsPoint(f, v, x, y);
          if IsLiveAt(f, e, y, v) {
            DeadSpreads(f, e, v, x, y);
          }
        }
      }
      ClosedContainsReach(g, dead, p, q);
      ReadIsLive(f, e, v, q);
    }
  }

  // ----- the iteration -----

  ghost function Vars(f: Function): set<int> {
    f.params + (set b, v | b in f.blocks && v in f.blocks[b].uses :: v)
    + (set b, i: nat, v | b in f.blocks && 0 <= i < |f.blocks[b].stmts| && v in f.blocks[b].stmts[i].uses :: v)
  }

  ghost function Facts(f: Function, e: Entries): set<(int, int)> {
    set b, v | b in f.blocks && v in Vars(f) && v in EntryOf(e, b) :: (b, v)
  }

  ghost function AllFacts(f: Function): set<(int, int)> {
    set b, v | b in f.blocks && v in Vars(f) :: (b, v)
  }

  /** What every round keeps: entry sets only grow, and they hold variables of the function. */
  ghost predicate Growing(f: Function, e: Entries) {
    forall b {:trigger GrowsAt(f, e, b)} :: b in f.blocks ==> GrowsAt(f, e, b)
  }

  ghost predicate GrowsAt(f: Function, e: Entries, b: int)
    requires b in f.blocks
  {
    EntryOf(e, b) <= NewEntry(f, e, b) && EntryOf(e, b) <= Vars(f)
  }

  ghost predicate Below(e: Entries, e': Entries) {
    forall b {:trigger EntryOf(e, b)} {:trigger EntryOf(e', b)} :: EntryOf(e, b) <= EntryOf(e', b)
  }

  lemma {:induction false} UnionMonotone(e: Entries, e': Entries, ids: seq<int>)
    requires Below(e, e')
    ensures UnionEntries(e, ids) <= UnionEntries(e', ids)
    decreases |ids|
  {
    if ids != [] {
      UnionMonotone(e, e', ids[..|ids| - 1]);
    }
  }

  lemma {:induction false} BeforeMonotone(b: Block, i: nat, x: set<int>, y: set<int>)
    requires i <= |b.stmts| && x <= y
    ensures LiveBefore(b, i, x) <= LiveBefore(b, i, y)
    decreases |b.stmts| - i
  {
    if i < |b.stmts| {
      BeforeMonotone(b, i + 1, x, y);
    }
  }

  lemma NewEntryMonotone(f: Function, e: Entries, e': Entries, b: int)
    requires b in f.blocks && Below(e, e')
    ensures NewEntry(f, e, b) <= NewEntry(f, e', b)
  {
    UnionMonotone(e, e', f.blocks[b].succs);
    BeforeMonotone(f.blocks[b], 0, LiveAtEnd(f, e, b), LiveAtEnd(f, e', b));
  }

  lemma {:induction false} BeforeVars(f: Function, b: int, i: nat, end: set<int>)
    requires b in f.blocks && i <= |f.blocks[b].stmts| && end <= Vars(f)
    ensures LiveBefore(f.blocks[b], i, end) <= Vars(f)
    decreases |f.blocks[b].stmts| - i
  {
    if i < |f.blocks[b].stmts| {
      BeforeVars(f, b, i + 1, end);
      forall v | v in f.blocks[b].stmts[i].uses ensures v in Vars(f) {
      }
    }
  }

  lemma NewEntryVars(f: Function, e: Entries, b: int)
    requires b in f.blocks && forall s :: EntryOf(e, s) <= Vars(f)
    ensures NewEntry(f, e, b) <= Vars(f)
  {
    forall v | v in UnionEntries(e, f.blocks[b].succs) ensures v in Vars(f) {
      UnionHas(e, f.blocks[b].succs, v);
    }
    forall v | v in f.blocks[b].uses ensures v in Vars(f) {
    }
    BeforeVars(f, b, 0, LiveAtEnd(f, e, b));
  }

  /** The entry sets after a round that visits the blocks of `ids`, all from the old sets. */
  ghost predicate IsRound(f: Function, e: Entries, e': Entries, ids: set<int>) {
    forall b {:trigger EntryOf(e', b)} ::
      EntryOf(e', b) == if b in ids && b in f.blocks then NewEntry(f, e, b) else EntryOf(e, b)
  }

  /** Entry sets are kept for visited blocks only. */
  ghost predicate OnlyFor(f: Function, e: Entries) {
    forall b :: b in e ==> Reachable(f, b) && b in f.blocks
  }

  lemma RoundGrows(f: Function, e: Entries, e': Entries, ids: set<int>)
    requires Growing(f, e) && OnlyFor(f, e) && IsRound(f, e, e', ids)
    ensures Growing(f, e') && Below(e, e')
    ensures Facts(f, e) <= Facts(f, e') <= AllFacts(f)
  {
    forall b ensures EntryOf(e, b) <= EntryOf(e', b) && EntryOf(e, b) <= Vars(f) {
      assert b in f.blocks ==> GrowsAt(f, e, b);
    }
    forall b | b in f.blocks ensures GrowsAt(f, e', b) {
      assert GrowsAt(f, e, b);
      NewEntryMonotone(f, e, e', b);
      NewEntryVars(f, e, b);
    }
  }

  lemma RoundSound(f: Function, e: Entries, e': Entries, ids: set<int>)
    requires Sound(f, e) && IsRound(f, e, e', ids)
    ensures Sound(f, e')
  {
    forall b, v | v in EntryOf(e', b) ensures b in f.blocks && LivePath(f, Start(b), v) {
      if b in ids && b in f.blocks {
        NewEntrySound(f, e, b, v);
      } else {
        assert v in EntryOf(e, b);
      }
    }
  }

  lemma Gained(a: set<int>, b: set<int>) returns (v: int)
    requires a <= b && a != b
    ensures v in b && v !in a
  {
    assert (forall v :: v in b ==> v in a) ==> a == b;
    v :| v in b && v !in a;
  }

  lemma MoreFacts(f: Function, e: Entries, e': Entries, ids: set<int>, b: int)
    requires Growing(f, e) && OnlyFor(f, e) && IsRound(f, e, e', ids) && b in f.blocks
        && EntryOf(e, b) != EntryOf(e', b)
    ensures AllFacts(f) - Facts(f, e') < AllFacts(f) - Facts(f, e)
  {
    RoundGrows(f, e, e', ids);
    assert GrowsAt(f, e', b);
    var v := Gained(EntryOf(e, b), EntryOf(e', b));
    assert (b, v) in Facts(f, e') && (b, v) !in Facts(f, e) && (b, v) in AllFacts(f);
  }

  /** One round of the iteration; `None` stands for the missing-block failure. */
  method Round(f: Function, order: seq<int>, e: Entries) returns (r: Option<Entries>, changed: bool)
    requires IsOrder(f, order) && OnlyFor(f, e)
    ensures r.None? <==> !TargetsExist(f)
    ensures r.Some? ==> IsRound(f, e, r.value, set b | b in order) && OnlyFor(f, r.value)
    ensures r.Some? ==> (changed <==> exists b :: b in order && EntryOf(e, b) != EntryOf(r.value, b))
  {
    changed := false;
    var acc, i := e, |order|;
    // successors come before predecessors
    while i > 0
      invariant 0 <= i <= |order|
      invariant forall j :: i <= j < |order| ==> order[j] in f.blocks
      invariant forall b {:trigger EntryOf(acc, b)} ::
        EntryOf(acc, b) == if b in order[i..] then NewEntry(f, e, b) else EntryOf(e, b)
      invariant OnlyFor(f, acc)
      invariant changed <==> exists b :: b in order[i..] && EntryOf(e, b) != EntryOf(acc, b)
    {
      i := i - 1;
      var b := order[i];
      assert order[i..] == [b] + order[i + 1..];
      if b !in f.blocks {
        return None, changed;
      }
      var entry := NewEntry(f, e, b);
      ghost var acc0 := acc;
      if EntryOf(e, b) != entry {
        changed := true;
      }
      acc := acc[b := entry];
      assert forall c {:trigger EntryOf(acc, c)} :: EntryOf(acc, c) == if c == b then entry else EntryOf(acc0, c);
      assert EntryOf(acc, b) == entry;
    }
    assert order[0..] == order;
    r := Some(acc);
  }

  /** Rounds until nothing changes, however the blocks loop. */
  method Fixpoint(f: Function, order: seq<int>, e: Entries) returns (r: Option<Entries>)
    requires IsOrder(f, order) && OnlyFor(f, e) && Growing(f, e) && Sound(f, e)
    ensures r.None? <==> !TargetsExist(f)
    ensures r.Some? ==> OnlyFor(f, r.value) && Sound(f, r.value) && Fixed(f, r.value)
    decreases AllFacts(f) - Facts(f, e)
  {
    var round, changed := Round(f, order, e);
    if round.None? {
      return None;
    }
    var e' := round.value;
    ghost var ids := set b | b in order;
    RoundGrows(f, e, e', ids);
    RoundSound(f, e, e', ids);
    if changed {
      ghost var b :| b in order && EntryOf(e, b) != EntryOf(e', b);
      MoreFacts(f, e, e', ids, b);
      r := Fixpoint(f, order, e');
    } else {
      forall b | Reachable(f, b) ensures FixedAt(f, e', b) {
        SameEntries(f, e, e', ids, b);
      }
      r := Some(e');
    }
  }

  lemma SameEntries(f: Function, e: Entries, e': Entries, ids: set<int>, b: int)
    requires IsRound(f, e, e', ids) && b in ids && b in f.blocks
    requires forall c :: c in ids ==> EntryOf(e, c) == EntryOf(e', c)
    ensures FixedAt(f, e', b)
  {
    assert forall c :: EntryOf(e, c) == EntryOf(e', c);
    assert Below(e, e') && Below(e', e);
    NewEntryMonotone(f, e, e', b);
    NewEntryMonotone(f, e', e, b);
  }

  // ----- the analysis -----

  /** `before[i]` and `after[i]` belong to statement `i`. */
  datatype BlockInfo = BlockInfo(entry: set<int>, end: set<int>, deadEntry: set<int>, before: seq<set<int>>,
      after: seq<set<int>>)

  function DeadAtEdges(f: Function, e: Entries, preds: set<int>, entry: set<int>): set<int>
    requires preds <= f.blocks.Keys && preds != {}
  {
    set p, v | p in preds && v in LiveAtEnd(f, e, p) && v !in entry
      && forall q :: q in preds ==> v in LiveAtEnd(f, e, q) :: v
  }

  function DeadEntry(f: Function, e: Entries, b: int): set<int>
    requires b in f.blocks
  {
    if b == f.entry then EntryOf(e, b) - LiveBefore(f.blocks[b], 0, LiveAtEnd(f, e, b))
    else if Pred(f, b) == {} then {}
    else DeadAtEdges(f, e, Pred(f, b), EntryOf(e, b))
  }

  function Info(f: Function, e: Entries, b: int): BlockInfo
    requires b in f.blocks
  {
    var blk, end := f.blocks[b], LiveAtEnd(f, e, b);
    var n := |blk.stmts|;
    BlockInfo(EntryOf(e, b), end, DeadEntry(f, e, b),
      seq(n, i requires 0 <= i < n => LiveBefore(blk, i, end)),
      seq(n, i requires 0 <= i < n => LiveBefore(blk, i + 1, end)))
  }

  function Infos(f: Function, e: Entries): map<int, BlockInfo> {
    map b | b in f.blocks :: Info(f, e, b)
  }

  /** Leaving the predecessor `p`, the variable is still live. For a predecessor that control
      never reaches the analysis only looks one block ahead. */
  ghost predicate LiveLeaving(f: Function, p: int, v: int)
    requires p in f.blocks
  {
    if Reachable(f, p) then LivePath(f, At(p, |f.blocks[p].stmts|), v)
    else v in f.blocks[p].uses || exists s :: s in f.blocks[p].succs && Reachable(f, s) && LivePath(f, Start(s), v)
  }

  ghost predicate Exact(f: Function, b: int, info: BlockInfo)
    requires b in f.blocks
  {
    var stmts := f.blocks[b].stmts;
    && |info.before| == |info.after| == |stmts|
    && (forall v {:trigger v in info.entry} :: v in info.entry <==> LivePath(f, Start(b), v))
    && (forall v {:trigger v in info.end} :: v in info.end <==> LivePath(f, At(b, |stmts|), v))
    && (forall i, v {:trigger v in info.before[i]} ::
          0 <= i < |stmts| ==> (v in info.before[i] <==> LivePath(f, At(b, i), v)))
    && (forall i, v {:trigger v in info.after[i]} ::
          0 <= i < |stmts| ==> (v in info.after[i] <==> LivePath(f, At(b, i + 1), v)))
    && (forall v {:trigger v in info.deadEntry} :: v in info.deadEntry <==> DiesEntering(f, b, v))
  }

  /** A parameter that dies on entering the function, or a variable that every predecessor
      leaves live and that is dead on entry. */
  ghost predicate DiesEntering(f: Function, b: int, v: int)
    requires b in f.blocks
  {
    if b == f.entry then v in f.params && !LivePath(f, At(b, 0), v)
    else !LivePath(f, Start(b), v) && forall p :: p in Pred(f, b) ==> LiveLeaving(f, p, v)
  }

  ghost predicate Solves(f: Function, e: Entries) {
    OnlyFor(f, e) && Sound(f, e) && Fixed(f, e)
  }

  lemma EntryExact(f: Function, e: Entries, b: int, v: int)
    requires Solves(f, e) && b in f.blocks && Reachable(f, b)
    ensures v in EntryOf(e, b) <==> LivePath(f, Start(b), v)
  {
    if LivePath(f, Start(b), v) {
      Complete(f, e, Start(b), v);
    }
  }

  lemma PointExact(f: Function, e: Entries, b: int, i: nat, v: int)
    requires Solves(f, e) && b in f.blocks && Reachable(f, b) && i <= |f.blocks[b].stmts|
    ensures v in LiveBefore(f.blocks[b], i, LiveAtEnd(f, e, b)) <==> LivePath(f, At(b, i), v)
  {
    if LivePath(f, At(b, i), v) {
      Complete(f, e, At(b, i), v);
    } else if v in LiveBefore(f.blocks[b], i, LiveAtEnd(f, e, b)) {
      BeforeSound(f, e, b, i, v);
    }
  }

  lemma LeavingExact(f: Function, e: Entries, p: int, v: int)
    requires Solves(f, e) && p in f.blocks && TargetsExist(f)
    ensures v in LiveAtEnd(f, e, p) <==> LiveLeaving(f, p, v)
  {
    if Reachable(f, p) {
      PointExact(f, e, p, |f.blocks[p].stmts|, v);
    } else {
      UnionHas(e, f.blocks[p].succs, v);
      forall s | s in f.blocks[p].succs && Reachable(f, s) ensures v in EntryOf(e, s) <==> LivePath(f, Start(s), v) {
        EntryExact(f, e, s, v);
      }
    }
  }

  lemma DeadEntryExact(f: Function, e: Entries, b: int, v: int)
    requires Solves(f, e) && b in f.blocks && Reachable(f, b) && TargetsExist(f)
    ensures v in DeadEntry(f, e, b) <==> DiesEntering(f, b, v)
  {
    EntryExact(f, e, b, v);
    if b == f.entry {
      PointExact(f, e, b, 0, v);
      assert FixedAt(f, e, b);
    } else {
      var p0 := ReachableHasPred(f, b);
      forall p | p in Pred(f, b) ensures v in LiveAtEnd(f, e, p) <==> LiveLeaving(f, p, v) {
        LeavingExact(f, e, p, v);
      }
    }
  }

  lemma InfoExact(f: Function, e: Entries, b: int)
    requires Solves(f, e) && b in f.blocks && Reachable(f, b) && TargetsExist(f)
    ensures Exact(f, b, Info(f, e, b))
  {
    var info, n := Info(f, e, b), |f.blocks[b].stmts|;
    forall v ensures v in info.entry <==> LivePath(f, Start(b), v) {
      EntryExact(f, e, b, v);
    }
    forall v ensures v in info.end <==> LivePath(f, At(b, n), v) {
      PointExact(f, e, b, n, v);
    }
    forall i, v | 0 <= i < n ensures v in info.before[i] <==> LivePath(f, At(b, i), v) {
      PointExact(f, e, b, i, v);
    }
    forall i, v | 0 <= i < n ensures v in info.after[i] <==> LivePath(f, At(b, i + 1), v) {
      PointExact(f, e, b, i + 1, v);
    }
    forall v ensures v in info.deadEntry <==> DiesEntering(f, b, v) {
      DeadEntryExact(f, e, b, v);
    }
  }

  /** The whole analysis. It fails exactly on a jump out of the function; otherwise its answer
      for every reachable block is exact. */
  method Analyze(f: Function) returns (r: Option<map<int, BlockInfo>>)
    ensures r.None? <==> !TargetsExist(f)
    ensures r.Some? ==> r.value.Keys == f.blocks.Keys
    ensures r.Some? ==> forall b :: b in f.blocks && Reachable(f, b) ==> Exact(f, b, r.value[b])
  {
    var order := ComputeRpo(f);
    var fix := Fixpoint(f, order, map[]);
    if fix.None? {
      return None;
    }
    forall b | b in f.blocks && Reachable(f, b) ensures Exact(f, b, Info(f, fix.value, b)) {
      InfoExact(f, fix.value, b);
    }
    r := Some(Infos(f, fix.value));
  }
}
