/**
 The first pass of the compiler (include/codegen.h:55-87, src/lib/codegen.cpp):
 the vertices in order of discovery, and a place in the program for the code of each.
 */
module Codegen {
  import opened Basics
  import opened Automata
  import opened Sequences
  import opened Subsets
  import opened Layouts
  import opened Compiled
  import B = Bytecode

  const NONE: nat := 0xFFFF_FFFF

  datatype StateLayoutInfo = StateLayoutInfo(start: nat, numEval: nat, numOther: nat, checkIndex: Option<nat>, table: bool)
  {
    function NumTotal(): nat {
      numEval + numOther
    }

    function End(): nat {
      start + NumTotal()
    }
  }

  // ----- tables -----

  lemma DedupOfDistinct(s: seq<nat>)
    requires NoRepeats(s)
    ensures Dedup(s) == s
    decreases |s|
  {
    if s != [] {
      var front, x := s[..|s| - 1], s[|s| - 1];
      assert s == front + [x];
      assert x !in front;
      DedupOfDistinct(front);
    }
  }

  lemma {:induction false} ViaAll(g: Nfa, ts: seq<nat>, x: Byte)
    requires forall i :: 0 <= i < |ts| ==> ts[i] < |g.vertices| && Permits(g, ts[i], x)
    ensures Via(g, ts, x) == ts
    decreases |ts|
  {
    if ts != [] {
      ViaAll(g, ts[1..], x);
    }
  }

  /** A successor that permits y is in the row of y. */
  lemma RowHas(g: Nfa, v: nat, i: nat, y: Byte)
    requires Wired(g) && v < |g.out| && i < |g.out[v]| && g.out[v][i] < |g.vertices| && Permits(g, g.out[v][i], y)
    ensures |Pivot(g, v)| == 256 && g.out[v][i] in Pivot(g, v)[y]
  {
    assert g.out[v][i] in Via(g, g.out[v], y);
  }

  lemma SuccessorReads(g: Nfa, v: nat, i: nat) returns (y: Byte)
    requires Compilable(g) && v < |g.out| && i < |g.out[v]|
    ensures g.out[v][i] < |g.vertices| && Permits(g, g.out[v][i], y)
  {
    ChildNotInitial(g, v, i);
    assert SomeByte(g.vertices[g.out[v][i]].trans);
    y :| g.vertices[g.out[v][i]].trans.Permits(y);
  }

  /** If only one byte were used, it would lead to every successor. */
  lemma OneByteLeadsToAll(g: Nfa, v: nat, x: Byte)
    requires Compilable(g) && v < |g.out| && |Pivot(g, v)| == 256
    requires forall y: Byte :: y != x ==> Pivot(g, v)[y] == []
    ensures |Pivot(g, v)[x]| == |g.out[v]|
  {
    var ts := g.out[v];
    assert NoRepeats(ts) && Wired(g);
    hide *;
    forall i | 0 <= i < |ts| ensures ts[i] < |g.vertices| && Permits(g, ts[i], x) {
      var y := SuccessorReads(g, v, i);
      RowHas(g, v, i, y);
    }
    ViaAll(g, ts, x);
    DedupOfDistinct(ts);
  }

  /** So there would be no table: a table has a range of bytes. */
  lemma TablesHaveRange(g: Nfa, v: nat)
    requires Compilable(g) && v < |g.out| && UsesTable(g, v)
    ensures FirstUsed(Pivot(g, v), 0) < LastUsed(Pivot(g, v), 256)
  {
    hide *;
    var tbl := Pivot(g, v);
    UsesTableIs(g, v);
    var x := SuccessorReads(g, v, 0);
    RowHas(g, v, 0, x);
    if forall y: Byte :: y != x ==> tbl[y] == [] {
      OneByteLeadsToAll(g, v, x);
    }
  }

  lemma UsesTableIs(g: Nfa, v: nat)
    requires Compilable(g) && v < |g.out| && UsesTable(g, v)
    ensures Wired(g) && |g.out[v]| > 3 && MaxLen(Pivot(g, v)) < |g.out[v]|
  {
  }

  /** One byte of one successor, in pivotStates. */
  lemma PivotStep(g: Nfa, ts: seq<nat>, t: nat, x: Byte)
    requires t < |g.vertices|
    ensures var row := Dedup(Via(g, ts, x));
            Dedup(Via(g, ts + [t], x)) == if Permits(g, t, x) && t !in row then row + [t] else row
  {
    ViaSnoc(g, ts, t, x);
    DedupSnoc(Via(g, ts, x), t);
    assert !Permits(g, t, x) ==> Via(g, ts + [t], x) == Via(g, ts, x);
  }

  /** pivotStates (src/lib/utility.cpp:111-124) */
  method PivotStates(g: Nfa, v: nat) returns (tbl: seq<seq<nat>>)
    requires Wired(g) && v < |g.out|
    ensures tbl == Pivot(g, v)
  {
    var ts := g.out[v];
    assert Within(g, ts);
    tbl := seq(256, b => []);
    for i := 0 to |ts|
      invariant |tbl| == 256 && forall x: Byte :: tbl[x] == Dedup(Via(g, ts[..i], x))
    {
      hide Dedup, Via, Wired;
      assert ts[..i + 1] == ts[..i] + [ts[i]];
      ghost var before := tbl;
      for b := 0 to 256
        invariant |tbl| == 256
        invariant forall x: Byte :: x < b ==> tbl[x] == Dedup(Via(g, ts[..i] + [ts[i]], x))
        invariant forall x: Byte :: x >= b ==> tbl[x] == before[x]
      {
        PivotStep(g, ts[..i], ts[i], b);
        if Permits(g, ts[i], b) && ts[i] !in tbl[b] {
          tbl := tbl[b := tbl[b] + [ts[i]]];
        }
      }
    }
    assert ts[..|ts|] == ts;
  }

  /** maxOutbound (src/lib/utility.cpp:126-133) */
  method MaxOutbound(tbl: seq<seq<nat>>) returns (m: nat)
    requires |tbl| == 256
    ensures m == MaxLen(tbl)
  {
    m := |tbl[0]|;
    assert tbl[..1] == [tbl[0]];
    for i := 1 to |tbl|
      invariant m == MaxLen(tbl[..i])
    {
      assert tbl[..i + 1][..i] == tbl[..i];
      if m < |tbl[i]| {
        m := |tbl[i]|;
      }
    }
    assert tbl[..|tbl|] == tbl;
  }

  /** The counting loop of calcJumpTableSize: what a table needs, if some byte is used. */
  method CountTable(tbl: seq<seq<nat>>) returns (size: int)
    requires |tbl| == 256
    ensures FirstUsed(tbl, 0) < 256 ==> size == CountedSize(tbl)
  {
    var sizeIndirectTables: nat := 0;
    var first: nat, last: nat := 256, 0;
    for i := 0 to 256
      invariant sizeIndirectTables == IndirectSize(tbl, i)
      invariant first == 256 || (first < i && tbl[first] != [])
      invariant forall j :: 0 <= j < i && j < first ==> tbl[j] == []
      invariant last == LastUsed(tbl, i)
    {
      var num := |tbl[i]|;
      if num > 1 {
        sizeIndirectTables := sizeIndirectTables + num;
      }
      if num != 0 {
        first := Min(first, i);
        last := i;
      }
    }
    // JumpTableRange instr + inclusive number
    size := 2 + (last - first) + 2 * sizeIndirectTables;
  }

  class CodeGenHelper {
    var DiscoverRanks: seq<nat>
    var Snippets: seq<StateLayoutInfo>
    var Guard: nat
    var NumDiscovered: nat
    var MaxLabel: nat
    var MaxCheck: nat

    constructor (numStates: nat)
      ensures DiscoverRanks == seq(numStates, i => NONE)
      ensures Snippets == seq(numStates, i => StateLayoutInfo(NONE, NONE, NONE, None, false))
      ensures Guard == NumDiscovered == MaxLabel == MaxCheck == 0
    {
      DiscoverRanks := seq(numStates, i => NONE);
      Snippets := seq(numStates, i => StateLayoutInfo(NONE, NONE, NONE, None, false));
      Guard, NumDiscovered, MaxLabel, MaxCheck := 0, 0, 0, 0;
    }

    /** CodeGenHelper::discover */
    method Discover(v: nat, g: Nfa)
      requires Wired(g) && v < |g.vertices| == |DiscoverRanks| == |Snippets|
      modifies this`DiscoverRanks, this`Snippets, this`NumDiscovered, this`MaxLabel, this`MaxCheck
      ensures DiscoverRanks == old(DiscoverRanks)[v := old(NumDiscovered)] && NumDiscovered == old(NumDiscovered) + 1
      ensures MaxCheck == old(MaxCheck) + if |g.ins[v]| > 1 then 1 else 0
      ensures Snippets == if |g.ins[v]| > 1 then old(Snippets)[v := old(Snippets)[v].(checkIndex := Some(MaxCheck))] else old(Snippets)
      ensures MaxLabel == if g.vertices[v].lbl == NOLABEL then old(MaxLabel) else Max(old(MaxLabel), g.vertices[v].lbl)
    {
      DiscoverRanks := DiscoverRanks[v := NumDiscovered];
      NumDiscovered := NumDiscovered + 1;
      if |g.ins[v]| > 1 {
        MaxCheck := MaxCheck + 1;
        Snippets := Snippets[v := Snippets[v].(checkIndex := Some(MaxCheck))];
      }
      var lbl := g.vertices[v].lbl;
      if lbl != NOLABEL && lbl > MaxLabel {
        MaxLabel := lbl;
      }
    }

    /** CodeGenHelper::addSnippet */
    method AddSnippet(state: nat, numEval: nat, numOther: nat)
      requires state < |Snippets|
      modifies this`Snippets, this`Guard
      ensures Snippets == old(Snippets)[state := StateLayoutInfo(old(Guard), numEval, numOther,
                                                                 old(Snippets)[state].checkIndex, old(Snippets)[state].table)]
      ensures Guard == old(Guard) + numEval + numOther
    {
      Snippets := Snippets[state := Snippets[state].(start := Guard, numEval := numEval, numOther := numOther)];
      Guard := Guard + Snippets[state].NumTotal();
    }

    /** CodeGenVisitor::calcJumpTableSize */
    method CalcJumpTableSize(v: nat, g: Nfa) returns (size: nat)
      requires Compilable(g) && v < |g.vertices| == |Snippets|
      modifies this`Snippets
      ensures UsesTable(g, v) ==> FirstUsed(Pivot(g, v), 0) < LastUsed(Pivot(g, v), 256) && size == CountedSize(Pivot(g, v)) > 2
      ensures !UsesTable(g, v) ==> size == 0
      ensures Snippets == if UsesTable(g, v) then old(Snippets)[v := old(Snippets)[v].(table := true)] else old(Snippets)
    {
      if |g.out[v]| > 3 {
        var tbl := PivotStates(g, v);
        var m := MaxOutbound(tbl);
        if m < |g.out[v]| {
          TablesHaveRange(g, v);
          Snippets := Snippets[v := Snippets[v].(table := true)];
          size := CountTable(tbl);
          return;
        }
      }
      size := 0;
    }

    /** What the second pass reads. */
    ghost function Lay(): Layout
      reads this
    {
      LayoutOf(DiscoverRanks, Snippets, Guard)
    }

    /** The words that finish_vertex counts for the edges of v. */
    method CountEdges(v: nat, g: Nfa) returns (outOps: nat)
      requires Compilable(g) && v < |g.vertices| == |Snippets| == |DiscoverRanks|
      modifies this`Snippets
      ensures v < |g.out| && (g.out[v] != [] ==> g.out[v][0] < |DiscoverRanks|)
      ensures outOps == EdgeCount(g, DiscoverRanks, v)
      ensures Snippets == if UsesTable(g, v) then old(Snippets)[v := old(Snippets)[v].(table := true)] else old(Snippets)
    {
      CompilableSizes(g);
      TableDegree(g, v);
      EdgeCountIs(g, DiscoverRanks, v);
      hide *;
      outOps := 0;
      var outDegree := |g.out[v]|;
      if outDegree != 0 {
        outOps := CalcJumpTableSize(v, g);
        if outDegree < 4 || outOps == 0 {
          // count each of the non-initial children
          outOps := outOps + 2 * (outDegree - 1);
          // count the first child only if it needs a jump
          if DiscoverRanks[v] + 1 != DiscoverRanks[g.out[v][0]] {
            outOps := outOps + 2;
          }
        }
      }
    }

    /** CodeGenVisitor::finish_vertex */
    method FinishVertex(v: nat, g: Nfa, ghost kv: seq<Option<nat>>)
      requires Compilable(g) && v < |g.vertices| == |Snippets| == |DiscoverRanks| == |kv| && !Snippets[v].table
      requires v == 0 ==> Snippets[v].checkIndex.None?
      modifies this`Snippets, this`Guard
      ensures |Snippets| == |old(Snippets)| && Fits(g, Lay(), kv)
      ensures Finished(g, kv, Lay(), old(Snippets), Snippets, old(Guard), Guard, v)
    {
      hide *;
      CompilableSizes(g);
      ghost var before := Snippets;
      var lbl: nat, mtch: nat := 0, 0;
      var eval: nat := if v == 0 then 0 else if g.vertices[v].trans.ByteSetState? then 9 else 1;
      if g.vertices[v].lbl != NONE {
        lbl := 1;
      }
      if g.vertices[v].isMatch {
        // 1 for match, 1 for finish; or 1 for match, 2 for fork if match is nonterminal
        mtch := 2 + if |g.out[v]| > 0 then 1 else 0;
      }
      var outOps := CountEdges(v, g);
      var totalSize := outOps + lbl + mtch + if Snippets[v].checkIndex.None? then 0 else 1;
      AddSnippet(v, eval, totalSize);
      LayIs();
      AlwaysFits(g, Lay(), kv);
      FinishedBy(g, kv, Lay(), before, Snippets, old(Guard), Guard, v, eval, lbl, mtch, outOps);
    }

    lemma LayIs()
      ensures Lay() == LayoutOf(DiscoverRanks, Snippets, Guard)
    {
    }
  }

  lemma CompilableSizes(g: Nfa)
    requires Compilable(g)
    ensures |g.out| == |g.vertices| == |g.ins| && 0 < |g.vertices|
  {
  }

  lemma TableDegree(g: Nfa, v: nat)
    requires v < |g.out|
    ensures UsesTable(g, v) ==> |g.out[v]| > 3
  {
  }

  function EdgeCount(g: Nfa, ranks: seq<nat>, v: nat): int
    requires v < |g.out| && v < |ranks| && (g.out[v] != [] ==> g.out[v][0] < |ranks|)
  {
    if g.out[v] == [] then 0
    else if UsesTable(g, v) then CountedSize(Pivot(g, v))
    else 2 * (|g.out[v]| - 1) + if ranks[v] + 1 == ranks[g.out[v][0]] then 0 else 2
  }

  lemma EdgeCountIs(g: Nfa, ranks: seq<nat>, v: nat)
    requires Compilable(g) && v < |g.vertices| == |ranks|
    ensures v < |g.out| && (g.out[v] != [] ==> g.out[v][0] < |ranks|)
    ensures EdgeCount(g, ranks, v)
         == if g.out[v] == [] then 0
            else if UsesTable(g, v) then CountedSize(Pivot(g, v))
            else 2 * (|g.out[v]| - 1) + if ranks[v] + 1 == ranks[g.out[v][0]] then 0 else 2
  {
    if g.out[v] != [] {
      ChildNotInitial(g, v, 0);
    }
    hide UsesTable, CountedSize, Pivot;
  }

  /** What finish_vertex leaves: v has its place, and the guard is after it. */
  ghost predicate Finished(g: Nfa, kv: seq<Option<nat>>, lay: Layout, before: seq<StateLayoutInfo>, after: seq<StateLayoutInfo>,
                           guard: nat, guard': nat, v: nat)
  {
    && Fits(g, lay, kv) && v < |g.vertices| && v < |before| && |before| == |after|
    && after[v].start == guard && after[v].numEval == NumEval(g, v) && after[v].checkIndex == before[v].checkIndex
    && (after[v].table <==> UsesTable(g, v))
    && after[v].NumTotal() == SnippetSize(g, lay, kv, v)
    && guard' == after[v].End()
    && after == before[v := after[v]]
  }

  lemma FinishedBy(g: Nfa, kv: seq<Option<nat>>, lay: Layout, before: seq<StateLayoutInfo>, after: seq<StateLayoutInfo>,
                   guard: nat, guard': nat, v: nat, eval: nat, lbl: nat, mtch: nat, outOps: nat)
    requires Compilable(g) && Fits(g, lay, kv) && v < |g.vertices| == |before| && v < |g.out|
    requires g.out[v] != [] ==> g.out[v][0] < |lay.rank|
    requires v == 0 ==> before[v].checkIndex.None?
    requires !before[v].table && lay == LayoutOf(lay.rank, after, guard')
    requires eval == if v == 0 then 0 else if g.vertices[v].trans.ByteSetState? then 9 else 1
    requires lbl == if g.vertices[v].lbl != NONE then 1 else 0
    requires mtch == if g.vertices[v].isMatch then 2 + (if |g.out[v]| > 0 then 1 else 0) else 0
    requires outOps == EdgeCount(g, lay.rank, v)
    requires after == before[v := StateLayoutInfo(guard, eval, outOps + lbl + mtch + (if before[v].checkIndex.None? then 0 else 1),
                                                  before[v].checkIndex, UsesTable(g, v))]
    requires guard' == guard + eval + (outOps + lbl + mtch + if before[v].checkIndex.None? then 0 else 1)
    ensures Finished(g, kv, lay, before, after, guard, guard', v)
  {
    SizeIs(g, lay, kv, v);
    EdgeCountIs(g, lay.rank, v);
    assert lay.check[v] == after[v].checkIndex;
    hide UsesTable, CountedSize, Pivot, Fits, SnippetSize, EdgeCount, Compilable;
  }

  function LayoutOf(ranks: seq<nat>, snippets: seq<StateLayoutInfo>, guard: nat): (r: Layout)
    ensures r.rank == ranks && |r.start| == |r.check| == |snippets| && r.guard == guard
    ensures forall v :: 0 <= v < |snippets| ==> r.start[v] == snippets[v].start && r.check[v] == snippets[v].checkIndex
  {
    Layout(seq(|snippets|, v requires 0 <= v < |snippets| => snippets[v].start),
           seq(|snippets|, v requires 0 <= v < |snippets| => snippets[v].checkIndex), ranks, guard)
  }

  lemma AlwaysFits(g: Nfa, lay: Layout, kv: seq<Option<nat>>)
    requires Compilable(g) && |lay.start| == |lay.check| == |lay.rank| == |g.vertices| == |kv|
    ensures Fits(g, lay, kv)
  {
    forall v: nat | v < |g.vertices| && UsesTable(g, v) ensures FirstUsed(Pivot(g, v), 0) <= LastUsed(Pivot(g, v), 256) {
      TablesHaveRange(g, v);
    }
  }

  /** The size of a snippet, spelled out. */
  lemma SizeIs(g: Nfa, lay: Layout, kv: seq<Option<nat>>, v: nat)
    requires Compilable(g) && Fits(g, lay, kv) && v < |g.vertices|
    ensures v < |g.out| && (g.out[v] != [] ==> g.out[v][0] < |lay.rank|)
    ensures SnippetSize(g, lay, kv, v)
         == NumEval(g, v)
            + (if g.out[v] == [] then 0 else if UsesTable(g, v) then CountedSize(Pivot(g, v))
               else 2 * (|g.out[v]| - 1) + if lay.rank[v] + 1 == lay.rank[g.out[v][0]] then 0 else 2)
            + (if g.vertices[v].lbl != NOLABEL then 1 else 0)
            + (if g.vertices[v].isMatch then 2 + (if g.out[v] != [] then 1 else 0) else 0)
            + (if v != 0 && lay.check[v].Some? then 1 else 0)
  {
  }

  // ----- the visit -----

  /** The queue holds the discovered vertices that have not been visited yet. */
  ghost predicate Visiting(g: Nfa, order: seq<nat>, queue: seq<nat>, discovered: seq<bool>)
    requires Wired(g)
  {
    && |discovered| == |g.vertices| && Within(g, order + queue) && NoRepeats(order + queue)
    && (forall v: nat :: v < |discovered| ==> (discovered[v] <==> v in order + queue))
    && order + queue != [] && (order + queue)[0] == 0
    && (forall v: nat, i: nat :: v in order && v < |g.out| && i < |g.out[v]| ==> g.out[v][i] in order + queue)
  }

  /** The successors of v are discovered in order, to the front of the queue or to its end. */
  function Enqueued(queue: seq<nat>, discovered: seq<bool>, t: nat, front: bool): (seq<nat>, seq<bool>)
    requires t < |discovered|
  {
    if discovered[t] then (queue, discovered)
    else (if front then [t] + queue else queue + [t], discovered[t := true])
  }

  /** While the first k successors of v, the last vertex of order, are in. */
  ghost predicate VisitingFrom(g: Nfa, order: seq<nat>, queue: seq<nat>, discovered: seq<bool>, v: nat, k: nat)
    requires Wired(g)
  {
    && |discovered| == |g.vertices| && Within(g, order + queue) && NoRepeats(order + queue)
    && (forall x: nat :: x < |discovered| ==> (discovered[x] <==> x in order + queue))
    && order + queue != [] && (order + queue)[0] == 0
    && (forall x: nat, i: nat :: x in order && x < |g.out| && i < |g.out[x]| && (x == v ==> i < k) ==> g.out[x][i] in order + queue)
  }

  lemma InParts(order: seq<nat>, queue: seq<nat>, x: nat)
    ensures x in order + queue <==> x in order || x in queue
  {
  }

  lemma VisitPop(g: Nfa, order: seq<nat>, queue: seq<nat>, discovered: seq<bool>)
    requires Wired(g) && Visiting(g, order, queue, discovered) && queue != []
    ensures queue[0] < |g.vertices| && |order| < |g.vertices| && queue[0] !in order
    ensures VisitingFrom(g, order + [queue[0]], queue[1..], discovered, queue[0], 0)
    ensures NoRepeats(order + [queue[0]]) && Within(g, order + [queue[0]])
  {
    var v := queue[0];
    assert (order + queue)[|order|] == v;
    assert order + queue == order + [v] + queue[1..];
    InParts(order, [v], v);
    OrderBounded(g, order + [v], queue[1..]);
    forall i | 0 <= i < |order| ensures order[i] != v {
      assert (order + queue)[i] == order[i];
    }
  }

  lemma OrderBounded(g: Nfa, order: seq<nat>, queue: seq<nat>)
    requires Within(g, order + queue) && NoRepeats(order + queue)
    ensures NoRepeats(order) && Within(g, order) && |order| <= |g.vertices|
  {
    forall i | 0 <= i < |order| ensures order[i] < |g.vertices| {
      assert (order + queue)[i] == order[i];
    }
    forall i, j | 0 <= i < j < |order| ensures order[i] != order[j] {
      assert (order + queue)[i] == order[i] && (order + queue)[j] == order[j];
    }
    DistinctLength(order, Numbers(|g.vertices|));
    NumbersCount(|g.vertices|);
  }

  lemma VisitStep(g: Nfa, order: seq<nat>, queue: seq<nat>, discovered: seq<bool>, v: nat, k: nat, front: bool)
    requires order != []
    requires Wired(g) && VisitingFrom(g, order, queue, discovered, v, k) && v < |g.out| && k < |g.out[v]|
    ensures g.out[v][k] < |discovered|
    ensures var (queue', discovered') := Enqueued(queue, discovered, g.out[v][k], front);
            VisitingFrom(g, order, queue', discovered', v, k + 1)
  {
    var t := g.out[v][k];
    var (queue', discovered') := Enqueued(queue, discovered, t, front);
    if !discovered[t] {
      forall x: nat ensures x in order + queue' <==> x in order + queue || x == t {
        assert t in queue' by {
          assert queue'[if front then 0 else |queue|] == t;
        }
      }
      assert t !in order + queue;
      assert (order + queue')[0] == order[0] == (order + queue)[0];
      EnqueuedDistinct(order, queue, t, front);
      forall i | 0 <= i < |order + queue'| ensures (order + queue')[i] < |g.vertices| {
        assert (order + queue')[i] in order + queue';
      }
    }
  }

  lemma EnqueuedDistinct(order: seq<nat>, queue: seq<nat>, t: nat, front: bool)
    requires NoRepeats(order + queue) && t !in order + queue
    ensures NoRepeats(order + if front then [t] + queue else queue + [t])
  {
    var q := order + queue;
    var r := order + if front then [t] + queue else queue + [t];
    var p := if front then |order| else |q|;
    forall i, j | 0 <= i < j < |r| ensures r[i] != r[j] {
      assert i != p ==> r[i] == q[if i < p then i else i - 1];
      assert j != p ==> r[j] == q[if j < p then j else j - 1];
    }
  }

  /** Once the initial vertex is visited, its only child is next. */
  ghost predicate SecondIs(g: Nfa, order: seq<nat>, queue: seq<nat>)
    requires Wired(g)
  {
    |g.out[0]| == 1 && g.out[0][0] != 0 && order != [] ==> |order + queue| >= 2 && (order + queue)[1] == g.out[0][0]
  }

  lemma SecondStep(g: Nfa, order: seq<nat>, queue: seq<nat>, rest: seq<nat>, discovered: seq<bool>, queue': seq<nat>)
    requires Wired(g) && Visiting(g, order, queue, discovered) && queue != [] && rest == queue[1..]
    requires SecondIs(g, order, queue) && queue[0] < |g.out|
    requires rest <= queue' || (|g.out[queue[0]]| == 1 && queue' == g.out[queue[0]] + rest)
    requires |g.out[queue[0]]| == 1 && g.out[queue[0]][0] < |discovered| && !discovered[g.out[queue[0]][0]]
             ==> queue' == g.out[queue[0]] + rest
    requires order == [] ==> queue == [0]
    ensures SecondIs(g, order + [queue[0]], queue')
  {
    var more := order + [queue[0]];
    if |g.out[0]| == 1 && g.out[0][0] != 0 {
      if order == [] {
        assert !discovered[g.out[0][0]];
        assert (more + queue')[1] == queue'[0];
      } else if |order| == 1 {
        assert (more + queue')[1] == queue[0] == (order + queue)[1];
      } else {
        assert (more + queue')[1] == order[1] == (order + queue)[1];
      }
    }
  }

  lemma VisitDone(g: Nfa, order: seq<nat>, queue: seq<nat>, discovered: seq<bool>, v: nat)
    requires Wired(g) && v < |g.out| && VisitingFrom(g, order, queue, discovered, v, |g.out[v]|)
    ensures Visiting(g, order, queue, discovered)
  {
  }

  lemma VisitFirst(g: Nfa, discovered: seq<bool>)
    requires Wired(g) && |discovered| == |g.vertices| && forall v: nat :: v < |discovered| ==> (discovered[v] <==> v == 0)
    ensures Visiting(g, [], [0], discovered) && SecondIs(g, [], [0])
  {
    assert [] + [0] == [0];
  }

  lemma VisitEnd(g: Nfa, order: seq<nat>, discovered: seq<bool>)
    requires Wired(g) && AllReachable(g) && Visiting(g, order, [], discovered)
    ensures Within(g, order) && NoRepeats(order) && (forall v: nat :: v < |g.vertices| ==> v in order)
    ensures order != [] && order[0] == 0
  {
    assert order + [] == order;
    var s: set<nat> := set v | v in order;
    assert ClosedUnder(g, s) by {
      forall v: nat, i: nat | v in s && v < |g.out| && i < |g.out[v]| ensures g.out[v][i] in s {
        assert g.out[v][i] in order;
      }
    }
    assert 0 in s;
    forall v: nat | v < |g.vertices| ensures v in order {
      assert v in s;
    }
  }

  // ----- what the visit leaves -----

  /** The vertices of order have been discovered, in that order. */
  ghost predicate Ranked(g: Nfa, order: seq<nat>, ranks: seq<nat>, snippets: seq<StateLayoutInfo>, n: nat, maxLabel: nat, maxCheck: nat)
    requires Wired(g)
  {
    && |ranks| == |snippets| == |g.vertices| && n == |order| && maxLabel < NOLABEL
    && Within(g, order) && NoRepeats(order)
    && (forall i :: 0 <= i < |order| ==> ranks[order[i]] == i)
    && (forall v :: 0 <= v < |snippets| ==> !snippets[v].table)
    && (forall v :: 0 <= v < |snippets| && snippets[v].checkIndex.Some? ==>
          v in order && |g.ins[v]| > 1 && snippets[v].checkIndex.value <= maxCheck)
    && (forall i :: 0 <= i < |order| && |g.ins[order[i]]| > 1 ==> snippets[order[i]].checkIndex.Some?)
    && (forall u, v :: 0 <= u < v < |snippets| && snippets[u].checkIndex.Some? ==> snippets[u].checkIndex != snippets[v].checkIndex)
    && (forall i :: 0 <= i < |order| && g.vertices[order[i]].lbl != NOLABEL ==> g.vertices[order[i]].lbl <= maxLabel)
  }

  lemma RankedStep(g: Nfa, order: seq<nat>, ranks: seq<nat>, ranks': seq<nat>, snippets: seq<StateLayoutInfo>,
                   snippets': seq<StateLayoutInfo>, v: nat, maxLabel: nat, maxLabel': nat, maxCheck: nat, maxCheck': nat)
    requires Wired(g) && Ranked(g, order, ranks, snippets, |order|, maxLabel, maxCheck)
    requires v < |g.vertices| && NoRepeats(order + [v]) && v !in order && g.vertices[v].lbl <= NOLABEL
    requires ranks' == ranks[v := |order|] && maxCheck' == maxCheck + if |g.ins[v]| > 1 then 1 else 0
    requires snippets' == if |g.ins[v]| > 1 then snippets[v := snippets[v].(checkIndex := Some(maxCheck'))] else snippets
    requires maxLabel' == if g.vertices[v].lbl == NOLABEL then maxLabel else Max(maxLabel, g.vertices[v].lbl)
    ensures Ranked(g, order + [v], ranks', snippets', |order| + 1, maxLabel', maxCheck')
  {
    hide Wired, NoRepeats;
  }

  /** The snippets of the first k vertices of order follow one another from address 0 to the guard. */
  ghost predicate Placed(g: Nfa, kv: seq<Option<nat>>, lay: Layout, order: seq<nat>, k: nat, guard: nat)
    requires Fits(g, lay, kv)
    decreases k
  {
    k <= |order| &&
    if k == 0 then guard == 0
    else
      && order[k - 1] < |g.vertices|
      && guard == lay.start[order[k - 1]] + SnippetSize(g, lay, kv, order[k - 1])
      && Placed(g, kv, lay, order, k - 1, lay.start[order[k - 1]])
  }

  /** The size of a snippet depends on the ranks and the locks only. */
  lemma SameSize(g: Nfa, kv: seq<Option<nat>>, lay: Layout, lay': Layout, v: nat)
    requires Fits(g, lay, kv) && Fits(g, lay', kv) && v < |g.vertices| && lay'.check == lay.check && lay'.rank == lay.rank
    ensures SnippetSize(g, lay', kv, v) == SnippetSize(g, lay, kv, v)
  {
    hide UsesTable, Pivot, CountedSize;
  }

  lemma {:induction false} PlacedFrame(g: Nfa, kv: seq<Option<nat>>, lay: Layout, lay': Layout, order: seq<nat>, k: nat, guard: nat)
    requires Fits(g, lay, kv) && Fits(g, lay', kv) && Placed(g, kv, lay, order, k, guard) && k <= |order|
    requires lay'.check == lay.check && lay'.rank == lay.rank && Within(g, order)
    requires forall i :: 0 <= i < k ==> lay'.start[order[i]] == lay.start[order[i]]
    ensures Placed(g, kv, lay', order, k, guard)
    decreases k
  {
    hide SnippetSize;
    if k > 0 {
      SameSize(g, kv, lay, lay', order[k - 1]);
      PlacedFrame(g, kv, lay, lay', order, k - 1, lay.start[order[k - 1]]);
    }
  }

  lemma {:induction false} PlacedAt(g: Nfa, kv: seq<Option<nat>>, lay: Layout, order: seq<nat>, k: nat, guard: nat, i: nat)
    requires Fits(g, lay, kv) && Placed(g, kv, lay, order, k, guard) && i < k <= |order| && Within(g, order)
    ensures order[i] < |g.vertices| && lay.start[order[i]] + SnippetSize(g, lay, kv, order[i]) <= guard
    ensures i + 1 < k ==> lay.start[order[i]] + SnippetSize(g, lay, kv, order[i]) == lay.start[order[i + 1]]
    ensures i == 0 ==> lay.start[order[0]] == 0
    decreases k
  {
    hide SnippetSize;
    if i < k - 1 {
      PlacedAt(g, kv, lay, order, k - 1, lay.start[order[k - 1]], i);
    } else if i == 0 {
      assert Placed(g, kv, lay, order, 0, lay.start[order[0]]);
    }
  }

  lemma {:induction false} PlacedOwns(g: Nfa, kv: seq<Option<nat>>, lay: Layout, order: seq<nat>, k: nat, guard: nat, p: nat)
    requires Fits(g, lay, kv) && Placed(g, kv, lay, order, k, guard) && p < guard && k <= |order|
    ensures Owned(g, lay, kv, p)
    decreases k
  {
    hide SnippetSize;
    if p < lay.start[order[k - 1]] {
      PlacedOwns(g, kv, lay, order, k - 1, lay.start[order[k - 1]], p);
    }
  }

  /** Snippets that are placed one after the other, in the order of the ranks, tile the program. */
  lemma PlacedTiles(g: Nfa, kv: seq<Option<nat>>, lay: Layout, order: seq<nat>)
    requires Fits(g, lay, kv) && Placed(g, kv, lay, order, |order|, lay.guard) && Within(g, order)
    requires order != [] && order[0] == 0
    requires forall v: nat :: v < |g.vertices| ==> v in order
    requires forall i :: 0 <= i < |order| ==> lay.rank[order[i]] == i
    requires SecondIs(g, order, []) && (|g.out[0]| == 1 ==> g.out[0][0] != 0)
    ensures Tiled(g, lay, kv)
  {
    hide SnippetSize, UsesTable;
    assert order + [] == order;
    assert |g.out[0]| == 1 ==> lay.rank[order[0]] == 0 && lay.rank[order[1]] == 1;
    PlacedAt(g, kv, lay, order, |order|, lay.guard, 0);
    forall v: nat | v < |lay.start|
      ensures lay.start[v] + SnippetSize(g, lay, kv, v) <= lay.guard
      ensures g.out[v] != [] && Falls(g, lay, v) ==> lay.start[v] + SnippetSize(g, lay, kv, v) == lay.start[g.out[v][0]]
    {
      assert v in order;
      var i: nat :| i < |order| && order[i] == v;
      PlacedAt(g, kv, lay, order, |order|, lay.guard, i);
      if g.out[v] != [] && Falls(g, lay, v) {
        var t := g.out[v][0];
        assert t in order;
        var j: nat :| j < |order| && order[j] == t;
        assert j == i + 1;
      }
    }
    forall p: nat | p < lay.guard ensures Owned(g, lay, kv, p) {
      PlacedOwns(g, kv, lay, order, |order|, lay.guard, p);
    }
  }

  /** The first k vertices of order are finished, the others are as they were discovered. */
  ghost predicate Finishing(g: Nfa, kv: seq<Option<nat>>, lay: Layout, order: seq<nat>, k: nat, found: seq<StateLayoutInfo>,
                            snippets: seq<StateLayoutInfo>, guard: nat)
  {
    && Fits(g, lay, kv) && |snippets| == |found| == |g.vertices| && Within(g, order) && NoRepeats(order) && k <= |order|
    && lay == LayoutOf(lay.rank, snippets, guard)
    && Placed(g, kv, lay, order, k, guard)
    && (forall v :: 0 <= v < |found| ==> snippets[v].checkIndex == found[v].checkIndex)
    && (forall i :: k <= i < |order| ==> snippets[order[i]] == found[order[i]])
    && (forall i :: 0 <= i < k ==> InfoIs(g, lay, kv, snippets, order[i]))
  }

  /** What the second pass reads of a finished vertex. */
  ghost predicate InfoIs(g: Nfa, lay: Layout, kv: seq<Option<nat>>, snippets: seq<StateLayoutInfo>, v: nat)
    requires Fits(g, lay, kv) && v < |g.vertices| && v < |snippets|
  {
    && snippets[v].numEval == NumEval(g, v)
    && (snippets[v].table <==> UsesTable(g, v))
    && snippets[v].NumTotal() == SnippetSize(g, lay, kv, v)
  }

  lemma FinishingStep(g: Nfa, kv: seq<Option<nat>>, lay: Layout, lay': Layout, order: seq<nat>, k: nat, found: seq<StateLayoutInfo>,
                      before: seq<StateLayoutInfo>, after: seq<StateLayoutInfo>, guard: nat, guard': nat)
    requires Finishing(g, kv, lay, order, k, found, before, guard) && k < |order|
    requires lay'.rank == lay.rank && lay' == LayoutOf(lay'.rank, after, guard')
    requires Finished(g, kv, lay', before, after, guard, guard', order[k])
    ensures Finishing(g, kv, lay', order, k + 1, found, after, guard')
  {
    hide *;
    var v := order[k];
    FinishingUse(g, kv, lay, order, k, found, before, guard);
    FinishedUse(g, kv, lay', before, after, guard, guard', v);
    LayStep(lay, lay', before, after, v, guard, guard');
    OrderSkips(order, k);
    forall i | 0 <= i < k ensures InfoIs(g, lay', kv, after, order[i]) {
      InfoFrame(g, kv, lay, lay', before, after, order[i]);
    }
    PlacedFrame(g, kv, lay, lay', order, k, guard);
    PlacedMore(g, kv, lay', order, k, guard, guard');
    FinishingBy(g, kv, lay', order, k + 1, found, after, guard');
  }

  lemma FinishingUse(g: Nfa, kv: seq<Option<nat>>, lay: Layout, order: seq<nat>, k: nat, found: seq<StateLayoutInfo>,
                     snippets: seq<StateLayoutInfo>, guard: nat)
    requires Finishing(g, kv, lay, order, k, found, snippets, guard)
    ensures Fits(g, lay, kv) && |snippets| == |found| == |g.vertices| && Within(g, order) && NoRepeats(order) && k <= |order|
    ensures forall i :: 0 <= i < |order| ==> order[i] < |g.vertices|
    ensures lay == LayoutOf(lay.rank, snippets, guard) && Placed(g, kv, lay, order, k, guard)
    ensures forall v :: 0 <= v < |found| ==> snippets[v].checkIndex == found[v].checkIndex
    ensures forall i :: k <= i < |order| ==> snippets[order[i]] == found[order[i]]
    ensures forall i :: 0 <= i < k ==> InfoIs(g, lay, kv, snippets, order[i])
  {
    hide Fits, Placed, InfoIs, NoRepeats;
  }

  lemma FinishingBy(g: Nfa, kv: seq<Option<nat>>, lay: Layout, order: seq<nat>, k: nat, found: seq<StateLayoutInfo>,
                    snippets: seq<StateLayoutInfo>, guard: nat)
    requires Fits(g, lay, kv) && |snippets| == |found| == |g.vertices| && Within(g, order) && NoRepeats(order) && k <= |order|
    requires forall i :: 0 <= i < |order| ==> order[i] < |g.vertices|
    requires lay == LayoutOf(lay.rank, snippets, guard) && Placed(g, kv, lay, order, k, guard)
    requires forall v :: 0 <= v < |found| ==> snippets[v].checkIndex == found[v].checkIndex
    requires forall i :: k <= i < |order| ==> snippets[order[i]] == found[order[i]]
    requires forall i :: 0 <= i < k ==> InfoIs(g, lay, kv, snippets, order[i])
    ensures Finishing(g, kv, lay, order, k, found, snippets, guard)
  {
    hide Fits, Placed, InfoIs, NoRepeats;
  }

  lemma FinishedUse(g: Nfa, kv: seq<Option<nat>>, lay: Layout, before: seq<StateLayoutInfo>, after: seq<StateLayoutInfo>,
                    guard: nat, guard': nat, v: nat)
    requires Finished(g, kv, lay, before, after, guard, guard', v)
    ensures Fits(g, lay, kv) && v < |g.vertices| && v < |before| && |before| == |after|
    ensures after[v].start == guard && after[v].checkIndex == before[v].checkIndex && after == before[v := after[v]]
    ensures guard' == guard + SnippetSize(g, lay, kv, v) && InfoIs(g, lay, kv, after, v)
  {
    hide Fits, SnippetSize;
  }

  lemma LayStep(lay: Layout, lay': Layout, before: seq<StateLayoutInfo>, after: seq<StateLayoutInfo>, v: nat, guard: nat, guard': nat)
    requires lay == LayoutOf(lay.rank, before, guard) && lay' == LayoutOf(lay'.rank, after, guard')
    requires v < |before| == |after| && after == before[v := after[v]] && after[v].checkIndex == before[v].checkIndex
    requires after[v].start == guard
    ensures lay'.check == lay.check && |lay.start| == |lay'.start| == |before| && lay'.start[v] == guard
    ensures forall u :: 0 <= u < |before| && u != v ==> lay'.start[u] == lay.start[u]
  {
  }

  lemma OrderSkips(order: seq<nat>, k: nat)
    requires NoRepeats(order) && k < |order|
    ensures forall i :: 0 <= i < |order| && i != k ==> order[i] != order[k]
  {
  }

  lemma InfoFrame(g: Nfa, kv: seq<Option<nat>>, lay: Layout, lay': Layout, before: seq<StateLayoutInfo>, after: seq<StateLayoutInfo>, v: nat)
    requires Fits(g, lay, kv) && Fits(g, lay', kv) && lay'.check == lay.check && lay'.rank == lay.rank
    requires v < |g.vertices| && v < |before| && v < |after| && after[v] == before[v] && InfoIs(g, lay, kv, before, v)
    ensures InfoIs(g, lay', kv, after, v)
  {
    SameSize(g, kv, lay, lay', v);
    hide Fits, SnippetSize;
  }

  lemma PlacedMore(g: Nfa, kv: seq<Option<nat>>, lay: Layout, order: seq<nat>, k: nat, guard: nat, guard': nat)
    requires Fits(g, lay, kv) && Placed(g, kv, lay, order, k, guard) && k < |order| && order[k] < |g.vertices|
    requires lay.start[order[k]] == guard && guard' == guard + SnippetSize(g, lay, kv, order[k])
    ensures Placed(g, kv, lay, order, k + 1, guard')
  {
    hide SnippetSize;
  }

  lemma {:induction false} PlacedBefore(g: Nfa, kv: seq<Option<nat>>, lay: Layout, order: seq<nat>, k: nat, guard: nat, i: nat, j: nat)
    requires Fits(g, lay, kv) && Placed(g, kv, lay, order, k, guard) && i < j < k <= |order| && Within(g, order)
    ensures order[i] < |g.vertices| && order[j] < |g.vertices|
    ensures lay.start[order[i]] + SnippetSize(g, lay, kv, order[i]) <= lay.start[order[j]]
    decreases k
  {
    hide SnippetSize;
    if j < k - 1 {
      PlacedBefore(g, kv, lay, order, k - 1, lay.start[order[k - 1]], i, j);
    } else {
      PlacedAt(g, kv, lay, order, k - 1, lay.start[order[k - 1]], i);
    }
  }

  lemma PlacedApart(g: Nfa, kv: seq<Option<nat>>, lay: Layout, order: seq<nat>, guard: nat)
    requires Fits(g, lay, kv) && Placed(g, kv, lay, order, |order|, guard) && Within(g, order)
    requires forall v: nat :: v < |g.vertices| ==> v in order
    ensures Apart(g, lay, kv)
  {
    hide SnippetSize, Placed;
    forall u: nat, v: nat | u < |lay.start| && v < |lay.start| && u != v
      ensures lay.start[u] + SnippetSize(g, lay, kv, u) <= lay.start[v] || lay.start[v] + SnippetSize(g, lay, kv, v) <= lay.start[u]
    {
      assert u in order && v in order;
      var i: nat :| i < |order| && order[i] == u;
      var j: nat :| j < |order| && order[j] == v;
      if i < j {
        PlacedBefore(g, kv, lay, order, |order|, guard, i, j);
      } else {
        PlacedBefore(g, kv, lay, order, |order|, guard, j, i);
      }
    }
  }

  // ----- the whole first pass -----

  /** The layout is complete: this is all that the second pass relies on. */
  ghost predicate LaidOut(g: Nfa, kv: seq<Option<nat>>, lay: Layout, snippets: seq<StateLayoutInfo>, maxLabel: nat, maxCheck: nat) {
    && Fits(g, lay, kv) && Tiled(g, lay, kv) && Apart(g, lay, kv) && |snippets| == |g.vertices|
    && lay == LayoutOf(lay.rank, snippets, lay.guard)
    && ChecksOk(g, lay, maxCheck) && maxLabel < NOLABEL
    && (forall v: nat :: v < |snippets| ==> InfoIs(g, lay, kv, snippets, v))
    && (forall v: nat :: v < |g.vertices| && g.vertices[v].lbl != NOLABEL ==> g.vertices[v].lbl <= maxLabel)
  }

  lemma RankedUse(g: Nfa, order: seq<nat>, ranks: seq<nat>, snippets: seq<StateLayoutInfo>, maxLabel: nat, maxCheck: nat)
    requires Compilable(g) && Ranked(g, order, ranks, snippets, |order|, maxLabel, maxCheck)
    ensures |ranks| == |snippets| == |g.vertices| && Within(g, order) && NoRepeats(order)
    ensures forall i :: 0 <= i < |order| ==> order[i] < |g.vertices|
    ensures forall i :: 0 <= i < |order| ==> ranks[order[i]] == i
    ensures forall v :: 0 <= v < |snippets| ==> !snippets[v].table
    ensures snippets[0].checkIndex.None? && maxLabel < NOLABEL
    ensures forall v: nat :: v < |g.vertices| ==> g.vertices[v].lbl <= NOLABEL
  {
    hide Wired, Matched, NoRepeats;
  }

  lemma LaidOutBy(g: Nfa, kv: seq<Option<nat>>, lay: Layout, order: seq<nat>, found: seq<StateLayoutInfo>, snippets: seq<StateLayoutInfo>,
                  maxLabel: nat, maxCheck: nat)
    requires Compilable(g) && Ranked(g, order, lay.rank, found, |order|, maxLabel, maxCheck)
    requires Finishing(g, kv, lay, order, |order|, found, snippets, lay.guard) && SecondIs(g, order, [])
    requires order != [] && order[0] == 0 && forall v: nat :: v < |g.vertices| ==> v in order
    ensures LaidOut(g, kv, lay, snippets, maxLabel, maxCheck)
  {
    hide *;
    FinishingUse(g, kv, lay, order, |order|, found, snippets, lay.guard);
    RankedUse(g, order, lay.rank, found, maxLabel, maxCheck);
    OnlyChild(g);
    PlacedTiles(g, kv, lay, order);
    PlacedApart(g, kv, lay, order, lay.guard);
    ChecksFound(g, order, lay, found, snippets, maxLabel, maxCheck);
    forall v: nat | v < |snippets| ensures InfoIs(g, lay, kv, snippets, v) {
      assert v in order;
      var i: nat :| i < |order| && order[i] == v;
      assert InfoIs(g, lay, kv, snippets, order[i]);
    }
    LaidOutIs(g, kv, lay, snippets, maxLabel, maxCheck);
  }

  lemma OnlyChild(g: Nfa)
    requires Compilable(g)
    ensures 0 < |g.out| && (|g.out[0]| == 1 ==> g.out[0][0] != 0)
  {
    ChildNotInitial(g, 0, 0);
  }

  lemma LaidOutIs(g: Nfa, kv: seq<Option<nat>>, lay: Layout, snippets: seq<StateLayoutInfo>, maxLabel: nat, maxCheck: nat)
    requires Fits(g, lay, kv) && Tiled(g, lay, kv) && Apart(g, lay, kv) && |snippets| == |g.vertices|
    requires lay == LayoutOf(lay.rank, snippets, lay.guard)
    requires ChecksOk(g, lay, maxCheck) && maxLabel < NOLABEL
    requires forall v: nat :: v < |snippets| ==> InfoIs(g, lay, kv, snippets, v)
    requires forall v: nat :: v < |g.vertices| && g.vertices[v].lbl != NOLABEL ==> g.vertices[v].lbl <= maxLabel
    ensures LaidOut(g, kv, lay, snippets, maxLabel, maxCheck)
  {
    hide Fits, Tiled, Apart, InfoIs, ChecksOk;
  }

  lemma ChecksFound(g: Nfa, order: seq<nat>, lay: Layout, found: seq<StateLayoutInfo>, snippets: seq<StateLayoutInfo>,
                    maxLabel: nat, maxCheck: nat)
    requires Compilable(g) && Ranked(g, order, lay.rank, found, |order|, maxLabel, maxCheck)
    requires |snippets| == |found| && lay == LayoutOf(lay.rank, snippets, lay.guard)
    requires forall v :: 0 <= v < |found| ==> snippets[v].checkIndex == found[v].checkIndex
    requires forall v: nat :: v < |g.vertices| ==> v in order
    ensures ChecksOk(g, lay, maxCheck)
    ensures forall v: nat :: v < |g.vertices| && g.vertices[v].lbl != NOLABEL ==> g.vertices[v].lbl <= maxLabel
  {
    hide Wired, Matched, NoRepeats;
    forall v: nat | v < |g.vertices| && g.vertices[v].lbl != NOLABEL ensures g.vertices[v].lbl <= maxLabel {
      assert v in order;
    }
    forall v: nat | v < |g.vertices| && v < |g.ins| && |g.ins[v]| > 1 ensures found[v].checkIndex.Some? {
      assert v in order;
    }
  }

  /** An only child goes to the front unless it was discovered. */
  predicate EnqueuedFront(g: Nfa, v: nat, queue: seq<nat>, discovered: seq<bool>, queue': seq<nat>)
    requires v < |g.out|
  {
    && |g.out[v]| == 1 && g.out[v][0] < |discovered|
    && queue' == if discovered[g.out[v][0]] then queue else g.out[v] + queue
  }

  /** The inner loop of specialVisit: the successors of v not discovered yet are put in the queue. */
  method Enqueue(g: Nfa, v: nat, queue: seq<nat>, discovered: seq<bool>, ghost order: seq<nat>)
    returns (queue': seq<nat>, discovered': seq<bool>)
    requires Wired(g) && v < |g.out| && order != [] && VisitingFrom(g, order, queue, discovered, v, 0)
    ensures Visiting(g, order, queue', discovered')
    ensures queue <= queue' || (|g.out[v]| == 1 && queue' == g.out[v] + queue)
    ensures |g.out[v]| == 1 && g.out[v][0] < |discovered| && !discovered[g.out[v][0]] ==> queue' == g.out[v] + queue
  {
    hide VisitingFrom, Visiting, Wired;
    queue', discovered' := queue, discovered;
    var nobranch := |g.out[v]| < 2;
    for i := 0 to |g.out[v]|
      invariant VisitingFrom(g, order, queue', discovered', v, i)
      invariant if nobranch && 0 < i then EnqueuedFront(g, v, queue, discovered, queue') else queue <= queue'
      invariant i == 0 ==> queue' == queue && discovered' == discovered
    {
      VisitStep(g, order, queue', discovered', v, i, nobranch);
      var t := g.out[v][i];
      if !discovered'[t] {
        discovered' := discovered'[t := true];
        queue' := if nobranch then [t] + queue' else queue' + [t];
      }
    }
    VisitDone(g, order, queue', discovered', v);
  }

  /** First loop of specialVisit: discover every vertex, depth first along chains and breadth first at branches. */
  method DiscoverAll(g: Nfa, helper: CodeGenHelper) returns (inOrder: seq<nat>)
    requires Compilable(g) && AllReachable(g)
    requires helper.DiscoverRanks == seq(|g.vertices|, i => NONE)
    requires helper.Snippets == seq(|g.vertices|, i => StateLayoutInfo(NONE, NONE, NONE, None, false))
    requires helper.Guard == helper.NumDiscovered == helper.MaxLabel == helper.MaxCheck == 0
    modifies helper
    ensures Ranked(g, inOrder, helper.DiscoverRanks, helper.Snippets, |inOrder|, helper.MaxLabel, helper.MaxCheck)
    ensures SecondIs(g, inOrder, [])
    ensures helper.Guard == 0 && inOrder != [] && inOrder[0] == 0 && forall v: nat :: v < |g.vertices| ==> v in inOrder
  {
    hide *;
    CompilableSizes(g);
    CompilableWired(g);
    var discovered := seq(|g.vertices|, i => i == 0);
    var queue := [0];
    inOrder := [];
    VisitFirst(g, discovered);
    RankedFirst(g, helper.DiscoverRanks, helper.Snippets);
    while queue != []
      invariant Visiting(g, inOrder, queue, discovered)
      invariant SecondIs(g, inOrder, queue) && (inOrder == [] ==> queue == [0])
      invariant helper.NumDiscovered == |inOrder| && helper.Guard == 0
      invariant Ranked(g, inOrder, helper.DiscoverRanks, helper.Snippets, |inOrder|, helper.MaxLabel, helper.MaxCheck)
      decreases |g.vertices| - |inOrder|
    {
      ghost var queue0, discovered0 := queue, discovered;
      RankedUse(g, inOrder, helper.DiscoverRanks, helper.Snippets, helper.MaxLabel, helper.MaxCheck);
      VisitPop(g, inOrder, queue, discovered);
      var v := queue[0];
      queue := queue[1..];
      ghost var r, s, l, c := helper.DiscoverRanks, helper.Snippets, helper.MaxLabel, helper.MaxCheck;
      helper.Discover(v, g);
      RankedStep(g, inOrder, r, helper.DiscoverRanks, s, helper.Snippets, v, l, helper.MaxLabel, c, helper.MaxCheck);
      ghost var order, rest := inOrder, queue;
      inOrder := inOrder + [v];
      queue, discovered := Enqueue(g, v, queue, discovered, inOrder);
      SecondStep(g, order, queue0, rest, discovered0, queue);
    }
    VisitEnd(g, inOrder, discovered);
  }

  lemma CompilableWired(g: Nfa)
    requires Compilable(g)
    ensures Wired(g)
  {
  }

  lemma RankedFirst(g: Nfa, ranks: seq<nat>, snippets: seq<StateLayoutInfo>)
    requires Compilable(g) && |ranks| == |g.vertices| && snippets == seq(|g.vertices|, i => StateLayoutInfo(NONE, NONE, NONE, None, false))
    ensures Ranked(g, [], ranks, snippets, 0, 0, 0)
  {
  }

  /** specialVisit (src/lib/codegen.cpp:101-137) */
  method SpecialVisit(g: Nfa, helper: CodeGenHelper, ghost kv: seq<Option<nat>>)
    requires Compilable(g) && AllReachable(g) && |kv| == |g.vertices|
    requires helper.DiscoverRanks == seq(|g.vertices|, i => NONE)
    requires helper.Snippets == seq(|g.vertices|, i => StateLayoutInfo(NONE, NONE, NONE, None, false))
    requires helper.Guard == helper.NumDiscovered == helper.MaxLabel == helper.MaxCheck == 0
    modifies helper
    ensures LaidOut(g, kv, helper.Lay(), helper.Snippets, helper.MaxLabel, helper.MaxCheck)
    ensures helper.Lay() == LayoutOf(helper.DiscoverRanks, helper.Snippets, helper.Guard)
  {
    hide *;
    var inOrder := DiscoverAll(g, helper);
    RankedUse(g, inOrder, helper.DiscoverRanks, helper.Snippets, helper.MaxLabel, helper.MaxCheck);
    ghost var found, ranks := helper.Snippets, helper.DiscoverRanks;
    ghost var maxLabel, maxCheck := helper.MaxLabel, helper.MaxCheck;
    helper.LayIs();
    AlwaysFits(g, helper.Lay(), kv);
    FinishingFirst(g, kv, helper.Lay(), inOrder, found);
    for k := 0 to |inOrder|
      invariant helper.DiscoverRanks == ranks && helper.MaxLabel == maxLabel && helper.MaxCheck == maxCheck
      invariant helper.Lay() == LayoutOf(ranks, helper.Snippets, helper.Guard)
      invariant Finishing(g, kv, helper.Lay(), inOrder, k, found, helper.Snippets, helper.Guard)
    {
      ghost var lay, before, guard := helper.Lay(), helper.Snippets, helper.Guard;
      FinishingUse(g, kv, lay, inOrder, k, found, before, guard);
      helper.FinishVertex(inOrder[k], g, kv);
      helper.LayIs();
      FinishingStep(g, kv, lay, helper.Lay(), inOrder, k, found, before, helper.Snippets, guard, helper.Guard);
    }
    LaidOutBy(g, kv, helper.Lay(), inOrder, found, helper.Snippets, maxLabel, maxCheck);
  }

  lemma FinishingFirst(g: Nfa, kv: seq<Option<nat>>, lay: Layout, order: seq<nat>, found: seq<StateLayoutInfo>)
    requires Fits(g, lay, kv) && |found| == |g.vertices| && Within(g, order) && NoRepeats(order)
    requires lay == LayoutOf(lay.rank, found, 0)
    ensures Finishing(g, kv, lay, order, 0, found, found, 0)
  {
  }
}
