/**
 Running a compiled program by backtracking prefers exactly the matches that
 walking the automaton's edges in order prefers, without the bytes that jump tables
 lose: forks, jumps, jump tables, indirect tables and FINISH after the successors
 included (src/lib/compiler.cpp:27-161, src/lib/vm.cpp:192-244). So compilation keeps
 all preferences exactly if there are no such bytes.
 */
module Meaning {
  import opened Basics
  import opened Automata
  import opened Sequences
  import opened Subsets
  import opened Layouts
  import opened Compiled
  import opened Carrying
  import opened Losses
  import B = Bytecode

  function Plus(r: Option<nat>, n: nat): Option<nat> {
    if r.Some? then Some(r.value + n) else None
  }

  lemma PlusLater(r: Option<nat>, n: nat)
    ensures Plus(r, n + 1) == Plus(Later(r), n)
  {
  }

  lemma PlusOrElse(a: Option<nat>, c: Option<nat>, n: nat)
    ensures Plus(OrElse(a, c), n) == OrElse(Plus(a, n), Plus(c, n))
  {
  }

  ghost predicate Ready(b: Build) {
    Complete(b) && B.Sound(b.prog, b.plan)
  }

  // ----- single words -----

  lemma ForkMeans(b: Build, l: nat, p: nat, c: nat, end: nat, w: seq<Byte>, pos: nat)
    requires B.Sound(b.prog, b.plan) && p < |b.prog.code| && b.prog.code[p].Fork?
    ensures p + 2 < |b.prog.code| && b.prog.code[p].target < |b.prog.code|
    ensures B.Backtrack(b.prog, b.plan, l, p, c, end, w, pos)
         == OrElse(B.Backtrack(b.prog, b.plan, l, p + 2, c, end, w, pos),
                   B.Backtrack(b.prog, b.plan, l, b.prog.code[p].target, c, end, w, pos))
  {
    assert B.WordOk(b.prog, b.plan, p);
    hide B.TableOk, B.ByteFlow, B.LocksDistinct;
  }

  lemma JumpMeans(b: Build, l: nat, p: nat, c: nat, end: nat, w: seq<Byte>, pos: nat)
    requires B.Sound(b.prog, b.plan) && p < |b.prog.code| && b.prog.code[p].Jump?
    ensures b.prog.code[p].target < |b.prog.code|
    ensures B.Backtrack(b.prog, b.plan, l, p, c, end, w, pos)
         == B.Backtrack(b.prog, b.plan, l, b.prog.code[p].target, c, end, w, pos)
  {
    assert B.WordOk(b.prog, b.plan, p);
    hide B.TableOk, B.ByteFlow, B.LocksDistinct;
  }

  lemma LabelMeans(b: Build, l: nat, p: nat, c: nat, end: nat, w: seq<Byte>, pos: nat)
    requires B.Sound(b.prog, b.plan) && p < |b.prog.code| && b.prog.code[p].Label?
    ensures p + 1 < |b.prog.code|
    ensures B.Backtrack(b.prog, b.plan, l, p, c, end, w, pos)
         == B.Backtrack(b.prog, b.plan, l, p + 1, b.prog.code[p].lbl, end, w, pos)
  {
    assert B.WordOk(b.prog, b.plan, p);
    hide B.TableOk, B.ByteFlow, B.LocksDistinct;
  }

  lemma CheckMeans(b: Build, l: nat, p: nat, c: nat, end: nat, w: seq<Byte>, pos: nat)
    requires B.Sound(b.prog, b.plan) && p < |b.prog.code| && b.prog.code[p].CheckHalt?
    ensures p + 1 < |b.prog.code|
    ensures B.Backtrack(b.prog, b.plan, l, p, c, end, w, pos) == B.Backtrack(b.prog, b.plan, l, p + 1, c, end, w, pos)
  {
    assert B.WordOk(b.prog, b.plan, p);
    hide B.TableOk, B.ByteFlow, B.LocksDistinct;
  }

  lemma MatchMeans(b: Build, l: nat, p: nat, c: nat, end: nat, w: seq<Byte>, pos: nat)
    requires B.Sound(b.prog, b.plan) && p < |b.prog.code| && b.prog.code[p].Match?
    ensures p + 1 < |b.prog.code|
    ensures B.Backtrack(b.prog, b.plan, l, p, c, end, w, pos) == B.Backtrack(b.prog, b.plan, l, p + 1, c, pos, w, pos)
  {
    assert B.WordOk(b.prog, b.plan, p);
    hide B.TableOk, B.ByteFlow, B.LocksDistinct;
  }

  lemma FinishMeans(b: Build, l: nat, p: nat, c: nat, end: nat, w: seq<Byte>, pos: nat)
    requires B.Sound(b.prog, b.plan) && p < |b.prog.code| && b.prog.code[p].Finish?
    ensures B.Backtrack(b.prog, b.plan, l, p, c, end, w, pos) == if c == l then Some(end) else None
  {
    hide B.WordOk, B.LocksDistinct;
  }

  predicate Tests(w: B.Word) {
    B.AtRest(w) && !w.Finish?
  }

  lemma TestMeans(b: Build, l: nat, p: nat, c: nat, end: nat, w: seq<Byte>, pos: nat)
    requires B.Sound(b.prog, b.plan) && p < |b.prog.code| && Tests(b.prog.code[p])
    ensures w == [] ==> B.Backtrack(b.prog, b.plan, l, p, c, end, w, pos) == None
    ensures w != [] ==>
              var q := B.ByteStep(b.prog.code, p, w[0]);
              && (q.Some? ==> q.value < |b.prog.code|)
              && B.Backtrack(b.prog, b.plan, l, p, c, end, w, pos)
                 == if q.None? then None else B.Backtrack(b.prog, b.plan, l, q.value, c, end, w[1..], pos + 1)
  {
    if w != [] {
      B.ByteStepFlows(b.prog, b.plan, p, w[0]);
    }
    hide B.WordOk, B.LocksDistinct;
  }

  // ----- the byte test of a vertex -----

  lemma StartSteps(b: Build, v: nat, x: Byte)
    requires Ready(b) && 0 < v < |b.g.vertices|
    ensures v < |b.lay.start| && b.lay.start[v] < |b.prog.code| && Tests(b.prog.code[b.lay.start[v]])
    ensures B.ByteStep(b.prog.code, b.lay.start[v], x)
         == if Permits(b.g, v, x) then Some(EntryOf(b.g, b.lay, v)) else None
  {
    hide *;
    ReadyUse(b);
    CompleteUse(b);
    AtStart(b, v);
    EntryIs(b.g, b.lay, v);
    TestStep(b.prog.code, b.lay.start[v], b.g, v, x);
  }

  lemma TestStep(code: seq<B.Word>, s: nat, g: Nfa, v: nat, x: Byte)
    requires Compilable(g) && 0 < v < |g.vertices| && s < |code| && code[s] == TransWord(g.vertices[v].trans)
    ensures Tests(code[s])
    ensures B.ByteStep(code, s, x) == if Permits(g, v, x) then Some(s + NumEval(g, v)) else None
  {
    assert SomeByte(g.vertices[v].trans);
    hide Wired, Matched, NoRepeats;
  }

  lemma StartMeans(b: Build, l: nat, v: nat, c: nat, end: nat, w: seq<Byte>, pos: nat)
    requires Ready(b) && 0 < v < |b.g.vertices|
    ensures v < |b.lay.start| && b.lay.start[v] < |b.prog.code| && EntryOf(b.g, b.lay, v) < |b.prog.code|
    ensures B.Backtrack(b.prog, b.plan, l, b.lay.start[v], c, end, w, pos)
         == if w != [] && Permits(b.g, v, w[0]) then B.Backtrack(b.prog, b.plan, l, EntryOf(b.g, b.lay, v), c, end, w[1..], pos + 1)
            else None
  {
    hide *;
    ReadyUse(b);
    AtEntry(b, v);
    EntryInCode(b, v);
    StartSteps(b, v, if w != [] then w[0] else 0);
    TestMeans(b, l, b.lay.start[v], c, end, w, pos);
  }

  lemma ReadyUse(b: Build)
    requires Ready(b)
    ensures Complete(b) && B.Sound(b.prog, b.plan) && Wired(b.g)
  {
    hide B.Sound;
  }

  lemma EntryInCode(b: Build, v: nat)
    requires v < |b.g.vertices| && v < |b.lay.start| && v < |b.kv| && Enterable(b, v)
    ensures EntryOf(b.g, b.lay, v) < |b.prog.code|
  {
  }

  // ----- what has to be shown for every vertex -----

  /** Running the program from where v is entered is walking the automaton from v. */
  ghost predicate Walks(b: Build, l: nat, v: nat, w: seq<Byte>)
    requires Ready(b) && Wired(b.g) && v < |b.g.vertices| && v < |b.lay.start|
    requires EntryOf(b.g, b.lay, v) < |b.prog.code|
  {
    forall c: nat, end: nat, pos: nat ::
      B.Backtrack(b.prog, b.plan, l, EntryOf(b.g, b.lay, v), c, end, w, pos) == Plus(Ran(b.g, l, v, Enter(b.g, v, c), w), pos)
  }

  ghost predicate AllWalk(b: Build, l: nat, w: seq<Byte>)
    requires Ready(b) && Wired(b.g)
  {
    forall v: nat :: v < |b.g.vertices| && v < |b.lay.start| && EntryOf(b.g, b.lay, v) < |b.prog.code| ==> Walks(b, l, v, w)
  }

  /** The byte test of t, when all walks over the rest of the bytes are right. */
  lemma ViaMeans(b: Build, l: nat, t: nat, c: nat, end: nat, w: seq<Byte>, pos: nat)
    requires Ready(b) && Wired(b.g) && 0 < t < |b.g.vertices| && (w != [] ==> AllWalk(b, l, w[1..]))
    ensures t < |b.lay.start| && b.lay.start[t] < |b.prog.code|
    ensures B.Backtrack(b.prog, b.plan, l, b.lay.start[t], c, end, w, pos) == Plus(RanVia(b.g, l, t, c, w), pos)
  {
    hide *;
    StartMeans(b, l, t, c, end, w, pos);
    if w != [] && Permits(b.g, t, w[0]) {
      WalksUse(b, l, t, c, end, w[1..], pos + 1);
      PlusLater(Ran(b.g, l, t, Enter(b.g, t, c), w[1..]), pos);
    }
    RanViaIs(b.g, l, t, c, w);
    PlusNone(pos);
  }

  lemma PlusNone(n: nat)
    ensures Plus(None, n) == None
  {
  }

  lemma RanViaIs(g: Nfa, l: nat, t: nat, c: nat, w: seq<Byte>)
    requires Wired(g) && t < |g.vertices|
    ensures RanVia(g, l, t, c, w)
         == if w != [] && Permits(g, t, w[0]) then Later(Ran(g, l, t, Enter(g, t, c), w[1..])) else None
  {
    hide Permits, Enter;
  }

  lemma WalksUse(b: Build, l: nat, v: nat, c: nat, end: nat, w: seq<Byte>, pos: nat)
    requires Ready(b) && Wired(b.g) && v < |b.g.vertices| && v < |b.lay.start| && EntryOf(b.g, b.lay, v) < |b.prog.code|
    requires AllWalk(b, l, w)
    ensures B.Backtrack(b.prog, b.plan, l, EntryOf(b.g, b.lay, v), c, end, w, pos) == Plus(Ran(b.g, l, v, Enter(b.g, v, c), w), pos)
  {
    hide Ready, Wired, EntryOf, B.Sound;
    assert Walks(b, l, v, w);
  }

  lemma RanOfIs(g: Nfa, l: nat, ts: seq<nat>, c: nat, w: seq<Byte>)
    requires Wired(g) && Within(g, ts)
    ensures ts == [] ==> RanOf(g, l, ts, c, w) == None
    ensures |ts| == 1 ==> ts[0] < |g.vertices| && RanOf(g, l, ts, c, w) == RanVia(g, l, ts[0], c, w)
  {
    if |ts| == 1 {
      assert ts[1..] == [];
      assert RanOf(g, l, ts[1..], c, w) == None;
    }
    hide RanVia, Wired;
  }

  lemma {:induction false} RanOfSnoc(g: Nfa, l: nat, ts: seq<nat>, t: nat, c: nat, w: seq<Byte>)
    requires Wired(g) && Within(g, ts) && t < |g.vertices|
    ensures Within(g, ts + [t]) && RanOf(g, l, ts + [t], c, w) == OrElse(RanOf(g, l, ts, c, w), RanVia(g, l, t, c, w))
    decreases |ts|
  {
    if ts == [] {
      assert [] + [t] == [t];
      RanOfIs(g, l, [t], c, w);
    } else {
      assert (ts + [t])[0] == ts[0] && (ts + [t])[1..] == ts[1..] + [t];
      RanOfSnoc(g, l, ts[1..], t, c, w);
    }
  }

  // ----- forks -----

  lemma WithinTake(g: Nfa, ts: seq<nat>, n: nat)
    requires Within(g, ts) && n <= |ts|
    ensures Within(g, ts[..n])
  {
  }

  lemma OutWithinAll(g: Nfa, v: nat)
    requires Wired(g) && v < |g.out|
    ensures Within(g, g.out[v])
  {
  }

  lemma {:induction false} ForksMean(b: Build, l: nat, v: nat, n: nat, falls: bool, at: nat, c: nat, end: nat, w: seq<Byte>, pos: nat)
    requires Ready(b) && Wired(b.g) && (w != [] ==> AllWalk(b, l, w[1..]))
    requires v < |b.g.out| && v < |b.kv| && 0 < n <= |b.g.out[v]| && Within(b.g, b.g.out[v][..n])
    requires forall i :: 0 <= i < |b.g.out[v][..n]| ==> b.g.out[v][..n][i] < |b.lay.start|
    requires Has(b.prog, b.plan, at, ForkCells(b.lay, KindOf(b.kv[v]), b.g.out[v][..n], falls))
    requires falls ==> b.g.out[v][0] < |b.lay.start|
                       && at + |ForkCells(b.lay, KindOf(b.kv[v]), b.g.out[v][..n], falls)| == b.lay.start[b.g.out[v][0]]
    ensures at < |b.prog.code|
    ensures B.Backtrack(b.prog, b.plan, l, at, c, end, w, pos) == Plus(RanOf(b.g, l, b.g.out[v][..n], c, w), pos)
    decreases n
  {
    hide *;
    ReadyUse(b);
    CompleteUse(b);
    var ts := b.g.out[v][..n];
    var k := KindOf(b.kv[v]);
    var cells := ForkCells(b.lay, k, ts, falls);
    ChildNotInitial(b.g, v, n - 1);
    ViaMeans(b, l, ts[n - 1], c, end, w, pos);
    if n == 1 {
      LastFork(b.lay, k, ts, falls);
      RanOfIs(b.g, l, ts, c, w);
      if !falls {
        HasFirst(b.prog, b.plan, at, cells);
        JumpMeans(b, l, at, c, end, w, pos);
      }
    } else {
      var front := b.g.out[v][..n - 1];
      assert ts[..n - 1] == front && ts == front + [ts[n - 1]];
      WithinTake(b.g, ts, n - 1);
      FirstFork(b.lay, k, ts, falls);
      HasSplit(b.prog, b.plan, at, cells[..2], ForkCells(b.lay, k, front, falls));
      ForksMean(b, l, v, n - 1, falls, at + 2, c, end, w, pos);
      HasFirst(b.prog, b.plan, at, cells);
      ForkMeans(b, l, at, c, end, w, pos);
      RanOfSnoc(b.g, l, front, ts[n - 1], c, w);
      PlusOrElse(RanOf(b.g, l, front, c, w), RanVia(b.g, l, ts[n - 1], c, w), pos);
    }
  }

  // ----- jump tables -----

  /** Landing at u, when all walks over the bytes to come, and over those after the next, are right. */
  lemma LandingMeans(b: Build, l: nat, u: nat, c: nat, end: nat, w: seq<Byte>, pos: nat)
    requires Ready(b) && Wired(b.g) && 0 < u < |b.g.vertices| == |b.lay.start|
    requires AllWalk(b, l, w) && (w != [] ==> AllWalk(b, l, w[1..]))
    ensures Landing(b.g, b.lay, u) < |b.prog.code|
    ensures B.Backtrack(b.prog, b.plan, l, Landing(b.g, b.lay, u), c, end, w, pos)
         == Plus(Ran(b.g, l, u, Enter(b.g, u, c), w), pos)
  {
    hide *;
    ReadyUse(b);
    CompleteUse(b);
    LandingIs(b.g, b.lay, u);
    AtEntry(b, u);
    EntryInCode(b, u);
    if Shortcut(b.g, u) {
      ShortcutIs(b.g, u);
      ChildNotInitial(b.g, u, 0);
      ViaMeans(b, l, b.g.out[u][0], c, end, w, pos);
      ShortcutRuns(b.g, l, u, c, w);
    } else {
      WalksUse(b, l, u, c, end, w, pos);
    }
  }

  lemma ShortcutRuns(g: Nfa, l: nat, u: nat, c: nat, w: seq<Byte>)
    requires Wired(g) && u < |g.vertices| && u < |g.out| && Shortcut(g, u) && g.out[u][0] < |g.vertices|
    ensures Ran(g, l, u, Enter(g, u, c), w) == RanVia(g, l, g.out[u][0], c, w)
  {
    OutWithinAll(g, u);
    RanOfIs(g, l, g.out[u], c, w);
    hide RanVia, RanOf, Wired;
  }

  /** The walks from the vertices of ts, none of whose byte tests is left to do. */
  ghost function RanAll(g: Nfa, l: nat, ts: seq<nat>, c: nat, w: seq<Byte>): Option<nat>
    requires Wired(g) && Within(g, ts)
  {
    if ts == [] then None
    else OrElse(RanAll(g, l, ts[..|ts| - 1], c, w), Ran(g, l, ts[|ts| - 1], Enter(g, ts[|ts| - 1], c), w))
  }

  lemma RanAllIs(g: Nfa, l: nat, ts: seq<nat>, c: nat, w: seq<Byte>)
    requires Wired(g) && Within(g, ts)
    ensures ts == [] ==> RanAll(g, l, ts, c, w) == None
    ensures ts != [] ==>
              Within(g, ts[..|ts| - 1]) && ts[|ts| - 1] < |g.vertices|
              && RanAll(g, l, ts, c, w)
                 == OrElse(RanAll(g, l, ts[..|ts| - 1], c, w), Ran(g, l, ts[|ts| - 1], Enter(g, ts[|ts| - 1], c), w))
  {
    hide Ran, Enter, Wired;
  }

  ghost predicate NotInitial(ts: seq<nat>) {
    forall i :: 0 <= i < |ts| ==> ts[i] != 0
  }

  lemma NotInitialFront(ts: seq<nat>)
    requires ts != [] && NotInitial(ts)
    ensures NotInitial(ts[..|ts| - 1]) && ts[|ts| - 1] != 0
  {
  }

  lemma {:induction false} BlockMeans(b: Build, l: nat, k: B.Kind, ts: seq<nat>, at: nat, c: nat, end: nat, w: seq<Byte>, pos: nat)
    requires Ready(b) && Wired(b.g) && |b.g.vertices| == |b.lay.start|
    requires AllWalk(b, l, w) && (w != [] ==> AllWalk(b, l, w[1..]))
    requires ts != [] && Within(b.g, ts) && NotInitial(ts)
    requires Has(b.prog, b.plan, at, BlockCells(b.g, b.lay, k, ts))
    ensures at < |b.prog.code|
    ensures B.Backtrack(b.prog, b.plan, l, at, c, end, w, pos) == Plus(RanAll(b.g, l, ts, c, w), pos)
    decreases |ts|
  {
    hide *;
    ReadyUse(b);
    BlockRest(b, k, ts, at);
    HasFirst(b.prog, b.plan, at, BlockHead(b.g, b.lay, k, ts));
    NotInitialFront(ts);
    WithinFront(b.g, ts);
    var u := ts[|ts| - 1];
    var front := ts[..|ts| - 1];
    LandingMeans(b, l, u, c, end, w, pos);
    RanAllIs(b.g, l, ts, c, w);
    if |ts| > 1 {
      BlockMeans(b, l, k, front, at + 2, c, end, w, pos);
      ForkMeans(b, l, at, c, end, w, pos);
      PlusOrElse(RanAll(b.g, l, front, c, w), Ran(b.g, l, u, Enter(b.g, u, c), w), pos);
    } else {
      assert front == [];
      RanAllIs(b.g, l, front, c, w);
      JumpMeans(b, l, at, c, end, w, pos);
      OrElseNone(Ran(b.g, l, u, Enter(b.g, u, c), w));
    }
  }

  lemma OrElseNone(a: Option<nat>)
    ensures OrElse(None, a) == a
  {
  }

  /** Later occurrences of a vertex never matter, nor do vertices that do not permit the byte. */
  lemma {:induction false} RanOfIsAll(g: Nfa, l: nat, ts: seq<nat>, c: nat, w: seq<Byte>)
    requires Wired(g) && Within(g, ts) && w != []
    ensures Within(g, Dedup(Via(g, ts, w[0])))
    ensures RanOf(g, l, ts, c, w) == Later(RanAll(g, l, Dedup(Via(g, ts, w[0])), c, w[1..]))
    decreases |ts|
  {
    var x := w[0];
    DedupViaWithin(g, ts, x);
    if ts == [] {
    } else {
      var front, t := ts[..|ts| - 1], ts[|ts| - 1];
      assert ts == front + [t];
      RanOfIsAll(g, l, front, c, w);
      RanOfSnoc(g, l, front, t, c, w);
      ViaSnoc(g, front, t, x);
      var via := Via(g, front, x);
      if Permits(g, t, x) {
        DedupSnoc(via, t);
        var d := Dedup(via);
        if t in via {
          RanAllSome(g, l, d, t, c, w[1..]);
        } else {
          assert (d + [t])[..|d|] == d;
        }
      } else {
        assert Via(g, ts, x) == via;
      }
    }
  }

  lemma DedupViaWithin(g: Nfa, ts: seq<nat>, x: Byte)
    ensures Within(g, Dedup(Via(g, ts, x)))
  {
    var d := Dedup(Via(g, ts, x));
    forall i | 0 <= i < |d| ensures d[i] < |g.vertices| {
      assert d[i] in Via(g, ts, x);
    }
  }

  lemma {:induction false} RanAllSome(g: Nfa, l: nat, ts: seq<nat>, t: nat, c: nat, w: seq<Byte>)
    requires Wired(g) && Within(g, ts) && t in ts && t < |g.vertices|
    ensures Ran(g, l, t, Enter(g, t, c), w).Some? ==> RanAll(g, l, ts, c, w).Some?
    decreases |ts|
  {
    if t != ts[|ts| - 1] {
      assert t in ts[..|ts| - 1];
      RanAllSome(g, l, ts[..|ts| - 1], t, c, w);
    }
  }

  /** A table sends a thread to the entry of its byte. */
  lemma TableSteps(b: Build, k: B.Kind, tbl: seq<seq<nat>>, at: nat, x: Byte)
    requires Wired(b.g) && |b.lay.start| == |b.g.vertices| && TableWithin(b.g, tbl) && |tbl| == 256
    requires FirstUsed(tbl, 0) <= LastUsed(tbl, 256)
    requires Has(b.prog, b.plan, at, TableCells(b.g, b.lay, k, tbl, at))
    ensures at < |b.prog.code| && Tests(b.prog.code[at])
    ensures B.ByteStep(b.prog.code, at, x)
         == if tbl[x] != [] && Entry(b.g, b.lay, tbl, at, x) != 0 then Some(Entry(b.g, b.lay, tbl, at, x)) else None
  {
    hide *;
    var cells := TableCells(b.g, b.lay, k, tbl, at);
    var first, last := FirstUsed(tbl, 0), LastUsed(tbl, 256);
    TableShape(b.g, b.lay, k, tbl, at);
    HasFirst(b.prog, b.plan, at, cells);
    EntryShape(b.g, b.lay, tbl, at, x);
    if first <= x <= last {
      assert cells[1 + (x - first)] == Cell(B.Raw(Entry(b.g, b.lay, tbl, at, x)), B.Slot(0, k, false));
      HasAt(b.prog, b.plan, at, cells, 1 + (x - first));
    }
    TableByte(b.prog.code, at, first, last, x, Entry(b.g, b.lay, tbl, at, x));
  }

  lemma TableByte(code: seq<B.Word>, at: nat, first: Byte, last: Byte, x: Byte, e: nat)
    requires at < |code| && code[at] == B.JumpTableRange(first, last)
    requires first <= x <= last ==> at + 1 + (x - first) < |code| && code[at + 1 + (x - first)] == B.Raw(e)
    ensures Tests(code[at])
    ensures B.ByteStep(code, at, x) == if first <= x <= last && e != 0 then Some(e) else None
  {
  }

  /**
   A vertex is written at address 0 exactly if the one edge of the initial vertex leads
   to it.
   */
  lemma StartIsZero(g: Nfa, lay: Layout, kv: seq<Option<nat>>, u: nat)
    requires Fits(g, lay, kv) && Tiled(g, lay, kv) && Apart(g, lay, kv) && 0 < u < |g.vertices|
    requires g.out[0] != [] && g.out[0][0] != 0
    ensures u < |lay.start|
    ensures lay.start[u] == 0 <==> |g.out[0]| == 1 && g.out[0][0] == u
  {
    hide *;
    FirstChild(g, lay, kv);
    InitialFirst(g, lay, kv);
    SizesPositive(g, lay, kv, u);
    StartsDiffer(g, lay, kv, 0, u);
    SizeOfInitial(g, lay, kv);
    InitialSize(g, lay, kv);
    SizesPositive(g, lay, kv, g.out[0][0]);
    if u != g.out[0][0] {
      StartsDiffer(g, lay, kv, u, g.out[0][0]);
    }
  }

  lemma FirstChild(g: Nfa, lay: Layout, kv: seq<Option<nat>>)
    requires Fits(g, lay, kv) && 0 < |g.vertices| && g.out[0] != []
    ensures |lay.rank| == |lay.start| == |g.vertices| == |g.out| && g.out[0][0] < |g.vertices|
  {
    assert Within(g, g.out[0]);
  }

  /** Without code for its edges, the initial vertex falls through to its child at address 0. */
  lemma InitialFirst(g: Nfa, lay: Layout, kv: seq<Option<nat>>)
    requires Fits(g, lay, kv) && Tiled(g, lay, kv) && 0 < |g.vertices|
    ensures 0 < |lay.start| && 0 < |lay.rank| && lay.start[0] == 0
    ensures |g.out[0]| == 1 && g.out[0][0] < |lay.rank| ==> Falls(g, lay, 0)
    ensures g.out[0] != [] && g.out[0][0] < |lay.start| == |lay.rank| && Falls(g, lay, 0) ==> SnippetSize(g, lay, kv, 0) == lay.start[g.out[0][0]]
  {
    hide SnippetSize, Owned;
  }

  lemma InitialSize(g: Nfa, lay: Layout, kv: seq<Option<nat>>)
    requires Fits(g, lay, kv) && 0 < |g.vertices| && g.out[0] != [] && g.out[0][0] < |lay.rank|
    ensures EdgeSize(g, lay, kv, 0) == 0 <==> |g.out[0]| == 1 && Falls(g, lay, 0)
  {
    if UsesTable(g, 0) {
      assert CountedSize(Pivot(g, 0)) > 0;
    }
    hide Pivot, UsesTable, CountedSize;
  }

  lemma SizesPositive(g: Nfa, lay: Layout, kv: seq<Option<nat>>, u: nat)
    requires Fits(g, lay, kv) && 0 < u < |g.vertices|
    ensures SnippetSize(g, lay, kv, u) > 0
  {
    hide EdgeSize;
  }

  /** Two snippets that are not empty begin at different addresses. */
  lemma StartsDiffer(g: Nfa, lay: Layout, kv: seq<Option<nat>>, u: nat, v: nat)
    requires Fits(g, lay, kv) && Apart(g, lay, kv) && u < |g.vertices| && v < |g.vertices| && u != v
    ensures u < |lay.start| && v < |lay.start|
    ensures SnippetSize(g, lay, kv, u) > 0 && SnippetSize(g, lay, kv, v) > 0 ==> lay.start[u] != lay.start[v]
  {
    hide SnippetSize;
  }

  lemma SizeOfInitial(g: Nfa, lay: Layout, kv: seq<Option<nat>>)
    requires Fits(g, lay, kv) && 0 < |g.vertices|
    ensures SnippetSize(g, lay, kv, 0) == EdgeSize(g, lay, kv, 0)
  {
    hide EdgeSize;
  }

  /** A landing is 0 exactly if the table then loses the byte. */
  lemma ZeroLandingExactly(g: Nfa, lay: Layout, kv: seq<Option<nat>>, t: nat)
    requires Fits(g, lay, kv) && Tiled(g, lay, kv) && Apart(g, lay, kv) && Compilable(g) && Wired(g) && 0 < t < |g.vertices|
    ensures |lay.start| == |g.vertices| && (Landing(g, lay, t) == 0 <==> Lost(g, t))
  {
    hide *;
    OutThere(g);
    FirstChild(g, lay, kv);
    ChildNotInitial(g, 0, 0);
    LandingIs(g, lay, t);
    LostIs(g, t);
    if Shortcut(g, t) {
      ShortcutIs(g, t);
      ChildNotInitial(g, t, 0);
      StartIsZero(g, lay, kv, g.out[t][0]);
    } else {
      EntryIs(g, lay, t);
      EvalNotZero(g, t);
    }
  }

  lemma OutThere(g: Nfa)
    requires Compilable(g)
    ensures 0 < |g.vertices| == |g.out| && g.out[0] != []
  {
  }

  lemma LostIs(g: Nfa, t: nat)
    requires Wired(g) && t < |g.vertices|
    ensures t < |g.out| && 0 < |g.out|
    ensures Lost(g, t) <==> |g.out[0]| == 1 && Shortcut(g, t) && |g.out[t]| == 1 && g.out[t][0] == g.out[0][0]
  {
  }

  lemma EvalNotZero(g: Nfa, u: nat)
    requires 0 < u < |g.vertices|
    ensures NumEval(g, u) > 0
  {
  }

  lemma PivotRow(g: Nfa, v: nat, x: Byte)
    requires Compilable(g) && v < |g.out|
    ensures Wired(g) && |Pivot(g, v)| == 256 && Pivot(g, v)[x] == Dedup(Via(g, g.out[v], x))
    ensures Within(g, Pivot(g, v)[x]) && NotInitial(Pivot(g, v)[x])
  {
    PivotOut(g, v);
    var row := Pivot(g, v)[x];
    assert AllOut(g, v, row);
    assert Within(g, row);
    forall i | 0 <= i < |row| ensures row[i] != 0 {
      assert row[i] in g.out[v];
      var j: nat :| j < |g.out[v]| && g.out[v][j] == row[i];
      ChildNotInitial(g, v, j);
    }
  }

  lemma OneWalk(g: Nfa, l: nat, ts: seq<nat>, c: nat, w: seq<Byte>)
    requires Wired(g) && Within(g, ts) && |ts| == 1
    ensures ts[0] < |g.vertices| && RanAll(g, l, ts, c, w) == Ran(g, l, ts[0], Enter(g, ts[0], c), w)
  {
    hide Wired, Ran, Enter;
    assert ts[..0] == [];
    assert RanAll(g, l, ts[..0], c, w) == None;
  }

  lemma LosesIs(g: Nfa, v: nat, x: Byte)
    requires Wired(g) && v < |g.out|
    ensures Loses(g, v, x) <==> UsesTable(g, v) && |Pivot(g, v)[x]| == 1 && Pivot(g, v)[x][0] < |g.vertices| && Lost(g, Pivot(g, v)[x][0])
  {
    hide UsesTable, Pivot, Lost;
  }

  /** The entry of byte x in the table of v. */
  lemma EntryMeans(b: Build, l: nat, v: nat, at: nat, x: Byte, c: nat, end: nat, w: seq<Byte>, pos: nat)
    requires Ready(b) && Wired(b.g) && v < |b.g.out| && v < |b.kv| && |b.g.vertices| == |b.lay.start|
    requires AllWalk(b, l, w) && (w != [] ==> AllWalk(b, l, w[1..]))
    requires TableWithin(b.g, Pivot(b.g, v)) && FirstUsed(Pivot(b.g, v), 0) <= LastUsed(Pivot(b.g, v), 256)
    requires Has(b.prog, b.plan, at, TableCells(b.g, b.lay, KindOf(b.kv[v]), Pivot(b.g, v), at))
    requires UsesTable(b.g, v) && Pivot(b.g, v)[x] != [] && Within(b.g, Pivot(b.g, v)[x])
    ensures var q := Entry(b.g, b.lay, Pivot(b.g, v), at, x);
            && q < |b.prog.code| && (q == 0 <==> Loses(b.g, v, x))
            && B.Backtrack(b.prog, b.plan, l, q, c, end, w, pos) == Plus(RanAll(b.g, l, Pivot(b.g, v)[x], c, w), pos)
  {
    hide *;
    ReadyUse(b);
    CompleteUse(b);
    PivotRow(b.g, v, x);
    var tbl := Pivot(b.g, v);
    var row := tbl[x];
    EntryShape(b.g, b.lay, tbl, at, x);
    LosesIs(b.g, v, x);
    NotInitialFront(row);
    WithinFront(b.g, row);
    if |row| == 1 {
      LandingMeans(b, l, row[0], c, end, w, pos);
      ZeroLandingExactly(b.g, b.lay, b.kv, row[0]);
      OneWalk(b.g, l, row, c, w);
    } else {
      TableBlock(b, KindOf(b.kv[v]), tbl, at, x);
      BlockMeans(b, l, KindOf(b.kv[v]), row, at + 2 + (LastUsed(tbl, 256) - FirstUsed(tbl, 0)) + 2 * IndirectSize(tbl, x), c, end, w, pos);
    }
  }

  /** What trying the edges of v comes to. */
  ghost function RanOut(g: Nfa, l: nat, v: nat, c: nat, w: seq<Byte>): Option<nat>
    requires Wired(g) && v < |g.out| && Within(g, g.out[v])
  {
    if w != [] && Loses(g, v, w[0]) then None else RanOf(g, l, g.out[v], c, w)
  }

  lemma RanOutIs(g: Nfa, l: nat, v: nat, c: nat, w: seq<Byte>)
    requires Wired(g) && v < |g.out| && Within(g, g.out[v])
    ensures RanOut(g, l, v, c, w) == if w != [] && Loses(g, v, w[0]) then None else RanOf(g, l, g.out[v], c, w)
    ensures w != [] && Loses(g, v, w[0]) ==> UsesTable(g, v)
  {
    hide RanOf, UsesTable;
  }

  lemma TableMeans(b: Build, l: nat, v: nat, at: nat, c: nat, end: nat, w: seq<Byte>, pos: nat)
    requires Ready(b) && Wired(b.g) && v < |b.g.out| && v < |b.kv| && |b.g.vertices| == |b.lay.start| && Within(b.g, b.g.out[v])
    requires w != [] ==> AllWalk(b, l, w[1..]) && (w[1..] != [] ==> AllWalk(b, l, w[1..][1..]))
    requires TableWithin(b.g, Pivot(b.g, v)) && FirstUsed(Pivot(b.g, v), 0) <= LastUsed(Pivot(b.g, v), 256)
    requires UsesTable(b.g, v) && Has(b.prog, b.plan, at, TableCells(b.g, b.lay, KindOf(b.kv[v]), Pivot(b.g, v), at))
    ensures at < |b.prog.code|
    ensures B.Backtrack(b.prog, b.plan, l, at, c, end, w, pos) == Plus(RanOut(b.g, l, v, c, w), pos)
  {
    hide *;
    ReadyUse(b);
    CompleteUse(b);
    var tbl := Pivot(b.g, v);
    var x: Byte := if w != [] then w[0] else 0;
    PivotRow(b.g, v, x);
    TableSteps(b, KindOf(b.kv[v]), tbl, at, x);
    TestMeans(b, l, at, c, end, w, pos);
    PlusNone(pos);
    RanOutIs(b.g, l, v, c, w);
    LosesIs(b.g, v, x);
    if w == [] {
      NoBytesNoRan(b.g, l, b.g.out[v], c);
    } else {
      RanOfIsAll(b.g, l, b.g.out[v], c, w);
      PlusLater(RanAll(b.g, l, tbl[x], c, w[1..]), pos);
      RanAllIs(b.g, l, tbl[x], c, w[1..]);
      LaterNone();
      if tbl[x] != [] {
        EntryMeans(b, l, v, at, x, c, end, w[1..], pos + 1);
      }
    }
  }

  lemma LaterNone()
    ensures Later(None) == None
  {
  }

  lemma {:induction false} NoBytesNoRan(g: Nfa, l: nat, ts: seq<nat>, c: nat)
    requires Wired(g) && Within(g, ts)
    ensures RanOf(g, l, ts, c, []) == None
    decreases |ts|
  {
    if ts != [] {
      NoBytesNoRan(g, l, ts[1..], c);
    }
  }

  // ----- gates and edges -----

  lemma EdgesMean(b: Build, l: nat, v: nat, c: nat, end: nat, w: seq<Byte>, pos: nat)
    requires Ready(b) && Wired(b.g) && v < |b.g.vertices| == |b.g.out| && b.g.out[v] != [] && Within(b.g, b.g.out[v])
    requires w != [] ==> AllWalk(b, l, w[1..]) && (w[1..] != [] ==> AllWalk(b, l, w[1..][1..]))
    requires Fits(b.g, b.lay, b.kv) && v < |b.lay.start|
    ensures var m := EntryOf(b.g, b.lay, v) + |GateCells(b.g, b.lay, b.kv, v)|;
            && m < |b.prog.code|
            && B.Backtrack(b.prog, b.plan, l, m, c, end, w, pos) == Plus(RanOut(b.g, l, v, c, w), pos)
  {
    hide *;
    ReadyUse(b);
    CompleteUse(b);
    SnippetParts(b, v);
    var m := EntryOf(b.g, b.lay, v) + |GateCells(b.g, b.lay, b.kv, v)|;
    EdgeShape(b, v, m);
    if UsesTable(b.g, v) {
      TableMeans(b, l, v, m, c, end, w, pos);
    } else {
      RanOutIs(b.g, l, v, c, w);
      var n := |b.g.out[v]|;
      assert b.g.out[v][..n] == b.g.out[v];
      ForksMean(b, l, v, n, Falls(b.g, b.lay, v), m, c, end, w, pos);
    }
  }

  /** The code of a match: MATCH, then the successors, then FINISH. */
  lemma MatchCellsMean(b: Build, l: nat, v: nat, k: B.Kind, left: nat, at: nat, c: nat, end: nat, w: seq<Byte>, pos: nat)
    requires B.Sound(b.prog, b.plan) && v < |b.g.vertices| && v < |b.g.out| && |b.prog.code| == b.lay.guard + 2
    requires Has(b.prog, b.plan, at, MatchCells(b.g, b.lay, k, v, left)) && b.prog.code[b.lay.guard + 1] == B.Finish
    requires v != 0 && b.g.vertices[v].isMatch
    ensures at < |b.prog.code|
    ensures b.g.out[v] != [] ==> at + |MatchCells(b.g, b.lay, k, v, left)| < |b.prog.code|
    ensures var m := at + |MatchCells(b.g, b.lay, k, v, left)|;
            var here := if c == l then Some(pos) else None;
            B.Backtrack(b.prog, b.plan, l, at, c, end, w, pos)
            == if b.g.out[v] == [] then here else OrElse(B.Backtrack(b.prog, b.plan, l, m, c, pos, w, pos), here)
  {
    var cells := MatchCells(b.g, b.lay, k, v, left);
    assert cells[0].word == B.Match;
    assert cells[1].word == if b.g.out[v] == [] then B.Finish else B.Fork(b.lay.guard + 1);
    assert |cells| == if b.g.out[v] == [] then 2 else 3;
    hide *;
    HasAt(b.prog, b.plan, at, cells, 0);
    HasAt(b.prog, b.plan, at, cells, 1);
    MatchMeans(b, l, at, c, end, w, pos);
    if b.g.out[v] == [] {
      FinishMeans(b, l, at + 1, c, pos, w, pos);
    } else {
      ForkMeans(b, l, at + 1, c, pos, w, pos);
      FinishMeans(b, l, b.lay.guard + 1, c, pos, w, pos);
    }
  }

  /** Labels and locks only pass the thread on. */
  lemma LabelCellsMean(b: Build, l: nat, v: nat, left: nat, at: nat, c: nat, end: nat, w: seq<Byte>, pos: nat)
    requires B.Sound(b.prog, b.plan) && 0 < v < |b.g.vertices| && Has(b.prog, b.plan, at, LabelCells(b.g, v, left))
    requires at < |b.prog.code| && at + |LabelCells(b.g, v, left)| < |b.prog.code|
    ensures B.Backtrack(b.prog, b.plan, l, at, c, end, w, pos)
         == B.Backtrack(b.prog, b.plan, l, at + |LabelCells(b.g, v, left)|, Enter(b.g, v, c), end, w, pos)
  {
    if b.g.vertices[v].lbl != NOLABEL {
      assert LabelCells(b.g, v, left)[0].word == B.Label(b.g.vertices[v].lbl);
      hide B.Sound;
      LabelMeans(b, l, at, c, end, w, pos);
    }
  }

  lemma CheckCellsMean(b: Build, l: nat, v: nat, k: B.Kind, left: nat, at: nat, c: nat, end: nat, w: seq<Byte>, pos: nat)
    requires B.Sound(b.prog, b.plan) && 0 < v < |b.lay.check| && Has(b.prog, b.plan, at, CheckCells(b.lay, k, v, left))
    requires at < |b.prog.code| && at + |CheckCells(b.lay, k, v, left)| < |b.prog.code|
    ensures B.Backtrack(b.prog, b.plan, l, at, c, end, w, pos)
         == B.Backtrack(b.prog, b.plan, l, at + |CheckCells(b.lay, k, v, left)|, c, end, w, pos)
  {
    if b.lay.check[v].Some? {
      assert CheckCells(b.lay, k, v, left)[0].word == B.CheckHalt(b.lay.check[v].value);
      hide B.Sound;
      CheckMeans(b, l, at, c, end, w, pos);
    }
  }

  lemma NoMatchNoCells(g: Nfa, lay: Layout, k: B.Kind, v: nat, left: nat)
    requires v < |g.vertices| && v < |g.out| && (v == 0 || !g.vertices[v].isMatch)
    ensures MatchCells(g, lay, k, v, left) == []
  {
  }

  /** What a thread does at v before the edges. */
  lemma GatesMean(b: Build, l: nat, v: nat, c: nat, end: nat, w: seq<Byte>, pos: nat)
    requires Ready(b) && 0 < v < |b.g.vertices|
    ensures Fits(b.g, b.lay, b.kv) && v < |b.lay.start| && v < |b.g.out|
    ensures var e := EntryOf(b.g, b.lay, v);
            var m := e + |GateCells(b.g, b.lay, b.kv, v)|;
            var c' := Enter(b.g, v, c);
            var here := if c' == l then Some(pos) else None;
            && e < |b.prog.code| && (b.g.out[v] != [] ==> m < |b.prog.code|)
            && (!b.g.vertices[v].isMatch ==> b.g.out[v] != [])
            && B.Backtrack(b.prog, b.plan, l, e, c, end, w, pos)
               == if b.g.vertices[v].isMatch then
                    if b.g.out[v] == [] then here else OrElse(B.Backtrack(b.prog, b.plan, l, m, c', pos, w, pos), here)
                  else B.Backtrack(b.prog, b.plan, l, m, c', end, w, pos)
  {
    hide *;
    ReadyUse(b);
    CompleteUse(b);
    LimitsUse(b);
    SnippetParts(b, v);
    AtEntry(b, v);
    EntryInCode(b, v);
    VertexFacts(b.g, b.kv, v);
    GateShape(b.g, b.lay, b.kv, v);
    var left := EdgeSize(b.g, b.lay, b.kv, v);
    var k := KindOf(b.kv[v]);
    var ms := MatchCells(b.g, b.lay, k, v, left);
    var cs := CheckCells(b.lay, k, v, left + |ms|);
    var ls := LabelCells(b.g, v, left + |ms| + |cs|);
    var e := EntryOf(b.g, b.lay, v);
    var c' := Enter(b.g, v, c);
    HasSplit(b.prog, b.plan, e, ls + cs, ms);
    HasSplit(b.prog, b.plan, e, ls, cs);
    var m := e + |GateCells(b.g, b.lay, b.kv, v)|;
    assert m <= b.lay.guard < |b.prog.code|;
    LabelCellsMean(b, l, v, left + |ms| + |cs|, e, c, end, w, pos);
    CheckCellsMean(b, l, v, k, left + |ms|, e + |ls|, c', end, w, pos);
    if b.g.vertices[v].isMatch {
      MatchCellsMean(b, l, v, k, left, e + |ls| + |cs|, c', end, w, pos);
    } else {
      NoMatchNoCells(b.g, b.lay, k, v, left);
    }
  }

  lemma RanIs(g: Nfa, l: nat, v: nat, c: nat, w: seq<Byte>)
    requires Wired(g) && v < |g.vertices|
    ensures v < |g.out| && Within(g, g.out[v])
    ensures Ran(g, l, v, c, w) == OrElse(RanOut(g, l, v, c, w), if g.vertices[v].isMatch && c == l then Some(0) else None)
    ensures g.out[v] == [] ==> RanOut(g, l, v, c, w) == None
  {
    hide Loses;
  }

  lemma HereMeans(a: Option<nat>, here: bool, pos: nat)
    ensures Plus(OrElse(a, if here then Some(0) else None), pos) == OrElse(Plus(a, pos), if here then Some(pos) else None)
  {
  }

  lemma VertexWalks(b: Build, l: nat, v: nat, c: nat, end: nat, w: seq<Byte>, pos: nat)
    requires Ready(b) && Wired(b.g) && v < |b.g.vertices| && v < |b.lay.start| && EntryOf(b.g, b.lay, v) < |b.prog.code|
    requires w != [] ==> AllWalk(b, l, w[1..]) && (w[1..] != [] ==> AllWalk(b, l, w[1..][1..]))
    ensures B.Backtrack(b.prog, b.plan, l, EntryOf(b.g, b.lay, v), c, end, w, pos) == Plus(Ran(b.g, l, v, Enter(b.g, v, c), w), pos)
  {
    hide *;
    ReadyUse(b);
    CompleteUse(b);
    var c' := Enter(b.g, v, c);
    RanIs(b.g, l, v, c', w);
    HereMeans(RanOut(b.g, l, v, c', w), b.g.vertices[v].isMatch && c' == l, pos);
    if v == 0 {
      InitialShape(b);
      InitialEnters(b.g, c);
      EdgesMean(b, l, v, c', end, w, pos);
    } else {
      GatesMean(b, l, v, c, end, w, pos);
      if b.g.out[v] != [] {
        EdgesMean(b, l, v, c', if b.g.vertices[v].isMatch then pos else end, w, pos);
      } else {
        PlusNone(pos);
      }
    }
    OrElseLast();
  }

  lemma OrElseLast()
    ensures forall a: Option<nat> :: OrElse(a, None) == a
    ensures forall a: Option<nat> :: OrElse(None, a) == a
  {
  }

  lemma InitialEnters(g: Nfa, c: nat)
    requires Compilable(g)
    ensures 0 < |g.vertices| && Enter(g, 0, c) == c && !g.vertices[0].isMatch
  {
  }

  lemma {:induction false} EverythingWalks(b: Build, l: nat, w: seq<Byte>)
    requires Ready(b) && Wired(b.g)
    ensures AllWalk(b, l, w)
    decreases |w|
  {
    hide *;
    if w != [] {
      EverythingWalks(b, l, w[1..]);
      if w[1..] != [] {
        EverythingWalks(b, l, w[1..][1..]);
      }
    }
    forall v: nat | v < |b.g.vertices| && v < |b.lay.start| && EntryOf(b.g, b.lay, v) < |b.prog.code| ensures Walks(b, l, v, w) {
      OneWalks(b, l, v, w);
    }
    AllWalkBy(b, l, w);
  }

  lemma OneWalks(b: Build, l: nat, v: nat, w: seq<Byte>)
    requires Ready(b) && Wired(b.g) && v < |b.g.vertices| && v < |b.lay.start| && EntryOf(b.g, b.lay, v) < |b.prog.code|
    requires w != [] ==> AllWalk(b, l, w[1..]) && (w[1..] != [] ==> AllWalk(b, l, w[1..][1..]))
    ensures Walks(b, l, v, w)
  {
    ReadyUse(b);
    hide AllWalk, Ready, Wired, EntryOf, Plus, Ran, Enter, B.Sound;
    forall c: nat, end: nat, pos: nat
      ensures B.Backtrack(b.prog, b.plan, l, EntryOf(b.g, b.lay, v), c, end, w, pos) == Plus(Ran(b.g, l, v, Enter(b.g, v, c), w), pos)
    {
      VertexWalks(b, l, v, c, end, w, pos);
    }
  }

  lemma AllWalkBy(b: Build, l: nat, w: seq<Byte>)
    requires Ready(b) && Wired(b.g)
    requires forall v: nat :: v < |b.g.vertices| && v < |b.lay.start| && EntryOf(b.g, b.lay, v) < |b.prog.code| ==> Walks(b, l, v, w)
    ensures AllWalk(b, l, w)
  {
    hide Walks, Ready, Wired, EntryOf;
  }

  /** From its first word, a program prefers what the automaton prefers without the bytes that its tables lose. */
  lemma CompiledMeans(b: Build, l: nat, w: seq<Byte>, end: nat, pos: nat)
    requires Complete(b)
    ensures B.Sound(b.prog, b.plan) && 0 < |b.prog.code| && Wired(b.g)
    ensures B.Backtrack(b.prog, b.plan, l, 0, NOLABEL, end, w, pos) == Plus(Ran(b.g, l, 0, NOLABEL, w), pos)
  {
    hide *;
    CompiledIsSound(b);
    CompleteUse(b);
    LimitsUse(b);
    InitialShape(b);
    ReadyBy(b);
    EverythingWalks(b, l, w);
    WalksUse(b, l, 0, NOLABEL, end, w, pos);
    InitialEnters(b.g, NOLABEL);
  }

  /** Compilation preserves meaning where nothing is lost. */
  lemma MeaningIsKept(b: Build, l: nat, w: seq<Byte>, end: nat, pos: nat)
    requires Complete(b) && Wired(b.g) && Lossless(b.g)
    ensures B.Sound(b.prog, b.plan) && 0 < |b.prog.code|
    ensures B.Backtrack(b.prog, b.plan, l, 0, NOLABEL, end, w, pos) == Plus(Carry(b.g, l, 0, NOLABEL, w), pos)
  {
    hide *;
    CompiledMeans(b, l, w, end, pos);
    CompleteUse(b);
    InitialShape(b);
    RanIsCarry(b.g, l, 0, NOLABEL, w);
  }

  /** From where v is entered, the program prefers what the automaton prefers, on every input. */
  ghost predicate Faithful(b: Build, v: nat)
    requires Ready(b) && Wired(b.g) && v < |b.g.vertices|
  {
    && v < |b.lay.start| && EntryOf(b.g, b.lay, v) < |b.prog.code|
    && forall l: nat, c: nat, end: nat, w: seq<Byte>, pos: nat ::
      B.Backtrack(b.prog, b.plan, l, EntryOf(b.g, b.lay, v), c, end, w, pos) == Plus(Carry(b.g, l, v, Enter(b.g, v, c), w), pos)
  }

  /** Compilation preserves meaning at every vertex exactly if no table loses a byte. */
  lemma FaithfulExactly(b: Build)
    requires Complete(b) && Wired(b.g) && (forall v: nat :: v < |b.g.vertices| ==> Leads(b.g, v))
    ensures Ready(b)
    ensures (forall v: nat :: v < |b.g.vertices| ==> Faithful(b, v)) <==> Lossless(b.g)
  {
    hide *;
    CompiledIsSound(b);
    ReadyBy(b);
    if Lossless(b.g) {
      forall v: nat | v < |b.g.vertices| ensures Faithful(b, v) {
        AtEntry(b, v);
        EntryInCode(b, v);
        LosslessFaithful(b, v);
      }
    } else {
      var v, x := SomeLoss(b.g);
      AtEntry(b, v);
      EntryInCode(b, v);
      CompleteUse(b);
      FruitfulBy(b.g);
      var l, w := LossShows(b.g, v, x, Enter(b.g, v, 0));
      EverythingWalks(b, l, w);
      WalksUse(b, l, v, 0, 0, w, 0);
      PlusApart(Ran(b.g, l, v, Enter(b.g, v, 0), w), Carry(b.g, l, v, Enter(b.g, v, 0), w));
      FaithfulUse(b, v, l, w);
    }
  }

  lemma LosslessFaithful(b: Build, v: nat)
    requires Ready(b) && Wired(b.g) && v < |b.g.vertices| && v < |b.lay.start| && EntryOf(b.g, b.lay, v) < |b.prog.code|
    requires Lossless(b.g)
    ensures Faithful(b, v)
  {
    ReadyUse(b);
    hide AllWalk, Ready, Wired, EntryOf, Plus, Carry, Ran, Lossless, Enter, B.Sound;
    forall l: nat, c: nat, end: nat, w: seq<Byte>, pos: nat
      ensures B.Backtrack(b.prog, b.plan, l, EntryOf(b.g, b.lay, v), c, end, w, pos) == Plus(Carry(b.g, l, v, Enter(b.g, v, c), w), pos)
    {
      EverythingWalks(b, l, w);
      WalksUse(b, l, v, c, end, w, pos);
      RanIsCarry(b.g, l, v, Enter(b.g, v, c), w);
    }
  }

  lemma FaithfulUse(b: Build, v: nat, l: nat, w: seq<Byte>)
    requires Ready(b) && Wired(b.g) && v < |b.g.vertices| && v < |b.lay.start| && EntryOf(b.g, b.lay, v) < |b.prog.code|
    requires B.Backtrack(b.prog, b.plan, l, EntryOf(b.g, b.lay, v), 0, 0, w, 0) != Plus(Carry(b.g, l, v, Enter(b.g, v, 0), w), 0)
    ensures !Faithful(b, v)
  {
    ReadyUse(b);
    hide Ready, Wired, EntryOf, Plus, Carry, Enter, B.Sound, B.Backtrack;
  }

  lemma PlusApart(a: Option<nat>, c: Option<nat>)
    requires a != c
    ensures Plus(a, 0) != Plus(c, 0)
  {
  }

  lemma SomeLoss(g: Nfa) returns (v: nat, x: Byte)
    requires Wired(g) && !Lossless(g)
    ensures v < |g.out| == |g.vertices| && Loses(g, v, x)
  {
    hide Loses;
    v, x :| v < |g.out| && Loses(g, v, x);
  }

  lemma FruitfulBy(g: Nfa)
    requires Compilable(g) && Wired(g) && forall v: nat :: v < |g.vertices| ==> Leads(g, v)
    ensures Fruitful(g)
  {
    hide Leads, SomeByte, Matched, NoRepeats;
  }

  lemma ReadyBy(b: Build)
    requires Complete(b) && B.Sound(b.prog, b.plan)
    ensures Ready(b)
  {
    hide B.Sound, Complete;
  }
}
