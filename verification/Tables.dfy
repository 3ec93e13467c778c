/**
 Which vertices get a jump table and which a lock, told from the automaton and seen in
 the words of the program: those with four successors or more, each byte refused by one
 of them, and those with several in edges (include/codegen.h:60-71,
 src/lib/codegen.cpp:28-54, src/lib/compiler.cpp:60-161).
 */
module Tables {
  import opened Basics
  import opened Automata
  import opened Sequences
  import opened Subsets
  import opened Layouts
  import opened Compiled
  import opened Losses
  import B = Bytecode

  ghost predicate Refused(g: Nfa, ts: seq<nat>, x: Byte)
    requires Within(g, ts)
  {
    exists i: nat :: i < |ts| && !Permits(g, ts[i], x)
  }

  /** Four successors or more, and no byte that all of them permit. */
  ghost predicate Spreads(g: Nfa, v: nat)
    requires Wired(g) && v < |g.out|
  {
    |g.out[v]| >= 4 && forall x: Byte :: Within(g, g.out[v]) && Refused(g, g.out[v], x)
  }

  // ----- the test of calcJumpTableSize -----

  lemma {:induction false} ViaLength(g: Nfa, ts: seq<nat>, x: Byte)
    requires Within(g, ts)
    ensures |Via(g, ts, x)| <= |ts| && (|Via(g, ts, x)| < |ts| <==> Refused(g, ts, x))
    decreases |ts|
  {
    if ts != [] {
      ViaLength(g, ts[1..], x);
      if i: nat :| i < |ts[1..]| && !Permits(g, ts[1..][i], x) {
        assert !Permits(g, ts[i + 1], x);
      }
      if i: nat :| i < |ts| && !Permits(g, ts[i], x) {
        assert i > 0 ==> ts[1..][i - 1] == ts[i];
      }
    }
  }

  lemma {:induction false} ViaDistinct(g: Nfa, ts: seq<nat>, x: Byte)
    requires NoRepeats(ts)
    ensures NoRepeats(Via(g, ts, x))
    decreases |ts|
  {
    if ts != [] {
      assert ts[0] !in ts[1..] by {
        forall i | 0 <= i < |ts[1..]| ensures ts[1..][i] != ts[0] {
          assert ts[1..][i] == ts[i + 1];
        }
      }
      forall i, j | 0 <= i < j < |ts[1..]| ensures ts[1..][i] != ts[1..][j] {
        assert ts[1..][i] == ts[i + 1] && ts[1..][j] == ts[j + 1];
      }
      ViaDistinct(g, ts[1..], x);
      assert ts[0] !in Via(g, ts[1..], x);
    }
  }

  lemma {:induction false} DedupDistinct(s: seq<nat>)
    requires NoRepeats(s)
    ensures Dedup(s) == s
    decreases |s|
  {
    if s != [] {
      DedupDistinct(s[..|s| - 1]);
      assert s == s[..|s| - 1] + [s[|s| - 1]];
    }
  }

  lemma RowLength(g: Nfa, v: nat, x: Byte)
    requires Wired(g) && v < |g.out| && NoRepeats(g.out[v])
    ensures Within(g, g.out[v]) && (|Pivot(g, v)[x]| < |g.out[v]| <==> Refused(g, g.out[v], x))
    ensures Pivot(g, v)[x] == Via(g, g.out[v], x)
  {
    assert Within(g, g.out[v]);
    ViaLength(g, g.out[v], x);
    ViaDistinct(g, g.out[v], x);
    DedupDistinct(Via(g, g.out[v], x));
    hide Via, Refused;
  }

  /** The test is exact, where no successor is there twice. */
  lemma UsesTableExactly(g: Nfa, v: nat)
    requires Wired(g) && v < |g.out| && NoRepeats(g.out[v])
    ensures UsesTable(g, v) <==> Spreads(g, v)
  {
    var tbl := Pivot(g, v);
    forall x: Byte ensures Within(g, g.out[v]) && (|tbl[x]| < |g.out[v]| <==> Refused(g, g.out[v], x)) {
      RowLength(g, v, x);
    }
    var i :| 0 <= i < |tbl| && |tbl[i]| == MaxLen(tbl);
    var x: Byte := i;
    assert |tbl[x]| == MaxLen(tbl);
    hide Pivot, MaxLen, Refused, NoRepeats;
  }

  lemma ThreeNever(g: Nfa, v: nat)
    requires Wired(g) && v < |g.out| && |g.out[v]| <= 3
    ensures !Spreads(g, v)
  {
  }

  /** Four successors on four bytes are enough. */
  lemma FourBytesSpread(g: Nfa, v: nat)
    requires Wired(g) && v < |g.out| && |g.out[v]| == 4 && Within(g, g.out[v])
    requires forall i :: 0 <= i < 4 ==> g.vertices[g.out[v][i]].trans.ByteState?
    requires forall i, j :: 0 <= i < j < 4 ==> g.vertices[g.out[v][i]].trans != g.vertices[g.out[v][j]].trans
    ensures Spreads(g, v)
  {
    var ts := g.out[v];
    forall x: Byte ensures Refused(g, ts, x) {
      assert g.vertices[ts[0]].trans != g.vertices[ts[1]].trans;
      assert !Permits(g, ts[0], x) || !Permits(g, ts[1], x);
    }
  }

  // ----- the words of the program -----

  /** Where the words behind the byte test, the label, the lock and the match of v begin. */
  ghost function Behind(b: Build, v: nat): nat
    requires Fits(b.g, b.lay, b.kv) && v < |b.g.vertices| && v < |b.lay.start|
  {
    EntryOf(b.g, b.lay, v) + |GateCells(b.g, b.lay, b.kv, v)|
  }

  /** In every program, the words for the edges of a vertex are a jump table exactly if its successors spread. */
  lemma TableExactly(b: Build, v: nat)
    requires Complete(b) && v < |b.g.vertices| && v < |b.g.out| && b.g.out[v] != []
    ensures Wired(b.g) && Fits(b.g, b.lay, b.kv) && v < |b.lay.start|
    ensures Behind(b, v) < |b.prog.code| && (b.prog.code[Behind(b, v)].JumpTableRange? <==> Spreads(b.g, v))
  {
    hide *;
    CompleteUse(b);
    SnippetParts(b, v);
    DistinctOut(b.g, v);
    UsesTableExactly(b.g, v);
    BehindIs(b, v);
    var m := Behind(b, v);
    EdgeShape(b, v, m);
    var cells := EdgeCells(b.g, b.lay, b.kv, v, m);
    var k := KindOf(b.kv[v]);
    if UsesTable(b.g, v) {
      TableShape(b.g, b.lay, k, Pivot(b.g, v), m);
      HasFirst(b.prog, b.plan, m, cells);
    } else if |b.g.out[v]| > 1 {
      FirstFork(b.lay, k, b.g.out[v], Falls(b.g, b.lay, v));
      HasFirst(b.prog, b.plan, m, cells);
    } else {
      LastFork(b.lay, k, b.g.out[v], Falls(b.g, b.lay, v));
      ChildNotInitial(b.g, v, 0);
      if Falls(b.g, b.lay, v) {
        AtStart(b, b.g.out[v][0]);
        TestIsNoTable(b.g.vertices[b.g.out[v][0]].trans);
      } else {
        HasFirst(b.prog, b.plan, m, cells);
      }
    }
  }

  lemma BehindIs(b: Build, v: nat)
    requires Fits(b.g, b.lay, b.kv) && v < |b.g.vertices| && v < |b.lay.start|
    ensures Behind(b, v) == EntryOf(b.g, b.lay, v) + |GateCells(b.g, b.lay, b.kv, v)|
  {
  }

  lemma DistinctOut(g: Nfa, v: nat)
    requires Compilable(g) && v < |g.vertices|
    ensures v < |g.out| && NoRepeats(g.out[v])
  {
  }

  lemma TestIsNoTable(t: Transition)
    ensures !TransWord(t).JumpTableRange?
  {
  }

  /** The table begins at the least byte that some successor permits and ends at the greatest, with a word for each byte between. */
  lemma TableSpans(b: Build, v: nat)
    requires Complete(b) && v < |b.g.vertices| && v < |b.g.out| && Wired(b.g) && Spreads(b.g, v)
    ensures Fits(b.g, b.lay, b.kv) && v < |b.lay.start| && Behind(b, v) < |b.prog.code|
    ensures var w := b.prog.code[Behind(b, v)];
            && w.JumpTableRange? && w.first <= w.last
            && SomePermits(b.g, b.g.out[v], w.first) && SomePermits(b.g, b.g.out[v], w.last)
            && (forall x: Byte :: SomePermits(b.g, b.g.out[v], x) ==> w.first <= x <= w.last)
            && Behind(b, v) + 1 + (w.last - w.first) < |b.prog.code|
            && (forall p: nat :: Behind(b, v) < p <= Behind(b, v) + 1 + (w.last - w.first) ==> b.prog.code[p].Raw?)
  {
    hide *;
    SpreadsHasEdges(b.g, v);
    CompleteUse(b);
    SnippetParts(b, v);
    DistinctOut(b.g, v);
    UsesTableExactly(b.g, v);
    BehindIs(b, v);
    var m := Behind(b, v);
    EdgeShape(b, v, m);
    var tbl := Pivot(b.g, v);
    var cells := EdgeCells(b.g, b.lay, b.kv, v, m);
    TableShape(b.g, b.lay, KindOf(b.kv[v]), tbl, m);
    HasFirst(b.prog, b.plan, m, cells);
    UsedRange(b.g, v);
    var first, last := FirstUsed(tbl, 0), LastUsed(tbl, 256);
    TableLength(tbl, first, last, |cells|);
    forall p: nat | m < p <= m + 1 + (last - first) ensures p < |b.prog.code| && b.prog.code[p].Raw? {
      var x: Byte := first + (p - m - 1);
      assert cells[1 + (x - first)] == Cell(B.Raw(Entry(b.g, b.lay, tbl, m, x)), B.Slot(0, KindOf(b.kv[v]), false));
      HasAt(b.prog, b.plan, m, cells, p - m);
    }
    HasAt(b.prog, b.plan, m, cells, 1 + (last - first));
  }

  lemma TableLength(tbl: seq<seq<nat>>, first: nat, last: nat, n: nat)
    requires |tbl| == 256 && n == 2 + (last - first) + 2 * IndirectSize(tbl, 256) && first <= last
    ensures 1 + (last - first) < n
  {
  }

  lemma SpreadsHasEdges(g: Nfa, v: nat)
    requires Wired(g) && v < |g.out| && Spreads(g, v)
    ensures g.out[v] != []
  {
  }

  ghost predicate SomePermits(g: Nfa, ts: seq<nat>, x: Byte) {
    exists t: nat :: t in ts && t < |g.vertices| && Permits(g, t, x)
  }

  lemma UsedRange(g: Nfa, v: nat)
    requires Wired(g) && v < |g.out| && FirstUsed(Pivot(g, v), 0) <= LastUsed(Pivot(g, v), 256)
    ensures var first, last := FirstUsed(Pivot(g, v), 0), LastUsed(Pivot(g, v), 256);
            && last < 256 && SomePermits(g, g.out[v], first) && SomePermits(g, g.out[v], last)
            && (forall x: Byte :: SomePermits(g, g.out[v], x) ==> first <= x <= last)
  {
    var tbl := Pivot(g, v);
    forall x: Byte ensures tbl[x] != [] <==> SomePermits(g, g.out[v], x) {
      var row := Dedup(Via(g, g.out[v], x));
      assert tbl[x] == row;
      if row != [] {
        assert row[0] in row;
      }
    }
    var first, last := FirstUsed(tbl, 0), LastUsed(tbl, 256);
    assert tbl[first] != [];
    assert last == 0 ==> last == first;
    hide Pivot, FirstUsed, LastUsed, SomePermits;
  }

  // ----- lost bytes -----

  /** A byte is lost exactly if one of at least four successors, and only one, permits it, and that one is passed over. */
  lemma LosesExactly(g: Nfa, v: nat, x: Byte)
    requires Wired(g) && v < |g.out| && NoRepeats(g.out[v])
    ensures Loses(g, v, x) <==>
            && Spreads(g, v) && |g.out[0]| == 1
            && exists t: nat :: t in g.out[v] && OnlyOne(g, g.out[v], x, t) && |g.out[t]| == 1
                                && g.vertices[t].lbl == NOLABEL && !g.vertices[t].isMatch && g.out[t][0] == g.out[0][0]
  {
    UsesTableExactly(g, v);
    RowLength(g, v, x);
    var row := Via(g, g.out[v], x);
    ViaDistinct(g, g.out[v], x);
    forall u: nat ensures OnlyOne(g, g.out[v], x, u) ==> |row| == 1 {
      OneInRow(g, g.out[v], x, u);
    }
    hide UsesTable, Spreads, Via;
    if |row| == 1 {
      var t := row[0];
      assert t in row;
      assert OnlyOne(g, g.out[v], x, t);
      forall u: nat | OnlyOne(g, g.out[v], x, u) ensures u == t {
        assert u in row;
      }
    }
  }

  lemma OneInRow(g: Nfa, ts: seq<nat>, x: Byte, u: nat)
    requires NoRepeats(Via(g, ts, x))
    ensures OnlyOne(g, ts, x, u) ==> |Via(g, ts, x)| == 1
  {
    var row := Via(g, ts, x);
    assert |row| > 1 ==> row[0] in row && row[1] in row && row[0] != row[1];
    if OnlyOne(g, ts, x, u) {
      assert u in row;
    }
  }

  ghost predicate OnlyOne(g: Nfa, ts: seq<nat>, x: Byte, t: nat) {
    && t in ts && t < |g.vertices| && t < |g.out| && Permits(g, t, x)
    && forall u: nat :: u in ts && u < |g.vertices| && Permits(g, u, x) ==> u == t
  }

  // ----- locks -----

  /** Among the words between the byte test of a vertex and its edges, there is a lock exactly if several edges lead to it. */
  lemma LocksExactly(b: Build, v: nat)
    requires Complete(b) && 0 < v < |b.g.vertices|
    ensures Wired(b.g) && v < |b.g.ins| && Fits(b.g, b.lay, b.kv) && v < |b.lay.start| && Behind(b, v) <= |b.prog.code|
    ensures |b.g.ins[v]| > 1 <==> exists p: nat :: EntryOf(b.g, b.lay, v) <= p < Behind(b, v) && b.prog.code[p].CheckHalt?
  {
    hide *;
    CompleteUse(b);
    LimitsUse(b);
    SnippetParts(b, v);
    BehindIs(b, v);
    var e := EntryOf(b.g, b.lay, v);
    var gates := GateCells(b.g, b.lay, b.kv, v);
    LockAmong(b.g, b.lay, b.kv, v, b.prog.maxCheck);
    if |b.g.ins[v]| > 1 {
      var i: nat :| i < |gates| && gates[i].word.CheckHalt?;
      HasAt(b.prog, b.plan, e, gates, i);
      assert b.prog.code[e + i].CheckHalt?;
    }
    forall p: nat | e <= p < Behind(b, v) ensures b.prog.code[p] == gates[p - e].word {
      HasAt(b.prog, b.plan, e, gates, p - e);
    }
  }

  lemma LockAmong(g: Nfa, lay: Layout, kv: seq<Option<nat>>, v: nat, maxCheck: nat)
    requires Fits(g, lay, kv) && 0 < v < |g.vertices| && ChecksOk(g, lay, maxCheck)
    ensures v < |g.ins| && (|g.ins[v]| > 1 <==> exists i: nat :: i < |GateCells(g, lay, kv, v)| && GateCells(g, lay, kv, v)[i].word.CheckHalt?)
  {
    GateShape(g, lay, kv, v);
    var left := EdgeSize(g, lay, kv, v);
    var k := KindOf(kv[v]);
    var m := MatchCells(g, lay, k, v, left);
    var c := CheckCells(lay, k, v, left + |m|);
    var l := LabelCells(g, v, left + |m| + |c|);
    var gates := GateCells(g, lay, kv, v);
    assert lay.check[v].Some? <==> |g.ins[v]| > 1;
    hide GateCells, EdgeSize;
    if |g.ins[v]| > 1 {
      assert gates[|l|].word.CheckHalt?;
    } else {
      assert c == [] && gates == l + m;
    }
  }

  /** No two vertices share a lock. */
  lemma LocksApart(b: Build, u: nat, v: nat, p: nat, q: nat)
    requires Complete(b) && 0 < u < |b.g.vertices| && 0 < v < |b.g.vertices| && u != v
    requires Fits(b.g, b.lay, b.kv) && u < |b.lay.start| && v < |b.lay.start| && Behind(b, u) <= |b.prog.code| && Behind(b, v) <= |b.prog.code|
    requires EntryOf(b.g, b.lay, u) <= p < Behind(b, u) && EntryOf(b.g, b.lay, v) <= q < Behind(b, v)
    requires b.prog.code[p].CheckHalt? && b.prog.code[q].CheckHalt?
    ensures b.prog.code[p] != b.prog.code[q]
  {
    hide *;
    LockOf(b, u, p);
    LockOf(b, v, q);
    LimitsUse(b);
    if b.lay.check[u] == b.lay.check[v] {
      ChecksApart(b.g, b.lay, b.prog.maxCheck, u, v);
    }
  }

  lemma LockOf(b: Build, v: nat, p: nat)
    requires Complete(b) && 0 < v < |b.g.vertices| && Fits(b.g, b.lay, b.kv) && v < |b.lay.start|
    requires EntryOf(b.g, b.lay, v) <= p < Behind(b, v) <= |b.prog.code| && b.prog.code[p].CheckHalt?
    ensures v < |b.lay.check| && b.lay.check[v].Some? && b.prog.code[p] == B.CheckHalt(b.lay.check[v].value)
  {
    hide *;
    SnippetParts(b, v);
    BehindIs(b, v);
    var e := EntryOf(b.g, b.lay, v);
    HasAt(b.prog, b.plan, e, GateCells(b.g, b.lay, b.kv, v), p - e);
    LockIs(b.g, b.lay, b.kv, v, p - e);
  }

  lemma LockIs(g: Nfa, lay: Layout, kv: seq<Option<nat>>, v: nat, i: nat)
    requires Fits(g, lay, kv) && 0 < v < |g.vertices| && i < |GateCells(g, lay, kv, v)| && GateCells(g, lay, kv, v)[i].word.CheckHalt?
    ensures v < |lay.check| && lay.check[v].Some? && GateCells(g, lay, kv, v)[i].word == B.CheckHalt(lay.check[v].value)
  {
    GateShape(g, lay, kv, v);
    hide GateCells, EdgeSize;
  }
}
