/**
 What the compiler writes for an automaton (src/lib/compiler.cpp, src/lib/codegen.cpp),
 as sequences of cells. A cell is an instruction word together with the slot of
 the program's plan, so that one definition gives both the code and the reason
 why the code is sound.
 */
module Layouts {
  import opened Basics
  import opened Automata
  import opened Sequences
  import opened Subsets
  import B = Bytecode

  datatype Cell = Cell(word: B.Word, slot: B.Slot)

  /** CodeGenHelper, as far as the second pass reads it. */
  datatype Layout = Layout(start: seq<nat>, check: seq<Option<nat>>, rank: seq<nat>, guard: nat)

  // ----- jump tables -----

  /** pivotStates (src/lib/utility.cpp:111-124): for every byte, the successors that permit it, in edge order. */
  function Pivot(g: Nfa, v: nat): (r: seq<seq<nat>>)
    requires v < |g.out|
    ensures |r| == 256 && forall b: Byte :: r[b] == Dedup(Via(g, g.out[v], b))
  {
    seq(256, b requires 0 <= b < 256 => Dedup(Via(g, g.out[v], b)))
  }

  function MaxLen(tbl: seq<seq<nat>>): (m: nat)
    ensures forall i :: 0 <= i < |tbl| ==> |tbl[i]| <= m
    ensures tbl != [] ==> exists i :: 0 <= i < |tbl| && |tbl[i]| == m
  {
    if tbl == [] then 0
    else
      var m := MaxLen(tbl[..|tbl| - 1]);
      var t := tbl[|tbl| - 1];
      assert forall i :: 0 <= i < |tbl| - 1 ==> tbl[i] == tbl[..|tbl| - 1][i];
      if |t| > m || |tbl| == 1 then |t| else m
  }

  /** A vertex gets a jump table if it has many successors and no byte leads to all of them. */
  predicate UsesTable(g: Nfa, v: nat)
    requires v < |g.out|
  {
    |g.out[v]| > 3 && MaxLen(Pivot(g, v)) < |g.out[v]|
  }

  /** The least used byte from i on, or 256. */
  function FirstUsed(tbl: seq<seq<nat>>, i: nat): (r: nat)
    requires |tbl| == 256 && i <= 256
    ensures i <= r <= 256 && (forall j :: i <= j < r ==> tbl[j] == []) && (r < 256 ==> tbl[r] != [])
    decreases 256 - i
  {
    if i == 256 || tbl[i] != [] then i else FirstUsed(tbl, i + 1)
  }

  /** The greatest used byte below n, or 0. */
  function LastUsed(tbl: seq<seq<nat>>, n: nat): (r: nat)
    requires |tbl| == 256 && n <= 256
    ensures r < 256 && (forall j :: r < j < n ==> tbl[j] == []) && (r > 0 ==> r < n && tbl[r] != [])
    decreases n
  {
    if n == 0 then 0 else if tbl[n - 1] != [] then n - 1 else LastUsed(tbl, n - 1)
  }

  /** How many entries the indirect tables of the bytes below n have. */
  function IndirectSize(tbl: seq<seq<nat>>, n: nat): nat
    requires n <= |tbl|
  {
    if n == 0 then 0 else IndirectSize(tbl, n - 1) + (if |tbl[n - 1]| > 1 then |tbl[n - 1]| else 0)
  }

  /** What the first pass counts for a jump table: one word, one for each byte in the range, two for each indirect entry. */
  function CountedSize(tbl: seq<seq<nat>>): int
    requires |tbl| == 256
  {
    2 + (LastUsed(tbl, 256) - FirstUsed(tbl, 0)) + 2 * IndirectSize(tbl, 256)
  }

  // ----- sizes -----

  function NumEval(g: Nfa, v: nat): nat
    requires v < |g.vertices|
  {
    if v == 0 then 0 else if g.vertices[v].trans.ByteSetState? then 9 else 1
  }

  predicate Falls(g: Nfa, lay: Layout, v: nat)
    requires v < |g.out| && v < |lay.rank| && g.out[v] != [] && g.out[v][0] < |lay.rank|
  {
    lay.rank[v] + 1 == lay.rank[g.out[v][0]]
  }

  // ----- cells -----

  function KindOf(k: Option<nat>): B.Kind {
    if k.Some? then B.Labelled(k.value) else B.Unlabelled
  }

  /** The labels with which a thread can arrive at v. */
  function Arriving(g: Nfa, kv: seq<Option<nat>>, v: nat): B.Kind
    requires v < |g.vertices| && v < |kv|
  {
    if g.vertices[v].lbl == NOLABEL then KindOf(kv[v]) else B.Maybe(g.vertices[v].lbl)
  }

  function TransWord(t: Transition): B.Word {
    match t
    case NoTransition => B.Halt
    case ByteState(b) => B.ByteOp(b)
    case EitherState(one, two) => B.Either(one, two)
    case RangeState(first, last) => if first == 0 && last == 255 then B.AnyByte else B.Range(first, last)
    case ByteSetState(allowed) => B.BitVector(allowed)
  }

  function EvalCells(g: Nfa, kv: seq<Option<nat>>, v: nat): (r: seq<Cell>)
    requires v < |g.vertices| && v < |kv|
    ensures |r| == NumEval(g, v)
  {
    var s := B.Slot(0, Arriving(g, kv, v), false);
    if v == 0 then []
    else seq(NumEval(g, v), i => Cell(if i == 0 then TransWord(g.vertices[v].trans) else B.Ext, s))
  }

  /** The label of the vertex, if it has one; left words of the snippet follow. */
  function LabelCells(g: Nfa, v: nat, left: nat): (r: seq<Cell>)
    requires v < |g.vertices|
  {
    var l := g.vertices[v].lbl;
    if v == 0 || l == NOLABEL then [] else [Cell(B.Label(l), B.Slot(left + 1, B.Maybe(l), false))]
  }

  function CheckCells(lay: Layout, k: B.Kind, v: nat, left: nat): (r: seq<Cell>)
    requires v < |lay.check|
  {
    if v == 0 || lay.check[v].None? then [] else [Cell(B.CheckHalt(lay.check[v].value), B.Slot(left + 1, k, false))]
  }

  function MatchCells(g: Nfa, lay: Layout, k: B.Kind, v: nat, left: nat): (r: seq<Cell>)
    requires v < |g.vertices| && v < |g.out|
  {
    if v == 0 || !g.vertices[v].isMatch then []
    else if g.out[v] == [] then
      [Cell(B.Match, B.Slot(left + 2, k, false)), Cell(B.Finish, B.Slot(left + 1, k, true))]
    else
      [Cell(B.Match, B.Slot(left + 3, k, false)), Cell(B.Fork(lay.guard + 1), B.Slot(left + 2, k, true)),
       Cell(B.Ext, B.Slot(left + 1, k, true))]
  }

  /** The children in reverse order, the first by a jump unless its code follows. */
  function ForkCells(lay: Layout, k: B.Kind, ts: seq<nat>, falls: bool): (r: seq<Cell>)
    requires ts != [] && forall i :: 0 <= i < |ts| ==> ts[i] < |lay.start|
    ensures |r| == 2 * (|ts| - 1) + (if falls then 0 else 2)
    decreases |ts|
  {
    if |ts| == 1 then
      if falls then [] else [Cell(B.Jump(lay.start[ts[0]]), B.Slot(2, k, false)), Cell(B.Ext, B.Slot(1, k, false))]
    else
      var n := 2 * (|ts| - 1) + (if falls then 0 else 2);
      [Cell(B.Fork(lay.start[ts[|ts| - 1]]), B.Slot(n, k, false)), Cell(B.Ext, B.Slot(n - 1, k, false))]
      + ForkCells(lay, k, ts[..|ts| - 1], falls)
  }

  /** figureOutLanding (src/lib/compiler.cpp:27-38) */
  function Landing(g: Nfa, lay: Layout, v: nat): nat
    requires Wired(g) && v < |g.vertices| && |lay.start| == |g.vertices|
  {
    if Shortcut(g, v) then lay.start[g.out[v][0]] else lay.start[v] + NumEval(g, v)
  }

  /** A vertex at which nothing is left to do but to follow its one edge. */
  predicate Shortcut(g: Nfa, u: nat)
    requires u < |g.out| && u < |g.vertices|
  {
    |g.out[u]| == 1 && g.vertices[u].lbl == NOLABEL && !g.vertices[u].isMatch
  }

  /** The indirect table of one byte, in reverse edge order. */
  function BlockCells(g: Nfa, lay: Layout, k: B.Kind, ts: seq<nat>): (r: seq<Cell>)
    requires Wired(g) && |lay.start| == |g.vertices| && ts != [] && Within(g, ts)
    ensures |r| == 2 * |ts|
    decreases |ts|
  {
    var w := Landing(g, lay, ts[|ts| - 1]);
    var s := B.Slot(lay.guard + 2 * |ts|, k, false);
    [Cell(if |ts| > 1 then B.Fork(w) else B.Jump(w), s), Cell(B.Ext, s)]
    + if |ts| > 1 then BlockCells(g, lay, k, ts[..|ts| - 1]) else []
  }

  ghost predicate TableWithin(g: Nfa, tbl: seq<seq<nat>>) {
    |tbl| == 256 && forall b: Byte :: Within(g, tbl[b])
  }

  /** The indirect tables of the bytes below n. */
  function IndirectCells(g: Nfa, lay: Layout, k: B.Kind, tbl: seq<seq<nat>>, n: nat): (r: seq<Cell>)
    requires Wired(g) && |lay.start| == |g.vertices| && TableWithin(g, tbl) && n <= 256
    ensures |r| == 2 * IndirectSize(tbl, n)
    decreases n
  {
    if n == 0 then []
    else IndirectCells(g, lay, k, tbl, n - 1) + if |tbl[n - 1]| > 1 then BlockCells(g, lay, k, tbl[n - 1]) else []
  }

  /** The entry of byte b in a table at the address at; 0 stands for no transition. */
  function Entry(g: Nfa, lay: Layout, tbl: seq<seq<nat>>, at: nat, b: nat): nat
    requires Wired(g) && |lay.start| == |g.vertices| && TableWithin(g, tbl) && b < 256
    requires FirstUsed(tbl, 0) <= LastUsed(tbl, 256)
  {
    if tbl[b] == [] then 0
    else if |tbl[b]| == 1 then Landing(g, lay, tbl[b][0])
    else at + 2 + (LastUsed(tbl, 256) - FirstUsed(tbl, 0)) + 2 * IndirectSize(tbl, b)
  }

  function TableCells(g: Nfa, lay: Layout, k: B.Kind, tbl: seq<seq<nat>>, at: nat): (r: seq<Cell>)
    requires Wired(g) && |lay.start| == |g.vertices| && TableWithin(g, tbl)
    requires FirstUsed(tbl, 0) <= LastUsed(tbl, 256)
    ensures |r| == CountedSize(tbl)
  {
    var first, last := FirstUsed(tbl, 0), LastUsed(tbl, 256);
    [Cell(B.JumpTableRange(first, last), B.Slot(CountedSize(tbl), k, false))]
    + seq(1 + (last - first), i requires 0 <= i < 1 + (last - first) =>
            Cell(B.Raw(Entry(g, lay, tbl, at, first + i)), B.Slot(0, k, false)))
    + IndirectCells(g, lay, k, tbl, 256)
  }

  // ----- snippets -----

  /** A layout for the vertices of the automaton. */
  ghost predicate Fits(g: Nfa, lay: Layout, kv: seq<Option<nat>>) {
    && Wired(g)
    && |lay.start| == |lay.check| == |lay.rank| == |g.vertices| == |kv|
    && forall v: nat :: v < |g.vertices| && UsesTable(g, v) ==> FirstUsed(Pivot(g, v), 0) <= LastUsed(Pivot(g, v), 256)
  }

  lemma PivotWithin(g: Nfa, v: nat)
    requires Wired(g) && v < |g.out|
    ensures TableWithin(g, Pivot(g, v))
  {
    forall b: Byte ensures Within(g, Pivot(g, v)[b]) {
      forall i | 0 <= i < |Pivot(g, v)[b]| ensures Pivot(g, v)[b][i] < |g.vertices| {
        assert Pivot(g, v)[b][i] in Via(g, g.out[v], b);
      }
    }
  }

  function EdgeSize(g: Nfa, lay: Layout, kv: seq<Option<nat>>, v: nat): nat
    requires Fits(g, lay, kv) && v < |g.vertices|
  {
    if g.out[v] == [] then 0
    else if UsesTable(g, v) then CountedSize(Pivot(g, v))
    else 2 * (|g.out[v]| - 1) + (if Falls(g, lay, v) then 0 else 2)
  }

  function EdgeCells(g: Nfa, lay: Layout, kv: seq<Option<nat>>, v: nat, at: nat): (r: seq<Cell>)
    requires Fits(g, lay, kv) && v < |g.vertices|
    ensures |r| == EdgeSize(g, lay, kv, v)
  {
    PivotWithin(g, v);
    if g.out[v] == [] then []
    else if UsesTable(g, v) then TableCells(g, lay, KindOf(kv[v]), Pivot(g, v), at)
    else ForkCells(lay, KindOf(kv[v]), g.out[v], Falls(g, lay, v))
  }

  /** The words that a thread at v executes once it has read its byte, before the edges. */
  function GateCells(g: Nfa, lay: Layout, kv: seq<Option<nat>>, v: nat): (r: seq<Cell>)
    requires Fits(g, lay, kv) && v < |g.vertices|
  {
    var left := EdgeSize(g, lay, kv, v);
    var k := KindOf(kv[v]);
    var m := MatchCells(g, lay, k, v, left);
    var c := CheckCells(lay, k, v, left + |m|);
    LabelCells(g, v, left + |m| + |c|) + c + m
  }

  /** Where the code after the byte test begins. */
  function EntryOf(g: Nfa, lay: Layout, v: nat): nat
    requires v < |g.vertices| && v < |lay.start|
  {
    lay.start[v] + NumEval(g, v)
  }

  function Snippet(g: Nfa, lay: Layout, kv: seq<Option<nat>>, v: nat): (r: seq<Cell>)
    requires Fits(g, lay, kv) && v < |g.vertices|
  {
    var gates := GateCells(g, lay, kv, v);
    EvalCells(g, kv, v) + gates + EdgeCells(g, lay, kv, v, EntryOf(g, lay, v) + |gates|)
  }

  /** What the first pass counts for a snippet: see finish_vertex. */
  function SnippetSize(g: Nfa, lay: Layout, kv: seq<Option<nat>>, v: nat): nat
    requires Fits(g, lay, kv) && v < |g.vertices|
  {
    NumEval(g, v)
    + EdgeSize(g, lay, kv, v)
    + (if v != 0 && g.vertices[v].lbl != NOLABEL then 1 else 0)
    + (if v != 0 && g.vertices[v].isMatch then 2 + (if g.out[v] != [] then 1 else 0) else 0)
    + (if v != 0 && lay.check[v].Some? then 1 else 0)
  }

  /** The two passes agree on the size of every snippet. */
  lemma SnippetLength(g: Nfa, lay: Layout, kv: seq<Option<nat>>, v: nat)
    requires Fits(g, lay, kv) && v < |g.vertices|
    ensures |Snippet(g, lay, kv, v)| == SnippetSize(g, lay, kv, v)
  {
  }
}
