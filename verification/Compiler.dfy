/** The second pass of the compiler (src/lib/compiler.cpp). */
module Compiler {
  import opened Basics
  import opened Automata
  import opened Sequences
  import opened Subsets
  import opened Layouts
  import opened Compiled
  import opened Codegen
  import Filters
  import B = Bytecode

  // ----- minAndMaxValues -----

  /** The consistency check of createJumpTable holds exactly when some byte is used and the only used byte is not a low one. */
  lemma TableSizesAgree(tbl: seq<seq<nat>>, first: nat, last: nat)
    requires |tbl| == 256
    requires first == (if FirstUsed(tbl, 0) == 256 then 0 else FirstUsed(tbl, 0))
    requires last == if LastUsed(tbl, 256) > first then LastUsed(tbl, 256) else 255
    ensures 2 + (last - first) + 2 * IndirectSize(tbl, 256) == CountedSize(tbl)
       <==> FirstUsed(tbl, 0) < 256 && (FirstUsed(tbl, 0) < LastUsed(tbl, 256) || FirstUsed(tbl, 0) == 255)
  {
    if FirstUsed(tbl, 0) < 256 {
      assert FirstUsed(tbl, 0) <= LastUsed(tbl, 256);
    }
  }

  /** minAndMaxValues: note the 255 for a table with one used byte. */
  method MinAndMaxValues(tbl: seq<seq<nat>>) returns (first: nat, last: nat)
    requires |tbl| == 256
    ensures first == if FirstUsed(tbl, 0) == 256 then 0 else FirstUsed(tbl, 0)
    ensures last == if LastUsed(tbl, 256) > first then LastUsed(tbl, 256) else 255
  {
    first, last := 0, 255;
    var i := 0;
    while i < 256
      invariant i <= 256 && first == 0 && FirstUsed(tbl, 0) >= i
    {
      if tbl[i] != [] {
        first := i;
        break;
      }
      i := i + 1;
    }
    i := 255;
    while i > first
      invariant first <= i <= 255 && last == 255
      invariant forall j :: i < j < 256 ==> tbl[j] == []
      decreases i
    {
      if tbl[i] != [] {
        last := i;
        break;
      }
      i := i - 1;
    }
  }

  // ----- writing cells -----

  /** The words from address at on are those of the cells. */
  ghost predicate WordsAt(code: seq<B.Word>, at: nat, cells: seq<Cell>) {
    at + |cells| <= |code| && forall i :: 0 <= i < |cells| ==> code[at + i] == cells[i].word
  }

  /** The words outside the given range are as they were. */
  ghost predicate SameOutside(code: seq<B.Word>, code': seq<B.Word>, lo: nat, hi: nat) {
    |code'| == |code| && forall i :: 0 <= i < |code| && !(lo <= i < hi) ==> code'[i] == code[i]
  }

  lemma WordsJoin(code: seq<B.Word>, at: nat, a: seq<Cell>, b: seq<Cell>)
    requires WordsAt(code, at, a) && WordsAt(code, at + |a|, b)
    ensures WordsAt(code, at, a + b)
  {
  }

  lemma WordsKept(code: seq<B.Word>, code': seq<B.Word>, lo: nat, hi: nat, at: nat, cells: seq<Cell>)
    requires WordsAt(code, at, cells) && SameOutside(code, code', lo, hi) && (at + |cells| <= lo || hi <= at)
    ensures WordsAt(code', at, cells)
  {
  }

  lemma SameTwice(a: seq<B.Word>, b: seq<B.Word>, c: seq<B.Word>, lo: nat, mid: nat, mid': nat, hi: nat)
    requires SameOutside(a, b, lo, mid) && SameOutside(b, c, mid', hi) && lo <= mid <= hi && lo <= mid' <= hi
    ensures SameOutside(a, c, lo, hi)
  {
  }

  /** A two-word instruction. */
  method WriteTwo(code: array<B.Word>, cur: nat, w: B.Word)
    requires cur + 2 <= code.Length
    modifies code
    ensures code[..] == old(code[..])[cur := w][cur + 1 := B.Ext]
  {
    code[cur] := w;
    code[cur + 1] := B.Ext;
  }

  /** A one-word instruction. */
  method WriteOne(code: array<B.Word>, cur: nat, w: B.Word)
    requires cur < code.Length
    modifies code
    ensures code[..] == old(code[..])[cur := w]
  {
    code[cur] := w;
  }

  /** All but the first j of ts are in. */
  ghost predicate BlockWritten(g: Nfa, lay: Layout, k: B.Kind, ts: seq<nat>, j: nat, done: seq<Cell>)
    requires Wired(g) && |lay.start| == |g.vertices| && ts != [] && Within(g, ts)
  {
    && j <= |ts| && |done| == 2 * (|ts| - j) && Within(g, ts[..j])
    && done + (if j > 0 then BlockCells(g, lay, k, ts[..j]) else []) == BlockCells(g, lay, k, ts)
  }

  lemma BlockWrittenFirst(g: Nfa, lay: Layout, k: B.Kind, ts: seq<nat>)
    requires Wired(g) && |lay.start| == |g.vertices| && ts != [] && Within(g, ts)
    ensures BlockWritten(g, lay, k, ts, |ts|, [])
  {
    assert ts[..|ts|] == ts && [] + BlockCells(g, lay, k, ts) == BlockCells(g, lay, k, ts);
  }

  lemma BlockWrittenStep(g: Nfa, lay: Layout, k: B.Kind, ts: seq<nat>, j: nat, done: seq<Cell>)
    requires Wired(g) && |lay.start| == |g.vertices| && ts != [] && Within(g, ts)
    requires j > 0 && BlockWritten(g, lay, k, ts, j, done)
    ensures Within(g, ts[..j]) && ts[j - 1] < |g.vertices|
    ensures var head := BlockHead(g, lay, k, ts[..j]);
            && |head| == 2 && head[1].word == B.Ext
            && head[0].word == (var w := Landing(g, lay, ts[j - 1]); if j > 1 then B.Fork(w) else B.Jump(w))
            && BlockWritten(g, lay, k, ts, j - 1, done + head)
  {
    hide Wired, Landing, BlockCells, BlockHead;
    assert ts[..j][..j - 1] == ts[..j - 1];
    assert ts[..j][j - 1] == ts[j - 1];
    BlockShape(g, lay, k, ts[..j]);
    var head := BlockHead(g, lay, k, ts[..j]);
    var rest := if j > 1 then BlockCells(g, lay, k, ts[..j - 1]) else [];
    assert done + head + rest == done + (head + rest);
  }

  lemma BlockWrittenEnd(g: Nfa, lay: Layout, k: B.Kind, ts: seq<nat>, done: seq<Cell>)
    requires Wired(g) && |lay.start| == |g.vertices| && ts != [] && Within(g, ts)
    requires BlockWritten(g, lay, k, ts, 0, done)
    ensures done == BlockCells(g, lay, k, ts)
  {
    assert done + [] == done;
  }

  lemma NothingWritten(code: seq<B.Word>, at: nat, hi: nat)
    requires at <= |code|
    ensures WordsAt(code, at, []) && SameOutside(code, code, at, hi)
  {
  }

  /** The indirect table of one byte. */
  method WriteBlock(g: Nfa, lay: Layout, ts: seq<nat>, code: array<B.Word>, at: nat, ghost k: B.Kind) returns (cur: nat)
    requires Wired(g) && |lay.start| == |g.vertices| && ts != [] && Within(g, ts) && at + 2 * |ts| <= code.Length
    modifies code
    ensures cur == at + 2 * |ts|
    ensures WordsAt(code[..], at, BlockCells(g, lay, k, ts)) && SameOutside(old(code[..]), code[..], at, cur)
  {
    hide *;
    cur := at;
    ghost var done: seq<Cell> := [];
    ghost var code0 := code[..];
    var j := |ts|;
    BlockWrittenFirst(g, lay, k, ts);
    NothingWritten(code[..], at, at);
    while j > 0
      invariant 0 <= j <= |ts| && cur == at + |done| && |done| == 2 * (|ts| - j)
      invariant BlockWritten(g, lay, k, ts, j, done)
      invariant WordsAt(code[..], at, done) && SameOutside(code0, code[..], at, cur)
    {
      BlockWrittenStep(g, lay, k, ts, j, done);
      ghost var head, before := BlockHead(g, lay, k, ts[..j]), code[..];
      j := j - 1;
      var landing := Landing(g, lay, ts[j]);
      WriteTwo(code, cur, if j > 0 then B.Fork(landing) else B.Jump(landing));
      WroteTwo(before, code[..], at, done, head);
      SameTwice(code0, before, code[..], at, cur, cur, cur + 2);
      cur := cur + 2;
      done := done + head;
    }
    BlockWrittenEnd(g, lay, k, ts, done);
  }

  lemma WroteTwo(code: seq<B.Word>, code': seq<B.Word>, at: nat, done: seq<Cell>, two: seq<Cell>)
    requires |two| == 2 && WordsAt(code, at, done) && at + |done| + 2 <= |code|
    requires code' == code[at + |done| := two[0].word][at + |done| + 1 := two[1].word]
    ensures WordsAt(code', at, done + two) && SameOutside(code, code', at + |done|, at + |done| + 2)
  {
  }

  // ----- jump tables -----

  /** A table whose entries below i, and their indirect tables, have been written. */
  ghost predicate TableWritten(g: Nfa, lay: Layout, k: B.Kind, tbl: seq<seq<nat>>, at: nat, i: nat, code: seq<B.Word>)
    requires Wired(g) && |lay.start| == |g.vertices| && TableWithin(g, tbl) && |tbl| == 256
    requires FirstUsed(tbl, 0) <= LastUsed(tbl, 256)
  {
    var first, last := FirstUsed(tbl, 0), LastUsed(tbl, 256);
    && i <= 256 && at + CountedSize(tbl) <= |code|
    && code[at] == B.JumpTableRange(first, last)
    && (forall x: Byte :: first <= x < i && x <= last ==> code[at + 1 + (x - first)] == B.Raw(Entry(g, lay, tbl, at, x)))
    && WordsAt(code, at + 2 + (last - first), IndirectCells(g, lay, k, tbl, i))
  }

  lemma {:induction false} IndirectMonotone(tbl: seq<seq<nat>>, i: nat, n: nat)
    requires i <= n <= |tbl|
    ensures IndirectSize(tbl, i) <= IndirectSize(tbl, n)
    decreases n
  {
    if i < n {
      IndirectMonotone(tbl, i, n - 1);
    }
  }

  lemma {:induction false} IndirectEmpty(g: Nfa, lay: Layout, k: B.Kind, tbl: seq<seq<nat>>, i: nat, n: nat)
    requires Wired(g) && |lay.start| == |g.vertices| && TableWithin(g, tbl) && i <= n <= 256 == |tbl|
    requires forall j :: i <= j < n ==> tbl[j] == []
    ensures IndirectSize(tbl, n) == IndirectSize(tbl, i) && IndirectCells(g, lay, k, tbl, n) == IndirectCells(g, lay, k, tbl, i)
    decreases n
  {
    hide BlockCells, Wired, TableWithin;
    if i < n {
      IndirectEmpty(g, lay, k, tbl, i, n - 1);
      IndirectShape(g, lay, k, tbl, n);
    }
  }

  lemma TableFirst(g: Nfa, lay: Layout, k: B.Kind, tbl: seq<seq<nat>>, at: nat, code: seq<B.Word>)
    requires Wired(g) && |lay.start| == |g.vertices| && TableWithin(g, tbl) && |tbl| == 256
    requires FirstUsed(tbl, 0) <= LastUsed(tbl, 256) && at + CountedSize(tbl) <= |code|
    ensures at < |code| && IndirectSize(tbl, FirstUsed(tbl, 0)) == 0
    ensures TableWritten(g, lay, k, tbl, at, FirstUsed(tbl, 0),
                         code[at := B.JumpTableRange(FirstUsed(tbl, 0), LastUsed(tbl, 256))])
  {
    IndirectEmpty(g, lay, k, tbl, 0, FirstUsed(tbl, 0));
    hide Entry, BlockCells, Wired, TableWithin, FirstUsed, LastUsed;
  }

  /** The entry of byte i, and its indirect table if it has one. */
  lemma TableStep(g: Nfa, lay: Layout, k: B.Kind, tbl: seq<seq<nat>>, at: nat, i: Byte, code: seq<B.Word>, code1: seq<B.Word>, code2: seq<B.Word>)
    requires Wired(g) && |lay.start| == |g.vertices| && TableWithin(g, tbl) && |tbl| == 256
    requires FirstUsed(tbl, 0) <= i <= LastUsed(tbl, 256) && FirstUsed(tbl, 0) <= LastUsed(tbl, 256)
    requires TableWritten(g, lay, k, tbl, at, i, code)
    requires var first, last := FirstUsed(tbl, 0), LastUsed(tbl, 256);
             && at + 1 + (i - first) < |code|
             && code1 == code[at + 1 + (i - first) := B.Raw(Entry(g, lay, tbl, at, i))]
             && var ind := at + 2 + (last - first) + 2 * IndirectSize(tbl, i);
                if |tbl[i]| > 1 then
                  Within(g, tbl[i]) && SameOutside(code1, code2, ind, ind + 2 * |tbl[i]|)
                  && WordsAt(code2, ind, BlockCells(g, lay, k, tbl[i]))
                else code2 == code1
    ensures TableWritten(g, lay, k, tbl, at, i + 1, code2)
  {
    hide *;
    var first, last := FirstUsed(tbl, 0), LastUsed(tbl, 256);
    var base := at + 2 + (last - first);
    TableWrittenUse(g, lay, k, tbl, at, i, code);
    IndirectShape(g, lay, k, tbl, i + 1);
    var cells := IndirectCells(g, lay, k, tbl, i);
    EntryWritten(code, at + 1 + (i - first), B.Raw(Entry(g, lay, tbl, at, i)), base, cells);
    var block: seq<Cell> := if |tbl[i]| > 1 then BlockCells(g, lay, k, tbl[i]) else [];
    if |tbl[i]| > 1 {
      WordsKept(code1, code2, base + |cells|, base + |cells| + 2 * |tbl[i]|, base, cells);
      WordsJoin(code2, base, cells, block);
      SameBefore(code1, code2, base + |cells|, base + |cells| + 2 * |tbl[i]|);
    } else {
      assert cells + block == cells;
    }
    TableWrittenBy(g, lay, k, tbl, at, i + 1, code2);
  }

  lemma SameBefore(code: seq<B.Word>, code': seq<B.Word>, lo: nat, hi: nat)
    requires SameOutside(code, code', lo, hi)
    ensures |code'| == |code| && forall p :: 0 <= p < lo && p < |code| ==> code'[p] == code[p]
  {
  }

  lemma EntryWritten(code: seq<B.Word>, p: nat, w: B.Word, base: nat, cells: seq<Cell>)
    requires p < base && p < |code| && WordsAt(code, base, cells)
    ensures WordsAt(code[p := w], base, cells)
  {
  }

  lemma TableWrittenUse(g: Nfa, lay: Layout, k: B.Kind, tbl: seq<seq<nat>>, at: nat, i: nat, code: seq<B.Word>)
    requires Wired(g) && |lay.start| == |g.vertices| && TableWithin(g, tbl) && |tbl| == 256
    requires FirstUsed(tbl, 0) <= LastUsed(tbl, 256) && TableWritten(g, lay, k, tbl, at, i, code)
    ensures var first, last := FirstUsed(tbl, 0), LastUsed(tbl, 256);
            && i <= 256 && at + CountedSize(tbl) <= |code| && at < |code|
            && CountedSize(tbl) == 2 + (last - first) + 2 * IndirectSize(tbl, 256)
            && code[at] == B.JumpTableRange(first, last)
            && (forall x: Byte :: first <= x < i && x <= last ==>
                  at + 1 + (x - first) < |code| && code[at + 1 + (x - first)] == B.Raw(Entry(g, lay, tbl, at, x)))
            && WordsAt(code, at + 2 + (last - first), IndirectCells(g, lay, k, tbl, i))
  {
    hide Entry, IndirectCells, FirstUsed, LastUsed, Wired, TableWithin, IndirectSize, WordsAt;
  }

  lemma TableWrittenBy(g: Nfa, lay: Layout, k: B.Kind, tbl: seq<seq<nat>>, at: nat, i: nat, code: seq<B.Word>)
    requires Wired(g) && |lay.start| == |g.vertices| && TableWithin(g, tbl) && |tbl| == 256
    requires FirstUsed(tbl, 0) <= LastUsed(tbl, 256)
    requires var first, last := FirstUsed(tbl, 0), LastUsed(tbl, 256);
             && i <= 256 && at + CountedSize(tbl) <= |code| && at < |code|
             && code[at] == B.JumpTableRange(first, last)
             && (forall x: Byte :: first <= x < i && x <= last ==>
                   at + 1 + (x - first) < |code| && code[at + 1 + (x - first)] == B.Raw(Entry(g, lay, tbl, at, x)))
             && WordsAt(code, at + 2 + (last - first), IndirectCells(g, lay, k, tbl, i))
    ensures TableWritten(g, lay, k, tbl, at, i, code)
  {
    hide Entry, IndirectCells, FirstUsed, LastUsed, Wired, TableWithin, IndirectSize, WordsAt;
  }

  lemma TableEnd(g: Nfa, lay: Layout, k: B.Kind, tbl: seq<seq<nat>>, at: nat, code: seq<B.Word>)
    requires Wired(g) && |lay.start| == |g.vertices| && TableWithin(g, tbl) && |tbl| == 256
    requires FirstUsed(tbl, 0) <= LastUsed(tbl, 256)
    requires TableWritten(g, lay, k, tbl, at, LastUsed(tbl, 256) + 1, code)
    ensures WordsAt(code, at, TableCells(g, lay, k, tbl, at))
    ensures IndirectSize(tbl, LastUsed(tbl, 256) + 1) == IndirectSize(tbl, 256)
  {
    hide *;
    var first, last := FirstUsed(tbl, 0), LastUsed(tbl, 256);
    TableWrittenUse(g, lay, k, tbl, at, last + 1, code);
    IndirectEmpty(g, lay, k, tbl, last + 1, 256);
    TableShape(g, lay, k, tbl, at);
    var cells := TableCells(g, lay, k, tbl, at);
    var n := 2 + (last - first);
    assert |cells[..n]| == n;
    forall i | 0 <= i < n ensures at + i < |code| && code[at + i] == cells[..n][i].word {
      if i > 0 {
        var x: Byte := first + (i - 1);
        assert cells[1 + (x - first)] == Cell(B.Raw(Entry(g, lay, tbl, at, x)), B.Slot(0, k, false));
        assert code[at + 1 + (x - first)] == B.Raw(Entry(g, lay, tbl, at, x));
      }
    }
    WordsBy(code, at, cells[..n]);
    WordsJoin(code, at, cells[..n], IndirectCells(g, lay, k, tbl, 256));
  }

  lemma WordsBy(code: seq<B.Word>, at: nat, cells: seq<Cell>)
    requires at + |cells| <= |code| && forall i :: 0 <= i < |cells| ==> code[at + i] == cells[i].word
    ensures WordsAt(code, at, cells)
  {
  }

  /** One entry of a table, and its indirect table if it needs one. */
  method WriteEntry(g: Nfa, lay: Layout, tbl: seq<seq<nat>>, i: nat, code: array<B.Word>, at: nat, cur: nat, indirectTbl: nat, ghost k: B.Kind)
    returns (indirectTbl': nat)
    requires Wired(g) && |lay.start| == |g.vertices| && TableWithin(g, tbl) && |tbl| == 256
    requires FirstUsed(tbl, 0) <= i <= LastUsed(tbl, 256) < 256 && FirstUsed(tbl, 0) <= LastUsed(tbl, 256)
    requires TableWritten(g, lay, k, tbl, at, i, code[..]) && at + CountedSize(tbl) <= code.Length
    requires cur == at + 1 + (i - FirstUsed(tbl, 0))
    requires indirectTbl == at + 2 + (LastUsed(tbl, 256) - FirstUsed(tbl, 0)) + 2 * IndirectSize(tbl, i)
    modifies code
    ensures TableWritten(g, lay, k, tbl, at, i + 1, code[..])
    ensures indirectTbl' == at + 2 + (LastUsed(tbl, 256) - FirstUsed(tbl, 0)) + 2 * IndirectSize(tbl, i + 1)
    ensures SameOutside(old(code[..]), code[..], at, at + CountedSize(tbl))
  {
    hide *;
    ghost var code0 := code[..];
    TableWrittenUse(g, lay, k, tbl, at, i, code0);
    EntryShape(g, lay, tbl, at, i);
    IndirectShape(g, lay, k, tbl, i + 1);
    IndirectMonotone(tbl, i + 1, 256);
    indirectTbl' := indirectTbl;
    if tbl[i] == [] {
      WriteOne(code, cur, B.Raw(0));
    } else if |tbl[i]| == 1 {
      WriteOne(code, cur, B.Raw(Landing(g, lay, tbl[i][0])));
    } else {
      WriteOne(code, cur, B.Raw(indirectTbl));
    }
    ghost var code1 := code[..];
    OneChanged(code0, cur, code1[cur], at, at + CountedSize(tbl));
    if |tbl[i]| > 1 {
      indirectTbl' := WriteBlock(g, lay, tbl[i], code, indirectTbl, k);
      SameMore(code1, code[..], indirectTbl, at, indirectTbl', at + CountedSize(tbl));
      SameBoth(code0, code1, code[..], at, at + CountedSize(tbl));
    }
    TableStep(g, lay, k, tbl, at, i, code0, code1, code[..]);
  }

  lemma OneChanged(code: seq<B.Word>, p: nat, w: B.Word, lo: nat, hi: nat)
    requires lo <= p < hi && p < |code|
    ensures SameOutside(code, code[p := w], lo, hi)
  {
  }

  lemma SameMore(code: seq<B.Word>, code': seq<B.Word>, lo: nat, lo': nat, hi: nat, hi': nat)
    requires SameOutside(code, code', lo, hi) && lo' <= lo && hi <= hi'
    ensures SameOutside(code, code', lo', hi')
  {
  }

  lemma SameBoth(a: seq<B.Word>, b: seq<B.Word>, c: seq<B.Word>, lo: nat, hi: nat)
    requires SameOutside(a, b, lo, hi) && SameOutside(b, c, lo, hi)
    ensures SameOutside(a, c, lo, hi)
  {
  }

  /**
   createJumpTable (src/lib/compiler.cpp:60-104). The result is what its
   consistency check finds: the table ends where the snippet ends.
   */
  method CreateJumpTable(g: Nfa, lay: Layout, v: nat, end: nat, code: array<B.Word>, start: nat, ghost k: B.Kind) returns (ok: bool)
    requires Compilable(g) && Wired(g) && |lay.start| == |g.vertices| && v < |g.out| && UsesTable(g, v)
    requires TableWithin(g, Pivot(g, v)) && FirstUsed(Pivot(g, v), 0) <= LastUsed(Pivot(g, v), 256)
    requires start + CountedSize(Pivot(g, v)) == end <= code.Length
    modifies code
    ensures ok
    ensures WordsAt(code[..], start, TableCells(g, lay, k, Pivot(g, v), start))
    ensures SameOutside(old(code[..]), code[..], start, end)
  {
    hide *;
    TablesHaveRange(g, v);
    var tbl := PivotStates(g, v);
    ghost var code0 := code[..];
    TableFirst(g, lay, k, tbl, start, code0);
    var first, last := MinAndMaxValues(tbl);
    CountedIs(tbl);
    WriteOne(code, start, B.JumpTableRange(first, last));
    OneChanged(code0, start, B.JumpTableRange(first, last), start, end);
    var indirectTbl := start + 2 + (last - first);
    for i := first to last + 1
      invariant TableWritten(g, lay, k, tbl, start, i, code[..])
      invariant indirectTbl == start + 2 + (last - first) + 2 * IndirectSize(tbl, i)
      invariant SameOutside(code0, code[..], start, end)
    {
      ghost var before := code[..];
      indirectTbl := WriteEntry(g, lay, tbl, i, code, start, start + 1 + (i - first), indirectTbl, k);
      SameBoth(code0, before, code[..], start, end);
    }
    TableEnd(g, lay, k, tbl, start, code[..]);
    ok := indirectTbl == end;
  }

  lemma CountedIs(tbl: seq<seq<nat>>)
    requires |tbl| == 256
    ensures CountedSize(tbl) == 2 + (LastUsed(tbl, 256) - FirstUsed(tbl, 0)) + 2 * IndirectSize(tbl, 256)
  {
  }

  // ----- forks -----

  /** The forks to all but the first j children are in. */
  ghost predicate ForksWritten(lay: Layout, k: B.Kind, ts: seq<nat>, falls: bool, j: nat, done: seq<Cell>)
    requires ts != [] && forall i :: 0 <= i < |ts| ==> ts[i] < |lay.start|
  {
    && 0 < j <= |ts| && |done| == 2 * (|ts| - j)
    && (forall i :: 0 <= i < |ts[..j]| ==> ts[..j][i] < |lay.start|)
    && done + ForkCells(lay, k, ts[..j], falls) == ForkCells(lay, k, ts, falls)
  }

  lemma ForksFirst(lay: Layout, k: B.Kind, ts: seq<nat>, falls: bool)
    requires ts != [] && forall i :: 0 <= i < |ts| ==> ts[i] < |lay.start|
    ensures ForksWritten(lay, k, ts, falls, |ts|, [])
  {
    assert ts[..|ts|] == ts && [] + ForkCells(lay, k, ts, falls) == ForkCells(lay, k, ts, falls);
  }

  lemma ForksStep(lay: Layout, k: B.Kind, ts: seq<nat>, falls: bool, j: nat, done: seq<Cell>)
    requires ts != [] && forall i :: 0 <= i < |ts| ==> ts[i] < |lay.start|
    requires j > 1 && ForksWritten(lay, k, ts, falls, j, done)
    ensures forall i :: 0 <= i < |ts[..j]| ==> ts[..j][i] < |lay.start|
    ensures var head := ForkCells(lay, k, ts[..j], falls)[..2];
            && |head| == 2 && head[0].word == B.Fork(lay.start[ts[j - 1]]) && head[1].word == B.Ext
            && ForksWritten(lay, k, ts, falls, j - 1, done + head)
  {
    hide ForkCells;
    assert ts[..j][..j - 1] == ts[..j - 1] && ts[..j][j - 1] == ts[j - 1];
    FirstFork(lay, k, ts[..j], falls);
    var head := ForkCells(lay, k, ts[..j], falls)[..2];
    var rest := ForkCells(lay, k, ts[..j - 1], falls);
    assert done + head + rest == done + (head + rest);
  }

  lemma ForksLast(lay: Layout, k: B.Kind, ts: seq<nat>, falls: bool, done: seq<Cell>)
    requires ts != [] && forall i :: 0 <= i < |ts| ==> ts[i] < |lay.start|
    requires ForksWritten(lay, k, ts, falls, 1, done)
    ensures falls ==> done == ForkCells(lay, k, ts, falls)
    ensures !falls ==> exists two: seq<Cell> {:trigger done + two} :: |two| == 2 && two[0].word == B.Jump(lay.start[ts[0]]) && two[1].word == B.Ext
                                            && done + two == ForkCells(lay, k, ts, falls)
  {
    assert ts[..1] == [ts[0]];
    LastFork(lay, k, ts[..1], falls);
    var two := ForkCells(lay, k, ts[..1], falls);
    assert done + two == ForkCells(lay, k, ts, falls);
    assert falls ==> done + [] == done;
  }

  /** The children in reverse order, the first by falling through if possible. */
  method WriteForks(lay: Layout, ts: seq<nat>, falls: bool, code: array<B.Word>, at: nat, ghost k: B.Kind) returns (cur: nat)
    requires ts != [] && forall i :: 0 <= i < |ts| ==> ts[i] < |lay.start|
    requires at + |ForkCells(lay, k, ts, falls)| <= code.Length
    modifies code
    ensures cur == at + |ForkCells(lay, k, ts, falls)|
    ensures WordsAt(code[..], at, ForkCells(lay, k, ts, falls)) && SameOutside(old(code[..]), code[..], at, cur)
  {
    hide *;
    cur := at;
    ghost var done: seq<Cell> := [];
    ghost var code0 := code[..];
    ForksFirst(lay, k, ts, falls);
    NothingWritten(code[..], at, at);
    var j := |ts|;
    // layout non-initial children in reverse order
    while j > 1
      invariant 0 < j <= |ts| && cur == at + |done| && |done| == 2 * (|ts| - j)
      invariant ForksWritten(lay, k, ts, falls, j, done)
      invariant WordsAt(code[..], at, done) && SameOutside(code0, code[..], at, cur)
    {
      ForksStep(lay, k, ts, falls, j, done);
      ghost var head, before := ForkCells(lay, k, ts[..j], falls)[..2], code[..];
      j := j - 1;
      WriteTwo(code, cur, B.Fork(lay.start[ts[j]]));
      WroteTwo(before, code[..], at, done, head);
      SameTwice(code0, before, code[..], at, cur, cur, cur + 2);
      cur := cur + 2;
      done := done + head;
    }
    ForksLast(lay, k, ts, falls, done);
    // layout first child, falling through if possible
    if !falls {
      ghost var before := code[..];
      ghost var two: seq<Cell> :| |two| == 2 && two[0].word == B.Jump(lay.start[ts[0]]) && two[1].word == B.Ext
                                  && done + two == ForkCells(lay, k, ts, falls);
      WriteTwo(code, cur, B.Jump(lay.start[ts[0]]));
      WroteTwo(before, code[..], at, done, two);
      SameTwice(code0, before, code[..], at, cur, cur, cur + 2);
      cur := cur + 2;
    }
  }

  // ----- one vertex -----

  lemma EvalWords(g: Nfa, kv: seq<Option<nat>>, v: nat)
    requires v < |g.vertices| && v < |kv|
    ensures var cells := EvalCells(g, kv, v);
            && |cells| == (if v == 0 then 0 else if g.vertices[v].trans.ByteSetState? then 9 else 1)
            && (v != 0 ==> cells[0].word == TransWord(g.vertices[v].trans))
            && forall i :: 0 < i < |cells| ==> cells[i].word == B.Ext
  {
  }

  /** Transition::toInstruction: one word, and eight for the set of a bit vector. */
  method WriteTransition(g: Nfa, v: nat, code: array<B.Word>, at: nat, ghost kv: seq<Option<nat>>)
    requires v < |g.vertices| && v < |kv| && at + |EvalCells(g, kv, v)| <= code.Length
    modifies code
    ensures WordsAt(code[..], at, EvalCells(g, kv, v))
    ensures SameOutside(old(code[..]), code[..], at, at + |EvalCells(g, kv, v)|)
  {
    hide *;
    ghost var cells, code0 := EvalCells(g, kv, v), code[..];
    EvalWords(g, kv, v);
    NothingWritten(code[..], at, at);
    if v != 0 {
      assert [] + [cells[0]] == cells[..1];
      OneMore(code0, code[..], at, [], [cells[0]], at);
      WriteOne(code, at, TransWord(g.vertices[v].trans));
      if g.vertices[v].trans.ByteSetState? {
        for i := 1 to 9
          invariant WordsAt(code[..], at, cells[..i]) && SameOutside(code0, code[..], at, at + i)
        {
          assert cells[..i] + [cells[i]] == cells[..i + 1];
          OneMore(code0, code[..], at, cells[..i], [cells[i]], at);
          WriteOne(code, at + i, B.Ext);
        }
      }
      assert cells[..|cells|] == cells;
    } else {
      assert cells == [];
    }
  }

  lemma LabelWords(g: Nfa, v: nat, left: nat)
    requires v < |g.vertices|
    ensures var cells := LabelCells(g, v, left);
            && (v != 0 && g.vertices[v].lbl != NOLABEL ==> |cells| == 1 && cells[0].word == B.Label(g.vertices[v].lbl))
            && (v == 0 || g.vertices[v].lbl == NOLABEL ==> cells == [])
  {
  }

  lemma CheckWords(lay: Layout, k: B.Kind, v: nat, left: nat)
    requires v < |lay.check|
    ensures var cells := CheckCells(lay, k, v, left);
            && (v != 0 && lay.check[v].Some? ==> |cells| == 1 && cells[0].word == B.CheckHalt(lay.check[v].value))
            && (v == 0 || lay.check[v].None? ==> cells == [])
  {
  }

  lemma MatchWords(g: Nfa, lay: Layout, k: B.Kind, v: nat, left: nat)
    requires v < |g.vertices| && v < |g.out|
    ensures var cells := MatchCells(g, lay, k, v, left);
            if v == 0 || !g.vertices[v].isMatch then cells == []
            else
              && cells[0].word == B.Match
              && if g.out[v] == [] then |cells| == 2 && cells[1].word == B.Finish
                 else |cells| == 3 && cells[1].word == B.Fork(lay.guard + 1) && cells[2].word == B.Ext
  {
  }

  /** One more word for cells already written. */
  lemma OneMore(code0: seq<B.Word>, code: seq<B.Word>, at: nat, done: seq<Cell>, cells: seq<Cell>, lo: nat)
    requires WordsAt(code, at, done) && SameOutside(code0, code, lo, at + |done|) && |cells| == 1 && at + |done| < |code| && lo <= at
    ensures WordsAt(code[at + |done| := cells[0].word], at, done + cells)
    ensures SameOutside(code0, code[at + |done| := cells[0].word], lo, at + |done| + 1)
  {
  }

  method WriteLabel(g: Nfa, v: nat, code: array<B.Word>, at: nat, ghost left: nat) returns (cur: nat)
    requires v < |g.vertices| && at + |LabelCells(g, v, left)| <= code.Length
    modifies code
    ensures cur == at + |LabelCells(g, v, left)|
    ensures WordsAt(code[..], at, LabelCells(g, v, left)) && SameOutside(old(code[..]), code[..], at, cur)
  {
    hide *;
    LabelWords(g, v, left);
    NothingWritten(code[..], at, at);
    cur := at;
    if v != 0 && g.vertices[v].lbl != NOLABEL {
      ghost var cells := LabelCells(g, v, left);
      assert [] + cells == cells;
      OneMore(code[..], code[..], at, [], cells, at);
      WriteOne(code, cur, B.Label(g.vertices[v].lbl));
      cur := cur + 1;
    }
  }

  method WriteCheck(lay: Layout, v: nat, code: array<B.Word>, at: nat, ghost k: B.Kind, ghost left: nat) returns (cur: nat)
    requires v < |lay.check| && at + |CheckCells(lay, k, v, left)| <= code.Length
    modifies code
    ensures cur == at + |CheckCells(lay, k, v, left)|
    ensures WordsAt(code[..], at, CheckCells(lay, k, v, left)) && SameOutside(old(code[..]), code[..], at, cur)
  {
    hide *;
    CheckWords(lay, k, v, left);
    NothingWritten(code[..], at, at);
    cur := at;
    if v != 0 && lay.check[v].Some? {
      ghost var cells := CheckCells(lay, k, v, left);
      assert [] + cells == cells;
      OneMore(code[..], code[..], at, [], cells, at);
      WriteOne(code, cur, B.CheckHalt(lay.check[v].value));
      cur := cur + 1;
    }
  }

  method WriteMatch(g: Nfa, lay: Layout, v: nat, code: array<B.Word>, at: nat, ghost k: B.Kind, ghost left: nat) returns (cur: nat)
    requires v < |g.vertices| && v < |g.out| && at + |MatchCells(g, lay, k, v, left)| <= code.Length
    modifies code
    ensures cur == at + |MatchCells(g, lay, k, v, left)|
    ensures WordsAt(code[..], at, MatchCells(g, lay, k, v, left)) && SameOutside(old(code[..]), code[..], at, cur)
  {
    hide *;
    MatchWords(g, lay, k, v, left);
    NothingWritten(code[..], at, at);
    cur := at;
    if v != 0 && g.vertices[v].isMatch {
      ghost var m, code0 := MatchCells(g, lay, k, v, left), code[..];
      OneMore(code0, code[..], at, [], [m[0]], at);
      WriteOne(code, cur, B.Match);
      assert [] + [m[0]] == [m[0]];
      ghost var code1 := code[..];
      cur := cur + 1;
      if g.out[v] != [] {
        // nonterminal match, fork to FINISH_OP
        assert [m[0]] + [m[1], m[2]] == m;
        WriteTwo(code, cur, B.Fork(lay.guard + 1));
        WroteTwo(code1, code[..], at, [m[0]], [m[1], m[2]]);
        SameTwice(code0, code1, code[..], at, cur, cur, cur + 2);
        cur := cur + 2;
      } else {
        // terminal match, FINISH_OP is next
        assert [m[0]] + [m[1]] == m;
        OneMore(code0, code1, at, [m[0]], [m[1]], at);
        WriteOne(code, cur, B.Finish);
        cur := cur + 1;
      }
    }
  }

  /** What was written before stays, and what is written next goes on from there. */
  lemma WriteOn(code0: seq<B.Word>, code1: seq<B.Word>, code2: seq<B.Word>, at: nat, done: seq<Cell>, more: seq<Cell>)
    requires WordsAt(code1, at, done) && SameOutside(code0, code1, at, at + |done|)
    requires WordsAt(code2, at + |done|, more) && SameOutside(code1, code2, at + |done|, at + |done| + |more|)
    ensures WordsAt(code2, at, done + more) && SameOutside(code0, code2, at, at + |done| + |more|)
  {
    hide *;
    WordsKept(code1, code2, at + |done|, at + |done| + |more|, at, done);
    WordsJoin(code2, at, done, more);
    SameTwice(code0, code1, code2, at, at + |done|, at + |done|, at + |done| + |more|);
  }

  /** The words between the byte test and the edges. */
  method WriteGates(g: Nfa, v: nat, lay: Layout, code: array<B.Word>, at: nat, ghost kv: seq<Option<nat>>) returns (cur: nat)
    requires Fits(g, lay, kv) && v < |g.vertices| && v < |lay.check| && v < |g.out|
    requires at + |GateCells(g, lay, kv, v)| <= code.Length
    modifies code
    ensures cur == at + |GateCells(g, lay, kv, v)|
    ensures WordsAt(code[..], at, GateCells(g, lay, kv, v)) && SameOutside(old(code[..]), code[..], at, cur)
  {
    hide *;
    GateShape(g, lay, kv, v);
    ghost var left, k := EdgeSize(g, lay, kv, v), KindOf(kv[v]);
    ghost var m := MatchCells(g, lay, k, v, left);
    ghost var c := CheckCells(lay, k, v, left + |m|);
    ghost var l := LabelCells(g, v, left + |m| + |c|);
    ghost var code0 := code[..];
    cur := WriteLabel(g, v, code, at, left + |m| + |c|);
    ghost var code1 := code[..];
    cur := WriteCheck(lay, v, code, cur, k, left + |m|);
    ghost var code2 := code[..];
    WriteOn(code0, code1, code2, at, l, c);
    cur := WriteMatch(g, lay, v, code, cur, k, left);
    WriteOn(code0, code2, code[..], at, l + c, m);
  }

  /** The words of the edges. */
  method WriteEdges(g: Nfa, v: nat, lay: Layout, code: array<B.Word>, at: nat, end: nat, table: bool, ghost kv: seq<Option<nat>>)
    returns (ok: bool)
    requires Compilable(g) && Fits(g, lay, kv) && v < |g.vertices| && table == UsesTable(g, v)
    requires at + EdgeSize(g, lay, kv, v) == end <= code.Length
    modifies code
    ensures ok
    ensures WordsAt(code[..], at, EdgeCells(g, lay, kv, v, at)) && SameOutside(old(code[..]), code[..], at, end)
  {
    hide *;
    EdgeParts(g, lay, kv, v, at);
    ok := true;
    NothingWritten(code[..], at, end);
    if table {
      ok := CreateJumpTable(g, lay, v, end, code, at, KindOf(kv[v]));
    } else if g.out[v] != [] {
      var _ := WriteForks(lay, g.out[v], Falls(g, lay, v), code, at, KindOf(kv[v]));
    }
  }

  lemma EdgeParts(g: Nfa, lay: Layout, kv: seq<Option<nat>>, v: nat, at: nat)
    requires Compilable(g) && Fits(g, lay, kv) && v < |g.vertices|
    ensures v < |g.out| && v < |kv| && v < |lay.rank| && Wired(g) && |lay.start| == |g.vertices|
    ensures TableWithin(g, Pivot(g, v)) && (UsesTable(g, v) ==> FirstUsed(Pivot(g, v), 0) <= LastUsed(Pivot(g, v), 256))
    ensures |EdgeCells(g, lay, kv, v, at)| == EdgeSize(g, lay, kv, v)
    ensures UsesTable(g, v) ==> EdgeCells(g, lay, kv, v, at) == TableCells(g, lay, KindOf(kv[v]), Pivot(g, v), at)
    ensures g.out[v] == [] ==> EdgeCells(g, lay, kv, v, at) == []
    ensures g.out[v] != [] ==> g.out[v][0] < |lay.rank| && forall i :: 0 <= i < |g.out[v]| ==> g.out[v][i] < |lay.start|
    ensures g.out[v] != [] && !UsesTable(g, v) ==>
              EdgeCells(g, lay, kv, v, at) == ForkCells(lay, KindOf(kv[v]), g.out[v], Falls(g, lay, v))
  {
    PivotWithin(g, v);
    hide TableCells, ForkCells, Pivot, MaxLen, TableWithin, Compilable, FirstUsed, LastUsed;
    if UsesTable(g, v) {
      assert g.out[v] != [];
    }
  }

  /** encodeState (src/lib/compiler.cpp:110-161) */
  method EncodeState(g: Nfa, v: nat, cg: CodeGenHelper, code: array<B.Word>, ghost kv: seq<Option<nat>>) returns (ok: bool)
    requires Compilable(g) && LaidOut(g, kv, cg.Lay(), cg.Snippets, cg.MaxLabel, cg.MaxCheck) && v < |g.vertices|
    requires cg.Lay() == LayoutOf(cg.DiscoverRanks, cg.Snippets, cg.Guard) && code.Length == cg.Guard + 2
    modifies code
    ensures ok && Fits(g, cg.Lay(), kv) && v < |cg.Lay().start|
    ensures WordsAt(code[..], cg.Lay().start[v], Snippet(g, cg.Lay(), kv, v))
    ensures SameOutside(old(code[..]), code[..], cg.Lay().start[v], cg.Lay().start[v] + SnippetSize(g, cg.Lay(), kv, v))
  {
    hide *;
    ghost var code0 := code[..];
    var lay := LayoutOf(cg.DiscoverRanks, cg.Snippets, cg.Guard);
    CompilableSizes(g);
    LaidOutUse(g, kv, lay, cg.Snippets, cg.MaxLabel, cg.MaxCheck, v);
    SnippetLength(g, lay, kv, v);
    SnippetIs(g, lay, kv, v);
    EntryIs(g, lay, v);
    ghost var evals, gates := EvalCells(g, kv, v), GateCells(g, lay, kv, v);
    var curOp := lay.start[v];
    WriteTransition(g, v, code, curOp, kv);
    ghost var code1 := code[..];
    curOp := curOp + cg.Snippets[v].numEval;
    curOp := WriteGates(g, v, lay, code, curOp, kv);
    ghost var code2 := code[..];
    WriteOn(code0, code1, code2, lay.start[v], evals, gates);
    ghost var edges := EdgeCells(g, lay, kv, v, curOp);
    EdgeParts(g, lay, kv, v, curOp);
    ok := WriteEdges(g, v, lay, code, curOp, cg.Snippets[v].End(), cg.Snippets[v].table, kv);
    WriteOn(code0, code2, code[..], lay.start[v], evals + gates, edges);
  }

  lemma LaidOutUse(g: Nfa, kv: seq<Option<nat>>, lay: Layout, snippets: seq<StateLayoutInfo>, maxLabel: nat, maxCheck: nat, v: nat)
    requires LaidOut(g, kv, lay, snippets, maxLabel, maxCheck) && v < |g.vertices|
    ensures Fits(g, lay, kv) && v < |lay.start| == |lay.check| && v < |snippets| && v < |kv|
    ensures snippets[v].numEval == NumEval(g, v) && (snippets[v].table <==> UsesTable(g, v)) && snippets[v].start == lay.start[v]
    ensures snippets[v].End() == lay.start[v] + SnippetSize(g, lay, kv, v) <= lay.guard
  {
    assert InfoIs(g, lay, kv, snippets, v);
    assert lay.start[v] + SnippetSize(g, lay, kv, v) <= lay.guard;
    hide SnippetSize, Apart, ChecksOk, UsesTable, NumEval;
  }

  // ----- the program -----

  /** The slot that the plan has for address p. */
  ghost function SlotAt(g: Nfa, lay: Layout, kv: seq<Option<nat>>, p: nat): B.Slot
    requires Fits(g, lay, kv) && |lay.start| == |g.vertices|
  {
    if p == lay.guard + 1 then B.Slot(0, B.SomeLabel, true)
    else if p < lay.guard && Owned(g, lay, kv, p) then
      var v: nat :| v < |lay.start| && lay.start[v] <= p < lay.start[v] + SnippetSize(g, lay, kv, v);
      SnippetSlot(g, lay, kv, v, p)
    else B.Slot(0, B.Unlabelled, false)
  }

  ghost function SnippetSlot(g: Nfa, lay: Layout, kv: seq<Option<nat>>, v: nat, p: nat): B.Slot
    requires Fits(g, lay, kv) && v < |g.vertices| && v < |lay.start| && lay.start[v] <= p < lay.start[v] + SnippetSize(g, lay, kv, v)
  {
    SnippetLength(g, lay, kv, v);
    Snippet(g, lay, kv, v)[p - lay.start[v]].slot
  }

  ghost function PlanOf(g: Nfa, lay: Layout, kv: seq<Option<nat>>): (r: B.Plan)
    requires Fits(g, lay, kv) && |lay.start| == |g.vertices|
    ensures |r| == lay.guard + 2 && forall p :: 0 <= p < |r| ==> r[p] == SlotAt(g, lay, kv, p)
  {
    seq(lay.guard + 2, p requires 0 <= p < lay.guard + 2 => SlotAt(g, lay, kv, p))
  }

  /** Since snippets do not overlap, the plan has the slots of every one of them. */
  lemma SlotIs(g: Nfa, lay: Layout, kv: seq<Option<nat>>, v: nat, p: nat)
    requires Fits(g, lay, kv) && |lay.start| == |g.vertices| && Apart(g, lay, kv)
    requires v < |g.vertices| && lay.start[v] <= p < lay.start[v] + SnippetSize(g, lay, kv, v) <= lay.guard
    ensures SlotAt(g, lay, kv, p) == SnippetSlot(g, lay, kv, v, p)
  {
    hide SnippetSize, SnippetSlot, UsesTable, Wired;
    assert Owned(g, lay, kv, p);
    var u: nat :| u < |lay.start| && lay.start[u] <= p < lay.start[u] + SnippetSize(g, lay, kv, u)
                  && SlotAt(g, lay, kv, p) == SnippetSlot(g, lay, kv, u, p);
  }

  lemma PlanHas(g: Nfa, lay: Layout, kv: seq<Option<nat>>, prog: B.Program, v: nat)
    requires Fits(g, lay, kv) && |lay.start| == |g.vertices| && Apart(g, lay, kv)
    requires v < |g.vertices| && lay.start[v] + SnippetSize(g, lay, kv, v) <= lay.guard && |prog.code| == lay.guard + 2
    requires WordsAt(prog.code, lay.start[v], Snippet(g, lay, kv, v))
    ensures Has(prog, PlanOf(g, lay, kv), lay.start[v], Snippet(g, lay, kv, v))
  {
    SnippetLength(g, lay, kv, v);
    var cells := Snippet(g, lay, kv, v);
    var plan := PlanOf(g, lay, kv);
    hide Snippet, SnippetSize, UsesTable, Wired, Fits, SlotAt, Apart, SnippetSlot, PlanOf;
    forall i | 0 <= i < |cells| ensures plan[lay.start[v] + i] == cells[i].slot {
      SlotIs(g, lay, kv, v, lay.start[v] + i);
      PlanSlot(g, lay, kv, v, i);
    }
  }

  lemma PlanSlot(g: Nfa, lay: Layout, kv: seq<Option<nat>>, v: nat, i: nat)
    requires Fits(g, lay, kv) && |lay.start| == |g.vertices| && v < |g.vertices|
    requires i < |Snippet(g, lay, kv, v)| && lay.start[v] + i < lay.guard && lay.start[v] + i < |PlanOf(g, lay, kv)|
    ensures PlanOf(g, lay, kv)[lay.start[v] + i] == SlotAt(g, lay, kv, lay.start[v] + i)
    ensures SnippetSlot(g, lay, kv, v, lay.start[v] + i) == Snippet(g, lay, kv, v)[i].slot
  {
    hide Snippet, SnippetSize, UsesTable, SlotAt;
  }

  /** The snippets of the first k vertices are in. */
  ghost predicate Encoded(g: Nfa, lay: Layout, kv: seq<Option<nat>>, code: seq<B.Word>, k: nat)
    requires Fits(g, lay, kv)
  {
    forall v: nat :: v < k && v < |g.vertices| && v < |lay.start| ==> WordsAt(code, lay.start[v], Snippet(g, lay, kv, v))
  }

  lemma EncodedStep(g: Nfa, lay: Layout, kv: seq<Option<nat>>, code: seq<B.Word>, code': seq<B.Word>, k: nat)
    requires Fits(g, lay, kv) && Apart(g, lay, kv) && Encoded(g, lay, kv, code, k) && k < |g.vertices| == |lay.start|
    requires WordsAt(code', lay.start[k], Snippet(g, lay, kv, k))
    requires SameOutside(code, code', lay.start[k], lay.start[k] + SnippetSize(g, lay, kv, k))
    ensures Encoded(g, lay, kv, code', k + 1)
  {
    hide Snippet, SnippetSize, UsesTable, Wired, Fits, WordsAt, SameOutside;
    forall v: nat | v < k ensures WordsAt(code', lay.start[v], Snippet(g, lay, kv, v)) {
      SnippetLength(g, lay, kv, v);
      WordsKept(code, code', lay.start[k], lay.start[k] + SnippetSize(g, lay, kv, k), lay.start[v], Snippet(g, lay, kv, v));
    }
  }

  lemma EncodedLast(g: Nfa, lay: Layout, kv: seq<Option<nat>>, code: seq<B.Word>)
    requires Fits(g, lay, kv) && Tiled(g, lay, kv) && |lay.start| == |g.vertices| && |code| == lay.guard + 2
    requires Encoded(g, lay, kv, code, |g.vertices|)
    ensures Encoded(g, lay, kv, code[lay.guard := B.Halt][lay.guard + 1 := B.Finish], |g.vertices|)
  {
    var code' := code[lay.guard := B.Halt][lay.guard + 1 := B.Finish];
    assert SameOutside(code, code', lay.guard, lay.guard + 2);
    hide Snippet, SnippetSize, UsesTable, Wired, Fits, WordsAt, SameOutside;
    forall v: nat | v < |g.vertices| ensures WordsAt(code', lay.start[v], Snippet(g, lay, kv, v)) {
      SnippetLength(g, lay, kv, v);
      WordsKept(code, code', lay.guard, lay.guard + 2, lay.start[v], Snippet(g, lay, kv, v));
    }
  }

  lemma ProgramComplete(g: Nfa, kv: seq<Option<nat>>, lay: Layout, snippets: seq<StateLayoutInfo>, prog: B.Program)
    requires Compilable(g) && Consistent(g, kv) && LaidOut(g, kv, lay, snippets, prog.maxLabel, prog.maxCheck)
    requires |prog.code| == lay.guard + 2 && Encoded(g, lay, kv, prog.code, |g.vertices|)
    requires prog.code[lay.guard] == B.Halt && prog.code[lay.guard + 1] == B.Finish
    ensures |lay.start| == |g.vertices| && Complete(Build(g, lay, kv, prog, PlanOf(g, lay, kv)))
  {
    hide *;
    LaidOutParts(g, kv, lay, snippets, prog.maxLabel, prog.maxCheck);
    CompilableWired(g);
    var plan := PlanOf(g, lay, kv);
    LastSlot(g, lay, kv);
    forall v: nat | v < |g.vertices| ensures Has(prog, plan, lay.start[v], Snippet(g, lay, kv, v)) {
      LaidOutUse(g, kv, lay, snippets, prog.maxLabel, prog.maxCheck, v);
      EncodedUse(g, lay, kv, prog.code, |g.vertices|, v);
      PlanHas(g, lay, kv, prog, v);
    }
    CompleteBy(Build(g, lay, kv, prog, plan));
  }

  lemma EncodedUse(g: Nfa, lay: Layout, kv: seq<Option<nat>>, code: seq<B.Word>, k: nat, v: nat)
    requires Fits(g, lay, kv) && Encoded(g, lay, kv, code, k) && v < k && v < |g.vertices| && v < |lay.start|
    ensures WordsAt(code, lay.start[v], Snippet(g, lay, kv, v))
  {
    hide Fits, Snippet, WordsAt;
  }

  lemma LastSlot(g: Nfa, lay: Layout, kv: seq<Option<nat>>)
    requires Fits(g, lay, kv) && |lay.start| == |g.vertices|
    ensures PlanOf(g, lay, kv)[lay.guard + 1] == B.Slot(0, B.SomeLabel, true)
  {
    hide Fits, SnippetSlot, Owned;
  }

  lemma LaidOutParts(g: Nfa, kv: seq<Option<nat>>, lay: Layout, snippets: seq<StateLayoutInfo>, maxLabel: nat, maxCheck: nat)
    requires LaidOut(g, kv, lay, snippets, maxLabel, maxCheck)
    ensures Fits(g, lay, kv) && Tiled(g, lay, kv) && Apart(g, lay, kv) && |lay.start| == |g.vertices|
    ensures ChecksOk(g, lay, maxCheck) && maxLabel < NOLABEL
    ensures forall v: nat :: v < |g.vertices| && g.vertices[v].lbl != NOLABEL ==> g.vertices[v].lbl <= maxLabel
  {
    hide InfoIs, Apart, ChecksOk, UsesTable, Tiled;
  }

  lemma CompleteBy(b: Build)
    requires Compilable(b.g) && Wired(b.g) && Consistent(b.g, b.kv) && Fits(b.g, b.lay, b.kv) && Tiled(b.g, b.lay, b.kv)
    requires Apart(b.g, b.lay, b.kv)
    requires ChecksOk(b.g, b.lay, b.prog.maxCheck) && b.prog.maxLabel < NOLABEL && |b.lay.start| == |b.g.vertices|
    requires forall v: nat :: v < |b.g.vertices| && b.g.vertices[v].lbl != NOLABEL ==> b.g.vertices[v].lbl <= b.prog.maxLabel
    requires |b.prog.code| == |b.plan| == b.lay.guard + 2
    requires forall v: nat :: v < |b.g.vertices| ==> Has(b.prog, b.plan, b.lay.start[v], Snippet(b.g, b.lay, b.kv, v))
    requires b.prog.code[b.lay.guard] == B.Halt && b.prog.code[b.lay.guard + 1] == B.Finish
    requires b.plan[b.lay.guard + 1] == B.Slot(0, B.SomeLabel, true)
    ensures Complete(b)
  {
    hide Compilable, Consistent, Fits, Tiled, Apart, ChecksOk, Has, Snippet;
  }

  /**
   Compiler::createProgram. What the program does is said in Compiled and
   Meaning of a complete build.
   */
  method CreateProgram(g: Nfa, ghost kv: seq<Option<nat>>) returns (prog: B.Program, ok: bool, ghost b: Build)
    requires Compilable(g) && Wired(g) && AllReachable(g) && Consistent(g, kv)
    ensures ok && Complete(b) && b.g == g && b.prog == prog
    ensures Filters.Admissible(g, prog.filterOff, prog.filter) && Filters.BestWindow(g, prog.filterOff, prog.filter)
  {
    hide *;
    CompilableSizes(g);
    KindsSize(g, kv);
    var numVs := |g.vertices|;
    var cg := new CodeGenHelper(numVs);
    SpecialVisit(g, cg, kv);
    ghost var lay, snippets := cg.Lay(), cg.Snippets;
    LaidOutParts(g, kv, lay, snippets, cg.MaxLabel, cg.MaxCheck);
    var code := new B.Word[cg.Guard + 2](_ => B.Halt);
    InitialIsNoMatch(g);
    var filterOff, filter := Filters.BestPair(g);
    ok := true;
    NoneEncoded(g, lay, kv, code[..]);
    ghost var ranks, guard, maxLabel, maxCheck := cg.DiscoverRanks, cg.Guard, cg.MaxLabel, cg.MaxCheck;
    for v := 0 to numVs
      invariant ok && cg.Lay() == lay && cg.Snippets == snippets && code.Length == cg.Guard + 2
      invariant cg.DiscoverRanks == ranks && cg.Guard == guard && cg.MaxLabel == maxLabel && cg.MaxCheck == maxCheck
      invariant Encoded(g, lay, kv, code[..], v)
    {
      ghost var before := code[..];
      var fine := EncodeState(g, v, cg, code, kv);
      ok := ok && fine;
      EncodedStep(g, lay, kv, before, code[..], v);
    }
    EncodedLast(g, lay, kv, code[..]);
    // penultimate instruction will always be Halt, so Vm can jump there
    code[cg.Guard] := B.Halt;
    // last instruction will always be Finish, for handling matches
    code[cg.Guard + 1] := B.Finish;
    prog := B.Program(code[..], cg.MaxLabel, cg.MaxCheck, filterOff, filter);
    ProgramComplete(g, kv, lay, snippets, prog);
    b := Build(g, lay, kv, prog, PlanOf(g, lay, kv));
  }

  lemma InitialIsNoMatch(g: Nfa)
    requires Compilable(g)
    ensures 0 < |g.vertices| && !g.vertices[0].isMatch
  {
  }

  lemma KindsSize(g: Nfa, kv: seq<Option<nat>>)
    requires Wired(g) && Consistent(g, kv)
    ensures |kv| == |g.vertices|
  {
  }

  lemma NoneEncoded(g: Nfa, lay: Layout, kv: seq<Option<nat>>, code: seq<B.Word>)
    requires Fits(g, lay, kv)
    ensures Encoded(g, lay, kv, code, 0)
  {
  }
}
