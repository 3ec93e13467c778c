/**
 The instruction words of include/instructions.h, what one of them does to a
 thread's program counter, and the meaning of a whole program: the match that
 plain backtracking prefers.

 A word is a datatype value; the operand words of a two-word FORK or JUMP and
 of a nine-word BIT_VECTOR are Ext, and an entry of a jump table is a Raw word.
 */
module Bytecode {
  import opened Basics

  const NOLABEL: nat := 0xFFFF_FFFF

  datatype Word =
    | JumpTableRange(first: Byte, last: Byte)
    | ByteOp(b: Byte)
    | BitVector(allowed: set<Byte>)
    | Either(one: Byte, two: Byte)
    | Range(first: Byte, last: Byte)
    | AnyByte
    | Finish
    | Fork(target: nat)
    | Jump(target: nat)
    | CheckHalt(index: nat)
    | Label(lbl: nat)
    | Match
    | Halt
    | Raw(value: nat)
    | Ext

  datatype Program = Program(code: seq<Word>, maxLabel: nat, maxCheck: nat,
                             filterOff: nat, filter: set<nat>)

  /** The words at which a thread waits for the next byte. */
  predicate AtRest(w: Word) {
    w.JumpTableRange? || w.ByteOp? || w.BitVector? || w.Either? || w.Range? || w.AnyByte? || w.Finish?
    || w.Raw? || w.Ext?
  }

  // ----- what is known of a thread at each word -----

  /** Which labels a thread at a word can carry. */
  datatype Kind = Unlabelled | Labelled(lbl: nat) | Maybe(lbl: nat) | SomeLabel

  predicate Fits(k: Kind, lbl: nat) {
    match k
    case Unlabelled => lbl == NOLABEL
    case Labelled(l) => lbl == l != NOLABEL
    case Maybe(l) => lbl == NOLABEL || lbl == l
    case SomeLabel => lbl != NOLABEL
  }

  predicate Within(k: Kind, k': Kind) {
    || k == k'
    || (k.Unlabelled? && k'.Maybe?)
    || (k.Labelled? && (k'.SomeLabel? || k' == Maybe(k.lbl)))
  }

  /**
   A slot says of one word: a rank that falls along every epsilon step, the
   labels a thread there can carry, and whether a thread there has passed a
   MATCH since it last read a byte (or waits at FINISH).
   */
  datatype Slot = Slot(rank: nat, kind: Kind, ended: bool)

  type Plan = seq<Slot>

  predicate EpsilonFlow(code: seq<Word>, plan: Plan, p: nat, q: nat, k: Kind, ended: bool)
    requires |plan| == |code| && p < |code|
  {
    && q < |code|
    && plan[q].rank < plan[p].rank
    && Within(k, plan[q].kind)
    && (plan[q].ended ==> ended)
  }

  predicate ByteFlow(code: seq<Word>, plan: Plan, p: nat, q: nat)
    requires |plan| == |code| && p < |code|
  {
    && q < |code|
    && Within(plan[p].kind, plan[q].kind)
    && !plan[q].ended
  }

  ghost predicate TableOk(code: seq<Word>, plan: Plan, p: nat, first: Byte, last: Byte)
    requires |plan| == |code| && p < |code|
  {
    && first <= last
    && p + 1 + (last - first) < |code|
    && forall k: nat :: p + 1 <= k <= p + 1 + (last - first) ==>
         code[k].Raw? && (code[k].value != 0 ==> ByteFlow(code, plan, p, code[k].value))
  }

  ghost predicate WordOk(prog: Program, plan: Plan, p: nat)
    requires |plan| == |prog.code| && p < |prog.code|
  {
    var code := prog.code;
    var k := plan[p].kind;
    var e := plan[p].ended;
    match code[p]
    case JumpTableRange(first, last) => TableOk(code, plan, p, first, last)
    case BitVector(_) => ByteFlow(code, plan, p, p + 9)
    case ByteOp(_) => ByteFlow(code, plan, p, p + 1)
    case Either(_, _) => ByteFlow(code, plan, p, p + 1)
    case Range(_, _) => ByteFlow(code, plan, p, p + 1)
    case AnyByte => ByteFlow(code, plan, p, p + 1)
    case Finish => (k.Labelled? || k.SomeLabel?) && e
    case Fork(t) => EpsilonFlow(code, plan, p, p + 2, k, e) && EpsilonFlow(code, plan, p, t, k, e)
    case Jump(t) => EpsilonFlow(code, plan, p, t, k, e)
    case CheckHalt(i) =>
      && (k.Unlabelled? || k.Labelled?)
      && i <= prog.maxCheck
      && EpsilonFlow(code, plan, p, p + 1, k, e)
    case Label(l) =>
      && l <= prog.maxLabel
      && (k == Unlabelled || k == Labelled(l) || k == Maybe(l))
      && !e && EpsilonFlow(code, plan, p, p + 1, Labelled(l), false)
    case Match => (k.Labelled? || k.SomeLabel?) && EpsilonFlow(code, plan, p, p + 1, k, true)
    case _ => true
  }

  ghost predicate LocksDistinct(code: seq<Word>) {
    forall p: nat, q: nat ::
      p < |code| && q < |code| && code[p].CheckHalt? && code[p] == code[q] ==> p == q
  }

  /** The program satisfies its plan. */
  ghost predicate Sound(prog: Program, plan: Plan) {
    && |plan| == |prog.code|
    && 2 <= |prog.code|
    && prog.maxLabel < NOLABEL
    && prog.code[|prog.code| - 2] == Halt
    && LocksDistinct(prog.code)
    && forall p: nat :: p < |prog.code| ==> WordOk(prog, plan, p)
  }

  // ----- single steps -----

  /** Vm::_execute (src/lib/vm.cpp:192-244): where a thread at pc goes on byte b, if it survives. */
  function ByteStep(code: seq<Word>, pc: nat, b: Byte): (next: Option<nat>)
    requires pc < |code|
  {
    match code[pc]
    case JumpTableRange(first, last) =>
      if first <= b <= last && pc + 1 + (b - first) < |code| && code[pc + 1 + (b - first)].Raw?
         && code[pc + 1 + (b - first)].value != 0
      then Some(code[pc + 1 + (b - first)].value) else None
    case ByteOp(x) => if b == x then Some(pc + 1) else None
    case BitVector(allowed) => if b in allowed then Some(pc + 9) else None
    case Either(one, two) => if b == one || b == two then Some(pc + 1) else None
    case Range(first, last) => if first <= b <= last then Some(pc + 1) else None
    case AnyByte => Some(pc + 1)
    case Finish => Some(pc)
    case _ => None
  }

  // ----- the meaning of a program -----

  /**
   The end (exclusive) of the match that backtracking prefers for label l, from
   a thread at pc that carries label lab and last matched up to end, with the
   bytes w, the first of which is at offset pos, still to come. A FORK tries the
   code after it first and its target only if that finds nothing. Locks and
   liveness play no part.
   */
  ghost function Backtrack(prog: Program, plan: Plan, l: nat, pc: nat, lab: nat, end: nat, w: seq<Byte>, pos: nat)
    : (r: Option<nat>)
    requires Sound(prog, plan) && pc < |prog.code|
    decreases |w|, plan[pc].rank
  {
    assert WordOk(prog, plan, pc);
    var i := prog.code[pc];
    if i.Finish? then (if lab == l then Some(end) else None)
    else if i.Fork? then
      OrElse(Backtrack(prog, plan, l, pc + 2, lab, end, w, pos), Backtrack(prog, plan, l, i.target, lab, end, w, pos))
    else if i.Jump? then Backtrack(prog, plan, l, i.target, lab, end, w, pos)
    else if i.CheckHalt? then Backtrack(prog, plan, l, pc + 1, lab, end, w, pos)
    else if i.Label? then Backtrack(prog, plan, l, pc + 1, i.lbl, end, w, pos)
    else if i.Match? then Backtrack(prog, plan, l, pc + 1, lab, pos, w, pos)
    else if w == [] then None
    else
      var q := ByteStep(prog.code, pc, w[0]);
      if q.None? then None else Backtrack(prog, plan, l, q.value, lab, end, w[1..], pos + 1)
  }

  /** From pc, epsilon steps are only jumps and forks, and they lead to words that read a byte. */
  ghost predicate Plain(prog: Program, plan: Plan, pc: nat)
    requires Sound(prog, plan) && pc < |prog.code|
    decreases plan[pc].rank
  {
    assert WordOk(prog, plan, pc);
    match prog.code[pc]
    case Fork(t) => Plain(prog, plan, pc + 2) && Plain(prog, plan, t)
    case Jump(t) => Plain(prog, plan, t)
    case w => AtRest(w) && !w.Finish?
  }

  /** What the search needs of a program: a sound plan, and an entry that only forks. */
  ghost predicate Runnable(prog: Program, plan: Plan) {
    && Sound(prog, plan)
    && Within(Unlabelled, plan[0].kind)
    && !plan[0].ended
    && Plain(prog, plan, 0)
  }

  // ----- facts about the meaning -----

  lemma ByteStepFlows(prog: Program, plan: Plan, pc: nat, b: Byte)
    requires Sound(prog, plan) && pc < |prog.code|
    ensures var q := ByteStep(prog.code, pc, b);
            q.Some? ==> q.value < |prog.code|
                        && (if prog.code[pc].Finish? then q.value == pc else ByteFlow(prog.code, plan, pc, q.value))
  {
    assert WordOk(prog, plan, pc);
  }
}
