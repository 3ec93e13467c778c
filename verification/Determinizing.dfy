/** NFAOptimizer::subsetDFA and its helpers (src/lib/nfaoptimizer.cpp:381-542). */
module Determinizing {
  import opened Basics
  import opened Automata
  import opened Sequences
  import opened Graphs
  import opened Subsets
  import Transitions

  datatype SubsetState = SubsetState(bytes: set<Byte>, list: seq<nat>)

  // ----- groups -----

  ghost predicate IsMatch(g: Nfa, v: nat) {
    v < |g.vertices| && g.vertices[v].isMatch
  }

  /** A list cut so that match vertices are alone and the others stay together between them. */
  ghost function Groups(g: Nfa, ts: seq<nat>): (r: seq<seq<nat>>)
    ensures r == [] <==> ts == []
    decreases |ts|
  {
    if ts == [] then []
    else
      var front, t := ts[..|ts| - 1], ts[|ts| - 1];
      var gs := Groups(g, front);
      if IsMatch(g, t) || front == [] || IsMatch(g, front[|front| - 1]) then gs + [[t]]
      else gs[..|gs| - 1] + [gs[|gs| - 1] + [t]]
  }

  ghost function Concat(gs: seq<seq<nat>>): seq<nat> {
    if gs == [] then [] else Concat(gs[..|gs| - 1]) + gs[|gs| - 1]
  }

  ghost predicate Alone(g: Nfa, grp: seq<nat>) {
    |grp| == 1 && IsMatch(g, grp[0])
  }

  ghost predicate GroupOk(g: Nfa, grp: seq<nat>) {
    grp != [] && (Alone(g, grp) || forall i :: 0 <= i < |grp| ==> !IsMatch(g, grp[i]))
  }

  /** Of two neighbours, one at least is a match alone. */
  ghost predicate ApartGroups(g: Nfa, gs: seq<seq<nat>>) {
    forall i :: 0 <= i < |gs| - 1 ==> Alone(g, gs[i]) || Alone(g, gs[i + 1])
  }

  ghost predicate AllOk(g: Nfa, gs: seq<seq<nat>>) {
    forall i :: 0 <= i < |gs| ==> GroupOk(g, gs[i])
  }

  /** The groups are the list, each is one match vertex or none, and none follows none. */
  ghost predicate Cut(g: Nfa, ts: seq<nat>, gs: seq<seq<nat>>) {
    && Concat(gs) == ts && AllOk(g, gs) && ApartGroups(g, gs)
    && (gs == [] <==> ts == [])
    && (ts != [] ==> gs[|gs| - 1] != [] && gs[|gs| - 1][|gs[|gs| - 1]| - 1] == ts[|ts| - 1])
  }

  lemma ConcatSnoc(gs: seq<seq<nat>>, grp: seq<nat>)
    ensures Concat(gs + [grp]) == Concat(gs) + grp
  {
    assert (gs + [grp])[..|gs|] == gs;
  }

  lemma GroupsSnoc(g: Nfa, front: seq<nat>, t: nat)
    ensures var gs := Groups(g, front);
            Groups(g, front + [t])
            == (if IsMatch(g, t) || front == [] || IsMatch(g, front[|front| - 1]) then gs + [[t]]
                else gs[..|gs| - 1] + [gs[|gs| - 1] + [t]])
  {
    assert (front + [t])[..|front|] == front;
  }

  /** A group of its own. */
  lemma CutNew(g: Nfa, front: seq<nat>, gs: seq<seq<nat>>, t: nat)
    requires Cut(g, front, gs) && (IsMatch(g, t) || front == [] || IsMatch(g, front[|front| - 1]))
    ensures Cut(g, front + [t], gs + [[t]])
  {
    ConcatSnoc(gs, [t]);
    var r := gs + [[t]];
    forall i | 0 <= i < |r| ensures GroupOk(g, r[i]) {
      if i < |gs| {
        assert GroupOk(g, gs[i]);
      }
    }
    forall i | 0 <= i < |r| - 1 ensures Alone(g, r[i]) || Alone(g, r[i + 1]) {
      if i + 1 < |gs| {
        assert Alone(g, gs[i]) || Alone(g, gs[i + 1]);
      } else {
        assert GroupOk(g, gs[i]);
      }
    }
  }

  /** One more in the last group, of vertices none of which is a match. */
  lemma CutMore(g: Nfa, front: seq<nat>, gs: seq<seq<nat>>, t: nat)
    requires Cut(g, front, gs) && front != [] && !IsMatch(g, t) && !IsMatch(g, front[|front| - 1])
    ensures gs != [] && Cut(g, front + [t], gs[..|gs| - 1] + [gs[|gs| - 1] + [t]])
  {
    var rest, last := gs[..|gs| - 1], gs[|gs| - 1];
    assert gs == rest + [last];
    ConcatSnoc(rest, last);
    ConcatSnoc(rest, last + [t]);
    assert Concat(rest) + (last + [t]) == Concat(rest) + last + [t];
    var r := rest + [last + [t]];
    assert GroupOk(g, last) && !Alone(g, last);
    assert GroupOk(g, last + [t]) && !Alone(g, last + [t]);
    forall i | 0 <= i < |r| ensures GroupOk(g, r[i]) {
      if i < |rest| {
        assert r[i] == gs[i] && GroupOk(g, gs[i]);
      }
    }
    forall i | 0 <= i < |r| - 1 ensures Alone(g, r[i]) || Alone(g, r[i + 1]) {
      assert r[i] == gs[i];
      assert Alone(g, gs[i]) || Alone(g, gs[i + 1]);
      if i + 1 < |rest| {
        assert r[i + 1] == gs[i + 1];
      } else {
        assert gs[i + 1] == last;
      }
    }
  }

  lemma {:induction false} GroupsCut(g: Nfa, ts: seq<nat>)
    ensures Cut(g, ts, Groups(g, ts))
    decreases |ts|
  {
    hide Cut, Alone, GroupOk;
    if ts != [] {
      var front, t := ts[..|ts| - 1], ts[|ts| - 1];
      assert ts == front + [t];
      GroupsCut(g, front);
      GroupsSnoc(g, front, t);
      if IsMatch(g, t) || front == [] || IsMatch(g, front[|front| - 1]) {
        CutNew(g, front, Groups(g, front), t);
      } else {
        CutMore(g, front, Groups(g, front), t);
      }
    } else {
      NothingCut(g);
    }
  }

  lemma NothingCut(g: Nfa)
    ensures Cut(g, [], [])
  {
  }

  lemma {:induction false} ConcatPart(gs: seq<seq<nat>>, i: nat)
    requires i < |gs|
    ensures exists a, b :: Concat(gs) == a + gs[i] + b
    decreases |gs|
  {
    var front := gs[..|gs| - 1];
    if i < |gs| - 1 {
      ConcatPart(front, i);
      var a, b :| Concat(front) == a + front[i] + b;
      assert Concat(gs) == a + gs[i] + (b + gs[|gs| - 1]);
    } else {
      assert Concat(gs) == Concat(front) + gs[i] + [];
    }
  }

  lemma CutUse(g: Nfa, ts: seq<nat>, gs: seq<seq<nat>>)
    requires Cut(g, ts, gs)
    ensures Concat(gs) == ts && ApartGroups(g, gs)
    ensures forall i :: 0 <= i < |gs| ==> GroupOk(g, gs[i])
  {
    hide GroupOk, Alone, Concat, ApartGroups;
  }

  lemma PartFits(g: Nfa, a: seq<nat>, grp: seq<nat>, b: seq<nat>)
    requires NoRepeats(a + grp + b) && Within(g, a + grp + b)
    ensures NoRepeats(grp) && Within(g, grp)
  {
    var ts := a + grp + b;
    forall j | 0 <= j < |grp| ensures grp[j] < |g.vertices| {
      assert grp[j] == ts[|a| + j];
    }
    forall j, k | 0 <= j < k < |grp| ensures grp[j] != grp[k] {
      assert grp[j] == ts[|a| + j] && grp[k] == ts[|a| + k];
    }
  }

  /** A group of a list without repeats, of vertices of the source, can be stood for. */
  lemma GroupFits(src: Nfa, ts: seq<nat>, i: nat)
    requires Wired(src) && NoRepeats(ts) && Within(src, ts) && i < |Groups(src, ts)|
    ensures var grp := Groups(src, ts)[i]; GroupOk(src, grp) && NoRepeats(grp) && Within(src, grp)
  {
    hide *;
    GroupsCut(src, ts);
    CutUse(src, ts, Groups(src, ts));
    var grp := Groups(src, ts)[i];
    ConcatPart(Groups(src, ts), i);
    var a, b :| ts == a + grp + b;
    PartFits(src, a, grp, b);
  }

  /** addToDeterminizationGroup */
  method AddToGroup(src: Nfa, t: nat, gs: seq<seq<nat>>, startGroup: bool) returns (gs': seq<seq<nat>>, startGroup': bool)
    requires t < |src.vertices| && (startGroup || gs != [])
    ensures gs' == (if IsMatch(src, t) || startGroup then gs + [[t]] else gs[..|gs| - 1] + [gs[|gs| - 1] + [t]])
    ensures startGroup' == IsMatch(src, t)
  {
    gs', startGroup' := gs, startGroup;
    if src.vertices[t].isMatch {
      // match states are always singleton groups
      gs' := gs' + [[]];
      startGroup' := true;
    } else if startGroup {
      gs' := gs' + [[]];
      startGroup' := false;
    }
    var last := gs'[|gs'| - 1];
    gs' := gs'[..|gs'| - 1] + [last + [t]];
    assert (gs + [[]])[..|gs|] == gs && [] + [t] == [t];
  }

  /** The loop over one tail list. */
  method GroupTails(src: Nfa, ts: seq<nat>) returns (gs: seq<seq<nat>>)
    requires Wired(src) && Within(src, ts)
    ensures gs == Groups(src, ts)
  {
    hide *;
    NoGroups(src, ts);
    gs := [];
    var startGroup := true;
    for i := 0 to |ts|
      invariant gs == Groups(src, ts[..i])
      invariant startGroup == (i == 0 || IsMatch(src, ts[i - 1]))
    {
      ghost var front := ts[..i];
      TakeNext(ts, i);
      GroupsSnoc(src, front, ts[i]);
      gs, startGroup := AddToGroup(src, ts[i], gs, startGroup);
    }
    assert ts[..|ts|] == ts;
  }

  lemma NoGroups(src: Nfa, ts: seq<nat>)
    requires Within(src, ts)
    ensures Groups(src, ts[..0]) == [] && forall i :: 0 <= i < |ts| ==> ts[i] < |src.vertices|
  {
  }

  lemma TakeNext(ts: seq<nat>, i: nat)
    requires i < |ts|
    ensures ts[..i + 1] == ts[..i] + [ts[i]] && (i > 0 ==> ts[..i][|ts[..i]| - 1] == ts[i - 1])
    ensures ts[..i] == [] <==> i == 0
  {
  }

  // ----- neighborhoods, byte by byte -----

  /** makePerByteOutNeighborhoods: add the successors of one head to the list of every byte they permit. */
  method AddOutNeighborhood(src: Nfa, head: nat, lists: seq<seq<nat>>) returns (r: seq<seq<nat>>)
    requires Wired(src) && head < |src.vertices| && |lists| == 256
    ensures |r| == 256 && forall x: Byte :: r[x] == lists[x] + Via(src, src.out[head], x)
  {
    hide Via;
    r := lists;
    var ts := src.out[head];
    forall x: Byte ensures Via(src, ts[..0], x) == [] {
      ViaNothing(src, x);
    }
    for i := 0 to |ts|
      invariant |r| == 256 && forall x: Byte :: r[x] == lists[x] + Via(src, ts[..i], x)
    {
      assert ts[..i + 1] == ts[..i] + [ts[i]];
      ghost var before := r;
      r := AddTail(src, ts[i], r);
      forall x: Byte ensures r[x] == lists[x] + Via(src, ts[..i + 1], x) {
        ViaSnoc(src, ts[..i], ts[i], x);
      }
    }
    assert ts[..|ts|] == ts;
  }

  lemma ViaNothing(g: Nfa, x: Byte)
    ensures Via(g, [], x) == []
  {
  }

  /** The inner loop: one successor, for every byte. */
  method AddTail(src: Nfa, t: nat, lists: seq<seq<nat>>) returns (r: seq<seq<nat>>)
    requires t < |src.vertices| && |lists| == 256
    ensures |r| == 256 && forall x: Byte :: r[x] == lists[x] + if Permits(src, t, x) then [t] else []
  {
    r := lists;
    for b := 0 to 256
      invariant |r| == 256
      invariant forall x: Byte :: r[x] == lists[x] + (if x < b && Permits(src, t, x) then [t] else [])
    {
      if Permits(src, t, b) {
        r := r[b := r[b] + [t]];
      }
    }
  }

  /** The first loops of handleSubsetState: where the heads lead on every byte. */
  method Neighborhoods(src: Nfa, heads: seq<nat>) returns (r: seq<seq<nat>>)
    requires Wired(src) && Within(src, heads)
    ensures |r| == 256 && forall x: Byte :: r[x] == Neighborhood(src, heads, x)
  {
    var lists: seq<seq<nat>> := seq(256, i => []);
    for i := 0 to |heads|
      invariant |lists| == 256 && forall x: Byte :: lists[x] == FlatMap(Moves(src, x), heads[..i])
    {
      assert heads[..i + 1] == heads[..i] + [heads[i]];
      forall x: Byte
        ensures FlatMap(Moves(src, x), heads[..i + 1])
             == FlatMap(Moves(src, x), heads[..i]) + Via(src, src.out[heads[i]], x)
      {
        FlatMapSnoc(Moves(src, x), heads[..i], heads[i]);
      }
      lists := AddOutNeighborhood(src, heads[i], lists);
    }
    assert heads[..|heads|] == heads;
    r := lists;
    for b := 0 to 256
      invariant |r| == 256
      invariant forall x: Byte :: r[x] == (if x < b then Dedup(lists[x]) else lists[x])
    {
      var d := RemoveRightDuplicates(r[b]);
      r := r[b := d];
    }
  }

  ghost predicate Covered(m: map<set<Byte>, seq<nat>>, x: Byte) {
    exists bs :: bs in m && x in bs
  }

  /** Byte sets that partition the bytes by the list they have. */
  ghost predicate ByBytes(lists: seq<seq<nat>>, m: map<set<Byte>, seq<nat>>)
    requires |lists| == 256
  {
    && (forall bs, x: Byte :: bs in m && x in bs ==> lists[x] == m[bs])
    && (forall x: Byte :: Covered(m, x))
    && (forall bs :: bs in m ==> bs != {})
    && (forall bs, bs', x: Byte :: bs in m && bs' in m && x in bs && x in bs' ==> bs == bs')
  }

  /** The bytes below n have been marked. */
  ghost predicate Marked(lists: seq<seq<nat>>, n: nat, byList: map<seq<nat>, set<Byte>>)
    requires |lists| == 256
  {
    && (forall x: Byte :: x < n ==> lists[x] in byList && x in byList[lists[x]])
    && (forall ts :: ts in byList ==> byList[ts] != {} && forall x: Byte :: x in byList[ts] ==> x < n && lists[x] == ts)
  }

  function MarkByte(lists: seq<seq<nat>>, b: Byte, byList: map<seq<nat>, set<Byte>>): map<seq<nat>, set<Byte>>
    requires |lists| == 256
  {
    var ts := lists[b];
    byList[ts := (if ts in byList then byList[ts] else {}) + {b}]
  }

  lemma MarkStep(lists: seq<seq<nat>>, b: Byte, byList: map<seq<nat>, set<Byte>>)
    requires |lists| == 256 && Marked(lists, b, byList)
    ensures Marked(lists, b + 1, MarkByte(lists, b, byList))
  {
    var r := MarkByte(lists, b, byList);
    assert b in r[lists[b]];
    forall ts | ts in r ensures r[ts] != {} && forall x: Byte :: x in r[ts] ==> x < b + 1 && lists[x] == ts {
    }
  }

  /** makeByteSetsWithDistinctOutNeighborhoods: mark the bytes of each list, then invert the map. */
  method ByteSetsByList(lists: seq<seq<nat>>) returns (m: map<set<Byte>, seq<nat>>)
    requires |lists| == 256
    ensures ByBytes(lists, m)
  {
    var byList: map<seq<nat>, set<Byte>> := map[];
    for b := 0 to 256
      invariant Marked(lists, b, byList)
    {
      MarkStep(lists, b, byList);
      byList := MarkByte(lists, b, byList);
    }
    m := map[];
    var todo := byList.Keys;
    while todo != {}
      invariant todo <= byList.Keys
      invariant forall ts :: ts in byList && ts !in todo ==> byList[ts] in m && m[byList[ts]] == ts
      invariant forall bs :: bs in m ==> m[bs] in byList && m[bs] !in todo && byList[m[bs]] == bs
      decreases |todo|
    {
      var ts :| ts in todo;
      m := m[byList[ts] := ts];
      todo := todo - {ts};
    }
    forall x: Byte ensures Covered(m, x) {
      assert byList[lists[x]] in m && x in byList[lists[x]];
    }
  }

  // ----- the destination as it grows -----

  function Lists(states: seq<SubsetState>): (r: seq<seq<nat>>)
    ensures |r| == |states| && forall d :: 0 <= d < |states| ==> r[d] == states[d].list
  {
    seq(|states|, d requires 0 <= d < |states| => states[d].list)
  }

  /** Vertex d of the destination stands for the d-th subset state. */
  ghost predicate Built(src: Nfa, g: Nfa, states: seq<SubsetState>) {
    && Wired(g)
    && |states| == |g.vertices|
    && states[0] == SubsetState({}, [0])
    && (forall d: nat :: d < |states| ==> StandsFor(src, g, d, states[d].list))
    && (forall d: nat, x: Byte :: d < |states| ==> (Permits(g, d, x) <==> x in states[d].bytes))
  }

  /** The map sends each subset state to its vertex. */
  ghost predicate Indexed(ids: map<SubsetState, nat>, states: seq<SubsetState>) {
    && (forall d :: 0 <= d < |states| ==> states[d] in ids && ids[states[d]] == d)
    && (forall ss :: ss in ids ==> ids[ss] < |states| && states[ids[ss]] == ss)
  }

  /** The lists that the successors of d on x stand for, in order. */
  ghost function ViaLists(g: Nfa, states: seq<SubsetState>, d: nat, x: Byte): (r: seq<seq<nat>>)
    requires d < |g.out| && |states| == |g.vertices|
  {
    var via := Via(g, g.out[d], x);
    seq(|via|, i requires 0 <= i < |via| => if via[i] < |states| then states[via[i]].list else [])
  }

  lemma ViaIn(g: Nfa, ts: seq<nat>, x: Byte, i: nat)
    requires i < |Via(g, ts, x)|
    ensures Via(g, ts, x)[i] < |g.vertices| && Permits(g, Via(g, ts, x)[i], x)
  {
    assert Via(g, ts, x)[i] in Via(g, ts, x);
  }

  lemma {:induction false} ConcatLists(g: Nfa, states: seq<SubsetState>, ds: seq<nat>, gs: seq<seq<nat>>)
    requires Within(g, ds) && |states| == |g.vertices| && |gs| == |ds|
    requires forall i :: 0 <= i < |ds| ==> gs[i] == states[ds[i]].list
    ensures FlatMap(ListOf(Lists(states)), ds) == Concat(gs)
    decreases |ds|
  {
    if ds != [] {
      var front, d := ds[..|ds| - 1], ds[|ds| - 1];
      assert ds == front + [d];
      ConcatLists(g, states, front, gs[..|gs| - 1]);
      FlatMapSnoc(ListOf(Lists(states)), front, d);
    }
  }

  /** A vertex that stands for a match vertex alone is a match. */
  lemma AloneIsMatch(src: Nfa, g: Nfa, d: nat, vs: seq<nat>)
    requires d < |g.vertices| && StandsFor(src, g, d, vs)
    ensures Alone(src, vs) ==> g.vertices[d].isMatch
  {
  }

  lemma ViaListsAt(g: Nfa, states: seq<SubsetState>, d: nat, x: Byte, i: nat)
    requires d < |g.out| && |states| == |g.vertices| && i < |Via(g, g.out[d], x)|
    ensures Via(g, g.out[d], x)[i] < |g.vertices|
    ensures ViaLists(g, states, d, x)[i] == states[Via(g, g.out[d], x)[i]].list
  {
    ViaIn(g, g.out[d], x, i);
  }

  lemma ViaListsConcat(g: Nfa, states: seq<SubsetState>, d: nat, x: Byte)
    requires d < |g.out| && |states| == |g.vertices|
    ensures FlatMap(ListOf(Lists(states)), Via(g, g.out[d], x)) == Concat(ViaLists(g, states, d, x))
  {
    hide ViaLists, Via, Lists, ListOf;
    ViaListsLength(g, states, d, x);
    forall i | 0 <= i < |Via(g, g.out[d], x)|
      ensures Via(g, g.out[d], x)[i] < |g.vertices|
      ensures ViaLists(g, states, d, x)[i] == states[Via(g, g.out[d], x)[i]].list
    {
      ViaListsAt(g, states, d, x, i);
    }
    ConcatLists(g, states, Via(g, g.out[d], x), ViaLists(g, states, d, x));
  }

  lemma ViaListsLength(g: Nfa, states: seq<SubsetState>, d: nat, x: Byte)
    requires d < |g.out| && |states| == |g.vertices|
    ensures |ViaLists(g, states, d, x)| == |Via(g, g.out[d], x)|
  {
  }

  lemma GroupsSeparated(src: Nfa, g: Nfa, states: seq<SubsetState>, d: nat, x: Byte, ts: seq<nat>)
    requires Wired(src) && Built(src, g, states) && d < |g.vertices| && ViaLists(g, states, d, x) == Groups(src, ts)
    ensures Separated(g, Via(g, g.out[d], x))
  {
    hide *;
    GroupsCut(src, ts);
    CutUse(src, ts, Groups(src, ts));
    BuiltSizes(src, g, states);
    var gs := ViaLists(g, states, d, x);
    var via := Via(g, g.out[d], x);
    ViaListsLength(g, states, d, x);
    forall i | 0 <= i < |via| - 1 && via[i] < |g.vertices| && via[i + 1] < |g.vertices|
      ensures g.vertices[via[i]].isMatch || g.vertices[via[i + 1]].isMatch
    {
      ApartAt(src, gs, i);
      ViaListsAt(g, states, d, x, i);
      ViaListsAt(g, states, d, x, i + 1);
      BuiltStands(src, g, states, via[i]);
      BuiltStands(src, g, states, via[i + 1]);
      AloneIsMatch(src, g, via[i], states[via[i]].list);
      AloneIsMatch(src, g, via[i + 1], states[via[i + 1]].list);
    }
    SeparatedBy(g, via);
  }

  lemma SeparatedBy(g: Nfa, ts: seq<nat>)
    requires forall i :: 0 <= i < |ts| - 1 && ts[i] < |g.vertices| && ts[i + 1] < |g.vertices| ==>
               g.vertices[ts[i]].isMatch || g.vertices[ts[i + 1]].isMatch
    ensures Separated(g, ts)
  {
  }

  lemma ApartAt(g: Nfa, gs: seq<seq<nat>>, i: nat)
    requires ApartGroups(g, gs) && i + 1 < |gs|
    ensures Alone(g, gs[i]) || Alone(g, gs[i + 1])
  {
    hide Alone;
  }

  lemma BuiltStands(src: Nfa, g: Nfa, states: seq<SubsetState>, d: nat)
    requires Built(src, g, states) && d < |g.vertices|
    ensures d < |states| && StandsFor(src, g, d, states[d].list)
  {
    hide StandsFor, Wired;
  }

  /** A vertex whose successors on x stand for the groups of the neighborhood steps there. */
  lemma GroupsStep(src: Nfa, g: Nfa, states: seq<SubsetState>, d: nat, x: Byte)
    requires Wired(src) && Built(src, g, states) && d < |g.vertices|
    requires ViaLists(g, states, d, x) == Groups(src, Neighborhood(src, states[d].list, x))
    ensures StepsTo(src, g, Lists(states), d, x)
  {
    hide *;
    BuiltSizes(src, g, states);
    var ts := Neighborhood(src, states[d].list, x);
    GroupsSeparated(src, g, states, d, x, ts);
    ViaListsConcat(g, states, d, x);
    GroupsCut(src, ts);
    CutUse(src, ts, Groups(src, ts));
    StepsBy(src, g, Lists(states), d, x);
  }

  lemma StepsBy(src: Nfa, g: Nfa, lists: seq<seq<nat>>, d: nat, x: Byte)
    requires d < |g.out| && d < |lists|
    requires FlatMap(ListOf(lists), Via(g, g.out[d], x)) == Neighborhood(src, lists[d], x) && Separated(g, Via(g, g.out[d], x))
    ensures StepsTo(src, g, lists, d, x)
  {
    hide FlatMap, Via, Neighborhood, Separated;
  }

  ghost predicate Extends(g: Nfa, g': Nfa, states: seq<SubsetState>, states': seq<SubsetState>) {
    && |states| == |g.vertices| == |g.out| && |states'| == |g'.vertices| == |g'.out|
    && states <= states' && g.vertices <= g'.vertices
  }

  /** Growing leaves the successors of an untouched vertex as they are. */
  lemma {:induction false} ViaExtends(g: Nfa, g': Nfa, ts: seq<nat>, x: Byte)
    requires g.vertices <= g'.vertices && Within(g, ts)
    ensures Via(g', ts, x) == Via(g, ts, x)
    decreases |ts|
  {
    if ts != [] {
      ViaExtends(g, g', ts[1..], x);
    }
  }

  lemma UntouchedStep(g: Nfa, g': Nfa, states: seq<SubsetState>, states': seq<SubsetState>, d: nat, x: Byte)
    requires Wired(g) && Extends(g, g', states, states') && d < |g.out| && g'.out[d] == g.out[d]
    ensures ViaLists(g', states', d, x) == ViaLists(g, states, d, x)
  {
    ViaExtends(g, g', g.out[d], x);
    forall i | 0 <= i < |Via(g, g.out[d], x)| ensures Via(g, g.out[d], x)[i] < |g.vertices| {
      ViaIn(g, g.out[d], x, i);
    }
  }

  /** One more edge, to a vertex for the given bytes and list. */
  lemma EdgeStep(g: Nfa, g': Nfa, states: seq<SubsetState>, states': seq<SubsetState>, head: nat, tail: nat, x: Byte)
    requires Wired(g) && Extends(g, g', states, states') && head < |g.out|
    requires tail < |g'.vertices| && g'.out[head] == g.out[head] + [tail]
    requires Permits(g', tail, x) <==> x in states'[tail].bytes
    ensures ViaLists(g', states', head, x)
         == ViaLists(g, states, head, x) + (if x in states'[tail].bytes then [states'[tail].list] else [])
  {
    ViaSnoc(g', g.out[head], tail, x);
    ViaExtends(g, g', g.out[head], x);
    forall i | 0 <= i < |Via(g, g.out[head], x)| ensures Via(g, g.out[head], x)[i] < |g.vertices| {
      ViaIn(g, g.out[head], x, i);
    }
  }

  /** The vertex of a new subset state. */
  ghost predicate FitsState(src: Nfa, v: Vertex, ss: SubsetState) {
    && GroupOk(src, ss.list) && NoRepeats(ss.list) && Within(src, ss.list)
    && (forall x: Byte :: v.trans.Permits(x) <==> x in ss.bytes)
    && v.isMatch == src.vertices[ss.list[0]].isMatch
    && (v.isMatch ==> v.lbl == src.vertices[ss.list[0]].lbl)
  }

  /** One more vertex for a subset state, and one more edge. */
  lemma BuiltNew(src: Nfa, g: Nfa, g': Nfa, states: seq<SubsetState>, ss: SubsetState, v: Vertex)
    requires Wired(src) && Built(src, g, states) && Wired(g')
    requires g'.vertices == g.vertices + [v] && FitsState(src, v, ss)
    ensures Built(src, g', states + [ss])
  {
    var states' := states + [ss];
    forall d: nat | d < |states'| ensures StandsFor(src, g', d, states'[d].list) {
      if d < |states| {
        assert StandsFor(src, g, d, states[d].list);
      }
    }
    forall d: nat, x: Byte | d < |states'| ensures Permits(g', d, x) <==> x in states'[d].bytes {
      assert d < |states| ==> (Permits(g, d, x) <==> x in states[d].bytes);
    }
  }

  lemma BuiltOld(src: Nfa, g: Nfa, g': Nfa, states: seq<SubsetState>)
    requires Built(src, g, states) && Wired(g') && g'.vertices == g.vertices
    ensures Built(src, g', states)
  {
    forall d: nat | d < |states| ensures StandsFor(src, g', d, states[d].list) {
      assert StandsFor(src, g, d, states[d].list);
    }
    forall d: nat, x: Byte | d < |states| ensures Permits(g', d, x) <==> x in states[d].bytes {
      assert Permits(g, d, x) <==> x in states[d].bytes;
    }
  }

  lemma IndexedNew(ids: map<SubsetState, nat>, states: seq<SubsetState>, ss: SubsetState)
    requires Indexed(ids, states) && ss !in ids
    ensures Indexed(ids[ss := |states|], states + [ss])
  {
  }

  /** The state of the graph that makeDestinationState leaves. */
  ghost predicate Made(g: Nfa, g': Nfa, states: seq<SubsetState>, states': seq<SubsetState>,
                       ids: map<SubsetState, nat>, ids': map<SubsetState, nat>,
                       stack: seq<SubsetState>, stack': seq<SubsetState>, head: nat, ss: SubsetState)
  {
    && head < |g.out| && ss in ids'
    && states' == (if ss in ids then states else states + [ss])
    && stack' == (if ss in ids then stack else stack + [ss])
    && g'.out == (g.out + (if ss in ids then [] else [[]]))[head := g.out[head] + [ids'[ss]]]
    && g.vertices <= g'.vertices
  }

  /** Nothing leads to the initial vertex, everything can be reached from it, and every other one reads some byte. */
  ghost predicate Shaped(g: Nfa, states: seq<SubsetState>) {
    && Wired(g) && AllReachable(g) && |states| == |g.vertices|
    && g.vertices[0] == Vertex(NoTransition, false, NOLABEL)
    && (forall v: nat, i: nat :: v < |g.out| && i < |g.out[v]| ==> g.out[v][i] != 0)
    && (forall d :: 0 < d < |states| ==> states[d].bytes != {})
    && (forall d :: 0 <= d < |g.vertices| ==> !g.vertices[d].isMatch ==> g.vertices[d].lbl == NOLABEL)
  }

  lemma ShapedStep(src: Nfa, g: Nfa, g': Nfa, states: seq<SubsetState>, states': seq<SubsetState>,
                   ids: map<SubsetState, nat>, ids': map<SubsetState, nat>,
                   stack: seq<SubsetState>, stack': seq<SubsetState>, head: nat, ss: SubsetState, v: Vertex)
    requires Shaped(g, states) && Built(src, g', states') && Indexed(ids', states')
    requires Made(g, g', states, states', ids, ids', stack, stack', head, ss) && ss.bytes != {}
    requires g'.vertices == g.vertices + if ss in ids then [] else [v]
    requires !v.isMatch ==> v.lbl == NOLABEL
    ensures Shaped(g', states')
  {
    hide *;
    ShapedUse(g, states);
    MadeThere(g, g', states, states', ids, ids', stack, stack', head, ss);
    MadeEdges(src, g, g', states, states', ids, ids', stack, stack', head, ss);
    var tail := ids'[ss];
    NotFirst(src, g', states', ids', ss);
    MadeReaches(g, g', head, tail);
    ShapedBy(g, g', states, states', head, tail, ss, v, ss in ids);
  }

  lemma ShapedUse(g: Nfa, states: seq<SubsetState>)
    requires Shaped(g, states)
    ensures Wired(g) && AllReachable(g) && |states| == |g.vertices| == |g.out|
  {
    hide AllReachable;
  }

  lemma MadeThere(g: Nfa, g': Nfa, states: seq<SubsetState>, states': seq<SubsetState>,
                  ids: map<SubsetState, nat>, ids': map<SubsetState, nat>,
                  stack: seq<SubsetState>, stack': seq<SubsetState>, head: nat, ss: SubsetState)
    requires Made(g, g', states, states', ids, ids', stack, stack', head, ss)
    ensures ss in ids'
  {
  }

  lemma NotFirst(src: Nfa, g: Nfa, states: seq<SubsetState>, ids: map<SubsetState, nat>, ss: SubsetState)
    requires Built(src, g, states) && Indexed(ids, states) && ss in ids && ss.bytes != {}
    ensures 0 < ids[ss] < |states|
  {
    assert states[ids[ss]] == ss && states[0].bytes == {};
    hide StandsFor, Permits;
  }

  /** A new edge, maybe to a new vertex, keeps everything in reach. */
  lemma MadeReaches(g: Nfa, g': Nfa, head: nat, tail: nat)
    requires Wired(g) && Wired(g') && AllReachable(g) && head < |g.out| == |g.vertices|
    requires |g'.vertices| == |g.vertices| || (|g'.vertices| == |g.vertices| + 1 && tail == |g.vertices|)
    requires forall x: nat :: x < |g'.out| ==> g'.out[x] == if x == head then g.out[x] + [tail] else if x < |g.out| then g.out[x] else []
    ensures AllReachable(g')
  {
    forall s: set<nat> | ClosedUnder(g', s) && 0 in s ensures forall d: nat :: d < |g'.vertices| ==> d in s {
      forall x: nat, i: nat | x in s && x < |g.out| && i < |g.out[x]| ensures g.out[x][i] in s {
        assert g'.out[x][i] == g.out[x][i];
      }
      assert ClosedUnder(g, s);
      assert head in s;
      assert g'.out[head][|g.out[head]|] == tail;
      assert tail in s;
    }
  }

  lemma ShapedBy(g: Nfa, g': Nfa, states: seq<SubsetState>, states': seq<SubsetState>, head: nat, tail: nat, ss: SubsetState, v: Vertex,
                 there: bool)
    requires Shaped(g, states) && Wired(g') && AllReachable(g') && |states'| == |g'.vertices| && head < |g.out| == |g.vertices| && tail > 0
    requires g'.vertices == g.vertices + if there then [] else [v]
    requires states' == (if there then states else states + [ss]) && ss.bytes != {} && (!v.isMatch ==> v.lbl == NOLABEL)
    requires forall x: nat :: x < |g'.out| ==> g'.out[x] == if x == head then g.out[x] + [tail] else if x < |g.out| then g.out[x] else []
    ensures Shaped(g', states')
  {
    hide AllReachable;
    forall x: nat, i: nat | x < |g'.out| && i < |g'.out[x]| ensures g'.out[x][i] != 0 {
      if x < |g.out| && i < |g.out[x]| {
        assert g'.out[x][i] == g.out[x][i];
      }
    }
  }

  lemma MadeEdges(src: Nfa, g: Nfa, g': Nfa, states: seq<SubsetState>, states': seq<SubsetState>,
                  ids: map<SubsetState, nat>, ids': map<SubsetState, nat>,
                  stack: seq<SubsetState>, stack': seq<SubsetState>, head: nat, ss: SubsetState)
    requires Wired(g) && |states| == |g.vertices| && Built(src, g', states') && Indexed(ids', states')
    requires Made(g, g', states, states', ids, ids', stack, stack', head, ss)
    ensures Wired(g') && |states'| == |g'.vertices| && head < |g.vertices|
    ensures states' == if ss in ids then states else states + [ss]
    ensures ids'[ss] < |states'| && (ss !in ids ==> ids'[ss] == |states|)
    ensures forall x: nat :: x < |g'.out| ==> g'.out[x] == if x == head then g.out[x] + [ids'[ss]] else if x < |g.out| then g.out[x] else []
  {
    if ss !in ids {
      assert states'[|states|] == ss;
    }
    hide StandsFor, Permits;
  }

  /** makeDestinationState */
  method MakeDestinationState(src: Nfa, dst: Graph, head: nat, bs: set<Byte>, list: seq<nat>,
                              ids: map<SubsetState, nat>, stack: seq<SubsetState>, ghost states: seq<SubsetState>)
    returns (ids': map<SubsetState, nat>, stack': seq<SubsetState>, ghost states': seq<SubsetState>)
    requires Wired(src) && dst.Valid() && Built(src, dst.Value(), states) && Indexed(ids, states)
    requires head < |dst.Vertices|
    requires GroupOk(src, list) && NoRepeats(list) && Within(src, list) && bs != {}
    modifies dst
    ensures dst.Valid() && Built(src, dst.Value(), states') && Indexed(ids', states')
    ensures Made(old(dst.Value()), dst.Value(), states, states', ids, ids', stack, stack', head, SubsetState(bs, list))
    ensures Shaped(old(dst.Value()), states) ==> Shaped(dst.Value(), states')
  {
    hide *;
    var ss := SubsetState(bs, list);
    ghost var g := dst.Value();
    ids', stack', states' := ids, stack, states;
    BuiltSizes(src, g, states);
    ListStart(src, list);
    var tail: nat;
    if ss !in ids {
      // new sublist vertex
      var t := Transitions.GetSmallest(bs);
      tail := dst.AddVertex(Vertex(t, false, NOLABEL));
      IndexedNew(ids, states, ss);
      ids', stack', states' := ids[ss := tail], stack + [ss], states + [ss];
    } else {
      // old sublist vertex
      tail := ids[ss];
      OldState(src, g, states, ids, ss);
    }
    if src.vertices[list[0]].isMatch {
      dst.SetVertex(tail, Vertex(dst.Vertices[tail].trans, true, src.vertices[list[0]].lbl));
    }
    ghost var v := dst.Vertices[tail];
    var _ := dst.AddEdge(head, tail);
    if ss in ids {
      assert dst.Vertices == g.vertices;
      BuiltOld(src, g, dst.Value(), states);
    } else {
      assert dst.Vertices == g.vertices + [v];
      NewFits(src, v, ss);
      BuiltNew(src, g, dst.Value(), states, ss, v);
    }
    MadeBy(g, dst.Value(), states, states', ids, ids', stack, stack', head, ss);
    if Shaped(g, states) {
      OldBare(g, states, tail);
      ShapedStep(src, g, dst.Value(), states, states', ids, ids', stack, stack', head, ss, v);
    }
  }

  lemma OldBare(g: Nfa, states: seq<SubsetState>, d: nat)
    requires Shaped(g, states)
    ensures d < |g.vertices| && !g.vertices[d].isMatch ==> g.vertices[d].lbl == NOLABEL
  {
  }

  lemma ListStart(src: Nfa, list: seq<nat>)
    requires GroupOk(src, list) && Within(src, list)
    ensures list != [] && list[0] < |src.vertices|
  {
  }

  /** A subset state that has a vertex: the vertex is a match if the list is one. */
  lemma OldState(src: Nfa, g: Nfa, states: seq<SubsetState>, ids: map<SubsetState, nat>, ss: SubsetState)
    requires Built(src, g, states) && Indexed(ids, states) && ss in ids && ss.list != [] && ss.list[0] < |src.vertices|
    ensures ids[ss] < |g.vertices|
    ensures src.vertices[ss.list[0]].isMatch ==>
              g.vertices[ids[ss]].isMatch && g.vertices[ids[ss]].lbl == src.vertices[ss.list[0]].lbl
  {
    assert StandsFor(src, g, ids[ss], states[ids[ss]].list);
  }

  lemma NewFits(src: Nfa, v: Vertex, ss: SubsetState)
    requires GroupOk(src, ss.list) && NoRepeats(ss.list) && Within(src, ss.list) && ss.list[0] < |src.vertices|
    requires Transitions.Covers(v.trans, ss.bytes)
    requires v.isMatch == src.vertices[ss.list[0]].isMatch && (v.isMatch ==> v.lbl == src.vertices[ss.list[0]].lbl)
    ensures FitsState(src, v, ss)
  {
  }

  lemma MadeBy(g: Nfa, g': Nfa, states: seq<SubsetState>, states': seq<SubsetState>,
               ids: map<SubsetState, nat>, ids': map<SubsetState, nat>,
               stack: seq<SubsetState>, stack': seq<SubsetState>, head: nat, ss: SubsetState)
    requires head < |g.out| && ss in ids'
    requires states' == (if ss in ids then states else states + [ss]) && stack' == (if ss in ids then stack else stack + [ss])
    requires g'.out == (g.out + (if ss in ids then [] else [[]]))[head := g.out[head] + [ids'[ss]]]
    requires g.vertices <= g'.vertices
    ensures Made(g, g', states, states', ids, ids', stack, stack', head, ss)
  {
  }

  // ----- one subset state -----

  /** The successors of d on every byte stand for the groups of its neighborhood. */
  ghost predicate Expanded(src: Nfa, g: Nfa, states: seq<SubsetState>, d: nat) {
    && |states| == |g.vertices| == |g.out| && d < |g.out|
    && forall x: Byte :: ViaLists(g, states, d, x) == Groups(src, Neighborhood(src, states[d].list, x))
  }

  /** What handling one state does to the rest: nothing. */
  ghost predicate Grown(g: Nfa, g': Nfa, states: seq<SubsetState>, states': seq<SubsetState>, head: nat) {
    && Extends(g, g', states, states')
    && (forall d: nat :: d < |g.out| && d != head ==> g'.out[d] == g.out[d])
    && (forall d: nat :: |g.out| <= d < |g'.out| ==> g'.out[d] == [])
  }

  lemma GrownTrans(a: Nfa, b: Nfa, c: Nfa, sa: seq<SubsetState>, sb: seq<SubsetState>, sc: seq<SubsetState>, head: nat)
    requires Grown(a, b, sa, sb, head) && Grown(b, c, sb, sc, head) && head < |a.out|
    ensures Grown(a, c, sa, sc, head)
  {
  }

  /** The groups that the bytes of bs have so far, while the byte sets in todo wait and cur has had k groups. */
  ghost function Wanted(src: Nfa, m: map<set<Byte>, seq<nat>>, todo: set<set<Byte>>, cur: set<Byte>, k: nat,
                        bs: set<Byte>): seq<seq<nat>>
    requires bs in m
  {
    if bs in todo then []
    else if bs == cur && k < |Groups(src, m[bs])| then Groups(src, m[bs])[..k]
    else Groups(src, m[bs])
  }

  /** The successors of head stand for the groups so far. */
  ghost predicate Progress(src: Nfa, g: Nfa, states: seq<SubsetState>, head: nat, m: map<set<Byte>, seq<nat>>,
                           todo: set<set<Byte>>, cur: set<Byte>, k: nat)
  {
    && |states| == |g.vertices| == |g.out| && head < |g.out|
    && forall bs, x: Byte :: bs in m && x in bs ==> ViaLists(g, states, head, x) == Wanted(src, m, todo, cur, k, bs)
  }

  lemma WantedStep(src: Nfa, m: map<set<Byte>, seq<nat>>, todo: set<set<Byte>>, cur: set<Byte>, k: nat, bs: set<Byte>)
    requires bs in m && cur in m && cur !in todo && k < |Groups(src, m[cur])|
    ensures Wanted(src, m, todo, cur, k + 1, bs)
         == Wanted(src, m, todo, cur, k, bs) + (if bs == cur then [Groups(src, m[cur])[k]] else [])
  {
    var gs := Groups(src, m[cur]);
    assert gs[..k] + [gs[k]] == gs[..k + 1];
    assert k + 1 == |gs| ==> gs[..k + 1] == gs;
  }

  lemma ProgressStep(src: Nfa, g: Nfa, g': Nfa, states: seq<SubsetState>, states': seq<SubsetState>, head: nat,
                     nb: seq<seq<nat>>, m: map<set<Byte>, seq<nat>>, todo: set<set<Byte>>, cur: set<Byte>, k: nat, tail: nat)
    requires Wired(g) && Extends(g, g', states, states') && |nb| == 256 && ByBytes(nb, m)
    requires Progress(src, g, states, head, m, todo, cur, k)
    requires cur in m && cur !in todo && k < |Groups(src, m[cur])|
    requires tail < |g'.vertices| && g'.out[head] == g.out[head] + [tail]
    requires states'[tail] == SubsetState(cur, Groups(src, m[cur])[k])
    requires forall x: Byte :: Permits(g', tail, x) <==> x in cur
    ensures Progress(src, g', states', head, m, todo, cur, k + 1)
  {
    hide Groups, ViaLists, Wired, Permits, Wanted;
    forall bs, x: Byte | bs in m && x in bs
      ensures ViaLists(g', states', head, x) == Wanted(src, m, todo, cur, k + 1, bs)
    {
      EdgeStep(g, g', states, states', head, tail, x);
      WantedStep(src, m, todo, cur, k, bs);
      assert x in cur <==> bs == cur;
    }
  }

  lemma GrownStep(g: Nfa, g': Nfa, states: seq<SubsetState>, states': seq<SubsetState>, head: nat, tail: nat)
    requires Wired(g) && Wired(g') && |states| == |g.vertices| && |states'| == |g'.vertices| && head < |g.out|
    requires g.vertices <= g'.vertices && states <= states'
    requires |states'| == |states| || |states'| == |states| + 1
    requires g'.out == (g.out + (if |states'| == |states| then [] else [[]]))[head := g.out[head] + [tail]]
    ensures Grown(g, g', states, states', head)
    ensures g'.out[head] == g.out[head] + [tail]
  {
  }

  lemma BuiltSizes(src: Nfa, g: Nfa, states: seq<SubsetState>)
    requires Built(src, g, states)
    ensures Wired(g) && |states| == |g.vertices| == |g.out|
  {
  }

  /** The edge that makeDestinationState adds. */
  lemma MadeStep(src: Nfa, g: Nfa, g': Nfa, states: seq<SubsetState>, states': seq<SubsetState>, head: nat,
                 nb: seq<seq<nat>>, m: map<set<Byte>, seq<nat>>, todo: set<set<Byte>>, cur: set<Byte>, k: nat,
                 ids': map<SubsetState, nat>)
    requires Built(src, g, states) && Built(src, g', states') && Indexed(ids', states')
    requires |nb| == 256 && ByBytes(nb, m) && cur in m && cur !in todo && k < |Groups(src, m[cur])|
    requires Progress(src, g, states, head, m, todo, cur, k) && head < |g.out|
    requires SubsetState(cur, Groups(src, m[cur])[k]) in ids'
    requires g.vertices <= g'.vertices && states <= states' && |states'| <= |states| + 1
    requires var tail := ids'[SubsetState(cur, Groups(src, m[cur])[k])];
             g'.out == (g.out + (if |states'| == |states| then [] else [[]]))[head := g.out[head] + [tail]]
    ensures Progress(src, g', states', head, m, todo, cur, k + 1)
    ensures Grown(g, g', states, states', head)
  {
    var ss := SubsetState(cur, Groups(src, m[cur])[k]);
    var tail := ids'[ss];
    assert tail < |states'| && states'[tail] == ss;
    assert forall x: Byte :: Permits(g', tail, x) <==> x in states'[tail].bytes;
    BuiltSizes(src, g, states);
    BuiltSizes(src, g', states');
    hide Built, Indexed, Progress, Groups, ByBytes;
    GrownStep(g, g', states, states', head, tail);
    ProgressStep(src, g, g', states, states', head, nb, m, todo, cur, k, tail);
  }

  /** What holds after k groups of the current byte set. */
  ghost predicate Midway(src: Nfa, g0: Nfa, g: Nfa, states0: seq<SubsetState>, states: seq<SubsetState>,
                         ids: map<SubsetState, nat>, stack0: seq<SubsetState>, stack: seq<SubsetState>, head: nat,
                         m: map<set<Byte>, seq<nat>>, todo: set<set<Byte>>, cur: set<Byte>, k: nat)
  {
    && Built(src, g, states) && Indexed(ids, states)
    && states0 <= states && stack == stack0 + states[|states0|..]
    && Grown(g0, g, states0, states, head)
    && Progress(src, g, states, head, m, todo, cur, k)
  }

  lemma MidwayStep(src: Nfa, g0: Nfa, g: Nfa, g': Nfa, states0: seq<SubsetState>, states: seq<SubsetState>,
                   states': seq<SubsetState>, ids: map<SubsetState, nat>, ids': map<SubsetState, nat>,
                   stack0: seq<SubsetState>, stack: seq<SubsetState>, stack': seq<SubsetState>, head: nat,
                   nb: seq<seq<nat>>, m: map<set<Byte>, seq<nat>>, todo: set<set<Byte>>, cur: set<Byte>, k: nat)
    requires Midway(src, g0, g, states0, states, ids, stack0, stack, head, m, todo, cur, k)
    requires |nb| == 256 && ByBytes(nb, m) && cur in m && cur !in todo && k < |Groups(src, m[cur])|
    requires Made(g, g', states, states', ids, ids', stack, stack', head, SubsetState(cur, Groups(src, m[cur])[k]))
    requires Built(src, g', states') && Indexed(ids', states')
    requires head < |g0.out|
    ensures Midway(src, g0, g', states0, states', ids', stack0, stack', head, m, todo, cur, k + 1)
  {
    hide Built, Indexed, ByBytes, Progress, Groups, Grown;
    MadeStep(src, g, g', states, states', head, nb, m, todo, cur, k, ids');
    GrownTrans(g0, g, g', states0, states, states', head);
    if |states'| > |states| {
      assert states'[|states0|..] == states[|states0|..] + [SubsetState(cur, Groups(src, m[cur])[k])];
    }
  }

  lemma MidwayFirst(src: Nfa, g: Nfa, states: seq<SubsetState>, ids: map<SubsetState, nat>, stack: seq<SubsetState>,
                    head: nat, m: map<set<Byte>, seq<nat>>, todo: set<set<Byte>>, cur: set<Byte>)
    requires Built(src, g, states) && Indexed(ids, states) && Progress(src, g, states, head, m, todo, cur, 0)
    ensures Midway(src, g, g, states, states, ids, stack, stack, head, m, todo, cur, 0)
    ensures head < |g.out|
  {
    assert stack == stack + states[|states|..];
  }

  lemma MidwayUse(src: Nfa, g0: Nfa, g: Nfa, states0: seq<SubsetState>, states: seq<SubsetState>,
                  ids: map<SubsetState, nat>, stack0: seq<SubsetState>, stack: seq<SubsetState>, head: nat,
                  m: map<set<Byte>, seq<nat>>, todo: set<set<Byte>>, cur: set<Byte>, k: nat)
    requires Midway(src, g0, g, states0, states, ids, stack0, stack, head, m, todo, cur, k)
    ensures Built(src, g, states) && Indexed(ids, states) && head < |g.vertices| && head < |g.out|
  {
  }

  /** The inner loop: a successor for every group of one byte set. */
  method ExpandByteSet(src: Nfa, dst: Graph, head: nat, bs: set<Byte>, groups: seq<seq<nat>>,
                       ids: map<SubsetState, nat>, stack: seq<SubsetState>, ghost states: seq<SubsetState>,
                       ghost nb: seq<seq<nat>>, ghost m: map<set<Byte>, seq<nat>>, ghost todo: set<set<Byte>>)
    returns (ids': map<SubsetState, nat>, stack': seq<SubsetState>, ghost states': seq<SubsetState>)
    requires Wired(src) && dst.Valid() && Built(src, dst.Value(), states) && Indexed(ids, states)
    requires |nb| == 256 && ByBytes(nb, m) && bs in m && bs !in todo && groups == Groups(src, m[bs])
    requires NoRepeats(m[bs]) && Within(src, m[bs])
    requires Progress(src, dst.Value(), states, head, m, todo, bs, 0)
    modifies dst
    ensures dst.Valid()
    ensures Midway(src, old(dst.Value()), dst.Value(), states, states', ids', stack, stack', head, m, todo, bs, |groups|)
    ensures Shaped(old(dst.Value()), states) ==> Shaped(dst.Value(), states')
  {
    assert bs != {};
    ids', stack', states' := ids, stack, states;
    ghost var g0 := dst.Value();
    MidwayFirst(src, g0, states, ids, stack, head, m, todo, bs);
    hide *;
    for k := 0 to |groups|
      invariant dst.Valid()
      invariant Midway(src, g0, dst.Value(), states, states', ids', stack, stack', head, m, todo, bs, k)
      invariant Shaped(g0, states) ==> Shaped(dst.Value(), states')
    {
      ghost var g1, s1, i1, t1 := dst.Value(), states', ids', stack';
      GroupFits(src, m[bs], k);
      MidwayUse(src, g0, g1, states, s1, i1, stack, t1, head, m, todo, bs, k);
      ids', stack', states' := MakeDestinationState(src, dst, head, bs, groups[k], ids', stack', states');
      MidwayStep(src, g0, g1, dst.Value(), states, s1, states', i1, ids', stack, t1, stack', head, nb, m, todo, bs, k);
    }
  }

  /** Two stretches of the work on one head. */
  lemma MidwayTrans(src: Nfa, a: Nfa, b: Nfa, c: Nfa, sa: seq<SubsetState>, sb: seq<SubsetState>, sc: seq<SubsetState>,
                    idsb: map<SubsetState, nat>, idsc: map<SubsetState, nat>,
                    ta: seq<SubsetState>, tb: seq<SubsetState>, tc: seq<SubsetState>, head: nat,
                    m: map<set<Byte>, seq<nat>>, todob: set<set<Byte>>, todoc: set<set<Byte>>,
                    curb: set<Byte>, curc: set<Byte>, kb: nat, kc: nat)
    requires Midway(src, a, b, sa, sb, idsb, ta, tb, head, m, todob, curb, kb)
    requires Midway(src, b, c, sb, sc, idsc, tb, tc, head, m, todoc, curc, kc)
    requires head < |a.out|
    ensures Midway(src, a, c, sa, sc, idsc, ta, tc, head, m, todoc, curc, kc)
  {
    hide Built, Indexed, Progress, Grown;
    GrownTrans(a, b, c, sa, sb, sc, head);
    assert sc[|sa|..] == sb[|sa|..] + sc[|sb|..];
  }

  /** Between byte sets, none is current: the empty set stands for that. */
  lemma NextByteSet(src: Nfa, g0: Nfa, g: Nfa, states0: seq<SubsetState>, states: seq<SubsetState>,
                    ids: map<SubsetState, nat>, stack0: seq<SubsetState>, stack: seq<SubsetState>, head: nat,
                    m: map<set<Byte>, seq<nat>>, todo: set<set<Byte>>, bs: set<Byte>)
    requires Midway(src, g0, g, states0, states, ids, stack0, stack, head, m, todo, {}, 0) && bs in todo
    ensures Progress(src, g, states, head, m, todo - {bs}, bs, 0)
  {
    assert Progress(src, g, states, head, m, todo, {}, 0);
    hide Built, Indexed, Grown, Groups, ViaLists;
    assert bs in m && Groups(src, m[bs]) != [] ==> Groups(src, m[bs])[..0] == [];
  }

  lemma ByteSetDone(src: Nfa, g0: Nfa, g: Nfa, states0: seq<SubsetState>, states: seq<SubsetState>,
                    ids: map<SubsetState, nat>, stack0: seq<SubsetState>, stack: seq<SubsetState>, head: nat,
                    m: map<set<Byte>, seq<nat>>, todo: set<set<Byte>>, bs: set<Byte>)
    requires bs in m
    requires Midway(src, g0, g, states0, states, ids, stack0, stack, head, m, todo, bs, |Groups(src, m[bs])|)
    ensures Midway(src, g0, g, states0, states, ids, stack0, stack, head, m, todo, {}, 0)
  {
    hide Built, Indexed, Grown, Groups, ViaLists;
  }

  /** Nothing has been added for a head without edges. */
  lemma NoneYet(src: Nfa, g: Nfa, states: seq<SubsetState>, ids: map<SubsetState, nat>, stack: seq<SubsetState>,
                head: nat, m: map<set<Byte>, seq<nat>>, todo: set<set<Byte>>)
    requires Built(src, g, states) && Indexed(ids, states) && head < |g.out| && g.out[head] == []
    requires forall bs :: bs in m && bs !in todo ==> m[bs] == []
    ensures Midway(src, g, g, states, states, ids, stack, stack, head, m, todo, {}, 0)
  {
    forall bs, x: Byte | bs in m && x in bs
      ensures ViaLists(g, states, head, x) == [] && (bs !in todo ==> Groups(src, m[bs]) == [])
    {
    }
    MidwayFirst(src, g, states, ids, stack, head, m, todo, {});
  }

  /** When no byte set waits, every byte has its groups. */
  lemma AllDone(src: Nfa, g0: Nfa, g: Nfa, states0: seq<SubsetState>, states: seq<SubsetState>,
                ids: map<SubsetState, nat>, stack0: seq<SubsetState>, stack: seq<SubsetState>, head: nat,
                nb: seq<seq<nat>>, m: map<set<Byte>, seq<nat>>)
    requires Midway(src, g0, g, states0, states, ids, stack0, stack, head, m, {}, {}, 0)
    requires |nb| == 256 && ByBytes(nb, m) && head < |states0|
    requires forall x: Byte :: nb[x] == Neighborhood(src, states0[head].list, x)
    ensures Expanded(src, g, states, head)
  {
    assert Progress(src, g, states, head, m, {}, {}, 0);
    hide Built, Indexed, Grown, Groups, ViaLists, Neighborhood;
    forall x: Byte ensures ViaLists(g, states, head, x) == Groups(src, Neighborhood(src, states[head].list, x)) {
      assert Covered(m, x);
      var bs :| bs in m && x in bs;
      assert nb[x] == m[bs];
    }
  }

  lemma ListsFit(src: Nfa, heads: seq<nat>, nb: seq<seq<nat>>, m: map<set<Byte>, seq<nat>>, bs: set<Byte>)
    requires |nb| == 256 && ByBytes(nb, m) && bs in m
    requires forall x: Byte :: nb[x] == Neighborhood(src, heads, x)
    ensures NoRepeats(m[bs]) && Within(src, m[bs])
  {
    var x :| x in bs;
    assert nb[x] == m[bs];
    FlatMapWithin(src, x, heads);
    DedupWithin(src, FlatMap(Moves(src, x), heads));
    DedupNoRepeats(FlatMap(Moves(src, x), heads));
  }

  /** The loop that forms each list of successors into groups. */
  method GroupLists(src: Nfa, heads: seq<nat>, ghost nb: seq<seq<nat>>, m: map<set<Byte>, seq<nat>>)
    returns (gm: map<set<Byte>, seq<seq<nat>>>)
    requires Wired(src) && |nb| == 256 && ByBytes(nb, m)
    requires forall x: Byte :: nb[x] == Neighborhood(src, heads, x)
    ensures forall bs :: bs in gm <==> bs in m && m[bs] != []
    ensures forall bs :: bs in gm ==> gm[bs] == Groups(src, m[bs])
  {
    gm := map[];
    var todo := m.Keys;
    while todo != {}
      invariant todo <= m.Keys
      invariant forall bs :: bs in gm <==> bs in m && m[bs] != [] && bs !in todo
      invariant forall bs :: bs in gm ==> gm[bs] == Groups(src, m[bs])
      decreases |todo|
    {
      var bs :| bs in todo;
      ListsFit(src, heads, nb, m, bs);
      var gs := GroupTails(src, m[bs]);
      if gs != [] {
        gm := gm[bs := gs];
      }
      todo := todo - {bs};
    }
  }

  /** handleSubsetState */
  method HandleSubsetState(src: Nfa, dst: Graph, heads: seq<nat>, head: nat, ids: map<SubsetState, nat>,
                           stack: seq<SubsetState>, ghost states: seq<SubsetState>)
    returns (ids': map<SubsetState, nat>, stack': seq<SubsetState>, ghost states': seq<SubsetState>)
    requires Wired(src) && dst.Valid() && Built(src, dst.Value(), states) && Indexed(ids, states)
    requires head < |dst.Value().out| && dst.Value().out[head] == [] && head < |states| && states[head].list == heads
    requires Within(src, heads)
    modifies dst
    ensures dst.Valid() && Built(src, dst.Value(), states') && Indexed(ids', states')
    ensures Grown(old(dst.Value()), dst.Value(), states, states', head)
    ensures states <= states' && stack' == stack + states'[|states|..]
    ensures Expanded(src, dst.Value(), states', head)
    ensures Shaped(old(dst.Value()), states) ==> Shaped(dst.Value(), states')
  {
    hide *;
    var nb := Neighborhoods(src, heads);
    var m := ByteSetsByList(nb);
    var gm := GroupLists(src, heads, nb, m);
    ghost var g0 := dst.Value();
    ids', stack', states' := ids, stack, states;
    var todo := gm.Keys;
    NoneYet(src, g0, states, ids, stack, head, m, todo);
    while todo != {}
      invariant todo <= gm.Keys && dst.Valid()
      invariant Midway(src, g0, dst.Value(), states, states', ids', stack, stack', head, m, todo, {}, 0)
      invariant Shaped(g0, states) ==> Shaped(dst.Value(), states')
      decreases |todo|
    {
      var bs :| bs in todo;
      ghost var g1, s1, i1, t1, todo1 := dst.Value(), states', ids', stack', todo;
      MidwayUse(src, g0, g1, states, s1, i1, stack, t1, head, m, todo, {}, 0);
      NextByteSet(src, g0, g1, states, s1, i1, stack, t1, head, m, todo, bs);
      ListsFit(src, heads, nb, m, bs);
      todo := todo - {bs};
      ids', stack', states' := ExpandByteSet(src, dst, head, bs, gm[bs], ids', stack', states', nb, m, todo);
      ByteSetDone(src, g1, dst.Value(), s1, states', ids', t1, stack', head, m, todo, bs);
      MidwayTrans(src, g0, g1, dst.Value(), states, s1, states', i1, ids', stack, t1, stack', head, m, todo1, todo, {}, {}, 0, 0);
    }
    AllDone(src, g0, dst.Value(), states, states', ids', stack, stack', head, nb, m);
    MidwayEnd(src, g0, dst.Value(), states, states', ids', stack, stack', head, m, todo, {}, 0);
  }

  lemma MidwayEnd(src: Nfa, g0: Nfa, g: Nfa, states0: seq<SubsetState>, states: seq<SubsetState>,
                  ids: map<SubsetState, nat>, stack0: seq<SubsetState>, stack: seq<SubsetState>, head: nat,
                  m: map<set<Byte>, seq<nat>>, todo: set<set<Byte>>, cur: set<Byte>, k: nat)
    requires Midway(src, g0, g, states0, states, ids, stack0, stack, head, m, todo, cur, k)
    ensures Built(src, g, states) && Indexed(ids, states) && Grown(g0, g, states0, states, head)
    ensures states0 <= states && stack == stack0 + states[|states0|..]
  {
  }

  // ----- there are finitely many subset states -----

  ghost function ListsOfLength(n: nat, k: nat): (r: set<seq<nat>>) {
    if k == 0 then {[]} else set l, v | l in ListsOfLength(n, k - 1) && v in Numbers(n) :: l + [v]
  }

  ghost function ListsUpTo(n: nat, k: nat): (r: set<seq<nat>>) {
    if k == 0 then ListsOfLength(n, 0) else ListsUpTo(n, k - 1) + ListsOfLength(n, k)
  }

  ghost function AllBytes(): set<Byte> {
    set x: Byte | x in Numbers(256)
  }

  ghost function AllStates(src: Nfa): set<SubsetState> {
    var n := |src.vertices|;
    set bs, l | bs <= AllBytes() && l in ListsUpTo(n, n) :: SubsetState(bs, l)
  }

  lemma {:induction false} InListsOfLength(n: nat, l: seq<nat>)
    requires forall i :: 0 <= i < |l| ==> l[i] < n
    ensures l in ListsOfLength(n, |l|)
    decreases |l|
  {
    if l != [] {
      var front := l[..|l| - 1];
      InListsOfLength(n, front);
      assert l == front + [l[|l| - 1]];
    }
  }

  lemma {:induction false} InListsUpTo(n: nat, l: seq<nat>, k: nat)
    requires |l| <= k && l in ListsOfLength(n, |l|)
    ensures l in ListsUpTo(n, k)
    decreases k
  {
    if |l| < k {
      InListsUpTo(n, l, k - 1);
    }
  }

  lemma StateIsOneOfAll(src: Nfa, ss: SubsetState)
    requires NoRepeats(ss.list) && Within(src, ss.list)
    ensures ss in AllStates(src)
  {
    var n := |src.vertices|;
    NumbersCount(n);
    DistinctLength(ss.list, Numbers(n));
    InListsOfLength(n, ss.list);
    InListsUpTo(n, ss.list, n);
    assert ss == SubsetState(ss.bytes, ss.list) && ss.bytes <= AllBytes();
  }

  lemma StatesAreBounded(src: Nfa, g: Nfa, states: seq<SubsetState>, ids: map<SubsetState, nat>)
    requires Built(src, g, states) && Indexed(ids, states)
    ensures |states| <= |AllStates(src)|
  {
    forall d | 0 <= d < |states| ensures states[d] in AllStates(src) {
      assert StandsFor(src, g, d, states[d].list);
      StateIsOneOfAll(src, states[d]);
    }
    forall i, j | 0 <= i < j < |states| ensures states[i] != states[j] {
      assert ids[states[i]] == i && ids[states[j]] == j;
    }
    DistinctLength(states, AllStates(src));
  }

  // ----- the worklist -----

  /** What waits has no edges yet, and everything else is done. */
  ghost predicate Pending(src: Nfa, g: Nfa, states: seq<SubsetState>, stack: seq<SubsetState>) {
    && |states| == |g.vertices| == |g.out|
    && DistinctStates(stack)
    && (forall i :: 0 <= i < |stack| ==> stack[i] in states)
    && (forall d: nat :: d < |states| && states[d] in stack ==> g.out[d] == [])
    && (forall d: nat :: d < |states| && states[d] !in stack ==> Expanded(src, g, states, d))
  }

  lemma StillExpanded(src: Nfa, g: Nfa, g': Nfa, states: seq<SubsetState>, states': seq<SubsetState>, head: nat, d: nat)
    requires Wired(g) && Grown(g, g', states, states', head) && d != head && d < |states| && Expanded(src, g, states, d)
    ensures Expanded(src, g', states', d)
  {
    forall x: Byte ensures ViaLists(g', states', d, x) == Groups(src, Neighborhood(src, states'[d].list, x)) {
      UntouchedStep(g, g', states, states', d, x);
    }
  }

  lemma PendingStep(src: Nfa, g: Nfa, g': Nfa, states: seq<SubsetState>, states': seq<SubsetState>,
                    ids: map<SubsetState, nat>, ids': map<SubsetState, nat>, stack: seq<SubsetState>,
                    stack': seq<SubsetState>, head: nat)
    requires Wired(g) && Pending(src, g, states, stack) && Indexed(ids, states) && Indexed(ids', states')
    requires stack != [] && head < |states| && states[head] == stack[|stack| - 1]
    requires Grown(g, g', states, states', head) && Expanded(src, g', states', head)
    requires states <= states' && stack' == stack[..|stack| - 1] + states'[|states|..]
    ensures Pending(src, g', states', stack')
  {
    hide Expanded, Grown, Wired, Indexed;
    var rest, added := stack[..|stack| - 1], states'[|states|..];
    assert stack == rest + [states[head]];
    IndexedDistinct(ids', states');
    GrownUse(g, g', states, states', head);
    WaitingDistinct(states, states', rest);
    forall i | 0 <= i < |stack'| ensures stack'[i] in states' {
      if i < |rest| {
        assert stack[i] in states;
      }
    }
    forall d: nat | d < |states'|
      ensures states'[d] in stack' ==> g'.out[d] == []
      ensures states'[d] !in stack' ==> Expanded(src, g', states', d)
    {
      WaitingOrDone(states, states', stack, head, d);
      if d < |states| && d != head && states[d] !in stack {
        StillExpanded(src, g, g', states, states', head, d);
      }
    }
  }

  lemma IndexedDistinct(ids: map<SubsetState, nat>, states: seq<SubsetState>)
    requires Indexed(ids, states)
    ensures DistinctStates(states)
  {
    forall i, j | 0 <= i < j < |states| ensures states[i] != states[j] {
      assert ids[states[i]] == i && ids[states[j]] == j;
    }
  }

  ghost predicate DistinctStates(states: seq<SubsetState>) {
    forall i, j :: 0 <= i < j < |states| ==> states[i] != states[j]
  }

  lemma GrownUse(g: Nfa, g': Nfa, states: seq<SubsetState>, states': seq<SubsetState>, head: nat)
    requires Grown(g, g', states, states', head)
    ensures |states'| == |g'.vertices| == |g'.out|
    ensures forall d: nat :: d < |g.out| && d != head ==> g'.out[d] == g.out[d]
    ensures forall d: nat :: |g.out| <= d < |g'.out| ==> g'.out[d] == []
  {
  }

  lemma WaitingDistinct(states: seq<SubsetState>, states': seq<SubsetState>, rest: seq<SubsetState>)
    requires DistinctStates(rest) && DistinctStates(states') && states <= states'
    requires forall i :: 0 <= i < |rest| ==> rest[i] in states
    ensures DistinctStates(rest + states'[|states|..])
  {
    var r := rest + states'[|states|..];
    forall i, j | 0 <= i < j < |r| ensures r[i] != r[j] {
      if i < |rest| <= j {
        var d :| 0 <= d < |states| && states[d] == rest[i];
        assert states'[d] == r[i] && r[j] == states'[|states| + (j - |rest|)];
      } else if |rest| <= i {
        assert r[i] == states'[|states| + (i - |rest|)] && r[j] == states'[|states| + (j - |rest|)];
      }
    }
  }

  /** What waits afterwards is what is new and what waited before, except the head. */
  lemma WaitingOrDone(states: seq<SubsetState>, states': seq<SubsetState>, stack: seq<SubsetState>, head: nat, d: nat)
    requires DistinctStates(states') && DistinctStates(stack) && states <= states' && d < |states'|
    requires stack != [] && head < |states| && states[head] == stack[|stack| - 1]
    ensures states'[d] in stack[..|stack| - 1] + states'[|states|..] <==> d >= |states| || (d != head && states[d] in stack)
  {
    var rest, added := stack[..|stack| - 1], states'[|states|..];
    assert stack == rest + [states[head]];
    if d >= |states| {
      assert added[d - |states|] == states'[d];
    } else {
      forall i | 0 <= i < |added| ensures added[i] != states'[d] {
        assert added[i] == states'[|states| + i];
      }
      assert states'[d] !in added;
      assert states'[head] !in rest by {
        forall i | 0 <= i < |rest| ensures rest[i] != states[head] {
          assert rest[i] == stack[i];
        }
      }
    }
  }

  lemma AllExpanded(src: Nfa, g: Nfa, states: seq<SubsetState>)
    requires Wired(src) && Built(src, g, states) && Pending(src, g, states, [])
    ensures Determinizes(src, g, Lists(states))
  {
    var lists := Lists(states);
    forall d: nat | d < |lists| ensures StandsFor(src, g, d, lists[d]) {
      assert StandsFor(src, g, d, states[d].list);
    }
    forall d: nat, x: Byte | d < |lists| ensures StepsTo(src, g, lists, d, x) {
      assert Expanded(src, g, states, d);
      GroupsStep(src, g, states, d, x);
    }
  }

  lemma PendingUse(src: Nfa, g: Nfa, states: seq<SubsetState>, ids: map<SubsetState, nat>, stack: seq<SubsetState>)
    requires Wired(g) && Built(src, g, states) && Indexed(ids, states) && Pending(src, g, states, stack) && stack != []
    ensures var ss := stack[|stack| - 1];
            && ss in ids && ids[ss] < |states| && states[ids[ss]] == ss
            && ids[ss] < |g.out| && g.out[ids[ss]] == [] && Within(src, ss.list)
  {
    var ss := stack[|stack| - 1];
    var d :| 0 <= d < |states| && states[d] == ss;
    assert StandsFor(src, g, d, ss.list);
  }

  lemma FirstState(src: Nfa, g: Nfa, ss: SubsetState)
    requires Wired(src) && !src.vertices[0].isMatch && Wired(g)
    requires |g.vertices| == 1 && g.out[0] == [] && g.vertices[0] == Vertex(NoTransition, false, NOLABEL)
    requires ss == SubsetState({}, [0])
    ensures Built(src, g, [ss]) && Indexed(map[ss := 0], [ss]) && Pending(src, g, [ss], [ss])
  {
    assert StandsFor(src, g, 0, [ss][0].list);
  }

  lemma FirstShaped(g: Nfa, ss: SubsetState)
    requires Wired(g) && g.vertices == [Vertex(NoTransition, false, NOLABEL)] && g.out == [[]]
    ensures Shaped(g, [ss])
  {
  }

  /** Every vertex but the initial one reads some byte. */
  ghost predicate Formed(g: Nfa) {
    && Wired(g) && AllReachable(g)
    && g.vertices[0] == Vertex(NoTransition, false, NOLABEL)
    && (forall v: nat, i: nat :: v < |g.out| && i < |g.out[v]| ==> g.out[v][i] != 0)
    && (forall d :: 0 < d < |g.vertices| ==> SomeByte(g.vertices[d].trans))
    && (forall d :: 0 <= d < |g.vertices| ==> !g.vertices[d].isMatch ==> g.vertices[d].lbl == NOLABEL)
  }

  lemma ShapedFormed(src: Nfa, g: Nfa, states: seq<SubsetState>)
    requires Built(src, g, states) && Shaped(g, states)
    ensures Formed(g)
  {
    forall d | 0 < d < |g.vertices| ensures SomeByte(g.vertices[d].trans) {
      ReadsSome(src, g, states, d);
    }
    hide StandsFor, AllReachable, Built, SomeByte;
  }

  lemma ReadsSome(src: Nfa, g: Nfa, states: seq<SubsetState>, d: nat)
    requires Built(src, g, states) && Shaped(g, states) && 0 < d < |g.vertices|
    ensures SomeByte(g.vertices[d].trans)
  {
    var x :| x in states[d].bytes;
    assert Permits(g, d, x);
  }

  /**
   NFAOptimizer::subsetDFA, from an automaton whose initial vertex is no match,
   into one with its initial vertex only. It ends, and the result determinizes
   the source: Subsets says what that is good for.
   */
  method SubsetDFA(dst: Graph, src: Nfa) returns (ghost lists: seq<seq<nat>>)
    requires Wired(src) && !src.vertices[0].isMatch
    requires dst.Valid() && dst.Value().vertices == [Vertex(NoTransition, false, NOLABEL)] && dst.Value().out == [[]]
    modifies dst
    ensures dst.Valid() && Determinizes(src, dst.Value(), lists) && Formed(dst.Value())
  {
    var d0 := SubsetState({}, [0]);
    var ids := map[d0 := 0];
    var stack := [d0];
    ghost var states := [d0];
    FirstState(src, dst.Value(), d0);
    FirstShaped(dst.Value(), d0);
    hide *;
    while stack != []
      invariant dst.Valid() && Built(src, dst.Value(), states) && Indexed(ids, states)
      invariant Pending(src, dst.Value(), states, stack) && Shaped(dst.Value(), states)
      decreases |AllStates(src)| - |states|, |stack|
    {
      ghost var g, s, i, t := dst.Value(), states, ids, stack;
      PendingUse(src, g, states, ids, stack);
      var ss := stack[|stack| - 1];
      stack := stack[..|stack| - 1];
      var head := ids[ss];
      ids, stack, states := HandleSubsetState(src, dst, ss.list, head, ids, stack, states);
      PendingStep(src, g, dst.Value(), s, states, i, ids, t, stack, head);
      StatesAreBounded(src, dst.Value(), states, ids);
    }
    AllExpanded(src, dst.Value(), states);
    ShapedFormed(src, dst.Value(), states);
    lists := Lists(states);
  }
}
