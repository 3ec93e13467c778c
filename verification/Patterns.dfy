/**
 FSMThingy (src/lib/fsmthingy.cpp): every pattern is built, pruned and merged
 into one automaton, under a label of its own. Whatever patterns are added, and
 in whatever order, a label is found where its pattern is, and nowhere else.
 */
module Patterns {
  import opened Basics
  import opened Automata
  import opened Graphs
  import opened Regexes
  import Traversals
  import Builders
  import Building
  import Pruning
  import Images
  import Lineups
  import Merging
  import Guards
  import Subsets
  import Determinizing
  import Sturdies

  // ----- what a label of the automaton has to do with its pattern -----

  /** Some beginning of w is a string of the pattern. */
  ghost predicate Starts(n: Node, w: seq<Byte>) {
    exists i: nat :: i <= |w| && Lang(n, w[..i])
  }

  /** Some beginning of w is accepted under the label. */
  ghost predicate Found(g: Nfa, l: nat, w: seq<Byte>)
    requires Wired(g)
  {
    exists i: nat :: i <= |w| && Accepts(g, l, 0, w[..i])
  }

  /** Only strings of the pattern are accepted, and one of them wherever there is one. */
  ghost predicate Finds(g: Nfa, l: nat, n: Node)
    requires Wired(g)
  {
    && (forall u: seq<Byte> :: Accepts(g, l, 0, u) ==> Lang(n, u))
    && (forall w: seq<Byte> :: Found(g, l, w) <==> Starts(n, w))
  }

  lemma FoundIsBest(g: Nfa, l: nat, w: seq<Byte>)
    requires Wired(g)
    ensures Found(g, l, w) <==> Best(g, l, 0, w).Some?
  {
    if Found(g, l, w) {
      var i: nat :| i <= |w| && Accepts(g, l, 0, w[..i]);
      AcceptedIsFound(g, l, 0, w, i);
    }
    BestIsAccepted(g, l, 0, w);
  }

  lemma StartsBy(n: Node, w: seq<Byte>, i: nat)
    requires i <= |w| && Lang(n, w[..i])
    ensures Starts(n, w)
  {
  }

  lemma FoundBy(g: Nfa, l: nat, w: seq<Byte>, i: nat)
    requires Wired(g) && i <= |w| && Accepts(g, l, 0, w[..i])
    ensures Found(g, l, w)
  {
  }

  /** What is built accepts the strings of the pattern. */
  lemma BuiltFinds(g: Nfa, l: nat, n: Node)
    requires Building.BuiltFor(g, l, n)
    ensures Wired(g) && Finds(g, l, n)
  {
    hide Accepts, Lang;
    forall w: seq<Byte> ensures Found(g, l, w) <==> Starts(n, w) {
      if Found(g, l, w) {
        var i: nat :| i <= |w| && Accepts(g, l, 0, w[..i]);
        StartsBy(n, w, i);
      }
      if Starts(n, w) {
        var i: nat :| i <= |w| && Lang(n, w[..i]);
        FoundBy(g, l, w, i);
      }
    }
  }

  /** Dropping edges leaves fewer strings. */
  lemma {:induction false} ThinnerAccepts(g: Nfa, g': Nfa, l: nat, v: nat, u: seq<Byte>)
    requires Wired(g) && Wired(g') && g'.vertices == g.vertices && Pruning.Thinner(g, g') && v < |g.vertices|
    requires Accepts(g', l, v, u)
    ensures Accepts(g, l, v, u)
    decreases |u|
  {
    if u != [] {
      var i: nat :| i < |g'.out[v]| && Permits(g', g'.out[v][i], u[0]) && Accepts(g', l, g'.out[v][i], u[1..]);
      var t := g'.out[v][i];
      assert t in g'.out[v];
      ThinnerAccepts(g, g', l, t, u[1..]);
      var j: nat :| j < |g.out[v]| && g.out[v][j] == t;
    }
  }

  /** Pruning loses strings, but never the only ones that begin an input. */
  lemma PrunedFinds(g: Nfa, g': Nfa, l: nat, n: Node)
    requires Wired(g) && Wired(g') && g'.vertices == g.vertices && Pruning.Thinner(g, g') && Pruning.SameBest(g, g', l)
    requires Finds(g, l, n)
    ensures Finds(g', l, n)
  {
    hide Accepts, Lang, Found, Starts, Best, Pruning.Thinner;
    forall u: seq<Byte> | Accepts(g', l, 0, u) ensures Lang(n, u) {
      ThinnerAccepts(g, g', l, 0, u);
    }
    forall w: seq<Byte> ensures Found(g', l, w) <==> Found(g, l, w) {
      FoundIsBest(g, l, w);
      FoundIsBest(g', l, w);
    }
  }

  lemma PrunedPlain(g: Nfa, g': Nfa, l: nat, n: Node)
    requires Building.BuiltFor(g, l, n) && Wired(g) && Wired(g') && Matched(g')
    requires g'.vertices == g.vertices && Pruning.Thinner(g, g') && l != NOLABEL
    ensures Images.Plain(g')
  {
    hide Accepts, Lang;
    forall h: nat | h < |g'.out| ensures 0 !in g'.out[h] {
      assert h !in g.ins[0];
      assert 0 !in g.out[h];
    }
    var h := Builders.SomeListed(g'.ins[0]);
    assert h < |g'.out| ==> 0 !in g'.out[h];
    assert h !in g'.ins[0];
  }

  /** The languages being the same, so is what is found. */
  lemma SameFinds(g: Nfa, l: nat, g': Nfa, n: Node)
    requires Wired(g) && Wired(g') && Finds(g, l, n)
    requires forall u: seq<Byte> :: Accepts(g', l, 0, u) <==> Accepts(g, l, 0, u)
    ensures Finds(g', l, n)
  {
    hide Accepts, Lang, Starts;
    forall w: seq<Byte> ensures Found(g', l, w) <==> Found(g, l, w) {
    }
  }

  // ----- all patterns -----

  /** Every pattern is found under its label, and there are no other labels. */
  ghost predicate Holds(g: Nfa, patterns: map<nat, Node>) {
    && Images.Plain(g)
    && (forall v :: 0 <= v < |g.vertices| && g.vertices[v].isMatch ==> g.vertices[v].lbl in patterns)
    && (forall l :: l in patterns ==> Wired(g) && Finds(g, l, patterns[l]))
  }

  /** What is matched from the initial vertex is what backtracking through the pattern prefers. */
  ghost predicate Prefers(g: Nfa, l: nat, n: Node)
    requires Wired(g)
  {
    forall w: seq<Byte> :: Best(g, l, 0, w) == Building.Preferred(n, w)
  }

  /** The given labels prefer what their patterns prefer. */
  ghost predicate HoldsOrder(g: Nfa, patterns: map<nat, Node>, orderly: set<nat>) {
    forall l :: l in orderly ==> l in patterns && Wired(g) && Prefers(g, l, patterns[l])
  }

  lemma BuiltPrefers(b0: Nfa, src: Nfa, l: nat, n: Node)
    requires Building.BuiltFor(b0, l, n) && Wired(b0) && Wired(src) && src.vertices == b0.vertices && Pruning.SameBest(b0, src, l)
    ensures Prefers(src, l, n)
  {
    hide Accepts, Lang, Best, Building.Preferred, Building.LeadsToMatch, SomeByte;
    forall w: seq<Byte> ensures Best(src, l, 0, w) == Building.Preferred(n, w) {
      assert Best(b0, l, 0, w) == Building.Preferred(n, w);
    }
  }

  /** Merging keeps the preference of every earlier label, and adds that of the new one if its automaton is untangled. */
  lemma HoldsOrderMore(src: Nfa, g0: Nfa, g: Nfa, patterns: map<nat, Node>, orderly: set<nat>, l: nat, n: Node)
    requires HoldsOrder(g0, patterns, orderly) && l !in patterns && Wired(src) && Prefers(src, l, n) && Wired(g0) && 0 < |g0.vertices|
    requires Lineups.OthersPrefer(g0, g, l) && (Lineups.Untangled(src) ==> Lineups.NewPrefersSame(src, g, l))
    ensures HoldsOrder(g, patterns[l := n], if Lineups.Untangled(src) then orderly + {l} else orderly)
  {
    hide Best, Building.Preferred, Lineups.Untangled, Lineups.OthersPrefer, Lineups.NewPrefersSame;
    var more := patterns[l := n];
    forall k | k in (if Lineups.Untangled(src) then orderly + {l} else orderly)
      ensures k in more && Wired(g) && Prefers(g, k, more[k])
    {
      if k == l {
        NewPrefers(src, g, l, n);
      } else {
        OtherPrefers(g0, g, l, k, patterns[k]);
      }
    }
  }

  lemma NewPrefers(src: Nfa, g: Nfa, l: nat, n: Node)
    requires Wired(src) && Prefers(src, l, n) && Lineups.NewPrefersSame(src, g, l)
    ensures Wired(g) && Prefers(g, l, n)
  {
    hide Best, Building.Preferred;
  }

  lemma OtherPrefers(g0: Nfa, g: Nfa, l: nat, k: nat, n: Node)
    requires Wired(g0) && 0 < |g0.vertices| && Prefers(g0, k, n) && Lineups.OthersPrefer(g0, g, l) && k != l
    ensures Wired(g) && Prefers(g, k, n)
  {
    hide Best, Building.Preferred;
  }

  lemma HoldsNothing(g: Nfa)
    requires Wired(g) && Matched(g) && g.vertices == [Vertex(NoTransition, false, NOLABEL)] && g.ins == [[]]
    ensures Holds(g, map[])
  {
  }

  lemma HoldsMore(src: Nfa, g0: Nfa, g: Nfa, patterns: map<nat, Node>, l: nat, n: Node)
    requires Holds(g0, patterns) && l !in patterns && Wired(src) && Finds(src, l, n)
    requires Images.Plain(g) && Images.SameLanguages(src, g0, g, l) && Images.OnlyLabels(g0, g, l)
    ensures Holds(g, patterns[l := n])
  {
    Images.PlainWired(g);
    Images.PlainWired(g0);
    hide Finds, Images.Plain;
    var more := patterns[l := n];
    forall k | k in more ensures Finds(g, k, more[k]) {
      if k == l {
        SameFinds(src, l, g, n);
      } else {
        SameFinds(g0, k, g, patterns[k]);
      }
    }
  }

  lemma FreshOnes(src: Nfa, g0: Nfa, patterns: map<nat, Node>, l: nat)
    requires Holds(g0, patterns) && l !in patterns
    requires Pruning.SinglePattern(src, l)
    ensures Images.FreshLabel(src, g0, l) && Images.Plain(g0)
  {
  }

  lemma BuiltShape(g: Nfa, l: nat, n: Node)
    requires Building.BuiltFor(g, l, n)
    ensures Wired(g) && Pruning.SinglePattern(g, l)
  {
  }

  // ----- what the compiler relies on -----

  lemma BuiltLive(g: Nfa, l: nat, n: Node)
    requires Building.BuiltFor(g, l, n)
    ensures Sturdies.Walkable(g) && Sturdies.Live(g) && 0 < |g.vertices| && Guards.Reaches(g, 0, l)
  {
    hide *;
    BuiltWalkable(g, l, n);
    forall v: nat | 0 < v < |g.vertices| ensures Guards.Reaches(g, v, l) {
      BuiltReaches(g, l, n, v);
    }
    LiveBy(g, l);
    assert g.out[0][0] in g.out[0];
    BuiltShape(g, l, n);
    Guards.ReachesStep(g, 0, g.out[0][0], l);
  }

  lemma LiveBy(g: Nfa, l: nat)
    requires Sturdies.Walkable(g) && forall v: nat :: 0 < v < |g.vertices| ==> Guards.Reaches(g, v, l)
    ensures Sturdies.Live(g)
  {
    hide SomeByte, Guards.Reaches;
    forall v: nat | 0 < v < |g.vertices| ensures SomeByte(g.vertices[v].trans) && !Guards.Barren(g, v) {
      assert Guards.Reaches(g, v, l);
    }
  }

  lemma BuiltWalkable(g: Nfa, l: nat, n: Node)
    requires Building.BuiltFor(g, l, n)
    ensures Sturdies.Walkable(g) && 0 < |g.vertices| == |g.out| && g.out[0] != [] && 0 < g.out[0][0] < |g.vertices|
  {
    hide Accepts, Lang, Best, Building.Preferred, Building.LeadsToMatch, SomeByte;
    forall v: nat, i: nat | v < |g.out| && i < |g.out[v]| ensures g.out[v][i] != 0 {
      assert g.out[v][i] in g.out[v];
      assert v !in g.ins[0];
    }
  }

  ghost predicate Speaks(n: Node) {
    exists u: seq<Byte> :: Lang(n, u)
  }

  lemma BuiltSpeaks(g: Nfa, l: nat, n: Node)
    requires Building.BuiltFor(g, l, n)
    ensures Speaks(n)
  {
    BuiltLive(g, l, n);
    var w := Sturdies.ReachedIsBest(g, l, 0);
    BestIsAccepted(g, l, 0, w);
    var u := w[..Best(g, l, 0, w).value];
    assert Accepts(g, l, 0, u);
    hide Lang, Accepts, Best;
    assert Lang(n, u);
  }

  lemma BuiltReaches(g: Nfa, l: nat, n: Node, v: nat)
    requires Building.BuiltFor(g, l, n) && 0 < v < |g.vertices|
    ensures Guards.Reaches(g, v, l)
  {
    assert Building.LeadsToMatch(g, v);
    var p :| Path(g, p) && p[0] == v && p[|p| - 1] < |g.vertices| && g.vertices[p[|p| - 1]].isMatch;
    assert Guards.EndsAt(g, p, l);
  }

  /** The pattern is found in the merged automaton, so there is more than the initial vertex. */
  lemma MergedGrows(b0: Nfa, src: Nfa, g0: Nfa, g: Nfa, l: nat, n: Node)
    requires Building.BuiltFor(b0, l, n) && Wired(src) && src.vertices == b0.vertices && Wired(b0) && Pruning.SameBest(b0, src, l)
    requires Images.SameLanguages(src, g0, g, l) && Images.Plain(g)
    ensures |g.vertices| > 1
  {
    BuiltLive(b0, l, n);
    var w := Sturdies.ReachedIsBest(b0, l, 0);
    assert Best(src, l, 0, w) == Best(b0, l, 0, w);
    BestIsAccepted(src, l, 0, w);
    var u := w[..Best(src, l, 0, w).value];
    assert Accepts(g, l, 0, u);
    Sturdies.AcceptedIsReached(g, l, 0, u);
    var p :| Guards.EndsAt(g, p, l) && p[0] == 0;
    assert p[|p| - 1] != 0;
  }

  lemma ThinnerLive(b0: Nfa, src: Nfa, l: nat, n: Node)
    requires Building.BuiltFor(b0, l, n) && Wired(b0) && Wired(src) && src.vertices == b0.vertices && Pruning.SameBest(b0, src, l)
    ensures Sturdies.Live(src)
  {
    BuiltLive(b0, l, n);
    BuiltShape(b0, l, n);
    Sturdies.PrunedLive(b0, src, l);
  }

  lemma SturdySpread(g: Nfa)
    requires Sturdies.Sturdy(g)
    ensures Images.Spread(g)
  {
  }

  lemma MergedSturdy(src: Nfa, g0: Nfa, g: Nfa, phi: seq<Option<nat>>, l: nat)
    requires Sturdies.Sturdy(g0) && Sturdies.Live(src) && Images.MergedBy(src, g0, g, phi) && Images.FreshLabel(src, g0, l)
    requires l < Guards.UNLABELABLE && Wired(src) && Wired(g0) && Wired(g) && (Images.Spread(g0) ==> Images.Spread(g))
    ensures Sturdies.Sturdy(g)
  {
    SturdySpread(g0);
    hide Images.MergedBy, Images.FreshLabel, Sturdies.Sturdy, Sturdies.Live, Images.Spread;
    assert Sturdies.Joined(src, g0, g, phi, l);
    Sturdies.MergedSturdy(src, g0, g, phi, l);
  }

  lemma SomeMatch(g: Nfa)
    requires Sturdies.Sturdy(g) && |g.vertices| > 1
    ensures exists v :: 0 <= v < |g.vertices| && g.vertices[v].isMatch
  {
    Sturdies.SturdyParts(g);
    assert !Guards.Barren(g, 1);
    var l :| Guards.Reaches(g, 1, l);
    var p :| Guards.EndsAt(g, p, l) && p[0] == 1;
    assert g.vertices[p[|p| - 1]].isMatch;
  }

  /** With no pattern there is only the initial vertex. */
  lemma NoPatterns(g: Nfa)
    requires Holds(g, map[]) && Sturdies.Sturdy(g)
    ensures |g.vertices| == 1
  {
    Sturdies.SturdyParts(g);
    if |g.vertices| > 1 {
      SomeMatch(g);
    }
    hide Sturdies.Sturdy;
  }

  /** Of several vertices, one is reached from the initial one first. */
  lemma SomeEdge(g: Nfa)
    requires Sturdies.Sturdy(g) && |g.vertices| > 1
    ensures 0 < |g.out| && g.out[0] != []
  {
    assert Wired(g) && AllReachable(g);
    hide Sturdies.Sturdy;
    var s: set<nat> := {0};
    assert 1 !in s;
    assert !ClosedUnder(g, s);
  }

  lemma SturdyStart(g: Nfa)
    requires Sturdies.Sturdy(g)
    ensures Wired(g) && 0 < |g.vertices| && !g.vertices[0].isMatch
  {
  }

  lemma WiredValue(g: Graph)
    requires g.Valid()
    ensures Wired(g.Value()) && Matched(g.Value())
  {
  }

  /** A determinized automaton has more than the initial vertex if its source has. */
  lemma SturdyMore(src: Nfa, g: Nfa, lists: seq<seq<nat>>)
    requires Sturdies.Sturdy(src) && 0 < |src.out| && src.out[0] != [] && Sturdies.Sturdy(g) && Subsets.Determinizes(src, g, lists)
    ensures |g.vertices| > 1
  {
    Sturdies.AllLead(src, 0);
    var l :| Guards.Reaches(src, 0, l);
    Sturdies.SturdyWalkable(src);
    Sturdies.DeterminizedReaches(src, g, lists, 0, l);
    var p :| Guards.EndsAt(g, p, l) && p[0] == 0;
    assert p[|p| - 1] != 0;
  }

  lemma SameSingle(g: Nfa, g': Nfa, l: nat)
    requires Pruning.SinglePattern(g, l) && g'.vertices == g.vertices
    ensures Pruning.SinglePattern(g', l)
  {
  }

  class FsmThingy {
    var Fsm: Graph
    const Nfab: Building.NfaBuilder
    const Comp: Merging.NfaOptimizer
    ghost var Added: map<nat, Node>
    /** The labels of the patterns whose automata are untangled. */
    ghost var Orderly: set<nat>

    ghost predicate Valid()
      reads this, Fsm
    {
      && Fsm != Nfab.Fsm && Fsm.Valid() && Holds(Fsm.Value(), Added) && HoldsOrder(Fsm.Value(), Added, Orderly)
      && (forall l :: l in Added ==> Speaks(Added[l]))
      && Sturdies.Sturdy(Fsm.Value()) && (Added != map[] ==> |Fsm.Vertices| > 1)
    }

    constructor ()
      ensures Valid() && Added == map[] && Orderly == {} && fresh(Fsm) && fresh(Nfab) && fresh(Nfab.Fsm) && fresh(Comp)
    {
      Fsm := new Graph(1);
      Nfab := new Building.NfaBuilder();
      Comp := new Merging.NfaOptimizer();
      Added, Orderly := map[], {};
      new;
      assert Fsm.Value().ins == [[]];
      HoldsNothing(Fsm.Value());
      Sturdies.NothingSturdy(Fsm.Value());
    }

    /** addPattern; nothing is added where it throws, for want of bytes or because the pattern matches the empty string. */
    method AddPattern(root: Option<Node>, lbl: nat) returns (outcome: Building.Outcome)
      requires root.Some? ==> Traversals.WellFormed(root.value)
      requires Valid() && lbl !in Added && lbl < Guards.UNLABELABLE
      modifies `Added, `Orderly, Fsm, Nfab, Nfab.Fsm, Comp
      ensures Valid()
      ensures outcome.Throws? <==> root.Some? && !Traversals.Encodable(root.value)
      ensures outcome.Built? <==> root.Some? && Traversals.Encodable(root.value) && !Lang(Traversals.Flat(root.value), [])
      ensures Added == if outcome.Built? then old(Added)[lbl := Traversals.Flat(root.value)] else old(Added)
      ensures !outcome.Built? ==> Fsm.Value() == old(Fsm.Value()) && Orderly == old(Orderly)
      ensures outcome.Built? ==>
                Nfab.Fsm.Valid() && Prefers(Nfab.Fsm.Value(), lbl, Traversals.Flat(root.value))
                && Orderly == if Lineups.Untangled(Nfab.Fsm.Value()) then old(Orderly) + {lbl} else old(Orderly)
    {
      hide HoldsOrder, Prefers, Lineups.Untangled;
      hide Holds, Building.BuiltFor, Builders.StackOk, Sturdies.Sturdy, Speaks;
      Nfab.Reset();
      Nfab.CurLabel := lbl;
      outcome := Nfab.Build(root);
      if outcome.Built? {
        ghost var n := Traversals.Flat(root.value);
        Absorb(lbl, n);
        Added := Added[lbl := n];
        Orderly := if Lineups.Untangled(Nfab.Fsm.Value()) then Orderly + {lbl} else Orderly;
      }
    }

    /** The automaton of the pattern, pruned and merged into the greater one. */
    method Absorb(lbl: nat, ghost n: Node)
      requires Valid() && lbl !in Added && lbl < Guards.UNLABELABLE
      requires Nfab.Fsm.Valid() && Building.BuiltFor(Nfab.Fsm.Value(), lbl, n)
      modifies Fsm, Nfab.Fsm, Comp
      ensures Fsm.Valid() && Holds(Fsm.Value(), Added[lbl := n])
      ensures Nfab.Fsm.Valid() && Prefers(Nfab.Fsm.Value(), lbl, n)
      ensures HoldsOrder(Fsm.Value(), Added[lbl := n], if Lineups.Untangled(Nfab.Fsm.Value()) then Orderly + {lbl} else Orderly)
      ensures Sturdies.Sturdy(Fsm.Value()) && |Fsm.Vertices| > 1 && Speaks(n)
    {
      hide Speaks, HoldsOrder, Prefers, Lineups.Untangled, Lineups.OthersPrefer, Lineups.NewPrefersSame, Lineups.MergesTo;
      hide Holds, Building.BuiltFor, Finds, Images.Plain, Images.FreshLabel, Pruning.SinglePattern, Wired, Matched;
      hide Sturdies.Sturdy, Sturdies.Live, Images.MergedBy, Images.Spread;
      hide Images.SameLanguages, Images.OnlyLabels, Pruning.Thinner, Pruning.SameBest, Pruning.AllPruned;
      ghost var g0, b0 := Fsm.Value(), Nfab.Fsm.Value();
      BuiltShape(b0, lbl, n);
      BuiltFinds(b0, lbl, n);
      BuiltSpeaks(b0, lbl, n);
      ghost var reached := Pruning.PruneBranches(Nfab.Fsm, lbl);
      var src := Nfab.Fsm.Snapshot().Value();
      PrunedFinds(b0, src, lbl, n);
      BuiltPrefers(b0, src, lbl, n);
      PrunedPlain(b0, src, lbl, n);
      SameSingle(b0, src, lbl);
      FreshOnes(src, g0, Added, lbl);
      ghost var phi := Comp.MergeIntoFSM(Fsm, src, lbl);
      HoldsMore(src, g0, Fsm.Value(), Added, lbl, n);
      Images.PlainWired(g0);
      HoldsOrderMore(src, g0, Fsm.Value(), Added, Orderly, lbl, n);
      ThinnerLive(b0, src, lbl, n);
      Images.PlainWired(g0);
      Images.PlainWired(Fsm.Value());
      MergedSturdy(src, g0, Fsm.Value(), phi, lbl);
      MergedGrows(b0, src, g0, Fsm.Value(), lbl, n);
    }

    /**
     finalizeGraph, up to the guard labels: not ok where it throws, for want of patterns. The automaton may be
     determinized before it is compiled.
     */
    method FinalizeGraph(determinize: bool) returns (ok: bool, ghost lists: seq<seq<nat>>)
      requires Valid()
      modifies `Fsm
      ensures Fsm.Valid() && (Fsm == old(Fsm) || fresh(Fsm)) && old(Fsm).Valid() && old(Fsm).Value() == old(Fsm.Value())
      ensures ok <==> Added != map[]
      ensures ok ==> Sturdies.Sturdy(Fsm.Value()) && |Fsm.Vertices| > 1
      ensures ok ==> if determinize then Subsets.Determinizes(old(Fsm.Value()), Fsm.Value(), lists) else Fsm.Value() == old(Fsm.Value())
    {
      ghost var src := Fsm.Value();
      if Added == map[] {
        NoPatterns(src);
      }
      lists := [];
      ok := |Fsm.Vertices| >= 2;
      if !ok {
        return;
      }
      SomeEdge(src);
      if determinize {
        var dfa := new Graph(1);
        SturdyStart(src);
        lists := Determinizing.SubsetDFA(dfa, Fsm.Snapshot().Value());
        WiredValue(dfa);
        Sturdies.DeterminizedSturdy(src, dfa.Value(), lists);
        SturdyMore(src, dfa.Value(), lists);
        Fsm := dfa;
      }
    }
  }
}
