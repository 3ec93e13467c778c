/** bestPair (src/lib/utility.cpp:24-109): the two-byte filter of a program. */
module Filters {
  import opened Basics
  import opened Automata

  const LMIN_START: nat := 0xFFFF_FFFE

  /** Some path from v reads u and ends at a match vertex. */
  ghost predicate AcceptsSome(g: Nfa, v: nat, u: seq<Byte>)
    requires Wired(g) && v < |g.vertices|
    decreases |u|
  {
    if u == [] then g.vertices[v].isMatch
    else exists i: nat :: i < |g.out[v]| && Permits(g, g.out[v][i], u[0]) && AcceptsSome(g, g.out[v][i], u[1..])
  }

  /** The bytes of t0, each followed by any byte if t0 is a match, by a byte of some successor if not. */
  ghost predicate Follow(g: Nfa, t0: nat, first: Byte, second: Byte)
    requires Wired(g) && t0 < |g.vertices|
  {
    Permits(g, t0, first) && (g.vertices[t0].isMatch || exists i: nat :: i < |g.out[t0]| && Permits(g, g.out[t0][i], second))
  }

  /** The i-th successor of h, and what it leads to, read the pair with this index. */
  ghost predicate PairVia(g: Nfa, h: nat, i: nat, x: nat)
    requires Wired(g) && h < |g.vertices| && i < |g.out[h]|
  {
    exists first: Byte, second: Byte :: x == PairIndex(first, second) && Follow(g, g.out[h][i], first, second)
  }

  ghost predicate PairOf(g: Nfa, h: nat, x: nat)
    requires Wired(g) && h < |g.vertices|
  {
    exists i: nat :: i < |g.out[h]| && PairVia(g, h, i, x)
  }

  /** The set holds the pairs that can follow h. */
  ghost predicate HoldsPairs(g: Nfa, h: nat, pairs: set<nat>)
    requires Wired(g) && h < |g.vertices|
  {
    forall x: nat :: PairOf(g, h, x) ==> x in pairs
  }

  predicate Before(p: (nat, nat), q: (nat, nat)) {
    p.0 < q.0 || (p.0 == q.0 && p.1 < q.1)
  }

  /** Some path of d edges leads from the initial vertex to h. */
  ghost predicate ReachedIn(g: Nfa, d: nat, h: nat)
    requires Wired(g)
  {
    if d == 0 then h == 0
    else exists p: nat :: p < |g.out| && h in g.out[p] && ReachedIn(g, d - 1, p)
  }

  /** Some path of d edges leads to a vertex that the pair can follow. */
  ghost predicate FromSome(g: Nfa, d: nat, x: nat)
    requires Wired(g)
  {
    exists h: nat :: h < |g.vertices| && ReachedIn(g, d, h) && PairOf(g, h, x)
  }

  /** The pairs of the walk over (depth, vertex) are of paths, and what is done comes before what waits. */
  ghost predicate Members(g: Nfa, next: set<(nat, nat)>, done: set<(nat, nat)>)
    requires Wired(g)
  {
    && (forall p :: p in next + done ==> p.1 < |g.vertices| && p.0 <= LMIN_START + 1 && ReachedIn(g, p.0, p.1))
    && (forall p, q :: p in done && q in next ==> Before(p, q))
    && (0, 0) in next + done
  }

  /** At every depth, what can follow the vertices done there has been recorded, and nothing else. */
  ghost predicate Recorded(g: Nfa, done: set<(nat, nat)>, b: seq<set<nat>>)
    requires Wired(g)
  {
    && (forall p :: p in done ==> p.0 < |b| && p.1 < |g.vertices| && HoldsPairs(g, p.1, b[p.0]))
    && (forall d: nat, x :: d < |b| && x in b[d] ==> FromSome(g, d, x))
  }

  /** lmin is no more than the depth of any match that is done, and no successor up to it has been left out. */
  ghost predicate Covered(g: Nfa, next: set<(nat, nat)>, done: set<(nat, nat)>, lmin: nat)
    requires Wired(g)
  {
    && 0 < lmin <= LMIN_START
    && (forall p :: p in done && p.1 < |g.vertices| && g.vertices[p.1].isMatch ==> lmin <= p.0)
    && (forall p, i: nat :: p in done && p.1 < |g.out| && p.0 <= lmin && i < |g.out[p.1]| ==> (p.0 + 1, g.out[p.1][i]) in next + done)
  }

  /** There is room for no more depths than have been walked, and lmin is the depth of a match if it was ever lowered. */
  ghost predicate Reckoned(g: Nfa, done: set<(nat, nat)>, b: seq<set<nat>>, lmin: nat) {
    && (b != [] ==> exists p :: p in done && p.0 + 1 == |b|)
    && (lmin < LMIN_START ==> exists p :: p in done && p.0 == lmin && p.1 < |g.vertices| && g.vertices[p.1].isMatch)
  }

  ghost predicate Walked(g: Nfa, next: set<(nat, nat)>, done: set<(nat, nat)>, b: seq<set<nat>>, lmin: nat)
    requires Wired(g)
  {
    Members(g, next, done) && Recorded(g, done, b) && Covered(g, next, done, lmin) && Reckoned(g, done, b, lmin)
  }

  /** Nothing at depth lmin + 1 or less is left to do. */
  ghost predicate WalkOver(next: set<(nat, nat)>, lmin: nat) {
    forall p :: p in next ==> p.0 > lmin + 1
  }

  lemma StepDone(g: Nfa, next: set<(nat, nat)>, done: set<(nat, nat)>, b: seq<set<nat>>, lmin: nat, j: nat, h: nat, i: nat)
    requires Wired(g) && Walked(g, next, done, b, lmin) && WalkOver(next, lmin)
    requires (j, h) in done && j <= lmin && h < |g.out| && i < |g.out[h]|
    ensures (j + 1, g.out[h][i]) in done
  {
    hide Members, Recorded;
    assert (j + 1, g.out[h][i]) in next + done;
  }

  lemma PairDone(g: Nfa, next: set<(nat, nat)>, done: set<(nat, nat)>, b: seq<set<nat>>, lmin: nat, j: nat, h: nat, i: nat, x: nat)
    requires Wired(g) && Walked(g, next, done, b, lmin) && (j, h) in done && h < |g.vertices| && i < |g.out[h]| && PairVia(g, h, i, x)
    ensures j < |b| && x in b[j]
  {
    hide Members, Covered, PairVia;
    assert PairOf(g, h, x);
    assert HoldsPairs(g, h, b[j]);
  }

  lemma FirstStep(g: Nfa, h: nat, x: seq<Byte>, m: nat) returns (i: nat)
    requires Wired(g) && h < |g.vertices| && 0 < m <= |x| && AcceptsSome(g, h, x[..m])
    ensures i < |g.out[h]| && g.out[h][i] < |g.vertices| && Permits(g, g.out[h][i], x[0])
    ensures AcceptsSome(g, g.out[h][i], x[1..][..m - 1])
  {
    var u := x[..m];
    i :| i < |g.out[h]| && Permits(g, g.out[h][i], u[0]) && AcceptsSome(g, g.out[h][i], u[1..]);
    assert u[1..] == x[1..][..m - 1];
  }

  /** Along an accepted string, the pair at any offset below lmin has been recorded. */
  lemma {:induction false} PairAlong(g: Nfa, next: set<(nat, nat)>, done: set<(nat, nat)>, b: seq<set<nat>>, lmin: nat,
                                     off: nat, j: nat, h: nat, x: seq<Byte>, m: nat)
    requires Wired(g) && Walked(g, next, done, b, lmin) && WalkOver(next, lmin)
    requires (j, h) in done && j <= off < lmin && off < |b| && h < |g.vertices|
    requires m <= |x| && AcceptsSome(g, h, x[..m]) && off - j + 2 <= |x|
    ensures off - j < m && PairIndex(x[off - j], x[off - j + 1]) in b[off]
    decreases |x|
  {
    hide *;
    WiredOut(g);
    if m == 0 {
      assert x[..0] == [];
      NoMatchBelow(g, next, done, b, lmin, j, h);
      AcceptsNothing(g, h);
    } else {
      var i := FirstStep(g, h, x, m);
      var t := g.out[h][i];
      if j == off {
        FollowedBy(g, t, x[0], x[1], x[1..], m - 1);
        PairViaBy(g, h, i, x[0], x[1]);
        PairDone(g, next, done, b, lmin, j, h, i, PairIndex(x[0], x[1]));
      } else {
        StepDone(g, next, done, b, lmin, j, h, i);
        PairAlong(g, next, done, b, lmin, off, j + 1, t, x[1..], m - 1);
      }
    }
  }

  lemma AcceptsNothing(g: Nfa, h: nat)
    requires Wired(g) && h < |g.vertices| && AcceptsSome(g, h, [])
    ensures g.vertices[h].isMatch
  {
  }

  lemma PairViaBy(g: Nfa, h: nat, i: nat, first: Byte, second: Byte)
    requires Wired(g) && h < |g.vertices| && i < |g.out[h]| && g.out[h][i] < |g.vertices| && Follow(g, g.out[h][i], first, second)
    ensures PairVia(g, h, i, PairIndex(first, second))
  {
    hide Follow;
  }

  lemma NoMatchBelow(g: Nfa, next: set<(nat, nat)>, done: set<(nat, nat)>, b: seq<set<nat>>, lmin: nat, j: nat, h: nat)
    requires Wired(g) && Walked(g, next, done, b, lmin) && (j, h) in done && j < lmin
    ensures h < |g.vertices| && !g.vertices[h].isMatch
  {
  }

  lemma FollowedBy(g: Nfa, t: nat, first: Byte, second: Byte, x: seq<Byte>, m: nat)
    requires Wired(g) && t < |g.vertices| && Permits(g, t, first) && m <= |x| && x != [] && x[0] == second && AcceptsSome(g, t, x[..m])
    ensures Follow(g, t, first, second)
  {
    if m > 0 {
      var u := x[..m];
      var i: nat :| i < |g.out[t]| && Permits(g, g.out[t][i], u[0]) && AcceptsSome(g, g.out[t][i], u[1..]);
    }
  }

  /** The filter turns away no data that begins with an accepted string, and looks no further than the shortest of them. */
  ghost predicate Admissible(g: Nfa, off: nat, filter: set<nat>)
    requires Wired(g)
  {
    forall w: seq<Byte>, n: nat :: n <= |w| && off + 2 <= |w| && AcceptsSome(g, 0, w[..n]) ==>
      off < n && PairIndex(w[off], w[off + 1]) in filter
  }

  lemma WalkedAdmits(g: Nfa, next: set<(nat, nat)>, done: set<(nat, nat)>, b: seq<set<nat>>, lmin: nat, off: nat)
    requires Wired(g) && Walked(g, next, done, b, lmin) && WalkOver(next, lmin) && off < lmin && off < |b|
    ensures Admissible(g, off, b[off])
  {
    assert (0, 0) in done;
    hide Walked, WalkOver;
    forall w: seq<Byte>, n: nat | n <= |w| && off + 2 <= |w| && AcceptsSome(g, 0, w[..n])
      ensures off < n && PairIndex(w[off], w[off + 1]) in b[off]
    {
      PairAlong(g, next, done, b, lmin, off, 0, 0, w, n);
    }
  }

  // ----- the loops -----

  /** A byte of t0, followed by a byte of t1, or by any. */
  ghost predicate PairFrom(g: Nfa, t0: nat, any: bool, t1: nat, x: nat)
    requires t0 < |g.vertices| && (any || t1 < |g.vertices|)
  {
    exists first: Byte, second: Byte :: x == PairIndex(first, second) && Permits(g, t0, first) && (any || Permits(g, t1, second))
  }

  /** The pairs of a byte of t0 and the byte s. */
  function FirstBytes(g: Nfa, t0: nat, s: Byte): (r: set<nat>)
    requires t0 < |g.vertices|
    ensures forall x :: x in r <==> exists first: Byte :: Permits(g, t0, first) && x == PairIndex(first, s)
  {
    set first: Byte | first in Numbers(256) && Permits(g, t0, first) :: PairIndex(first, s)
  }

  /** The loop over the second byte: record each byte of t0 followed by each byte of t1, or by any byte. */
  method RecordPairs(pairs: set<nat>, g: Nfa, t0: nat, any: bool, t1: nat) returns (r: set<nat>)
    requires t0 < |g.vertices| && (any || t1 < |g.vertices|)
    ensures forall x: nat :: x in r <==> x in pairs || PairFrom(g, t0, any, t1, x)
  {
    r := pairs;
    for s := 0 to 256
      invariant forall x: nat :: x in pairs ==> x in r
      invariant forall x: nat :: x in r ==> x in pairs || PairFrom(g, t0, any, t1, x)
      invariant forall first: Byte, second: Byte :: second < s && Permits(g, t0, first) && (any || Permits(g, t1, second)) ==>
                  PairIndex(first, second) in r
    {
      if any || Permits(g, t1, s) {
        var more := FirstBytes(g, t0, s);
        forall x: nat | x in more ensures PairFrom(g, t0, any, t1, x) {
          var first: Byte :| Permits(g, t0, first) && x == PairIndex(first, s);
        }
        r := r + more;
      }
    }
  }

  /** The second loop for one t0: every successor of t0 may follow. */
  method RecordSeconds(pairs: set<nat>, g: Nfa, h: nat, i: nat) returns (r: set<nat>)
    requires Wired(g) && h < |g.vertices| && i < |g.out[h]|
    ensures forall x: nat :: x in r <==> x in pairs || PairVia(g, h, i, x)
  {
    var t0 := g.out[h][i];
    r := pairs;
    if g.vertices[t0].isMatch {
      // match; record each first byte followed by any byte
      r := RecordPairs(r, g, t0, true, 0);
      forall x: nat ensures PairFrom(g, t0, true, 0, x) <==> PairVia(g, h, i, x) {
      }
    } else {
      // no match; record each first byte followed by each second byte
      for k := 0 to |g.out[t0]|
        invariant forall x: nat :: x in pairs ==> x in r
        invariant forall x: nat, j: nat :: j < k && PairFrom(g, t0, false, g.out[t0][j], x) ==> x in r
        invariant forall x: nat :: x in r ==> x in pairs || PairVia(g, h, i, x)
      {
        var t1 := g.out[t0][k];
        r := RecordPairs(r, g, t0, false, t1);
        forall x: nat | PairFrom(g, t0, false, t1, x) ensures PairVia(g, h, i, x) {
          var first: Byte, second: Byte :| x == PairIndex(first, second) && Permits(g, t0, first) && Permits(g, t1, second);
          assert Follow(g, t0, first, second);
        }
      }
      forall x: nat | PairVia(g, h, i, x) ensures x in r {
        var first: Byte, second: Byte :| x == PairIndex(first, second) && Follow(g, t0, first, second);
        var j: nat :| j < |g.out[t0]| && Permits(g, g.out[t0][j], second);
        assert PairFrom(g, t0, false, g.out[t0][j], x);
      }
    }
  }

  /** The loops over the successors of h: the pairs that can follow h are recorded. */
  method RecordVertex(pairs: set<nat>, g: Nfa, h: nat) returns (r: set<nat>)
    requires Wired(g) && h < |g.vertices|
    ensures forall x: nat :: x in r <==> x in pairs || PairOf(g, h, x)
  {
    hide PairVia;
    r := pairs;
    for i := 0 to |g.out[h]|
      invariant forall x: nat :: x in pairs ==> x in r
      invariant forall x: nat, j: nat :: j < i && PairVia(g, h, j, x) ==> x in r
      invariant forall x: nat :: x in r ==> x in pairs || PairOf(g, h, x)
    {
      r := RecordSeconds(r, g, h, i);
    }
  }

  /** The least pair that waits: a set of pairs is walked in order. */
  method LeastOf(next: set<(nat, nat)>) returns (p: (nat, nat))
    requires next != {}
    ensures p in next && forall q :: q in next && q != p ==> Before(p, q)
  {
    p :| p in next;
    var rest := next - {p};
    while rest != {}
      invariant rest <= next && p in next
      invariant forall q :: q in next && q !in rest && q != p ==> Before(p, q)
      decreases |rest|
    {
      var q :| q in rest;
      rest := rest - {q};
      if Before(q, p) {
        p := q;
      }
    }
  }

  /** Put the successors of h in the queue. */
  method PutSuccessors(g: Nfa, depth: nat, h: nat, next: set<(nat, nat)>) returns (r: set<(nat, nat)>)
    requires Wired(g) && h < |g.vertices|
    ensures forall q :: q in r <==> q in next || exists i: nat :: i < |g.out[h]| && q == (depth + 1, g.out[h][i])
  {
    r := next;
    for i := 0 to |g.out[h]|
      invariant forall q :: q in r <==> q in next || exists j: nat :: j < i && q == (depth + 1, g.out[h][j])
    {
      r := r + {(depth + 1, g.out[h][i])};
    }
  }

  /** All pairs that can come up. */
  ghost function AllPairs(g: Nfa): set<(nat, nat)> {
    set d, v | d in Numbers(LMIN_START + 2) && v in Numbers(|g.vertices|) :: (d, v)
  }

  ghost predicate Queued(g: Nfa, depth: nat, h: nat, lmin: nat, next: set<(nat, nat)>, next': set<(nat, nat)>)
    requires Wired(g) && h < |g.vertices|
  {
    if depth < lmin + 1 then
      forall q :: q in next' <==> q in next || exists i: nat :: i < |g.out[h]| && q == (depth + 1, g.out[h][i])
    else next' == next
  }

  lemma MembersStep(g: Nfa, next: set<(nat, nat)>, next': set<(nat, nat)>, done: set<(nat, nat)>, p: (nat, nat), lmin': nat)
    requires Wired(g) && Members(g, next, done) && p in next && (forall q :: q in next && q != p ==> Before(p, q))
    requires p.1 < |g.vertices| && lmin' <= LMIN_START && Queued(g, p.0, p.1, lmin', next - {p}, next')
    ensures Members(g, next', done + {p}) && p !in done
  {
    hide ReachedIn, Wired;
    WiredOut(g);
    forall q | q in next' + (done + {p}) ensures q.1 < |g.vertices| && q.0 <= LMIN_START + 1 && ReachedIn(g, q.0, q.1) {
      if q !in next + done {
        var i: nat :| i < |g.out[p.1]| && q == (p.0 + 1, g.out[p.1][i]);
        ReachedNext(g, p.0, p.1, i);
      }
    }
  }

  lemma WiredOut(g: Nfa)
    requires Wired(g)
    ensures |g.out| == |g.vertices| && forall v: nat, i: nat :: v < |g.out| && i < |g.out[v]| ==> g.out[v][i] < |g.vertices|
  {
  }

  lemma RecordedStep(g: Nfa, done: set<(nat, nat)>, b: seq<set<nat>>, b': seq<set<nat>>, p: (nat, nat))
    requires Wired(g) && Recorded(g, done, b) && p.1 < |g.vertices| && ReachedIn(g, p.0, p.1)
    requires |b'| == (if |b| <= p.0 then p.0 + 1 else |b|)
    requires forall d: nat :: d < |b'| && d != p.0 ==> b'[d] == if d < |b| then b[d] else {}
    requires forall x: nat :: x in b'[p.0] <==> (p.0 < |b| && x in b[p.0]) || PairOf(g, p.1, x)
    ensures Recorded(g, done + {p}, b')
  {
    hide PairOf, ReachedIn, Wired;
    forall d: nat, x | d < |b'| && x in b'[d] ensures FromSome(g, d, x) {
      if d < |b| && x in b[d] {
        assert FromSome(g, d, x);
      }
    }
    forall q | q in done + {p} ensures q.0 < |b'| && q.1 < |g.vertices| && HoldsPairs(g, q.1, b'[q.0]) {
      if q in done {
        assert HoldsPairs(g, q.1, b[q.0]);
      }
    }
  }

  lemma CoveredStep(g: Nfa, next: set<(nat, nat)>, next': set<(nat, nat)>, done: set<(nat, nat)>, p: (nat, nat), lmin: nat, lmin': nat)
    requires Wired(g) && Covered(g, next, done, lmin) && p in next && p.1 < |g.vertices| && (p.0 == 0 ==> !g.vertices[p.1].isMatch)
    requires p.0 <= lmin + 1
    requires lmin' == if g.vertices[p.1].isMatch && p.0 < lmin then p.0 else lmin
    requires Queued(g, p.0, p.1, lmin', next - {p}, next')
    ensures Covered(g, next', done + {p}, lmin')
  {
    WiredOut(g);
    hide Wired;
    forall q, i: nat | q in done + {p} && q.1 < |g.out| && q.0 <= lmin' && i < |g.out[q.1]|
      ensures (q.0 + 1, g.out[q.1][i]) in next' + (done + {p})
    {
      if q != p {
        assert (q.0 + 1, g.out[q.1][i]) in next + done;
      }
    }
  }

  /** One round, for the least pair. */
  lemma WalkStep(g: Nfa, next: set<(nat, nat)>, next': set<(nat, nat)>, done: set<(nat, nat)>, b: seq<set<nat>>, b': seq<set<nat>>,
                 lmin: nat, lmin': nat, p: (nat, nat))
    requires Wired(g) && Walked(g, next, done, b, lmin) && !g.vertices[0].isMatch
    requires p in next && (forall q :: q in next && q != p ==> Before(p, q)) && p.0 <= lmin + 1
    requires p.1 < |g.vertices|
    requires lmin' == if g.vertices[p.1].isMatch && p.0 < lmin then p.0 else lmin
    requires Queued(g, p.0, p.1, lmin', next - {p}, next')
    requires |b'| == (if |b| <= p.0 then p.0 + 1 else |b|)
    requires forall d: nat :: d < |b'| && d != p.0 ==> b'[d] == if d < |b| then b[d] else {}
    requires forall x: nat :: x in b'[p.0] <==> (p.0 < |b| && x in b[p.0]) || PairOf(g, p.1, x)
    ensures Walked(g, next', done + {p}, b', lmin')
    ensures p !in done && p in AllPairs(g)
  {
    WalkedParts(g, next, done, b, lmin, p);
    hide *;
    StartOnly(g, p.0, p.1);
    MembersStep(g, next, next', done, p, lmin');
    RecordedStep(g, done, b, b', p);
    CoveredStep(g, next, next', done, p, lmin, lmin');
    ReckonedStep(g, done, b, b', lmin, lmin', p);
    WalkedWhole(g, next', done + {p}, b', lmin');
    InAllPairs(g, p);
  }

  lemma WalkedParts(g: Nfa, next: set<(nat, nat)>, done: set<(nat, nat)>, b: seq<set<nat>>, lmin: nat, p: (nat, nat))
    requires Wired(g) && Walked(g, next, done, b, lmin) && p in next
    ensures Members(g, next, done) && Recorded(g, done, b) && Covered(g, next, done, lmin) && Reckoned(g, done, b, lmin)
    ensures ReachedIn(g, p.0, p.1) && p.0 <= LMIN_START + 1 && lmin <= LMIN_START
  {
    hide Recorded, ReachedIn;
  }

  lemma ReckonedStep(g: Nfa, done: set<(nat, nat)>, b: seq<set<nat>>, b': seq<set<nat>>, lmin: nat, lmin': nat, p: (nat, nat))
    requires Reckoned(g, done, b, lmin) && p.1 < |g.vertices|
    requires |b'| == (if |b| <= p.0 then p.0 + 1 else |b|)
    requires lmin' == if g.vertices[p.1].isMatch && p.0 < lmin then p.0 else lmin
    ensures Reckoned(g, done + {p}, b', lmin')
  {
    if |b| <= p.0 {
      assert p in done + {p} && p.0 + 1 == |b'|;
    } else {
      var q :| q in done && q.0 + 1 == |b|;
      assert q in done + {p};
    }
    if lmin' != lmin {
      assert p in done + {p};
    } else if lmin < LMIN_START {
      var q :| q in done && q.0 == lmin && q.1 < |g.vertices| && g.vertices[q.1].isMatch;
      assert q in done + {p};
    }
  }

  lemma WalkedWhole(g: Nfa, next: set<(nat, nat)>, done: set<(nat, nat)>, b: seq<set<nat>>, lmin: nat)
    requires Wired(g) && Members(g, next, done) && Recorded(g, done, b) && Covered(g, next, done, lmin) && Reckoned(g, done, b, lmin)
    ensures Walked(g, next, done, b, lmin)
  {
  }

  lemma InAllPairs(g: Nfa, p: (nat, nat))
    requires p.0 <= LMIN_START + 1 && p.1 < |g.vertices|
    ensures p in AllPairs(g)
  {
    assert p == (p.0, p.1);
  }

  lemma StartOnly(g: Nfa, d: nat, h: nat)
    requires Wired(g) && ReachedIn(g, d, h)
    ensures d == 0 ==> h == 0
  {
  }

  lemma ReachedNext(g: Nfa, d: nat, h: nat, i: nat)
    requires Wired(g) && h < |g.out| && i < |g.out[h]| && ReachedIn(g, d, h)
    ensures ReachedIn(g, d + 1, g.out[h][i])
  {
    assert g.out[h][i] in g.out[h];
  }

  lemma WalkFirst(g: Nfa)
    requires Wired(g)
    ensures Walked(g, {(0, 0)}, {}, [], LMIN_START)
  {
  }

  /** The offset with the fewest pairs, the first of them if there are several. */
  method BestOffset(b: seq<set<nat>>) returns (off: nat)
    requires b != []
    ensures off < |b|
    ensures forall d :: 0 <= d < |b| ==> |b[off]| <= |b[d]|
    ensures forall d :: 0 <= d < off ==> |b[off]| < |b[d]|
  {
    off := 0;
    for d := 1 to |b|
      invariant off < d
      invariant forall e :: 0 <= e < d ==> |b[off]| <= |b[e]|
      invariant forall e :: 0 <= e < off ==> |b[off]| < |b[e]|
    {
      if |b[d]| < |b[off]| {
        off := d;
      }
    }
  }

  // ----- the best window -----

  /** Offset d of some path comes before every match. */
  ghost predicate Eligible(g: Nfa, d: nat)
    requires Wired(g)
  {
    && d < LMIN_START
    && (exists h: nat :: h < |g.vertices| && ReachedIn(g, d, h))
    && (forall e: nat, h: nat :: h < |g.vertices| && g.vertices[h].isMatch && ReachedIn(g, e, h) ==> d < e)
  }

  /** The set holds exactly the pairs that paths have at offset d. */
  ghost predicate PairsAt(g: Nfa, d: nat, pairs: set<nat>)
    requires Wired(g)
  {
    forall x: nat :: x in pairs <==> FromSome(g, d, x)
  }

  /** No eligible offset has fewer pairs, and none before this one as few. */
  ghost predicate BestWindow(g: Nfa, off: nat, filter: set<nat>)
    requires Wired(g)
  {
    && Eligible(g, off) && PairsAt(g, off, filter)
    && (forall d: nat, pairs: set<nat> :: Eligible(g, d) && PairsAt(g, d, pairs) ==>
          |filter| <= |pairs| && (d < off ==> |filter| < |pairs|))
  }

  /** Up to the depth after lmin, every vertex that is reached has been walked. */
  lemma {:induction false} ReachedIsDone(g: Nfa, next: set<(nat, nat)>, done: set<(nat, nat)>, b: seq<set<nat>>, lmin: nat, d: nat, h: nat)
    requires Wired(g) && Walked(g, next, done, b, lmin) && WalkOver(next, lmin) && ReachedIn(g, d, h) && d <= lmin + 1
    ensures (d, h) in done
    decreases d
  {
    if d == 0 {
      assert (0, 0) in next + done;
    } else {
      var p: nat :| p < |g.out| && h in g.out[p] && ReachedIn(g, d - 1, p);
      ReachedIsDone(g, next, done, b, lmin, d - 1, p);
      var i: nat :| i < |g.out[p]| && g.out[p][i] == h;
      hide Walked, ReachedIn;
      StepDone(g, next, done, b, lmin, d - 1, p, i);
    }
  }

  lemma {:induction false} ReachedBefore(g: Nfa, d: nat, e: nat, h: nat) returns (v: nat)
    requires Wired(g) && ReachedIn(g, e, h) && h < |g.vertices| && d <= e
    ensures v < |g.vertices| && ReachedIn(g, d, v)
    decreases e
  {
    if d == e {
      v := h;
    } else {
      var p: nat :| p < |g.out| && h in g.out[p] && ReachedIn(g, e - 1, p);
      v := ReachedBefore(g, d, e - 1, p);
    }
  }

  lemma WalkedEligible(g: Nfa, next: set<(nat, nat)>, done: set<(nat, nat)>, b: seq<set<nat>>, lmin: nat, d: nat)
    requires Wired(g) && Walked(g, next, done, b, lmin) && WalkOver(next, lmin)
    ensures Eligible(g, d) <==> d < lmin && d < |b|
  {
    hide ReachedIn, WalkOver;
    if Eligible(g, d) {
      if lmin < LMIN_START {
        var p :| p in done && p.0 == lmin && p.1 < |g.vertices| && g.vertices[p.1].isMatch;
        assert p in next + done;
      }
      var h: nat :| h < |g.vertices| && ReachedIn(g, d, h);
      ReachedIsDone(g, next, done, b, lmin, d, h);
      assert (d, h) in done;
    }
    if d < lmin && d < |b| {
      var p :| p in done && p.0 + 1 == |b|;
      assert p in next + done;
      var v := ReachedBefore(g, d, p.0, p.1);
      forall e: nat, h: nat | h < |g.vertices| && g.vertices[h].isMatch && ReachedIn(g, e, h) ensures d < e {
        if e <= lmin {
          ReachedIsDone(g, next, done, b, lmin, e, h);
        }
      }
    }
  }

  lemma WalkedPairs(g: Nfa, next: set<(nat, nat)>, done: set<(nat, nat)>, b: seq<set<nat>>, lmin: nat, d: nat)
    requires Wired(g) && Walked(g, next, done, b, lmin) && WalkOver(next, lmin) && d < lmin && d < |b|
    ensures PairsAt(g, d, b[d])
  {
    assert Recorded(g, done, b);
    hide Members, Covered, Reckoned, PairOf, ReachedIn, WalkOver;
    forall x: nat | FromSome(g, d, x) ensures x in b[d] {
      var h: nat :| h < |g.vertices| && ReachedIn(g, d, h) && PairOf(g, h, x);
      ReachedIsDone(g, next, done, b, lmin, d, h);
      assert (d, h) in done;
      assert HoldsPairs(g, h, b[d]);
    }
  }

  lemma SamePairs(g: Nfa, d: nat, pairs: set<nat>, pairs': set<nat>)
    requires Wired(g) && PairsAt(g, d, pairs) && PairsAt(g, d, pairs')
    ensures pairs == pairs'
  {
    hide FromSome;
    assert forall x: nat :: x in pairs <==> x in pairs';
  }

  /** The least of the windows that were walked is the best of all. */
  lemma WalkedBest(g: Nfa, next: set<(nat, nat)>, done: set<(nat, nat)>, b: seq<set<nat>>, lmin: nat, off: nat)
    requires Wired(g) && Walked(g, next, done, b, lmin) && WalkOver(next, lmin) && off < lmin && off < |b|
    requires forall d: nat :: d < lmin && d < |b| ==> |b[off]| <= |b[d]|
    requires forall d: nat :: d < off ==> |b[off]| < |b[d]|
    ensures BestWindow(g, off, b[off])
  {
    hide Walked, WalkOver, Eligible, PairsAt;
    WalkedEligible(g, next, done, b, lmin, off);
    WalkedPairs(g, next, done, b, lmin, off);
    forall d: nat, pairs: set<nat> | Eligible(g, d) && PairsAt(g, d, pairs)
      ensures |b[off]| <= |pairs| && (d < off ==> |b[off]| < |pairs|)
    {
      WalkedEligible(g, next, done, b, lmin, d);
      WalkedPairs(g, next, done, b, lmin, d);
      SamePairs(g, d, pairs, b[d]);
    }
  }

  lemma WalkedAt(g: Nfa, next: set<(nat, nat)>, done: set<(nat, nat)>, b: seq<set<nat>>, lmin: nat, p: (nat, nat))
    requires Wired(g) && Walked(g, next, done, b, lmin) && p in next
    ensures p.1 < |g.vertices| && |g.out| == |g.vertices|
  {
  }

  lemma QueuedBy(g: Nfa, depth: nat, h: nat, lmin: nat, next: set<(nat, nat)>, next': set<(nat, nat)>)
    requires Wired(g) && h < |g.vertices| && h < |g.out|
    requires if depth < lmin + 1 then
               forall q :: q in next' <==> q in next || exists i: nat :: i < |g.out[h]| && q == (depth + 1, g.out[h][i])
             else next' == next
    ensures Queued(g, depth, h, lmin, next, next')
  {
  }

  lemma WalkDone(g: Nfa, next: set<(nat, nat)>, done: set<(nat, nat)>, b: seq<set<nat>>, lmin: nat)
    requires Wired(g) && Walked(g, next, done, b, lmin) && WalkOver(next, lmin)
    ensures |b| > 0 && lmin > 0
  {
    assert (0, 0) in done;
  }

  lemma OverBy(next: set<(nat, nat)>, lmin: nat, p: (nat, nat))
    requires p in next && (forall q :: q in next && q != p ==> Before(p, q)) && p.0 > lmin + 1
    ensures WalkOver(next, lmin)
  {
  }

  /**
   bestPair, for an automaton whose initial vertex is no match: the filter turns
   nothing away that could match, and is the best window of two bytes: exactly the pairs
   that paths have at its offset, at the first of the offsets before every match that
   have the fewest.
   */
  method BestPair(g: Nfa) returns (off: nat, filter: set<nat>)
    requires Wired(g) && !g.vertices[0].isMatch
    ensures Admissible(g, off, filter) && BestWindow(g, off, filter)
  {
    hide *;
    WalkFirst(g);
    var next: set<(nat, nat)> := {(0, 0)};
    var b: seq<set<nat>> := [];
    var lmin: nat := LMIN_START;
    ghost var done: set<(nat, nat)> := {};
    while next != {}
      invariant Walked(g, next, done, b, lmin)
      invariant next == {} ==> WalkOver(next, lmin)
      decreases |AllPairs(g) - done|
    {
      var p := LeastOf(next);
      // lmin + 1 still gets us one transition followed by any byte
      if p.0 > lmin + 1 {
        OverBy(next, lmin, p);
        break;
      }
      WalkedAt(g, next, done, b, lmin, p);
      ghost var next0, b0, lmin0 := next, b, lmin;
      next := next - {p};
      ghost var others := next;
      if g.vertices[p.1].isMatch && p.0 < lmin {
        lmin := p.0;
      }
      // put successors in the queue if they're at lmin + 1 or less
      if p.0 < lmin + 1 {
        next := PutSuccessors(g, p.0, p.1, next);
      }
      QueuedBy(g, p.0, p.1, lmin, others, next);
      // ensure that b[depth] exists
      if |b| <= p.0 {
        b := b + seq(p.0 + 1 - |b|, i => {});
      }
      var pairs := RecordVertex(b[p.0], g, p.1);
      b := b[p.0 := pairs];
      WalkStep(g, next0, next, done, b0, b, lmin0, lmin, p);
      assert AllPairs(g) - (done + {p}) == AllPairs(g) - done - {p};
      done := done + {p};
      EmptyIsOver(next, lmin);
    }
    WalkDone(g, next, done, b, lmin);
    // Don't start pairs after offset lmin-1, as [lmin,lmin+2) is guaranteed to be informationless.
    var windows := if lmin < |b| then b[..lmin] else b;
    off := BestOffset(windows);
    filter := windows[off];
    assert filter == b[off];
    WalkedAdmits(g, next, done, b, lmin, off);
    WalkedBest(g, next, done, b, lmin, off);
  }

  lemma EmptyIsOver(next: set<(nat, nat)>, lmin: nat)
    ensures next == {} ==> WalkOver(next, lmin)
  {
  }
}
