/** removeRightDuplicates (include/sequences.h:26-47), and flattening. */
module Sequences {
  import opened Basics

  /** The first occurrences, in order. */
  function Dedup(s: seq<nat>): (r: seq<nat>)
    ensures forall x :: x in r <==> x in s
    decreases |s|
  {
    if s == [] then []
    else
      var front, x := s[..|s| - 1], s[|s| - 1];
      assert s == front + [x];
      if x in front then Dedup(front) else Dedup(front) + [x]
  }

  ghost predicate NoRepeats(s: seq<nat>) {
    forall i, j :: 0 <= i < j < |s| ==> s[i] != s[j]
  }

  lemma {:induction false} DedupNoRepeats(s: seq<nat>)
    ensures NoRepeats(Dedup(s))
    decreases |s|
  {
    if s != [] {
      DedupNoRepeats(s[..|s| - 1]);
    }
  }

  lemma DedupSnoc(s: seq<nat>, x: nat)
    ensures Dedup(s + [x]) == (if x in s then Dedup(s) else Dedup(s) + [x])
  {
    assert (s + [x])[..|s|] == s;
  }

  /** Only what is new in the second part is added. */
  lemma {:induction false} DedupAbsorbs(a: seq<nat>, b: seq<nat>)
    requires forall x :: x in b ==> x in a
    ensures Dedup(a + b) == Dedup(a)
    decreases |b|
  {
    if b == [] {
      assert a + b == a;
    } else {
      var front, x := b[..|b| - 1], b[|b| - 1];
      assert a + b == (a + front) + [x];
      assert x in b;
      DedupAbsorbs(a, front);
      DedupSnoc(a + front, x);
    }
  }

  /** The first part may be deduplicated beforehand. */
  lemma {:induction false} DedupLeft(a: seq<nat>, b: seq<nat>)
    ensures Dedup(Dedup(a) + b) == Dedup(a + b)
    decreases |b|
  {
    if b == [] {
      assert a + b == a && Dedup(a) + b == Dedup(a);
      DedupIdempotent(a);
    } else {
      var front, x := b[..|b| - 1], b[|b| - 1];
      assert a + b == (a + front) + [x] && Dedup(a) + b == (Dedup(a) + front) + [x];
      DedupLeft(a, front);
      DedupSnoc(a + front, x);
      DedupSnoc(Dedup(a) + front, x);
    }
  }

  lemma {:induction false} DedupIdempotent(a: seq<nat>)
    ensures Dedup(Dedup(a)) == Dedup(a)
    decreases |a|
  {
    if a != [] {
      var front, x := a[..|a| - 1], a[|a| - 1];
      DedupIdempotent(front);
      DedupSnoc(Dedup(front), x);
    }
  }

  /** So may the second. */
  lemma {:induction false} DedupRight(a: seq<nat>, b: seq<nat>)
    ensures Dedup(a + Dedup(b)) == Dedup(a + b)
    decreases |b|
  {
    if b == [] {
    } else {
      var front, x := b[..|b| - 1], b[|b| - 1];
      assert b == front + [x];
      assert a + b == (a + front) + [x];
      DedupRight(a, front);
      DedupSnoc(a + front, x);
      if x !in front {
        assert a + Dedup(b) == (a + Dedup(front)) + [x];
        DedupSnoc(a + Dedup(front), x);
      }
    }
  }

  function FlatMap(f: nat -> seq<nat>, s: seq<nat>): seq<nat> {
    if s == [] then [] else f(s[0]) + FlatMap(f, s[1..])
  }

  lemma {:induction false} FlatMapAppend(f: nat -> seq<nat>, a: seq<nat>, b: seq<nat>)
    ensures FlatMap(f, a + b) == FlatMap(f, a) + FlatMap(f, b)
    decreases |a|
  {
    if a == [] {
      assert a + b == b;
    } else {
      assert (a + b)[0] == a[0] && (a + b)[1..] == a[1..] + b;
      FlatMapAppend(f, a[1..], b);
    }
  }

  lemma {:induction false} FlatMapIn(f: nat -> seq<nat>, s: seq<nat>, x: nat, y: nat)
    requires x in s && y in f(x)
    ensures y in FlatMap(f, s)
    decreases |s|
  {
    if x != s[0] {
      FlatMapIn(f, s[1..], x, y);
    }
  }

  lemma FlatMapSnoc(f: nat -> seq<nat>, s: seq<nat>, x: nat)
    ensures FlatMap(f, s + [x]) == FlatMap(f, s) + f(x)
  {
    FlatMapAppend(f, s, [x]);
    assert [x][1..] == [];
    assert FlatMap(f, [x]) == f(x) + [];
  }

  /** Duplicates in the list to be mapped add nothing. */
  lemma {:induction false} DedupFlatMap(f: nat -> seq<nat>, s: seq<nat>)
    ensures Dedup(FlatMap(f, Dedup(s))) == Dedup(FlatMap(f, s))
    decreases |s|
  {
    if s != [] {
      var front, x := s[..|s| - 1], s[|s| - 1];
      assert s == front + [x];
      FlatMapSnoc(f, front, x);
      DedupFlatMap(f, front);
      if x in front {
        forall y | y in f(x) ensures y in FlatMap(f, front) {
          FlatMapIn(f, front, x, y);
        }
        DedupAbsorbs(FlatMap(f, front), f(x));
      } else {
        FlatMapSnoc(f, Dedup(front), x);
        DedupLeft(FlatMap(f, Dedup(front)), f(x));
        DedupLeft(FlatMap(f, front), f(x));
      }
    }
  }

  /** Nor do duplicates in the mapped pieces. */
  lemma {:induction false} DedupPieces(f: nat -> seq<nat>, g: nat -> seq<nat>, s: seq<nat>)
    requires forall x :: x in s ==> f(x) == Dedup(g(x))
    ensures Dedup(FlatMap(f, s)) == Dedup(FlatMap(g, s))
    decreases |s|
  {
    if s != [] {
      var front, x := s[..|s| - 1], s[|s| - 1];
      assert s == front + [x];
      DedupPieces(f, g, front);
      FlatMapSnoc(f, front, x);
      FlatMapSnoc(g, front, x);
      DedupLeft(FlatMap(f, front), f(x));
      DedupLeft(FlatMap(g, front), f(x));
      DedupRight(FlatMap(g, front), g(x));
    }
  }

  function Then(f: nat -> seq<nat>, g: nat -> seq<nat>): nat -> seq<nat> {
    (x: nat) => FlatMap(g, f(x))
  }

  /** Mapping twice is mapping once by the composition. */
  lemma {:induction false} FlatMapTwice(f: nat -> seq<nat>, g: nat -> seq<nat>, s: seq<nat>)
    ensures FlatMap(g, FlatMap(f, s)) == FlatMap(Then(f, g), s)
    decreases |s|
  {
    if s != [] {
      FlatMapAppend(g, f(s[0]), FlatMap(f, s[1..]));
      FlatMapTwice(f, g, s[1..]);
    }
  }

  /** removeRightDuplicates: one pass with the set of what has been seen. */
  method RemoveRightDuplicates(s: seq<nat>) returns (r: seq<nat>)
    ensures r == Dedup(s)
  {
    var seen: set<nat> := {};
    r := [];
    for i := 0 to |s|
      invariant r == Dedup(s[..i])
      invariant forall x :: x in seen <==> x in s[..i]
    {
      assert s[..i + 1] == s[..i] + [s[i]];
      DedupSnoc(s[..i], s[i]);
      if s[i] !in seen {
        seen := seen + {s[i]};
        r := r + [s[i]];
      }
    }
    assert s[..|s|] == s;
  }

  // ----- counting -----

  /** A list without repeats is no longer than a set that holds it. */
  lemma {:induction false} DistinctLength<T>(s: seq<T>, S: set<T>)
    requires forall i, j :: 0 <= i < j < |s| ==> s[i] != s[j]
    requires forall i :: 0 <= i < |s| ==> s[i] in S
    ensures |s| <= |S|
    decreases |s|
  {
    if s != [] {
      var x := s[|s| - 1];
      DistinctLength(s[..|s| - 1], S - {x});
    }
  }

  lemma {:induction false} NumbersCount(n: nat)
    ensures |Numbers(n)| == n
  {
    if n > 0 {
      NumbersCount(n - 1);
    }
  }
}
