/**
 SparseSet (include/sparseset.h): a set of numbers below Max that is cleared in
 one step. The virtual machine keeps its locks and its live labels in such sets;
 elsewhere in this project they are mathematical sets.
 */
module SparseSets {
  import opened Basics
  import opened Sequences

  /** The low part of the array says where in the high part a member is; what is left there from earlier is never believed. */
  ghost predicate Backed(data: seq<nat>, end: nat, max: nat) {
    && |data| == 2 * max && max <= end <= 2 * max
    && forall k :: max <= k < end ==> data[k] < max && data[data[k]] == k - max
  }

  /** The high part, as far as it is used. */
  function Members(data: seq<nat>, end: nat, max: nat): (s: set<nat>)
    requires max <= end <= |data|
    ensures forall e :: e in s <==> e in data[max..end]
  {
    set e | e in data[max..end]
  }

  lemma FoundIsMember(data: seq<nat>, end: nat, max: nat, e: nat)
    requires Backed(data, end, max) && e < max
    ensures e in Members(data, end, max) <==> var i := data[e] + max; i < end && data[i] == e
  {
    if e in Members(data, end, max) {
      var k :| 0 <= k < end - max && data[max..end][k] == e;
      assert data[max + k] == e;
    }
    var i := data[e] + max;
    if i < end && data[i] == e {
      assert data[max..end][i - max] == e;
    }
  }

  function ElementsOf(s: seq<nat>): (r: set<nat>)
    ensures forall e :: e in r <==> e in s
  {
    if s == [] then {} else
      assert s == s[..|s| - 1] + [s[|s| - 1]];
      ElementsOf(s[..|s| - 1]) + {s[|s| - 1]}
  }

  lemma {:induction false} SetOfDistinct(s: seq<nat>)
    requires forall i, j :: 0 <= i < j < |s| ==> s[i] != s[j]
    ensures |ElementsOf(s)| == |s|
    decreases |s|
  {
    if s != [] {
      SetOfDistinct(s[..|s| - 1]);
    }
  }

  lemma DistinctPlaces(data: seq<nat>, end: nat, max: nat, i: nat, j: nat)
    requires Backed(data, end, max) && i < j < end - max
    ensures data[max..end][i] != data[max..end][j]
  {
    assert data[data[max + i]] == i && data[data[max + j]] == j;
  }

  lemma DistinctMembers(data: seq<nat>, end: nat, max: nat)
    requires Backed(data, end, max)
    ensures |Members(data, end, max)| == end - max
    ensures forall e :: e in Members(data, end, max) ==> e < max
  {
    var s := data[max..end];
    forall i, j | 0 <= i < j < |s| ensures s[i] != s[j] {
      DistinctPlaces(data, end, max, i, j);
    }
    SetOfDistinct(s);
    assert Members(data, end, max) == ElementsOf(s);
    forall e | e in Members(data, end, max) ensures e < max {
      var k :| 0 <= k < |s| && s[k] == e;
      assert data[max + k] == e;
    }
  }

  /** There is room for one that is not a member. */
  lemma RoomForOne(data: seq<nat>, end: nat, max: nat, e: nat)
    requires Backed(data, end, max) && e < max && e !in Members(data, end, max)
    ensures end < 2 * max
  {
    var s := data[max..end];
    forall i, j | 0 <= i < j < |s| ensures s[i] != s[j] {
      DistinctPlaces(data, end, max, i, j);
    }
    DistinctMembers(data, end, max);
    NumbersCount(max);
    forall i | 0 <= i < |s| ensures s[i] in Numbers(max) - {e} {
      assert s[i] in Members(data, end, max);
    }
    DistinctLength(s, Numbers(max) - {e});
  }

  lemma InsertedBacked(data: seq<nat>, end: nat, max: nat, e: nat, data': seq<nat>)
    requires Backed(data, end, max) && e < max && e !in Members(data, end, max) && end < 2 * max
    requires |data'| == |data| && forall k :: 0 <= k < |data| ==> data'[k] == if k == e then end - max else if k == end then e else data[k]
    ensures Backed(data', end + 1, max) && Members(data', end + 1, max) == Members(data, end, max) + {e}
  {
    forall k | max <= k < end ensures data[k] != e {
      assert data[max..end][k - max] == data[k];
    }
    assert data'[max..end + 1] == data[max..end] + [e];
  }

  class SparseSet {
    var Data: array<nat>
    var End: nat
    var Max: nat

    ghost predicate Valid()
      reads this, Data
    {
      Backed(Data[..], End, Max)
    }

    ghost function Contents(): set<nat>
      requires Valid()
      reads this, Data
    {
      Members(Data[..], End, Max)
    }

    constructor (maxSize: nat)
      ensures Valid() && Contents() == {} && Max == maxSize && fresh(Data)
    {
      Data := new nat[2 * maxSize](i => 0);
      End, Max := maxSize, maxSize;
      new;
      assert Data[..][Max..End] == [];
    }

    /** size */
    function Size(): nat
      requires Valid()
      reads this, Data
    {
      End - Max
    }

    lemma SizeIsCount()
      requires Valid()
      ensures Size() == |Contents()| && forall e :: e in Contents() ==> e < Max
    {
      DistinctMembers(Data[..], End, Max);
    }

    /** find */
    method Find(e: nat) returns (r: bool)
      requires Valid() && e < Max
      ensures r <==> e in Contents()
    {
      FoundIsMember(Data[..], End, Max, e);
      var i := Data[e] + Max;
      r := i < End && Data[i] == e;
    }

    /** insert, of what is not there. */
    method Insert(e: nat)
      requires Valid() && e < Max && e !in Contents()
      modifies Data, `End
      ensures Valid() && Contents() == old(Contents()) + {e}
    {
      RoomForOne(Data[..], End, Max, e);
      ghost var data, end := Data[..], End;
      Data[End] := e;
      Data[e] := End - Max;
      End := End + 1;
      InsertedBacked(data, end, Max, e, Data[..]);
    }

    /** clear */
    method Clear()
      requires Valid()
      modifies `End
      ensures Valid() && Contents() == {} && Data == old(Data) && Data[..] == old(Data[..])
    {
      End := Max;
      assert Data[..][Max..End] == [];
    }

    /** resize */
    method Resize(maxSize: nat)
      modifies `Data, `End, `Max
      ensures Valid() && Contents() == {} && Max == maxSize && fresh(Data)
    {
      Data := new nat[2 * maxSize](i => 0);
      End, Max := maxSize, maxSize;
      assert Data[..][Max..End] == [];
    }
  }
}
