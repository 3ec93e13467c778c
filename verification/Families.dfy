/**
 Lists that share one store (include/vectorfamily.h) behave like lists of their
 own (include/simplevectorfamily.h): an operation on one of any number of lists
 does to it what it would do to a plain list, and nothing to the others.
 */
module Families {
  import opened Basics
  import opened Graphs

  datatype Which = Zero | One | Many

  /** No element, the element itself, or the place of the elements in the store. */
  datatype List = List(what: nat, which: Which)

  /** The list that a family of plain lists would have. */
  function Elements(store: seq<seq<nat>>, l: List): seq<nat>
    requires l.which.Many? ==> l.what < |store|
  {
    match l.which
    case Zero => []
    case One => [l.what]
    case Many => store[l.what]
  }

  /** Long lists are in the store, each in a place of its own. */
  ghost predicate Separate(store: seq<seq<nat>>, lists: seq<List>) {
    && (forall k :: 0 <= k < |lists| && lists[k].which.Many? ==> lists[k].what < |store| && |store[lists[k].what]| > 1)
    && (forall j, k :: 0 <= j < k < |lists| && lists[j].which.Many? && lists[k].which.Many? ==> lists[j].what != lists[k].what)
  }

  /** The k-th list has become es, the others are what they were. */
  ghost predicate Became(store: seq<seq<nat>>, lists: seq<List>, store': seq<seq<nat>>, k: nat, l': List, es: seq<nat>)
    requires Separate(store, lists) && k < |lists|
  {
    var lists' := lists[k := l'];
    && Separate(store', lists')
    && (forall j :: 0 <= j < |lists| ==>
          Elements(store', lists'[j]) == if j == k then es else Elements(store, lists[j]))
  }

  /** Where e is first in s is given up. */
  function Removed(s: seq<nat>, e: nat): seq<nat>
    requires e in s
  {
    Without(s, IndexOf(s, e))
  }

  /** A list of at most one element needs no store. */
  lemma BecameShort(store: seq<seq<nat>>, lists: seq<List>, k: nat, l': List)
    requires k < |lists| && Separate(store, lists) && !l'.which.Many?
    ensures Became(store, lists, store, k, l', Elements(store, l'))
  {
  }

  /** A list moves into the store. */
  lemma BecameLong(store: seq<seq<nat>>, lists: seq<List>, k: nat, es: seq<nat>)
    requires k < |lists| && Separate(store, lists) && |es| > 1
    ensures Became(store, lists, store + [es], k, List(|store|, Many), es)
  {
  }

  /** A list changes within the store. */
  lemma BecameOther(store: seq<seq<nat>>, lists: seq<List>, k: nat, es: seq<nat>)
    requires k < |lists| && Separate(store, lists) && lists[k].which.Many? && |es| > 1
    ensures Became(store, lists, store[lists[k].what := es], k, lists[k], es)
  {
  }

  /** A list leaves the store. */
  lemma BecameShorter(store: seq<seq<nat>>, lists: seq<List>, k: nat, l': List)
    requires k < |lists| && Separate(store, lists) && lists[k].which.Many? && !l'.which.Many?
    ensures Became(store, lists, store[lists[k].what := []], k, l', Elements(store, l'))
  {
  }

  lemma SeparateAt(store: seq<seq<nat>>, lists: seq<List>, k: nat)
    requires k < |lists| && Separate(store, lists)
    ensures lists[k].which.Many? ==> lists[k].what < |store| && |store[lists[k].what]| > 1
  {
  }

  lemma ShortInserted(x: nat, i: nat, e: nat)
    ensures Inserted([], i, e) == [e]
    ensures Inserted([x], i, e) == if i == 0 then [e, x] else [x, e]
  {
  }

  lemma InsertedZero(store: seq<seq<nat>>, lists: seq<List>, k: nat, i: nat, e: nat)
    requires k < |lists| && Separate(store, lists) && lists[k].which.Zero?
    ensures Became(store, lists, store, k, List(e, One), Inserted(Elements(store, lists[k]), i, e))
  {
    ShortInserted(0, i, e);
    BecameShort(store, lists, k, List(e, One));
  }

  lemma InsertedOne(store: seq<seq<nat>>, lists: seq<List>, k: nat, i: nat, e: nat)
    requires k < |lists| && Separate(store, lists) && lists[k].which.One?
    ensures var x := lists[k].what;
            Became(store, lists, store + [if i == 0 then [e, x] else [x, e]], k, List(|store|, Many),
                   Inserted(Elements(store, lists[k]), i, e))
  {
    var x := lists[k].what;
    ShortInserted(x, i, e);
    BecameLong(store, lists, k, if i == 0 then [e, x] else [x, e]);
  }

  lemma InsertedMany(store: seq<seq<nat>>, lists: seq<List>, k: nat, i: nat, e: nat)
    requires k < |lists| && Separate(store, lists) && lists[k].which.Many?
    ensures lists[k].what < |store|
    ensures var es := Inserted(Elements(store, lists[k]), i, e);
            es == Inserted(store[lists[k].what], i, e)
            && Became(store, lists, store[lists[k].what := es], k, lists[k], es)
  {
    BecameOther(store, lists, k, Inserted(Elements(store, lists[k]), i, e));
  }

  class VectorFamily {
    var Store: seq<seq<nat>>

    constructor ()
      ensures Store == []
    {
      Store := [];
    }

    /** size */
    function Size(l: List): (n: nat)
      requires l.which.Many? ==> l.what < |Store|
      reads this
      ensures n == |Elements(Store, l)|
    {
      match l.which
      case Zero => 0
      case One => 1
      case Many => |Store[l.what]|
    }

    /** add, to the k-th of the lists that there are. */
    method Add(l: List, e: nat, ghost lists: seq<List>, ghost k: nat) returns (l': List)
      requires k < |lists| && l == lists[k] && Separate(Store, lists)
      modifies this
      ensures Became(old(Store), lists, Store, k, l', old(Elements(Store, l)) + [e])
    {
      SeparateAt(Store, lists, k);
      hide Became, Separate;
      match l.which {
        case Zero =>
          l' := List(e, One);
          BecameShort(Store, lists, k, l');
        case One =>
          BecameLong(Store, lists, k, [l.what, e]);
          Store := Store + [[l.what, e]];
          l' := List(|Store| - 1, Many);
        case Many =>
          BecameOther(Store, lists, k, Store[l.what] + [e]);
          Store := Store[l.what := Store[l.what] + [e]];
          l' := l;
      }
    }

    /** insert, at place i or at the end if there is none such. */
    method Insert(l: List, i: nat, e: nat, ghost lists: seq<List>, ghost k: nat) returns (l': List)
      requires k < |lists| && l == lists[k] && Separate(Store, lists)
      modifies this
      ensures Became(old(Store), lists, Store, k, l', Inserted(old(Elements(Store, l)), i, e))
    {
      hide *;
      SeparateAt(Store, lists, k);
      match l.which {
        case Zero =>
          InsertedZero(Store, lists, k, i, e);
          l' := List(e, One);
        case One =>
          InsertedOne(Store, lists, k, i, e);
          Store := Store + [if i == 0 then [e, l.what] else [l.what, e]];
          l' := List(|Store| - 1, Many);
        case Many =>
          InsertedMany(Store, lists, k, i, e);
          Store := Store[l.what := Inserted(Store[l.what], i, e)];
          l' := l;
      }
    }

    /** remove; not ok where it throws, the element not being in the list. */
    method Remove(l: List, e: nat, ghost lists: seq<List>, ghost k: nat) returns (l': List, ok: bool)
      requires k < |lists| && l == lists[k] && Separate(Store, lists)
      modifies this
      ensures ok <==> e in old(Elements(Store, l))
      ensures ok ==> Became(old(Store), lists, Store, k, l', Removed(old(Elements(Store, l)), e))
      ensures !ok ==> Store == old(Store) && l' == l
    {
      SeparateAt(Store, lists, k);
      ghost var es := Elements(Store, l);
      hide Became, Separate, IndexOf, Without;
      l', ok := l, false;
      match l.which {
        case Zero =>
        case One =>
          if l.what == e {
            ok, l' := true, l.(which := Zero);
            BecameShort(Store, lists, k, l');
            assert Removed(es, e) == [];
          }
        case Many =>
          var edlist := Store[l.what];
          var i := IndexOf(edlist, e);
          if i < |edlist| {
            ok := true;
            edlist := Without(edlist, i);
            if |edlist| == 1 {
              l' := List(edlist[0], One);
              BecameShorter(Store, lists, k, l');
              assert edlist == [edlist[0]];
              edlist := [];
            } else {
              BecameOther(Store, lists, k, edlist);
            }
            Store := Store[l.what := edlist];
          }
      }
    }

    /** clear */
    method Clear(l: List, ghost lists: seq<List>, ghost k: nat) returns (l': List)
      requires k < |lists| && l == lists[k] && Separate(Store, lists)
      modifies this
      ensures Became(old(Store), lists, Store, k, l', [])
    {
      l' := l;
      if l.which.Many? {
        Store := Store[l.what := []];
      }
      if !l.which.Zero? {
        l' := l.(which := Zero);
      }
    }

    /** at; None where it throws. An index past the end of a list of one is not noticed. */
    function At(l: List, i: nat): (r: Option<nat>)
      requires l.which.Many? ==> l.what < |Store| && i < |Store[l.what]|
      reads this
      ensures i < |Elements(Store, l)| ==> r == Some(Elements(Store, l)[i])
    {
      match l.which
      case Zero => None
      case One => Some(l.what)
      case Many => Some(Store[l.what][i])
    }

    /** find, as a distance from the beginning: the length of the list if there is none. */
    function Find(l: List, e: nat): (i: nat)
      requires l.which.Many? ==> l.what < |Store|
      reads this
      ensures i == IndexOf(Elements(Store, l), e)
    {
      match l.which
      case Zero => 0
      case One => if l.what == e then 0 else 1
      case Many => IndexOf(Store[l.what], e)
    }

    /** Assignment through the iterator that find returned. */
    method Assign(l: List, i: nat, e: nat, ghost lists: seq<List>, ghost k: nat) returns (l': List)
      requires k < |lists| && l == lists[k] && Separate(Store, lists) && i < Size(l)
      modifies this
      ensures Became(old(Store), lists, Store, k, l', Put(old(Elements(Store, l)), i, e))
    {
      l' := l;
      if l.which.One? {
        l' := l.(what := e);
      } else if l.which.Many? {
        Store := Store[l.what := Put(Store[l.what], i, e)];
      }
    }
  }
}
