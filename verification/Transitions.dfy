/** TransitionFactory::getSmallest (include/transitionfactory.h:69-125). */
module Transitions {
  import opened Basics
  import opened Automata

  datatype Shape = NoByte | OneByte | Contiguous | TwoBytes

  /** The bytes of bset below n, as the classifier sees them. */
  ghost predicate Classified(bset: set<Byte>, n: nat, shape: Shape, low: nat, high: nat) {
    match shape
    case NoByte => forall x: Byte :: x in bset ==> n <= x
    case OneByte => low == high && low < n && low < 256 && low in bset && forall x: Byte :: x in bset && x < n ==> x == low
    case Contiguous => low < high && high < n && high < 256 && forall x: Byte :: x < n ==> (x in bset <==> low <= x <= high)
    case TwoBytes => low + 1 < high && high < n && high < 256 && forall x: Byte :: x < n ==> (x in bset <==> x == low || x == high)
  }

  ghost predicate Covers(t: Transition, bset: set<Byte>) {
    forall x: Byte :: t.Permits(x) <==> x in bset
  }

  /** The transition permits exactly the bytes of the set, and is a bit set only when nothing smaller will do. */
  method GetSmallest(bset: set<Byte>) returns (t: Transition)
    ensures Covers(t, bset) && !t.NoTransition?
    ensures t.ByteSetState? && bset != {} ==>
              forall t': Transition :: Covers(t', bset) ==> t'.ByteSetState?
  {
    var shape := NoByte;
    var low: nat, high: nat := 0, 0;
    for i := 0 to 256
      invariant Classified(bset, i, shape, low, high)
    {
      if i in bset {
        match shape
        case NoByte =>
          low, high, shape := i, i, OneByte;
        case OneByte =>
          if high + 1 != i {
            high, shape := i, TwoBytes;
          } else {
            high, shape := i, Contiguous;
          }
        case Contiguous =>
          if high + 1 != i {
            Neither(bset, low, low + 1, i, high + 1);
            return ByteSetState(bset);
          }
          high := i;
        case TwoBytes =>
          Neither(bset, low, high, i, low + 1);
          return ByteSetState(bset);
      }
    }
    match shape
    case NoByte =>
      assert bset == {};
      return ByteSetState(bset);
    case OneByte => return ByteState(low);
    case Contiguous => return RangeState(low, high);
    case TwoBytes => return EitherState(low, high);
  }

  /** Three bytes with a gap between two of them are neither a range nor a pair. */
  lemma Neither(bset: set<Byte>, a: Byte, b: Byte, c: Byte, gap: Byte)
    requires a < b < c && a < gap < c && a in bset && b in bset && c in bset && gap !in bset
    ensures forall t': Transition :: Covers(t', bset) ==> t'.ByteSetState?
  {
    forall t': Transition | Covers(t', bset) ensures t'.ByteSetState? {
      assert t'.Permits(a) && t'.Permits(b) && t'.Permits(c) && !t'.Permits(gap);
    }
  }
}
