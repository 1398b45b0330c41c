// Small facts used throughout.
module Basics {
  function Min(a: nat, b: nat): nat { if a <= b then a else b }
  function Max(a: nat, b: nat): nat { if a >= b then a else b }

  lemma SwapLast<T>(x: multiset<T>, y: multiset<T>, z: multiset<T>)
    ensures x + y + z == x + z + y
  {}

  lemma CancelOne<T>(a: multiset<T>, b: multiset<T>, x: T)
    requires a + multiset{x} == b + multiset{x}
    ensures a == b
  {
    forall y ensures a[y] == b[y] { assert (a + multiset{x})[y] == (b + multiset{x})[y]; }
  }
}
