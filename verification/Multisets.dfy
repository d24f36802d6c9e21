/** Bookkeeping with multisets, element by element. */
module Multisets {
  /** What is exchanged in one part is exchanged in the whole. */
  lemma {:induction false} ExchangeBeside<T>(
        a: multiset<T>, x: multiset<T>, b: multiset<T>, y: multiset<T>, c: multiset<T>)
    requires a + x == b + y
    ensures (a + c) + x == (b + c) + y
  {
    forall e ensures ((a + c) + x)[e] == ((b + c) + y)[e] {
      assert (a + x)[e] == (b + y)[e];
    }
  }

  /** What moves from one side to the other, besides what is new, cancels in their sum. */
  lemma {:induction false} Cancelled<T>(
        a: multiset<T>, x: multiset<T>, b: multiset<T>, y: multiset<T>, p: multiset<T>, q: multiset<T>, f: multiset<T>)
    requires a + x == b + y && q + y == p + f + x
    ensures q + a == p + b + f
  {
    forall e ensures (q + a)[e] == (p + b + f)[e] {
      assert (a + x)[e] == (b + y)[e] && (q + y)[e] == (p + f + x)[e];
    }
  }
}
