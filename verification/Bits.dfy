/** Single bits of a 32-bit register, and its unsigned value. Proofs elsewhere hide these definitions
    and use the lemmas. */
module Bits {
  type Index = n: int | 0 <= n < 32

  function At(n: Index): bv5 {
    n as bv5
  }

  predicate Test(w: bv32, k: bv5) {
    (w >> k) & 1 == 1
  }

  function Or(w: bv32, k: bv5): bv32 {
    w | ((1 as bv32) << k)
  }

  function AndNot(w: bv32, k: bv5): bv32 {
    w & !((1 as bv32) << k)
  }

  /** Bit `n` is set. */
  predicate Has(w: bv32, n: Index) {
    Test(w, At(n))
  }

  function Set(w: bv32, n: Index): bv32 {
    Or(w, At(n))
  }

  function Clear(w: bv32, n: Index): bv32 {
    AndNot(w, At(n))
  }

  function Put(w: bv32, n: Index, on: bool): bv32 {
    if on then Set(w, n) else Clear(w, n)
  }

  lemma AtBack(n: Index)
    ensures At(n) as int == n
  {
  }

  lemma AtApart(n: Index, m: Index)
    requires n != m
    ensures At(n) != At(m)
  {
    hide At;
    AtBack(n);
    AtBack(m);
  }

  lemma TestOr(w: bv32, k: bv5)
    ensures Test(Or(w, k), k)
  {
  }

  lemma TestAndNot(w: bv32, k: bv5)
    ensures !Test(AndNot(w, k), k)
  {
  }

  lemma TestOrOther(w: bv32, k: bv5, l: bv5)
    requires k != l
    ensures Test(Or(w, k), l) <==> Test(w, l)
  {
  }

  lemma TestAndNotOther(w: bv32, k: bv5, l: bv5)
    requires k != l
    ensures Test(AndNot(w, k), l) <==> Test(w, l)
  {
  }

  /** Setting or clearing a bit changes that bit and no other. */
  lemma HasPut(w: bv32, n: Index, on: bool, m: Index)
    ensures Has(Put(w, n, on), m) <==> if m == n then on else Has(w, m)
  {
    hide At, Test, Or, AndNot;
    if m == n {
      TestOr(w, At(n));
      TestAndNot(w, At(n));
    } else {
      AtApart(n, m);
      TestOrOther(w, At(n), At(m));
      TestAndNotOther(w, At(n), At(m));
    }
  }

  lemma HasSet(w: bv32, n: Index, m: Index)
    ensures Has(Set(w, n), m) <==> m == n || Has(w, m)
  {
    hide Has, Set;
    HasPut(w, n, true, m);
  }

  lemma HasClear(w: bv32, n: Index, m: Index)
    ensures Has(Clear(w, n), m) <==> m != n && Has(w, m)
  {
    hide Has, Clear;
    HasPut(w, n, false, m);
  }

  lemma TestZero(k: bv5)
    ensures !Test(0, k)
  {
  }

  lemma HasZero(n: Index)
    ensures !Has(0, n)
  {
    TestZero(At(n));
  }

  /** The unsigned value of a register. */
  function Num(w: bv32): nat {
    w as nat
  }
}
