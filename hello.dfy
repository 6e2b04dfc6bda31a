/** `fact` of the first Python extension: the product of `1..n + 1` as a big
    integer, built with `reduce(Mul::mul)` and `unwrap`. */
module Hello {
  import opened Wrappers
  import opened Ints

  /** The iterator `lo..hi`. */
  function Range(lo: nat, hi: nat): (r: seq<nat>)
    ensures |r| == if lo < hi then hi - lo else 0
    ensures forall i :: 0 <= i < |r| ==> r[i] == lo + i
    decreases hi - lo
  {
    if lo < hi then [lo] + Range(lo + 1, hi) else []
  }

  /** `fold(acc, Mul::mul)`, the loop inside `reduce`. */
  function FoldMul(acc: nat, xs: seq<nat>): nat
    decreases |xs|
  {
    if |xs| == 0 then acc else FoldMul(acc * xs[0], xs[1..])
  }

  /** `reduce(Mul::mul)`: `None` for an empty iterator. */
  function ReduceMul(xs: seq<nat>): Option<nat> {
    if |xs| == 0 then None else Some(FoldMul(xs[0], xs[1..]))
  }

  /** `n + 1` overflows for `u32::MAX`: a debug build panics there, and a
      release build wraps to 0, leaving an empty range whose `unwrap`
      panics, so either way `fact(u32::MAX)` panics. */
  function Fact(n: u32): Run<nat> {
    if n == 0xFFFF_FFFF then Abort("attempt to add with overflow")
    else
      match ReduceMul(Range(1, n + 1))
      case None => Abort("called `Option::unwrap()` on a `None` value")
      case Some(p) => Done(p)
  }

  /** The reference definition. */
  function Factorial(n: nat): nat {
    if n == 0 then 1 else n * Factorial(n - 1)
  }

  /** The product of `lo..hi`, peeled from the top. */
  function Prod(lo: nat, hi: nat): nat
    decreases hi - lo
  {
    if lo < hi then Prod(lo, hi - 1) * (hi - 1) else 1
  }

  lemma {:induction false} FoldMulProd(acc: nat, lo: nat, hi: nat)
    requires lo <= hi
    ensures FoldMul(acc, Range(lo, hi)) == acc * Prod(lo, hi)
    decreases hi - lo
  {
    if lo < hi {
      var r := Range(lo, hi);
      assert r[0] == lo && r[1..] == Range(lo + 1, hi);
      assert FoldMul(acc, r) == FoldMul(acc * lo, Range(lo + 1, hi));
      FoldMulProd(acc * lo, lo + 1, hi);
      ProdFront(lo, hi);
      MulAssoc(acc, lo, Prod(lo + 1, hi));
    }
  }

  lemma {:induction false} ProdFront(lo: nat, hi: nat)
    requires lo < hi
    ensures Prod(lo, hi) == lo * Prod(lo + 1, hi)
    decreases hi - lo
  {
    if lo + 1 < hi {
      ProdFront(lo, hi - 1);
      var p := Prod(lo + 1, hi - 1);
      assert Prod(lo, hi) == (lo * p) * (hi - 1);
      MulAssoc(lo, p, hi - 1);
      assert Prod(lo + 1, hi) == p * (hi - 1);
    }
  }

  lemma MulAssoc(a: nat, b: nat, c: nat)
    ensures (a * b) * c == a * (b * c)
  {
  }

  lemma {:induction false} ProdFactorial(n: nat)
    ensures Prod(1, n + 1) == Factorial(n)
  {
    if n > 0 {
      ProdFactorial(n - 1);
    }
  }

  /** `fact(n)` is `n!` for every `n` it does not panic on, which are
      1 up to `u32::MAX - 1`. */
  lemma FactIsFactorial(n: u32)
    ensures Fact(n).Done? <==> 1 <= n < 0xFFFF_FFFF
    ensures Fact(n).Done? ==> Fact(n).value == Factorial(n)
  {
    if 1 <= n < 0xFFFF_FFFF {
      var r := Range(1, n + 1);
      assert r[0] == 1 && r[1..] == Range(2, n + 1);
      FoldMulProd(1, 2, n + 1);
      ProdFront(1, n + 1);
      ProdFactorial(n);
    }
  }

  /** The two laws: `fact(1) == 1` and `fact(n+1) == (n+1) * fact(n)`. */
  lemma FactRecurrence(n: u32)
    requires 1 <= n && n + 1 < 0xFFFF_FFFF
    ensures Fact(1) == Done(1)
    ensures Fact(n + 1).Done? && Fact(n).Done? && Fact(n + 1).value == (n + 1) * Fact(n).value
  {
    FactIsFactorial(1);
    FactIsFactorial(n);
    FactIsFactorial(n + 1);
  }

  /** `fact(0)` and `fact(u32::MAX)` panic. */
  lemma FactPanics()
    ensures Fact(0).Abort? && Fact(0xFFFF_FFFF).Abort?
  {
  }
}
