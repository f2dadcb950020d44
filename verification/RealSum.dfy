/** Finite sums of reals, the arithmetic under every matrix product. */
module RealSum {

  function Sum(n: nat, f: int -> real): real {
    if n == 0 then 0.0 else Sum(n - 1, f) + f(n - 1)
  }

  lemma {:induction false} SumExt(n: nat, f: int -> real, g: int -> real)
    requires forall k :: 0 <= k < n ==> f(k) == g(k)
    ensures Sum(n, f) == Sum(n, g)
  {
    if n == 0 {
    } else {
      SumExt(n - 1, f, g);
    }
  }

  lemma {:induction false} SumAdd(n: nat, f: int -> real, g: int -> real)
    ensures Sum(n, k => f(k) + g(k)) == Sum(n, f) + Sum(n, g)
  {
    if n == 0 {
    } else {
      SumAdd(n - 1, f, g);
    }
  }

  lemma {:induction false} SumScale(n: nat, c: real, f: int -> real)
    ensures Sum(n, k => c * f(k)) == c * Sum(n, f)
  {
    if n == 0 {
    } else {
      SumScale(n - 1, c, f);
    }
  }

  lemma {:induction false} SumZero(n: nat, f: int -> real)
    requires forall k :: 0 <= k < n ==> f(k) == 0.0
    ensures Sum(n, f) == 0.0
  {
    if n == 0 {
    } else {
      SumZero(n - 1, f);
    }
  }

  /** Exchanging the order of a double sum. */
  lemma {:induction false} SumSwap(m: nat, n: nat, f: (int, int) -> real)
    ensures Sum(m, i => Sum(n, j => f(i, j))) == Sum(n, j => Sum(m, i => f(i, j)))
  {
    if m == 0 {
      SumZero(n, j => Sum(m, i => f(i, j)));
    } else {
      SumSwap(m - 1, n, f);
      var rest := j => Sum(m - 1, i => f(i, j));
      var last := j => f(m - 1, j);
      SumAdd(n, rest, last);
      SumExt(n, j => Sum(m, i => f(i, j)), j => rest(j) + last(j));
    }
  }

  /** A sum whose terms vanish outside the window [lo, lo + w) is the sum over the window. */
  lemma {:induction false} SumWindow(n: nat, lo: nat, w: nat, f: int -> real)
    requires lo + w <= n
    requires forall k :: 0 <= k < n && !(lo <= k < lo + w) ==> f(k) == 0.0
    ensures Sum(n, f) == Sum(w, k => f(lo + k))
  {
    if n == lo + w {
      if w == 0 {
        SumZero(n, f);
      } else {
        SumWindow(n - 1, lo, w - 1, f);
      }
    } else {
      SumWindow(n - 1, lo, w, f);
    }
  }
}
