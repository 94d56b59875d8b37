/** The Leibniz series summed by threads: each takes the terms whose index is its own offset modulo the
    number of threads. Over the reals. */
module Series {

  // 1/(4i+1) - 1/(4i+3)
  function Term(i: nat): real {
    1.0 / (i as real * 4.0 + 1.0) - 1.0 / (i as real * 4.0 + 3.0)
  }

  // The sum in order, of the first n terms.
  function PartialSum(n: nat): real {
    if n == 0 then 0.0 else PartialSum(n - 1) + Term(n - 1)
  }

  // The terms below n whose index is o modulo stride.
  function StrideSum(o: nat, stride: nat, n: nat): real
    requires stride > 0
  {
    if n == 0 then 0.0
    else StrideSum(o, stride, n - 1) + if (n - 1) % stride == o then Term(n - 1) else 0.0
  }

  // All threads with offset below k together.
  function AllThreads(k: nat, stride: nat, n: nat): real
    requires stride > 0
  {
    if k == 0 then 0.0 else AllThreads(k - 1, stride, n) + StrideSum(k - 1, stride, n)
  }

  // ----- the partition of the indices

  lemma QuotientUnique(a: int, stride: int, q: int, r: int)
    requires stride > 0 && a == q * stride + r && 0 <= r < stride
    ensures a % stride == r && a / stride == q
  {
    var p, m := a / stride, a % stride;
    assert a == p * stride + m && 0 <= m < stride;
    MultipleBelow(p - q, stride, r - m);
  }

  lemma MultipleBelow(d: int, stride: int, e: int)
    requires d * stride == e && -stride < e < stride
    ensures d == 0
  {
  }

  lemma NextSameResidue(i: nat, stride: nat, d: nat)
    requires stride > 0 && d <= stride
    ensures (i + d) % stride == i % stride <==> d == 0 || d == stride
  {
    var q, r := i / stride, i % stride;
    assert i == q * stride + r;
    if r + d < stride {
      QuotientUnique(i + d, stride, q, r + d);
    } else {
      assert (q + 1) * stride == q * stride + stride;
      QuotientUnique(i + d, stride, q + 1, r + d - stride);
    }
  }

  lemma {:induction false} NoneBetween(o: nat, stride: nat, a: nat, b: nat)
    requires stride > 0 && a <= b
    requires forall j :: a <= j < b ==> j % stride != o
    ensures StrideSum(o, stride, b) == StrideSum(o, stride, a)
  {
    if a == b {
    } else {
      NoneBetween(o, stride, a, b - 1);
    }
  }

  /** One step of the strided loop moves past exactly one term of its own. */
  lemma StrideStep(o: nat, stride: nat, i: nat, n: nat)
    requires stride > 0 && i % stride == o && i < n <= i + stride
    ensures StrideSum(o, stride, n) == StrideSum(o, stride, i) + Term(i)
    ensures (i + stride) % stride == o
  {
    NextSameResidue(i, stride, stride);
    forall j | i + 1 <= j < n ensures j % stride != o {
      NextSameResidue(i, stride, j - i);
    }
    NoneBetween(o, stride, i + 1, n);
  }

  lemma StrideStart(o: nat, stride: nat, n: nat)
    requires o < stride && n <= o
    ensures StrideSum(o, stride, n) == 0.0 && o % stride == o
  {
    QuotientUnique(o, stride, 0, o);
    forall j | 0 <= j < n ensures j % stride != o {
      QuotientUnique(j, stride, 0, j);
    }
    NoneBetween(o, stride, 0, n);
  }

  lemma {:induction false} OneMoreTerm(k: nat, stride: nat, n: nat)
    requires stride > 0
    ensures AllThreads(k, stride, n + 1) == AllThreads(k, stride, n) + if n % stride < k then Term(n) else 0.0
  {
    if k == 0 {
    } else {
      OneMoreTerm(k - 1, stride, n);
    }
  }

  lemma {:induction false} NoTerms(k: nat, stride: nat)
    requires stride > 0
    ensures AllThreads(k, stride, 0) == 0.0
  {
    if k == 0 {
    } else {
      NoTerms(k - 1, stride);
    }
  }

  /** However many threads share the terms, together they sum the series. */
  lemma {:induction false} StridesPartition(stride: nat, n: nat)
    requires stride > 0
    ensures AllThreads(stride, stride, n) == PartialSum(n)
  {
    if n == 0 {
      NoTerms(stride, stride);
    } else {
      StridesPartition(stride, n - 1);
      OneMoreTerm(stride, stride, n - 1);
    }
  }

  // ----- the program

  /** One thread's loop. */
  method ExecuteThread(offset: nat, threads: nat, iterations: nat) returns (pi: real)
    requires offset < threads
    ensures pi == StrideSum(offset, threads, iterations)
  {
    pi := 0.0;
    var i := offset;
    StrideStart(offset, threads, if offset < iterations then offset else iterations);
    while i < iterations
      invariant i % threads == offset
      invariant pi == StrideSum(offset, threads, if i < iterations then i else iterations)
      decreases iterations - i
    {
      StrideStep(offset, threads, i, if i + threads < iterations then i + threads else iterations);
      pi := pi + 1.0 / (i as real * 4.0 + 1.0);
      pi := pi - 1.0 / (i as real * 4.0 + 3.0);
      i := i + threads;
    }
  }

  /** Starting all threads and adding up their results; the threads share nothing but the array. */
  method SumThreads(threads: nat, iterations: nat) returns (result: real)
    requires threads > 0
    ensures result == 4.0 * PartialSum(iterations)
  {
    var partial := new real[threads];
    for i := 0 to threads
      invariant forall k :: 0 <= k < i ==> partial[k] == StrideSum(k, threads, iterations)
    {
      partial[i] := ExecuteThread(i, threads, iterations);
    }
    result := 0.0;
    for i := 0 to threads
      invariant result == AllThreads(i, threads, iterations)
    {
      result := result + partial[i];
    }
    StridesPartition(threads, iterations);
    result := result * 4.0;
  }

  // ----- how far a partial sum is from any later one

  lemma ReciprocalsDecrease(a: real, b: real)
    requires 0.0 < a < b
    ensures 0.0 < 1.0 / b < 1.0 / a
  {
    var x, y := 1.0 / a, 1.0 / b;
    assert x * a == 1.0 && y * b == 1.0;
    if y >= x {
      assert y * b >= x * b;
      assert x * b > x * a;
    }
  }

  lemma TermBounds(i: nat)
    ensures 0.0 < Term(i) < 1.0 / (i as real * 4.0 + 1.0) - 1.0 / ((i + 1) as real * 4.0 + 1.0)
  {
    ReciprocalsDecrease(i as real * 4.0 + 1.0, i as real * 4.0 + 3.0);
    ReciprocalsDecrease(i as real * 4.0 + 3.0, (i + 1) as real * 4.0 + 1.0);
  }

  /** Later partial sums are larger, by less than 1/(4n+1). */
  lemma {:induction false} TailBound(n: nat, m: nat)
    requires n < m
    ensures 0.0 < PartialSum(m) - PartialSum(n) < 1.0 / (n as real * 4.0 + 1.0) - 1.0 / (m as real * 4.0 + 1.0)
    ensures PartialSum(m) - PartialSum(n) < 1.0 / (n as real * 4.0 + 1.0)
  {
    TermBounds(m - 1);
    if n == m - 1 {
    } else {
      TailBound(n, m - 1);
    }
    ReciprocalsDecrease(m as real * 4.0 + 1.0, m as real * 4.0 + 2.0);
  }

  lemma TermAsProduct(i: nat)
    ensures Term(i) == 2.0 / ((i as real * 4.0 + 1.0) * (i as real * 4.0 + 3.0))
  {
    var a, b := i as real * 4.0 + 1.0, i as real * 4.0 + 3.0;
    var x, y := 1.0 / a, 1.0 / b;
    assert x * a == 1.0 && y * b == 1.0;
    assert (x - y) * (a * b) == (x * a) * b - (y * b) * a;
    assert a * b > 0.0;
  }

  lemma HalvesDecrease(p: real, q: real)
    requires 0.0 < p < q
    ensures 2.0 / q < 2.0 / p
  {
    ReciprocalsDecrease(p, q);
    assert 2.0 / q == 2.0 * (1.0 / q) && 2.0 / p == 2.0 * (1.0 / p);
  }

  lemma ProductsGrow(a: real, b: real, c: real, d: real)
    requires 0.0 < c < a && 0.0 < d < b
    ensures 0.0 < c * d < a * b
  {
    assert c * d < c * b;
    assert c * b < a * b;
  }

  lemma TermStep(i: nat)
    ensures Term(i + 1) < Term(i)
  {
    var a, b := (i + 1) as real * 4.0 + 1.0, (i + 1) as real * 4.0 + 3.0;
    var c, d := i as real * 4.0 + 1.0, i as real * 4.0 + 3.0;
    TermAsProduct(i);
    TermAsProduct(i + 1);
    ProductsGrow(a, b, c, d);
    HalvesDecrease(c * d, a * b);
  }

  lemma {:induction false} TermsDecrease(i: nat, j: nat)
    requires i < j
    ensures Term(j) < Term(i)
  {
    TermStep(j - 1);
    if i == j - 1 {
    } else {
      TermsDecrease(i, j - 1);
    }
  }
}
