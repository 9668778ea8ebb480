/** The choice of a sub-reactor: next_reactor_.fetch_add(1) % thread_num_, on a 32-bit counter. */
module RoundRobin {
  const TWO31: int := 0x8000_0000

  /** Two's complement wrap of the atomic int: the one value of its range that differs from n by a
      multiple of 2^32. */
  function Wrap(n: int): (w: int)
    ensures -0x8000_0000 <= w < 0x8000_0000
    ensures (n - w) % 0x1_0000_0000 == 0
  {
    var m := n % 0x1_0000_0000;
    if m < 0x8000_0000 then m else m - 0x1_0000_0000
  }

  /** C++ remainder: truncated, so it takes the sign of the dividend. */
  function Remainder(a: int, b: int): int
    requires b > 0
  {
    if a >= 0 then a % b else -((-a) % b)
  }

  /** The quotient is the one rounded towards zero. */
  lemma RemainderTruncates(a: int, b: int) returns (q: int)
    requires b > 0
    ensures var r := Remainder(a, b);
            && a == q * b + r
            && -b < r < b
            && (a >= 0 ==> 0 <= r)
            && (a <= 0 ==> r <= 0)
  {
    if a >= 0 {
      q := a / b;
      QuotientAndRest(a, b);
    } else {
      q := -((-a) / b);
      QuotientAndRest(-a, b);
      Opposite((-a) / b, b);
    }
  }

  lemma QuotientAndRest(n: nat, d: nat)
    requires d > 0
    ensures n == (n / d) * d + n % d && n % d < d
  {
  }

  lemma Opposite(q: int, d: int)
    ensures (-q) * d == -(q * d)
  {
  }

  /** The counter before the k-th accepted connection, counting from 0. */
  function CounterAt(k: nat): int {
    if k == 0 then 0 else Wrap(CounterAt(k - 1) + 1)
  }

  function IndexAt(k: nat, threads: nat): int
    requires threads > 0
  {
    Remainder(CounterAt(k), threads)
  }

  lemma WrapStep(n: int)
    ensures Wrap(Wrap(n) + 1) == Wrap(n + 1)
  {
  }

  lemma {:induction false} CounterWraps(k: nat)
    ensures CounterAt(k) == Wrap(k)
  {
    if k > 0 {
      CounterWraps(k - 1);
      WrapStep(k - 1);
    }
  }

  /** The chosen index is one of a sub-reactor exactly when the counter has not gone negative, or is a
      multiple of the number of threads. For the first 2^31 connections it is k mod threads. */
  lemma IndexInRange(k: nat, threads: nat)
    requires threads > 0
    ensures 0 <= IndexAt(k, threads) < threads <==> Wrap(k) >= 0 || (-Wrap(k)) % threads == 0
    ensures k < TWO31 ==> IndexAt(k, threads) == k % threads
  {
    CounterWraps(k);
  }

  /** Past 2^31 connections the index leaves the range, for every pool of more than one thread: no
      later than the second connection after the wrap. */
  lemma IndexLeavesRange(threads: nat)
    requires threads > 0
    ensures (forall k: nat :: 0 <= IndexAt(k, threads) < threads) <==> threads == 1
  {
    if threads == 1 {
      forall k: nat ensures 0 <= IndexAt(k, threads) < threads {
        UnitRemainder(CounterAt(k));
      }
    } else {
      LeavesAfterWrap(threads);
    }
  }

  /** One of the two connections after the first 2^31 gets an index out of range. */
  lemma LeavesAfterWrap(threads: nat)
    requires threads > 1
    ensures !(0 <= IndexAt(0x8000_0000, threads) < threads) || !(0 <= IndexAt(0x8000_0001, threads) < threads)
  {
    hide IndexAt, Remainder;
    IndexInRange(0x8000_0000, threads);
    IndexInRange(0x8000_0001, threads);
    assert Wrap(0x8000_0000) == -0x8000_0000 && Wrap(0x8000_0001) == -0x7fff_ffff;
    ConsecutiveMultiples(0x7fff_ffff, threads);
  }

  lemma UnitRemainder(a: int)
    ensures Remainder(a, 1) == 0
  {
  }

  lemma ConsecutiveMultiples(n: nat, d: nat)
    requires d > 1
    ensures n % d != 0 || (n + 1) % d != 0
  {
    NextQuotient(n, d);
  }

  lemma QuotientOf(q: nat, d: nat, r: nat)
    requires r < d
    ensures (q * d + r) / d == q && (q * d + r) % d == r
  {
    var n := q * d + r;
    var q', r' := n / d, n % d;
    assert n == q' * d + r';
    SmallMultiple(q' - q, d, r - r');
  }

  lemma MultipleGrows(k: int, d: int)
    requires d > 0
    ensures k >= 1 ==> k * d >= d
    ensures k <= -1 ==> k * d <= -d
  {
  }

  lemma SmallMultiple(k: int, d: int, e: int)
    requires d > 0 && k * d == e && -d < e < d
    ensures k == 0
  {
    MultipleGrows(k, d);
  }

  /** How many of the first n connections a sub-reactor gets. */
  function Load(reactor: nat, n: nat, threads: nat): nat
    requires threads > 0
  {
    if n == 0 then 0
    else Load(reactor, n - 1, threads) + if IndexAt(n - 1, threads) == reactor then 1 else 0
  }

  lemma {:induction false} LoadClosedForm(reactor: nat, n: nat, threads: nat)
    requires threads > 0 && reactor < threads && n <= TWO31
    ensures Load(reactor, n, threads) == n / threads + if reactor < n % threads then 1 else 0
  {
    if n > 0 {
      LoadClosedForm(reactor, n - 1, threads);
      IndexInRange(n - 1, threads);
      NextQuotient(n - 1, threads);
    } else {
      QuotientOf(0, threads, 0);
    }
  }

  lemma NextQuotient(n: nat, d: nat)
    requires d > 0
    ensures if n % d + 1 < d then (n + 1) / d == n / d && (n + 1) % d == n % d + 1
            else (n + 1) / d == n / d + 1 && (n + 1) % d == 0
  {
    var q, r := n / d, n % d;
    assert n == q * d + r;
    if r + 1 < d {
      QuotientOf(q, d, r + 1);
    } else {
      assert n + 1 == (q + 1) * d + 0;
      QuotientOf(q + 1, d, 0);
    }
  }

  /** For up to 2^31 connections the loads of any two sub-reactors differ by at most one. */
  lemma LoadsBalanced(a: nat, b: nat, n: nat, threads: nat)
    requires a < threads && b < threads && n <= TWO31
    ensures Load(a, n, threads) <= Load(b, n, threads) + 1
  {
    LoadClosedForm(a, n, threads);
    LoadClosedForm(b, n, threads);
  }
}
