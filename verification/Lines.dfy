/** Straight lines, proportions and remainders: the little arithmetic the effect
    compiler rests on, with products kept behind names. */
module Lines {
  import opened Effects

  function Progress(t: nat, n: nat): real
    requires n > 0
  {
    t as real / n as real
  }

  lemma ProgressOrdered(a: nat, b: nat, n: nat)
    requires a <= b && 0 < n
    ensures 0.0 <= Progress(a, n) <= Progress(b, n)
    ensures b <= n ==> Progress(b, n) <= 1.0
  {
  }

  /** A straight line from `from` at progress 0 to `to` at progress 1. */
  function Line(from: real, to: real, p: real): real {
    from + Part(to - from, p)
  }

  function Part(x: real, p: real): real {
    x * p
  }

  lemma PartOrdered(x: real, p: real, q: real)
    requires p <= q
    ensures 0.0 <= x ==> Part(x, p) <= Part(x, q)
    ensures x <= 0.0 ==> Part(x, q) <= Part(x, p)
    ensures Part(x, 0.0) == 0.0 && Part(x, 1.0) == x
  {
    assert Part(x, q) - Part(x, p) == x * (q - p);
  }

  lemma LineOrdered(from: real, to: real, p: real, q: real)
    requires 0.0 <= p <= q <= 1.0
    ensures from <= to ==> from <= Line(from, to, p) <= Line(from, to, q) <= to
    ensures to <= from ==> to <= Line(from, to, q) <= Line(from, to, p) <= from
  {
    PartOrdered(to - from, 0.0, p);
    PartOrdered(to - from, p, q);
    PartOrdered(to - from, q, 1.0);
  }

  lemma WholeProgress(n: nat)
    requires n > 0
    ensures Progress(n, n) == 1.0
  {
  }

  lemma ProgressComplement(t: nat, n: nat)
    requires t <= n && 0 < n
    ensures Progress(n - t, n) == 1.0 - Progress(t, n)
  {
    WholeProgress(n);
    assert Progress(n - t, n) == n as real / n as real - t as real / n as real;
  }

  lemma ProgressHalf(t: nat, n: nat)
    requires 0 < n
    ensures Progress(t, n) < 0.5 <==> 2 * t < n
    ensures Progress(t, n) == 0.5 <==> 2 * t == n
  {
    PartStrict(Progress(t, n), 0.5, n as real);
    PartStrict(0.5, Progress(t, n), n as real);
    assert Part(Progress(t, n), n as real) == t as real;
  }

  lemma PartPositive(x: real, p: real)
    requires 0.0 < x && 0.0 < p
    ensures 0.0 < Part(x, p)
  {
  }

  lemma PartStrict(x: real, y: real, p: real)
    requires 0.0 < p
    ensures x < y ==> Part(x, p) < Part(y, p)
  {
    if x < y {
      PartPositive(y - x, p);
      assert Part(y - x, p) == Part(y, p) - Part(x, p);
    }
  }

  lemma LineStrict(from: real, to: real, p: real, q: real)
    requires p < q
    ensures from < to <==> Line(from, to, p) < Line(from, to, q)
    ensures to < from <==> Line(from, to, q) < Line(from, to, p)
  {
    assert Line(from, to, q) - Line(from, to, p) == Part(q - p, to - from);
    if from < to { PartPositive(q - p, to - from); }
    if to < from {
      PartPositive(q - p, from - to);
      assert Part(q - p, to - from) == -Part(q - p, from - to);
    }
    if from == to { assert Part(q - p, 0.0) == 0.0; }
  }

  lemma ProgressStrict(a: nat, b: nat, n: nat)
    requires a < b && 0 < n
    ensures Progress(a, n) < Progress(b, n)
  {
    PartStrict(Progress(b, n), Progress(a, n), n as real);
    assert Part(Progress(a, n), n as real) == a as real && Part(Progress(b, n), n as real) == b as real;
  }

  lemma MultipleApart(p: int, k: int)
    requires p > 0
    ensures k >= 1 ==> p * k >= p
    ensures k <= -1 ==> p * k <= -p
  {
  }

  lemma RemainderUnique(a: int, p: int, q: int, r: int)
    requires 0 <= r < p && a == p * q + r
    ensures a % p == r
  {
    assert p * (q - a / p) == a % p - r;
    MultipleApart(p, q - a / p);
  }

  lemma ClampOrdered(x: real, y: real)
    requires x <= y
    ensures Clamp(x) <= Clamp(y)
  {
  }

  lemma ClampMonotone(base: real, p: real, q: real)
    requires 0.0 <= base && p <= q
    ensures Clamp(Part(base, p)) <= Clamp(Part(base, q))
  {
    PartOrdered(base, p, q);
    ClampOrdered(Part(base, p), Part(base, q));
  }

  lemma ShiftByMultiple(t: nat, d: nat, p: nat)
    requires p > 0 && d % p == 0
    ensures (t + d) % p == t % p
  {
    RemainderUnique(t + d, p, t / p + d / p, t % p);
  }
}
