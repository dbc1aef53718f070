/** Sums over sequences and over windows of integer functions, and residues modulo a variable modulus. */
module CyclicSums {

  function Sum(s: seq<int>): int {
    if s == [] then 0 else Sum(s[..|s| - 1]) + s[|s| - 1]
  }

  function SumOf(f: int -> int, lo: int, n: nat): int {
    if n == 0 then 0 else SumOf(f, lo, n - 1) + f(lo + n - 1)
  }

  lemma {:induction false} SumIsSumOf(s: seq<int>, f: int -> int)
    requires forall i :: 0 <= i < |s| ==> s[i] == f(i)
    ensures Sum(s) == SumOf(f, 0, |s|)
    decreases |s|
  {
    if s == [] {
    } else {
      SumIsSumOf(s[..|s| - 1], f);
    }
  }

  lemma {:induction false} SumPointwise(f: int -> int, lo: int, g: int -> int, n: nat)
    requires forall t :: 0 <= t < n ==> f(lo + t) == g(t)
    ensures SumOf(f, lo, n) == SumOf(g, 0, n)
  {
    if n == 0 {
    } else {
      SumPointwise(f, lo, g, n - 1);
      assert f(lo + n - 1) == g(n - 1);
    }
  }

  lemma {:induction false} SumFront(f: int -> int, lo: int, n: nat)
    ensures SumOf(f, lo, n + 1) == f(lo) + SumOf(f, lo + 1, n)
  {
    if n == 0 {
    } else {
      SumFront(f, lo, n - 1);
    }
  }

  ghost predicate Periodic(f: int -> int, w: nat) { forall x :: f(x + w) == f(x) }

  /** Every window as long as the period has the same sum. */
  lemma {:induction false} WindowSum(f: int -> int, w: nat, lo: int)
    requires Periodic(f, w)
    ensures SumOf(f, lo, w) == SumOf(f, 0, w)
    decreases if lo < 0 then -lo else lo
  {
    if lo > 0 {
      WindowSum(f, w, lo - 1);
      SumFront(f, lo - 1, w);
      assert f(lo - 1 + w) == f(lo - 1);
    } else if lo < 0 {
      WindowSum(f, w, lo + 1);
      SumFront(f, lo, w);
      assert f(lo + w) == f(lo);
    }
  }

  /** A sequence read off one period of f, summed over any other window of f. */
  lemma CyclicSum(s: seq<int>, f: int -> int, lo: int, g: int -> int)
    requires Periodic(f, |s|)
    requires forall i :: 0 <= i < |s| ==> s[i] == f(i)
    requires forall t :: 0 <= t < |s| ==> f(lo + t) == g(t)
    ensures Sum(s) == SumOf(g, 0, |s|)
  {
    SumIsSumOf(s, f);
    WindowSum(f, |s|, lo);
    SumPointwise(f, lo, g, |s|);
  }

  lemma {:induction false} SingleTerm(s: seq<int>, k: int, x: int)
    requires forall i :: 0 <= i < |s| ==> s[i] == if i == k then x else 0
    ensures Sum(s) == if 0 <= k < |s| then x else 0
    decreases |s|
  {
    if s == [] {
    } else {
      SingleTerm(s[..|s| - 1], k, x);
    }
  }

  // ---------- residues ----------

  lemma {:induction false} ModOf(x: int, w: nat, q: int, r: int)
    requires w > 0 && x == q * w + r && 0 <= r < w
    ensures x % w == r
  {
    var p, s := x / w, x % w;
    assert x == p * w + s;
    Multiples(p, q, w);
    Multiples(q, p, w);
  }

  lemma {:induction false} Multiples(p: int, q: int, w: nat)
    ensures p > q ==> p * w >= q * w + w
  {
    if p > q {
      var k := p - q - 1;
      assert k * w >= 0;
      assert p == q + k + 1;
      assert p * w == q * w + k * w + w;
    }
  }

  /** Adding a multiple of the modulus keeps the residue. */
  lemma {:induction false} ModPlusMultiple(x: int, k: int, w: nat)
    requires w > 0
    ensures (x + k * w) % w == x % w
  {
    assert (x / w + k) * w == (x / w) * w + k * w;
    ModOf(x + k * w, w, x / w + k, x % w);
  }

  lemma {:induction false} ModSmall(x: int, w: nat)
    requires 0 <= x < w
    ensures x % w == x
  {
  }

  /** Reducing an operand first does not change the residue of a difference or a sum. */
  lemma {:induction false} ModOperand(x: int, y: int, w: nat)
    requires w > 0
    ensures (x - y % w) % w == (x - y) % w && (x + y % w) % w == (x + y) % w
  {
    ModPlusMultiple(x - y, y / w, w);
    ModPlusMultiple(x + y, -(y / w), w);
    assert -(y / w) * w == -((y / w) * w);
    assert x - y % w == x - y + (y / w) * w;
    assert x + y % w == x + y - (y / w) * w;
  }

  /** Shifting by an offset modulo w is undone by shifting back. */
  lemma {:induction false} ModInverse(i: int, offset: int, j: int, w: nat)
    requires 0 <= i < w && 0 <= j < w
    ensures j == (i + offset) % w <==> i == (j - offset) % w
  {
    ModOperand(-offset, i + offset, w);
    ModOperand(offset, j - offset, w);
    assert -offset + (i + offset) == i && offset + (j - offset) == j;
    ModSmall(i, w);
    ModSmall(j, w);
  }
}
