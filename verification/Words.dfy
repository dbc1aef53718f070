/**
 Words as naturals below 2^64, compared by their lowest differing bit. Divisibility by powers
 of two is defined by repeated halving, so every proof about XOR, odd factors and even salts
 is an induction on bits.
 */
module Words {

  const BITS: nat := 64

  function Pow2(n: nat): (p: nat)
    ensures p > 0
  {
    if n == 0 then 1 else 2 * Pow2(n - 1)
  }

  function Modulus(): (m: nat)
    ensures m > 0
  {
    Pow2(BITS)
  }

  ghost predicate IsWord(x: int) { 0 <= x < Modulus() }

  // d is a multiple of 2^j.
  predicate Div2(d: int, j: nat)
    decreases j, d
  {
    j == 0 || (d % 2 == 0 && Div2(d / 2, j - 1))
  }

  function Low(d: int): nat
    requires d != 0
    decreases if d < 0 then -d else d
  {
    if d % 2 != 0 then 0 else 1 + Low(d / 2)
  }

  function Xor(x: nat, y: nat, bits: nat): (z: nat)
    ensures z < Pow2(bits)
  {
    if bits == 0 then 0 else 2 * Xor(x / 2, y / 2, bits - 1) + (x % 2 + y % 2) % 2
  }

  function Bit(x: nat, i: nat): nat {
    if i == 0 then x % 2 else Bit(x / 2, i - 1)
  }

  // x and y agree on the bits below k and differ at bit k.
  ghost predicate LowestChangedBit(x: nat, y: nat, k: nat) {
    Bit(x, k) != Bit(y, k) && forall i :: 0 <= i < k ==> Bit(x, i) == Bit(y, i)
  }

  // Words whose lowest differing bit is k; equal words when k is past the last bit.
  ghost predicate DiffAt(x: int, y: int, k: nat) {
    Div2(x - y, if k < BITS then k else BITS) && (k < BITS ==> !Div2(x - y, k + 1))
  }

  lemma {:induction false} Div2Low(d: int, j: nat)
    requires d != 0
    ensures Div2(d, j) <==> j <= Low(d)
    decreases j
  {
    if j > 0 && d % 2 == 0 {
      Div2Low(d / 2, j - 1);
    }
  }

  lemma {:induction false} Div2Add(a: int, b: int, j: nat)
    requires Div2(b, j)
    ensures Div2(a + b, j) <==> Div2(a, j)
    ensures Div2(a - b, j) <==> Div2(a, j)
    decreases j
  {
    if j == 0 {
    } else {
      assert (a + b) % 2 == a % 2 && (a - b) % 2 == a % 2;
      if a % 2 == 0 {
        assert (a + b) / 2 == a / 2 + b / 2 && (a - b) / 2 == a / 2 - b / 2;
        Div2Add(a / 2, b / 2, j - 1);
      }
    }
  }

  lemma {:induction false} Div2Pow(q: int, j: nat)
    ensures Div2(q * Pow2(j), j)
    decreases j
  {
    if j == 0 {
    } else {
      assert q * Pow2(j) == 2 * (q * Pow2(j - 1));
      Div2Pow(q, j - 1);
    }
  }

  lemma {:induction false} Div2Monotone(d: int, i: nat, j: nat)
    requires i <= j && Div2(d, j)
    ensures Div2(d, i)
    decreases j
  {
    if i == 0 {
    } else {
      Div2Monotone(d / 2, i - 1, j - 1);
    }
  }

  /** Reducing modulo 2^64 does not change which low bits two numbers share. */
  lemma {:induction false} ReduceKeeps(a: int, b: int, j: nat)
    requires j <= BITS
    ensures Div2(a % Modulus() - b, j) <==> Div2(a - b, j)
  {
    var m := Modulus();
    var q := a / m;
    assert a - a % m == q * m;
    Div2Pow(q, BITS);
    Div2Monotone(q * m, j, BITS);
    Div2Add(a - b, q * m, j);
    assert a % m - b == (a - b) - q * m;
  }

  lemma {:induction false} ReduceBoth(a: int, b: int, j: nat)
    requires j <= BITS
    ensures Div2(a % Modulus() - b % Modulus(), j) <==> Div2(a - b, j)
  {
    ReduceKeeps(a, b % Modulus(), j);
    ReduceKeeps(b, a, j);
    Div2Negate(a - b % Modulus(), j);
    Div2Negate(a - b, j);
  }

  lemma {:induction false} Div2Negate(d: int, j: nat)
    ensures Div2(-d, j) <==> Div2(d, j)
    decreases j
  {
    if j > 0 && d % 2 == 0 {
      assert (-d) / 2 == -(d / 2);
      Div2Negate(d / 2, j - 1);
    }
  }

  lemma {:induction false} Parity(d: int, o: int)
    requires o % 2 == 1
    ensures (d * o) % 2 == d % 2
    ensures d % 2 == 0 ==> (d * o) / 2 == (d / 2) * o
  {
    var k := o / 2;
    assert o == 2 * k + 1;
    OddMultiple(d, k);
    if d % 2 == 0 {
      EvenMultiple(d / 2, o);
    }
  }

  lemma {:induction false} OddMultiple(d: int, k: int)
    ensures (d * (2 * k + 1)) % 2 == d % 2
  {
    var q := d * k;
    assert d * (2 * k + 1) == 2 * q + d;
  }

  lemma {:induction false} EvenMultiple(h: int, o: int)
    ensures ((2 * h) * o) / 2 == h * o
  {
    var q := h * o;
    assert (2 * h) * o == 2 * q;
  }

  /** An odd factor neither adds nor removes low zero bits. */
  lemma {:induction false} OddCancel(d: int, o: int, j: nat)
    requires o % 2 == 1
    ensures Div2(d * o, j) <==> Div2(d, j)
    decreases j
  {
    if j == 0 {
    } else {
      Parity(d, o);
      if d % 2 == 0 {
        OddCancel(d / 2, o, j - 1);
      }
    }
  }

  /** A positive factor n shifts the lowest differing bit up by the number of its low zero bits. */
  lemma {:induction false} FactorShifts(d: int, n: nat, j: nat)
    requires n > 0
    ensures Div2(d * n, j + Low(n)) <==> Div2(d, j)
    decreases n
  {
    if n % 2 != 0 {
      OddCancel(d, n, j);
    } else {
      FactorShifts(d, n / 2, j);
      assert d * n == 2 * (d * (n / 2));
    }
  }

  lemma {:induction false} FactorBelow(d: int, n: nat, j: nat)
    requires n > 0 && j <= Low(n)
    ensures Div2(d * n, j)
  {
    FactorShifts(d, n, 0);
    Div2Monotone(d * n, j, Low(n));
  }

  lemma {:induction false} XorCommutes(x: nat, y: nat, bits: nat)
    ensures Xor(x, y, bits) == Xor(y, x, bits)
  {
    if bits == 0 {
    } else {
      XorCommutes(x / 2, y / 2, bits - 1);
    }
  }

  lemma {:induction false} Div2Double(h: int, e: int, j: nat)
    requires j > 0 && -1 <= e <= 1
    ensures Div2(2 * h + e, j) <==> e == 0 && Div2(h, j - 1)
  {
    DoubleParity(h, e);
  }

  lemma {:induction false} DoubleParity(h: int, e: int)
    requires -1 <= e <= 1
    ensures (2 * h + e) % 2 == (if e == 0 then 0 else 1)
    ensures e == 0 ==> (2 * h + e) / 2 == h
  {
  }

  lemma {:induction false} XorDifference(x: nat, y: nat, z: nat, bits: nat) returns (e: int)
    requires bits > 0
    ensures -1 <= e <= 1 && (e == 0 <==> x % 2 == y % 2)
    ensures Xor(x, z, bits) - Xor(y, z, bits) == 2 * (Xor(x / 2, z / 2, bits - 1) - Xor(y / 2, z / 2, bits - 1)) + e
  {
    e := (x % 2 + z % 2) % 2 - (y % 2 + z % 2) % 2;
  }

  /** XOR with a common word keeps exactly the low bits the two words share. */
  lemma {:induction false} XorKeeps(x: nat, y: nat, z: nat, bits: nat, j: nat)
    requires j <= bits
    ensures Div2(Xor(x, z, bits) - Xor(y, z, bits), j) <==> Div2(x - y, j)
    decreases j
  {
    if j == 0 {
    } else {
      XorKeeps(x / 2, y / 2, z / 2, bits - 1, j - 1);
      var a, b := Xor(x / 2, z / 2, bits - 1) as int, Xor(y / 2, z / 2, bits - 1) as int;
      var e := XorDifference(x, y, z, bits);
      Div2Double(a - b, e, j);
      var h, f := x / 2 - y / 2, x % 2 - y % 2;
      Div2Double(h, f, j);
      assert x - y == 2 * h + f;
    }
  }

  lemma {:induction false} SmallMultipleIsZero(d: int, n: nat)
    requires Div2(d, n) && 0 - (Pow2(n) as int) < d < Pow2(n)
    ensures d == 0
    decreases n
  {
    if n == 0 {
    } else {
      SmallMultipleIsZero(d / 2, n - 1);
    }
  }

  lemma {:induction false} ZeroDivides(j: nat)
    ensures Div2(0, j)
  {
    if j == 0 {
    } else {
      ZeroDivides(j - 1);
    }
  }

  /** Words with lowest differing bit k are different exactly when k is a bit of the word. */
  lemma {:induction false} DiffAtMeansDifferent(x: int, y: int, k: nat)
    requires IsWord(x) && IsWord(y) && DiffAt(x, y, k)
    ensures x != y <==> k < BITS
  {
    if k < BITS {
      ZeroDivides(k + 1);
    } else {
      SmallMultipleIsZero(x - y, BITS);
    }
  }

  lemma {:induction false} LowestBitDivides(x: nat, y: nat, k: nat)
    requires LowestChangedBit(x, y, k)
    ensures Div2(x - y, k) && !Div2(x - y, k + 1)
    decreases k
  {
    if k == 0 {
    } else {
      assert Bit(x, 0) == Bit(y, 0);
      assert (x - y) / 2 == x / 2 - y / 2;
      forall i | 0 <= i < k - 1
        ensures Bit(x / 2, i) == Bit(y / 2, i)
      {
        assert Bit(x, i + 1) == Bit(y, i + 1);
      }
      LowestBitDivides(x / 2, y / 2, k - 1);
    }
  }

  lemma {:induction false} XorDiff(x: nat, y: nat, z: nat, k: nat)
    requires DiffAt(x, y, k)
    ensures DiffAt(Xor(x, z, BITS), Xor(y, z, BITS), k)
    ensures DiffAt(Xor(z, x, BITS), Xor(z, y, BITS), k)
  {
    XorCommutes(x, z, BITS);
    XorCommutes(y, z, BITS);
    XorKeeps(x, y, z, BITS, if k < BITS then k else BITS);
    if k < BITS {
      XorKeeps(x, y, z, BITS, k + 1);
    }
  }

  lemma {:induction false} SaltAlgebra(x: int, y: int, a: int, n: int, q: int, m: int, salt: int)
    requires a * n == q * m + salt
    ensures x * salt - y * salt == ((x - y) * n) * a - ((x - y) * q) * m
  {
    var d := x - y;
    assert x * salt - y * salt == d * salt;
    assert d * (a * n) == d * (q * m) + d * salt;
    assert d * (a * n) == (d * n) * a;
    assert d * (q * m) == (d * q) * m;
  }

  lemma {:induction false} SaltedBits(x: nat, y: nat, a: nat, n: nat, j: nat)
    requires a % 2 == 1 && j <= BITS
    ensures var salt := (a * n) % Modulus();
            Div2((x * salt) % Modulus() - (y * salt) % Modulus(), j) <==> Div2((x - y) * n, j)
  {
    var m := Modulus();
    var salt, q := (a * n) % m, (a * n) / m;
    var d := x - y;
    ReduceBoth(x * salt, y * salt, j);
    SaltAlgebra(x, y, a, n, q, m, salt);
    Div2Pow(d * q, BITS);
    Div2Monotone((d * q) * m, j, BITS);
    Div2Add((d * n) * a, (d * q) * m, j);
    OddCancel(d * n, a, j);
  }

  /** Multiplying by (a * n) mod 2^64 with a odd moves the lowest differing bit up by Low(n). */
  lemma {:induction false} FactorDiff(x: nat, y: nat, a: nat, n: nat, k: nat)
    requires a % 2 == 1 && n > 0 && DiffAt(x, y, k)
    ensures var salt := (a * n) % Modulus();
            DiffAt((x * salt) % Modulus(), (y * salt) % Modulus(), k + Low(n))
  {
    var v := Low(n);
    var low := if k + v < BITS then k + v else BITS;
    SaltedBits(x, y, a, n, low);
    if low <= v {
      FactorBelow(x - y, n, low);
    } else {
      FactorShifts(x - y, n, low - v);
      Div2Monotone(x - y, low - v, if k < BITS then k else BITS);
    }
    if k + v < BITS {
      SaltedBits(x, y, a, n, k + v + 1);
      FactorShifts(x - y, n, k + 1);
    }
  }
}
