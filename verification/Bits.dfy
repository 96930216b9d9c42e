/** Powers of two, alignment and the bitwise operations the allocators use on frame numbers. */
module Bits {

  function Pow2(k: nat): (p: nat)
    ensures p >= 1
  {
    if k == 0 then 1 else 2 * Pow2(k - 1)
  }

  /** Bitwise exclusive or, bit by bit from the least significant end. */
  function Xor(a: nat, b: nat): nat
    decreases a + b
  {
    if a == 0 && b == 0 then 0
    else (if a % 2 == b % 2 then 0 else 1) + 2 * Xor(a / 2, b / 2)
  }

  /** `usize::trailing_zeros`: 64 for zero, otherwise the index of the lowest set bit. */
  function TrailingZeros(a: nat): nat
  {
    if a == 0 then 64 else if a % 2 == 1 then 0 else 1 + TrailingZeros(a / 2)
  }

  predicate Aligned(b: nat, k: nat) {
    b % Pow2(k) == 0
  }

  lemma MulSign(x: int, d: nat)
    ensures x >= 1 ==> x * d >= d
    ensures x <= -1 ==> x * d <= -1 * d
    ensures x == 0 ==> x * d == 0
  {
  }

  /** Two multiples of d that differ are at least d apart. */
  lemma MultiplesApart(a: nat, b: nat, d: nat)
    requires d >= 1 && a % d == 0 && b % d == 0 && a < b
    ensures a + d <= b
  {
    var x, y := a / d, b / d;
    assert a == x * d && b == y * d;
    assert b - a == (y - x) * d;
    MulSign(y - x, d);
  }

  lemma MulMod(x: int, d: nat)
    requires d >= 1
    ensures (x * d) % d == 0
  {
    var q, r := (x * d) / d, (x * d) % d;
    assert x * d == q * d + r;
    assert (x - q) * d == r;
    MulSign(x - q, d);
  }

  lemma AlignedFactor(b: nat, k: nat) returns (q: nat)
    requires Aligned(b, k)
    ensures b == q * Pow2(k)
  {
    q := b / Pow2(k);
  }

  lemma AlignedDown(b: nat, j: nat, k: nat)
    requires Aligned(b, j) && k <= j
    ensures Aligned(b, k)
    decreases j
  {
    if k < j {
      var q := AlignedFactor(b, j);
      assert b == (2 * q) * Pow2(j - 1) by { assert Pow2(j) == 2 * Pow2(j - 1); }
      MulMod(2 * q, Pow2(j - 1));
      AlignedDown(b, j - 1, k);
    }
  }

  lemma AlignedAdd(b: nat, k: nat)
    requires Aligned(b, k)
    ensures Aligned(b + Pow2(k), k)
    ensures b >= Pow2(k) ==> Aligned(b - Pow2(k), k)
  {
    var q := AlignedFactor(b, k);
    assert (q + 1) * Pow2(k) == b + Pow2(k);
    MulMod(q + 1, Pow2(k));
    if b >= Pow2(k) {
      assert (q - 1) * Pow2(k) == b - Pow2(k);
      MulMod(q - 1, Pow2(k));
    }
  }

  /** A smaller aligned block that starts inside a larger aligned one lies wholly inside it. */
  lemma Nested(b: nat, j: nat, r: nat, m: nat)
    requires Aligned(b, j) && Aligned(r, m) && m <= j
    requires b <= r < b + Pow2(j)
    ensures r + Pow2(m) <= b + Pow2(j)
  {
    AlignedAdd(b, j);
    AlignedDown(b + Pow2(j), j, m);
    MultiplesApart(r, b + Pow2(j), Pow2(m));
  }

  lemma Pow2Mono(j: nat, k: nat)
    requires j <= k
    ensures Pow2(j) <= Pow2(k)
    decreases k
  {
    if j < k { Pow2Mono(j, k - 1); }
  }

  /** A frame below an aligned limit has its whole aligned block below the limit. */
  lemma FitsBelow(b: nat, k: nat, j: nat, limit: nat)
    requires Aligned(b, k) && Aligned(limit, j) && k <= j && b < limit
    ensures b + Pow2(k) <= limit
  {
    AlignedDown(limit, j, k);
    MultiplesApart(b, limit, Pow2(k));
  }

  lemma DivDiv2(a: nat, p: nat)
    requires p >= 1
    ensures a / (2 * p) == (a / 2) / p
  {
    var q := (a / 2) / p;
    var r := (a / 2) % p;
    assert a / 2 == q * p + r;
    assert a == 2 * (q * p) + (2 * r + a % 2);
    assert a == q * (2 * p) + (2 * r + a % 2);
    var s := 2 * r + a % 2;
    assert 0 <= s < 2 * p;
    DivUnique(a, 2 * p, q, s);
  }

  lemma DivUnique(a: nat, d: nat, q: nat, r: nat)
    requires d >= 1 && a == q * d + r && r < d
    ensures a / d == q && a % d == r
  {
    var q', r' := a / d, a % d;
    assert a == q' * d + r';
    assert (q - q') * d == r' - r;
    MulSign(q - q', d);
  }

  lemma {:induction false} XorZero(a: nat)
    ensures Xor(a, 0) == a
  {
    if a > 0 { XorZero(a / 2); }
  }

  lemma XorDoubled(a: nat, p: nat)
    requires p >= 1
    ensures Xor(a, 2 * p) == a % 2 + 2 * Xor(a / 2, p)
  {
    assert (2 * p) % 2 == 0 && (2 * p) / 2 == p;
  }

  /** Exclusive or with one bit flips that bit and nothing else. */
  lemma {:induction false} XorFlips(a: nat, k: nat)
    ensures Xor(a, Pow2(k)) == if (a / Pow2(k)) % 2 == 0 then a + Pow2(k) else a - Pow2(k)
    decreases k
  {
    if k == 0 {
      XorZero(a / 2);
    } else {
      var p := Pow2(k - 1);
      XorFlips(a / 2, k - 1);
      XorDoubled(a, p);
      DivDiv2(a, p);
      assert a == 2 * (a / 2) + a % 2;
    }
  }

  /** The parity of a multiple's quotient is decided by the doubled divisor. */
  lemma Parity(b: nat, p: nat)
    requires p >= 1 && b % p == 0
    ensures (b / p) % 2 == 0 ==> b % (2 * p) == 0
    ensures (b / p) % 2 == 1 ==> b >= p && (b - p) % (2 * p) == 0
  {
    var q := b / p;
    var h := q / 2;
    assert b == q * p;
    MulMod(h, 2 * p);
    if q % 2 == 0 {
      assert q * p == h * (2 * p) by { assert q == 2 * h; }
    } else {
      assert q * p == h * (2 * p) + p by { assert q == 2 * h + 1; }
      assert b - p == h * (2 * p);
    }
  }

  lemma ParityOfSum(b: nat, p: nat)
    requires p >= 1 && b % (2 * p) == 0
    ensures (b / p) % 2 == 0 && ((b + p) / p) % 2 == 1
  {
    var h := b / (2 * p);
    assert b == h * (2 * p) == (2 * h) * p;
    DivUnique(b, p, 2 * h, 0);
    assert b + p == (2 * h + 1) * p;
    DivUnique(b + p, p, 2 * h + 1, 0);
  }

  /** The order-k buddy of an aligned block: which side it lies on, and that the two make an aligned pair. */
  lemma BuddyOf(b: nat, k: nat)
    requires Aligned(b, k)
    ensures var c := Xor(b, Pow2(k));
            && Aligned(c, k)
            && Xor(c, Pow2(k)) == b
            && ((c == b + Pow2(k) && Aligned(b, k + 1)) || (b == c + Pow2(k) && Aligned(c, k + 1)))
  {
    var p := Pow2(k);
    assert Pow2(k + 1) == 2 * p;
    Parity(b, p);
    XorFlips(b, k);
    AlignedAdd(b, k);
    if (b / p) % 2 == 0 {
      ParityOfSum(b, p);
      XorFlips(b + p, k);
    } else {
      ParityOfSum(b - p, p);
      XorFlips(b - p, k);
    }
  }

  /** The lower half of an aligned pair has the upper half as its buddy. */
  lemma BuddyOfLower(b: nat, k: nat)
    requires Aligned(b, k + 1)
    ensures Aligned(b, k) && Xor(b, Pow2(k)) == b + Pow2(k) && Xor(b + Pow2(k), Pow2(k)) == b
    ensures Aligned(b + Pow2(k), k)
  {
    AlignedDown(b, k + 1, k);
    BuddyOf(b, k);
    if b == Xor(b, Pow2(k)) + Pow2(k) {
      // two multiples of 2^(k+1) cannot be 2^k apart
      MultiplesApart(Xor(b, Pow2(k)), b, Pow2(k + 1));
    }
  }

  lemma {:induction false} TrailingZerosAligned(a: nat, k: nat)
    requires a > 0 && k <= TrailingZeros(a)
    ensures Aligned(a, k)
    decreases k
  {
    if k > 0 {
      assert a % 2 == 0;
      TrailingZerosAligned(a / 2, k - 1);
      var q := AlignedFactor(a / 2, k - 1);
      assert a == q * Pow2(k);
      MulMod(q, Pow2(k));
    }
  }
}
