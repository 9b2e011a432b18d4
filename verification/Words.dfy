/** 64-bit machine words as natural numbers, with the wrap-around of C++ unsigned
    arithmetic and the bitwise operators written out on binary digits. */
module Words {

  const WORD: int := 0x1_0000_0000_0000_0000

  /** Reduction of an exact result to a 64-bit word. */
  function Wrap(x: int): (r: nat)
    ensures r < WORD
    ensures 0 <= x < WORD ==> r == x
  {
    x % WORD
  }

  function Pow2(k: nat): (p: nat)
    ensures p > 0
  {
    if k == 0 then 1 else 2 * Pow2(k - 1)
  }

  /** Bitwise conjunction, digit by digit from the least significant bit. */
  function BitAnd(x: nat, y: nat): nat {
    if x == 0 || y == 0 then 0
    else 2 * BitAnd(x / 2, y / 2) + (if x % 2 == 1 && y % 2 == 1 then 1 else 0)
  }

  /** Bitwise complement of a 64-bit word. */
  function BitNot(x: nat): nat
    requires x < WORD
  {
    WORD - 1 - x
  }

  /** `(x + a - 1) & ~(a - 1)`, computed on 64-bit words. */
  function AlignUp(x: nat, a: nat): nat {
    BitAnd(Wrap(x + a - 1), BitNot(Wrap(a - 1)))
  }

  lemma {:induction false} Pow2Monotone(j: nat, k: nat)
    requires j <= k
    ensures Pow2(j) <= Pow2(k)
  {
    if j < k {
      Pow2Monotone(j, k - 1);
    }
  }

  lemma {:induction false} Pow2Split(j: nat, k: nat)
    requires j <= k
    ensures Pow2(k) == Pow2(k - j) * Pow2(j)
  {
    if j > 0 {
      Pow2Split(j - 1, k - 1);
    }
  }

  lemma WordIsPow2()
    ensures Pow2(64) == WORD
    ensures Pow2(63) * 2 == WORD
  {
    assert Pow2(8) == 0x100;
    Pow2Split(8, 16);
    Pow2Split(16, 32);
    Pow2Split(32, 64);
  }

  lemma {:induction false} AndAllOnes(y: nat, n: nat)
    requires y < Pow2(n)
    ensures BitAnd(y, Pow2(n) - 1) == y
  {
    if n > 0 {
      AndAllOnes(y / 2, n - 1);
      assert (Pow2(n) - 1) / 2 == Pow2(n - 1) - 1;
    }
  }

  lemma HalveModulus(y: nat, p: nat)
    requires p > 0
    ensures y % (2 * p) == 2 * ((y / 2) % p) + y % 2
  {
    var q := (y / 2) / p;
    assert y / 2 == q * p + (y / 2) % p;
    var r := 2 * ((y / 2) % p) + y % 2;
    assert y == q * (2 * p) + r;
    DivModUnique(y, 2 * p, q, r);
  }

  lemma ProductGap(k: int, d: int)
    requires d > 0
    ensures k >= 1 ==> k * d >= d
    ensures k <= -1 ==> k * d <= -d
  {
    if k >= 1 {
      assert (k - 1) * d >= 0;
    } else if k <= -1 {
      assert (-1 - k) * d >= 0;
    }
  }

  lemma DivModUnique(x: int, d: nat, q: int, r: int)
    requires 0 <= r < d && x == q * d + r
    ensures x % d == r
  {
    assert x == (x / d) * d + x % d;
    assert (x / d - q) * d == r - x % d;
    ProductGap(x / d - q, d);
  }

  /** Masking with the complement of the low k bits clears exactly the remainder modulo 2^k. */
  lemma {:induction false} AndHighMask(y: nat, k: nat, n: nat)
    requires k <= n && y < Pow2(n)
    ensures Pow2(k) <= Pow2(n)
    ensures BitAnd(y, Pow2(n) - Pow2(k)) == y - y % Pow2(k)
  {
    Pow2Monotone(k, n);
    if k == 0 {
      AndAllOnes(y, n);
    } else {
      AndHighMask(y / 2, k - 1, n - 1);
      HalveModulus(y, Pow2(k - 1));
      var mask := Pow2(n) - Pow2(k);
      assert mask / 2 == Pow2(n - 1) - Pow2(k - 1) && mask % 2 == 0;
    }
  }

  /** The mask expression is the least multiple of a power of two at or above x, whenever
      the addition does not carry out of 64 bits: no multiple m lies in between. */
  lemma AlignUpIsLeastMultiple(x: nat, k: nat, m: nat)
    requires k < 64 && x + Pow2(k) - 1 < WORD
    ensures var a, r := Pow2(k), AlignUp(x, Pow2(k));
            && r % a == 0 && x <= r < x + a
            && (m % a == 0 && x <= m ==> r <= m)
  {
    AlignUpValue(x, k);
    ClearedIsLeastMultiple(x, Pow2(k), m);
  }

  lemma ClearedIsLeastMultiple(x: nat, a: nat, m: nat)
    requires a > 0
    ensures var y := x + a - 1; var r := y - y % a;
            && r % a == 0 && x <= r < x + a
            && (m % a == 0 && x <= m ==> r <= m)
  {
    var y := x + a - 1;
    RemainderClears(y, a);
    if m % a == 0 {
      MultiplesApart(m, y - y % a, a);
    }
  }

  lemma AlignUpValue(x: nat, k: nat)
    requires k < 64 && x + Pow2(k) - 1 < WORD
    ensures AlignUp(x, Pow2(k)) == x + Pow2(k) - 1 - (x + Pow2(k) - 1) % Pow2(k)
  {
    WordIsPow2();
    Pow2Monotone(k, 63);
    AndHighMask(x + Pow2(k) - 1, k, 64);
  }

  lemma RemainderClears(y: int, a: nat)
    requires a > 0
    ensures (y - y % a) % a == 0
  {
    assert y - y % a == (y / a) * a + 0;
    DivModUnique(y - y % a, a, y / a, 0);
  }

  lemma MultiplesApart(m: int, r: int, a: nat)
    requires a > 0 && m % a == 0 && r % a == 0
    ensures m < r ==> m <= r - a
  {
    assert m == (m / a) * a && r == (r / a) * a;
    assert (r / a - m / a) * a == r - m;
    ProductGap(r / a - m / a, a);
  }

  /** The alignments the C++ standard calls fundamental or extended: powers of two. */
  ghost predicate IsAlignment(a: nat) {
    exists k: nat :: k < 64 && Pow2(k) == a
  }

  /** Below half of the address space the mask expression never carries, for any alignment. */
  lemma AlignUpInLowerHalf(x: nat, a: nat)
    requires IsAlignment(a) && x <= Pow2(63)
    ensures 0 < a <= Pow2(63) && Pow2(63) * 2 == WORD
    ensures var r := AlignUp(x, a); r % a == 0 && x <= r < x + a && r <= Pow2(63)
  {
    var k: nat :| k < 64 && Pow2(k) == a;
    WordIsPow2();
    Pow2Monotone(k, 63);
    Divides(k, 63);
    AlignUpIsLeastMultiple(x, k, Pow2(63));
  }

  lemma Divides(j: nat, k: nat)
    requires j <= k
    ensures Pow2(k) % Pow2(j) == 0
  {
    Pow2Split(j, k);
    DivModUnique(Pow2(k), Pow2(j), Pow2(k - j), 0);
  }

  lemma MultipleOfMultiple(x: nat, a: nat, d: nat)
    requires a > 0 && d > 0 && a % d == 0 && x % a == 0
    ensures x % d == 0
  {
    assert x == (x / a) * a && a == (a / d) * d;
    assert (x / a) * ((a / d) * d) == ((x / a) * (a / d)) * d;
    DivModUnique(x, d, (x / a) * (a / d), 0);
  }
}
