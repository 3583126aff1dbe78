/** Fixed-width integers as the Go program computes with them. */
module Machine {

  const TWO_62: int := 0x4000_0000_0000_0000
  const TWO_63: int := 0x8000_0000_0000_0000
  const TWO_64: int := 0x1_0000_0000_0000_0000

  type int64 = x: int | -TWO_63 <= x < TWO_63
  type int32 = x: int | -0x8000_0000 <= x < 0x8000_0000
  type byte = x: int | 0 <= x < 256

  /** The value a mathematical result takes after being stored in an int64. */
  function Wrap64(x: int): int64 {
    (x + TWO_63) % TWO_64 - TWO_63
  }

  function Pow2(n: nat): (p: nat)
    ensures p > 0
  {
    if n == 0 then 1 else 2 * Pow2(n - 1)
  }

  /** The expression `1 << i` at type int64; at i = 63 the result is the least int64. */
  function Shl1(i: nat): int64
    requires i < 64
  {
    Wrap64(Pow2(i))
  }

  lemma Wrap64Periodic(x: int, k: int)
    ensures Wrap64(x + k * TWO_64) == Wrap64(x)
  {
    var q := (x + TWO_63) / TWO_64;
    var r := (x + TWO_63) % TWO_64;
    assert x + TWO_63 == q * TWO_64 + r;
    assert x + k * TWO_64 + TWO_63 == (q + k) * TWO_64 + r;
  }

  lemma Wrap64Id(x: int)
    requires -TWO_63 <= x < TWO_63
    ensures Wrap64(x) == x
  {
  }

  /** Wrapping early or late makes no difference to a sum. */
  lemma Wrap64Sum(x: int, y: int)
    ensures Wrap64(Wrap64(x) + y) == Wrap64(x + y)
  {
    var k := (x + TWO_63) / TWO_64;
    assert Wrap64(x) + y == x + y + (-k) * TWO_64;
    Wrap64Periodic(x + y, -k);
  }

  lemma {:induction false} Pow2Monotone(i: nat, j: nat)
    requires i <= j
    ensures Pow2(i) <= Pow2(j)
    decreases j
  {
    if i < j {
      Pow2Monotone(i, j - 1);
    }
  }

  lemma Pow2Byte(n: nat)
    ensures Pow2(n + 8) == 256 * Pow2(n)
  {
    assert Pow2(n + 2) == 4 * Pow2(n);
    assert Pow2(n + 4) == 16 * Pow2(n);
    assert Pow2(n + 6) == 64 * Pow2(n);
  }

  lemma Pow2Top()
    ensures Pow2(62) == TWO_62 && Pow2(63) == TWO_63
  {
    assert Pow2(6) == 64;
    Pow2Byte(6);
    Pow2Byte(14);
    Pow2Byte(22);
    Pow2Byte(30);
    Pow2Byte(38);
    Pow2Byte(46);
    Pow2Byte(54);
    assert Pow2(63) == 2 * Pow2(62);
  }

  // ---------------------------------------------------------------- multiplication and division

  lemma DivMod(a: int, b: int)
    requires b > 0
    ensures a == (a / b) * b + a % b && 0 <= a % b < b
  {
  }

  lemma MulApart(k: int, d: int)
    requires d > 0
    ensures k >= 1 ==> k * d >= d
    ensures k <= -1 ==> k * d <= -d
  {
  }

  lemma MulLe(a: int, b: int, c: int)
    requires a <= b && c >= 0
    ensures a * c <= b * c
  {
  }

  lemma ModUnique(n: int, d: int, q: int, r: int)
    requires 0 <= r < d && n == q * d + r
    ensures n % d == r
  {
    var k := n / d - q;
    assert n == (n / d) * d + n % d;
    assert k * d == r - n % d;
    MulApart(k, d);
  }
}
