/** Machine integers: wrap-around, saturation, and the bit mask with which every ring
    of the system turns a free-running 32-bit counter into a slot number. */
module Words {
  const U16: nat := 0x1_0000
  const U32: nat := 0x1_0000_0000
  const U64: nat := 0x1_0000_0000_0000_0000

  type u16 = x: int | 0 <= x < 0x1_0000
  type u32 = x: int | 0 <= x < 0x1_0000_0000
  type u64 = x: int | 0 <= x < 0x1_0000_0000_0000_0000
  type usize = x: int | 0 <= x < 0x1_0000_0000_0000_0000

  datatype Option<+T> = None | Some(value: T)

  /** A 32-bit counter after a wrapping addition. */
  function Wrap32(x: nat): u32 {
    x % U32
  }

  /** `a.wrapping_sub(b)` on 32 bits. */
  function Sub32(a: u32, b: u32): u32 {
    if a >= b then a - b else a + U32 - b
  }

  function Sub16(a: u16, b: u16): u16 {
    if a >= b then a - b else a + U16 - b
  }

  /** `a.saturating_add(b)` on the pointer width. */
  function SaturatingAdd(a: usize, b: usize): usize {
    if a + b < U64 then a + b else U64 - 1
  }

  /** `n.is_power_of_two()`. */
  predicate IsPow2(n: nat) {
    n == 1 || (n > 1 && n % 2 == 0 && IsPow2(n / 2))
  }

  /** The bitwise `x & y` of two non-negative integers, least significant bit first. */
  function BitAnd(x: nat, y: nat): nat {
    if x == 0 || y == 0 then 0 else 2 * BitAnd(x / 2, y / 2) + (x % 2) * (y % 2)
  }

  /** A non-zero multiple of `n` is at least `n` away from zero. */
  lemma Multiple(n: nat, k: int)
    ensures k >= 1 ==> n * k >= n
    ensures k <= -1 ==> n * k + n <= 0
  {
    if k >= 1 {
      assert n * (k - 1) >= 0;
    } else if k <= -1 {
      assert n * (-k - 1) >= 0;
    }
  }

  lemma Quotient(x: int, n: int, q: int, r: int)
    requires n > 0 && x == n * q + r && 0 <= r < n
    ensures x / n == q && x % n == r
  {
    var d := x / n;
    assert x == n * d + x % n;
    assert n * (d - q) == r - x % n;
    Multiple(n, d - q);
  }

  /** Masking with `n - 1` is the remainder by `n` exactly because `n` is a power of two. */
  lemma {:induction false} MaskIsRemainder(x: nat, n: nat)
    requires IsPow2(n)
    ensures BitAnd(x, n - 1) == x % n
  {
    if n == 1 {
    } else if x == 0 {
      Quotient(0, n, 0, 0);
    } else {
      var m := n / 2;
      MaskIsRemainder(x / 2, m);
      HalveRemainder(x, m);
      assert (n - 1) / 2 == m - 1 && (n - 1) % 2 == 1;
    }
  }

  lemma HalveRemainder(x: nat, m: nat)
    requires m > 0
    ensures x % (2 * m) == 2 * ((x / 2) % m) + x % 2
  {
    var q, r := (x / 2) / m, (x / 2) % m;
    assert x / 2 == m * q + r;
    assert (2 * m) * q == 2 * (m * q);
    Quotient(x, 2 * m, q, 2 * r + x % 2);
  }

  /** A smaller power of two divides a larger one. */
  lemma {:induction false} Pow2Divides(n: nat, m: nat)
    requires IsPow2(n) && IsPow2(m) && n <= m
    ensures m % n == 0
  {
    if n > 1 {
      Pow2Divides(n / 2, m / 2);
      var q := (m / 2) / (n / 2);
      assert m / 2 == (n / 2) * q;
      assert m == n * q;
      Quotient(m, n, q, 0);
    }
  }

  /** Reducing modulo a multiple first does not change the remainder. */
  lemma RemainderThrough(x: nat, m: nat, n: nat)
    requires n > 0 && m > 0 && m % n == 0
    ensures (x % m) % n == x % n
  {
    var k := m / n;
    var q, r := x / m, (x % m) / n;
    var t := (x % m) % n;
    assert m == n * k;
    assert x == m * q + (n * r + t);
    assert m * q == n * (k * q) by { assert (n * k) * q == n * (k * q); }
    assert x == n * (k * q + r) + t by { assert n * (k * q + r) == n * (k * q) + n * r; }
    Quotient(x, n, k * q + r, t);
  }

  /** Two numbers less than `n` apart fall in different residue classes. */
  lemma RemaindersDiffer(x: nat, y: nat, n: nat)
    requires n > 0 && x < y < x + n
    ensures x % n != y % n
  {
    var a, b := x / n, y / n;
    assert x == n * a + x % n && y == n * b + y % n;
    assert n * (b - a) == n * b - n * a;
    Multiple(n, b - a);
  }

  lemma Pow2Words()
    ensures IsPow2(U16) && IsPow2(U32)
  {
    Pow2Scaled(256, 256);
    Pow2Scaled(U16, U16);
  }

  lemma {:induction false} Pow2Scaled(k: nat, n: nat)
    requires IsPow2(k) && IsPow2(n)
    ensures IsPow2(k * n)
  {
    if k > 1 {
      Pow2Scaled(k / 2, n);
      assert k * n == 2 * ((k / 2) * n) by { assert k == 2 * (k / 2); }
    }
  }

  /** `n.next_power_of_two()` for `n > 0`: the least power of two that is not below `n`. */
  function NextPow2(n: nat): (p: nat)
    requires n > 0
    ensures IsPow2(p) && n <= p < 2 * n
  {
    if n == 1 then 1 else 2 * NextPow2((n + 1) / 2)
  }

  /** Nothing between `n` and `NextPow2(n)` is a power of two. */
  lemma {:induction false} NextPow2Least(n: nat, q: nat)
    requires n > 0 && IsPow2(q) && n <= q
    ensures NextPow2(n) <= q
  {
    if n > 1 {
      NextPow2Least((n + 1) / 2, q / 2);
    }
  }
}
