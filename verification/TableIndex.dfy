/** Table sizes and the masked bucket index.
    Every table size is a power of two, so `hash & (size - 1)` is the remainder. */
module TableIndex {

  const INIT_SIZE := 8

  /** Sizes up to here keep `used * 2` and `s <<= 1` inside an unsigned int. */
  const MAX_SIZE := 0x4000_0000

  predicate IsPow2(n: nat)
  {
    n == 1 || (n > 1 && n % 2 == 0 && IsPow2(n / 2))
  }

  /** Bitwise `&` on non-negative integers. */
  function BitAnd(a: nat, b: nat): nat
    decreases b
  {
    if b == 0 then 0 else (a % 2) * (b % 2) + 2 * BitAnd(a / 2, b / 2)
  }

  lemma {:induction false} MaskIsRemainder(hash: nat, n: nat)
    requires IsPow2(n)
    ensures BitAnd(hash, n - 1) == hash % n
    decreases n
  {
    if n > 1 {
      var m := n / 2;
      assert (n - 1) % 2 == 1 && (n - 1) / 2 == m - 1;
      MaskIsRemainder(hash / 2, m);
      HalveRemainder(hash, m);
    }
  }

  lemma HalveRemainder(a: nat, m: nat)
    requires m > 0
    ensures a % (2 * m) == a % 2 + 2 * (a / 2 % m)
  {
    var q, r := a / 2 / m, a / 2 % m;
    assert a / 2 == q * m + r;
    assert q * (2 * m) == 2 * (q * m);
    RemainderIs(a, 2 * m, q, 2 * r + a % 2);
  }

  lemma RemainderIs(a: nat, n: nat, q: nat, r: nat)
    requires n > 0 && r < n && a == q * n + r
    ensures a % n == r
  {
    var d := a / n - q;
    assert a == a / n * n + a % n;
    assert d * n == a / n * n - q * n;
    assert d * n == r - a % n;
    assert d > 0 ==> d * n >= n;
    assert d < 0 ==> d * n <= -1 * n;
  }

  /** What `_pow_size` computes: the first doubling of 8 that reaches `size`. */
  function PowSizeFrom(s: nat, size: int): (r: nat)
    requires s > 0
    ensures size <= r
    ensures IsPow2(s) ==> IsPow2(r)
    ensures r == s || r < 2 * size
    decreases size - s
  {
    if s < size then PowSizeFrom(2 * s, size) else s
  }

  function PowSize(size: int): (r: nat)
    ensures size <= r && INIT_SIZE <= r && IsPow2(r)
    ensures r == INIT_SIZE || r < 2 * size
  {
    assert IsPow2(1) && IsPow2(2) && IsPow2(4) && IsPow2(8);
    PowSizeFrom(INIT_SIZE, size)
  }

  /** Minimality: no smaller admissible power of two would do. */
  lemma {:induction false} PowSizeFromLeast(s: nat, size: int, p: nat)
    requires IsPow2(s) && IsPow2(p) && s <= p && size <= p
    ensures PowSizeFrom(s, size) <= p
    decreases size - s
  {
    if s < size {
      Pow2Gap(s, p);
      PowSizeFromLeast(2 * s, size, p);
    }
  }

  lemma {:induction false} Pow2Gap(s: nat, p: nat)
    requires IsPow2(s) && IsPow2(p) && s < p
    ensures 2 * s <= p
    decreases s
  {
    if s > 1 {
      Pow2Gap(s / 2, p / 2);
    }
  }

  /** Doubling a power of two below 2^31 stays within 2^31. */
  lemma Doubling(s: nat)
    requires IsPow2(s) && s < 2 * MAX_SIZE
    ensures IsPow2(2 * s) && 2 * s <= 2 * MAX_SIZE
  {
    MaxIsPow2();
    Pow2Gap(s, 2 * MAX_SIZE);
  }

  lemma {:induction false} Pow2Product(a: nat, b: nat)
    requires IsPow2(a) && IsPow2(b)
    ensures IsPow2(a * b)
    decreases a
  {
    if a > 1 {
      Pow2Product(a / 2, b);
      assert a * b == 2 * (a / 2 * b);
    }
  }

  lemma MaxIsPow2()
    ensures IsPow2(2 * MAX_SIZE)
  {
    assert IsPow2(16) && IsPow2(8);
    Pow2Product(16, 16);
    Pow2Product(256, 256);
    Pow2Product(256, 16);
    Pow2Product(4096, 8);
    Pow2Product(65536, 32768);
  }
}
