/** The bit tricks of the circular buffer: bitwise and, powers of two, masks and 32-bit wrap-around. */
module Bits {

  /** Bitwise `a & b` on unsigned values of any width. */
  function And(a: nat, b: nat): nat {
    if a == 0 || b == 0 then 0 else 2 * And(a / 2, b / 2) + (if a % 2 == 1 && b % 2 == 1 then 1 else 0)
  }

  function Pow2(k: nat): (r: nat)
    ensures r >= 1
  {
    if k == 0 then 1 else 2 * Pow2(k - 1)
  }

  /** `size_t` is 32 bits wide on the target. */
  const WIDTH: nat := 32

  /** Subtraction of unsigned 32-bit values. */
  function Sub(a: int, b: int): (r: nat) {
    (a - b) % Pow2(WIDTH)
  }

  /** The macro `ciaaLibs_isPowerOfTwo`. */
  predicate IsPowerOfTwo(num: nat) {
    num != 0 && And(num, num - 1) == 0
  }

  lemma {:induction false} AndSelf(a: nat)
    ensures And(a, a) == a
  {
    if a == 0 {
    } else {
      AndSelf(a / 2);
      assert a == 2 * (a / 2) + a % 2;
    }
  }

  /** The macro holds for the powers of two and for nothing else. */
  lemma {:induction false} IsPowerOfTwoIff(num: nat)
    ensures IsPowerOfTwo(num) <==> exists k: nat :: num == Pow2(k)
  {
    if num == 0 {
    } else if num % 2 == 1 {
      OddPowerOfTwo(num);
    } else {
      IsPowerOfTwoIff(num / 2);
      EvenPowerOfTwo(num);
      HalfOfPower(num);
    }
  }

  lemma {:induction false} HalfOfPower(num: nat)
    requires num > 0 && num % 2 == 0
    ensures (exists k: nat :: num == Pow2(k)) <==> exists k: nat :: num / 2 == Pow2(k)
  {
    if k: nat :| num / 2 == Pow2(k) {
      assert num == Pow2(k + 1);
    }
    if k: nat :| num == Pow2(k) {
      assert k > 0;
      assert num / 2 == Pow2(k - 1);
    }
  }

  lemma {:induction false} EvenPowerOfTwo(num: nat)
    requires num > 0 && num % 2 == 0
    ensures IsPowerOfTwo(num) <==> IsPowerOfTwo(num / 2)
  {
    assert (num - 1) / 2 == num / 2 - 1;
  }

  lemma {:induction false} OddPowerOfTwo(num: nat)
    requires num % 2 == 1
    ensures IsPowerOfTwo(num) <==> num == 1
    ensures num == 1 <==> exists k: nat :: num == Pow2(k)
  {
    assert num == 1 ==> num == Pow2(0);
    assert forall k: nat :: num == Pow2(k) ==> k == 0;
    assert (num - 1) / 2 == num / 2;
    AndSelf(num / 2);
  }

  // ---------------------------------------------------------------- remainders

  lemma {:induction false} MulSign(d: int, n: nat)
    ensures d >= 1 ==> d * n >= n
    ensures d <= -1 ==> d * n <= -(n as int)
    decreases if d < 0 then -d else d
  {
    if d > 1 {
      MulSign(d - 1, n);
      assert d * n == (d - 1) * n + n;
    } else if d < -1 {
      MulSign(d + 1, n);
      assert d * n == (d + 1) * n - n;
    }
  }

  lemma {:induction false} SmallMultiple(d: int, n: nat)
    requires n > 0 && -(n as int) < d * n < n
    ensures d == 0
  {
    MulSign(d, n);
  }

  lemma {:induction false} ModUnique(x: int, n: nat, q: int, r: int)
    requires 0 <= r < n && x == q * n + r
    ensures x % n == r
  {
    var d := x / n - q;
    assert x == (x / n) * n + x % n;
    assert d * n == (x / n) * n - q * n;
    SmallMultiple(d, n);
  }

  lemma {:induction false} ModOfMod(x: int, n: nat, m: nat)
    requires n > 0 && m > 0
    ensures m * n > 0 && x % (m * n) % n == x % n
  {
    assert m * n > 0;
    var w := m * n;
    var q, y := x / w, x % w;
    var p, r := y / n, y % n;
    assert q * w == (q * m) * n;
    assert x == (q * m) * n + p * n + r;
    assert (q * m) * n + p * n == (q * m + p) * n;
    ModUnique(x, n, q * m + p, r);
  }

  lemma {:induction false} Pow2Step(a: nat)
    requires a > 0
    ensures Pow2(a) == 2 * Pow2(a - 1)
  {
  }

  /** Masking with a power of two minus one is the remainder. */
  lemma {:induction false} AndMask(x: nat, k: nat)
    ensures And(x, Pow2(k) - 1) == x % Pow2(k)
  {
    if k == 0 {
    } else {
      var m := Pow2(k - 1);
      Pow2Step(k);
      AndMask(x / 2, k - 1);
      AndOdd(x, m);
      TwiceMod(x, m);
      assert x % Pow2(k) == x % (2 * m);
    }
  }

  lemma {:induction false} AndOdd(x: nat, m: nat)
    requires m > 0
    ensures And(x, 2 * m - 1) == 2 * And(x / 2, m - 1) + x % 2
  {
    assert (2 * m - 1) / 2 == m - 1 && (2 * m - 1) % 2 == 1;
  }

  lemma {:induction false} TwiceMod(x: nat, m: nat)
    requires m > 0
    ensures x % (2 * m) == 2 * ((x / 2) % m) + x % 2
  {
    var q, r := x / 2 / m, (x / 2) % m;
    assert x / 2 == q * m + r;
    assert x == q * (2 * m) + (2 * r + x % 2);
    ModUnique(x, 2 * m, q, 2 * r + x % 2);
  }

  lemma {:induction false} MulDouble(p: nat, q: nat)
    ensures p * (2 * q) == 2 * (p * q)
  {
  }

  lemma {:induction false} Pow2Split(a: nat, b: nat)
    requires a <= b
    ensures Pow2(b) == Pow2(b - a) * Pow2(a)
  {
    if a == 0 {
    } else {
      Pow2Split(a - 1, b - 1);
      Pow2Step(a);
      Pow2Step(b);
      MulDouble(Pow2(b - a), Pow2(a - 1));
    }
  }

  lemma {:induction false} Pow2Grows(a: nat, b: nat)
    requires a <= b
    ensures Pow2(a) <= Pow2(b)
    decreases b
  {
    if a == b {
    } else {
      Pow2Grows(a, b - 1);
    }
  }

  /** Unsigned wrap-around does not disturb a remainder by a smaller power of two. */
  lemma {:induction false} WrapThenMask(x: int, k: nat)
    requires k <= WIDTH
    ensures And(x % Pow2(WIDTH), Pow2(k) - 1) == x % Pow2(k)
  {
    AndMask(x % Pow2(WIDTH), k);
    Pow2Split(k, WIDTH);
    ModOfMod(x, Pow2(k), Pow2(WIDTH - k));
  }

  lemma {:induction false} SubTwice(x: int, y: int)
    ensures Sub(Sub(x, y), 1) == (x - y - 1) % Pow2(WIDTH)
  {
    ModOfSum(x - y, -1, Pow2(WIDTH));
  }

  lemma {:induction false} ModOfSum(x: int, d: int, n: int)
    requires n > 0
    ensures (x % n + d) % n == (x + d) % n
  {
    var q, y := x / n, x % n + d;
    var p, r := y / n, y % n;
    assert x + d == q * n + p * n + r;
    assert q * n + p * n == (q + p) * n;
    ModUnique(x + d, n, q + p, r);
  }
}
