/** The fixed-width integers of the C++ side, and the few laws of `/` and `%` the other modules share. */
module MachineInts {

  const U8_RANGE: nat := 0x100
  const U32_RANGE: nat := 0x1_0000_0000
  const U64_RANGE: nat := 0x1_0000_0000_0000_0000

  type uint8 = x: int | 0 <= x < 0x100
  type uint32 = x: int | 0 <= x < 0x1_0000_0000
  type uint64 = x: int | 0 <= x < 0x1_0000_0000_0000_0000
  type int32 = x: int | -0x8000_0000 <= x < 0x8000_0000

  datatype Option<+T> = None | Some(value: T)

  /** Conversion to a 32-bit two's-complement integer. */
  function ToInt32(x: int): (r: int32)
    ensures r % U32_RANGE == x % U32_RANGE
  {
    var m := x % U32_RANGE;
    if m < 0x8000_0000 then m else m - U32_RANGE
  }

  lemma MulBounds(d: int, n: int)
    requires 0 < n
    ensures d >= 1 ==> d * n >= n
    ensures d <= -1 ==> d * n <= -n
    ensures d == 0 ==> d * n == 0
  {
  }

  /** `x` is `q * n + r` with a remainder in range, so `q` and `r` are its quotient and remainder. */
  lemma DivModUnique(x: int, n: int, q: int, r: int)
    requires 0 < n && 0 <= r < n && x == q * n + r
    ensures x / n == q && x % n == r
  {
    var d := x / n - q;
    assert x == (x / n) * n + x % n;
    assert d * n == r - x % n;
    MulBounds(d, n);
  }

  lemma ModStep(x: int, n: int)
    requires 0 < n
    ensures (x + n) % n == x % n && (x - n) % n == x % n
  {
    var q, r := x / n, x % n;
    assert x == q * n + r;
    assert x + n == (q + 1) * n + r;
    assert x - n == (q - 1) * n + r;
    DivModUnique(x + n, n, q + 1, r);
    DivModUnique(x - n, n, q - 1, r);
  }

  lemma ModAddMultiple(x: int, k: int, n: int)
    requires 0 < n
    ensures (x + k * n) % n == x % n
  {
    var q, r := x / n, x % n;
    assert x + k * n == (q + k) * n + r by {
      assert (q + k) * n == q * n + k * n;
    }
    DivModUnique(x + k * n, n, q + k, r);
  }

  lemma ModSucc(x: int, n: int)
    requires 0 < n
    ensures (x + 1) % n == if x % n + 1 == n then 0 else x % n + 1
  {
    var q, r := x / n, x % n;
    assert x == q * n + r;
    if r + 1 == n {
      assert x + 1 == (q + 1) * n;
      DivModUnique(x + 1, n, q + 1, 0);
    } else {
      DivModUnique(x + 1, n, q, r + 1);
    }
  }

  /** A sum may be reduced on the way. */
  lemma ModAddMod(x: int, y: int, n: int)
    requires 0 < n
    ensures (x % n + y) % n == (x + y) % n
  {
    assert x == (x / n) * n + x % n;
    ModAddMultiple(x % n + y, x / n, n);
  }

  lemma ModSmall(x: int, n: int)
    requires 0 <= x < n
    ensures x % n == x
  {
    DivModUnique(x, n, 0, x);
  }

  lemma ModAtMost(x: int, n: int)
    requires 0 <= x && 0 < n
    ensures x % n <= x
  {
    assert x == (x / n) * n + x % n;
    if x / n < 0 {
      MulBounds(x / n, n);
    }
  }

  /** Adding `a` leaves the remainder alone exactly when `n` divides `a`. */
  lemma ModAddCancels(x: int, a: int, n: int)
    requires 0 < n
    ensures (x + a) % n == x % n <==> a % n == 0
  {
    var q, r := x / n, x % n;
    if a % n == 0 {
      ModAddMultiple(x, a / n, n);
      assert a == (a / n) * n;
    }
    if (x + a) % n == x % n {
      var k := (x + a) / n - q;
      assert a == k * n by {
        assert x + a == ((x + a) / n) * n + r;
        assert k * n == ((x + a) / n) * n - q * n;
      }
      ModAddMultiple(0, k, n);
    }
  }

  /** Two numbers with the same remainder that are less than `n` apart are the same number. */
  lemma SameSlotSameIndex(i: int, j: int, n: int)
    requires 0 < n && i % n == j % n && i - n < j < i + n
    ensures i == j
  {
    var d := i / n - j / n;
    assert i - j == d * n by {
      assert i == (i / n) * n + i % n && j == (j / n) * n + j % n;
      assert d * n == (i / n) * n - (j / n) * n;
    }
    MulBounds(d, n);
  }

  /** Numbers with the same remainder differ by a multiple of `n`. */
  lemma SameSlotGap(i: int, j: int, n: int)
    requires 0 < n && i % n == j % n
    ensures (j - i) % n == 0
    ensures i < j ==> i + n <= j
  {
    var d := j / n - i / n;
    assert j - i == d * n by {
      assert i == (i / n) * n + i % n && j == (j / n) * n + j % n;
      assert d * n == (j / n) * n - (i / n) * n;
    }
    ModAddCancels(i, j - i, n);
    MulBounds(d, n);
  }
}
