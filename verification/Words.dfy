/** 64-bit unsigned words: the wrap-around of `std::size_t` / `std::uint64_t` arithmetic,
    and masking by a power of two, reduced to remainders. */
module Words {

  const TWO_64: int := 0x1_0000_0000_0000_0000

  type Word = n: int | 0 <= n < TWO_64

  function WrapAdd(a: Word, b: Word): Word {
    (a + b) % TWO_64
  }

  function WrapSub(a: Word, b: Word): Word {
    (a - b) % TWO_64
  }

  /** A cached total that wraps tracks the true total modulo 2^64. */
  lemma WrapTracksAdd(total: nat, r: Word)
    ensures WrapAdd(total % TWO_64, r) == (total + r) % TWO_64
  {
  }

  lemma WrapTracksSub(total: nat, r: Word)
    ensures WrapSub((total + r) % TWO_64, r) == total % TWO_64
  {
  }

  function Min(a: int, b: int): (m: int)
  {
    if b < a then b else a
  }

  /** Bitwise "and" on unbounded naturals, bit by bit. */
  function BitAnd(a: nat, b: nat): nat {
    if a == 0 || b == 0 then 0
    else (if a % 2 == 1 && b % 2 == 1 then 1 else 0) + 2 * BitAnd(a / 2, b / 2)
  }

  /** `std::has_single_bit`. */
  predicate HasSingleBit(n: nat) {
    n == 1 || (n != 0 && n % 2 == 0 && HasSingleBit(n / 2))
  }

  lemma {:induction false} AndZero(a: nat)
    ensures BitAnd(a, 0) == 0 && BitAnd(0, a) == 0
  {
  }

  /** Splitting off the lowest bit commutes with taking the remainder by an even number. */
  lemma HalveRemainder(x: nat, k: nat)
    requires k > 0
    ensures x % (2 * k) == x % 2 + 2 * ((x / 2) % k)
  {
    var h := x / 2;
    var q, r := h / k, h % k;
    assert h == k * q + r;
    assert x == 2 * h + x % 2;
    var m := x % 2 + 2 * r;
    assert x == (2 * k) * q + m by {
      assert 2 * (k * q) == (2 * k) * q;
    }
    assert 0 <= m < 2 * k;
    RemainderUnique(x, 2 * k, q, m);
  }

  lemma RemainderUnique(x: int, m: int, q: int, r: int)
    requires m > 0 && x == m * q + r && 0 <= r < m
    ensures x % m == r && x / m == q
  {
    var q', r' := x / m, x % m;
    Quotient(x, m);
    Distribute(m, q, q');
    if q > q' {
      ScaleUp(m, q - q');
    } else if q < q' {
      ScaleUp(m, q' - q);
      Distribute(m, q', q);
    }
  }

  lemma Quotient(x: int, m: int)
    requires m > 0
    ensures x == m * (x / m) + x % m && 0 <= x % m < m
  {
  }

  lemma Distribute(m: int, a: int, b: int)
    ensures m * (a - b) == m * a - m * b
  {
  }

  lemma ScaleUp(m: int, d: int)
    requires m > 0 && d >= 1
    ensures m * d >= m
  {
    Distribute(m, d, 1);
    assert m * (d - 1) >= 0;
  }

  /** Masking with a power of two minus one is the remainder by that power. */
  lemma {:induction false} MaskIsRemainder(x: nat, capacity: nat)
    requires HasSingleBit(capacity)
    ensures BitAnd(x, capacity - 1) == x % capacity
  {
    if capacity == 1 {
      AndZero(x);
    } else {
      var k := capacity / 2;
      assert capacity - 1 == 2 * (k - 1) + 1;
      assert (capacity - 1) / 2 == k - 1 && (capacity - 1) % 2 == 1;
      MaskIsRemainder(x / 2, k);
      HalveRemainder(x, k);
      if x == 0 {
      } else {
        assert BitAnd(x, capacity - 1) == x % 2 + 2 * BitAnd(x / 2, k - 1);
      }
    }
  }

  /** The two ways the source tests for a power of two agree. */
  lemma {:induction false} SingleBitTests(n: nat)
    requires n != 0
    ensures HasSingleBit(n) <==> BitAnd(n, n - 1) == 0
  {
    if n == 1 {
      AndZero(1);
    } else if n % 2 == 0 {
      SingleBitTests(n / 2);
      assert (n - 1) / 2 == n / 2 - 1;
      assert BitAnd(n, n - 1) == 2 * BitAnd(n / 2, n / 2 - 1);
    } else {
      var h := n / 2;
      assert (n - 1) / 2 == h && (n - 1) % 2 == 0;
      assert BitAnd(n, n - 1) == 2 * BitAnd(h, h);
      AndSelf(h);
    }
  }

  lemma {:induction false} AndSelf(n: nat)
    ensures BitAnd(n, n) == n
  {
    if n != 0 {
      AndSelf(n / 2);
    }
  }

  function Pow2(k: nat): (p: nat)
    ensures p > 0
  {
    if k == 0 then 1 else 2 * Pow2(k - 1)
  }

  lemma {:induction false} PowersMultiply(a: nat, b: nat)
    ensures Pow2(a + b) == Pow2(a) * Pow2(b)
  {
    if a != 0 {
      PowersMultiply(a - 1, b);
      assert 2 * Pow2(a - 1) * Pow2(b) == 2 * (Pow2(a - 1) * Pow2(b));
    }
  }

  lemma {:induction false} SingleBitIsPower(n: nat) returns (k: nat)
    requires HasSingleBit(n)
    ensures n == Pow2(k)
  {
    if n == 1 {
      k := 0;
    } else {
      var j := SingleBitIsPower(n / 2);
      k := j + 1;
    }
  }

  lemma {:induction false} PowersGrow(a: nat, b: nat)
    requires a <= b
    ensures Pow2(a) <= Pow2(b)
  {
    if a < b {
      PowersGrow(a, b - 1);
    }
  }

  lemma Pow64()
    ensures Pow2(64) == TWO_64
  {
    assert Pow2(4) == 16;
    PowersMultiply(4, 4);
    assert Pow2(8) == 0x100;
    PowersMultiply(8, 8);
    assert Pow2(16) == 0x1_0000;
    PowersMultiply(16, 16);
    assert Pow2(32) == 0x1_0000_0000;
    PowersMultiply(32, 32);
  }

  /** Every power of two that fits a word divides 2^64. */
  lemma SingleBitDivides(n: nat) returns (q: nat)
    requires HasSingleBit(n) && n < TWO_64
    ensures TWO_64 == n * q
  {
    var k := SingleBitIsPower(n);
    Pow64();
    if k > 64 {
      PowersGrow(64, k);
    }
    PowersMultiply(k, 64 - k);
    q := Pow2(64 - k);
  }

  /** Distance walked forward from one slot to another round a table of `capacity` slots. */
  function Dist(capacity: nat, from: nat, to: nat): nat
    requires from < capacity && to < capacity
  {
    if from <= to then to - from else to + capacity - from
  }

  function NextSlot(capacity: nat, i: nat): (next: nat)
    requires i < capacity
    ensures next < capacity
  {
    if i + 1 == capacity then 0 else i + 1
  }

  lemma OneFurther(capacity: nat, from: nat, at: nat)
    requires from < capacity && at < capacity && Dist(capacity, from, at) + 1 < capacity
    ensures Dist(capacity, from, NextSlot(capacity, at)) == Dist(capacity, from, at) + 1
  {
  }

  /** `(index + 1) & mask` is the cyclic successor. */
  lemma MaskedSuccessor(capacity: Word, i: nat)
    requires HasSingleBit(capacity) && i < capacity
    ensures BitAnd(i + 1, capacity - 1) == NextSlot(capacity, i)
  {
    MaskIsRemainder(i + 1, capacity);
    if i + 1 == capacity {
      RemainderUnique(i + 1, capacity, 1, 0);
    } else {
      RemainderUnique(i + 1, capacity, 0, i + 1);
    }
  }

  lemma Regroup(c: int, q: int, d: int, e: int)
    ensures c * (q * d + e) == (c * q) * d + c * e
  {
    assert c * (q * d + e) == c * (q * d) + c * e;
  }

  /** Masking a word that wrapped modulo 2^64 is the remainder of the unwrapped integer. */
  lemma MaskedWrap(capacity: Word, x: int)
    requires HasSingleBit(capacity)
    ensures BitAnd(x % TWO_64, capacity - 1) == x % capacity
  {
    MaskIsRemainder(x % TWO_64, capacity);
    var q := SingleBitDivides(capacity);
    var w, d := x % TWO_64, x / TWO_64;
    var e, r := w / capacity, w % capacity;
    Quotient(x, TWO_64);
    Quotient(w, capacity);
    Regroup(capacity, q, d, e);
    RemainderUnique(x, capacity, q * d + e, r);
  }

  /** `(to - from) & mask` is the forward distance, wrap-around of the subtraction included. */
  lemma MaskedDistance(capacity: Word, from: nat, to: nat)
    requires HasSingleBit(capacity) && from < capacity && to < capacity
    ensures BitAnd(WrapSub(to, from), capacity - 1) == Dist(capacity, from, to)
  {
    MaskedWrap(capacity, to - from);
    if from <= to {
      RemainderUnique(to - from, capacity, 0, to - from);
    } else {
      RemainderUnique(to - from, capacity, -1, to + capacity - from);
    }
  }
}
