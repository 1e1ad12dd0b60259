/** The arithmetic of `buffer::circle`: masks, wrapping positions in `size_t` and
    `int`, and how far writes get that measure their chunks from the tail. */
module RingArithmetic {
  import opened Bytes

  // ---------- masks ----------

  function Pow2(k: nat): (n: nat)
    ensures n > 0
  {
    if k == 0 then 1 else 2 * Pow2(k - 1)
  }

  lemma {:induction false} Pow2Sum(a: nat, b: nat)
    ensures Pow2(a + b) == Pow2(a) * Pow2(b)
  {
    if a > 0 {
      Pow2Sum(a - 1, b);
    }
  }

  lemma {:induction false} Pow2Grows(a: nat, b: nat)
    requires a <= b
    ensures Pow2(a) <= Pow2(b)
  {
    if a < b {
      Pow2Grows(a, b - 1);
    }
  }

  /** `a & b` */
  function And(a: nat, b: nat): nat {
    if a == 0 || b == 0 then 0 else Min(a % 2, b % 2) + 2 * And(a / 2, b / 2)
  }

  /** A mask of ones takes the remainder. */
  lemma {:induction false} AndIsMod(n: nat, k: nat, s: nat)
    requires s == Pow2(k)
    ensures And(n, s - 1) == n % s
    decreases k
  {
    if n == 0 {
      RemainderIs(0, s, 0, 0);
    } else if k > 0 {
      var h := Pow2(k - 1);
      AndIsMod(n / 2, k - 1, h);
      AndStep(n, h);
      TwiceRemainder(n, h);
    }
  }

  lemma AndStep(n: nat, s: nat)
    requires n > 0 && s > 0
    ensures And(n, 2 * s - 1) == n % 2 + 2 * And(n / 2, s - 1)
  {
  }

  lemma TwiceRemainder(n: nat, s: nat)
    requires s > 0
    ensures n % (2 * s) == n % 2 + 2 * (n / 2 % s)
  {
    var h := n / 2;
    var q, r := h / s, h % s;
    assert h == q * s + r;
    Twice(q, s);
    RemainderIs(n, 2 * s, q, 2 * r + n % 2);
  }

  lemma Twice(q: int, s: int)
    ensures q * (2 * s) == 2 * (q * s)
  {
  }

  lemma RemainderIs(x: int, s: nat, q: int, r: nat)
    requires x == q * s + r && r < s
    ensures x % s == r && x / s == q
  {
    var p := x / s - q;
    Apart(p, s);
    assert p * s == x / s * s - q * s;
  }

  lemma Apart(p: int, s: nat)
    ensures p >= 1 ==> p * s >= s
    ensures p <= -1 ==> p * s + s <= 0
  {
  }

  /** A factor of the modulus may be taken first. */
  lemma RemainderOfRemainder(x: int, m: nat, s: nat, k: nat)
    requires m == s * k && s > 0 && k > 0
    ensures m > 0 && x % m % s == x % s
  {
    Apart(k, s);
    var r := x % m;
    var p, q := x / m, r / s;
    assert x == p * m + r && r == q * s + r % s;
    Distribute(p, k, q, s);
    RemainderIs(x, s, p * k + q, r % s);
  }

  lemma Distribute(p: int, k: int, q: int, s: int)
    ensures (p * k + q) * s == p * (s * k) + q * s
  {
  }

  lemma {:induction false} Pow2Values()
    ensures Pow2(30) == 0x4000_0000 && Pow2(31) == 0x8000_0000 && Pow2(32) == TWO_TO_THE_32 && Pow2(64) == TWO_TO_THE_64
  {
    assert Pow2(8) == 256;
    Pow2Sum(8, 8);
    Pow2Sum(16, 8);
    Pow2Sum(24, 6);
    Pow2Sum(30, 1);
    Pow2Sum(16, 16);
    Pow2Sum(32, 32);
  }

  /** A ring size: a power of two, small enough for the code's `int` arithmetic. */
  predicate RingSize(size: nat) {
    exists k: nat :: k <= 30 && size == Pow2(k)
  }

  lemma RingSizeDivides(size: nat)
    requires RingSize(size)
    ensures 0 < size <= 0x4000_0000
    ensures forall x: int :: x % TWO_TO_THE_32 % size == x % size
    ensures forall x: int :: x % TWO_TO_THE_64 % size == x % size
  {
    Pow2Values();
    var k: nat :| k <= 30 && size == Pow2(k);
    Pow2Grows(k, 30);
    Pow2Sum(k, 32 - k);
    Pow2Sum(k, 64 - k);
    forall x: int ensures x % TWO_TO_THE_32 % size == x % size {
      RemainderOfRemainder(x, TWO_TO_THE_32, size, Pow2(32 - k));
    }
    forall x: int ensures x % TWO_TO_THE_64 % size == x % size {
      RemainderOfRemainder(x, TWO_TO_THE_64, size, Pow2(64 - k));
    }
  }

  lemma RingSizeGrows(size: nat)
    requires RingSize(size) && 4 * size <= 0x4000_0000
    ensures RingSize(4 * size)
  {
    Pow2Values();
    var k: nat :| k <= 30 && size == Pow2(k);
    assert Pow2(k + 2) == 2 * Pow2(k + 1);
    if k + 2 > 30 {
      Pow2Grows(31, k + 2);
    }
  }

  /** A `size_t` value masked with the ring size less one. */
  function Masked(x: int, size: nat): nat
    requires size > 0
  {
    And(x % TWO_TO_THE_64, size - 1)
  }

  lemma MaskedIs(x: int, size: nat)
    requires RingSize(size)
    ensures Masked(x, size) == x % size
  {
    RingSizeDivides(size);
    var k: nat :| k <= 30 && size == Pow2(k);
    AndIsMod(x % TWO_TO_THE_64, k, size);
  }

  /** The remainder of a sum of remainders. */
  lemma SumRemainder(x: int, y: int, size: nat, q: int, r: nat)
    requires r < size && x % size + y == q * size + r
    ensures (x + y) % size == r
  {
    var p := x / size;
    assert (p + q) * size == p * size + q * size;
    RemainderIs(x + y, size, p + q, r);
  }

  // ---------- positions ----------

  /** The place `i` steps behind `head`. */
  function At(head: nat, i: nat, size: nat): (p: nat)
    requires head < size && i <= size
    ensures p < size
  {
    if head + i < size then head + i else head + i - size
  }

  lemma AtIsRemainder(head: nat, i: nat, size: nat)
    requires head < size && i <= size
    ensures (head + i) % size == At(head, i, size)
  {
    RemainderIs(head + i, size, if head + i < size then 0 else 1, At(head, i, size));
  }

  /** `get_count` of the code: the steps from `head` to `tail`. */
  function CountBetween(head: nat, tail: int, size: nat): nat
    requires size > 0
  {
    Masked(tail - head, size)
  }

  /** The tail may have left the ring: only its remainder says where it is. */
  lemma CountBetweenIs(head: nat, i: nat, n: nat, tail: int, size: nat)
    requires RingSize(size) && head < size && i <= n < size && tail % size == At(head, n, size)
    ensures CountBetween(At(head, i, size), tail, size) == n - i
  {
    var h: int, t: int := At(head, i, size), At(head, n, size);
    MaskedIs(tail - h, size);
    SumRemainder(tail, -h, size, if t >= h then 0 else -1, n - i);
  }

  lemma OneLess(q: int, s: int)
    ensures (q - 1) * s == q * s - s && (q + 1) * s == q * s + s
  {
  }

  lemma TailForth(head: nat, n: nat, tail: nat, count: nat, size: nat)
    requires RingSize(size) && head < size && n + count < size && tail % size == At(head, n, size)
    ensures (tail + count) % TWO_TO_THE_64 % size == At(head, n + count, size)
  {
    ForthPlace(head, n, tail, count, size);
    FactorOutSize(tail + count, size);
  }

  lemma ForthPlace(head: nat, n: nat, tail: nat, count: nat, size: nat)
    requires head < size && n + count < size && tail % size == At(head, n, size)
    ensures (tail + count) % size == At(head, n + count, size)
  {
    SumRemainder(tail, count, size, if At(head, n, size) + count < size then 0 else 1, At(head, n + count, size));
  }

  /** Taking bytes off the back moves the tail, modulo 2^64, even out of the ring. */
  lemma TailBack(head: nat, n: nat, tail: nat, count: nat, size: nat)
    requires RingSize(size) && head < size && n < size && tail % size == At(head, n, size)
    requires count % TWO_TO_THE_32 <= n
    requires size <= 0x4000_0000 && (size - 1 - tail) % TWO_TO_THE_32 + n <= 2 * size - 2
    ensures var back := (tail - count) % TWO_TO_THE_64;
            && back % size == At(head, n - count % TWO_TO_THE_32, size)
            && (size - 1 - back) % TWO_TO_THE_32 + (n - count % TWO_TO_THE_32) <= 2 * size - 2
  {
    BackRemainder(tail, count, size);
    BackPlace(head, n, tail, count % TWO_TO_THE_32, size);
    BackEnd(tail, count, size);
  }

  lemma BackPlace(head: nat, n: nat, tail: nat, r: nat, size: nat)
    requires head < size && r <= n < size && tail % size == At(head, n, size)
    ensures (tail - r) % size == At(head, n - r, size)
  {
    var back: int := -1 * r;
    SumRemainder(tail, back, size, if At(head, n, size) >= r then 0 else -1, At(head, n - r, size));
  }

  lemma BackRemainder(tail: nat, count: nat, size: nat)
    requires RingSize(size)
    ensures (tail - count) % TWO_TO_THE_64 % size == (tail - count % TWO_TO_THE_32) % size
  {
    var x, y := tail - count, tail - count % TWO_TO_THE_32;
    FactorOut(x, size);
    FactorOut(y, size);
    SameLow(tail, count);
  }

  lemma SameLow(tail: int, count: int)
    ensures (tail - count) % TWO_TO_THE_32 == (tail - count % TWO_TO_THE_32) % TWO_TO_THE_32
  {
  }

  lemma FactorOutSize(x: int, size: nat)
    requires RingSize(size)
    ensures x % TWO_TO_THE_64 % size == x % size
  {
    FactorOut(x, size);
  }

  lemma FactorOut(x: int, size: nat)
    requires RingSize(size)
    ensures x % TWO_TO_THE_32 % size == x % size && x % TWO_TO_THE_64 % size == x % size
  {
    RingSizeDivides(size);
  }

  lemma BackEnd(tail: nat, count: nat, size: nat)
    requires (size - 1 - tail) % TWO_TO_THE_32 + count % TWO_TO_THE_32 < TWO_TO_THE_32
    ensures (size - 1 - (tail - count) % TWO_TO_THE_64) % TWO_TO_THE_32
            == (size - 1 - tail) % TWO_TO_THE_32 + count % TWO_TO_THE_32
  {
    var x, a := tail - count, size - 1;
    assert x % TWO_TO_THE_64 == x - x / TWO_TO_THE_64 * TWO_TO_THE_32 * TWO_TO_THE_32;
    assert (a - x % TWO_TO_THE_64) % TWO_TO_THE_32 == (a - x) % TWO_TO_THE_32;
    assert (a - x) % TWO_TO_THE_32 == ((a - tail) % TWO_TO_THE_32 + count % TWO_TO_THE_32) % TWO_TO_THE_32;
  }

  /** `get_space` of the code: the steps from behind the tail round to the head. */
  lemma SpaceIs(head: nat, n: nat, tail: nat, size: nat)
    requires RingSize(size) && head < size && n < size && tail % size == At(head, n, size)
    ensures CountBetween(tail + 1, head, size) == size - 1 - n
  {
    var x := tail - head;
    CountBetweenIs(head, 0, n, tail, size);
    MaskedIs(x, size);
    MaskedIs(-x - 1, size);
    OneMore(-x - 1, size);
    LastLess(x, size);
    assert size - 1 - x == -x - 1 + size;
  }

  /** `get_continguious_count` */
  function ContiguousCount(h: nat, tail: int, size: nat): int
    requires size > 0
  {
    var end := size - h;
    var n := Masked(tail + end, size);
    if n < end then n else end
  }

  lemma ContiguousCountIs(head: nat, i: nat, n: nat, tail: int, size: nat)
    requires RingSize(size) && head < size && i <= n < size && tail % size == At(head, n, size)
    ensures var h := At(head, i, size); ContiguousCount(h, tail, size) == Min(n - i, size - h)
  {
    var h := At(head, i, size);
    CountBetweenIs(head, i, n, tail, size);
    MaskedIs(tail - h, size);
    MaskedIs(tail + (size - h), size);
    OneMore(tail - h, size);
  }

  lemma OneMore(x: int, size: nat)
    requires size > 0
    ensures (x + size) % size == x % size
  {
    OneLess(x / size, size);
    RemainderIs(x + size, size, x / size + 1, x % size);
  }

  /** `int end = size - 1 - tail` */
  function End(tail: int, size: nat): int {
    IntCast((size - 1 - tail) % TWO_TO_THE_64)
  }

  /** `get_continguious_space`.  The code computes `end` from the tail and the free
      steps from the tail round to `h`. */
  function ContiguousSpace(h: nat, tail: int, size: nat): nat
    requires size > 0
  {
    Within(Masked(End(tail, size) + h, size), End(tail, size))
  }

  /** `n <= end ? n : end + 1` as a size. */
  function Within(n: nat, end: int): nat {
    if n <= end then n else (end + 1) % TWO_TO_THE_64
  }

  /** `size - 1 - tail` is not negative as an `int`. */
  predicate EndFits(tail: int, size: nat) {
    (size - 1 - tail) % TWO_TO_THE_32 <= INT_MAX
  }

  lemma EndIs(tail: int, size: nat)
    requires RingSize(size) && EndFits(tail, size)
    ensures var end := End(tail, size);
            && size - 1 - tail % size <= end <= INT_MAX && end % size == size - 1 - tail % size
            && (0 <= tail < size ==> end == size - 1 - tail)
  {
    EndTruncated(tail, size);
    LastLess(tail, size);
    AtLeastRemainder(End(tail, size), size);
  }

  lemma EndTruncated(tail: int, size: nat)
    requires RingSize(size) && EndFits(tail, size)
    ensures var x, end := size - 1 - tail, End(tail, size);
            0 <= end <= INT_MAX && end % size == x % size && (0 <= tail < size ==> end == x)
  {
    var x := size - 1 - tail;
    EndIsLow(tail, size);
    FactorOut(x, size);
    if 0 <= tail < size {
      RingSizeSmall(size);
      SmallRemainder(x);
    }
  }

  lemma RingSizeSmall(size: nat)
    requires RingSize(size)
    ensures size < TWO_TO_THE_32
  {
    RingSizeDivides(size);
  }

  lemma EndIsLow(tail: int, size: nat)
    requires EndFits(tail, size)
    ensures 0 <= End(tail, size) == (size - 1 - tail) % TWO_TO_THE_32 <= INT_MAX
  {
    LowOfLow(size - 1 - tail);
  }

  lemma LowOfLow(x: int)
    ensures x % TWO_TO_THE_64 % TWO_TO_THE_32 == x % TWO_TO_THE_32
  {
  }

  lemma SmallRemainder(x: nat)
    requires x < TWO_TO_THE_32
    ensures x % TWO_TO_THE_32 == x
  {
  }

  lemma AtLeastRemainder(x: nat, size: nat)
    requires size > 0
    ensures x >= x % size
  {
  }

  lemma LastLess(tail: int, size: nat)
    requires size > 0
    ensures (size - 1 - tail) % size == size - 1 - tail % size
  {
    var q := tail / size;
    assert tail == q * size + tail % size;
    assert -q * size == -(q * size);
    RemainderIs(size - 1 - tail, size, -q, size - 1 - tail % size);
  }

  /** From the place behind the tail round to `h`, `d` bytes before the tail. */
  lemma FreeSteps(end: nat, h: nat, t: nat, d: nat, size: nat)
    requires h < size && t < size && d < size && end % size == size - 1 - t
    requires t == h + d || t + size == h + d
    ensures (end + h) % size == size - 1 - d
  {
    SumRemainder(end, h, size, if h <= t then 0 else 1, size - 1 - d);
  }

  lemma WithinIs(n: nat, end: nat)
    requires end <= INT_MAX
    ensures Within(n, end) == Min(n, end + 1)
  {
  }

  /** Asked at a position, it gives the steps that neither the bytes from there on
      nor the one free place take up, within `end`: it does not depend on what the
      array has behind the position. */
  lemma ContiguousSpaceIs(head: nat, i: nat, n: nat, tail: int, size: nat)
    requires RingSize(size) && head < size && i <= n < size && tail % size == At(head, n, size)
    requires EndFits(tail, size)
    ensures ContiguousSpace(At(head, i, size), tail, size) == Min(size - 1 - (n - i), End(tail, size) + 1)
  {
    EndIs(tail, size);
    var h, end := At(head, i, size), End(tail, size);
    MaskedIs(end + h, size);
    FreeSteps(end, h, At(head, n, size), n - i, size);
    WithinIs(size - 1 - (n - i), end);
  }

  // ---------- writes that measure their chunks from the tail ----------

  /** Chunks of `n`, `2 n`, `4 n`, ... bytes fill exactly `room` bytes. */
  predicate Lands(n: nat, room: nat)
    decreases room
  {
    room == 0 || (0 < n <= room && Lands(2 * n, room - n))
  }

  lemma {:induction false} LandsIff(n: nat, room: nat)
    requires n > 0
    ensures Lands(n, room) <==> exists k: nat :: room == (Pow2(k) - 1) * n
    decreases room
  {
    if Lands(n, room) {
      var k := LandsIn(n, room);
    }
    forall k: nat | room == (Pow2(k) - 1) * n ensures Lands(n, room) {
      ChunksLand(n, room, k);
    }
  }

  lemma {:induction false} LandsIn(n: nat, room: nat) returns (k: nat)
    requires n > 0 && Lands(n, room)
    ensures room == (Pow2(k) - 1) * n
    decreases room
  {
    if room == 0 {
      k := 0;
    } else {
      var j := LandsIn(2 * n, room - n);
      k := j + 1;
      OneChunkMore(j, n);
    }
  }

  lemma {:induction false} ChunksLand(n: nat, room: nat, k: nat)
    requires n > 0 && room == (Pow2(k) - 1) * n
    ensures Lands(n, room)
    decreases k
  {
    if k > 0 {
      OneChunkMore(k - 1, n);
      Apart(Pow2(k) - 1, n);
      ChunksLand(2 * n, room - n, k - 1);
    }
  }

  lemma OneChunkMore(k: nat, n: nat)
    ensures (Pow2(k + 1) - 1) * n == (Pow2(k) - 1) * (2 * n) + n
  {
  }
}
