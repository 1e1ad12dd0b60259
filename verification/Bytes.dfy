/** Bytes and the four-byte image of a `uint32`, as `memcpy` lays it out on a
    little-endian host. */
module Bytes {

  type byte = x: int | 0 <= x < 256

  const TWO_TO_THE_32 := 0x1_0000_0000

  const TWO_TO_THE_64 := TWO_TO_THE_32 * TWO_TO_THE_32

  type uint32 = x: int | 0 <= x < TWO_TO_THE_32

  /** `sizeof(uint32)` */
  const HEADER: nat := 4

  /** The `i`-th byte of `n`, least significant first. */
  function Digit(n: nat, i: nat): byte
    requires i < HEADER
  {
    (if i == 0 then n
     else if i == 1 then n / 256
     else if i == 2 then n / 256 / 256
     else n / 256 / 256 / 256) % 256
  }

  /** The four bytes of `uint32(n)`: of a larger number, the low ones. */
  function Encode32(n: nat): (s: seq<byte>)
    ensures |s| == HEADER
  {
    seq(HEADER, i requires 0 <= i < HEADER => Digit(n, i))
  }

  function Decode32(s: seq<byte>): uint32
    requires |s| == HEADER
  {
    var a: int, b: int, c: int, d: int := s[0], s[1], s[2], s[3];
    a + 256 * b + 65536 * c + 16777216 * d
  }

  /** Least significant byte first: the byte of n modulo 256, then those of the rest. */
  lemma LittleEndian(n: uint32)
    ensures var s := Encode32(n); s[0] == n % 256 && s[1..] == Encode32(n / 256)[..3]
    ensures Encode32(n) == [n % 256, n / 256 % 256, n / 65536 % 256, n / 16777216]
  {
    var s, t := Encode32(n), Encode32(n / 256);
    assert s[0] == Digit(n, 0) && s[1] == Digit(n, 1) && s[2] == Digit(n, 2) && s[3] == Digit(n, 3);
    assert t[0] == Digit(n / 256, 0) && t[1] == Digit(n / 256, 1) && t[2] == Digit(n / 256, 2);
    Powers(n);
    Pointwise(s[1..], t[..3]);
    Pointwise(s, [n % 256, n / 256 % 256, n / 65536 % 256, n / 16777216]);
  }

  lemma Powers(n: uint32)
    ensures n / 256 / 256 == n / 65536 && n / 256 / 256 / 256 == n / 16777216 < 256
  {
  }

  lemma DecodeEncode32(n: uint32)
    ensures Decode32(Encode32(n)) == n
  {
    var s := Encode32(n);
    assert s[0] == Digit(n, 0) && s[1] == Digit(n, 1) && s[2] == Digit(n, 2) && s[3] == Digit(n, 3);
    Digits(n, n / 256, n / 256 / 256, n / 256 / 256 / 256);
  }

  lemma Digits(n: int, x: int, y: int, z: int)
    requires 0 <= n < TWO_TO_THE_32 && x == n / 256 && y == x / 256 && z == y / 256
    ensures n == n % 256 + 256 * (x % 256) + 65536 * (y % 256) + 16777216 * (z % 256)
  {
    assert z < 256;
  }

  lemma EncodeDecode32(s: seq<byte>)
    requires |s| == HEADER
    ensures Encode32(Decode32(s)) == s
  {
    var a: int, b: int, c: int, d: int := s[0], s[1], s[2], s[3];
    var n := Decode32(s);
    Divided(a, b + 256 * c + 65536 * d);
    Divided(b, c + 256 * d);
    Divided(c, d);
    Divided(d, 0);
    assert n / 256 == b + 256 * c + 65536 * d;
    var t := Encode32(n);
    assert t[0] == Digit(n, 0) && t[1] == Digit(n, 1) && t[2] == Digit(n, 2) && t[3] == Digit(n, 3);
  }

  lemma Divided(low: int, high: int)
    requires 0 <= low < 256
    ensures (low + 256 * high) / 256 == high && (low + 256 * high) % 256 == low
  {
  }

  const INT_MAX: nat := 0x7FFF_FFFF

  /** The conversion of a size to `int`. */
  function IntCast(n: nat): int {
    var low := n % TWO_TO_THE_32;
    if low <= INT_MAX then low else low - TWO_TO_THE_32
  }

  lemma IntCastIff(n: nat)
    ensures IntCast(n) == n <==> n <= INT_MAX
  {
  }

  function Min(a: int, b: int): (m: int)
    ensures m <= a && m <= b && (m == a || m == b)
  {
    if a < b then a else b
  }

  function Max(a: int, b: int): (m: int)
    ensures m >= a && m >= b && (m == a || m == b)
  {
    if a < b then b else a
  }

  lemma ConcatAssoc<T>(a: seq<T>, b: seq<T>, c: seq<T>)
    ensures a + (b + c) == (a + b) + c
  {
  }

  lemma SplitAt<T>(s: seq<T>, n: nat)
    requires n <= |s|
    ensures s == s[..n] + s[n..]
  {
  }

  lemma SliceOfSlice<T>(s: seq<T>, i: nat, j: nat, k: nat, l: nat)
    requires i <= j <= |s| && k <= l <= j - i
    ensures s[i..j][k..l] == s[i + k..i + l]
  {
    forall x | 0 <= x < l - k ensures s[i..j][k..l][x] == s[i + k..i + l][x] {
      assert s[i..j][k + x] == s[i + k + x];
    }
  }

  /** Two equal concatenations whose first parts have equal length. */
  lemma ConcatCancel<T>(a: seq<T>, b: seq<T>, c: seq<T>, d: seq<T>)
    requires a + b == c + d && |a| == |c|
    ensures a == c && b == d
  {
    assert a == (a + b)[..|a|] && c == (c + d)[..|a|];
    assert b == (a + b)[|a|..] && d == (c + d)[|a|..];
  }

  lemma SliceOfPrefix<T>(a: seq<T>, b: seq<T>, i: nat, j: nat)
    requires i <= j <= |a|
    ensures (a + b)[i..j] == a[i..j]
  {
  }

  lemma SliceJoin<T>(s: seq<T>, i: nat, j: nat, k: nat)
    requires i <= j <= k <= |s|
    ensures s[i..j] + s[j..k] == s[i..k]
  {
  }

  lemma SliceOneMore<T>(s: seq<T>, i: nat, j: nat)
    requires i <= j < |s|
    ensures s[i..j + 1] == s[i..j] + [s[j]]
  {
  }

  lemma AppendNothing<T>(s: seq<T>)
    ensures s + [] == s
  {
  }

  lemma Spliced<T>(a: seq<T>, b: seq<T>, c: seq<T>, n: nat)
    requires |a| == |c| && n <= |a| && n <= |b|
    requires forall k :: 0 <= k < |a| ==> a[k] == if k < n then b[k] else c[k]
    ensures a == b[..n] + c[n..]
  {
  }

  lemma Pointwise<T>(a: seq<T>, b: seq<T>)
    requires |a| == |b| && forall k :: 0 <= k < |a| ==> a[k] == b[k]
    ensures a == b
  {
  }
}
