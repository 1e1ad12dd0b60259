/** Buffers and buffer sequences of asio, over one address space. */
module Buffers {
  import opened Bytes

  /** A pointer and a size. */
  datatype Buffer = Buffer(data: nat, size: nat)

  /** `buffer + n`: the start moves by at most the size. */
  function Offset(b: Buffer, n: nat): Buffer {
    var offset := Min(n, b.size);
    Buffer(b.data + offset, b.size - offset)
  }

  /** `asio::buffer(b, n)`: at most the first `n` bytes. */
  function First(b: Buffer, n: nat): Buffer {
    Buffer(b.data, Min(n, b.size))
  }

  function Total(bs: seq<Buffer>): nat {
    if bs == [] then 0 else bs[0].size + Total(bs[1..])
  }

  predicate InMemory(bs: seq<Buffer>, limit: nat) {
    forall i :: 0 <= i < |bs| ==> bs[i].data + bs[i].size <= limit
  }

  /** The bytes a buffer sequence stands for. */
  function Flat(m: seq<byte>, bs: seq<Buffer>): (s: seq<byte>)
    requires InMemory(bs, |m|)
    ensures |s| == Total(bs)
  {
    if bs == [] then [] else m[bs[0].data..bs[0].data + bs[0].size] + Flat(m, bs[1..])
  }

  /** The addresses of those bytes, in order. */
  function Addresses(bs: seq<Buffer>): (s: seq<nat>)
    ensures |s| == Total(bs)
  {
    if bs == [] then [] else Range(bs[0]) + Addresses(bs[1..])
  }

  function Range(b: Buffer): (s: seq<nat>)
    ensures |s| == b.size && forall i :: 0 <= i < b.size ==> s[i] == b.data + i
  {
    seq(b.size, i requires 0 <= i < b.size => b.data + i)
  }

  /** `buffer_size` over a sequence. */
  method BufferSize(bs: seq<Buffer>) returns (total: nat)
    ensures total == Total(bs)
  {
    total := 0;
    var i := 0;
    while i < |bs|
      invariant i <= |bs| && total + Total(bs[i..]) == Total(bs)
    {
      total := total + bs[i].size;
      i := i + 1;
    }
  }

  lemma {:induction false} TotalConcat(a: seq<Buffer>, b: seq<Buffer>)
    ensures Total(a + b) == Total(a) + Total(b)
  {
    if a == [] {
      assert a + b == b;
    } else {
      assert (a + b)[1..] == a[1..] + b;
      TotalConcat(a[1..], b);
    }
  }

  lemma TotalOne(bs: seq<Buffer>)
    requires |bs| == 1
    ensures Total(bs) == bs[0].size
  {
    assert Total(bs) == bs[0].size + Total(bs[1..]);
  }

  /** The bytes before buffer `i`, the buffer, and the bytes after it. */
  lemma TotalAround(bs: seq<Buffer>, i: nat)
    requires i < |bs|
    ensures Total(bs[..i + 1]) == Total(bs[..i]) + bs[i].size
    ensures Total(bs) == Total(bs[..i]) + bs[i].size + Total(bs[i + 1..])
  {
    assert bs[..i + 1] == bs[..i] + [bs[i]];
    TotalConcat(bs[..i], [bs[i]]);
    TotalOne([bs[i]]);
    assert bs == bs[..i + 1] + bs[i + 1..];
    TotalConcat(bs[..i + 1], bs[i + 1..]);
  }

  lemma TotalBefore(bs: seq<Buffer>, i: nat, j: nat)
    requires i <= j <= |bs|
    ensures Total(bs[..i]) <= Total(bs[..j]) <= Total(bs)
  {
    assert bs[..j] == bs[..i] + bs[i..j];
    TotalConcat(bs[..i], bs[i..j]);
    assert bs == bs[..j] + bs[j..];
    TotalConcat(bs[..j], bs[j..]);
  }

  lemma {:induction false} AddressIn(bs: seq<Buffer>, i: nat, o: nat)
    requires i < |bs| && o < bs[i].size
    ensures Total(bs[..i]) + o < Total(bs)
    ensures Addresses(bs)[Total(bs[..i]) + o] == bs[i].data + o
  {
    TotalAround(bs, i);
    if i > 0 {
      assert bs[..i][1..] == bs[1..][..i - 1];
      AddressIn(bs[1..], i - 1, o);
    }
  }

  /** The buffer and offset at which an address is found. */
  lemma {:induction false} AddressAt(bs: seq<Buffer>, k: nat) returns (i: nat, o: nat)
    requires k < Total(bs)
    ensures i < |bs| && o < bs[i].size && k == Total(bs[..i]) + o
    ensures Addresses(bs)[k] == bs[i].data + o
  {
    if k < bs[0].size {
      i, o := 0, k;
    } else {
      i, o := AddressAt(bs[1..], k - bs[0].size);
      assert bs[..i + 1][1..] == bs[1..][..i];
      i := i + 1;
    }
  }

  predicate Below(s: seq<nat>, limit: nat) {
    forall k :: 0 <= k < |s| ==> s[k] < limit
  }

  lemma {:induction false} AddressesInMemory(bs: seq<Buffer>, limit: nat)
    requires InMemory(bs, limit)
    ensures Below(Addresses(bs), limit)
  {
    if bs != [] {
      AddressesInMemory(bs[1..], limit);
    }
  }

  /** The flat bytes are the memory at those addresses. */
  lemma {:induction false} FlatAt(m: seq<byte>, bs: seq<Buffer>)
    requires InMemory(bs, |m|)
    ensures Below(Addresses(bs), |m|)
    ensures forall k :: 0 <= k < Total(bs) ==> Flat(m, bs)[k] == m[Addresses(bs)[k]]
  {
    if bs != [] {
      FlatAt(m, bs[1..]);
    }
  }

  /** No byte in common. */
  predicate Apart(a: Buffer, b: Buffer) {
    a.size == 0 || b.size == 0 || a.data + a.size <= b.data || b.data + b.size <= a.data
  }

  predicate AllApart(ts: seq<Buffer>, ss: seq<Buffer>) {
    forall i, j :: 0 <= i < |ts| && 0 <= j < |ss| ==> Apart(ts[i], ss[j])
  }

  predicate SelfApart(bs: seq<Buffer>) {
    forall i, j :: 0 <= i < j < |bs| ==> Apart(bs[i], bs[j])
  }

  predicate Disjoint(a: seq<nat>, b: seq<nat>) {
    forall j, k :: 0 <= j < |a| && 0 <= k < |b| ==> a[j] != b[k]
  }

  predicate Distinct(a: seq<nat>) {
    forall j, k :: 0 <= j < k < |a| ==> a[j] != a[k]
  }

  lemma AddressesApart(ts: seq<Buffer>, ss: seq<Buffer>)
    requires AllApart(ts, ss)
    ensures Disjoint(Addresses(ts), Addresses(ss))
  {
    forall j, k | 0 <= j < Total(ts) && 0 <= k < Total(ss) ensures Addresses(ts)[j] != Addresses(ss)[k] {
      var a, o := AddressAt(ts, j);
      var b, p := AddressAt(ss, k);
      assert Apart(ts[a], ss[b]);
    }
  }

  lemma AddressesDistinct(bs: seq<Buffer>)
    requires SelfApart(bs)
    ensures Distinct(Addresses(bs))
  {
    forall j, k | 0 <= j < k < Total(bs) ensures Addresses(bs)[j] != Addresses(bs)[k] {
      var a, o := AddressAt(bs, j);
      var b, p := AddressAt(bs, k);
      if a < b {
        assert Apart(bs[a], bs[b]);
      } else if b < a {
        assert Apart(bs[b], bs[a]);
      }
    }
  }

  lemma PartsApart(a: Buffer, b: Buffer, c: Buffer, d: Buffer)
    requires Apart(a, b)
    requires a.data <= c.data && c.data + c.size <= a.data + a.size
    requires b.data <= d.data && d.data + d.size <= b.data + b.size
    ensures Apart(c, d)
  {
  }

  /** Addresses `n .. n + c` follow one another, from `start`. */
  predicate Together(s: seq<nat>, n: nat, c: nat, start: nat) {
    n + c <= |s| && forall k :: n <= k < n + c ==> s[k] == start + (k - n)
  }

  lemma InsideOneBuffer(bs: seq<Buffer>, i: nat, o: nat, c: nat)
    requires i < |bs| && o + c <= bs[i].size
    ensures Together(Addresses(bs), Total(bs[..i]) + o, c, bs[i].data + o)
  {
    var n := Total(bs[..i]) + o;
    TotalAround(bs, i);
    forall k | n <= k < n + c ensures Addresses(bs)[k] == bs[i].data + o + (k - n) {
      AddressIn(bs, i, o + (k - n));
    }
  }

  /** A position in a buffer sequence. */
  datatype Cursor = Cursor(index: nat, offset: nat)

  /** The cursor has passed the first `done` bytes. */
  predicate CursorAt(bs: seq<Buffer>, c: Cursor, done: nat) {
    && c.index <= |bs|
    && done == Total(bs[..c.index]) + c.offset
    && (c.offset == 0 || (c.index < |bs| && c.offset < bs[c.index].size))
  }

  lemma CursorEnd(bs: seq<Buffer>, c: Cursor, done: nat)
    requires CursorAt(bs, c, done)
    ensures done <= Total(bs) && (c.index == |bs| ==> done == Total(bs))
  {
    if c.index == |bs| {
      assert bs[..c.index] == bs;
    } else {
      TotalAround(bs, c.index);
    }
  }

  /** The cursor after `n` more bytes of its buffer. */
  function Past(bs: seq<Buffer>, c: Cursor, n: nat): Cursor
    requires c.index < |bs|
  {
    if c.offset + n == bs[c.index].size then Cursor(c.index + 1, 0) else Cursor(c.index, c.offset + n)
  }

  lemma CursorMoves(bs: seq<Buffer>, c: Cursor, done: nat, n: nat)
    requires CursorAt(bs, c, done) && c.index < |bs| && c.offset + n <= bs[c.index].size
    ensures Together(Addresses(bs), done, n, bs[c.index].data + c.offset)
    ensures CursorAt(bs, Past(bs, c, n), done + n)
  {
    TotalAround(bs, c.index);
    InsideOneBuffer(bs, c.index, c.offset, n);
  }
}
