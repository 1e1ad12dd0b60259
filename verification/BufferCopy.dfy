/** `asio::buffer_copy`: bytes moved between buffer sequences. */
module BufferCopy {
  import opened Bytes
  import opened Buffers

  // ---------- the reference: one byte at a time ----------

  /** The byte at address `a` after storing, one after another, the byte at
      `from[k]` to `to[k]` for the first `n` places. */
  function ByteAt(m: seq<byte>, to: seq<nat>, from: seq<nat>, n: nat, a: nat): byte
    requires Below(to, |m|) && Below(from, |m|) && n <= |to| && n <= |from| && a < |m|
  {
    if n == 0 then m[a]
    else if to[n - 1] == a then ByteAt(m, to, from, n - 1, from[n - 1])
    else ByteAt(m, to, from, n - 1, a)
  }

  /** The whole memory after those stores. */
  function Stored(m: seq<byte>, to: seq<nat>, from: seq<nat>, n: nat): (r: seq<byte>)
    requires Below(to, |m|) && Below(from, |m|) && n <= |to| && n <= |from|
    ensures |r| == |m|
  {
    seq(|m|, a requires 0 <= a < |m| => ByteAt(m, to, from, n, a))
  }

  /** Memory after `memcpy(dst, src, n)`. */
  function Moved(m: seq<byte>, dst: nat, src: nat, n: nat): (r: seq<byte>)
    requires dst + n <= |m| && src + n <= |m|
    ensures |r| == |m|
    ensures forall a :: 0 <= a < |m| ==> r[a] == if dst <= a < dst + n then m[src + (a - dst)] else m[a]
  {
    m[..dst] + m[src..src + n] + m[dst + n..]
  }

  /** Nothing read is ever written: the bytes stored are the original ones. */
  lemma {:induction false} FromKept(m: seq<byte>, to: seq<nat>, from: seq<nat>, n: nat, k: nat)
    requires Below(to, |m|) && Below(from, |m|) && n <= |to| && n <= |from|
    requires Disjoint(to, from) && k < |from|
    ensures ByteAt(m, to, from, n, from[k]) == m[from[k]]
  {
    if n > 0 {
      FromKept(m, to, from, n - 1, k);
    }
  }

  /** Nothing is written but the first `n` target addresses. */
  lemma {:induction false} OthersKept(m: seq<byte>, to: seq<nat>, from: seq<nat>, n: nat, a: nat)
    requires Below(to, |m|) && Below(from, |m|) && n <= |to| && n <= |from|
    requires a < |m| && a !in to[..n]
    ensures ByteAt(m, to, from, n, a) == m[a]
  {
    if n > 0 {
      assert to[..n][n - 1] == to[n - 1];
      assert to[..n - 1] == to[..n][..n - 1];
      OthersKept(m, to, from, n - 1, a);
    }
  }

  lemma {:induction false} ToGets(m: seq<byte>, to: seq<nat>, from: seq<nat>, n: nat, k: nat)
    requires Below(to, |m|) && Below(from, |m|) && n <= |to| && n <= |from|
    requires Disjoint(to, from) && Distinct(to) && k < |to|
    ensures ByteAt(m, to, from, n, to[k]) == if k < n then m[from[k]] else m[to[k]]
  {
    if n > 0 {
      if k == n - 1 {
        FromKept(m, to, from, n - 1, k);
      } else {
        assert to[k] != to[n - 1];
        ToGets(m, to, from, n - 1, k);
      }
    }
  }

  lemma {:induction false} BlockAt(m: seq<byte>, to: seq<nat>, from: seq<nat>,
                                   n: nat, c: nat, dst: nat, src: nat, a: nat)
    requires Below(to, |m|) && Below(from, |m|) && dst + c <= |m| && src + c <= |m| && a < |m|
    requires Together(to, n, c, dst) && Together(from, n, c, src)
    requires Apart(Buffer(dst, c), Buffer(src, c))
    ensures ByteAt(m, to, from, n + c, a)
            == ByteAt(m, to, from, n, if dst <= a < dst + c then src + (a - dst) else a)
  {
    if c > 0 {
      BlockAt(m, to, from, n, c - 1, dst, src, a);
      BlockAt(m, to, from, n, c - 1, dst, src, src + (c - 1));
    }
  }

  /** A block of `c` bytes that lies together on both sides, copied at once, is the
      block copied byte by byte. */
  lemma CopyBlock(m: seq<byte>, to: seq<nat>, from: seq<nat>, n: nat, c: nat, dst: nat, src: nat)
    requires Below(to, |m|) && Below(from, |m|) && dst + c <= |m| && src + c <= |m|
    requires Together(to, n, c, dst) && Together(from, n, c, src)
    requires Apart(Buffer(dst, c), Buffer(src, c))
    ensures Stored(m, to, from, n + c) == Moved(Stored(m, to, from, n), dst, src, c)
  {
    var p, q := Stored(m, to, from, n + c), Moved(Stored(m, to, from, n), dst, src, c);
    forall a | 0 <= a < |p| ensures p[a] == q[a] {
      BlockAt(m, to, from, n, c, dst, src, a);
    }
    Pointwise(p, q);
  }

  /** Memory after copying the first `n` bytes that `ss` stands for to the first
      `n` that `ts` stands for. */
  function Copied(m: seq<byte>, ts: seq<Buffer>, ss: seq<Buffer>, n: nat): (r: seq<byte>)
    requires InMemory(ts, |m|) && InMemory(ss, |m|) && n <= Total(ts) && n <= Total(ss)
    ensures |r| == |m|
  {
    AddressesInMemory(ts, |m|);
    AddressesInMemory(ss, |m|);
    Stored(m, Addresses(ts), Addresses(ss), n)
  }

  /** The flat reading: the target's bytes become the source's first `n`, then its
      own; the source keeps its bytes, and so does every other address. */
  lemma CopiedFlat(m: seq<byte>, ts: seq<Buffer>, ss: seq<Buffer>, n: nat)
    requires InMemory(ts, |m|) && InMemory(ss, |m|) && n <= Total(ts) && n <= Total(ss)
    requires AllApart(ts, ss) && SelfApart(ts)
    ensures var r := Copied(m, ts, ss, n);
            && Flat(r, ts) == Flat(m, ss)[..n] + Flat(m, ts)[n..]
            && Flat(r, ss) == Flat(m, ss)
            && forall a :: 0 <= a < |m| && a !in Addresses(ts)[..n] ==> r[a] == m[a]
  {
    var r := Copied(m, ts, ss, n);
    AddressesApart(ts, ss);
    AddressesDistinct(ts);
    FlatAt(m, ts);
    FlatAt(m, ss);
    FlatAt(r, ts);
    FlatAt(r, ss);
    var to, from := Addresses(ts), Addresses(ss);
    forall k | 0 <= k < |from| ensures r[from[k]] == m[from[k]] {
      FromKept(m, to, from, n, k);
    }
    forall k | 0 <= k < |to| ensures r[to[k]] == if k < n then m[from[k]] else m[to[k]] {
      ToGets(m, to, from, n, k);
    }
    Spliced(Flat(r, ts), Flat(m, ss), Flat(m, ts), n);
    Pointwise(Flat(r, ss), Flat(m, ss));
    forall a | 0 <= a < |m| && a !in to[..n] ensures r[a] == m[a] {
      OthersKept(m, to, from, n, a);
    }
  }

  // ---------- the code ----------

  /** What the callers of `buffer_copy` owe: buffers inside memory, and no byte
      both read and written, since `memcpy` is used. */
  predicate Copyable(memory: array<byte>, ts: seq<Buffer>, ss: seq<Buffer>) {
    InMemory(ts, memory.Length) && InMemory(ss, memory.Length) && AllApart(ts, ss)
  }

  /** `buffer_copy_1` */
  method CopyOne(memory: array<byte>, t: Buffer, s: Buffer) returns (n: nat)
    requires t.data + t.size <= memory.Length && s.data + s.size <= memory.Length && Apart(t, s)
    modifies memory
    ensures n == Min(t.size, s.size)
    ensures memory[..] == Moved(old(memory[..]), t.data, s.data, n)
  {
    n := if t.size < s.size then t.size else s.size;
    forall i | 0 <= i < n {
      memory[t.data + i] := memory[s.data + i];
    }
    Pointwise(memory[..], Moved(old(memory[..]), t.data, s.data, n));
  }

  /** `part` is the next stretch of its buffer at the cursor. */
  predicate PartAt(bs: seq<Buffer>, c: Cursor, part: Buffer) {
    && c.index < |bs|
    && part.data == bs[c.index].data + c.offset
    && c.offset + part.size <= bs[c.index].size
  }

  /** `buffer_copy_1` between two cursors: one turn of a copy loop. */
  method CopyTurn(memory: array<byte>, ghost m: seq<byte>, ghost ts: seq<Buffer>, ghost ss: seq<Buffer>,
                  ghost t: Cursor, ghost s: Cursor, ghost done: nat, target: Buffer, source: Buffer) returns (c: nat)
    requires Copyable(memory, ts, ss) && |m| == memory.Length
    requires CursorAt(ts, t, done) && CursorAt(ss, s, done) && PartAt(ts, t, target) && PartAt(ss, s, source)
    requires done <= Total(ts) && done <= Total(ss) && memory[..] == Copied(m, ts, ss, done)
    modifies memory
    ensures c == Min(target.size, source.size)
    ensures CursorAt(ts, Past(ts, t, c), done + c) && CursorAt(ss, Past(ss, s, c), done + c)
    ensures done + c <= Total(ts) && done + c <= Total(ss)
    ensures memory[..] == Copied(m, ts, ss, done + c)
  {
    assert Apart(ts[t.index], ss[s.index]);
    PartsApart(ts[t.index], ss[s.index], target, source);
    c := CopyOne(memory, target, source);
    CursorMoves(ts, t, done, c);
    CursorMoves(ss, s, done, c);
    PartsApart(target, source, Buffer(target.data, c), Buffer(source.data, c));
    AddressesInMemory(ts, |m|);
    AddressesInMemory(ss, |m|);
    CopyBlock(m, Addresses(ts), Addresses(ss), done, c, target.data, source.data);
  }

  /** The body of both many-to-many loops: copy at most `room` bytes between the
      cursors and step each past what was copied. */
  method CopyAtCursors(memory: array<byte>, ghost m: seq<byte>, ts: seq<Buffer>, ss: seq<Buffer>,
                       t: Cursor, s: Cursor, ghost done: nat, room: nat)
    returns (c: nat, t': Cursor, s': Cursor)
    requires Copyable(memory, ts, ss) && |m| == memory.Length
    requires CursorAt(ts, t, done) && CursorAt(ss, s, done) && t.index < |ts| && s.index < |ss|
    requires done <= Total(ts) && done <= Total(ss) && memory[..] == Copied(m, ts, ss, done)
    modifies memory
    ensures c <= room && t.index <= t'.index && s.index <= s'.index
    ensures c == room < ss[s.index].size || t.index + s.index < t'.index + s'.index
    ensures CursorAt(ts, t', done + c) && CursorAt(ss, s', done + c)
    ensures done + c <= Total(ts) && done + c <= Total(ss)
    ensures memory[..] == Copied(m, ts, ss, done + c)
  {
    var target, source := Offset(ts[t.index], t.offset), Offset(ss[s.index], s.offset);
    c := CopyTurn(memory, m, ts, ss, t, s, done, target, First(source, room));
    t', s' := Past(ts, t, c), Past(ss, s, c);
  }

  /** `buffer_copy(multiple_buffers, multiple_buffers)` with a limit. */
  method CopyManyToMany(memory: array<byte>, ts: seq<Buffer>, ss: seq<Buffer>, limit: nat) returns (total: nat)
    requires Copyable(memory, ts, ss)
    modifies memory
    ensures total == Min(Min(Total(ts), Total(ss)), limit)
    ensures memory[..] == Copied(old(memory[..]), ts, ss, total)
  {
    ghost var m := memory[..];
    total := 0;
    var t, s := Cursor(0, 0), Cursor(0, 0);
    while total != limit && t.index != |ts| && s.index != |ss|
      invariant total <= limit && CursorAt(ts, t, total) && CursorAt(ss, s, total)
      invariant total <= Total(ts) && total <= Total(ss)
      invariant memory[..] == Copied(m, ts, ss, total)
      decreases |ts| - t.index + |ss| - s.index, limit - total
    {
      var c;
      c, t, s := CopyAtCursors(memory, m, ts, ss, t, s, total, limit - total);
      total := total + c;
    }
    CursorEnd(ts, t, total);
    CursorEnd(ss, s, total);
  }

  /** `buffer_copy(multiple_buffers, multiple_buffers)` without a limit. */
  method CopyAllManyToMany(memory: array<byte>, ts: seq<Buffer>, ss: seq<Buffer>) returns (total: nat)
    requires Copyable(memory, ts, ss)
    modifies memory
    ensures total == Min(Total(ts), Total(ss))
    ensures memory[..] == Copied(old(memory[..]), ts, ss, total)
  {
    ghost var m := memory[..];
    total := 0;
    var t, s := Cursor(0, 0), Cursor(0, 0);
    while t.index != |ts| && s.index != |ss|
      invariant CursorAt(ts, t, total) && CursorAt(ss, s, total)
      invariant total <= Total(ts) && total <= Total(ss)
      invariant memory[..] == Copied(m, ts, ss, total)
      decreases |ts| - t.index + |ss| - s.index
    {
      var c;
      c, t, s := CopyAtCursors(memory, m, ts, ss, t, s, total, ss[s.index].size);
      total := total + c;
    }
    CursorEnd(ts, t, total);
    CursorEnd(ss, s, total);
  }

  /** `buffer_copy(one_buffer, one_buffer)` with a limit. */
  method CopyOneToOne(memory: array<byte>, ts: seq<Buffer>, ss: seq<Buffer>, limit: nat) returns (n: nat)
    requires Copyable(memory, ts, ss) && |ts| == |ss| == 1
    modifies memory
    ensures n == Min(Min(Total(ts), Total(ss)), limit)
    ensures memory[..] == Copied(old(memory[..]), ts, ss, n)
  {
    TotalOne(ts);
    TotalOne(ss);
    n := CopyTurn(memory, memory[..], ts, ss, Cursor(0, 0), Cursor(0, 0), 0, ts[0], First(ss[0], limit));
  }

  /** `buffer_copy(one_buffer, one_buffer)` without a limit. */
  method CopyAllOneToOne(memory: array<byte>, ts: seq<Buffer>, ss: seq<Buffer>) returns (n: nat)
    requires Copyable(memory, ts, ss) && |ts| == |ss| == 1
    modifies memory
    ensures n == Min(Total(ts), Total(ss))
    ensures memory[..] == Copied(old(memory[..]), ts, ss, n)
  {
    TotalOne(ts);
    TotalOne(ss);
    n := CopyTurn(memory, memory[..], ts, ss, Cursor(0, 0), Cursor(0, 0), 0, ts[0], ss[0]);
  }

  lemma OneCursor(bs: seq<Buffer>, done: nat)
    requires |bs| == 1 && done < bs[0].size
    ensures CursorAt(bs, Cursor(0, done), done)
  {
  }

  /** The body of the many-to-one loop: source buffer `i` into the rest of the
      target. */
  method CopyIntoOne(memory: array<byte>, ghost m: seq<byte>, ghost ts: seq<Buffer>, ss: seq<Buffer>,
                     i: nat, ghost done: nat, target: Buffer) returns (c: nat)
    requires Copyable(memory, ts, ss) && |m| == memory.Length && |ts| == 1 && Total(ts) == ts[0].size
    requires i < |ss| && CursorAt(ss, Cursor(i, 0), done) && done <= Total(ss)
    requires target.size > 0 && target.data == ts[0].data + done && done + target.size <= ts[0].size
    requires memory[..] == Copied(m, ts, ss, done)
    modifies memory
    ensures c <= target.size && done + c <= Total(ss)
    ensures c < target.size ==> CursorAt(ss, Cursor(i + 1, 0), done + c)
    ensures memory[..] == Copied(m, ts, ss, done + c)
  {
    OneCursor(ts, done);
    c := CopyTurn(memory, m, ts, ss, Cursor(0, done), Cursor(i, 0), done, target, ss[i]);
  }

  /** The body of the one-to-many loop: the rest of the source into target buffer
      `i`. */
  method CopyFromOne(memory: array<byte>, ghost m: seq<byte>, ts: seq<Buffer>, ghost ss: seq<Buffer>,
                     i: nat, ghost done: nat, source: Buffer) returns (c: nat)
    requires Copyable(memory, ts, ss) && |m| == memory.Length && |ss| == 1 && Total(ss) == ss[0].size
    requires i < |ts| && CursorAt(ts, Cursor(i, 0), done) && done <= Total(ts)
    requires source.size > 0 && source.data == ss[0].data + done && done + source.size <= ss[0].size
    requires memory[..] == Copied(m, ts, ss, done)
    modifies memory
    ensures c <= source.size && done + c <= Total(ts)
    ensures c < source.size ==> CursorAt(ts, Cursor(i + 1, 0), done + c)
    ensures memory[..] == Copied(m, ts, ss, done + c)
  {
    OneCursor(ss, done);
    c := CopyTurn(memory, m, ts, ss, Cursor(i, 0), Cursor(0, done), done, ts[i], source);
  }

  /** `buffer_copy(one_buffer, multiple_buffers)`; the default limit is no limit. */
  method CopyManyToOne(memory: array<byte>, ts: seq<Buffer>, ss: seq<Buffer>, limit: nat) returns (total: nat)
    requires Copyable(memory, ts, ss) && |ts| == 1
    modifies memory
    ensures total == Min(Min(Total(ts), Total(ss)), limit)
    ensures memory[..] == Copied(old(memory[..]), ts, ss, total)
  {
    TotalOne(ts);
    ghost var m := memory[..];
    total := 0;
    var i := 0;
    var target := First(ts[0], limit);
    ghost var room := target.size;
    while target.size > 0 && i != |ss|
      invariant total <= room && total <= Total(ss) && i <= |ss|
      invariant target == Buffer(ts[0].data + total, room - total)
      invariant total < room ==> CursorAt(ss, Cursor(i, 0), total)
      invariant memory[..] == Copied(m, ts, ss, total)
      decreases |ss| - i
    {
      var c := CopyIntoOne(memory, m, ts, ss, i, total, target);
      total, target, i := total + c, Offset(target, c), i + 1;
    }
    if total < room {
      CursorEnd(ss, Cursor(i, 0), total);
    }
  }

  /** `buffer_copy(multiple_buffers, one_buffer)`; the default limit is no limit. */
  method CopyOneToMany(memory: array<byte>, ts: seq<Buffer>, ss: seq<Buffer>, limit: nat) returns (total: nat)
    requires Copyable(memory, ts, ss) && |ss| == 1
    modifies memory
    ensures total == Min(Min(Total(ts), Total(ss)), limit)
    ensures memory[..] == Copied(old(memory[..]), ts, ss, total)
  {
    TotalOne(ss);
    ghost var m := memory[..];
    total := 0;
    var i := 0;
    var source := First(ss[0], limit);
    ghost var room := source.size;
    while source.size > 0 && i != |ts|
      invariant total <= room && total <= Total(ts) && i <= |ts|
      invariant source == Buffer(ss[0].data + total, room - total)
      invariant total < room ==> CursorAt(ts, Cursor(i, 0), total)
      invariant memory[..] == Copied(m, ts, ss, total)
      decreases |ts| - i
    {
      var c := CopyFromOne(memory, m, ts, ss, i, total, source);
      total, source, i := total + c, Offset(source, c), i + 1;
    }
    if total < room {
      CursorEnd(ts, Cursor(i, 0), total);
    }
  }

  /** However source and target are cut into buffers and wherever they lie, equal
      flat bytes give equal counts under every limit, and any number of bytes
      copied an equal flat result. */
  lemma SameFlatSameResult(m: seq<byte>, ts: seq<Buffer>, ss: seq<Buffer>,
                           m': seq<byte>, ts': seq<Buffer>, ss': seq<Buffer>, n: nat)
    requires InMemory(ts, |m|) && InMemory(ss, |m|) && AllApart(ts, ss) && SelfApart(ts)
    requires InMemory(ts', |m'|) && InMemory(ss', |m'|) && AllApart(ts', ss') && SelfApart(ts')
    requires Flat(m, ts) == Flat(m', ts') && Flat(m, ss) == Flat(m', ss')
    requires n <= Min(Total(ts), Total(ss))
    ensures n <= Min(Total(ts'), Total(ss')) && Min(Total(ts), Total(ss)) == Min(Total(ts'), Total(ss'))
    ensures Flat(Copied(m, ts, ss, n), ts) == Flat(Copied(m', ts', ss', n), ts')
  {
    CopiedFlat(m, ts, ss, n);
    CopiedFlat(m', ts', ss', n);
  }
}
