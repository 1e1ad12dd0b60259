/** `asio::basic_streambuf`: get and put pointers into one growing array. */
module StreamBuf {
  import opened Bytes

  /** `buffer_delta` */
  const DELTA: nat := 128

  class StreamBuf {
    const maxSize: nat
    var buffer: array<byte>
    var gptr: int
    var egptr: int
    var pptr: int
    var epptr: int

    /** Pointers as offsets from the start of the array, which is where `eback`
        always points. */
    predicate Valid()
      reads this, buffer
    {
      && 0 <= gptr <= egptr <= pptr <= epptr <= maxSize
      && buffer.Length == Max(epptr, 1)
    }

    function Contents(): (s: seq<byte>)
      requires Valid()
      reads this, buffer
      ensures |s| == pptr - gptr
    {
      buffer[gptr..pptr]
    }

    constructor (maximumSize: nat)
      ensures Valid() && maxSize == maximumSize && Contents() == [] && fresh(buffer)
      ensures gptr == pptr == 0 && epptr == Min(maximumSize, DELTA)
    {
      maxSize := maximumSize;
      var pend := Min(maximumSize, DELTA);
      buffer := new byte[Max(pend, 1)];
      gptr, egptr, pptr := 0, 0, 0;
      epptr := pend;
    }

    function Size(): (n: nat)
      requires Valid()
      reads this, buffer
    {
      pptr - gptr
    }

    /** `reserve`; `false` where it throws. */
    method Reserve(n: nat) returns (ok: bool)
      requires Valid()
      modifies this, buffer
      ensures ok <==> old(Size()) + n <= maxSize
      ensures Valid()
      ensures ok ==> Contents() == old(Contents()) && n <= epptr - pptr
      ensures ok ==> epptr == if n <= old(epptr - pptr) then old(epptr) else Max(old(epptr), old(Size()) + n)
      ensures buffer == old(buffer) || fresh(buffer)
      ensures !ok ==>
                && buffer == old(buffer) && gptr == old(gptr) && egptr == old(egptr)
                && pptr == old(pptr) && epptr == old(epptr)
                && Contents() == AfterFailure(old(Contents()), gptr)
    {
      var gnext, pnext, pend := gptr, pptr, epptr;
      if n <= pend - pnext {
        return true;
      }
      if gnext > 0 {
        pnext := pnext - gnext;
        forall i | 0 <= i < pnext {
          buffer[i] := buffer[gnext + i];
        }
      }
      assert buffer[..pnext] == old(Contents());
      if n > pend - pnext {
        if n <= maxSize && pnext <= maxSize - n {
          pend := pnext + n;
          Resize(Max(pend, 1));
        } else {
          assert Contents() == AfterFailure(old(Contents()), gptr);
          return false;
        }
      }
      gptr, egptr, pptr := 0, pnext, pnext;
      epptr := pend;
      return true;
    }

    /** `vector::resize` to a larger size. */
    method Resize(n: nat)
      requires n >= buffer.Length
      modifies this`buffer
      ensures fresh(buffer) && buffer.Length == n
      ensures buffer[..old(buffer.Length)] == old(buffer[..])
    {
      var grown := new byte[n];
      forall i | 0 <= i < buffer.Length {
        grown[i] := buffer[i];
      }
      buffer := grown;
    }

    method Prepare(n: nat) returns (ok: bool)
      requires Valid()
      modifies this, buffer
      ensures ok <==> old(Size()) + n <= maxSize
      ensures Valid()
      ensures ok ==> Contents() == old(Contents()) && n <= epptr - pptr
      ensures buffer == old(buffer) || fresh(buffer)
      ensures !ok ==> Contents() == AfterFailure(old(Contents()), old(gptr))
    {
      ok := Reserve(n);
    }

    /** The user writes to the start of the region `prepare` returned. */
    method Fill(written: seq<byte>)
      requires Valid() && |written| <= epptr - pptr
      modifies buffer
      ensures Valid() && Contents() == old(Contents())
      ensures forall i :: 0 <= i < |written| ==> buffer[pptr + i] == written[i]
    {
      forall i | 0 <= i < |written| {
        buffer[pptr + i] := written[i];
      }
    }

    /** `commit`: the put pointer moves by an `int`. */
    method Commit(n: nat)
      requires Valid()
      modifies this
      ensures var k := Min(n, old(epptr - pptr));
              && (pptr == old(pptr) + k <==> k <= INT_MAX)
              && (k <= INT_MAX ==> Valid() && Contents() == old(Contents()) + buffer[old(pptr)..old(pptr) + k])
      ensures buffer == old(buffer) && epptr == old(epptr) && gptr == old(gptr)
    {
      var k := Min(n, epptr - pptr);
      IntCastIff(k);
      pptr := pptr + IntCast(k);
      egptr := pptr;
    }

    method Consume(n: nat)
      requires Valid()
      modifies this
      ensures var k := Min(n, old(Size()));
              && (gptr == old(gptr) + k <==> k <= INT_MAX)
              && (k <= INT_MAX ==> Valid() && Contents() == old(Contents())[k..])
      ensures buffer == old(buffer) && epptr == old(epptr) && pptr == old(pptr)
    {
      if egptr < pptr {
        egptr := pptr;
      }
      var k := if gptr + n > pptr then pptr - gptr else n;
      IntCastIff(k);
      gptr := gptr + IntCast(k);
    }

    /** `underflow`, the end of the sequence as an empty result. */
    method Underflow() returns (c: seq<byte>)
      requires Valid()
      modifies this`egptr
      ensures Valid() && Contents() == old(Contents())
      ensures c == if Contents() == [] then [] else [Contents()[0]]
      ensures c != [] ==> gptr < egptr
    {
      if gptr < pptr {
        egptr := pptr;
        c := [buffer[gptr]];
      } else {
        c := [];
      }
    }

    /** `overflow` for a character; `false` where it throws. */
    method Overflow(c: byte) returns (ok: bool)
      requires Valid()
      modifies this, buffer
      ensures ok ==> old(Size()) < maxSize && Valid() && Contents() == old(Contents()) + [c]
      ensures buffer == old(buffer) || fresh(buffer)
      ensures old(pptr == epptr) ==> (ok <==> old(Size()) < maxSize)
      ensures old(pptr < epptr) ==> ok
      ensures ok && old(pptr == epptr) ==> epptr - pptr + 1 >= Min(DELTA, maxSize - old(Size()))
    {
      if pptr == epptr {
        var size := pptr - gptr;
        if size < maxSize && maxSize - size < DELTA {
          ok := Reserve(maxSize - size);
        } else {
          ok := Reserve(DELTA);
        }
        if !ok {
          return;
        }
      }
      buffer[pptr] := c;
      pptr := pptr + 1;
      ok := true;
    }

    /** `sputc` of `std::streambuf`. */
    method Put(c: byte) returns (ok: bool)
      requires Valid()
      modifies this, buffer
      ensures ok <==> old(Size()) < maxSize
      ensures ok ==> Valid() && Contents() == old(Contents()) + [c]
      ensures buffer == old(buffer) || fresh(buffer)
      ensures old(pptr < epptr) ==> gptr == old(gptr) && pptr == old(pptr) + 1 && epptr == old(epptr)
    {
      if pptr < epptr {
        buffer[pptr] := c;
        pptr := pptr + 1;
        ok := true;
      } else {
        ok := Overflow(c);
      }
    }

    /** `sgetc` of `std::streambuf`. */
    method Peek() returns (c: seq<byte>)
      requires Valid()
      modifies this`egptr
      ensures Valid() && Contents() == old(Contents())
      ensures c == if Contents() == [] then [] else [Contents()[0]]
    {
      if gptr < egptr {
        c := [buffer[gptr]];
      } else {
        c := Underflow();
      }
    }

    /** `sbumpc` of `std::streambuf`. */
    method Get() returns (c: seq<byte>)
      requires Valid()
      modifies this
      ensures Valid() && buffer == old(buffer)
      ensures c == if old(Contents()) == [] then [] else [old(Contents())[0]]
      ensures Contents() == if old(Contents()) == [] then [] else old(Contents())[1..]
    {
      if gptr < egptr {
        c := [buffer[gptr]];
        gptr := gptr + 1;
      } else {
        c := Underflow();
        if c != [] {
          gptr := gptr + 1;
        }
      }
    }

    /** A read of `m` bytes stays within the limit and the maximum, and takes no more
        than 512 bytes unless the vector has the room for more. */
    predicate Readable(capacity: nat, limit: nat, m: nat)
      requires Valid()
      reads this, buffer
    {
      m <= limit && Size() + m <= maxSize && (m <= 512 || Size() + m <= capacity)
    }

    /** `read_size_helper`, the largest such size; the capacity of the vector is at
        least its size. */
    function ReadSizeHelper(capacity: nat, limit: nat): (n: nat)
      requires Valid() && capacity >= buffer.Length
      reads this, buffer
      ensures Readable(capacity, limit, n)
      ensures forall m: nat :: Readable(capacity, limit, m) ==> m <= n
      ensures n == 0 <==> limit == 0 || Size() == maxSize
    {
      Min(Max(512, capacity - Size()), Min(limit, maxSize - Size()))
    }
  }

  /** The input sequence after a failed `reserve` with the get pointer at `g`: its
      bytes have been moved down by `g`, and the pointers have not. */
  function AfterFailure(s: seq<byte>, g: nat): (r: seq<byte>)
    ensures |r| == |s|
  {
    seq(|s|, i requires 0 <= i < |s| => if g + i < |s| then s[g + i] else s[i])
  }

  /** A failed `reserve` keeps the input sequence exactly when nothing was ever
      consumed since the last move, or as many bytes were consumed as are held, or
      the bytes repeat with that period. */
  lemma FailureKeepsContentsIff(s: seq<byte>, g: nat)
    ensures AfterFailure(s, g) == s <==> g == 0 || g >= |s| || s[g..] == s[..|s| - g]
  {
    var r := AfterFailure(s, g);
    if r == s && g < |s| {
      forall i | 0 <= i < |s| - g ensures s[g..][i] == s[..|s| - g][i] {
        assert r[i] == s[g + i];
      }
    }
    if 0 < g < |s| && s[g..] == s[..|s| - g] {
      forall i | 0 <= i < |s| - g ensures r[i] == s[i] {
        assert s[g..][i] == s[..|s| - g][i];
      }
    }
  }

  /** Five bytes put, two consumed, and a `prepare` that fails: the three bytes left
      have changed. */
  method FailureCorruptsWitness() returns (before: seq<byte>, ok: bool, after: seq<byte>)
    ensures before == [3, 4, 5] && !ok && after == [5, 4, 5]
  {
    var b := new StreamBuf(5);
    var c: byte := 1;
    while c <= 5
      invariant 1 <= c <= 6 && fresh(b) && fresh(b.buffer) && b.Valid() && b.maxSize == b.epptr == 5
      invariant b.gptr == 0 && b.pptr == c - 1
      invariant b.Contents() == [1, 2, 3, 4, 5][..c - 1]
      decreases 6 - c
    {
      var put := b.Put(c);
      c := c + 1;
    }
    b.Consume(2);
    before := b.Contents();
    assert before == [1, 2, 3, 4, 5][2..] == [3, 4, 5];
    ok := b.Prepare(3);
    after := b.Contents();
    assert after[0] == 5 && after[1] == 4 && after[2] == 5;
  }
}
