/** `asio::buffers_iterator`: a random-access cursor over the bytes of a buffer
    sequence. */
module BuffersIterator {
  import opened Bytes
  import opened Buffers

  /** The cursor stands on byte `p`: in a non-empty buffer, or past them all. */
  predicate OnByte(bs: seq<Buffer>, index: nat, offset: nat, p: nat) {
    if index < |bs| then
      offset < bs[index].size && p == Total(bs[..index]) + offset
    else
      index == |bs| && offset == 0 && p == Total(bs)
  }

  /** No other cursor stands on that byte. */
  lemma OnByteUnique(bs: seq<Buffer>, i: nat, o: nat, j: nat, q: nat, p: nat)
    requires OnByte(bs, i, o, p) && OnByte(bs, j, q, p)
    ensures i == j && o == q
  {
    assert bs[..|bs|] == bs;
    if i < j {
      OnByteBefore(bs, i, o, j, p);
    } else if j < i {
      OnByteBefore(bs, j, q, i, p);
    }
  }

  lemma OnByteBefore(bs: seq<Buffer>, i: nat, o: nat, j: nat, p: nat)
    requires OnByte(bs, i, o, p) && i < j <= |bs|
    ensures p < Total(bs[..j])
  {
    TotalAround(bs, i);
    TotalBefore(bs, i + 1, j);
  }

  lemma OnByteInRange(bs: seq<Buffer>, i: nat, o: nat, p: nat)
    requires OnByte(bs, i, o, p)
    ensures p <= Total(bs) && (i < |bs| <==> p < Total(bs))
  {
    if i < |bs| {
      TotalAround(bs, i);
    }
  }

  /** Every position up to the total has its cursor. */
  lemma {:induction false} OnByteExists(bs: seq<Buffer>, p: nat) returns (i: nat, o: nat)
    requires p <= Total(bs)
    ensures OnByte(bs, i, o, p)
  {
    if bs == [] {
      i, o := 0, 0;
    } else if p < bs[0].size {
      i, o := 0, p;
    } else {
      i, o := OnByteExists(bs[1..], p - bs[0].size);
      assert bs[..i + 1][1..] == bs[1..][..i];
      i := i + 1;
    }
  }

  class Iterator {
    const buffers: seq<Buffer>
    var currentBuffer: Buffer
    var currentBufferPosition: nat
    var current: nat
    var position: nat

    predicate Valid()
      reads this
    {
      && OnByte(buffers, current, currentBufferPosition, position)
      && (current < |buffers| ==> currentBuffer == buffers[current])
    }

    constructor Begin(bs: seq<Buffer>)
      ensures buffers == bs && Valid() && position == 0
    {
      buffers := bs;
      currentBuffer := Buffer(0, 0);
      currentBufferPosition, current, position := 0, 0, 0;
      new;
      SkipEmpty();
    }

    constructor End(bs: seq<Buffer>)
      ensures buffers == bs && Valid() && position == Total(bs)
    {
      buffers := bs;
      currentBuffer := Buffer(0, 0);
      currentBufferPosition, current, position := 0, 0, 0;
      new;
      while current != |buffers|
        invariant current <= |buffers| && position == Total(buffers[..current]) && currentBufferPosition == 0
      {
        TotalAround(buffers, current);
        position := position + buffers[current].size;
        current := current + 1;
      }
      assert buffers[..current] == buffers;
    }

    /** The loop shared by `begin` and `increment`: on to a non-empty buffer. */
    method SkipEmpty()
      requires current <= |buffers| && position == Total(buffers[..current]) && currentBufferPosition == 0
      modifies this`current, this`currentBuffer
      ensures Valid()
    {
      while current != |buffers|
        invariant current <= |buffers| && position == Total(buffers[..current])
      {
        currentBuffer := buffers[current];
        if currentBuffer.size > 0 {
          return;
        }
        TotalAround(buffers, current);
        current := current + 1;
      }
      assert buffers[..current] == buffers;
    }

    function Dereference(memory: array<byte>): (r: byte)
      requires Valid() && position < Total(buffers) && InMemory(buffers, memory.Length)
      reads this, memory
      ensures r == Flat(memory[..], buffers)[position]
    {
      FlatAt(memory[..], buffers);
      AddressIn(buffers, current, currentBufferPosition);
      memory[currentBuffer.data + currentBufferPosition]
    }

    function DistanceTo(other: Iterator): (n: int)
      requires Valid() && other.Valid() && buffers == other.buffers
      reads this, other
      ensures 0 <= position + n <= Total(buffers)
      ensures n == 0 <==> Equal(other)
    {
      OnByteInRange(buffers, other.current, other.currentBufferPosition, other.position);
      other.position - position
    }

    /** Positions are compared; for iterators over one sequence that compares their
        places in the buffers. */
    predicate Equal(other: Iterator): (r: bool)
      requires Valid() && other.Valid() && buffers == other.buffers
      reads this, other
      ensures r <==> current == other.current && currentBufferPosition == other.currentBufferPosition
    {
      SamePlace(this, other);
      position == other.position
    }

    method Increment()
      requires Valid() && position < Total(buffers)
      modifies this
      ensures Valid() && position == old(position) + 1
    {
      assert current != |buffers|;
      TotalAround(buffers, current);
      position := position + 1;
      currentBufferPosition := currentBufferPosition + 1;
      if currentBufferPosition != currentBuffer.size {
        return;
      }
      current := current + 1;
      currentBufferPosition := 0;
      SkipEmpty();
    }

    method Decrement()
      requires Valid() && position > 0
      modifies this
      ensures Valid() && position == old(position) - 1
    {
      if currentBufferPosition != 0 {
        position := position - 1;
        currentBufferPosition := currentBufferPosition - 1;
        return;
      }
      AtStart();
      PreviousNonEmpty();
      position := position - 1;
      currentBufferPosition := currentBufferPosition - 1;
    }

    lemma AtStart()
      requires Valid() && currentBufferPosition == 0
      ensures current <= |buffers| && position == Total(buffers[..current])
    {
      if current == |buffers| {
        assert buffers[..current] == buffers;
      }
    }

    /** The backward search of `decrement` and `advance`: the end of the previous
        non-empty buffer, which is the same position. */
    method PreviousNonEmpty()
      requires current <= |buffers| && 0 < position == Total(buffers[..current])
      modifies this`current, this`currentBuffer, this`currentBufferPosition
      ensures current < old(current) && current < |buffers| && currentBuffer == buffers[current]
      ensures 0 < currentBufferPosition == currentBuffer.size
      ensures position == Total(buffers[..current]) + currentBufferPosition
    {
      var iter := current;
      while iter != 0
        invariant 0 <= iter <= current && position == Total(buffers[..iter])
      {
        iter := iter - 1;
        TotalAround(buffers, iter);
        if buffers[iter].size > 0 {
          current := iter;
          currentBuffer := buffers[iter];
          currentBufferPosition := currentBuffer.size;
          return;
        }
      }
    }

    method Advance(n: int)
      requires Valid() && 0 <= position + n <= Total(buffers)
      modifies this
      ensures Valid() && position == old(position) + n
    {
      if n > 0 {
        Forward(n);
      } else if n < 0 {
        Backward(-n);
      }
    }

    method Forward(n: nat)
      requires Valid() && n > 0 && position + n <= Total(buffers)
      modifies this
      ensures Valid() && position == old(position) + n
    {
      assert current != |buffers|;
      var left: nat := n;
      while true
        invariant current < |buffers| && currentBuffer == buffers[current]
        invariant currentBufferPosition <= currentBuffer.size
        invariant position == Total(buffers[..current]) + currentBufferPosition
        invariant position + left == old(position) + n
        decreases |buffers| - current
      {
        var balance := currentBuffer.size - currentBufferPosition;
        if balance > left {
          position := position + left;
          currentBufferPosition := currentBufferPosition + left;
          return;
        }
        TotalAround(buffers, current);
        left := left - balance;
        position := position + balance;
        current := current + 1;
        if current == |buffers| {
          assert buffers[..current] == buffers;
          assert left == 0;
          currentBuffer := Buffer(0, 0);
          currentBufferPosition := 0;
          return;
        }
        currentBuffer := buffers[current];
        currentBufferPosition := 0;
      }
    }

    method Backward(n: nat)
      requires Valid() && 0 < n <= position
      modifies this
      ensures Valid() && position == old(position) - n
    {
      var left: nat := n;
      if current == |buffers| {
        AtStart();
      }
      while true
        invariant current <= |buffers| && left > 0
        invariant current < |buffers| ==>
                    currentBuffer == buffers[current] && currentBufferPosition <= currentBuffer.size
        invariant current == |buffers| ==> currentBufferPosition == 0
        invariant position == Total(buffers[..current]) + currentBufferPosition
        invariant position - left == old(position) - n
        decreases current
      {
        if currentBufferPosition >= left {
          position := position - left;
          currentBufferPosition := currentBufferPosition - left;
          return;
        }
        left := left - currentBufferPosition;
        position := position - currentBufferPosition;
        // bytes remain before the cursor, so it is not at the beginning
        assert current != 0;
        PreviousNonEmpty();
      }
    }
  }

  /** Equal positions are equal places, and the other way round. */
  lemma SamePlace(a: Iterator, b: Iterator)
    requires a.Valid() && b.Valid() && a.buffers == b.buffers
    ensures a.position == b.position <==>
            a.current == b.current && a.currentBufferPosition == b.currentBufferPosition
  {
    if a.position == b.position {
      PositionDeterminesState(a, b);
    }
  }

  /** Two iterators at one position are in one state; only the buffer last looked
      at may differ, at the end, where it is never read. */
  lemma PositionDeterminesState(a: Iterator, b: Iterator)
    requires a.Valid() && b.Valid() && a.buffers == b.buffers && a.position == b.position
    ensures a.current == b.current && a.currentBufferPosition == b.currentBufferPosition
    ensures a.current < |a.buffers| ==> a.currentBuffer == b.currentBuffer
  {
    OnByteUnique(a.buffers, a.current, a.currentBufferPosition,
                 b.current, b.currentBufferPosition, a.position);
  }

  /** `advance(a)` then `advance(b)` ends where `advance(a + b)` does. */
  method AdvanceTwice(x: Iterator, y: Iterator, a: int, b: int)
    requires x != y && x.Valid() && y.Valid() && x.buffers == y.buffers && x.position == y.position
    requires 0 <= x.position + a <= Total(x.buffers) && 0 <= x.position + a + b <= Total(x.buffers)
    modifies x, y
    ensures x.Valid() && y.Valid() && x.position == y.position == old(x.position) + a + b
    ensures x.current == y.current && x.currentBufferPosition == y.currentBufferPosition
  {
    x.Advance(a);
    x.Advance(b);
    y.Advance(a + b);
    PositionDeterminesState(x, y);
  }

  /** `n` increments end where `advance(n)` does. */
  method IncrementMany(x: Iterator, y: Iterator, n: nat)
    requires x != y && x.Valid() && y.Valid() && x.buffers == y.buffers && x.position == y.position
    requires x.position + n <= Total(x.buffers)
    modifies x, y
    ensures x.Valid() && y.Valid() && x.position == y.position == old(x.position) + n
    ensures x.current == y.current && x.currentBufferPosition == y.currentBufferPosition
  {
    var i := 0;
    while i < n
      invariant i <= n && x.Valid() && x.position == old(x.position) + i
      modifies x
    {
      x.Increment();
      i := i + 1;
    }
    y.Advance(n);
    PositionDeterminesState(x, y);
  }

  /** An increment and a decrement undo each other, whatever empty buffers lie
      between. */
  method StepAndBack(x: Iterator)
    requires x.Valid() && x.position < Total(x.buffers)
    modifies x
    ensures x.Valid() && x.position == old(x.position)
    ensures x.current == old(x.current) && x.currentBufferPosition == old(x.currentBufferPosition)
    ensures x.currentBuffer == old(x.currentBuffer)
  {
    ghost var i, o := x.current, x.currentBufferPosition;
    x.Increment();
    x.Decrement();
    OnByteUnique(x.buffers, i, o, x.current, x.currentBufferPosition, x.position);
  }

  method BackAndStep(x: Iterator)
    requires x.Valid() && x.position > 0
    modifies x
    ensures x.Valid() && x.position == old(x.position)
    ensures x.current == old(x.current) && x.currentBufferPosition == old(x.currentBufferPosition)
  {
    ghost var i, o := x.current, x.currentBufferPosition;
    OnByteInRange(x.buffers, i, o, x.position);
    x.Decrement();
    x.Increment();
    OnByteUnique(x.buffers, i, o, x.current, x.currentBufferPosition, x.position);
  }

  /** Advancing by the distance to another iterator arrives there. */
  method AdvanceTo(x: Iterator, y: Iterator)
    requires x != y && x.Valid() && y.Valid() && x.buffers == y.buffers
    modifies x
    ensures x.Valid() && y.Valid() && x.Equal(y)
  {
    x.Advance(x.DistanceTo(y));
    SamePlace(x, y);
  }

  /** `*it++` */
  method Next(x: Iterator, memory: array<byte>, ghost flat: seq<byte>) returns (c: byte)
    requires x.Valid() && x.position < Total(x.buffers) && InMemory(x.buffers, memory.Length)
    requires flat == Flat(memory[..], x.buffers)
    modifies x
    ensures x.Valid() && x.position == old(x.position) + 1
    ensures c == flat[old(x.position)]
  {
    c := x.Dereference(memory);
    x.Increment();
  }

  /** `std::copy(x, y, ...)`: the flat bytes between the positions, each once and in
      order, and as many as the distance says. */
  method CopyRange(x: Iterator, y: Iterator, memory: array<byte>) returns (bytes: seq<byte>)
    requires x != y && x.Valid() && y.Valid() && x.buffers == y.buffers && x.position <= y.position
    requires InMemory(x.buffers, memory.Length)
    modifies x
    ensures x.Valid() && y.Valid() && x.Equal(y)
    ensures y.position <= Total(y.buffers)
    ensures bytes == Flat(memory[..], x.buffers)[old(x.position)..y.position]
    ensures |bytes| == old(x.DistanceTo(y))
  {
    ghost var p, flat := x.position, Flat(memory[..], x.buffers);
    OnByteInRange(y.buffers, y.current, y.currentBufferPosition, y.position);
    bytes := [];
    while !x.Equal(y)
      invariant x.Valid() && p <= x.position <= y.position <= |flat|
      invariant bytes == flat[p..x.position]
      invariant memory[..] == old(memory[..])
      decreases y.position - x.position
    {
      var c := Next(x, memory, flat);
      SliceOneMore(flat, p, x.position - 1);
      bytes := bytes + [c];
    }
  }

  /** From `begin` to `end`: the flat bytes. */
  method Traverse(bs: seq<Buffer>, memory: array<byte>) returns (bytes: seq<byte>)
    requires InMemory(bs, memory.Length)
    ensures bytes == Flat(memory[..], bs)
  {
    var x := new Iterator.Begin(bs);
    var end := new Iterator.End(bs);
    bytes := CopyRange(x, end, memory);
  }
}
