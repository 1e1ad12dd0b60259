/** The contract that `buffer::buffer<>` offers to packets, connections and
    sockets: a byte sequence with reads at an offset that consume nothing,
    appending, overwriting, and removal at either end.  How a ring or an array
    lays those bytes out is not part of this model. */
module ReactorBuffer {
  import opened Bytes

  /** The operations of a buffer.  `Read` and `Overwrite` are at an offset, `Receive`
      has the operating system store bytes behind the last one. */
  datatype Action =
    | Append(data: seq<byte>)
    | Overwrite(data: seq<byte>, offset: nat)
    | Read(count: nat, offset: nat)
    | ReadFront(count: nat)
    | Remove(count: nat)
    | RemoveFromBack(count: nat)
    | Receive(available: seq<byte>)
    | Reset

  /** `done` are the operations that have changed the buffer. */
  class ByteBuffer {
    var contents: seq<byte>
    ghost var done: seq<Action>

    constructor ()
      ensures contents == [] && done == []
    {
      contents, done := [], [];
    }

    function Count(): nat
      reads this
    {
      |contents|
    }

    /** Is a read or an overwrite of `count` bytes at `offset` inside the buffer?
        The buffer throws when it is not. */
    predicate Covers(offset: nat, count: nat)
      reads this
    {
      offset + count <= |contents|
    }

    function Read(offset: nat, count: nat): (s: seq<byte>)
      requires Covers(offset, count)
      reads this
    {
      contents[offset..offset + count]
    }

    method Append(s: seq<byte>)
      modifies this
      ensures contents == old(contents) + s && done == old(done) + [Action.Append(s)]
    {
      contents, done := contents + s, done + [Action.Append(s)];
    }

    /** What a `receive` has stored. */
    method Receive(s: seq<byte>)
      modifies this
      ensures contents == old(contents) + s && done == old(done) + [Action.Receive(s)]
    {
      contents, done := contents + s, done + [Action.Receive(s)];
    }

    /** The bytes from `offset` on, at most `count` of them. */
    function Available(offset: nat, count: nat): (s: seq<byte>)
      requires offset <= |contents|
      reads this
    {
      contents[offset..Min(offset + count, |contents|)]
    }

    /** Copying a range of another buffer: what is missing at its end is not
        copied and not reported.  (On rings it is one write or two.) */
    method AppendRange(source: ByteBuffer, offset: nat, count: nat)
      requires source != this && offset <= |source.contents|
      modifies this
      ensures contents == old(contents) + source.Available(offset, count)
      ensures done == old(done) + [Action.Append(source.Available(offset, count))]
    {
      done := done + [Action.Append(source.Available(offset, count))];
      contents := contents + source.Available(offset, count);
    }

    method Overwrite(offset: nat, s: seq<byte>)
      requires Covers(offset, |s|)
      modifies this
      ensures contents == old(contents)[..offset] + s + old(contents)[offset + |s|..]
      ensures done == old(done) + [Action.Overwrite(s, offset)]
    {
      done := done + [Action.Overwrite(s, offset)];
      contents := contents[..offset] + s + contents[offset + |s|..];
    }

    method Remove(count: nat)
      requires count <= |contents|
      modifies this
      ensures contents == old(contents)[count..] && done == old(done) + [Action.Remove(count)]
    {
      contents, done := contents[count..], done + [Action.Remove(count)];
    }

    /** The tail moves back modulo the size of a ring, which divides 2^32. */
    method RemoveFromBack(count: nat)
      requires count % TWO_TO_THE_32 <= |contents|
      modifies this
      ensures contents == old(contents)[..|old(contents)| - count % TWO_TO_THE_32]
      ensures done == old(done) + [Action.RemoveFromBack(count)]
    {
      done := done + [Action.RemoveFromBack(count)];
      contents := contents[..|contents| - count % TWO_TO_THE_32];
    }

    method Reset()
      modifies this
      ensures contents == [] && done == old(done) + [Action.Reset]
    {
      contents, done := [], done + [Action.Reset];
    }
  }
}
