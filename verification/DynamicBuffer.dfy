/** `asio::dynamic_string_buffer` and `asio::dynamic_vector_buffer`, which make the
    same calls on a string and on a vector. */
module DynamicBuffer {
  import opened Bytes

  /** `resize`: cut, or padded with zeros. */
  function Resized(s: seq<byte>, n: nat): (r: seq<byte>)
    ensures |r| == n && r[..Min(n, |s|)] == s[..Min(n, |s|)]
  {
    if n <= |s| then s[..n] else s + seq(n - |s|, _ => 0)
  }

  class DynamicBuffer {
    const maxSize: nat
    var store: seq<byte>
    var size: nat

    predicate Valid()
      reads this
    {
      size <= |store|
    }

    function Contents(): (s: seq<byte>)
      requires Valid()
      reads this
      ensures |s| == size
    {
      store[..size]
    }

    constructor (existing: seq<byte>, maximumSize: nat)
      ensures Valid() && Contents() == existing && maxSize == maximumSize
    {
      maxSize := maximumSize;
      store := existing;
      size := |existing|;
    }

    /** `false` where it throws. */
    method Prepare(n: nat) returns (ok: bool)
      requires Valid()
      modifies this`store
      ensures Valid() && Contents() == old(Contents())
      ensures ok <==> size + n <= maxSize
      ensures if ok then |store| == size + n else store == old(store)
    {
      if size > maxSize || maxSize - size < n {
        return false;
      }
      store := Resized(store, size + n);
      assert store[..Min(size + n, |old(store)|)][..size] == old(store)[..Min(size + n, |old(store)|)][..size];
      return true;
    }

    /** The user writes to the start of the region `prepare` returned. */
    method Fill(written: seq<byte>)
      requires Valid() && |written| <= |store| - size
      modifies this`store
      ensures Valid() && Contents() == old(Contents()) && |store| == old(|store|)
      ensures store[size..size + |written|] == written
    {
      store := store[..size] + written + store[size + |written|..];
    }

    method Commit(n: nat)
      requires Valid()
      modifies this
      ensures Valid()
      ensures var k := Min(n, old(|store| - size));
              Contents() == old(Contents()) + old(store)[old(size)..old(size) + k] && store == Contents()
    {
      size := size + Min(n, |store| - size);
      store := Resized(store, size);
    }

    method Consume(n: nat)
      requires Valid()
      modifies this
      ensures Valid() && Contents() == old(Contents())[Min(n, old(size))..]
      ensures store == old(store)[Min(n, old(size))..]
    {
      var k := Min(n, size);
      store := store[k..];
      size := size - k;
    }
  }
}
