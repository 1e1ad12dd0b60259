/** `buffer::circle`, the ring behind `buffer::buffer<>`: an array, a head inside it
    and a tail that only counts up to multiples of the array's size. */
module Ring {
  import opened Bytes
  import opened RingArithmetic

  /** How a call ends: it returns, it throws, it calls itself without end, or it
      stores behind the end of the array. */
  datatype Outcome = Done | NoSpace | InvalidOffset | Endless | Overrun

  /** What a ring can come to hold by growing fourfold below its maximum. */
  predicate Reaches(size: nat, max: nat, needed: nat)
    requires size > 0
    decreases max - size
  {
    needed < size || (4 * size < max && Reaches(4 * size, max, needed))
  }

  /** A stretch of `n` bytes from `p` on can be stored, the tail `d` bytes behind
      `p`: either the array does not end inside it, or its chunks meet the end. */
  predicate Stores(size: nat, p: nat, n: nat, d: nat)
    requires d < size
  {
    n == 0 || (d + 1 < size && (p + n <= size || (p <= size && Lands(size - 1 - d, size - p))))
  }

  /** One chunk of such a stretch. */
  lemma StoresStep(size: nat, p: nat, n: nat, d: nat, end: nat, chunk: nat)
    requires p < size && 0 < n <= d < size
    requires end >= size - 1 - (if p + d < size then p + d else p + d - size)
    requires chunk == Min(Min(size - 1 - d, end + 1), n)
    ensures chunk == 0 <==> d + 1 == size
    ensures chunk == 0 || p + chunk > size ==> !Stores(size, p, n, d)
    ensures chunk > 0 && p + chunk <= size ==>
              (Stores(size, p, n, d) <==> Stores(size, At(p, chunk, size), n - chunk, d - chunk))
  {
    if d + 1 < size < p + n && p + chunk <= size {
      assert chunk == size - 1 - d;
      assert Lands(chunk, size - p) <==> Lands(2 * chunk, size - p - chunk);
    }
  }

  /** `count` bytes can be stored from the `o`-th of `total` bytes on. */
  predicate StoresAt(head: nat, o: nat, total: nat, size: nat, count: nat)
    requires head < size && o + count <= total < size
  {
    Stores(size, At(head, o, size), count, total - o)
  }

  lemma StoresAtStep(head: nat, o: nat, total: nat, size: nat, count: nat, end: nat, n: nat)
    requires head < size && count > 0 && o + count <= total < size
    requires end >= size - 1 - At(head, total, size)
    requires n == Min(Min(size - 1 - (total - o), end + 1), count)
    ensures n == 0 <==> total - o + 1 == size
    ensures n == 0 || At(head, o, size) + n > size ==> !StoresAt(head, o, total, size, count)
    ensures n > 0 && At(head, o, size) + n <= size ==>
              (StoresAt(head, o, total, size, count) <==> StoresAt(head, o + n, total, size, count - n))
  {
    StoresStep(size, At(head, o, size), count, total - o, end, n);
  }

  /** How a write fails whose bytes begin `d` before the tail: there is no free place
      beside them, or the array ends inside a chunk. */
  function EndlessOrOverrun(d: nat, size: nat): Outcome {
    if d + 1 == size then Endless else Overrun
  }

  lemma CoveredEnd(r: seq<byte>, counted: seq<byte>, s: seq<byte>, data: seq<byte>)
    requires |counted| == |s| + |data| && counted[..|s|] == s && Covered(r, counted, |s|, data)
    ensures r == s + data
  {
  }

  /** What there is of `count` elements from `offset` on. */
  function Range(s: seq<byte>, offset: nat, count: nat): seq<byte>
    requires offset <= |s|
  {
    s[offset..Min(offset + count, |s|)]
  }

  lemma SecondStretch(from: Shape, s: seq<byte>, offset: nat, count: nat)
    requires from.Valid() && from.total == |s| && offset <= |s| && Stretch(from, offset, count) > 0
    ensures var n := Stretch(from, offset, count);
            Stretch(from, offset + n, count - n) == Min(count, |s| - offset) - n
  {
    StretchOnward(from, offset, count);
  }

  lemma TwoStretches(r: seq<byte>, m: seq<byte>, before: seq<byte>, s: seq<byte>,
                     offset: nat, i: nat, j: nat, count: nat)
    requires offset + i + j <= |s| && i + j == Min(count, |s| - offset)
    requires m == before + s[offset..offset + i] && r == m + s[offset + i..offset + i + j]
    ensures r == before + Range(s, offset, count)
  {
    SliceJoin(s, offset, offset + i, offset + i + j);
    ConcatAssoc(before, s[offset..offset + i], s[offset + i..offset + i + j]);
  }

  lemma NoStretch(from: Shape, s: seq<byte>, offset: nat, count: nat, before: seq<byte>)
    requires from.Valid() && from.total == |s| && offset <= |s|
    ensures Stretch(from, offset, count) == 0 ==>
              before + s[offset..offset] == before && before + Range(s, offset, count) == before
  {
  }

  lemma SmallTail(tail: nat, size: nat)
    requires tail < size <= 0x4000_0000
    ensures tail % size == tail && tail < TWO_TO_THE_64 && (size - 1 - tail) % TWO_TO_THE_32 == size - 1 - tail
  {
  }

  function Overwritten(s: seq<byte>, offset: nat, data: seq<byte>): (r: seq<byte>)
    requires offset + |data| <= |s|
    ensures |r| == |s|
  {
    s[..offset] + data + s[offset + |data|..]
  }

  /** `r` is `s` with `data` over it. */
  ghost predicate Covered(r: seq<byte>, s: seq<byte>, o: nat, data: seq<byte>) {
    o + |data| <= |s| && r == Overwritten(s, o, data)
  }

  lemma CoveredOnward(r: seq<byte>, m: seq<byte>, s: seq<byte>, o: nat, data: seq<byte>, n: nat)
    requires n <= |data| && Covered(m, s, o, data[..n]) && Covered(r, m, o + n, data[n..])
    ensures Covered(r, s, o, data)
  {
  }

  // ---------- runs, by counts alone ----------

  /** Everything about a ring but its bytes. */
  datatype Shape = Shape(head: nat, tail: nat, total: nat, size: nat) {
    ghost predicate Valid() {
      head < size && total < size
    }
  }

  /** The size at which `needed` bytes and a free place fit. */
  function Grown(size: nat, max: nat, needed: nat): (r: nat)
    requires size > 0 && Reaches(size, max, needed)
    ensures needed < r && (if needed < size then r == size else size < r <= 4 * needed)
    decreases max - size
  {
    if needed < size then size else Grown(4 * size, max, needed)
  }

  /** The ring with room for `count` bytes, and for one at least. */
  function Roomy(v: Shape, max: nat, count: nat): (r: Shape)
    requires v.Valid() && Reaches(v.size, max, v.total + Max(count, 1))
    ensures r.Valid() && r.total == v.total && r.total + Max(count, 1) < r.size
  {
    if v.total + Max(count, 1) < v.size then v
    else Shape(0, v.total, v.total, Grown(v.size, max, v.total + Max(count, 1)))
  }

  /** A ring grows only where it must, and no further. */
  lemma RoomyLeast(v: Shape, max: nat, count: nat)
    requires v.Valid() && Reaches(v.size, max, v.total + Max(count, 1))
    ensures var needed, r := v.total + Max(count, 1), Roomy(v, max, count);
            needed < r.size && if needed < v.size then r == v else r.head == 0 && v.size < r.size <= 4 * needed
  {
  }

  lemma RoomyOnward(v: Shape, max: nat, count: nat)
    requires v.Valid() && v.total + Max(count, 1) >= v.size
    ensures Reaches(v.size, max, v.total + Max(count, 1)) <==>
            4 * v.size < max && Reaches(4 * v.size, max, v.total + Max(count, 1))
    ensures Reaches(v.size, max, v.total + Max(count, 1)) ==>
              Roomy(v, max, count) == Roomy(Shape(0, v.total, v.total, 4 * v.size), max, count)
  {
    var needed := v.total + Max(count, 1);
    if Reaches(v.size, max, needed) {
      assert Grown(v.size, max, needed) == Grown(4 * v.size, max, needed);
    }
  }

  /** How a write at the end comes out. */
  function Appending(v: Shape, max: nat, count: nat): Outcome
    requires v.Valid()
  {
    if !Reaches(v.size, max, v.total + Max(count, 1)) then NoSpace
    else
      var r := Roomy(v, max, count);
      if StoresAt(r.head, r.total, r.total + count, r.size, count) then Done
      else EndlessOrOverrun(count, r.size)
  }

  function Appended(v: Shape, max: nat, count: nat): (r: Shape)
    requires v.Valid() && Appending(v, max, count).Done?
    ensures r.Valid() && r.total == v.total + count
  {
    var g := Roomy(v, max, count);
    Shape(g.head, At(g.head, g.total + count, g.size), g.total + count, g.size)
  }

  /** How a write of `count` bytes at an offset comes out. */
  function Overwriting(v: Shape, offset: nat, count: nat): Outcome
    requires v.Valid()
  {
    if offset + count > v.total then InvalidOffset
    else if StoresAt(v.head, offset, v.total, v.size, count) then Done
    else EndlessOrOverrun(v.total - offset, v.size)
  }

  /** How many of `count` bytes from the `offset`-th on the array holds before its
      end. */
  function Stretch(v: Shape, offset: nat, count: nat): (n: nat)
    requires v.Valid() && offset <= v.total
  {
    Min(Min(v.total - offset, v.size - At(v.head, offset, v.size)), count)
  }

  lemma StretchOnward(v: Shape, offset: nat, count: nat)
    requires v.Valid() && offset <= v.total
    ensures var n := Stretch(v, offset, count);
            n > 0 ==> Stretch(v, offset + n, count - n) == Min(count, v.total - offset) - n
  {
  }

  /** How the write of a range of `total` bytes comes out that another ring holds in
      a stretch of `first` bytes and one of the rest. */
  function Ranging(v: Shape, max: nat, first: nat, total: nat): Outcome
    requires v.Valid() && first <= total
  {
    if first == 0 || !Appending(v, max, first).Done? then Stretching(v, max, first)
    else Stretching(Appended(v, max, first), max, total - first)
  }

  /** One stretch: nothing is written where it is empty. */
  function Stretching(v: Shape, max: nat, count: nat): Outcome
    requires v.Valid()
  {
    if count == 0 then Done else Appending(v, max, count)
  }

  /** The range of `count` bytes from `offset` on in a ring of shape `from`. */
  function Relaying(v: Shape, max: nat, from: Shape, offset: nat, count: nat): Outcome
    requires v.Valid() && from.Valid() && offset <= from.total
  {
    Ranging(v, max, Stretch(from, offset, count), Min(count, from.total - offset))
  }

  /** How many bytes a `receive` takes when `available` are there. */
  function Receiving(v: Shape, max: nat, available: nat): (n: nat)
    requires v.Valid() && v.tail < v.size && Reaches(v.size, max, v.total + 1)
    ensures n <= available && v.total + n < Roomy(v, max, 0).size
  {
    var r := Roomy(v, max, 0);
    Min(Min(r.size - 1 - r.total, r.size - r.tail), available)
  }

  function Received(v: Shape, max: nat, available: nat): (r: Shape)
    requires v.Valid() && v.tail < v.size && Reaches(v.size, max, v.total + 1)
    ensures r.Valid()
  {
    var g, n := Roomy(v, max, 0), Receiving(v, max, available);
    Shape(g.head, At(g.head, g.total + n, g.size), g.total + n, g.size)
  }

  /** What is not taken did not fit before the end of the array, or at all. */
  lemma EdgeReached(head: nat, total: nat, n: nat, available: nat, size: nat)
    requires head < size && total < size
    requires n == Min(Min(size - 1 - total, size - At(head, total, size)), available)
    ensures n < available ==> total + n + 1 == size || At(head, total + n, size) == 0
  {
  }

  // ---------- the class ----------

  class Circle {
    const maxSize: nat
    var mem: array<byte>
    var head: nat
    var tail: nat
    ghost var contents: seq<byte>

    ghost predicate Valid()
      reads this, mem
    {
      && maxSize <= 0x4000_0000 && RingSize(mem.Length) && head < mem.Length && tail < TWO_TO_THE_64
      && |contents| < mem.Length && tail % mem.Length == At(head, |contents|, mem.Length)
      && (mem.Length - 1 - tail) % TWO_TO_THE_32 + |contents| <= 2 * mem.Length - 2
      && forall i :: 0 <= i < |contents| ==> mem[At(head, i, mem.Length)] == contents[i]
    }

    constructor (maxSize: nat, defaultSize: nat)
      requires RingSize(defaultSize) && maxSize <= 0x4000_0000
      ensures Valid() && contents == [] && head == tail == 0 && fresh(mem)
      ensures mem.Length == defaultSize && this.maxSize == maxSize
    {
      this.maxSize := maxSize;
      RingSizeDivides(defaultSize);
      mem := new byte[defaultSize];
      head, tail, contents := 0, 0, [];
    }

    ghost function View(): (v: Shape)
      requires Valid()
      reads this, mem
      ensures v.Valid()
    {
      RingSizeDivides(mem.Length);
      Shape(head, tail, |contents|, mem.Length)
    }

    function Count(): (n: nat)
      requires Valid()
      reads this, mem
      ensures n == |contents|
    {
      CountBetweenIs(head, 0, |contents|, tail, mem.Length);
      CountBetween(head, tail, mem.Length)
    }

    lemma ValidEndFits()
      requires Valid()
      ensures EndFits(tail, mem.Length)
    {
      RingSizeDivides(mem.Length);
    }

    /** Bytes that the array holds in one stretch. */
    lemma OneStretch(i: nat, n: nat)
      requires Valid() && i + n <= |contents| && At(head, i, mem.Length) + n <= mem.Length
      ensures var h := At(head, i, mem.Length); mem[h..h + n] == contents[i..i + n]
    {
      var h := At(head, i, mem.Length);
      var a, b := mem[h..h + n], contents[i..i + n];
      forall j | 0 <= j < n ensures a[j] == b[j] {
        assert contents[i + j] == mem[At(head, i + j, mem.Length)];
      }
      Pointwise(a, b);
    }

    /** The first stretch of the contents, which `send` is given. */
    function Front(): (s: seq<byte>)
      requires Valid()
      reads this, mem
      ensures s <= contents && (s == [] <==> contents == [])
    {
      ContiguousCountIs(head, 0, |contents|, tail, mem.Length);
      OneStretch(0, Min(|contents|, mem.Length - head));
      mem[head..head + ContiguousCount(head, tail, mem.Length)]
    }

    /** One turn of a read. */
    method ReadStretch(i: nat, count: nat) returns (data: seq<byte>)
      requires Valid() && i < i + count <= |contents|
      ensures data != [] && |data| == Min(count, mem.Length - At(head, i, mem.Length))
      ensures data == contents[i..i + |data|]
    {
      var h := (head + i) % mem.Length;
      AtIsRemainder(head, i, mem.Length);
      ContiguousCountIs(head, i, |contents|, tail, mem.Length);
      var n := Min(ContiguousCount(h, tail, mem.Length), count);
      OneStretch(i, n);
      data := mem[h..h + n];
    }

    /** `read` at an offset; `false` where it throws. */
    method Read(count: nat, offset: nat) returns (ok: bool, data: seq<byte>)
      requires Valid()
      ensures ok <==> offset + count <= |contents|
      ensures ok ==> data == contents[offset..offset + count]
    {
      if Count() < offset + count {
        return false, [];
      }
      ok, data := true, [];
      while |data| < count
        invariant |data| <= count && data == contents[offset..offset + |data|]
      {
        var more := ReadStretch(offset + |data|, count - |data|);
        SliceJoin(contents, offset, offset + |data|, offset + |data| + |more|);
        data := data + more;
      }
    }

    method Remove(count: nat)
      requires Valid() && count <= |contents|
      modifies this
      ensures Valid() && contents == old(contents)[count..] && mem == old(mem)
      ensures head == At(old(head), count, mem.Length) && tail == old(tail)
    {
      AtIsRemainder(head, count, mem.Length);
      head := (head + count) % mem.Length;
      contents := contents[count..];
    }

    /** `read` at no offset: stretch by stretch, each consumed as it is read. */
    method ReadFront(count: nat) returns (ok: bool, data: seq<byte>)
      requires Valid()
      modifies this
      ensures Valid() && mem == old(mem)
      ensures ok <==> count <= |old(contents)|
      ensures ok ==> data == old(contents)[..count] && contents == old(contents)[count..]
      ensures ok ==> head == At(old(head), count, mem.Length) && tail == old(tail)
      ensures !ok ==> unchanged(this)
    {
      if Count() < count {
        return false, [];
      }
      ok, data := true, [];
      while |data| < count
        invariant |data| <= count && Valid() && mem == old(mem) && tail == old(tail)
        invariant head == At(old(head), |data|, mem.Length)
        invariant data == old(contents)[..|data|] && contents == old(contents)[|data|..]
      {
        var more := ReadStretch(0, count - |data|);
        SliceOfSlice(old(contents), |data|, |old(contents)|, 0, |more|);
        SliceJoin(old(contents), 0, |data|, |data| + |more|);
        Remove(|more|);
        data := data + more;
      }
    }

    method Reset()
      requires Valid()
      modifies this
      ensures Valid() && contents == [] && mem == old(mem) && head == tail == 0
    {
      RingSizeDivides(mem.Length);
      head, tail, contents := 0, 0, [];
    }

    /** A chunk stored where the array does not end inside it. */
    method StoreChunk(o: nat, piece: seq<byte>)
      requires Valid() && o + |piece| <= |contents| && At(head, o, mem.Length) + |piece| <= mem.Length
      modifies mem, this`contents
      ensures Valid() && contents == Overwritten(old(contents), o, piece)
    {
      var h := At(head, o, mem.Length);
      forall i | 0 <= i < |piece| {
        mem[h + i] := piece[i];
      }
      contents := Overwritten(contents, o, piece);
      forall i | 0 <= i < |contents| ensures mem[At(head, i, mem.Length)] == contents[i] {
        var a := At(head, i, mem.Length);
        if o <= i < o + |piece| {
          assert a == h + (i - o);
        } else {
          assert a < h || h + |piece| <= a;
          assert contents[i] == old(contents[i]);
        }
      }
    }

    /** The length of the next chunk of `write`. */
    method NextChunk(o: nat, count: nat) returns (n: nat, outcome: Outcome)
      requires Valid() && 0 < count <= |contents| - o
      ensures outcome.Done? || outcome == EndlessOrOverrun(|contents| - o, mem.Length)
      ensures !outcome.Done? ==> !StoresAt(head, o, |contents|, mem.Length, count)
      ensures n <= count && (outcome.Done? ==> 0 < n && At(head, o, mem.Length) + n <= mem.Length)
      ensures outcome.Done? ==> |contents| - o + 1 != mem.Length
      ensures outcome.Done? ==>
                (StoresAt(head, o, |contents|, mem.Length, count) <==>
                 StoresAt(head, o + n, |contents|, mem.Length, count - n))
    {
      var h := (head + o) % mem.Length;
      AtIsRemainder(head, o, mem.Length);
      ValidEndFits();
      ContiguousSpaceIs(head, o, |contents|, tail, mem.Length);
      EndIs(tail, mem.Length);
      n := Min(ContiguousSpace(h, tail, mem.Length), count);
      StoresAtStep(head, o, |contents|, mem.Length, count, End(tail, mem.Length), n);
      if h + n > mem.Length {
        return n, Overrun;
      }
      if n == 0 {
        return n, Endless;
      }
      return n, Done;
    }

    /** One chunk of `write`; `rest` is what it leaves. */
    method PlaceChunk(data: seq<byte>, o: nat, ghost stores: bool) returns (rest: seq<byte>, outcome: Outcome)
      requires Valid() && data != [] && o + |data| <= |contents|
      requires stores == StoresAt(head, o, |contents|, mem.Length, |data|)
      modifies mem, this`contents
      ensures outcome.Done? || (!stores && outcome == EndlessOrOverrun(old(|contents|) - o, mem.Length))
      ensures outcome.Endless? ==> Valid() && contents == old(contents)
      ensures outcome.Done? ==>
                && Valid() && |rest| < |data| && data[|data| - |rest|..] == rest
                && Covered(contents, old(contents), o, data[..|data| - |rest|])
                && old(|contents|) - o + 1 != mem.Length
                && stores == StoresAt(head, o + |data| - |rest|, |contents|, mem.Length, |rest|)
    {
      var n;
      n, outcome := NextChunk(o, |data|);
      rest := data[n..];
      if outcome.Done? {
        assert |data| - |rest| == n;
        StoreChunk(o, data[..n]);
      }
    }

    /** The recursion of `write` over bytes that the tail already counts. */
    method Place(data: seq<byte>, o: nat, ghost stores: bool) returns (outcome: Outcome)
      requires Valid() && o + |data| <= |contents|
      requires stores == StoresAt(head, o, |contents|, mem.Length, |data|)
      modifies mem, this`contents
      ensures outcome == if stores then Done else EndlessOrOverrun(old(|contents|) - o, mem.Length)
      ensures outcome.Done? ==> Valid() && Covered(contents, old(contents), o, data)
      ensures outcome.Endless? ==> Valid() && contents == old(contents)
      decreases |data|
    {
      if data == [] {
        return Done;
      }
      var rest;
      rest, outcome := PlaceChunk(data, o, stores);
      if outcome.Done? {
        ghost var between := contents;
        outcome := Place(rest, o + |data| - |rest|, stores);
        if outcome.Done? {
          CoveredOnward(contents, between, old(contents), o, data, |data| - |rest|);
        }
      }
    }

    /** The two copies of `expand`. */
    method CopyOut(grown: array<byte>)
      requires Valid() && grown != mem && grown.Length >= |contents|
      modifies grown
      ensures grown[..|contents|] == contents
    {
      var count := Count();
      ContiguousCountIs(head, 0, count, tail, mem.Length);
      var first := Min(ContiguousCount(head, tail, mem.Length), count);
      AtIsRemainder(head, first, mem.Length);
      var next := (head + first) % mem.Length;
      forall i | 0 <= i < first {
        grown[i] := mem[head + i];
      }
      forall i | first <= i < count {
        grown[i] := mem[next + i - first];
      }
      forall i | 0 <= i < count ensures grown[i] == contents[i] {
        assert mem[At(head, i, mem.Length)] == contents[i];
      }
      Pointwise(grown[..count], contents);
    }

    /** `expand`; `false` where it throws. */
    method Expand() returns (ok: bool)
      requires Valid()
      modifies this
      ensures Valid() && contents == old(contents)
      ensures ok <==> 4 * old(mem.Length) < maxSize
      ensures if ok then fresh(mem) && mem.Length == 4 * old(mem.Length) && head == 0 && tail == |contents|
              else mem == old(mem) && head == old(head) && tail == old(tail)
    {
      var size := 4 * mem.Length;
      if size >= maxSize {
        return false;
      }
      RingSizeDivides(mem.Length);
      RingSizeGrows(mem.Length);
      var grown := new byte[size];
      CopyOut(grown);
      SmallTail(|contents|, size);
      mem, head, tail := grown, 0, Count();
      forall i | 0 <= i < |contents| ensures mem[At(head, i, mem.Length)] == contents[i] {
        assert grown[..|contents|][i] == contents[i];
      }
      return true;
    }

    /** The steps from behind the tail round to the head. */
    function Space(): (n: nat)
      requires Valid()
      reads this, mem
      ensures n == mem.Length - 1 - |contents|
    {
      SpaceIs(head, |contents|, tail, mem.Length);
      CountBetween(tail + 1, head, mem.Length)
    }

    /** The loop of `get_space` and `write`: grow until there is a free place, and
        enough of them. */
    method MakeRoom(count: nat) returns (ok: bool)
      requires Valid()
      modifies this
      ensures Valid() && contents == old(contents)
      ensures ok <==> Reaches(old(mem.Length), maxSize, |contents| + Max(count, 1))
      ensures ok ==> |contents| + Max(count, 1) < mem.Length
      ensures mem == old(mem) ==> head == old(head) && tail == old(tail)
      ensures mem != old(mem) ==> fresh(mem) && head == 0 && tail == |contents|
      ensures ok ==> View() == old(Roomy(View(), maxSize, count))
      ensures |contents| + Max(count, 1) < old(mem.Length) ==> mem == old(mem)
      decreases maxSize - mem.Length
    {
      var space := Space();
      if space == 0 || space < count {
        RoomyOnward(View(), maxSize, count);
        ok := Expand();
        if ok {
          ok := MakeRoom(count);
        }
      } else {
        ok := true;
      }
    }

    /** The array holds `bytes` behind the tail, which does not count them yet. */
    ghost predicate Behind(bytes: seq<byte>)
      requires Valid()
      reads this, mem
    {
      && |contents| + |bytes| < mem.Length
      && forall j :: |contents| <= j < |contents| + |bytes| ==>
           mem[At(head, j, mem.Length)] == bytes[j - |contents|]
    }

    ghost method BytesBehind(count: nat) returns (bytes: seq<byte>)
      requires Valid() && |contents| + count < mem.Length
      ensures |bytes| == count && Behind(bytes)
    {
      var m, h, n := mem[..], head, |contents|;
      bytes := seq(count, i requires 0 <= i < count => m[At(h, n + i, |m|)]);
    }

    /** `written` */
    method Written(count: nat, ghost bytes: seq<byte>)
      requires Valid() && Behind(bytes) && |bytes| == count
      modifies this`tail, this`contents
      ensures Valid() && contents == old(contents) + bytes
      ensures tail == At(head, |contents|, mem.Length)
    {
      RingSizeDivides(mem.Length);
      TailForth(head, |contents|, tail, count, mem.Length);
      tail := (tail + count) % TWO_TO_THE_64 % mem.Length;
      SmallTail(tail, mem.Length);
      contents := contents + bytes;
    }

    /** `write` at the end of a ring with room. */
    method AppendInside(data: seq<byte>) returns (outcome: Outcome)
      requires Valid() && |contents| + |data| < mem.Length
      modifies mem, this`tail, this`contents
      ensures outcome == if StoresAt(head, |old(contents)|, |old(contents)| + |data|, mem.Length, |data|)
                         then Done else EndlessOrOverrun(|data|, mem.Length)
      ensures outcome.Done? ==>
                Valid() && tail == At(head, |contents|, mem.Length) && contents == old(contents) + data
    {
      ghost var bytes := BytesBehind(|data|);
      var offset := Count();
      Written(|data|, bytes);
      ghost var counted := contents;
      outcome := Place(data, offset, StoresAt(head, offset, |contents|, mem.Length, |data|));
      if outcome.Done? {
        CoveredEnd(contents, counted, old(contents), data);
      }
    }

    /** `write` at the end. */
    method Append(data: seq<byte>) returns (outcome: Outcome)
      requires Valid()
      modifies this, mem
      ensures outcome == old(Appending(View(), maxSize, |data|))
      ensures outcome.NoSpace? ==> Valid() && contents == old(contents)
      ensures outcome.Done? ==> Valid() && contents == old(contents) + data
      ensures |old(contents)| + Max(|data|, 1) < old(mem.Length) ==> mem == old(mem)
      ensures outcome.Done? ==> View() == old(Appended(View(), maxSize, |data|))
      ensures mem == old(mem) || fresh(mem)
    {
      var ok := MakeRoom(|data|);
      if ok {
        outcome := AppendInside(data);
      } else {
        outcome := NoSpace;
      }
    }

    /** `write` at an offset. */
    method Overwrite(data: seq<byte>, offset: nat) returns (outcome: Outcome)
      requires Valid()
      modifies mem, this`contents
      ensures outcome == old(Overwriting(View(), offset, |data|))
      ensures outcome.InvalidOffset? ==> Valid() && contents == old(contents)
      ensures outcome.Done? ==> Valid() && contents == Overwritten(old(contents), offset, data)
    {
      if Count() < offset + |data| {
        return InvalidOffset;
      }
      outcome := Place(data, offset, StoresAt(head, offset, |contents|, mem.Length, |data|));
    }

    /** `remove_from_back` */
    method RemoveFromBack(count: nat)
      requires Valid() && count % TWO_TO_THE_32 <= |contents|
      modifies this`tail, this`contents
      ensures Valid() && contents == old(contents)[..|old(contents)| - count % TWO_TO_THE_32]
      ensures tail == (old(tail) - count) % TWO_TO_THE_64
    {
      RingSizeDivides(mem.Length);
      TailBack(head, |contents|, tail, count, mem.Length);
      tail := (tail - count) % TWO_TO_THE_64;
      contents := contents[..|contents| - count % TWO_TO_THE_32];
    }

    /** Bytes stored in one stretch behind the tail. */
    method StoreBehind(piece: seq<byte>)
      requires Valid() && tail + |piece| <= mem.Length && tail < mem.Length && |contents| + |piece| < mem.Length
      modifies mem
      ensures Valid() && Behind(piece)
    {
      RingSizeDivides(mem.Length);
      SmallTail(tail, mem.Length);
      forall i | 0 <= i < |piece| {
        mem[tail + i] := piece[i];
      }
      forall i | 0 <= i < |contents| ensures mem[At(head, i, mem.Length)] == contents[i] {
        var a := At(head, i, mem.Length);
        assert a < tail || tail + |piece| <= a;
      }
      forall j | |contents| <= j < |contents| + |piece|
        ensures mem[At(head, j, mem.Length)] == piece[j - |contents|]
      {
        assert At(head, j, mem.Length) == tail + (j - |contents|);
      }
    }

    /** `get_continguious_space` of a ring with a free place. */
    function FreeStretch(): (n: nat)
      requires Valid() && tail < mem.Length
      reads this, mem
      ensures n == Min(mem.Length - 1 - |contents|, mem.Length - tail)
    {
      ValidEndFits();
      ContiguousSpaceIs(head, 0, |contents|, tail, mem.Length);
      EndIs(tail, mem.Length);
      ContiguousSpace(head, tail, mem.Length)
    }

    /** A `receive` into a ring with a free place. */
    method ReceiveInside(available: seq<byte>) returns (n: nat)
      requires Valid() && tail < mem.Length && |contents| + 1 < mem.Length
      modifies mem, this`tail, this`contents
      ensures n == Min(Min(mem.Length - 1 - |old(contents)|, mem.Length - old(tail)), |available|)
      ensures Valid() && contents == old(contents) + available[..n]
      ensures tail == At(head, |contents|, mem.Length)
      ensures n < |available| ==> |contents| + 1 == mem.Length || tail == 0
    {
      RingSizeDivides(mem.Length);
      SmallTail(tail, mem.Length);
      n := Min(FreeStretch(), |available|);
      EdgeReached(head, |contents|, n, |available|, mem.Length);
      StoreBehind(available[..n]);
      Written(n, available[..n]);
    }

    /** A `receive` of what is available into the free stretch behind the tail, which
        first grows where there is none. */
    method Receive(available: seq<byte>) returns (ok: bool, n: nat)
      requires Valid() && tail < mem.Length
      modifies this, mem
      ensures ok <==> Reaches(old(mem.Length), maxSize, |old(contents)| + 1)
      ensures Valid() && n <= |available| && contents == old(contents) + available[..n]
      ensures ok ==> n == old(Receiving(View(), maxSize, |available|))
      ensures ok ==> View() == old(Received(View(), maxSize, |available|))
      ensures n == 0 <==> !ok || available == []
      ensures ok && n < |available| ==> |contents| + 1 == mem.Length || tail == 0
      ensures mem == old(mem) || fresh(mem)
    {
      n := 0;
      ok := MakeRoom(0);
      if ok {
        n := ReceiveInside(available);
      }
    }

    /** The next stretch of a range. */
    method NextStretch(offset: nat, count: nat) returns (piece: seq<byte>)
      requires Valid() && offset <= |contents|
      ensures |piece| == Stretch(View(), offset, count) && piece == contents[offset..offset + |piece|]
    {
      var h := (head + offset) % mem.Length;
      AtIsRemainder(head, offset, mem.Length);
      ContiguousCountIs(head, offset, |contents|, tail, mem.Length);
      var n := Min(ContiguousCount(h, tail, mem.Length), count);
      OneStretch(offset, n);
      piece := mem[h..h + n];
    }

    ghost predicate Beside(source: Circle, from: Shape, s: seq<byte>)
      reads this, source, source.mem
    {
      source.Valid() && source != this && source.mem != mem && source.View() == from && source.contents == s
    }

    /** One stretch is written to a ring of shape `v`. */
    method AppendStretch(source: Circle, offset: nat, count: nat, ghost from: Shape, ghost s: seq<byte>,
                         ghost v: Shape) returns (n: nat, outcome: Outcome)
      requires Valid() && v == View() && Beside(source, from, s) && offset <= |s|
      modifies this, mem
      ensures Beside(source, from, s) && n == Stretch(from, offset, count)
      ensures outcome == Stretching(v, maxSize, n)
      ensures outcome.Done? ==> Valid() && contents == old(contents) + s[offset..offset + n]
      ensures outcome.Done? && n > 0 ==> View() == Appended(v, maxSize, n)
      ensures mem == old(mem) || fresh(mem)
    {
      var piece := source.NextStretch(offset, count);
      n := |piece|;
      if n == 0 {
        AppendNothing(contents);
        outcome := Done;
      } else {
        outcome := Append(piece);
      }
    }

    /** The second stretch; a third turn would find nothing. */
    method AppendRest(source: Circle, offset: nat, n: nat, count: nat, ghost from: Shape, ghost s: seq<byte>,
                      ghost v: Shape, ghost before: seq<byte>) returns (outcome: Outcome)
      requires Valid() && v == View() && Beside(source, from, s) && offset <= |s|
      requires 0 < n == Stretch(from, offset, count) && contents == before + s[offset..offset + n]
      modifies this, mem
      ensures outcome == Stretching(v, maxSize, Min(count, |s| - offset) - n)
      ensures outcome.Done? ==> Valid() && contents == before + Range(s, offset, count)
      ensures mem == old(mem) || fresh(mem)
    {
      SecondStretch(from, s, offset, count);
      var m;
      m, outcome := AppendStretch(source, offset + n, count - n, from, s, v);
      if outcome.Done? {
        TwoStretches(contents, old(contents), before, s, offset, n, m, count);
      }
    }

    /** `write` of a range of another ring, of shape `from` and contents `s`: stretch by
        stretch, as far as that ring goes. */
    method AppendRange(source: Circle, offset: nat, count: nat, ghost from: Shape, ghost s: seq<byte>,
                       ghost v: Shape) returns (outcome: Outcome)
      requires Valid() && v == View() && Beside(source, from, s) && offset <= |s|
      modifies this, mem
      ensures outcome == Relaying(v, maxSize, from, offset, count)
      ensures outcome.Done? ==> Valid() && contents == old(contents) + Range(s, offset, count)
      ensures mem == old(mem) || fresh(mem)
    {
      NoStretch(from, s, offset, count, contents);
      var n;
      n, outcome := AppendStretch(source, offset, count, from, s, v);
      if n > 0 && outcome.Done? {
        outcome := AppendRest(source, offset, n, count, from, s, Appended(v, maxSize, n), old(contents));
      }
    }
  }

  // ---------- which writes succeed ----------

  /** A write at the end throws exactly where no ring size below the maximum has the
      room; in a ring that has it, it returns exactly when the bytes can be stored, and
      in one that had to grow, unless they are all the ring comes to hold. */
  lemma AppendingIff(v: Shape, max: nat, count: nat)
    requires v.Valid()
    ensures var needed := v.total + Max(count, 1);
            && (Appending(v, max, count).NoSpace? <==> !Reaches(v.size, max, needed))
            && (needed < v.size ==>
                (Appending(v, max, count).Done? <==> StoresAt(v.head, v.total, v.total + count, v.size, count)))
            && (needed >= v.size && Reaches(v.size, max, needed) ==>
                (Appending(v, max, count).Done? <==> count + 1 != Grown(v.size, max, needed)))
  {
  }

  /** A write at an offset throws exactly where it would pass the end of the contents,
      and otherwise returns exactly when the bytes can be stored. */
  lemma OverwritingIff(v: Shape, offset: nat, count: nat)
    requires v.Valid()
    ensures Overwriting(v, offset, count).InvalidOffset? <==> offset + count > v.total
    ensures Overwriting(v, offset, count).Done? <==>
            offset + count <= v.total && StoresAt(v.head, offset, v.total, v.size, count)
    ensures !Overwriting(v, offset, count).NoSpace?
  {
  }

  /** A write of `n` bytes at place `p`, the tail `d` bytes on, returns with the bytes
      in their places exactly when there is a free place beside those bytes, and the
      array either does not end inside the write or ends after one, three, seven, ...
      times as many bytes as there are such places. */
  lemma StoresIff(size: nat, p: nat, n: nat, d: nat)
    requires p < size && 0 < n <= d < size
    ensures var free := size - 1 - d;
            Stores(size, p, n, d) <==>
            free > 0 && (p + n <= size || exists k: nat :: size - p == (Pow2(k) - 1) * free)
  {
    if d + 1 < size {
      LandsIff(size - 1 - d, size - p);
    }
  }

  /** As long as nothing has been removed from the front, only a write that begins at
      the front of a full ring fails. */
  lemma StoresFromZero(o: nat, total: nat, size: nat, count: nat)
    requires 0 < count && o + count <= total < size
    ensures StoresAt(0, o, total, size, count) <==> !(o == 0 && total + 1 == size)
  {
  }

  /** A write that wraps around fails where the array ends before the free places
      would: a header in a ring of 16 bytes or more never wraps around. */
  lemma ShortWrapFails(size: nat, p: nat, n: nat, d: nat)
    requires p < size < p + n && n <= d < size && size - p < size - 1 - d
    ensures !Stores(size, p, n, d)
  {
  }

  /** The sizes of `buffer::buffer<>` are 1024, 4096, ... below its maximum. */
  lemma DefaultReach(needed: nat)
    ensures Reaches(1024, 409600, needed) <==> needed < 262144
  {
    assert Reaches(262144, 409600, needed) <==> needed < 262144;
    assert Reaches(65536, 409600, needed) <==> needed < 65536 || Reaches(262144, 409600, needed);
    assert Reaches(16384, 409600, needed) <==> needed < 16384 || Reaches(65536, 409600, needed);
    assert Reaches(4096, 409600, needed) <==> needed < 4096 || Reaches(16384, 409600, needed);
  }
}
