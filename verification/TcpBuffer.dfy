// hl/net/tcp/tcp_buffer.cc: a growable, compacting byte queue over one array and two indices.
//
// `Buf` is the whole physical state (array content and both indices) as a value; the class
// TcpBuffer updates that state in place and every method is proved equal to one function on Buf.

module Buffers {
  import opened Bytes

  datatype Buf = Buf(data: seq<byte>, r: int, w: int) {
    /** The index invariant of the class. */
    ghost predicate Ok() {
      0 <= r <= w <= |data|
    }

    /** The abstract value: the readable bytes. */
    function View(): (v: seq<byte>)
      requires Ok()
      ensures |v| == w - r
    {
      data[r..w]
    }

    function Writable(): int {
      |data| - w
    }
  }

  lemma SliceOfSlice(s: seq<byte>, r: int, w: int, n: int)
    requires 0 <= r <= w <= |s| && 0 <= n <= w - r
    ensures s[r..w][..n] == s[r..r + n]
  {
  }

  function Fresh(size: nat): (b: Buf)
    ensures b.Ok() && b.View() == [] && |b.data| == size
  {
    Buf(Zeros(size), 0, 0)
  }

  /** Copy the readable bytes to the front of a zeroed array of size `n`, dropping what does not fit. */
  function Moved(b: Buf, n: nat): (b': Buf)
    requires b.Ok()
    ensures b'.Ok() && |b'.data| == n && b'.r == 0
    ensures b'.View() == b.View()[..Min(n, b.w - b.r)]
  {
    var count := Min(n, b.w - b.r);
    var kept := b.data[b.r..b.r + count];
    assert kept == b.data[b.r..b.w][..count];
    Buf(kept + Zeros(n - count), 0, count)
  }

  /** `adjustBuffer` reclaims the consumed third of the array. */
  function Adjust(b: Buf): (b': Buf)
    requires b.Ok()
    ensures b'.Ok() && b'.View() == b.View() && |b'.data| == |b.data| && b'.w <= b.w
    ensures |b.data| >= 3 ==> b'.r < |b.data| / 3
  {
    if b.r < |b.data| / 3 then b else Moved(b, |b.data|)
  }

  /** `resizeBuffer`. */
  function Resize(b: Buf, n: nat): (b': Buf)
    requires b.Ok()
    ensures b'.Ok() && |b'.data| == n
    ensures b'.View() == b.View()[..Min(n, b.w - b.r)]
  {
    Moved(b, n)
  }

  /** Overwrite `|bs|` bytes of the array from the write index on; the indices stay. */
  function Poke(b: Buf, bs: seq<byte>): (b': Buf)
    requires b.Ok() && |bs| <= b.Writable()
    ensures b'.Ok() && b'.View() == b.View() && |b'.data| == |b.data|
    ensures b'.r == b.r && b'.w == b.w && b'.data[b'.w..b'.w + |bs|] == bs
  {
    Buf(b.data[..b.w] + bs + b.data[b.w + |bs|..], b.r, b.w)
  }

  /** The size `writeToBuffer` grows to: 1.5 times the write index plus the new bytes. */
  function GrownSize(b: Buf, size: nat): (n: nat)
    requires b.Ok()
    ensures n >= b.w - b.r + size
  {
    3 * (b.w + size) / 2
  }

  /** The state in which `writeToBuffer` starts its `memcpy`. */
  function Roomy(b: Buf, size: nat): (b': Buf)
    requires b.Ok()
    ensures b'.Ok() && b'.View() == b.View() && size <= b'.Writable()
  {
    if size > b.Writable() then
      assert b.View()[..b.w - b.r] == b.View();
      Resize(b, GrownSize(b, size))
    else b
  }

  /** `writeToBuffer`: grow when the free space is too short, then append. */
  function Write(b: Buf, bs: seq<byte>): (b': Buf)
    requires b.Ok()
    ensures b'.Ok() && b'.View() == b.View() + bs
  {
    var p := Poke(Roomy(b, |bs|), bs);
    assert p.data[p.r..p.w + |bs|] == p.View() + bs;
    p.(w := p.w + |bs|)
  }

  /** The readable bytes a read of `size` hands out. */
  function Offered(b: Buf, size: nat): (s: seq<byte>)
    requires b.Ok()
    ensures |s| == Min(size, b.w - b.r)
  {
    b.View()[..Min(size, b.w - b.r)]
  }

  /** The state after `size` readable bytes, or all of them, are consumed. */
  function Consume(b: Buf, size: nat): (b': Buf)
    requires b.Ok()
    ensures b'.Ok() && |b'.data| == |b.data|
    ensures b'.View() == b.View()[Min(size, b.w - b.r)..]
  {
    if b.r == b.w then b else Adjust(b.(r := b.r + Min(size, b.w - b.r)))
  }

  /** `moveReadIndex` compares the new index as `size_t`, so a negative sum is refused as well. */
  predicate ReadMoveRefused(b: Buf, n: int) {
    b.r + n < 0 || b.r + n >= |b.data|
  }

  /** A granted move beyond the write index: the readable count is negative from then on. */
  predicate ReadMoveAstray(b: Buf, n: int) {
    !ReadMoveRefused(b, n) && b.r + n > b.w
  }

  /**
   * `moveReadIndex`: refused unless the new index lies strictly inside the array.  A negative move
   * makes consumed bytes readable again.  A move astray leaves no readable bytes to speak of, so it is
   * the identity here; what it does to the indices is stated where the object makes it.
   */
  function MoveRead(b: Buf, n: int): (b': Buf)
    requires b.Ok()
    ensures b'.Ok() && |b'.data| == |b.data| && b'.w <= b.w
    ensures ReadMoveRefused(b, n) || ReadMoveAstray(b, n) ==> b' == b
    ensures !ReadMoveRefused(b, n) && 0 <= n <= b.w - b.r ==> b'.View() == b.View()[n..]
    ensures !ReadMoveRefused(b, n) && n < 0 ==> b'.View() == b.data[b.r + n..b.r] + b.View()
  {
    if ReadMoveRefused(b, n) || ReadMoveAstray(b, n) then b
    else
      assert n < 0 ==> b.data[b.r + n..b.w] == b.data[b.r + n..b.r] + b.View();
      Adjust(b.(r := b.r + n))
  }

  predicate WriteMoveRefused(b: Buf, n: int) {
    b.w + n < 0 || b.w + n >= |b.data|
  }

  /** A granted move below the read index. */
  predicate WriteMoveAstray(b: Buf, n: int) {
    !WriteMoveRefused(b, n) && b.w + n < b.r
  }

  /** `moveWriteIndex`: refused unless the new index lies strictly inside the array. */
  function MoveWrite(b: Buf, n: int): (b': Buf)
    requires b.Ok()
    ensures b'.Ok() && |b'.data| == |b.data|
    ensures WriteMoveRefused(b, n) || WriteMoveAstray(b, n) ==> b' == b
    ensures !WriteMoveRefused(b, n) && !WriteMoveAstray(b, n) ==>
              b'.View() == b.data[b.r..b.w + n] && b'.w < |b.data|
  {
    if WriteMoveRefused(b, n) || WriteMoveAstray(b, n) then b else Adjust(b.(w := b.w + n))
  }

  class TcpBuffer {
    var readIndex: int
    var writeIndex: int
    var buffer: array<byte>

    ghost function State(): Buf
      reads this, buffer
    {
      Buf(buffer[..], readIndex, writeIndex)
    }

    ghost predicate Valid()
      reads this, buffer
    {
      State().Ok()
    }

    constructor (size: nat)
      ensures State() == Fresh(size) && fresh(buffer)
    {
      buffer := new byte[size](_ => 0);
      readIndex, writeIndex := 0, 0;
    }

    function ReadAble(): (n: int)
      requires Valid()
      reads this, buffer
      ensures n == |State().View()|
    {
      writeIndex - readIndex
    }

    function WriteAble(): (n: int)
      requires Valid()
      reads this, buffer
      ensures n == State().Writable()
    {
      buffer.Length - writeIndex
    }

    /** The `memcpy` into free space that `writeToBuffer` and the socket read both do. */
    method CopyIn(bs: seq<byte>)
      requires Valid() && |bs| <= WriteAble()
      modifies buffer
      ensures State() == Poke(old(State()), bs)
    {
      forall k | 0 <= k < |bs| {
        buffer[writeIndex + k] := bs[k];
      }
      ghost var was, now := old(State()), buffer[..];
      assert now == was.data[..was.w] + bs + was.data[was.w + |bs|..];
    }

    /** A new zeroed array of size `n` that starts with the first `count` readable bytes. */
    method Reallocate(n: nat, count: nat)
      requires Valid() && count == Min(n, writeIndex - readIndex)
      modifies this
      ensures State() == Moved(old(State()), n)
      ensures fresh(buffer)
    {
      var tmp := new byte[n](_ => 0);
      forall k | 0 <= k < count {
        tmp[k] := buffer[readIndex + k];
      }
      assert tmp[..] == buffer[readIndex..readIndex + count] + Zeros(n - count);
      buffer := tmp;
      readIndex := 0;
      writeIndex := readIndex + count;
    }

    method AdjustBuffer()
      requires Valid()
      modifies this
      ensures State() == Adjust(old(State()))
      ensures buffer == old(buffer) || fresh(buffer)
    {
      if readIndex < buffer.Length / 3 {
        return;
      }
      Reallocate(buffer.Length, ReadAble());
    }

    method ResizeBuffer(newSize: nat)
      requires Valid()
      modifies this
      ensures State() == Resize(old(State()), newSize)
      ensures fresh(buffer)
    {
      Reallocate(newSize, Min(newSize, ReadAble()));
    }

    method WriteToBuffer(bs: seq<byte>)
      requires Valid()
      modifies this, buffer
      ensures State() == Write(old(State()), bs)
      ensures buffer == old(buffer) || fresh(buffer)
    {
      if |bs| > WriteAble() {
        var newSize := 3 * (writeIndex + |bs|) / 2;
        ResizeBuffer(newSize);
      }
      assert State() == Roomy(old(State()), |bs|);
      CopyIn(bs);
      writeIndex := writeIndex + |bs|;
    }

    /** `readFromBuffer`; when nothing is readable the caller's vector `re` is left as it was. */
    method ReadFromBuffer(re: seq<byte>, size: nat) returns (re': seq<byte>)
      requires Valid()
      modifies this
      ensures State() == Consume(old(State()), size)
      ensures re' == if old(ReadAble()) == 0 then re else Offered(old(State()), size)
      ensures buffer == old(buffer) || fresh(buffer)
    {
      if ReadAble() == 0 {
        return re;
      }
      var readSize := Min(size, ReadAble());
      re' := CopyOut(readSize);
      Advance(readSize);
    }

    /** Move the read index inside the readable bytes, then reclaim. */
    method Advance(n: int)
      requires Valid() && 0 <= readIndex + n <= writeIndex
      modifies this
      ensures State() == Adjust(old(State()).(r := old(readIndex) + n))
      ensures buffer == old(buffer) || fresh(buffer)
    {
      readIndex := readIndex + n;
      AdjustBuffer();
    }

    /** The `memcpy` of the first `count` readable bytes into a vector. */
    method CopyOut(count: nat) returns (bs: seq<byte>)
      requires Valid() && count <= ReadAble()
      ensures bs == State().View()[..count]
    {
      bs := buffer[readIndex..readIndex + count];
      SliceOfSlice(buffer[..], readIndex, writeIndex, count);
    }

    /**
     * `moveReadIndex`.  After a move astray the indices have crossed, and the object is as `adjustBuffer`
     * finds it: it returns when the read index is in the first third, and copies a negative count otherwise.
     */
    method MoveReadIndex(size: int) returns (astray: bool)
      requires Valid()
      modifies this
      ensures astray == ReadMoveAstray(old(State()), size)
      ensures !astray ==> Valid() && State() == MoveRead(old(State()), size)
      ensures astray ==> State() == old(State()).(r := old(readIndex) + size)
      ensures buffer == old(buffer) || fresh(buffer)
    {
      var j := readIndex + size;
      if j < 0 || j >= buffer.Length {
        return false;
      }
      astray := j > writeIndex;
      readIndex := j;
      if !astray {
        AdjustBuffer();
      }
    }

    /** `moveWriteIndex`; the same for a move of the write index below the read index. */
    method MoveWriteIndex(size: int) returns (astray: bool)
      requires Valid()
      modifies this
      ensures astray == WriteMoveAstray(old(State()), size)
      ensures !astray ==> Valid() && State() == MoveWrite(old(State()), size)
      ensures astray ==> State() == old(State()).(w := old(writeIndex) + size)
      ensures buffer == old(buffer) || fresh(buffer)
    {
      var j := writeIndex + size;
      if j < 0 || j >= buffer.Length {
        return false;
      }
      astray := j < readIndex;
      writeIndex := j;
      if !astray {
        assert State() == old(State()).(w := j);
        AdjustBuffer();
      }
    }
  }
}
