/** The memory stream: a fixed-capacity byte buffer with a read cursor and a
    write cursor, used to stage binary messages.

    The cursors are kept as offsets from the start of the storage (r for
    cursor_r, w for cursor_w). The source never checks a cursor against the
    data or the capacity; here every read requires its bytes to lie below
    the write cursor and every write requires its bytes to fit below the
    capacity. */
module MemoryStreams {
  import opened Wire
  import opened StreamModel

  class MemoryStream {
    const capacity: nat
    const buf: array<byte>
    var r: nat
    var w: nat

    /** 0 <= r <= w <= capacity == buf.Length */
    ghost predicate Valid()
      reads this
    {
      buf.Length == capacity && r <= w <= capacity
    }

    /** The stream's state as a value of the model. */
    ghost function State(): (s: Stream)
      reads this, buf
      requires Valid()
      ensures s.Valid() && |s.buf| == capacity
    {
      Stream(buf[..], r, w)
    }

    /** init_memory_stream: storage of exactly cap bytes (its contents are
        not specified), both cursors at its start. */
    constructor (cap: nat)
      ensures Valid() && fresh(buf)
      ensures capacity == cap && r == 0 && w == 0
      ensures UsedSize() == 0 && FreeSize() == cap
    {
      capacity := cap;
      buf := new byte[cap];
      r, w := 0, 0;
    }

    /** The used size counts every byte written since the last reset or
        rewind, from the start of the storage, including bytes already
        read. */
    function UsedSize(): (n: int)
      reads this
      requires Valid()
      ensures n == w && w - r <= n <= capacity
    {
      w
    }

    /** Used and free size together make up the capacity. */
    function FreeSize(): (f: int)
      reads this
      requires Valid()
      ensures 0 <= f <= capacity && UsedSize() + f == capacity
    {
      capacity - UsedSize()
    }

    /** True when the free size is positive and strictly greater than size:
        for size >= 0, exactly when size bytes fit with at least one byte to
        spare. */
    function EnsureFreeSize(size: int): (b: bool)
      reads this
      requires Valid()
      ensures size >= 0 ==> (b <==> w + size < capacity)
      ensures size < 0 ==> (b <==> w < capacity)
    {
      var sz := FreeSize();
      sz > 0 && sz > size
    }

    method Reset()
      requires Valid()
      modifies this
      ensures Valid() && State() == Emptied(old(State()))
    {
      r, w := 0, 0;
    }

    /** Moves the unread bytes to the start of the storage, one byte at a
        time from the lowest offset up, so that a byte is read before the
        copy can overwrite it. */
    method Rewind()
      requires Valid()
      modifies this, buf
      ensures Valid() && State() == Rewound(old(State()))
    {
      if w > r {
        var from, size := r, w - r;
        var i := 0;
        while i < size
          modifies buf
          invariant 0 <= i <= size
          invariant forall k :: 0 <= k < i ==> buf[k] == old(buf[from + k])
          invariant forall k :: i <= k < buf.Length ==> buf[k] == old(buf[k])
        {
          buf[i] := buf[from + i];
          i := i + 1;
        }
        assert buf[..] == old(buf[..])[from..w] + old(buf[..])[size..];
        r, w := 0, size;
      } else {
        Reset();
      }
    }

    method Skip(len: int)
      requires Valid() && len >= 0
      modifies this
      ensures Valid() && State() == Skipped(old(State()), len)
    {
      if r + len < w {
        r := r + len;
      } else {
        r := w;
      }
    }

    /** Skipping everything empties the stream, discarding the written bytes
        too, exactly as Reset does. */
    method SkipAll()
      requires Valid()
      modifies this
      ensures Valid() && State() == Emptied(old(State()))
    {
      Reset();
    }

    /** Copies out the len bytes at the read cursor and moves past them. */
    method ReadRaw(len: int) returns (bytes: seq<byte>)
      requires Valid() && 0 <= len && r + len <= w
      modifies this
      ensures Valid() && State() == Consumed(old(State()), len)
      ensures bytes == Peek(old(State()), len)
    {
      bytes := buf[r..r + len];
      r := r + len;
    }

    method ReadByte() returns (d: int8)
      requires Valid() && r + BYTE_WIDTH <= w
      modifies this
      ensures Valid() && State() == Consumed(old(State()), BYTE_WIDTH)
      ensures d == DecodeInt(Peek(old(State()), BYTE_WIDTH))
    {
      var bytes := ReadRaw(BYTE_WIDTH);
      d := DecodeInt(bytes);
    }

    method ReadInt16() returns (d: int16)
      requires Valid() && r + INT16_WIDTH <= w
      modifies this
      ensures Valid() && State() == Consumed(old(State()), INT16_WIDTH)
      ensures d == DecodeInt(Peek(old(State()), INT16_WIDTH))
    {
      var bytes := ReadRaw(INT16_WIDTH);
      d := DecodeInt(bytes);
    }

    method ReadInt32() returns (d: int32)
      requires Valid() && r + INT32_WIDTH <= w
      modifies this
      ensures Valid() && State() == Consumed(old(State()), INT32_WIDTH)
      ensures d == DecodeInt(Peek(old(State()), INT32_WIDTH))
    {
      var bytes := ReadRaw(INT32_WIDTH);
      d := DecodeInt(bytes);
    }

    method ReadInt64() returns (d: int64)
      requires Valid() && r + INT64_WIDTH <= w
      modifies this
      ensures Valid() && State() == Consumed(old(State()), INT64_WIDTH)
      ensures d == DecodeInt(Peek(old(State()), INT64_WIDTH))
    {
      var bytes := ReadRaw(INT64_WIDTH);
      d := DecodeInt(bytes);
    }

    /** Reads the 16-bit length prefix, clamps the length, and copies out
        that many payload bytes. */
    method ReadString() returns (str: seq<byte>, len: uint16)
      requires Valid() && CanReadString(State())
      modifies this
      ensures Valid() && (str, State()) == StringRead(old(State()))
      ensures len == |str|
    {
      ghost var s := State();
      var d := ReadInt16();
      var n := ToUnsigned(d, INT16_WIDTH);
      var szmax := UsedSize();
      n := if n < STRING_SCRATCH_SIZE then n else STRING_SCRATCH_SIZE;
      n := if n < szmax then n else szmax;
      StringReadSteps(s);
      assert n == StringLen(DeclaredLen(s), s.w);
      str := ReadRaw(n);
      len := n;
    }

    /** Copies the first len bytes of src to the write cursor and moves past
        them. */
    method WriteRaw(src: seq<byte>, len: int)
      requires Valid() && 0 <= len <= |src| && w + len <= capacity
      modifies this, buf
      ensures Valid() && State() == Written(old(State()), src[..len])
      ensures FreeSize() == old(FreeSize()) - len
    {
      forall i | 0 <= i < len {
        buf[w + i] := src[i];
      }
      assert buf[..] == old(buf[..])[..w] + src[..len] + old(buf[..])[w + len..];
      w := w + len;
    }

    method WriteByte(d: int8)
      requires Valid() && w + BYTE_WIDTH <= capacity
      modifies this, buf
      ensures Valid() && State() == Written(old(State()), EncodeInt(d, BYTE_WIDTH))
      ensures FreeSize() == old(FreeSize()) - BYTE_WIDTH
    {
      WriteRaw(EncodeInt(d, BYTE_WIDTH), BYTE_WIDTH);
    }

    method WriteInt16(d: int16)
      requires Valid() && w + INT16_WIDTH <= capacity
      modifies this, buf
      ensures Valid() && State() == Written(old(State()), EncodeInt(d, INT16_WIDTH))
      ensures FreeSize() == old(FreeSize()) - INT16_WIDTH
    {
      WriteRaw(EncodeInt(d, INT16_WIDTH), INT16_WIDTH);
    }

    method WriteInt32(d: int32)
      requires Valid() && w + INT32_WIDTH <= capacity
      modifies this, buf
      ensures Valid() && State() == Written(old(State()), EncodeInt(d, INT32_WIDTH))
      ensures FreeSize() == old(FreeSize()) - INT32_WIDTH
    {
      WriteRaw(EncodeInt(d, INT32_WIDTH), INT32_WIDTH);
    }

    method WriteInt64(d: int64)
      requires Valid() && w + INT64_WIDTH <= capacity
      modifies this, buf
      ensures Valid() && State() == Written(old(State()), EncodeInt(d, INT64_WIDTH))
      ensures FreeSize() == old(FreeSize()) - INT64_WIDTH
    {
      WriteRaw(EncodeInt(d, INT64_WIDTH), INT64_WIDTH);
    }

    /** Writes len cast to int16 through the int16 path, then the first len
        bytes of str: 2 + len bytes in all. */
    method WriteString(str: seq<byte>, len: uint16)
      requires Valid() && len <= |str| && w + INT16_WIDTH + len <= capacity
      modifies this, buf
      ensures Valid() && State() == Written(old(State()), EncodeString(str[..len]))
      ensures FreeSize() == old(FreeSize()) - (INT16_WIDTH + len)
    {
      WriteInt16(Signed(len, INT16_WIDTH));
      WriteRaw(str, len);
      WrittenTwice(old(State()), StringPrefix(len), str[..len]);
    }
  }

  /** Capacity 16: three int32 writes use 12 bytes; the first read gives
      the first value, skipping 4 bytes passes over the second, the next
      read gives the third, and the rewind that follows leaves the stream
      empty. */
  method Int32Scenario(a: int32, b: int32, c: int32)
    returns (used: int, first: int32, third: int32, usedAfterRewind: int)
    ensures used == 12 && first == a && third == c && usedAfterRewind == 0
  {
    var ea, eb, ec := EncodeInt(a, 4), EncodeInt(b, 4), EncodeInt(c, 4);
    DecodeEncode(a, 4);
    DecodeEncode(c, 4);
    var m := new MemoryStream(16);
    m.WriteInt32(a);
    m.WriteInt32(b);
    m.WriteInt32(c);
    used := m.UsedSize();
    assert m.State().Unread() == ea + (eb + ec);
    ReadFront(m.State(), ea, eb + ec);
    first := m.ReadInt32();
    ReadFront(m.State(), eb, ec);
    m.Skip(4);
    ReadFront(m.State(), ec, []);
    third := m.ReadInt32();
    m.Rewind();
    usedAfterRewind := m.UsedSize();
  }

  /** Capacity 64: writing "hello" with length 5 stores the prefix 5 and the
      five bytes, 7 bytes in all, and the string read gives back "hello" and
      5. */
  method StringScenario() returns (used: int, prefix: seq<byte>, str: seq<byte>, len: uint16)
    ensures used == 7 && prefix == [5, 0]
    ensures str == [0x68, 0x65, 0x6c, 0x6c, 0x6f] && len == 5
  {
    var hello: seq<byte> := [0x68, 0x65, 0x6c, 0x6c, 0x6f];
    var m := new MemoryStream(64);
    m.WriteString(hello, 5);
    used := m.UsedSize();
    prefix := m.buf[..2];
    StringRoundTrip(m.State(), hello);
    str, len := m.ReadString();
  }
}
