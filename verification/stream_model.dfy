/** The memory stream's state as a value, and what each operation does to it.

    A stream is its storage (capacity bytes) with a read offset r and a
    write offset w, both measured from the start of the storage. The bytes
    in [r, w) have been written and not yet read. The class in module
    MemoryStreams is proved to move between these values. */
module StreamModel {
  import opened Wire

  /** Size of the scratch buffer that a string read copies into; a string
      read never returns more bytes than this. */
  const STRING_SCRATCH_SIZE: nat := 32768

  datatype Stream = Stream(buf: seq<byte>, r: nat, w: nat)
  {
    /** The cursor invariant: 0 <= r <= w <= capacity. */
    predicate Valid()
    {
      r <= w <= |buf|
    }

    /** The bytes written and not yet read. */
    function Unread(): seq<byte>
      requires Valid()
    {
      buf[r..w]
    }
  }

  function Min(a: int, b: int): int
  {
    if a < b then a else b
  }

  /** Both cursors back to the start; the storage is left as it is. */
  function Emptied(s: Stream): (t: Stream)
    ensures t.Valid() && t.buf == s.buf
    ensures t.Unread() == [] && t.w == 0
  {
    s.(r := 0, w := 0)
  }

  /** Rewind: the unread bytes move to the front of the storage, so the
      space taken by bytes already read becomes free again. With nothing
      unread this is the same as emptying the stream. */
  function Rewound(s: Stream): (t: Stream)
    requires s.Valid()
    ensures t.Valid() && |t.buf| == |s.buf|
    ensures t.r == 0 && t.w == s.w - s.r
    ensures t.Unread() == s.Unread()
  {
    if s.w > s.r then
      var size := s.w - s.r;
      Stream(s.buf[s.r..s.w] + s.buf[size..], 0, size)
    else
      Emptied(s)
  }

  /** Skip: drops the first n unread bytes, or all of them when fewer than
      n are unread; the read offset never passes the write offset. */
  function Skipped(s: Stream, n: int): (t: Stream)
    requires s.Valid() && n >= 0
    ensures t.Valid() && t.buf == s.buf && t.w == s.w
    ensures t.Unread() == if n < |s.Unread()| then s.Unread()[n..] else []
  {
    if s.r + n < s.w then s.(r := s.r + n) else s.(r := s.w)
  }

  /** A write of bytes at the write offset: the bytes join the end of the
      unread data, and nothing before the write offset or after the written
      range changes. */
  function Written(s: Stream, bytes: seq<byte>): (t: Stream)
    requires s.Valid() && s.w + |bytes| <= |s.buf|
    ensures t.Valid() && |t.buf| == |s.buf|
    ensures t.r == s.r && t.w == s.w + |bytes|
    ensures t.buf[s.w..t.w] == bytes
    ensures t.buf[..s.w] == s.buf[..s.w] && t.buf[t.w..] == s.buf[t.w..]
    ensures t.Unread() == s.Unread() + bytes
  {
    var t := Stream(s.buf[..s.w] + bytes + s.buf[s.w + |bytes|..], s.r, s.w + |bytes|);
    assert t.buf[s.r..t.w] == s.buf[s.r..s.w] + bytes;
    t
  }

  /** The k bytes a read of width k copies out. */
  function Peek(s: Stream, k: nat): (bytes: seq<byte>)
    requires s.Valid() && s.r + k <= s.w
    ensures bytes == s.Unread()[..k]
  {
    assert s.buf[s.r..s.w][..k] == s.buf[s.r..s.r + k];
    s.buf[s.r..s.r + k]
  }

  /** The state after a read of width k: the read offset moves past the k
      bytes and nothing else changes. */
  function Consumed(s: Stream, k: nat): (t: Stream)
    requires s.Valid() && s.r + k <= s.w
    ensures t.Valid() && t.buf == s.buf && t.w == s.w
    ensures s.Unread() == Peek(s, k) + t.Unread()
  {
    s.(r := s.r + k)
  }

  /** Reading from unread data a + b returns a and leaves b unread. */
  lemma ReadFront(s: Stream, a: seq<byte>, b: seq<byte>)
    requires s.Valid() && s.Unread() == a + b
    ensures s.r + |a| <= s.w
    ensures Peek(s, |a|) == a && Consumed(s, |a|).Unread() == b
  {
  }

  /** Two writes in a row store the same bytes as one write of both. */
  lemma WrittenTwice(s: Stream, a: seq<byte>, b: seq<byte>)
    requires s.Valid() && s.w + |a| + |b| <= |s.buf|
    ensures Written(Written(s, a), b) == Written(s, a + b)
  {
  }

  /** Emptying twice is emptying once. */
  lemma EmptiedIdempotent(s: Stream)
    ensures Emptied(Emptied(s)) == Emptied(s)
  {
  }

  /** A scalar written behind any unread bytes, and followed by any later
      writes, is read back unchanged once the bytes ahead of it have been
      consumed: the stream is first-in first-out. */
  lemma ScalarRoundTrip(s: Stream, v: int, k: nat, later: seq<byte>)
    requires s.Valid() && FitsSigned(v, k)
    requires s.w + k + |later| <= |s.buf|
    ensures var t := Written(Written(s, EncodeInt(v, k)), later);
            var ahead := |s.Unread()|;
            t.r + ahead + k <= t.w &&
            DecodeInt(Peek(Consumed(t, ahead), k)) == v
  {
  }

  /** After a rewind every read of the unread data sees the same bytes as
      before it. */
  lemma RewoundReadsSame(s: Stream, k: nat)
    requires s.Valid() && s.r + k <= s.w
    ensures var t := Rewound(s);
            t.r + k <= t.w && Peek(t, k) == Peek(s, k) &&
            Consumed(t, k).Unread() == Consumed(s, k).Unread()
  {
  }

  /** The two prefix bytes write_string puts in front of a string of length
      len: len cast to int16 and written through the int16 path. */
  function StringPrefix(len: uint16): (bs: seq<byte>)
    ensures |bs| == INT16_WIDTH && Unsigned(bs) == len
  {
    EncodeInt(Signed(len, INT16_WIDTH), INT16_WIDTH)
  }

  /** The bytes write_string puts on the wire for str. */
  function EncodeString(str: seq<byte>): (bs: seq<byte>)
    requires |str| < 0x1_0000
    ensures |bs| == INT16_WIDTH + |str| && bs[INT16_WIDTH..] == str
    ensures Unsigned(bs[..INT16_WIDTH]) == |str|
  {
    assert (StringPrefix(|str|) + str)[..INT16_WIDTH] == StringPrefix(|str|);
    StringPrefix(|str|) + str
  }

  /** The number of payload bytes a string read returns: the declared
      length, clamped to the scratch buffer and to the used size. */
  function StringLen(declared: nat, used: nat): (n: nat)
    ensures n <= declared && n <= STRING_SCRATCH_SIZE && n <= used
    ensures n == declared || n == STRING_SCRATCH_SIZE || n == used
  {
    Min(Min(declared, STRING_SCRATCH_SIZE), used)
  }

  /** The clamp as the source computes it: the used size is first cast to
      16 bits, so it wraps around once the write offset reaches 65536. */
  function StringLenAsWritten(declared: nat, used: nat): (n: nat)
    ensures n <= declared && n <= STRING_SCRATCH_SIZE && n <= used % 0x1_0000
    ensures n == declared || n == STRING_SCRATCH_SIZE || n == used % 0x1_0000
  {
    Min(Min(declared, STRING_SCRATCH_SIZE), used % 0x1_0000)
  }

  /** The length prefix at the read offset, as a 16-bit unsigned value. */
  function DeclaredLen(s: Stream): (n: nat)
    requires s.Valid() && s.r + INT16_WIDTH <= s.w
    ensures n < 0x1_0000
  {
    Unsigned(Peek(s, INT16_WIDTH))
  }

  /** A string read stays within the written data: the prefix is there, and
      so are the clamped number of payload bytes after it. */
  predicate CanReadString(s: Stream)
  {
    s.Valid() && s.r + INT16_WIDTH <= s.w &&
    s.r + INT16_WIDTH + StringLen(DeclaredLen(s), s.w) <= s.w
  }

  /** A string read: the payload it returns and the state after it. */
  function StringRead(s: Stream): (res: (seq<byte>, Stream))
    requires CanReadString(s)
    ensures |res.0| == StringLen(DeclaredLen(s), s.w)
    ensures |res.0| <= DeclaredLen(s) && |res.0| <= STRING_SCRATCH_SIZE
    ensures res.1.Valid() && res.1.buf == s.buf && res.1.w == s.w
    ensures s.Unread() == Peek(s, INT16_WIDTH) + res.0 + res.1.Unread()
  {
    var n := StringLen(DeclaredLen(s), s.w);
    var start := s.r + INT16_WIDTH;
    assert s.buf[s.r..s.w] == s.buf[s.r..start] + s.buf[start..start + n] + s.buf[start + n..s.w];
    (s.buf[start..start + n], s.(r := start + n))
  }

  /** A string read is a read of the 2-byte prefix followed by a read of
      the clamped number of payload bytes. */
  lemma StringReadSteps(s: Stream)
    requires CanReadString(s)
    ensures var c := Consumed(s, INT16_WIDTH);
            var n := StringLen(DeclaredLen(s), s.w);
            c.r + n <= c.w && StringRead(s) == (Peek(c, n), Consumed(c, n))
  {
  }

  /** String round trip: when the unread data starts with the encoding of a
      string of at most 32768 bytes, a string read returns exactly that
      string and consumes exactly its encoding. */
  lemma StringRoundTrip(s: Stream, str: seq<byte>)
    requires s.Valid() && |str| <= STRING_SCRATCH_SIZE
    requires INT16_WIDTH + |str| <= |s.Unread()|
    requires s.Unread()[..INT16_WIDTH + |str|] == EncodeString(str)
    ensures CanReadString(s)
    ensures StringRead(s).0 == str
    ensures StringRead(s).1.Unread() == s.Unread()[INT16_WIDTH + |str|..]
  {
    var e := EncodeString(str);
    assert Peek(s, INT16_WIDTH) == e[..INT16_WIDTH] == StringPrefix(|str|);
    assert DeclaredLen(s) == |str|;
    var res := StringRead(s);
    assert s.Unread() == e + s.Unread()[INT16_WIDTH + |str|..];
    assert Peek(s, INT16_WIDTH) + res.0 + res.1.Unread() == Peek(s, INT16_WIDTH) + str + s.Unread()[INT16_WIDTH + |str|..];
  }

  /** The whole string path: a string of at most 32768 bytes written
      behind any unread bytes reads back unchanged once the bytes ahead of
      it have been consumed, wherever in the storage it lands. */
  lemma StringWriteRead(s: Stream, str: seq<byte>)
    requires s.Valid() && |str| <= STRING_SCRATCH_SIZE
    requires s.w + INT16_WIDTH + |str| <= |s.buf|
    ensures var c := Consumed(Written(s, EncodeString(str)), |s.Unread()|);
            CanReadString(c) && StringRead(c).0 == str && StringRead(c).1.Unread() == []
  {
  }

  /** With the clamp as the source computes it, the same round trip fails:
      a string whose encoding ends exactly at offset 65536 reads back
      empty, because the used size 65536 wraps to 0 in 16 bits. */
  lemma AsWrittenStringReadLosesData(s: Stream, str: seq<byte>)
    requires s.Valid() && 0 < |str| <= STRING_SCRATCH_SIZE
    requires s.w + INT16_WIDTH + |str| == 0x1_0000 <= |s.buf|
    ensures var c := Consumed(Written(s, EncodeString(str)), |s.Unread()|);
            c.r + INT16_WIDTH <= c.w && DeclaredLen(c) == |str| &&
            StringLenAsWritten(DeclaredLen(c), c.w) == 0 &&
            StringLen(DeclaredLen(c), c.w) == |str|
  {
  }
}
