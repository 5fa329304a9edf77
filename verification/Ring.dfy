/** The shared-memory channel: a power-of-two byte ring with stream and packet access
    (drivers/rda/md.c). */
module Ring {
  import opened Words

  type byte = x: int | 0 <= x < 256

  const EAGAIN: int := -11
  const EBUSY: int := -16
  const EINVAL: int := -22

  const HDR_SIZE: nat := 16
  const MAGIC: nat := 0xA8B1

  // ----- Masking -----

  /** Bitwise `a & b`. */
  function And(a: nat, b: nat): nat {
    if a == 0 || b == 0 then 0
    else (if a % 2 == 1 && b % 2 == 1 then 1 else 0) + 2 * And(a / 2, b / 2)
  }

  lemma HalfMod(a: nat, p: nat)
    requires p > 0
    ensures a % (2 * p) == a % 2 + 2 * (a / 2 % p)
  {
    var q, r := a / 2 / p, a / 2 % p;
    assert a / 2 == p * q + r;
    assert a == 2 * (p * q + r) + a % 2 == 2 * p * q + (2 * r + a % 2);
    QuotientIs(a, 2 * p, q, 2 * r + a % 2);
  }

  /** Masking with an odd number takes the last bit and masks the rest. */
  lemma AndStep(a: nat, p: nat)
    requires p > 0
    ensures And(a, 2 * p - 1) == a % 2 + 2 * And(a / 2, p - 1)
  {
    assert (2 * p - 1) % 2 == 1 && (2 * p - 1) / 2 == p - 1;
  }

  lemma MaskStep(a: nat, p: nat)
    requires p > 0 && And(a / 2, p - 1) == a / 2 % p
    ensures And(a, 2 * p - 1) == a % (2 * p)
  {
    AndStep(a, p);
    HalfMod(a, p);
    hide And;
  }

  /** Masking with `2^k - 1` is reduction modulo `2^k`. */
  lemma {:induction false} MaskIsMod(a: nat, k: nat)
    ensures And(a, Pow2(k) - 1) == a % Pow2(k)
  {
    if k == 0 {
    } else {
      MaskIsMod(a / 2, k - 1);
      hide And;
      MaskStep(a, Pow2(k - 1));
    }
  }

  lemma {:induction false} Pow2Splits(k: nat, n: nat) returns (m: nat)
    requires k <= n
    ensures Pow2(n) == Pow2(k) * m
    decreases n
  {
    if k == n {
      m := 1;
    } else {
      var m' := Pow2Splits(k, n - 1);
      m := 2 * m';
    }
  }

  lemma {:induction false} Pow2Of32()
    ensures Pow2(32) == TWO32
  {
    assert Pow2(8) == 256 && Pow2(16) == 65536 && Pow2(24) == 0x100_0000;
  }

  lemma ModOfMultiple(x: int, p: nat, m: nat)
    requires p > 0 && m > 0
    ensures p * m > 0 && x % (p * m) % p == x % p
  {
    var n := p * m;
    var q, w := x / n, x % n;
    assert x == n * q + w && n * q == p * (m * q);
    assert p * (m * q) + p * (w / p) == p * (m * q + w / p);
    QuotientIs(x, p, m * q + w / p, w % p);
  }

  /** Unsigned 32-bit wrap-around does not disturb masked ring arithmetic. */
  lemma WrapThenMask(x: int, k: nat)
    requires k <= 32
    ensures And(Wrap32(x), Pow2(k) - 1) == x % Pow2(k)
  {
    MaskIsMod(Wrap32(x), k);
    Pow2Of32();
    var m := Pow2Splits(k, 32);
    hide Pow2;
    ModOfMultiple(x, Pow2(k), m);
  }

  // ----- What is in the ring -----

  /** The bytes between `tail` and `head`. */
  function Unread(f: seq<byte>, head: nat, tail: nat): seq<byte>
    requires head < |f| && tail < |f|
  {
    if tail <= head then f[tail..head] else f[tail..] + f[..head]
  }

  lemma UnreadSize(f: seq<byte>, head: nat, tail: nat)
    requires head < |f| && tail < |f|
    ensures |Unread(f, head, tail)| == (head - tail) % |f| < |f|
  {
    if head < tail {
      QuotientIs(head - tail, |f|, -1, head - tail + |f|);
    } else {
      QuotientIs(head - tail, |f|, 0, head - tail);
    }
  }

  lemma Step(size: nat, pos: nat, n: nat)
    requires pos < size && n <= size
    ensures (pos + n) % size == if pos + n < size then pos + n else pos + n - size
  {
    if pos + n < size {
      QuotientIs(pos + n, size, 0, pos + n);
    } else {
      QuotientIs(pos + n, size, 1, pos + n - size);
    }
  }

  lemma UnreadDrop(f: seq<byte>, head: nat, tail: nat, n: nat)
    requires head < |f| && tail < |f| && n <= |Unread(f, head, tail)|
    ensures (tail + n) % |f| < |f|
    ensures Unread(f, head, (tail + n) % |f|) == Unread(f, head, tail)[n..]
  {
    UnreadSize(f, head, tail);
    Step(|f|, tail, n);
  }

  /** Overwriting `n` bytes from `head` on, none of them beyond the free stretch. */
  lemma UnreadAppend(f: seq<byte>, head: nat, tail: nat, xs: seq<byte>)
    requires head < |f| && tail < |f| && |xs| <= Writable(|f|, head, tail)
    ensures (head + |xs|) % |f| < |f|
    ensures Unread(f[..head] + xs + f[head + |xs|..], (head + |xs|) % |f|, tail) == Unread(f, head, tail) + xs
  {
    Step(|f|, head, |xs|);
    var g := f[..head] + xs + f[head + |xs|..];
    assert g[head..head + |xs|] == xs;
  }

  /** Contiguous bytes that may be written at `head`; one slot always stays free. */
  function Writable(size: nat, head: nat, tail: nat): (n: nat)
    requires head < size && tail < size
    ensures head + n <= size
  {
    if head < tail then tail - head - 1
    else if tail == 0 then size - head - 1
    else size - head
  }

  /** Contiguous bytes that may be read at `tail`. */
  function Readable(size: nat, head: nat, tail: nat): (n: nat)
    requires head < size && tail < size
    ensures tail + n <= size
  {
    if tail <= head then head - tail else size - tail
  }

  /** Both stretches are as long as they can be: of what lies between the pointers, and of what is free but
      for one byte, up to the end of the array. */
  lemma StretchesAre(size: nat, head: nat, tail: nat)
    requires head < size && tail < size
    ensures var used := (head - tail) % size;
            && Readable(size, head, tail) == Min(used, size - tail)
            && Writable(size, head, tail) == Min(size - 1 - used, size - head)
  {
    if head < tail {
      QuotientIs(head - tail, size, -1, head - tail + size);
    } else {
      QuotientIs(head - tail, size, 0, head - tail);
    }
  }

  // ----- The operations on the queue of bytes the ring stands for -----

  function Taken(q: seq<byte>, len: int): (n: nat)
    ensures n <= |q|
  {
    if len <= 0 then 0 else Min(len, |q|)
  }

  function Accepted(q: seq<byte>, capacity: nat, len: nat): (n: nat)
    requires |q| <= capacity
    ensures n <= len && |q| + n <= capacity
  {
    Min(len, capacity - |q|)
  }

  function Le16(b: seq<byte>, at: nat): nat
    requires at + 2 <= |b|
  {
    var lo: nat, hi: nat := b[at], b[at + 1];
    lo + 256 * hi
  }

  /** What a peek (no buffer, zero length) returns. */
  function Peek(q: seq<byte>): int {
    if |q| < HDR_SIZE then EAGAIN
    else if Le16(q, 0) != MAGIC then EINVAL
    else HDR_SIZE + Align4(Le16(q, 14))
  }

  /** What `memcpy` leaves in buffer `b` after putting `xs` at offset `at`. */
  function Put(b: seq<byte>, at: nat, xs: seq<byte>): seq<byte>
    requires at + |xs| <= |b|
  {
    b[..at] + xs + b[at + |xs|..]
  }

  datatype ReadOutcome = ReadOutcome(ret: int, queue: seq<byte>, buffer: seq<byte>)

  /** What a sized packet read does to the queue and to a buffer of at least `len` bytes. */
  function PacketRead(q: seq<byte>, b: seq<byte>, len: int): ReadOutcome
    requires len <= |b|
  {
    if len < HDR_SIZE then ReadOutcome(EINVAL, q, b)
    else
      var n := Taken(q, HDR_SIZE);
      var q1, b1 := q[n..], Put(b, 0, q[..n]);
      if n == 0 then ReadOutcome(0, q, b)
      else if Le16(b1, 0) != MAGIC then ReadOutcome(EINVAL, q1, b1)
      else
        var opt := Align4(Le16(b1, 14));
        if opt == 0 then ReadOutcome(n, q1, b1)
        else if len - n < opt then ReadOutcome(EINVAL, q1, b1)
        else
          var m := Taken(q1, opt);
          ReadOutcome(n + m, q1[m..], Put(b1, n, q1[..m]))
  }

  /** The length field of a header, low byte first, rounded up to whole words. */
  function Announced(q: seq<byte>): nat
    requires |q| >= HDR_SIZE
  {
    var lo: nat, hi: nat := q[14], q[15];
    (lo + 256 * hi + 3) / 4 * 4
  }

  lemma HeaderBytes(q: seq<byte>, b1: seq<byte>)
    requires 16 <= |q| && 16 <= |b1| && b1[..16] == q[..16]
    ensures Le16(b1, 0) == Le16(q, 0) && Le16(b1, 14) == Le16(q, 14)
    ensures Le16(q, 0) == MAGIC <==> q[0] == 0xB1 && q[1] == 0xA8
    ensures Align4(Le16(q, 14)) == Announced(q)
  {
    assert forall i :: 0 <= i < 16 ==> b1[..16][i] == b1[i] && q[..16][i] == q[i];
  }

  lemma PutTwice(b: seq<byte>, q: seq<byte>, n: nat)
    requires 16 <= |q| && 16 + n <= |b| && n <= |q| - 16
    ensures Put(b, 0, q[..16]) == q[..16] + b[16..]
    ensures Put(Put(b, 0, q[..16]), 16, q[16..][..n]) == q[..16 + n] + b[16 + n..]
  {
    assert q[..16 + n] == q[..16] + q[16..][..n];
  }

  /** What a peek and a sized read make of a whole header, byte by byte: another magic than 0xA8B1 is an
      error, after the header was taken; a header without payload is all there is; a payload longer than
      the buffer is an error; otherwise as much of the payload is taken as there is. */
  lemma HeaderIsJudged(q: seq<byte>, b: seq<byte>, len: nat)
    requires 16 <= |q| && 16 <= len <= |b|
    ensures var good, rest, head := q[0] == 0xB1 && q[1] == 0xA8, q[16..], q[..16] + b[16..];
            && Peek(q) == (if good then 16 + Announced(q) else -22)
            && PacketRead(q, b, len) ==
               if !good || (0 < Announced(q) && len < 16 + Announced(q)) then ReadOutcome(-22, rest, head)
               else
                 var n := if Announced(q) <= |rest| then Announced(q) else |rest|;
                 ReadOutcome(16 + n, rest[n..], q[..16 + n] + b[16 + n..])
  {
    HeaderBytes(q, q);
    PutTwice(b, q, 0);
    var b1 := Put(b, 0, q[..16]);
    HeaderBytes(q, b1);
    var n := if Announced(q) <= |q| - 16 then Announced(q) else |q| - 16;
    if 16 + n <= |b| {
      PutTwice(b, q, n);
    }
    assert q[16..][0..] == q[16..];
    hide Put, Le16, Align4, Announced;
  }

  /** And of less: a peek asks to come again, a read below the size of a header is an error, and an empty
      channel gives nothing; neither takes anything. */
  lemma ShortIsJudged(q: seq<byte>, b: seq<byte>, len: int)
    requires len <= |b|
    ensures |q| < 16 ==> Peek(q) == -11
    ensures len < 16 ==> PacketRead(q, b, len) == ReadOutcome(-22, q, b)
    ensures len >= 16 && q == [] ==> PacketRead(q, b, len) == ReadOutcome(0, q, b)
  {
  }

  datatype WriteOutcome = WriteOutcome(ret: int, queue: seq<byte>)

  /** What a packet write of all of `data` does. The comparison is between unsigned words. */
  function PacketWrite(q: seq<byte>, capacity: nat, data: seq<byte>): WriteOutcome
    requires |q| <= capacity
  {
    var space := capacity - |q|;
    var avail := if space > HDR_SIZE then space - HDR_SIZE else 0;
    if avail < Wrap32(|data| - HDR_SIZE) then WriteOutcome(EBUSY, q)
    else WriteOutcome(|data|, q + data[..Accepted(q, capacity, |data|)])
  }

  /** A packet write is all or nothing, except that a bare header is always accepted and may be cut. */
  lemma PacketWriteAllOrNothing(q: seq<byte>, capacity: nat, data: seq<byte>)
    requires |q| <= capacity < TWO32 && |data| < TWO32
    ensures var w := PacketWrite(q, capacity, data);
            && (w.ret == EBUSY <==> |data| < HDR_SIZE || (|data| > HDR_SIZE && capacity - |q| < |data|))
            && (w.ret == EBUSY ==> w.queue == q)
            && (w.ret != EBUSY ==> w.ret == |data|)
            && (w.ret != EBUSY ==> (w.queue == q + data <==> capacity - |q| >= |data|))
  {
  }

  /** The ring itself: `head` belongs to the writer, `tail` to the reader. */
  class Channel {
    const fifo: array<byte>
    const fifoSize: u32
    const fifoMask: u32
    ghost const order: nat
    var head: u32
    var tail: u32

    ghost predicate Valid()
      reads this
    {
      && order < 32 && fifoSize == Pow2(order) == fifo.Length && fifoMask == fifoSize - 1
      && head < fifoSize && tail < fifoSize
    }

    ghost function Contents(): (q: seq<byte>)
      requires Valid()
      reads this, fifo
      ensures |q| <= fifoMask
    {
      UnreadSize(fifo[..], head, tail);
      Unread(fifo[..], head, tail)
    }

    constructor (order: nat, fifo: array<byte>)
      requires order < 32 && fifo.Length == Pow2(order) && Pow2(order) < TWO32
      ensures Valid() && Contents() == [] && this.fifo == fifo && fifoMask == Pow2(order) - 1
    {
      this.order := order;
      this.fifo := fifo;
      fifoSize := fifo.Length;
      fifoMask := fifo.Length - 1;
      head, tail := 0, 0;
    }

    /** `(x) & fifo_mask` on an unsigned word. */
    method Masked(x: int) returns (r: u32)
      requires Valid()
      ensures r == x % fifoSize
    {
      WrapThenMask(x, order);
      MaskIsMod(Wrap32(x), order);
      r := And(Wrap32(x), fifoMask);
    }

    /** Equal pointers mean empty, never full. */
    lemma EqualPointersMeanEmpty()
      requires Valid()
      ensures head == tail <==> Contents() == []
    {
      UnreadSize(fifo[..], head, tail);
    }

    /** `__ch_stream_read_avail`. */
    method ReadAvail() returns (space: u32)
      requires Valid()
      ensures space == |Contents()|
    {
      UnreadSize(fifo[..], head, tail);
      space := Masked(head - tail);
    }

    /** `__ch_stream_write_avail`. */
    method WriteAvail() returns (space: u32)
      requires Valid()
      ensures space == fifoMask - |Contents()|
    {
      UnreadSize(fifo[..], head, tail);
      var used := Masked(head - tail);
      space := fifoMask - used;
    }

    /** `__ch_packet_write_avail`. */
    method PacketWriteAvail() returns (space: u32)
      requires Valid()
      ensures space == Max(fifoMask - |Contents()| - HDR_SIZE, 0)
    {
      space := WriteAvail();
      space := if space > HDR_SIZE then space - HDR_SIZE else 0;
    }

    /** `__ch_read_buffer`: where readable bytes start and how many follow in one piece. */
    method ReadBuffer() returns (pos: nat, n: nat)
      requires Valid()
      ensures pos == tail && n == Readable(fifoSize, head, tail)
      ensures n <= |Contents()| && fifo[pos..pos + n] == Contents()[..n]
      ensures n == 0 <==> Contents() == []
    {
      pos := tail;
      n := if tail <= head then head - tail else fifoSize - tail;
    }

    /** `__ch_read_done`. */
    method ReadDone(count: u32)
      requires Valid()
      modifies `tail
      ensures Valid() && tail == (old(tail) + count) % fifoSize
      ensures count <= |old(Contents())| ==> Contents() == old(Contents())[count..]
    {
      if count <= |Contents()| {
        UnreadDrop(fifo[..], head, tail, count);
      }
      tail := Masked(tail + count);
    }

    /** One round of the read loop: at most `left` bytes of the contiguous stretch. */
    method ReadPiece(buf: array<byte>, at: nat, left: nat) returns (n: nat)
      requires Valid() && buf != fifo && at + left <= buf.Length
      modifies `tail, buf
      ensures Valid() && n == Min(left, Readable(fifoSize, old(head), old(tail)))
      ensures n <= left && n <= |old(Contents())| && Contents() == old(Contents())[n..]
      ensures n == 0 ==> left == 0 || old(Contents()) == []
      ensures buf[..] == Put(old(buf[..]), at, old(Contents())[..n])
    {
      var pos, stretch := ReadBuffer();
      n := stretch;
      if n > left {
        n := left;
      }
      ghost var piece, before := fifo[pos..pos + n], buf[..];
      assert piece == Contents()[..n];
      forall i | 0 <= i < n {
        buf[at + i] := fifo[pos + i];
      }
      assert buf[..] == Put(before, at, piece);
      ReadDone(n);
    }

    /** `__ch_read` into `buf` from offset `at` on. */
    method Read(buf: array<byte>, at: nat, len: int) returns (r: nat)
      requires Valid() && buf != fifo && at + len <= buf.Length
      requires at <= buf.Length
      modifies `tail, buf
      ensures Valid() && r == Taken(old(Contents()), len)
      ensures Contents() == old(Contents())[r..]
      ensures at + r <= buf.Length && buf[..] == Put(old(buf[..]), at, old(Contents())[..r])
    {
      hide *;
      r := 0;
      ghost var q, b := Contents(), buf[..];
      PutNothing(b, at);
      assert q[..0] == [] && q[0..] == q;
      assert len > 0 ==> at + len <= buf.Length;
      while r < len
        invariant Valid() && r <= |q| && (r == 0 || r <= len) && Contents() == q[r..]
        invariant buf.Length == |b|
        invariant at + r <= buf.Length && buf[..] == Put(b, at, q[..r])
        decreases len - r
      {
        var n := ReadPiece(buf, at + r, len - r);
        PutPut(b, at, q[..r], q[r..][..n]);
        PrefixGrows(q, r, n);
        if n == 0 {
          break;
        }
        r := r + n;
      }
      TakenIs(q, len, r);
    }

    lemma Layout()
      requires Valid()
      ensures head < fifo.Length && tail < fifo.Length && fifoSize == fifo.Length
      ensures Unread(fifo[..], head, tail) == Contents()
    {
    }

    /** `__ch_read_hdr`: the same bytes as a read, without moving the reader. */
    method ReadHdr(len: nat) returns (data: seq<byte>)
      requires Valid()
      ensures data == Contents()[..Taken(Contents(), len)]
    {
      hide *;
      var h: nat, t: nat := head, tail;
      ghost var q, f := Contents(), fifo[..];
      Layout();
      data := [];
      assert q[0..] == q && q[..0] == [];
      while |data| < len
        invariant h < |f| == fifo.Length && t < |f| && |data| <= |q| && |data| <= len
        invariant data == q[..|data|]
        invariant Unread(f, h, t) == q[|data|..]
        decreases len - |data|
      {
        var n: nat := if t <= h then h - t else fifo.Length - t;
        if n == 0 {
          NothingReadable(f, h, t);
          break;
        }
        if n > len - |data| {
          n := len - |data|;
        }
        var piece := fifo[t..t + n];
        assert piece == f[t..t + n];
        ReadableIsPrefix(f, h, t, n);
        UnreadDrop(f, h, t, n);
        PrefixGrows(q, |data|, n);
        data := data + piece;
        t := Masked(t + n);
      }
      TakenIs(q, len, |data|);
    }

    /** `__ch_packet_read` with no buffer and zero length. */
    method PacketPeek() returns (ret: int)
      requires Valid()
      ensures ret == Peek(Contents())
    {
      var hdr := ReadHdr(HDR_SIZE);
      if |hdr| < HDR_SIZE {
        return EAGAIN;
      }
      if Le16(hdr, 0) != MAGIC {
        return EINVAL;
      }
      return |hdr| + Align4(Le16(hdr, 14));
    }

    /** `__ch_packet_read` into a buffer of at least `len` bytes. */
    method ReadPacket(buf: array<byte>, len: int) returns (ret: int)
      requires Valid() && buf != fifo && len <= buf.Length
      modifies `tail, buf
      ensures Valid()
      ensures ReadOutcome(ret, Contents(), buf[..]) == PacketRead(old(Contents()), old(buf[..]), len)
    {
      if len < 0 {
        return EINVAL;
      }
      if len < HDR_SIZE {
        return EINVAL;
      }
      ghost var q, b := Contents(), buf[..];
      var r := Read(buf, 0, HDR_SIZE);
      if r == 0 {
        assert buf[..] == b;
        return 0;
      }
      ghost var b1 := buf[..];
      assert b1 == Put(b, 0, q[..r]);
      assert buf[0] == b1[0] && buf[1] == b1[1] && buf[14] == b1[14] && buf[15] == b1[15];
      if Le16(buf[..HDR_SIZE], 0) != MAGIC {
        return EINVAL;
      }
      var size := r;
      var optSize := Align4(Le16(buf[..HDR_SIZE], 14));
      if optSize > 0 {
        if len - size < optSize {
          return EINVAL;
        }
        r := Read(buf, size, optSize);
        size := size + r;
      }
      return size;
    }

    /** `__ch_write_buffer`. */
    method WriteBuffer() returns (pos: nat, n: nat)
      requires Valid()
      ensures pos == head && n == Writable(fifoSize, head, tail)
      ensures |Contents()| + n <= fifoMask
      ensures n == 0 <==> |Contents()| == fifoMask
    {
      UnreadSize(fifo[..], head, tail);
      pos := head;
      n := if head < tail then tail - head - 1
      else if tail == 0 then fifoSize - head - 1
      else fifoSize - head;
    }

    /** Copying into the free stretch and `__ch_write_done`. */
    method WritePiece(pos: nat, data: seq<byte>)
      requires Valid() && pos == head && |data| <= Writable(fifoSize, head, tail)
      modifies `head, fifo
      ensures Valid() && Contents() == old(Contents()) + data
    {
      ghost var f := fifo[..];
      UnreadAppend(f, head, tail, data);
      forall i | 0 <= i < |data| {
        fifo[pos + i] := data[i];
      }
      assert fifo[..] == f[..head] + data + f[head + |data|..];
      head := Masked(head + |data|);
    }

    /** `__ch_stream_write`; `len` is the length of `data` unless it is negative. */
    method StreamWrite(data: seq<byte>, len: int) returns (ret: int)
      requires Valid() && (len < 0 || len == |data|)
      modifies `head, fifo
      ensures Valid()
      ensures len < 0 ==> ret == EINVAL && Contents() == old(Contents())
      ensures len >= 0 ==> ret == Accepted(old(Contents()), fifoMask, len) &&
                           Contents() == old(Contents()) + data[..ret]
    {
      hide Contents;
      if len < 0 {
        return EINVAL;
      }
      var sent: nat := 0;
      ghost var q := Contents();
      var pos, xfer := WriteBuffer();
      assert q == q + data[..0];
      while xfer != 0
        invariant Valid() && sent <= len && Contents() == q + data[..sent]
        invariant pos == head && xfer == Writable(fifoSize, head, tail)
        invariant xfer == 0 <==> |Contents()| == fifoMask
        decreases len - sent, xfer
      {
        if xfer > len - sent {
          xfer := len - sent;
        }
        Appended(q, data, sent, xfer);
        WritePiece(pos, data[sent..sent + xfer]);
        sent := sent + xfer;
        if sent == len {
          return len;
        }
        pos, xfer := WriteBuffer();
      }
      return sent;
    }

    /** `__ch_packet_write`. */
    method WritePacket(data: seq<byte>, len: int) returns (ret: int)
      requires Valid() && (len < 0 || len == |data| < TWO32)
      modifies `head, fifo
      ensures Valid()
      ensures len < 0 ==> ret == EINVAL && Contents() == old(Contents())
      ensures len >= 0 ==> WriteOutcome(ret, Contents()) == PacketWrite(old(Contents()), fifoMask, data)
    {
      if len < 0 {
        return EINVAL;
      }
      var avail := PacketWriteAvail();
      if avail < Wrap32(len - HDR_SIZE) {
        return EBUSY;
      }
      var r := StreamWrite(data, len);
      return len;
    }
  }

  lemma TakenIs(q: seq<byte>, len: int, r: nat)
    requires r <= |q| && (r == 0 || r <= len) && (len <= r || r == |q|)
    ensures r == Taken(q, len)
  {
  }

  lemma PutNothing(b: seq<byte>, at: nat)
    requires at <= |b|
    ensures Put(b, at, []) == b
  {
  }

  lemma NothingReadable(f: seq<byte>, h: nat, t: nat)
    requires h < |f| && t < |f| && (if t <= h then h - t else |f| - t) == 0
    ensures Unread(f, h, t) == []
  {
  }

  lemma ReadableIsPrefix(f: seq<byte>, h: nat, t: nat, n: nat)
    requires h < |f| && t < |f| && n <= if t <= h then h - t else |f| - t
    ensures n <= |Unread(f, h, t)| && f[t..t + n] == Unread(f, h, t)[..n]
  {
  }

  lemma PrefixGrows(q: seq<byte>, r: nat, n: nat)
    requires r + n <= |q|
    ensures q[..r] + q[r..][..n] == q[..r + n] && q[r..][n..] == q[r + n..]
  {
  }

  lemma PutPut(b: seq<byte>, at: nat, xs: seq<byte>, ys: seq<byte>)
    requires at + |xs| + |ys| <= |b|
    ensures Put(Put(b, at, xs), at + |xs|, ys) == Put(b, at, xs + ys)
  {
  }

  lemma Appended(q: seq<byte>, data: seq<byte>, sent: nat, n: nat)
    requires sent + n <= |data|
    ensures q + data[..sent] + data[sent..sent + n] == q + data[..sent + n]
  {
    assert data[..sent + n] == data[..sent] + data[sent..sent + n];
  }
}
