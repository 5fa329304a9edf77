/** Framing of modem messages on the packet channel: packing, peek and sized read
    (drivers/rda/md_sys.c, drivers/rda/md.c). */
module Frames {
  import opened Words
  import opened Ring

  type u16 = x: int | 0 <= x < 65536

  const PACKET_MAX: nat := 144

  datatype AnyFrame = Frame(modId: u16, reqId: u32, retVal: u32, msgId: u16, ext: seq<byte>)

  /** The length field of the header has sixteen bits. */
  type Frame = f: AnyFrame | |f.ext| < 65536 witness AnyFrame.Frame(0, 0, 0, 0, [])

  /** Senders are refused unless their payload is a multiple of four bytes. */
  predicate Aligned(f: Frame) {
    |f.ext| % 4 == 0
  }

  function Bytes16(x: u16): (b: seq<byte>)
    ensures |b| == 2 && Le16(b, 0) == x
  {
    [x % 256, x / 256]
  }

  function Bytes32(x: u32): (b: seq<byte>)
    ensures |b| == 4
  {
    Bytes16(x % 65536) + Bytes16(x / 65536)
  }

  function Le32(b: seq<byte>, at: nat): nat
    requires at + 4 <= |b|
  {
    Le16(b, at) + 65536 * Le16(b, at + 2)
  }

  function Header(f: Frame): (h: seq<byte>)
    ensures |h| == HDR_SIZE
  {
    Bytes16(MAGIC) + Bytes16(f.modId) + Bytes32(f.reqId) + Bytes32(f.retVal) + Bytes16(f.msgId) + Bytes16(|f.ext|)
  }

  function Padding(n: nat): seq<byte> {
    seq(n, i => 0)
  }

  /** A frame on the wire: header, payload, zeros up to the next multiple of four. */
  function Encode(f: Frame): (b: seq<byte>)
    ensures |b| == HDR_SIZE + Align4(|f.ext|)
  {
    Header(f) + f.ext + Padding(Align4(|f.ext|) - |f.ext|)
  }

  /** What the receiver makes of a buffer that starts with a frame. */
  function Decode(b: seq<byte>): AnyFrame
    requires |b| >= HDR_SIZE && HDR_SIZE + Le16(b, 14) <= |b|
  {
    FrameOf(Le16(b, 2), Le32(b, 4), Le32(b, 8), Le16(b, 12), b[HDR_SIZE..HDR_SIZE + Le16(b, 14)])
  }

  function FrameOf(modId: nat, reqId: nat, retVal: nat, msgId: nat, ext: seq<byte>): AnyFrame {
    Frame(modId % 65536, reqId % TWO32, retVal % TWO32, msgId % 65536, ext)
  }

  lemma Le16Within(b: seq<byte>, xs: seq<byte>, at: nat)
    requires at + 2 <= |b| && b[at..at + 2] == xs && |xs| == 2
    ensures Le16(b, at) == Le16(xs, 0)
  {
    assert b[at] == xs[0] && b[at + 1] == xs[1];
  }

  lemma Le32Within(b: seq<byte>, x: u32, at: nat)
    requires at + 4 <= |b| && b[at..at + 4] == Bytes32(x)
    ensures Le32(b, at) == x
  {
    var xs := Bytes32(x);
    assert b[at] == xs[0] && b[at + 1] == xs[1] && b[at + 2] == xs[2] && b[at + 3] == xs[3];
  }

  lemma HeaderFields(f: Frame, b: seq<byte>)
    requires |b| >= HDR_SIZE && b[..HDR_SIZE] == Header(f)
    ensures Le16(b, 0) == MAGIC && Le16(b, 2) == f.modId && Le32(b, 4) == f.reqId
    ensures Le32(b, 8) == f.retVal && Le16(b, 12) == f.msgId && Le16(b, 14) == |f.ext|
  {
    hide Bytes16, Bytes32, Le16, Le32;
    var h := Header(f);
    assert forall i :: 0 <= i < HDR_SIZE ==> b[..HDR_SIZE][i] == h[i] == b[i];
    Le16Within(b, Bytes16(MAGIC), 0);
    Le16Within(b, Bytes16(f.modId), 2);
    Le32Within(b, f.reqId, 4);
    Le32Within(b, f.retVal, 8);
    Le16Within(b, Bytes16(f.msgId), 12);
    Le16Within(b, Bytes16(|f.ext|), 14);
  }

  /** A packed frame unpacks to itself, whatever follows it in the buffer. */
  lemma DecodeEncode(f: Frame, rest: seq<byte>)
    ensures var b := Encode(f) + rest;
            HDR_SIZE + Le16(b, 14) <= |b| && Decode(b) == f
  {
    var b := Encode(f) + rest;
    assert b[..HDR_SIZE] == Header(f);
    assert b[HDR_SIZE..HDR_SIZE + |f.ext|] == f.ext;
    HeaderFields(f, b);
    hide Header, Le16, Le32, Encode, Padding;
  }

  /** Peeking at a queue that starts with a whole frame tells its length. */
  lemma PeekFrame(f: Frame, rest: seq<byte>)
    ensures Peek(Encode(f) + rest) == |Encode(f)|
  {
    var q := Encode(f) + rest;
    assert q[..HDR_SIZE] == Header(f);
    HeaderFields(f, q);
  }

  /** A read of the peeked length takes exactly that frame off the queue. */
  lemma ReadFrame(f: Frame, rest: seq<byte>, b: seq<byte>, len: nat)
    requires len == |Encode(f)| <= |b|
    ensures PacketRead(Encode(f) + rest, b, len) == ReadOutcome(len, rest, Put(b, 0, Encode(f)))
  {
    var e := Encode(f);
    var q := e + rest;
    var b1 := Put(b, 0, q[..HDR_SIZE]);
    assert q[..HDR_SIZE] == Header(f) == b1[..HDR_SIZE];
    HeaderFields(f, b1);
    var opt := Align4(|f.ext|);
    var q1 := q[HDR_SIZE..];
    if opt == 0 {
      assert q1 == rest && e == Header(f);
    } else {
      assert q1[..opt] == e[HDR_SIZE..] && q1[opt..] == rest;
      assert e == Header(f) + e[HDR_SIZE..];
      PutPut(b, 0, Header(f), e[HDR_SIZE..]);
    }
  }

  lemma PrefixOfFrame(f: Frame, n: nat)
    requires HDR_SIZE <= n <= |Encode(f)|
    ensures var q := Encode(f)[..n];
            q[..HDR_SIZE] == Header(f) && q[HDR_SIZE..] == Encode(f)[HDR_SIZE..n]
  {
    var q := Encode(f)[..n];
    assert q[..HDR_SIZE] == Encode(f)[..HDR_SIZE];
    hide Header, Padding;
  }

  /** A frame that is published in two steps: from its header on a peek tells the whole length, but a
      read of that length takes, and reports, only what is there. It is short exactly as long as the
      frame is not there as a whole. */
  lemma ReadOfPartialFrame(f: Frame, n: nat, b: seq<byte>)
    requires n <= |Encode(f)| <= |b|
    ensures var q, size := Encode(f)[..n], |Encode(f)|;
            && (Peek(q) == if n < HDR_SIZE then EAGAIN else size)
            && (n >= HDR_SIZE ==> PacketRead(q, b, size) == ReadOutcome(n, [], Put(b, 0, q)))
  {
    var e := Encode(f);
    var q := e[..n];
    if n >= HDR_SIZE {
      PrefixOfFrame(f, n);
      HeaderFields(f, q);
      var b1 := Put(b, 0, Header(f));
      assert b1[..HDR_SIZE] == Header(f);
      HeaderFields(f, b1);
      hide Header, Encode, Le16;
      PartialRead(q, b, |e|);
    }
  }

  lemma PartialRead(q: seq<byte>, b: seq<byte>, size: nat)
    requires HDR_SIZE <= |q| <= size <= |b| && Le16(q, 0) == MAGIC && size == HDR_SIZE + Align4(Le16(q, 14))
    requires Le16(Put(b, 0, q[..HDR_SIZE]), 0) == MAGIC && Le16(Put(b, 0, q[..HDR_SIZE]), 14) == Le16(q, 14)
    ensures PacketRead(q, b, size) == ReadOutcome(|q|, [], Put(b, 0, q))
  {
    hide Le16;
    var q1 := q[HDR_SIZE..];
    if size == HDR_SIZE {
      assert q[..HDR_SIZE] == q && q1 == [];
    } else {
      assert q1[..|q1|] == q1 && q1[|q1|..] == [];
      PutPut(b, 0, q[..HDR_SIZE], q1);
      assert q == q[..HDR_SIZE] + q1;
    }
  }

  // ----- Runs of a sender and a receiver over one channel -----

  function EncodeAll(fs: seq<Frame>): seq<byte> {
    if fs == [] then [] else Encode(fs[0]) + EncodeAll(fs[1..])
  }

  lemma {:induction false} EncodeAllAppend(fs: seq<Frame>, f: Frame)
    ensures EncodeAll(fs + [f]) == EncodeAll(fs) + Encode(f)
  {
    hide Encode;
    if fs == [] {
      assert EncodeAll([]) == [] && [f][1..] == [];
      assert EncodeAll([f]) == Encode(f) + [];
    } else {
      EncodeAllAppend(fs[1..], f);
      assert (fs + [f])[1..] == fs[1..] + [f];
    }
  }

  datatype Op = Send(frame: Frame) | Receive

  /** Channel contents with the frames accepted (a positive write) and received so far. */
  datatype Link = Link(queue: seq<byte>, accepted: seq<Frame>, received: seq<AnyFrame>)

  const EMPTY := Link([], [], [])

  /** The bytes `rda_msys_pump_mesg` builds: header and payload, no padding. */
  function Packed(f: Frame): seq<byte> {
    Header(f) + f.ext
  }

  /** One packet write, or one peek followed by a read of the peeked size into a fresh buffer. */
  function Do(l: Link, capacity: nat, op: Op): (l': Link)
    requires |l.queue| <= capacity
    ensures |l'.queue| <= capacity
  {
    match op
    case Send(f) =>
      var w := PacketWrite(l.queue, capacity, Packed(f));
      if w.ret > 0 then Link(w.queue, l.accepted + [f], l.received) else l.(queue := w.queue)
    case Receive =>
      var size := Peek(l.queue);
      if size < 0 then l
      else
        var o := PacketRead(l.queue, Padding(size), size);
        if o.ret < HDR_SIZE || o.ret < size then l.(queue := o.queue)
        else l.(queue := o.queue, received := l.received + [Decode(o.buffer)])
  }

  /** A receive, by the bytes at hand: without a whole header that begins with the magic nothing happens;
      a whole frame is received; of a frame that is not all there the rest is lost. */
  lemma ReceiveIs(l: Link, capacity: nat)
    requires |l.queue| <= capacity
    ensures var q := l.queue;
            Do(l, capacity, Receive) ==
            if |q| < 16 || q[0] != 0xB1 || q[1] != 0xA8 then l
            else if 16 + Announced(q) <= |q| then
              Link(q[16 + Announced(q)..], l.accepted, l.received + [Decode(q[..16 + Announced(q)])])
            else l.(queue := [])
  {
    hide PacketRead, Peek, Announced, Decode;
    var q := l.queue;
    if |q| >= 16 {
      var size := 16 + Announced(q);
      HeaderIsJudged(q, Padding(size), size);
      if size <= |q| {
        assert q[16..][size - 16..] == q[size..];
        assert q[..size] + Padding(size)[size..] == q[..size];
      }
    } else {
      ShortIsJudged(q, [], 0);
    }
  }

  function DoAll(l: Link, capacity: nat, ops: seq<Op>): (l': Link)
    requires |l.queue| <= capacity
    ensures |l'.queue| <= capacity
  {
    if ops == [] then l else Do(DoAll(l, capacity, ops[..|ops| - 1]), capacity, ops[|ops| - 1])
  }

  /** Every send of a bare header finds sixteen free bytes; nothing is asked of other sends. */
  ghost predicate HeadersFit(l: Link, capacity: nat, ops: seq<Op>)
    requires |l.queue| <= capacity
  {
    ops != [] ==>
      var n := |ops| - 1;
      && HeadersFit(l, capacity, ops[..n])
      && (ops[n].Send? && ops[n].frame.ext == [] ==>
            capacity - |DoAll(l, capacity, ops[..n]).queue| >= HDR_SIZE)
  }

  /** The queue holds exactly the accepted frames that were not received yet. */
  ghost predicate InStep(l: Link) {
    && |l.received| <= |l.accepted| && l.received == l.accepted[..|l.received|]
    && l.queue == EncodeAll(l.accepted[|l.received|..])
  }

  lemma AlignedIsPacked(f: Frame)
    requires Aligned(f)
    ensures Encode(f) == Packed(f) && |Packed(f)| >= HDR_SIZE
  {
  }

  lemma SendWhenItFits(l: Link, capacity: nat, f: Frame)
    requires |l.queue| <= capacity < TWO32 && InStep(l) && Aligned(f) && |Packed(f)| <= capacity - |l.queue|
    ensures InStep(Do(l, capacity, Send(f)))
  {
    hide Encode, Packed, Header, EncodeAll, PacketWrite;
    AlignedIsPacked(f);
    PacketWriteAllOrNothing(l.queue, capacity, Packed(f));
    var waiting := l.accepted[|l.received|..];
    EncodeAllAppend(waiting, f);
    assert (l.accepted + [f])[|l.received|..] == waiting + [f];
  }

  lemma SendKeepsStep(l: Link, capacity: nat, f: Frame)
    requires |l.queue| <= capacity < TWO32 && InStep(l) && Aligned(f)
    requires f.ext == [] ==> capacity - |l.queue| >= HDR_SIZE
    ensures InStep(Do(l, capacity, Send(f)))
  {
    hide EncodeAll, Encode, Header;
    if |Packed(f)| <= capacity - |l.queue| {
      SendWhenItFits(l, capacity, f);
    } else {
      PacketWriteAllOrNothing(l.queue, capacity, Packed(f));
    }
  }

  /** A peek and a sized read take the first waiting frame, whole. */
  lemma TakeFrame(f: Frame, rest: seq<byte>)
    ensures var size, q := |Encode(f)|, Encode(f) + rest;
            && Peek(q) == size
            && PacketRead(q, Padding(size), size) == ReadOutcome(size, rest, Encode(f))
            && HDR_SIZE + Le16(Encode(f), 14) <= size && Decode(Encode(f)) == f
  {
    hide Encode, Peek, PacketRead, Decode;
    var size := |Encode(f)|;
    PeekFrame(f, rest);
    ReadFrame(f, rest, Padding(size), size);
    assert Put(Padding(size), 0, Encode(f)) == Encode(f) == Encode(f) + [];
    DecodeEncode(f, []);
  }

  lemma ReceiveKeepsStep(l: Link, capacity: nat)
    requires |l.queue| <= capacity && InStep(l)
    ensures InStep(Do(l, capacity, Receive))
    ensures |l.received| < |l.accepted| ==> |Do(l, capacity, Receive).received| == |l.received| + 1
  {
    hide Encode, PacketRead, Decode;
    var waiting := l.accepted[|l.received|..];
    if waiting != [] {
      TakeFrame(waiting[0], EncodeAll(waiting[1..]));
      assert waiting[1..] == l.accepted[|l.received| + 1..];
    }
  }

  /** Any interleaving of sends and receives hands the accepted frames out in order, across every
      wrap of the ring, and the rest of them is what the channel still holds. */
  lemma {:induction false} FramesComeBack(capacity: nat, ops: seq<Op>)
    requires capacity < TWO32 && (forall op :: op in ops ==> op.Send? ==> Aligned(op.frame))
    requires HeadersFit(EMPTY, capacity, ops)
    ensures InStep(DoAll(EMPTY, capacity, ops))
  {
    if ops == [] {
    } else {
      var n := |ops| - 1;
      FramesComeBack(capacity, ops[..n]);
      var l := DoAll(EMPTY, capacity, ops[..n]);
      assert ops[n] in ops;
      match ops[n]
      case Send(f) => SendKeepsStep(l, capacity, f);
      case Receive => ReceiveKeepsStep(l, capacity);
    }
  }

  /** The condition is exact: with fewer than sixteen free bytes a bare header is cut, reported as
      sent, and no longer is what the channel holds. */
  lemma BareHeaderNeedsRoom(l: Link, capacity: nat, f: Frame)
    requires |l.queue| <= capacity < TWO32 && InStep(l) && f.ext == []
    ensures InStep(Do(l, capacity, Send(f))) <==> capacity - |l.queue| >= HDR_SIZE
  {
    hide EncodeAll, Encode, Header;
    if capacity - |l.queue| >= HDR_SIZE {
      SendWhenItFits(l, capacity, f);
    } else {
      PacketWriteAllOrNothing(l.queue, capacity, Packed(f));
      var waiting := l.accepted[|l.received|..];
      EncodeAllAppend(waiting, f);
      assert (l.accepted + [f])[|l.received|..] == waiting + [f];
    }
  }

  // ----- The same on the ring itself -----

  /** A message as its sender hands it over; the length field keeps sixteen bits of the size. */
  datatype Outgoing = Outgoing(dev: u32, modId: u16, mesgId: u16, data: seq<byte>)

  function FrameFor(m: Outgoing): Frame {
    Frame(m.modId, m.dev, 0, m.mesgId, m.data[..|m.data| % 65536])
  }

  /** The bytes of a message, one by one: magic, module, device, no return value, message, length and
      data, words with the low byte first. */
  ghost predicate OnTheWire(b: seq<byte>, m: Outgoing) {
    var n := |m.data| % 65536;
    && |b| == 16 + n && b[16..] == m.data[..n]
    && b[0] == 0xB1 && b[1] == 0xA8
    && b[2] == m.modId % 256 && b[3] == m.modId / 256
    && b[4] == m.dev % 256 && b[5] == m.dev / 256 % 256 && b[6] == m.dev / 65536 % 256 && b[7] == m.dev / 16777216
    && b[8] == b[9] == b[10] == b[11] == 0
    && b[12] == m.mesgId % 256 && b[13] == m.mesgId / 256
    && b[14] == n % 256 && b[15] == n / 256
  }

  lemma Bytes32Are(x: u32)
    ensures Bytes32(x) == [x % 256, x / 256 % 256, x / 65536 % 256, x / 16777216]
  {
    var lo, hi := x % 65536, x / 65536;
    HalfWords(x);
    assert Bytes16(lo) == [x % 256, x / 256 % 256];
    assert Bytes16(hi) == [x / 65536 % 256, x / 16777216];
  }

  lemma HalfWords(x: nat)
    ensures x % 65536 % 256 == x % 256 && x % 65536 / 256 == x / 256 % 256
    ensures x / 65536 / 256 == x / 16777216
  {
    var q, r := x / 65536, x % 65536;
    assert x == 65536 * q + 256 * (r / 256) + r % 256;
  }

  lemma PackedIsOnTheWire(m: Outgoing)
    ensures OnTheWire(Packed(FrameFor(m)), m)
  {
    Bytes32Are(m.dev);
    Bytes32Are(0);
    hide Bytes32;
  }

  /** `rda_msys_pump_mesg`; a payload that does not fit the frame buffer stops the machine there. */
  method Pump(ch: Channel, m: Outgoing) returns (ret: int, ghost wire: seq<byte>)
    requires ch.Valid() && |m.data| % 65536 <= PACKET_MAX - HDR_SIZE
    modifies ch`head, ch.fifo
    ensures ch.Valid() && OnTheWire(wire, m) && wire == Packed(FrameFor(m))
    ensures WriteOutcome(ret, ch.Contents()) == PacketWrite(old(ch.Contents()), ch.fifoMask, wire)
    ensures ret == EBUSY || ret == |wire|
    ensures ret == EBUSY <==> |wire| > 16 && |old(ch.Contents())| + |wire| > ch.fifoMask
    ensures ret == EBUSY ==> ch.Contents() == old(ch.Contents())
    ensures |old(ch.Contents())| + |wire| <= ch.fifoMask ==> ch.Contents() == old(ch.Contents()) + wire
  {
    var extLen := |m.data| % 65536;
    var frame := Header(FrameFor(m));
    var pktSize := HDR_SIZE;
    if extLen > 0 {
      frame := frame + m.data[..extLen];
      pktSize := pktSize + extLen;
    }
    assert frame == Packed(FrameFor(m));
    PackedIsOnTheWire(m);
    hide OnTheWire, Header;
    wire := frame;
    PacketWriteAllOrNothing(ch.Contents(), ch.fifoMask, wire);
    ret := ch.WritePacket(frame, pktSize);
  }

  /** The messages pumped and the frames taken, from the message's side. */
  datatype Mail = Pumped(m: Outgoing) | Taken

  datatype Post = Post(queue: seq<byte>, accepted: seq<Outgoing>, received: seq<AnyFrame>)

  function Deliver(p: Post, capacity: nat, mail: Mail): (p': Post)
    requires |p.queue| <= capacity
    ensures |p'.queue| <= capacity
  {
    match mail
    case Pumped(m) =>
      var w := PacketWrite(p.queue, capacity, Packed(FrameFor(m)));
      if w.ret > 0 then Post(w.queue, p.accepted + [m], p.received) else p.(queue := w.queue)
    case Taken =>
      var l := Do(Link(p.queue, [], p.received), capacity, Receive);
      Post(l.queue, p.accepted, l.received)
  }

  function DeliverAll(p: Post, capacity: nat, mails: seq<Mail>): (p': Post)
    requires |p.queue| <= capacity
    ensures |p'.queue| <= capacity
  {
    if mails == [] then p else Deliver(DeliverAll(p, capacity, mails[..|mails| - 1]), capacity, mails[|mails| - 1])
  }

  /** A frame that carries just the message: its own module, device and message number, and its data. */
  predicate Carries(f: AnyFrame, m: Outgoing) {
    f.modId == m.modId && f.reqId == m.dev && f.msgId == m.mesgId && f.retVal == 0 && f.ext == m.data
  }

  /** The payload is a multiple of four bytes and fits the frame buffer, and a bare header finds its
      sixteen bytes. */
  ghost predicate Sendable(p: Post, capacity: nat, mail: Mail) {
    mail.Pumped? ==>
      && |mail.m.data| % 4 == 0 && |mail.m.data| <= PACKET_MAX - HDR_SIZE
      && (mail.m.data == [] ==> |p.queue| + HDR_SIZE <= capacity)
  }

  ghost predicate AllSendable(capacity: nat, mails: seq<Mail>) {
    mails != [] ==>
      var before := mails[..|mails| - 1];
      && AllSendable(capacity, before)
      && Sendable(DeliverAll(Post([], [], []), capacity, before), capacity, mails[|mails| - 1])
  }

  function FramesFor(ms: seq<Outgoing>): (fs: seq<Frame>)
    ensures |fs| == |ms| && forall i :: 0 <= i < |fs| ==> fs[i] == FrameFor(ms[i])
  {
    seq(|ms|, i requires 0 <= i < |ms| => FrameFor(ms[i]))
  }

  ghost function AsLink(p: Post): Link {
    Link(p.queue, FramesFor(p.accepted), p.received)
  }

  lemma DeliverIsDo(p: Post, capacity: nat, mail: Mail)
    requires |p.queue| <= capacity
    ensures AsLink(Deliver(p, capacity, mail)) ==
            Do(AsLink(p), capacity, if mail.Pumped? then Send(FrameFor(mail.m)) else Receive)
  {
    hide PacketWrite, PacketRead, Peek, Decode, Packed;
    if mail.Pumped? {
      assert FramesFor(p.accepted + [mail.m]) == FramesFor(p.accepted) + [FrameFor(mail.m)];
    }
  }

  /** Every accepted message can be carried whole. */
  ghost predicate PostOk(p: Post) {
    InStep(AsLink(p)) && forall i :: 0 <= i < |p.accepted| ==> |p.accepted[i].data| <= PACKET_MAX - HDR_SIZE
  }

  lemma DeliverKeeps(p: Post, capacity: nat, mail: Mail)
    requires |p.queue| <= capacity < TWO32 && PostOk(p) && Sendable(p, capacity, mail)
    ensures PostOk(Deliver(p, capacity, mail))
  {
    hide InStep, EncodeAll, PacketRead, Peek, Decode;
    DeliverIsDo(p, capacity, mail);
    if mail.Pumped? {
      SendKeepsStep(AsLink(p), capacity, FrameFor(mail.m));
    } else {
      ReceiveKeepsStep(AsLink(p), capacity);
    }
    hide PacketWrite, Packed;
  }

  lemma {:induction false} PostStaysOk(capacity: nat, mails: seq<Mail>)
    requires capacity < TWO32 && AllSendable(capacity, mails)
    ensures PostOk(DeliverAll(Post([], [], []), capacity, mails))
  {
    hide Deliver, Sendable;
    if mails == [] {
      assert FramesFor([]) == [];
    } else {
      hide PostOk;
      var n := |mails| - 1;
      PostStaysOk(capacity, mails[..n]);
      DeliverKeeps(DeliverAll(Post([], [], []), capacity, mails[..n]), capacity, mails[n]);
    }
  }

  lemma ReceivedCarries(p: Post, i: nat)
    requires PostOk(p) && i < |p.received|
    ensures i < |p.accepted| && Carries(p.received[i], p.accepted[i])
  {
    hide EncodeAll;
    var l := AsLink(p);
    assert l.received == l.accepted[..|l.received|];
    assert l.received[i] == FrameFor(p.accepted[i]);
  }

  /** End to end: whatever messages are pumped and frames taken, in whatever order, the frames that come
      out carry the accepted messages, each its own module, device, message number and data, in order. */
  lemma MessagesComeBack(capacity: nat, mails: seq<Mail>, i: nat)
    requires capacity < TWO32 && AllSendable(capacity, mails)
    requires i < |DeliverAll(Post([], [], []), capacity, mails).received|
    ensures var p := DeliverAll(Post([], [], []), capacity, mails);
            i < |p.accepted| && Carries(p.received[i], p.accepted[i])
  {
    PostStaysOk(capacity, mails);
    hide DeliverAll, PostOk, Carries;
    ReceivedCarries(DeliverAll(Post([], [], []), capacity, mails), i);
  }

  /** Takes one whole frame with a peek and a read of the peeked size. */
  method Take(ch: Channel, ghost f: Frame, ghost rest: seq<byte>) returns (out: AnyFrame)
    requires ch.Valid() && ch.Contents() == Encode(f) + rest
    modifies ch`tail
    ensures ch.Valid() && ch.Contents() == rest && out == f
  {
    hide Encode, Peek, PacketRead, Decode;
    TakeFrame(f, rest);
    var size := ch.PacketPeek();
    var buf := new byte[size](_ => 0);
    assert buf[..] == Padding(size);
    var r := ch.ReadPacket(buf, size);
    out := Decode(buf[..]);
  }

  /** Empties a channel that holds whole frames, however they lie across the end of the ring. */
  method Drain(ch: Channel, ghost fs: seq<Frame>) returns (out: seq<AnyFrame>)
    requires ch.Valid() && ch.Contents() == EncodeAll(fs)
    modifies ch`tail
    ensures ch.Valid() && ch.Contents() == [] && out == fs
  {
    hide Encode, Decode;
    out := [];
    ghost var waiting := fs;
    var avail := ch.ReadAvail();
    while avail > 0
      invariant ch.Valid() && out + waiting == fs
      invariant ch.Contents() == EncodeAll(waiting) && avail == |ch.Contents()|
      decreases |waiting|
    {
      var f := Take(ch, waiting[0], EncodeAll(waiting[1..]));
      out := out + [f];
      waiting := waiting[1..];
      avail := ch.ReadAvail();
    }
  }
}
