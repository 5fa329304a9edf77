/** One writer and one reader on the shared ring, every byte copied in its own step and each side
    working from a possibly stale view of the other's pointer (drivers/rda/md.c). Memory is
    sequentially consistent. */
module RingSpsc {
  import opened Words
  import opened Ring

  /** `chunk` is what the writer decided to copy after looking at the pointers, `done` bytes of it are copied. */
  datatype Writer = WIdle | WCopy(chunk: seq<byte>, done: nat)

  /** The reader decided to take `n` bytes and holds those it has copied so far. */
  datatype Reader = RIdle | RCopy(n: nat, got: seq<byte>)

  /** `published` and `received` are histories: all bytes ever made visible and ever handed out. */
  datatype State = State(fifo: seq<byte>, head: nat, tail: nat, w: Writer, r: Reader,
                         published: seq<byte>, received: seq<byte>)

  datatype Event =
    | Offer(data: seq<byte>) // the writer reads both pointers and picks a stretch
    | CopyIn                 // one byte of its memcpy
    | PublishHead            // __ch_write_done
    | Want(len: nat)         // the reader reads both pointers and picks a stretch
    | CopyOut                // one byte of its memcpy
    | PublishTail            // __ch_read_done

  predicate InRange(s: State) {
    s.head < |s.fifo| && s.tail < |s.fifo|
  }

  function Init(fifo: seq<byte>): State {
    State(fifo, 0, 0, WIdle, RIdle, [], [])
  }

  /** One step of either side; a step that is not due changes nothing. */
  function Next(s: State, e: Event): State
    requires InRange(s)
  {
    var size := |s.fifo|;
    match e
    case Offer(data) =>
      if s.w.WIdle? then s.(w := WCopy(data[..Min(|data|, Writable(size, s.head, s.tail))], 0)) else s
    case CopyIn =>
      if s.w.WCopy? && s.w.done < |s.w.chunk| && s.head + s.w.done < size then
        s.(fifo := s.fifo[s.head + s.w.done := s.w.chunk[s.w.done]], w := s.w.(done := s.w.done + 1))
      else s
    case PublishHead =>
      if s.w.WCopy? && s.w.done == |s.w.chunk| then
        s.(head := (s.head + |s.w.chunk|) % size, published := s.published + s.w.chunk, w := WIdle)
      else s
    case Want(len) =>
      if s.r.RIdle? then s.(r := RCopy(Min(len, Readable(size, s.head, s.tail)), [])) else s
    case CopyOut =>
      if s.r.RCopy? && |s.r.got| < s.r.n && s.tail + |s.r.got| < size then
        s.(r := s.r.(got := s.r.got + [s.fifo[s.tail + |s.r.got|]]))
      else s
    case PublishTail =>
      if s.r.RCopy? && |s.r.got| == s.r.n then
        s.(tail := (s.tail + s.r.n) % size, received := s.received + s.r.got, r := RIdle)
      else s
  }

  function Run(s: State, es: seq<Event>): (t: State)
    requires InRange(s)
    ensures InRange(t) && |t.fifo| == |s.fifo|
  {
    if es == [] then s else Next(Run(s, es[..|es| - 1]), es[|es| - 1])
  }

  // ----- The invariant, in terms of the two byte counters -----

  ghost predicate Pointers(s: State) {
    var wn, rn, size := |s.published|, |s.received|, |s.fifo|;
    size > 0 && rn <= wn < rn + size && s.head == wn % size && s.tail == rn % size
  }

  ghost predicate UnreadIsPublished(s: State) {
    |s.fifo| > 0 &&
    forall i {:trigger s.published[i]} :: |s.received| <= i < |s.published| ==> s.fifo[i % |s.fifo|] == s.published[i]
  }

  ghost predicate WriterOk(s: State) {
    s.w.WCopy? ==>
      && s.w.done <= |s.w.chunk| && s.head + |s.w.chunk| <= |s.fifo|
      && |s.published| + |s.w.chunk| < |s.received| + |s.fifo|
      && s.fifo[s.head..s.head + s.w.done] == s.w.chunk[..s.w.done]
  }

  ghost predicate ReaderOk(s: State) {
    s.r.RCopy? ==>
      && |s.r.got| <= s.r.n && s.tail + s.r.n <= |s.fifo|
      && |s.received| + s.r.n <= |s.published|
      && s.r.got == s.published[|s.received|..|s.received| + |s.r.got|]
  }

  ghost predicate Inv(s: State) {
    && Pointers(s) && UnreadIsPublished(s) && WriterOk(s) && ReaderOk(s)
    && s.received == s.published[..|s.received|]
  }

  lemma ModAdd(a: nat, n: nat, size: nat)
    requires size > 0 && n <= size
    ensures (a + n) % size == if a % size + n < size then a % size + n else a % size + n - size
    ensures (a % size + n) % size == (a + n) % size
  {
    var q, r := a / size, a % size;
    assert a == size * q + r;
    if r + n < size {
      QuotientIs(a + n, size, q, r + n);
      QuotientIs(r + n, size, 0, r + n);
    } else {
      assert a + n == size * (q + 1) + (r + n - size);
      QuotientIs(a + n, size, q + 1, r + n - size);
      QuotientIs(r + n, size, 1, r + n - size);
    }
  }

  /** Positions less than a lap apart are different places in the ring. */
  lemma Distinct(i: nat, j: nat, size: nat)
    requires size > 0 && i < j < i + size
    ensures i % size != j % size
  {
    ModAdd(i, j - i, size);
  }

  /** How far the two pointers are apart, from the counters. */
  lemma Gap(s: State)
    requires Pointers(s)
    ensures var used := |s.published| - |s.received|;
            s.head == if s.tail + used < |s.fifo| then s.tail + used else s.tail + used - |s.fifo|
  {
    ModAdd(|s.received|, |s.published| - |s.received|, |s.fifo|);
  }

  lemma StepOffer(s: State, data: seq<byte>)
    requires Inv(s)
    ensures Inv(Next(s, Offer(data)))
  {
    Gap(s);
  }

  lemma StepCopyIn(s: State)
    requires Inv(s)
    ensures Inv(Next(s, CopyIn))
  {
    var t := Next(s, CopyIn);
    if t != s {
      var size, wn, j := |s.fifo|, |s.published|, s.w.done;
      ModAdd(wn, j, size);
      forall i | |s.received| <= i < wn
        ensures t.fifo[i % size] == t.published[i]
      {
        Distinct(i, wn + j, size);
      }
      assert t.fifo[s.head..s.head + j + 1] == s.fifo[s.head..s.head + j] + [s.w.chunk[j]];
    }
  }

  lemma StepPublishHead(s: State)
    requires Inv(s)
    ensures Inv(Next(s, PublishHead))
  {
    var t := Next(s, PublishHead);
    if t != s {
      var size, wn := |s.fifo|, |s.published|;
      ModAdd(wn, |s.w.chunk|, size);
      forall i | |s.received| <= i < |t.published|
        ensures t.fifo[i % size] == t.published[i]
      {
        if i >= wn {
          ModAdd(wn, i - wn, size);
          assert s.fifo[s.head..s.head + |s.w.chunk|][i - wn] == s.w.chunk[i - wn];
        }
      }
    }
  }

  lemma StepWant(s: State, len: nat)
    requires Inv(s)
    ensures Inv(Next(s, Want(len)))
  {
    Gap(s);
  }

  lemma StepCopyOut(s: State)
    requires Inv(s)
    ensures Inv(Next(s, CopyOut))
  {
    var t := Next(s, CopyOut);
    if t != s {
      var rn, k := |s.received|, |s.r.got|;
      ModAdd(rn, k, |s.fifo|);
      assert s.published[rn..rn + k + 1] == s.published[rn..rn + k] + [s.published[rn + k]];
    }
  }

  lemma StepPublishTail(s: State)
    requires Inv(s)
    ensures Inv(Next(s, PublishTail))
  {
    var t := Next(s, PublishTail);
    if t != s {
      ModAdd(|s.received|, s.r.n, |s.fifo|);
      assert s.published[..|s.received| + s.r.n] == s.published[..|s.received|] + s.r.got;
    }
  }

  lemma StepKeepsInv(s: State, e: Event)
    requires Inv(s)
    ensures Inv(Next(s, e))
  {
    match e
    case Offer(data) => StepOffer(s, data);
    case CopyIn => StepCopyIn(s);
    case PublishHead => StepPublishHead(s);
    case Want(len) => StepWant(s, len);
    case CopyOut => StepCopyOut(s);
    case PublishTail => StepPublishTail(s);
  }

  lemma {:induction false} RunKeepsInv(fifo: seq<byte>, es: seq<Event>)
    requires fifo != []
    ensures Inv(Run(Init(fifo), es))
  {
    if es == [] {
    } else {
      RunKeepsInv(fifo, es[..|es| - 1]);
      StepKeepsInv(Run(Init(fifo), es[..|es| - 1]), es[|es| - 1]);
    }
  }

  lemma UnreadIsSlice(s: State)
    requires Inv(s)
    ensures Unread(s.fifo, s.head, s.tail) == s.published[|s.received|..]
  {
    var q, rn := Unread(s.fifo, s.head, s.tail), |s.received|;
    Gap(s);
    assert |q| == |s.published| - rn;
    forall k | 0 <= k < |q|
      ensures q[k] == s.published[rn + k]
    {
      ModAdd(rn, k, |s.fifo|);
    }
  }

  /** Whatever the interleaving: what the reader got so far, followed by what lies between the
      pointers, is exactly what the writer published. */
  lemma NothingLostOrInvented(fifo: seq<byte>, es: seq<Event>)
    requires fifo != []
    ensures var s := Run(Init(fifo), es);
            s.received + Unread(s.fifo, s.head, s.tail) == s.published
  {
    RunKeepsInv(fifo, es);
    UnreadIsSlice(Run(Init(fifo), es));
  }

  /** Place `p` of the ring holds a byte that is published and not yet released by the reader. */
  ghost predicate Holds(s: State, p: nat) {
    |s.fifo| > 0 && exists i :: |s.received| <= i < |s.published| && p == i % |s.fifo|
  }

  /** Whatever the interleaving, the stretch the writer is filling holds no unread byte, and the
      stretch the reader is copying holds nothing else. */
  lemma WriterNeverHitsUnread(fifo: seq<byte>, es: seq<Event>, p: nat)
    requires fifo != []
    ensures var s := Run(Init(fifo), es);
            && (s.w.WCopy? && s.head <= p < s.head + |s.w.chunk| ==> !Holds(s, p))
            && (s.r.RCopy? && s.tail <= p < s.tail + s.r.n ==> Holds(s, p))
  {
    var s := Run(Init(fifo), es);
    RunKeepsInv(fifo, es);
    var size, wn, rn := |s.fifo|, |s.published|, |s.received|;
    if s.w.WCopy? && s.head <= p < s.head + |s.w.chunk| {
      ModAdd(wn, p - s.head, size);
      forall i | rn <= i < wn
        ensures p != i % size
      {
        Distinct(i, wn + (p - s.head), size);
      }
    }
    if s.r.RCopy? && s.tail <= p < s.tail + s.r.n {
      ModAdd(rn, p - s.tail, size);
      assert p == (rn + (p - s.tail)) % size;
    }
  }

  /** A reader that waits until it has seen everything published gets everything: with both sides
      idle and equal pointers nothing is missing. */
  lemma EqualPointersMeanAllReceived(fifo: seq<byte>, es: seq<Event>)
    requires fifo != []
    ensures var s := Run(Init(fifo), es);
            s.head == s.tail <==> s.received == s.published
  {
    var s := Run(Init(fifo), es);
    RunKeepsInv(fifo, es);
    Gap(s);
  }

  // ----- Each side alone gets its stretch through -----

  /** The same step over and over. */
  function Times(s: State, e: Event, k: nat): (t: State)
    requires InRange(s)
    ensures InRange(t) && |t.fifo| == |s.fifo|
  {
    if k == 0 then s else Next(Times(s, e, k - 1), e)
  }

  lemma {:induction false} CopiesIn(s: State, k: nat)
    requires Inv(s) && InRange(s) && s.w.WCopy? && s.w.done + k <= |s.w.chunk|
    ensures var t := Times(s, CopyIn, k);
            t == s.(fifo := t.fifo, w := WCopy(s.w.chunk, s.w.done + k))
  {
    if k > 0 {
      CopiesIn(s, k - 1);
    }
  }

  lemma {:induction false} CopiesOut(s: State, k: nat)
    requires Inv(s) && InRange(s) && s.r.RCopy? && |s.r.got| + k <= s.r.n
    ensures var t := Times(s, CopyOut, k);
            t.r.RCopy? && |t.r.got| == |s.r.got| + k && t == s.(r := RCopy(s.r.n, t.r.got))
  {
    if k > 0 {
      CopiesOut(s, k - 1);
    }
  }

  /** A writer that nobody interrupts publishes as much as the stretch has room for. */
  lemma WriteGoesThrough(s: State, data: seq<byte>)
    requires Inv(s) && InRange(s) && s.w.WIdle?
    ensures var room := Writable(|s.fifo|, s.head, s.tail);
            var n := if |data| <= room then |data| else room;
            var t := Next(Times(Next(s, Offer(data)), CopyIn, n), PublishHead);
            t.w == WIdle && t.published == s.published + data[..n] && t.received == s.received
  {
    StepOffer(s, data);
    var s1 := Next(s, Offer(data));
    CopiesIn(s1, |s1.w.chunk|);
  }

  /** And so does a reader: it gets the oldest bytes not received yet. */
  lemma ReadGoesThrough(s: State, len: nat)
    requires Inv(s) && InRange(s) && s.r.RIdle?
    ensures var there := Readable(|s.fifo|, s.head, s.tail);
            var n := if len <= there then len else there;
            var t := Next(Times(Next(s, Want(len)), CopyOut, n), PublishTail);
            && t.r == RIdle && t.published == s.published && |s.received| + n <= |s.published|
            && t.received == s.published[..|s.received| + n]
  {
    StepKeepsInv(s, Want(len));
    var s1 := Next(s, Want(len));
    CopiesOut(s1, s1.r.n);
    TimesKeepInv(s1, CopyOut, s1.r.n);
    StepKeepsInv(Times(s1, CopyOut, s1.r.n), PublishTail);
  }

  lemma {:induction false} TimesKeepInv(s: State, e: Event, k: nat)
    requires Inv(s) && InRange(s)
    ensures Inv(Times(s, e, k))
  {
    if k > 0 {
      TimesKeepInv(s, e, k - 1);
      StepKeepsInv(Times(s, e, k - 1), e);
    }
  }
}
