/** The receive worker of the modem system channel: frame slots, replies, and asynchronous frames
    that wait for late init (drivers/rda/md_sys.c). */
module MsysRx {
  import opened Ring
  import opened Frames

  const MAX_SLOTS: nat := 32

  /** What the worker sees and owns. `waiting` are the whole frames in the receive ring, `handled` and
      `replies` the frames given to the asynchronous handler and to the reply matcher so far. */
  datatype Rx<T> = Rx(waiting: seq<T>, using: seq<bool>, held: seq<T>, rxPending: seq<nat>,
                      asyncDone: bool, handled: seq<T>, replies: seq<T>)

  predicate IsReply(f: AnyFrame) {
    f.msgId >= 0x8000
  }

  /** The reply flag is the top bit of the message number. */
  lemma RepliesAreFlagged(f: AnyFrame)
    ensures IsReply(f) <==> f.msgId / 32768 % 2 == 1
  {
  }

  /** `rda_msys_find_slot`: the first slot not in use, or the number of slots. */
  function FreeSlot(using: seq<bool>): (i: nat)
    ensures i <= |using| && (i < |using| ==> !using[i])
    ensures forall j :: 0 <= j < i ==> using[j]
  {
    if using == [] || !using[0] then 0 else 1 + FreeSlot(using[1..])
  }

  ghost predicate Shape<T>(s: Rx<T>) {
    && |s.using| == MAX_SLOTS && |s.held| == MAX_SLOTS
    && forall i :: 0 <= i < |s.rxPending| ==> s.rxPending[i] < MAX_SLOTS
  }

  ghost predicate CanTake<T>(s: Rx<T>) {
    s.waiting != [] && FreeSlot(s.using) < MAX_SLOTS
  }

  /** One round of the receive loop. */
  ghost function TakeOne<T>(s: Rx<T>, isReply: T -> bool): (t: Rx<T>)
    requires Shape(s) && CanTake(s)
    ensures Shape(t)
  {
    var f, i := s.waiting[0], FreeSlot(s.using);
    var s1 := s.(waiting := s.waiting[1..], held := s.held[i := f]);
    if isReply(f) then s1.(replies := s.replies + [f])
    else if s.asyncDone then s1.(handled := s.handled + [f])
    else s1.(using := s.using[i := true], rxPending := s.rxPending + [i])
  }

  /** The receive loop: whole frames are taken until none is left or no slot is free. */
  ghost function TakeAll<T>(s: Rx<T>, isReply: T -> bool): (t: Rx<T>)
    requires Shape(s)
    ensures Shape(t)
    decreases |s.waiting|
  {
    if CanTake(s) then TakeAll(TakeOne(s, isReply), isReply) else s
  }

  /** The frames in the slots on the pending list, in list order. */
  ghost function Parked<T>(s: Rx<T>): (p: seq<T>)
    requires Shape(s)
    ensures |p| == |s.rxPending|
  {
    seq(|s.rxPending|, k requires 0 <= k < |s.rxPending| => s.held[s.rxPending[k]])
  }

  /** First slot of the pending list to the handler, then the rest. */
  ghost function DrainOne<T>(s: Rx<T>): (t: Rx<T>)
    requires Shape(s) && s.rxPending != []
    ensures Shape(t)
  {
    var i := s.rxPending[0];
    s.(rxPending := s.rxPending[1..], using := s.using[i := false], handled := s.handled + [s.held[i]])
  }

  ghost function DrainAll<T>(s: Rx<T>): (t: Rx<T>)
    requires Shape(s)
    ensures Shape(t)
    decreases |s.rxPending|
  {
    if s.rxPending == [] then s else DrainAll(DrainOne(s))
  }

  /** `rda_msys_rx_work` with a flag that does not change while it runs. */
  ghost function Work<T>(s: Rx<T>, isReply: T -> bool): (t: Rx<T>)
    requires Shape(s)
    ensures Shape(t)
  {
    if s.asyncDone && s.rxPending != [] then DrainAll(s) else TakeAll(s, isReply)
  }

  // ----- The worker itself -----

  class RxMaster {
    const port: Channel
    const using: array<bool>
    const held: array<AnyFrame>
    var rxPending: seq<nat>
    var asyncDone: bool
    ghost var waiting: seq<Frame>
    ghost var handled: seq<AnyFrame>
    ghost var replies: seq<AnyFrame>

    ghost predicate Valid()
      reads this, port, port.fifo, using, held
    {
      && port.Valid() && port.Contents() == EncodeAll(waiting)
      && using.Length == MAX_SLOTS && held.Length == MAX_SLOTS
      && forall i :: 0 <= i < |rxPending| ==> rxPending[i] < MAX_SLOTS
    }

    ghost function View(): (s: Rx<AnyFrame>)
      requires Valid()
      reads this, port, port.fifo, using, held
      ensures Shape(s)
    {
      Rx(waiting, using[..], held[..], rxPending, asyncDone, handled, replies)
    }

    constructor (port: Channel)
      requires port.Valid() && port.Contents() == []
      ensures Valid() && fresh(using) && fresh(held) && this.port == port && using.Length == held.Length == 32
      ensures View().waiting == View().handled == View().replies == [] && View().rxPending == [] && !asyncDone
      ensures forall i :: 0 <= i < MAX_SLOTS ==> !View().using[i]
    {
      this.port := port;
      using := new bool[MAX_SLOTS](_ => false);
      held := new AnyFrame[MAX_SLOTS](_ => AnyFrame.Frame(0, 0, 0, 0, []));
      rxPending, asyncDone := [], false;
      waiting, handled, replies := [], [], [];
    }

    /** `rda_msys_find_slot`; -22 when every slot is in use. */
    method FindSlot() returns (slot: int)
      requires Valid()
      modifies using
      ensures Valid()
      ensures var i := FreeSlot(old(using[..]));
              if i < MAX_SLOTS then slot == i && using[..] == old(using[..])[i := true]
              else slot == EINVAL && using[..] == old(using[..])
    {
      ghost var u := using[..];
      for i := 0 to MAX_SLOTS
        invariant using[..] == u && forall j :: 0 <= j < i ==> u[j]
      {
        if !using[i] {
          FirstFree(u, i);
          using[i] := true;
          return i;
        }
      }
      return EINVAL;
    }

    /** `rda_msys_async_msg_handler` on one slot: the frame is delivered and the slot freed. */
    method Handle(slot: nat)
      requires Valid() && slot < MAX_SLOTS
      modifies this`handled, using
      ensures Valid() && handled == old(handled) + [held[slot]]
      ensures using[..] == old(using[..])[slot := false]
    {
      handled := handled + [held[slot]];
      using[slot] := false;
    }

    /** The drain run after late init. */
    method DrainPending()
      requires Valid()
      modifies this`rxPending, this`handled, using
      ensures Valid() && View() == DrainAll(old(View()))
    {
      while rxPending != []
        invariant Valid() && DrainAll(View()) == DrainAll(old(View()))
        decreases |rxPending|
      {
        var slot := rxPending[0];
        rxPending := rxPending[1..];
        Handle(slot);
      }
    }

    /** Peeks, takes a slot and reads the frame into it; a slot of -22 means that no slot was free.
        The read of the peeked size cannot fail, because the frame is in the ring as a whole. */
    method ReadIntoSlot() returns (slot: int, sysException: bool)
      requires Valid() && waiting != []
      modifies this`waiting, port`tail, using, held
      ensures Valid() && !sysException
      ensures var i := FreeSlot(old(using[..]));
              if i < MAX_SLOTS then
                && slot == i && using[..] == old(using[..])[i := true]
                && waiting == old(waiting)[1..] && held[..] == old(held[..])[i := old(waiting)[0]]
              else slot < 0 && View() == old(View())
    {
      hide Encode, Peek, PacketRead, Decode;
      TakeFrame(waiting[0], EncodeAll(waiting[1..]));
      var rsize := port.PacketPeek();
      slot := FindSlot();
      if slot < 0 {
        return slot, false;
      }
      var buf := new byte[rsize](_ => 0);
      assert buf[..] == Padding(rsize);
      rsize := port.ReadPacket(buf, rsize);
      sysException := rsize < 0;
      held[slot] := Decode(buf[..]);
      waiting := waiting[1..];
    }

    /** What happens to a frame once it is in its slot. */
    method Dispatch(slot: nat, ghost before: Rx<AnyFrame>)
      requires Valid() && slot < MAX_SLOTS && Shape(before) && CanTake(before)
      requires slot == FreeSlot(before.using) && waiting == before.waiting[1..]
      requires using[..] == before.using[slot := true] && held[..] == before.held[slot := before.waiting[0]]
      requires rxPending == before.rxPending && asyncDone == before.asyncDone
      requires handled == before.handled && replies == before.replies
      modifies this`rxPending, this`handled, this`replies, using
      ensures Valid() && View() == TakeOne(before, IsReply)
    {
      assert held[slot] == before.waiting[0];
      if IsReply(held[slot]) {
        replies := replies + [held[slot]];
        using[slot] := false;
      } else if asyncDone {
        Handle(slot);
      } else {
        rxPending := rxPending + [slot];
      }
      assert !before.using[slot] && before.using[slot := true][slot := false] == before.using;
    }

    /** `rda_msys_rx_work`. */
    method RxWork() returns (sysException: bool)
      requires Valid()
      modifies this`rxPending, this`waiting, this`handled, this`replies, port`tail, using, held
      ensures Valid() && View() == Work(old(View()), IsReply) && !sysException
    {
      hide TakeOne, Encode;
      sysException := false;
      if asyncDone && rxPending != [] {
        DrainPending();
        return;
      }
      var avail := port.ReadAvail();
      while avail > 0
        invariant Valid() && avail == |port.Contents()|
        invariant TakeAll(View(), IsReply) == TakeAll(old(View()), IsReply)
        decreases |waiting|
      {
        ghost var before := View();
        var slot;
        slot, sysException := ReadIntoSlot();
        if slot < 0 || sysException {
          break;
        }
        Dispatch(slot, before);
        avail := port.ReadAvail();
      }
    }
  }

  lemma FirstFree(using: seq<bool>, i: nat)
    requires i < |using| && !using[i] && forall j :: 0 <= j < i ==> using[j]
    ensures FreeSlot(using) == i
  {
  }

  // ----- Runs of arrivals, worker runs and late init -----

  ghost function Async<T>(isReply: T -> bool): T -> bool {
    f => !isReply(f)
  }

  /** The frames of a kind, in order. */
  ghost function Only<T>(fs: seq<T>, p: T -> bool): seq<T> {
    if fs == [] then [] else Only(fs[..|fs| - 1], p) + if p(fs[|fs| - 1]) then [fs[|fs| - 1]] else []
  }

  /** The slots in use are exactly the slots on the pending list, each there once. */
  ghost predicate SlotsOk<T>(s: Rx<T>) {
    && Shape(s)
    && (forall i, j :: 0 <= i < j < |s.rxPending| ==> s.rxPending[i] != s.rxPending[j])
    && (forall i: nat :: i < MAX_SLOTS ==> (s.using[i] <==> i in s.rxPending))
  }

  /** Asynchronous frames in the order in which the handler has got or will get them. */
  ghost function Delivery<T>(s: Rx<T>, isReply: T -> bool): seq<T>
    requires Shape(s)
  {
    s.handled + Parked(s) + Only(s.waiting, Async(isReply))
  }

  ghost predicate RepliesKept<T>(s: Rx<T>, arrived: seq<T>, isReply: T -> bool) {
    s.replies + Only(s.waiting, isReply) == Only(arrived, isReply)
  }

  /** Each asynchronous frame is delivered, parked or still in the ring, exactly once, in order. */
  ghost predicate InOrder<T>(s: Rx<T>, arrived: seq<T>, isReply: T -> bool)
    requires Shape(s)
  {
    Delivery(s, isReply) == Only(arrived, Async(isReply))
  }

  lemma {:induction false} OnlyHead<T>(fs: seq<T>, p: T -> bool)
    requires fs != []
    ensures Only(fs, p) == (if p(fs[0]) then [fs[0]] else []) + Only(fs[1..], p)
  {
    var n := |fs| - 1;
    if n == 0 {
      assert fs[..0] == [] && fs[1..] == [];
    } else {
      OnlyHead(fs[..n], p);
      assert fs[..n][1..] == fs[1..][..n - 1] && fs[1..][n - 1] == fs[n];
    }
  }

  lemma TakeOneSlots<T>(s: Rx<T>, isReply: T -> bool)
    requires SlotsOk(s) && CanTake(s)
    ensures SlotsOk(TakeOne(s, isReply))
    ensures Parked(TakeOne(s, isReply)) ==
            Parked(s) + if !isReply(s.waiting[0]) && !s.asyncDone then [s.waiting[0]] else []
  {
    var t, i := TakeOne(s, isReply), FreeSlot(s.using);
    assert i !in s.rxPending;
    assert forall k :: 0 <= k < |s.rxPending| ==> t.held[s.rxPending[k]] == s.held[s.rxPending[k]];
  }

  /** A round keeps the delivery order while the flag is off, while nothing is parked, and for a reply. */
  lemma TakeOneOrder<T>(s: Rx<T>, isReply: T -> bool)
    requires SlotsOk(s) && CanTake(s) && (s.asyncDone ==> s.rxPending == [] || isReply(s.waiting[0]))
    ensures Delivery(TakeOne(s, isReply), isReply) == Delivery(s, isReply)
  {
    hide Only;
    TakeOneSlots(s, isReply);
    OnlyHead(s.waiting, Async(isReply));
    var t := TakeOne(s, isReply);
    hide Parked;
    if s.asyncDone && s.rxPending == [] {
      assert Parked(s) == Parked(t) == [];
    }
  }

  lemma TakeOneReplies<T>(s: Rx<T>, arrived: seq<T>, isReply: T -> bool)
    requires Shape(s) && CanTake(s) && RepliesKept(s, arrived, isReply)
    ensures RepliesKept(TakeOne(s, isReply), arrived, isReply)
  {
    OnlyHead(s.waiting, isReply);
  }

  lemma {:induction false} TakeAllKeeps<T>(s: Rx<T>, arrived: seq<T>, isReply: T -> bool)
    requires SlotsOk(s) && RepliesKept(s, arrived, isReply)
    ensures SlotsOk(TakeAll(s, isReply)) && RepliesKept(TakeAll(s, isReply), arrived, isReply)
    ensures s.asyncDone && s.rxPending == [] ==> TakeAll(s, isReply).rxPending == []
    ensures (s.asyncDone ==> s.rxPending == []) ==> Delivery(TakeAll(s, isReply), isReply) == Delivery(s, isReply)
    decreases |s.waiting|
  {
    if !CanTake(s) {
    } else {
      TakeOneSlots(s, isReply);
      TakeOneReplies(s, arrived, isReply);
      if s.asyncDone ==> s.rxPending == [] {
        TakeOneOrder(s, isReply);
      }
      TakeAllKeeps(TakeOne(s, isReply), arrived, isReply);
    }
  }

  lemma DrainOneSlots<T>(s: Rx<T>)
    requires SlotsOk(s) && s.rxPending != []
    ensures SlotsOk(DrainOne(s))
  {
    var t := DrainOne(s);
    assert s.rxPending == [s.rxPending[0]] + t.rxPending;
    forall i: nat | i < MAX_SLOTS
      ensures t.using[i] <==> i in t.rxPending
    {
      assert s.using[i] <==> i in s.rxPending;
    }
  }

  lemma DrainOneParked<T>(s: Rx<T>)
    requires Shape(s) && s.rxPending != []
    ensures Parked(s) == [s.held[s.rxPending[0]]] + Parked(DrainOne(s))
  {
  }

  lemma DrainOneKeeps<T>(s: Rx<T>, isReply: T -> bool)
    requires SlotsOk(s) && s.rxPending != []
    ensures SlotsOk(DrainOne(s)) && Delivery(DrainOne(s), isReply) == Delivery(s, isReply)
  {
    DrainOneSlots(s);
    DrainOneParked(s);
    hide Parked, Only, SlotsOk;
    var p := Parked(DrainOne(s));
    assert s.handled + ([s.held[s.rxPending[0]]] + p) == s.handled + [s.held[s.rxPending[0]]] + p;
  }

  lemma {:induction false} DrainAllKeeps<T>(s: Rx<T>, isReply: T -> bool)
    requires SlotsOk(s)
    ensures SlotsOk(DrainAll(s)) && Delivery(DrainAll(s), isReply) == Delivery(s, isReply)
    ensures DrainAll(s).rxPending == [] && DrainAll(s).waiting == s.waiting && DrainAll(s).replies == s.replies
    decreases |s.rxPending|
  {
    if s.rxPending == [] {
    } else {
      DrainOneKeeps(s, isReply);
      DrainAllKeeps(DrainOne(s), isReply);
    }
  }

  /** Where the worker is: not running, in the loop over the pending list, or in the receive loop. */
  datatype Place = Between | Draining | Receiving

  datatype World<T> = World(rx: Rx<T>, at: Place, arrived: seq<T>)

  /** `Round` is the next round of the loop the worker is in, or the end of its run. */
  datatype Happening<T> = Arrive(f: T) | Begin | Round | LateInit

  ghost function Happen<T>(w: World<T>, h: Happening<T>, isReply: T -> bool): (w': World<T>)
    requires Shape(w.rx)
    ensures Shape(w'.rx)
  {
    match h
    case Arrive(f) => w.(rx := w.rx.(waiting := w.rx.waiting + [f]), arrived := w.arrived + [f])
    case Begin =>
      if w.at != Between then w
      else w.(at := if w.rx.asyncDone && w.rx.rxPending != [] then Draining else Receiving)
    case Round =>
      if w.at == Draining && w.rx.rxPending != [] then w.(rx := DrainOne(w.rx))
      else if w.at == Receiving && CanTake(w.rx) then w.(rx := TakeOne(w.rx, isReply))
      else w.(at := Between)
    case LateInit => w.(rx := w.rx.(asyncDone := true))
  }

  ghost function HappenAll<T>(w: World<T>, hs: seq<Happening<T>>, isReply: T -> bool): (w': World<T>)
    requires Shape(w.rx)
    ensures Shape(w'.rx)
  {
    if hs == [] then w else Happen(HappenAll(w, hs[..|hs| - 1], isReply), hs[|hs| - 1], isReply)
  }

  /** What the worker does once it has begun, with nothing else in between. */
  ghost function Finish<T>(w: World<T>, isReply: T -> bool): (w': World<T>)
    requires Shape(w.rx)
    decreases w.at != Between, if w.at == Draining then |w.rx.rxPending| else |w.rx.waiting|
  {
    if w.at == Between then w else Finish(Happen(w, Round, isReply), isReply)
  }

  lemma {:induction false} FinishIs<T>(w: World<T>, isReply: T -> bool)
    requires Shape(w.rx) && w.at != Between
    ensures Finish(w, isReply) ==
            w.(rx := if w.at == Draining then DrainAll(w.rx) else TakeAll(w.rx, isReply), at := Between)
    decreases if w.at == Draining then |w.rx.rxPending| else |w.rx.waiting|
  {
    hide TakeOne, DrainOne, CanTake;
    if (w.at == Draining && w.rx.rxPending != []) || (w.at == Receiving && CanTake(w.rx)) {
      RoundShrinks(w, isReply);
      FinishIs(Happen(w, Round, isReply), isReply);
    }
  }

  lemma RoundShrinks<T>(w: World<T>, isReply: T -> bool)
    requires Shape(w.rx)
    ensures w.at == Draining && w.rx.rxPending != [] ==> |Happen(w, Round, isReply).rx.rxPending| < |w.rx.rxPending|
    ensures w.at == Receiving && CanTake(w.rx) ==> |Happen(w, Round, isReply).rx.waiting| < |w.rx.waiting|
  {
  }

  /** An undisturbed run has the effect of the worker. */
  lemma RunIsWork<T>(w: World<T>, isReply: T -> bool)
    requires Shape(w.rx) && w.at == Between
    ensures Finish(Happen(w, Begin, isReply), isReply) == w.(rx := Work(w.rx, isReply))
  {
    FinishIs(Happen(w, Begin, isReply), isReply);
  }

  ghost predicate Fresh<T>(s: Rx<T>) {
    Shape(s) && s.rxPending == [] && s.waiting == s.handled == s.replies == [] &&
    forall i :: 0 <= i < MAX_SLOTS ==> !s.using[i]
  }

  ghost function StartUp<T>(rx: Rx<T>): World<T> {
    World(rx, Between, [])
  }

  ghost predicate WorldOk<T>(w: World<T>, isReply: T -> bool) {
    SlotsOk(w.rx) && RepliesKept(w.rx, w.arrived, isReply) && (w.at == Draining ==> w.rx.asyncDone)
  }

  /** A round hands out an asynchronous frame while others are parked. */
  ghost predicate Overtakes<T>(w: World<T>, h: Happening<T>, isReply: T -> bool) {
    && h == Round && w.at == Receiving && CanTake(w.rx)
    && w.rx.asyncDone && w.rx.rxPending != [] && !isReply(w.rx.waiting[0])
  }

  lemma OnlyAppend<T>(fs: seq<T>, f: T, p: T -> bool)
    ensures Only(fs + [f], p) == Only(fs, p) + if p(f) then [f] else []
  {
    assert (fs + [f])[..|fs|] == fs;
  }

  lemma ArriveDelivery<T>(s: Rx<T>, f: T, isReply: T -> bool)
    requires SlotsOk(s)
    ensures var t := s.(waiting := s.waiting + [f]);
            SlotsOk(t) && Delivery(t, isReply) == Delivery(s, isReply) + if isReply(f) then [] else [f]
  {
    var t := s.(waiting := s.waiting + [f]);
    OnlyAppend(s.waiting, f, Async(isReply));
    SameParked(s, t);
    hide Only, Parked;
  }

  lemma ArriveReplies<T>(s: Rx<T>, arrived: seq<T>, f: T, isReply: T -> bool)
    requires RepliesKept(s, arrived, isReply)
    ensures RepliesKept(s.(waiting := s.waiting + [f]), arrived + [f], isReply)
  {
    OnlyAppend(s.waiting, f, isReply);
    OnlyAppend(arrived, f, isReply);
    hide Only;
  }

  lemma ArriveKeeps<T>(w: World<T>, f: T, isReply: T -> bool)
    requires WorldOk(w, isReply)
    ensures WorldOk(Happen(w, Arrive(f), isReply), isReply)
    ensures InOrder(w.rx, w.arrived, isReply) ==>
              var t := Happen(w, Arrive(f), isReply); InOrder(t.rx, t.arrived, isReply)
  {
    ArriveDelivery(w.rx, f, isReply);
    ArriveReplies(w.rx, w.arrived, f, isReply);
    OnlyAppend(w.arrived, f, Async(isReply));
    hide Only, Delivery, SlotsOk, RepliesKept, TakeOne, DrainOne;
  }

  /** Each step keeps slots and replies, and the order unless it overtakes. */
  lemma StepKeeps<T>(w: World<T>, h: Happening<T>, isReply: T -> bool)
    requires WorldOk(w, isReply)
    ensures WorldOk(Happen(w, h, isReply), isReply)
    ensures var t := Happen(w, h, isReply);
            InOrder(w.rx, w.arrived, isReply) && !Overtakes(w, h, isReply) ==> InOrder(t.rx, t.arrived, isReply)
  {
    hide TakeOne, DrainOne, Only, Parked;
    match h
    case Arrive(f) => ArriveKeeps(w, f, isReply);
    case Begin =>
    case Round =>
      if w.at == Draining && w.rx.rxPending != [] {
        DrainOneKeeps(w.rx, isReply);
        DrainOneLeaves(w.rx);
      } else if w.at == Receiving && CanTake(w.rx) {
        TakeOneSlots(w.rx, isReply);
        TakeOneReplies(w.rx, w.arrived, isReply);
        if !Overtakes(w, h, isReply) {
          TakeOneOrder(w.rx, isReply);
        }
      }
    case LateInit => SameParked(w.rx, w.rx.(asyncDone := true));
  }

  lemma DrainOneLeaves<T>(s: Rx<T>)
    requires Shape(s) && s.rxPending != []
    ensures DrainOne(s).asyncDone == s.asyncDone && DrainOne(s).waiting == s.waiting && DrainOne(s).replies == s.replies
  {
  }

  lemma SameParked<T>(s: Rx<T>, t: Rx<T>)
    requires Shape(s) && Shape(t) && s.held == t.held && s.rxPending == t.rxPending
    ensures Parked(s) == Parked(t)
  {
  }

  ghost predicate DistinctFrames<T>(fs: seq<T>) {
    forall i, j :: 0 <= i < j < |fs| ==> fs[i] != fs[j]
  }

  /** An overtaking round is one too many: with frames that can be told apart the order is lost. */
  lemma OvertakingDisorders<T>(w: World<T>, h: Happening<T>, isReply: T -> bool)
    requires WorldOk(w, isReply) && InOrder(w.rx, w.arrived, isReply) && Overtakes(w, h, isReply)
    requires DistinctFrames(w.arrived)
    ensures !InOrder(Happen(w, h, isReply).rx, w.arrived, isReply)
  {
    var s, f := w.rx, w.rx.waiting[0];
    var t := TakeOne(s, isReply);
    TakeOneSlots(s, isReply);
    OnlyHead(s.waiting, Async(isReply));
    OnlyDistinct(w.arrived, Async(isReply));
    hide Only, Parked;
    var all := Only(w.arrived, Async(isReply));
    var n := |s.handled|;
    assert Delivery(s, isReply)[n] == Parked(s)[0] && Delivery(s, isReply)[n + |Parked(s)|] == f;
    assert Delivery(t, isReply)[n] == f;
  }

  lemma StartUpIsOk<T>(rx: Rx<T>, isReply: T -> bool)
    requires Fresh(rx)
    ensures WorldOk(StartUp(rx), isReply) && InOrder(rx, [], isReply)
  {
    assert Parked(rx) == [];
  }

  /** The world after the first `n` happenings of a history that starts with `rx`. */
  ghost function After<T>(rx: Rx<T>, hs: seq<Happening<T>>, n: nat, isReply: T -> bool): (w: World<T>)
    requires Shape(rx) && n <= |hs|
    ensures Shape(w.rx)
  {
    HappenAll(StartUp(rx), hs[..n], isReply)
  }

  ghost predicate OrderedAfter<T>(rx: Rx<T>, hs: seq<Happening<T>>, n: nat, isReply: T -> bool)
    requires Shape(rx) && n <= |hs|
  {
    InOrder(After(rx, hs, n, isReply).rx, After(rx, hs, n, isReply).arrived, isReply)
  }

  ghost predicate OvertakenAt<T>(rx: Rx<T>, hs: seq<Happening<T>>, n: nat, isReply: T -> bool)
    requires Shape(rx) && n < |hs|
  {
    Overtakes(After(rx, hs, n, isReply), hs[n], isReply)
  }

  lemma AfterNext<T>(rx: Rx<T>, hs: seq<Happening<T>>, n: nat, isReply: T -> bool)
    requires Shape(rx) && n < |hs|
    ensures After(rx, hs, n + 1, isReply) == Happen(After(rx, hs, n, isReply), hs[n], isReply)
  {
    assert hs[..n + 1][..n] == hs[..n];
    hide Happen;
  }

  lemma AfterNothing<T>(rx: Rx<T>, hs: seq<Happening<T>>, isReply: T -> bool)
    requires Shape(rx)
    ensures After(rx, hs, 0, isReply) == StartUp(rx)
  {
  }

  /** Over every history, with frames arriving and late init falling anywhere, also inside worker runs,
      at every point: the slots in use are exactly the pending ones, every reply is delivered or waits
      exactly once and in arrival order, and so is, or is parked, every asynchronous frame as long as
      no round overtakes parked ones. */
  lemma {:induction false} OrderAndSlots<T>(rx: Rx<T>, hs: seq<Happening<T>>, n: nat, isReply: T -> bool)
    requires Fresh(rx) && n <= |hs|
    ensures WorldOk(After(rx, hs, n, isReply), isReply)
    ensures (forall k: nat :: k < n ==> !OvertakenAt(rx, hs, k, isReply)) ==> OrderedAfter(rx, hs, n, isReply)
  {
    hide WorldOk, InOrder, Overtakes, After, Happen;
    if n == 0 {
      AfterNothing(rx, hs, isReply);
      StartUpIsOk(rx, isReply);
    } else {
      OrderAndSlots(rx, hs, n - 1, isReply);
      StepKeeps(After(rx, hs, n - 1, isReply), hs[n - 1], isReply);
      AfterNext(rx, hs, n - 1, isReply);
      if forall k: nat :: k < n ==> !OvertakenAt(rx, hs, k, isReply) {
        assert !OvertakenAt(rx, hs, n - 1, isReply);
      }
    }
  }

  lemma ArrivedStep<T>(w: World<T>, h: Happening<T>, isReply: T -> bool)
    requires Shape(w.rx)
    ensures w.arrived <= Happen(w, h, isReply).arrived
    ensures Overtakes(w, h, isReply) ==> Happen(w, h, isReply).arrived == w.arrived
  {
    hide TakeOne, DrainOne;
  }

  lemma {:induction false} ArrivedGrows<T>(rx: Rx<T>, hs: seq<Happening<T>>, n: nat, isReply: T -> bool)
    requires Shape(rx) && n <= |hs|
    ensures After(rx, hs, n, isReply).arrived <= After(rx, hs, |hs|, isReply).arrived
    decreases |hs| - n
  {
    hide After, Happen, Overtakes;
    if n == |hs| {
    } else {
      AfterNext(rx, hs, n, isReply);
      ArrivedStep(After(rx, hs, n, isReply), hs[n], isReply);
      ArrivedGrows(rx, hs, n + 1, isReply);
    }
  }

  lemma Disordered<T>(rx: Rx<T>, hs: seq<Happening<T>>, n: nat, isReply: T -> bool)
    requires Fresh(rx) && n < |hs| && DistinctFrames(After(rx, hs, |hs|, isReply).arrived)
    requires OvertakenAt(rx, hs, n, isReply) && OrderedAfter(rx, hs, n, isReply)
    ensures !OrderedAfter(rx, hs, n + 1, isReply)
  {
    hide WorldOk, InOrder, Overtakes, Happen, After;
    OrderAndSlots(rx, hs, n, isReply);
    ArrivedGrows(rx, hs, n, isReply);
    AfterNext(rx, hs, n, isReply);
    ArrivedStep(After(rx, hs, n, isReply), hs[n], isReply);
    OvertakingDisorders(After(rx, hs, n, isReply), hs[n], isReply);
  }

  /** With frames that can be told apart this is exact: the order holds at every point of a history
      exactly when no round of it overtakes. */
  lemma OrderIsExact<T>(rx: Rx<T>, hs: seq<Happening<T>>, isReply: T -> bool)
    requires Fresh(rx) && DistinctFrames(After(rx, hs, |hs|, isReply).arrived)
    ensures (forall n: nat :: n <= |hs| ==> OrderedAfter(rx, hs, n, isReply))
            <==> (forall n: nat :: n < |hs| ==> !OvertakenAt(rx, hs, n, isReply))
  {
    hide OrderedAfter, OvertakenAt, After;
    if forall n: nat :: n < |hs| ==> !OvertakenAt(rx, hs, n, isReply) {
      forall n: nat | n <= |hs|
        ensures OrderedAfter(rx, hs, n, isReply)
      {
        OrderAndSlots(rx, hs, n, isReply);
      }
    } else {
      var n: nat :| n < |hs| && OvertakenAt(rx, hs, n, isReply);
      if OrderedAfter(rx, hs, n, isReply) {
        Disordered(rx, hs, n, isReply);
      }
    }
  }

  /** The receive loop with the flag on has nothing parked. */
  ghost predicate Calm<T>(w: World<T>) {
    w.at == Receiving && w.rx.asyncDone ==> w.rx.rxPending == []
  }

  /** Late init inside the receive loop while frames are parked. */
  ghost predicate FlipsAt<T>(rx: Rx<T>, hs: seq<Happening<T>>, n: nat, isReply: T -> bool)
    requires Shape(rx) && n < |hs|
  {
    var w := After(rx, hs, n, isReply);
    hs[n] == LateInit && w.at == Receiving && w.rx.rxPending != []
  }

  lemma CalmStep<T>(w: World<T>, h: Happening<T>, isReply: T -> bool)
    requires Shape(w.rx) && Calm(w) && !(h == LateInit && w.at == Receiving && w.rx.rxPending != [])
    ensures Calm(Happen(w, h, isReply)) && !Overtakes(w, h, isReply)
  {
  }

  lemma {:induction false} StaysCalm<T>(rx: Rx<T>, hs: seq<Happening<T>>, n: nat, isReply: T -> bool)
    requires Fresh(rx) && n <= |hs| && forall k: nat :: k < n ==> !FlipsAt(rx, hs, k, isReply)
    ensures Calm(After(rx, hs, n, isReply))
  {
    hide Happen, After, Overtakes, Shape;
    if n == 0 {
      AfterNothing(rx, hs, isReply);
    } else {
      StaysCalm(rx, hs, n - 1, isReply);
      assert !FlipsAt(rx, hs, n - 1, isReply);
      CalmStep(After(rx, hs, n - 1, isReply), hs[n - 1], isReply);
      AfterNext(rx, hs, n - 1, isReply);
    }
  }

  /** Only a late init inside the receive loop, with frames parked, can lead to overtaking. */
  lemma OrderWithoutFlips<T>(rx: Rx<T>, hs: seq<Happening<T>>, n: nat, isReply: T -> bool)
    requires Fresh(rx) && n <= |hs| && forall k: nat :: k < n ==> !FlipsAt(rx, hs, k, isReply)
    ensures OrderedAfter(rx, hs, n, isReply)
  {
    hide After, OrderedAfter, FlipsAt, Shape, WorldOk;
    forall k: nat | k < n
      ensures !OvertakenAt(rx, hs, k, isReply)
    {
      StaysCalm(rx, hs, k, isReply);
    }
    OrderAndSlots(rx, hs, n, isReply);
  }

  // ----- The flag flipping inside a worker run -----

  /** What is left of a run in which the flag has just come on: parked frames stay parked and new
      ones overtake them. */
  lemma {:induction false} RestOfRun<T>(s: Rx<T>, arrived: seq<T>, isReply: T -> bool) returns (late: seq<T>)
    requires SlotsOk(s) && s.asyncDone && RepliesKept(s, arrived, isReply)
    ensures var t := TakeAll(s, isReply);
            && SlotsOk(t) && RepliesKept(t, arrived, isReply)
            && t.handled == s.handled + late && Parked(t) == Parked(s)
            && Only(s.waiting, Async(isReply)) == late + Only(t.waiting, Async(isReply))
    decreases |s.waiting|
  {
    hide Only, Parked;
    if CanTake(s) {
      TakeOneSlots(s, isReply);
      TakeOneReplies(s, arrived, isReply);
      OnlyHead(s.waiting, Async(isReply));
      var rest := RestOfRun(TakeOne(s, isReply), arrived, isReply);
      late := (if isReply(s.waiting[0]) then [] else [s.waiting[0]]) + rest;
    } else {
      late := [];
    }
  }

  lemma SwapIsVisible<T>(a: seq<T>, x: seq<T>, y: seq<T>, b: seq<T>)
    requires forall i, j :: 0 <= i < |x| && 0 <= j < |y| ==> x[i] != y[j]
    ensures a + x + y + b == a + y + x + b <==> x == [] || y == []
  {
    if x != [] && y != [] {
      assert (a + x + y + b)[|a|] == x[0] && (a + y + x + b)[|a|] == y[0];
    }
  }

  /** A run with the flag on hands a frame to the handler exactly when a slot is free and an
      asynchronous frame waits: a reply frees its slot at once, so one free slot lasts. */
  lemma {:induction false} HandsOverWhen<T>(s: Rx<T>, isReply: T -> bool)
    requires Shape(s) && s.asyncDone
    ensures TakeAll(s, isReply).handled == s.handled <==>
            FreeSlot(s.using) == MAX_SLOTS || Only(s.waiting, Async(isReply)) == []
    ensures s.handled <= TakeAll(s, isReply).handled
    decreases |s.waiting|
  {
    hide Only, Parked;
    if CanTake(s) {
      OnlyHead(s.waiting, Async(isReply));
      HandsOverWhen(TakeOne(s, isReply), isReply);
    } else {
      NoneOfNothing(Async(isReply));
    }
  }

  lemma NoneOfNothing<T>(p: T -> bool)
    ensures Only([], p) == []
  {
  }

  /** Flipping inside a run in whose rest no further frame arrives keeps the order exactly when, at the
      flip, nothing is parked, or no slot is free, or no asynchronous frame waits in the ring. Slots and
      replies are kept either way. */
  lemma FlipInsideRun<T>(s: Rx<T>, arrived: seq<T>, isReply: T -> bool)
    requires SlotsOk(s) && s.asyncDone && RepliesKept(s, arrived, isReply) && InOrder(s, arrived, isReply)
    requires forall i, j :: 0 <= i < j < |arrived| ==> arrived[i] != arrived[j]
    ensures var t := TakeAll(s, isReply);
            && SlotsOk(t) && RepliesKept(t, arrived, isReply)
            && (InOrder(t, arrived, isReply) <==>
                s.rxPending == [] || FreeSlot(s.using) == MAX_SLOTS || Only(s.waiting, Async(isReply)) == [])
  {
    hide Only, TakeAll, Parked;
    HandsOverWhen(s, isReply);
    var t := TakeAll(s, isReply);
    var late := RestOfRun(s, arrived, isReply);
    var p, b := Parked(s), Only(t.waiting, Async(isReply));
    assert Delivery(s, isReply) == s.handled + p + late + b;
    assert Delivery(t, isReply) == s.handled + late + p + b;
    OnlyDistinct(arrived, Async(isReply));
    var all := Only(arrived, Async(isReply));
    forall i, j | 0 <= i < |p| && 0 <= j < |late|
      ensures p[i] != late[j]
    {
      assert all[|s.handled| + i] == p[i] && all[|s.handled| + |p| + j] == late[j];
    }
    SwapIsVisible(s.handled, p, late, b);
  }

  /** From `w` to `t` the handler got `late`, what was parked still is, and `late` came after it. */
  ghost predicate HandedSince<T>(w: World<T>, t: World<T>, late: seq<T>, isReply: T -> bool)
    requires Shape(w.rx) && Shape(t.rx)
  {
    && t.at != Draining && t.rx.asyncDone
    && t.rx.handled == w.rx.handled + late && Parked(t.rx) == Parked(w.rx)
    && Only(t.arrived, Async(isReply)) == w.rx.handled + Parked(w.rx) + late + Only(t.rx.waiting, Async(isReply))
  }

  lemma NothingHanded<T>(w: World<T>, isReply: T -> bool)
    requires WorldOk(w, isReply) && w.at != Draining && w.rx.asyncDone && InOrder(w.rx, w.arrived, isReply)
    ensures HandedSince(w, w, [], isReply)
  {
    hide Only, Parked;
    assert w.rx.handled + Parked(w.rx) + [] == w.rx.handled + Parked(w.rx);
  }

  /** A step that hands out `more` and lets the asynchronous frames `came` arrive. */
  lemma HandedMore<T>(w: World<T>, t: World<T>, late: seq<T>, t': World<T>, more: seq<T>, came: seq<T>,
                      isReply: T -> bool)
    requires Shape(w.rx) && Shape(t.rx) && Shape(t'.rx) && HandedSince(w, t, late, isReply)
    requires t'.at != Draining && t'.rx.asyncDone && Parked(t'.rx) == Parked(t.rx)
    requires t'.rx.handled == t.rx.handled + more
    requires Only(t'.arrived, Async(isReply)) == Only(t.arrived, Async(isReply)) + came
    requires more + Only(t'.rx.waiting, Async(isReply)) == Only(t.rx.waiting, Async(isReply)) + came
    ensures HandedSince(w, t', late + more, isReply)
  {
    hide Only, Parked, Shape;
    var handled, parked := w.rx.handled, Parked(w.rx);
    var queued, rest := Only(t.rx.waiting, Async(isReply)), Only(t'.rx.waiting, Async(isReply));
    assert handled + late + more == handled + (late + more);
    assert handled + parked + late + queued + came == handled + parked + late + (queued + came);
    assert handled + parked + late + (more + rest) == handled + parked + (late + more) + rest;
  }

  lemma ArriveHands<T>(w: World<T>, t: World<T>, late: seq<T>, f: T, isReply: T -> bool)
    requires Shape(w.rx) && Shape(t.rx) && HandedSince(w, t, late, isReply)
    ensures HandedSince(w, Happen(t, Arrive(f), isReply), late, isReply)
  {
    var t', async := Happen(t, Arrive(f), isReply), Async(isReply);
    SameParked(t.rx, t'.rx);
    OnlyAppend(t.rx.waiting, f, async);
    OnlyAppend(t.arrived, f, async);
    hide Only, Parked;
    HandedMore(w, t, late, t', [], if async(f) then [f] else [], isReply);
    assert late + [] == late;
  }

  lemma TakeHands<T>(w: World<T>, t: World<T>, late: seq<T>, isReply: T -> bool) returns (more: seq<T>)
    requires Shape(w.rx) && SlotsOk(t.rx) && HandedSince(w, t, late, isReply) && t.at == Receiving && CanTake(t.rx)
    ensures HandedSince(w, Happen(t, Round, isReply), late + more, isReply)
  {
    hide Only, Parked;
    TakeOneSlots(t.rx, isReply);
    OnlyHead(t.rx.waiting, Async(isReply));
    more := if isReply(t.rx.waiting[0]) then [] else [t.rx.waiting[0]];
    HandedMore(w, t, late, Happen(t, Round, isReply), more, [], isReply);
  }

  lemma HandedOut<T>(w: World<T>, t: World<T>, late: seq<T>, h: Happening<T>, isReply: T -> bool)
    returns (more: seq<T>)
    requires Shape(w.rx) && WorldOk(t, isReply) && HandedSince(w, t, late, isReply) && (h.Arrive? || h.Round?)
    ensures HandedSince(w, Happen(t, h, isReply), late + more, isReply)
  {
    more := [];
    assert late + [] == late;
    if h.Arrive? {
      ArriveHands(w, t, late, h.f, isReply);
    } else if t.at == Receiving && CanTake(t.rx) {
      more := TakeHands(w, t, late, isReply);
    } else {
      assert Happen(t, h, isReply) == t.(at := Between);
      SameParked(t.rx, t.rx);
    }
  }

  /** What any rest of a run hands out after the flip, with frames arriving in between. */
  lemma {:induction false} RestWithArrivals<T>(w: World<T>, hs: seq<Happening<T>>, isReply: T -> bool)
    returns (late: seq<T>)
    requires WorldOk(w, isReply) && w.at != Draining && w.rx.asyncDone && InOrder(w.rx, w.arrived, isReply)
    requires forall k: nat :: k < |hs| ==> hs[k].Arrive? || hs[k].Round?
    ensures WorldOk(HappenAll(w, hs, isReply), isReply)
    ensures HandedSince(w, HappenAll(w, hs, isReply), late, isReply)
  {
    assert Shape(w.rx);
    if hs == [] {
      NothingHanded(w, isReply);
      late := [];
    } else {
      hide WorldOk, InOrder, Happen, HandedSince, Shape;
      var n := |hs| - 1;
      late := RestWithArrivals(w, hs[..n], isReply);
      var t := HappenAll(w, hs[..n], isReply);
      StepKeeps(t, hs[n], isReply);
      var more := HandedOut(w, t, late, hs[n], isReply);
      late := late + more;
    }
  }

  /** A flip inside a run, frames arriving or not: the order is lost exactly when something was parked at
      the flip and the rest of the run hands a frame to the handler. */
  lemma FlipWithArrivals<T>(w: World<T>, hs: seq<Happening<T>>, isReply: T -> bool)
    requires WorldOk(w, isReply) && w.at == Receiving && w.rx.asyncDone && InOrder(w.rx, w.arrived, isReply)
    requires forall k: nat :: k < |hs| ==> hs[k].Arrive? || hs[k].Round?
    requires DistinctFrames(HappenAll(w, hs, isReply).arrived)
    ensures var t := HappenAll(w, hs, isReply);
            && WorldOk(t, isReply)
            && (InOrder(t.rx, t.arrived, isReply) <==> w.rx.rxPending == [] || t.rx.handled == w.rx.handled)
  {
    hide Only, Parked, HappenAll;
    var t := HappenAll(w, hs, isReply);
    var late := RestWithArrivals(w, hs, isReply);
    var p, b := Parked(w.rx), Only(t.rx.waiting, Async(isReply));
    OnlyDistinct(t.arrived, Async(isReply));
    var all := Only(t.arrived, Async(isReply));
    forall i, j | 0 <= i < |p| && 0 <= j < |late|
      ensures p[i] != late[j]
    {
      assert all[|w.rx.handled| + i] == p[i] && all[|w.rx.handled| + |p| + j] == late[j];
    }
    SwapIsVisible(w.rx.handled, p, late, b);
  }

  lemma Push<T>(w: World<T>, hs: seq<Happening<T>>, h: Happening<T>, isReply: T -> bool)
    returns (hs': seq<Happening<T>>, t: World<T>)
    requires Shape(w.rx)
    ensures hs' == hs + [h] && t == HappenAll(w, hs', isReply) == Happen(HappenAll(w, hs, isReply), h, isReply)
  {
    hs' := hs + [h];
    assert hs'[..|hs|] == hs;
    t := HappenAll(w, hs', isReply);
  }

  lemma FirstParked(held: seq<nat>) returns (hs: seq<Happening<nat>>)
    requires |held| == MAX_SLOTS
    ensures var none, isReply := seq(MAX_SLOTS, _ => false), (f: nat) => false;
            var w0: World<nat> := StartUp(Rx([], none, held, [], false, [], []));
            hs == [Arrive(0), Begin, Round, Round, Arrive(1), Begin] && Shape(w0.rx) &&
            HappenAll(w0, hs, isReply) ==
            World(Rx([1], none[0 := true], held[0 := 0], [0], false, [], []), Receiving, [0, 1])
  {
    var none, isReply := seq(MAX_SLOTS, _ => false), (f: nat) => false;
    var w0: World<nat> := StartUp(Rx([], none, held, [], false, [], []));
    hide HappenAll;
    assert HappenAll(w0, [], isReply) == w0 by {
      NothingHappened(w0, isReply);
    }
    assert FreeSlot(none) == 0;
    var w;
    hs, w := Push(w0, [], Arrive(0), isReply);
    hs, w := Push(w0, hs, Begin, isReply);
    hs, w := Push(w0, hs, Round, isReply);
    assert w.rx == Rx([], none[0 := true], held[0 := 0], [0], false, [], []);
    hs, w := Push(w0, hs, Round, isReply);
    hs, w := Push(w0, hs, Arrive(1), isReply);
    hs, w := Push(w0, hs, Begin, isReply);
  }

  lemma NothingHappened<T>(w: World<T>, isReply: T -> bool)
    requires Shape(w.rx)
    ensures HappenAll(w, [], isReply) == w
  {
  }

  /** The smallest case: frame 0 is parked by a first run, frame 1 arrives, and late init comes when a
      second run has begun, which hands out frame 1 first. */
  lemma FlipReorders(held: seq<nat>) returns (hs: seq<Happening<nat>>)
    requires |held| == MAX_SLOTS
    ensures var none, isReply := seq(MAX_SLOTS, _ => false), (f: nat) => false;
            var w0: World<nat> := StartUp(Rx([], none, held, [], false, [], []));
            && hs == [Arrive(0), Begin, Round, Round, Arrive(1), Begin, LateInit, Round] && Fresh(w0.rx)
            && HappenAll(w0, hs, isReply).rx.handled == [1] && HappenAll(w0, hs, isReply).rx.rxPending == [0]
  {
    var none, isReply := seq(MAX_SLOTS, _ => false), (f: nat) => false;
    var w0: World<nat> := StartUp(Rx([], none, held, [], false, [], []));
    hs := FirstParked(held);
    FirstFree(none[0 := true], 1);
    hide HappenAll;
    var w;
    hs, w := Push(w0, hs, LateInit, isReply);
    hs, w := Push(w0, hs, Round, isReply);
  }

  lemma {:induction false} OnlyFrom<T>(fs: seq<T>, p: T -> bool)
    ensures forall k :: 0 <= k < |Only(fs, p)| ==> Only(fs, p)[k] in fs
  {
    if fs == [] {
    } else {
      OnlyFrom(fs[..|fs| - 1], p);
    }
  }

  lemma {:induction false} OnlyDistinct<T>(fs: seq<T>, p: T -> bool)
    requires forall i, j :: 0 <= i < j < |fs| ==> fs[i] != fs[j]
    ensures forall i, j :: 0 <= i < j < |Only(fs, p)| ==> Only(fs, p)[i] != Only(fs, p)[j]
  {
    if fs == [] {
    } else {
      OnlyDistinct(fs[..|fs| - 1], p);
      OnlyFrom(fs[..|fs| - 1], p);
    }
  }
}
