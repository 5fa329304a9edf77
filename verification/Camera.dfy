/** The capture queue of the camera and its DMA, across interrupts
    (drivers/rda/media/rda_camera_8810.c). */
module Camera {
  import opened Words
  import opened PmDdr

  datatype Buffer = Buffer(id: nat, dmaAddr: u32)

  datatype CamState = Idle | OneShot | Success

  /** How a buffer goes back to its owner. */
  datatype Completion = Done(buf: Buffer, sequence: int) | Error(buf: Buffer)

  /** `Starting` is the time inside `start_streaming` after its locked part; `Crashed` is a null pointer
      followed there. */
  datatype Phase = Off | Starting | On | Crashed

  /** `queued` and `completed` are histories; `roseSinceFall` remembers whether a rising vsync was
      served after the last served falling one. `latch` is an address the deferred vsync work has
      picked, without the lock, and not written to the register yet. `since` is the number of
      completions at the last `queue_setup`, from which sequence numbers count. */
  datatype Cam = Cam(list: seq<Buffer>, active: Option<Buffer>, next: Option<Buffer>, state: CamState,
                     sequence: int, ddrRef: nat, dmaOn: bool, startAddr: u32, phase: Phase,
                     queued: seq<Buffer>, completed: seq<Completion>, roseSinceFall: bool, latch: Option<u32>,
                     since: nat)

  datatype Event =
    | Setup                                     // queue_setup
    | Queue(buf: Buffer)                        // buffer_queue
    | Irq(rise: bool, overflow: bool, fall: bool) // rda_camera_isr with these causes
    | WorkRead(tc: u32)                         // handle_vsync looks at the next buffer
    | WorkWrite                                 // and writes its address
    | Start                                     // locked part of start_streaming
    | StartResult(ok: bool)                     // its end
    | Stop                                      // stop_streaming

  const INIT := Cam([], None, None, Idle, 0, 0, false, 0, Off, [], [], false, None, 0)

  function StartDma(c: Cam): Cam
    requires c.active.Some?
  {
    c.(ddrRef := c.ddrRef + 1, dmaOn := true, startAddr := c.active.value.dmaAddr)
  }

  function StopDma(c: Cam): Cam {
    c.(ddrRef := if c.ddrRef > 0 then c.ddrRef - 1 else 0, dmaOn := false)
  }

  function ElementAt(list: seq<Buffer>, i: nat): Option<Buffer> {
    if i < |list| then Some(list[i]) else None
  }

  /** `list_del_init` of the given buffer. */
  function Removed(list: seq<Buffer>, buf: Buffer): seq<Buffer> {
    if list == [] then []
    else if list[0] == buf then list[1..]
    else [list[0]] + Removed(list[1..], buf)
  }

  /** `handle_streaming`: the active buffer is done and the queue moves up. */
  function HandleStreaming(c: Cam): Cam
    requires c.active.Some?
  {
    var buf := c.active.value;
    var list := Removed(c.list, buf);
    c.(list := list, active := ElementAt(list, 0), next := ElementAt(list, 1),
       sequence := c.sequence + 1, completed := c.completed + [Done(buf, c.sequence)])
  }

  function Errors(list: seq<Buffer>): (e: seq<Completion>)
    ensures |e| == |list| && forall i :: 0 <= i < |e| ==> e[i] == Error(list[i])
  {
    if list == [] then [] else [Error(list[0])] + Errors(list[1..])
  }

  /** Common end of `stop_streaming` and of a failed start. */
  function Flush(c: Cam): Cam {
    var c1 := StopDma(c);
    c1.(list := [], active := None, next := None, completed := c1.completed + Errors(c1.list), phase := Off)
  }

  /** The falling edge, where nothing else is pending. */
  function Fall(c: Cam): Cam {
    if c.active.None? then c
    else if c.state == OneShot || c.startAddr == c.active.value.dmaAddr then
      var c1 := HandleStreaming(StopDma(c));
      var c2 := if c1.active.Some? then StartDma(c1) else c1;
      c2.(state := OneShot)
    else if c.state == Success then HandleStreaming(c)
    else c
  }

  /** One step. The queue lock keeps buffers from being set up or queued while a start is under way, and
      interrupts are masked unless a start is under way or done. A stop waits for a pending vsync work,
      but an interrupt can make a new one before the stop takes the lock. */
  function Next(c: Cam, e: Event): Cam {
    if c.phase == Crashed then c
    else match e
    case Setup =>
      if c.phase == Starting then c
      else c.(active := None, next := None, sequence := 0, since := |c.completed|)
    case Queue(buf) =>
      if c.phase == Starting then c
      else
        var c1 := c.(list := c.list + [buf], queued := c.queued + [buf]);
        if c.active.None? then
          var c2 := c1.(active := Some(buf));
          if c.phase == On then StartDma(c2) else c2
        else if c.next.None? then c1.(next := Some(buf))
        else c1
    case Irq(rise, overflow, fall) =>
      if c.phase == Off then c
      else if rise then c.(state := if c.next.Some? then Success else OneShot, roseSinceFall := true)
      else if overflow then c.(state := OneShot)
      else if fall then Fall(c).(roseSinceFall := false)
      else c
    case WorkRead(tc) =>
      if c.latch.None? && tc != 0 && c.next.Some? then c.(latch := Some(c.next.value.dmaAddr)) else c
    case WorkWrite =>
      if c.latch.Some? then c.(startAddr := c.latch.value, latch := None) else c
    case Start =>
      if c.phase != Off then c
      else
        var c1 := c.(state := Idle, phase := Starting, roseSinceFall := false);
        if c.list == [] then c1
        else if c.active.Some? then StartDma(c1)
        else c1.(phase := Crashed)
    case StartResult(ok) =>
      if c.phase != Starting then c else if ok then c.(phase := On) else Flush(c)
    case Stop =>
      if c.phase != On then c else Flush(c)
  }

  // ----- The invariant -----

  /** Active is the head of the queue and next its second element, where they exist. */
  ghost predicate Heads(c: Cam) {
    c.active == ElementAt(c.list, 0) && c.next == ElementAt(c.list, 1)
  }

  /** While streaming the camera holds exactly one DDR reference iff it has a buffer to fill. */
  ghost predicate RefOk(c: Cam) {
    c.ddrRef == (if c.phase != Off && c.active.Some? then 1 else 0) && (c.dmaOn <==> c.ddrRef == 1)
  }

  function Buffers(cs: seq<Completion>): seq<Buffer> {
    if cs == [] then [] else Buffers(cs[..|cs| - 1]) + [cs[|cs| - 1].buf]
  }

  /** Sequence numbers of the buffers that were completed as done, in order. */
  function Numbers(cs: seq<Completion>): seq<int> {
    if cs == [] then []
    else Numbers(cs[..|cs| - 1]) + if cs[|cs| - 1].Done? then [cs[|cs| - 1].sequence] else []
  }

  /** Every queued buffer is completed or still queued, exactly once and in order, and the ones done
      since the last setup are numbered without gaps. */
  ghost predicate HistoryOk(c: Cam) {
    && Buffers(c.completed) + c.list == c.queued && c.since <= |c.completed|
    && var numbers := Numbers(c.completed[c.since..]);
       numbers == seq(|numbers|, i => i) && c.sequence == |numbers|
  }

  ghost predicate Good(c: Cam) {
    c.phase != Crashed && Heads(c) && RefOk(c) && HistoryOk(c)
  }

  ghost predicate Inv(c: Cam) {
    Good(c) && (c.phase != Off && c.state == Success && c.roseSinceFall ==> c.next.Some?)
  }

  /** The one way a falling edge can go wrong: a second one without a rising one in between finds the
      state still at success, nothing next, and the address register off the active buffer. */
  predicate StaleSuccess(c: Cam) {
    c.active.Some? && c.state == Success && c.next.None? && c.startAddr != c.active.value.dmaAddr
  }

  lemma {:induction false} BuffersAppend(a: seq<Completion>, b: seq<Completion>)
    ensures Buffers(a + b) == Buffers(a) + Buffers(b)
    ensures Numbers(a + b) == Numbers(a) + Numbers(b)
  {
    if b == [] {
      assert a + b == a;
    } else {
      var n := |b| - 1;
      assert (a + b)[..|a| + n] == a + b[..n];
      BuffersAppend(a, b[..n]);
    }
  }

  lemma {:induction false} ErrorsAre(list: seq<Buffer>)
    ensures Buffers(Errors(list)) == list && Numbers(Errors(list)) == []
  {
    if list == [] {
    } else {
      var rest := Errors(list[1..]);
      BuffersAppend([Error(list[0])], rest);
      ErrorsAre(list[1..]);
      assert [Error(list[0])][..0] == [];
      assert Buffers([Error(list[0])]) == [list[0]] && Numbers([Error(list[0])]) == [];
    }
  }

  lemma HandleKeepsHistory(c: Cam)
    requires Heads(c) && HistoryOk(c) && c.active.Some?
    ensures Heads(HandleStreaming(c)) && HistoryOk(HandleStreaming(c))
    ensures HandleStreaming(c).list == c.list[1..]
  {
    var d, item := HandleStreaming(c), Done(c.active.value, c.sequence);
    BuffersAppend(c.completed, [item]);
    BuffersAppend(c.completed[c.since..], [item]);
    assert d.completed[c.since..] == c.completed[c.since..] + [item];
    assert [item][..0] == [];
    assert Buffers([item]) == [c.list[0]] && Numbers([item]) == [c.sequence];
    assert c.list == [c.list[0]] + c.list[1..];
  }

  lemma FlushKeepsHistory(c: Cam)
    requires Heads(c) && RefOk(c) && HistoryOk(c) && c.phase != Off
    ensures Heads(Flush(c)) && RefOk(Flush(c)) && HistoryOk(Flush(c))
  {
    hide Buffers, Numbers, Errors;
    BuffersAppend(c.completed, Errors(c.list));
    BuffersAppend(c.completed[c.since..], Errors(c.list));
    assert Flush(c).completed[c.since..] == c.completed[c.since..] + Errors(c.list);
    ErrorsAre(c.list);
  }

  /** A falling edge keeps the whole invariant unless it comes on a stale success, and then the DMA
      runs on and its reference is kept without any buffer. */
  lemma FallIsExact(c: Cam)
    requires Heads(c) && RefOk(c) && HistoryOk(c) && c.phase != Off
    ensures Heads(Fall(c)) && HistoryOk(Fall(c))
    ensures RefOk(Fall(c)) <==> !StaleSuccess(c)
    ensures StaleSuccess(c) ==> Fall(c).active.None? && Fall(c).ddrRef == 1 && Fall(c).dmaOn
  {
    if c.active.Some? {
      HandleKeepsHistory(c);
      HandleKeepsHistory(StopDma(c));
    }
  }

  predicate ServesFall(c: Cam, e: Event) {
    c.phase != Off && c.phase != Crashed && e.Irq? && !e.rise && !e.overflow && e.fall
  }

  /** The signal alternates: a falling edge is not served twice after one rising edge. */
  predicate Alternates(c: Cam, e: Event) {
    ServesFall(c, e) && c.state == Success ==> c.roseSinceFall
  }

  /** A setup forgets the buffers in the list. */
  predicate Forgets(c: Cam, e: Event) {
    e.Setup? && c.phase != Starting && c.list != []
  }

  /** The two steps that go wrong. */
  predicate Spoils(c: Cam, e: Event) {
    (ServesFall(c, e) && StaleSuccess(c)) || Forgets(c, e)
  }

  lemma SetupIsExact(c: Cam)
    requires Good(c) && c.phase != Starting
    ensures Good(Next(c, Setup)) <==> c.list == []
  {
    var d := Next(c, Setup);
    assert d.completed[d.since..] == [];
  }

  lemma QueueKeepsGood(c: Cam, buf: Buffer)
    requires Good(c)
    ensures Good(Next(c, Queue(buf)))
  {
    hide Buffers, Numbers;
    assert Buffers(c.completed) + (c.list + [buf]) == Buffers(c.completed) + c.list + [buf];
  }

  /** Each step keeps the queue, the reference and the history right exactly unless it is a falling edge
      on a stale success or a setup over a list. */
  lemma StepIsExact(c: Cam, e: Event)
    requires Good(c)
    ensures Good(Next(c, e)) <==> !Spoils(c, e)
  {
    hide Buffers, Numbers;
    match e
    case Setup =>
      if c.phase != Starting {
        SetupIsExact(c);
      }
    case Queue(buf) => QueueKeepsGood(c, buf);
    case Irq(rise, overflow, fall) =>
      if ServesFall(c, e) {
        FallIsExact(c);
        FallIsQuiet(c);
      }
    case WorkRead(tc) =>
    case WorkWrite =>
    case Start =>
    case StartResult(ok) =>
      if c.phase == Starting && !ok {
        FlushKeepsHistory(c);
      }
    case Stop =>
      if c.phase == On {
        FlushKeepsHistory(c);
      }
  }

  lemma FallIsQuiet(c: Cam)
    ensures Fall(c).phase == c.phase && Fall(c).latch == c.latch
    ensures Fall(c).state == Success ==> c.state == Success
  {
  }

  lemma StepKeepsInv(c: Cam, e: Event)
    requires Inv(c) && Alternates(c, e) && !Forgets(c, e)
    ensures Inv(Next(c, e))
  {
    StepIsExact(c, e);
    hide HistoryOk, RefOk;
  }

  // ----- What each event does to the controls -----

  /** The state of the capture, from which a falling edge judges: a rising edge finds success with a next
      buffer and one-shot without; an overflow, and a falling edge that stops the DMA, leave one-shot; a
      start leaves idle. */
  lemma StateIs(c: Cam, e: Event)
    requires c.phase != Crashed
    ensures var served := c.phase != Off;
            Next(c, e).state ==
            if e.Irq? && served && e.rise then (if c.next.Some? then Success else OneShot)
            else if e.Irq? && served && e.overflow then OneShot
            else if e.Irq? && served && e.fall && c.active.Some? &&
                    (c.state == OneShot || c.startAddr == c.active.value.dmaAddr) then OneShot
            else if e.Start? && !served then Idle
            else c.state
  {
  }

  /** The phase: a start follows a null pointer exactly when the list has buffers and none is active. */
  lemma PhaseIs(c: Cam, e: Event)
    ensures Next(c, e).phase ==
            match c.phase
            case Off => if e.Start? then (if c.list != [] && c.active.None? then Crashed else Starting) else Off
            case Starting => if e.StartResult? then (if e.ok then On else Off) else Starting
            case On => if e.Stop? then Off else On
            case Crashed => Crashed
  {
  }

  /** The vsync work: it picks the next buffer's address when the controller counts and there is one, and
      what it picked it writes, once. */
  lemma WorkIs(c: Cam, e: Event)
    requires c.phase != Crashed
    ensures Next(c, e).latch ==
            if e.WorkWrite? then None
            else if e.WorkRead? && c.latch.None? && e.tc > 0 && c.next.Some? then Some(c.next.value.dmaAddr)
            else c.latch
    ensures e.WorkWrite? ==> Next(c, e).startAddr == (if c.latch.Some? then c.latch.value else c.startAddr)
  {
  }

  /** Whether a rising edge was served after the last served falling one and the last start. */
  lemma RoseIs(c: Cam, e: Event)
    requires c.phase != Crashed
    ensures var served := e.Irq? && c.phase != Off;
            Next(c, e).roseSinceFall ==
            if served && e.rise then true
            else if (served && !e.overflow && e.fall) || (e.Start? && c.phase == Off) then false
            else c.roseSinceFall
  {
  }

  /** A setup outside a start forgets active and next and numbers from zero; a stop of the DMA gives at
      most what was taken. */
  lemma SetupAndStopAre(c: Cam)
    requires c.phase == Off || c.phase == On
    ensures Next(c, Setup) == c.(active := None, next := None, sequence := 0, since := |c.completed|)
    ensures StopDma(c).ddrRef == 0 || StopDma(c).ddrRef + 1 == c.ddrRef
    ensures c.ddrRef <= 1 ==> StopDma(c).ddrRef == 0
  {
  }

  function Run(es: seq<Event>): Cam {
    if es == [] then INIT else Next(Run(es[..|es| - 1]), es[|es| - 1])
  }

  lemma RunStep(es: seq<Event>, n: nat)
    requires n < |es|
    ensures Run(es[..n + 1]) == Next(Run(es[..n]), es[n])
  {
    assert es[..n + 1][..n] == es[..n];
  }

  lemma {:induction false} GoodThroughout(es: seq<Event>, n: nat)
    requires n <= |es| && forall i: nat :: i < n ==> !Spoils(Run(es[..i]), es[i])
    ensures Good(Run(es[..n]))
  {
    hide Spoils, Run, Next;
    if n == 0 {
      RunOfNothing();
    } else {
      GoodThroughout(es, n - 1);
      RunStep(es, n - 1);
      StepIsExact(Run(es[..n - 1]), es[n - 1]);
    }
  }

  /** Over every run: at every point active and next are the first two buffers of the list, the DDR is
      held exactly while streaming with a buffer, and each buffer is completed once and in order, exactly
      when no falling edge was served on a stale success and no setup came over a list. */
  lemma RunIsExact(es: seq<Event>)
    ensures (forall n: nat :: n <= |es| ==> Good(Run(es[..n])))
            <==> (forall n: nat :: n < |es| ==> !Spoils(Run(es[..n]), es[n]))
  {
    hide Good, Spoils, Run, Next;
    if forall n: nat :: n < |es| ==> !Spoils(Run(es[..n]), es[n]) {
      forall n: nat | n <= |es|
        ensures Good(Run(es[..n]))
      {
        GoodThroughout(es, n);
      }
    } else {
      var n: nat :| n < |es| && Spoils(Run(es[..n]), es[n]);
      RunStep(es, n);
      if Good(Run(es[..n])) {
        StepIsExact(Run(es[..n]), es[n]);
        assert !Good(Run(es[..n + 1]));
      }
    }
  }

  ghost predicate AlternatesThroughout(es: seq<Event>) {
    forall i {:trigger es[i]} :: 0 <= i < |es| ==> Alternates(Run(es[..i]), es[i]) && !Forgets(Run(es[..i]), es[i])
  }

  /** Over every run of setups, queueing, interrupts, starts and stops on an alternating signal, with no
      setup over a list: active and next are the first two queued buffers, each buffer is completed
      exactly once and in queue order, the done ones with consecutive numbers since the last setup, and
      the DDR is held exactly while streaming with a buffer. */
  lemma {:induction false} RunKeepsInv(es: seq<Event>)
    requires AlternatesThroughout(es)
    ensures Inv(Run(es))
  {
    if es == [] {
    } else {
      var n := |es| - 1;
      forall i | 0 <= i < n
        ensures Alternates(Run(es[..n][..i]), es[..n][i]) && !Forgets(Run(es[..n][..i]), es[..n][i])
      {
        assert es[..n][..i] == es[..i];
        assert es[..n][i] == es[i];
      }
      RunKeepsInv(es[..n]);
      assert Alternates(Run(es[..n]), es[n]);
      StepKeepsInv(Run(es[..n]), es[n]);
    }
  }

  lemma FlushCompletesAll(c: Cam)
    requires Heads(c) && RefOk(c) && HistoryOk(c) && c.phase != Off
    ensures var d := Flush(c);
            && Buffers(d.completed) == d.queued == c.queued && d.completed == c.completed + Errors(c.list)
            && Numbers(d.completed) == Numbers(c.completed) && d.ddrRef == 0 && !d.dmaOn
  {
    hide Buffers, Numbers, Errors;
    BuffersAppend(c.completed, Errors(c.list));
    ErrorsAre(c.list);
  }

  /** Stopping, or a start that fails, completes everything ever queued, what was still waiting as an
      error, and lets the DDR go. */
  lemma StopCompletesAll(c: Cam, e: Event)
    requires Good(c)
    requires (e.Stop? && c.phase == On) || (e == StartResult(false) && c.phase == Starting)
    ensures var d := Next(c, e);
            && Buffers(d.completed) == d.queued == c.queued && d.completed == c.completed + Errors(c.list)
            && Numbers(d.completed) == Numbers(c.completed) && d.ddrRef == 0 && !d.dmaOn
  {
    hide Buffers, Numbers, Errors, Flush;
    FlushCompletesAll(c);
  }

  // ----- The address register -----

  /** The register holds the address of the active or of the next buffer. */
  ghost predicate AddrOk(c: Cam) {
    c.phase != Off && c.active.Some? ==>
      || c.startAddr == c.active.value.dmaAddr
      || (c.next.Some? && c.startAddr == c.next.value.dmaAddr)
  }

  /** The vsync work runs without another event in between. */
  predicate Undisturbed(c: Cam, e: Event) {
    c.latch.Some? ==> e.WorkWrite?
  }

  ghost predicate AddrInv(c: Cam) {
    && Good(c) && AddrOk(c)
    && (c.latch.Some? ==> c.next.Some? && c.latch.value == c.next.value.dmaAddr)
  }

  lemma FallKeepsAddr(c: Cam)
    requires Heads(c) && RefOk(c) && HistoryOk(c) && AddrOk(c) && c.phase != Off
    ensures !StaleSuccess(c) && AddrOk(Fall(c))
  {
    if c.active.Some? {
      HandleKeepsHistory(c);
      HandleKeepsHistory(StopDma(c));
    }
  }

  lemma StepKeepsAddrInv(c: Cam, e: Event)
    requires AddrInv(c) && Undisturbed(c, e) && !Forgets(c, e)
    ensures AddrInv(Next(c, e))
  {
    hide Fall, Buffers, Numbers, HistoryOk;
    if ServesFall(c, e) {
      FallKeepsAddr(c);
      FallIsQuiet(c);
    }
    StepIsExact(c, e);
  }

  ghost predicate UndisturbedThroughout(es: seq<Event>) {
    forall i {:trigger es[i]} :: 0 <= i < |es| ==> Undisturbed(Run(es[..i]), es[i]) && !Forgets(Run(es[..i]), es[i])
  }

  /** If the vsync work is never interrupted, the same holds on any signal, alternating or not. */
  lemma {:induction false} RunKeepsAddrInv(es: seq<Event>)
    requires UndisturbedThroughout(es)
    ensures AddrInv(Run(es))
  {
    if es == [] {
    } else {
      var n := |es| - 1;
      forall i | 0 <= i < n
        ensures Undisturbed(Run(es[..n][..i]), es[..n][i]) && !Forgets(Run(es[..n][..i]), es[..n][i])
      {
        assert es[..n][..i] == es[..i];
        assert es[..n][i] == es[i];
      }
      RunKeepsAddrInv(es[..n]);
      assert Undisturbed(Run(es[..n]), es[n]);
      StepKeepsAddrInv(Run(es[..n]), es[n]);
    }
  }

  lemma RunOfNothing()
    ensures Run([]) == INIT
  {
  }

  lemma Push(es: seq<Event>, c: Cam, e: Event) returns (es': seq<Event>, c': Cam)
    requires c == Run(es)
    ensures es' == es + [e] && c' == Next(c, e) == Run(es')
  {
    es', c' := es + [e], Next(c, e);
    assert es'[..|es|] == es;
  }

  const B0 := Buffer(0, 10)
  const B1 := Buffer(1, 20)
  const B2 := Buffer(2, 30)
  const B3 := Buffer(3, 40)

  lemma FourQueued() returns (es: seq<Event>)
    ensures Run(es) == Cam([B0, B1, B2, B3], Some(B0), Some(B1), Idle, 0, 1, true, 10, On,
                           [B0, B1, B2, B3], [], false, None, 0)
  {
    hide Run;
    RunOfNothing();
    var c := INIT;
    es := [];
    es, c := Push(es, c, Queue(B0));
    es, c := Push(es, c, Queue(B1));
    es, c := Push(es, c, Queue(B2));
    es, c := Push(es, c, Queue(B3));
    assert c.list == [B0, B1, B2, B3] && c.queued == [B0, B1, B2, B3];
    es, c := Push(es, c, Start);
    es, c := Push(es, c, StartResult(true));
  }

  /** A work item is overtaken by two falling edges: the buffer after the one the DMA register names
      becomes active. */
  lemma WorkOvertaken() returns (es: seq<Event>)
    ensures var c := Run(es);
            && c.list == [B2, B3] && c.active == Some(B2) && c.next == Some(B3) && c.state == Success
            && c.ddrRef == 1 && c.dmaOn && c.startAddr == 20 && c.phase == On
  {
    hide Run;
    var rise, fall := Irq(true, false, false), Irq(false, false, true);
    es := FourQueued();
    var c := Run(es);
    es, c := Push(es, c, rise);
    es, c := Push(es, c, WorkRead(1));
    es, c := Push(es, c, fall);
    assert c.list == [B1, B2, B3] && c.latch == Some(20);
    es, c := Push(es, c, rise);
    es, c := Push(es, c, fall);
    assert c.list == [B2, B3] && c.startAddr == 30;
    es, c := Push(es, c, rise);
    es, c := Push(es, c, WorkWrite);
  }

  /** One of the two is needed: after such a work item, a falling edge served twice for one rising
      edge leaves the DMA running without a buffer. */
  lemma WithoutEitherItFails() returns (es: seq<Event>)
    ensures var c := Run(es);
            c.phase == On && c.active.None? && c.ddrRef == 1 && c.dmaOn
  {
    hide Run;
    es := WorkOvertaken();
    var c := Run(es);
    var fall := Irq(false, false, true);
    es, c := Push(es, c, fall);
    assert c.list == [B3] && c.next == None && c.state == Success;
    es, c := Push(es, c, fall);
  }

  /** A setup while a buffer is being filled: the next buffer queued takes a second DDR reference, and
      the stop gives only one back. */
  lemma SetupLeaks() returns (es: seq<Event>)
    ensures Run(es).phase == Off && Run(es).list == [] && Run(es).ddrRef == 1
  {
    hide Run;
    RunOfNothing();
    var c := INIT;
    es := [];
    es, c := Push(es, c, Queue(B0));
    es, c := Push(es, c, Start);
    es, c := Push(es, c, StartResult(true));
    es, c := Push(es, c, Setup);
    es, c := Push(es, c, Queue(B1));
    assert c.ddrRef == 2;
    es, c := Push(es, c, Stop);
  }

  // ----- The driver object -----

  /** The device; its reference count lives in the DDR manager it shares with other masters. */
  class Device {
    const ddr: DdrManager
    var list: seq<Buffer>
    var active: Option<Buffer>
    var next: Option<Buffer>
    var state: CamState
    var sequence: int
    var dmaOn: bool
    var startAddr: u32
    var phase: Phase // what the buffer layer and the interrupt mask know
    ghost var queued: seq<Buffer>
    ghost var completed: seq<Completion>
    ghost var roseSinceFall: bool
    ghost var since: nat

    ghost predicate Valid()
      reads this, ddr
    {
      DdrOk(ddr.View()) && phase != Crashed
    }

    ghost function View(): Cam
      requires Valid()
      reads this, ddr
    {
      Cam(list, active, next, state, sequence, ddr.refs[CAMERA], dmaOn, startAddr, phase,
          queued, completed, roseSinceFall, None, since)
    }

    /** Nothing but the camera's own reference moves in the DDR manager. */
    twostate predicate OthersKept()
      reads this, ddr
    {
      |ddr.refs| == |old(ddr.refs)| == MASTERS &&
      forall m :: 0 <= m < MASTERS && m != CAMERA ==> ddr.refs[m] == old(ddr.refs[m])
    }

    constructor (ddr: DdrManager)
      requires DdrOk(ddr.View()) && ddr.refs[CAMERA] == 0
      ensures Valid() && View() == INIT && this.ddr == ddr
    {
      this.ddr := ddr;
      list, active, next, state, sequence := [], None, None, Idle, 0;
      dmaOn, startAddr, phase := false, 0, Off;
      queued, completed, roseSinceFall, since := [], [], false, 0;
    }

    method StartDmaNow()
      requires Valid() && active.Some?
      modifies this`dmaOn, this`startAddr, ddr
      ensures Valid() && OthersKept() && View() == StartDma(old(View()))
    {
      var dmaAddr := active.value.dmaAddr;
      var r := ddr.Get(CAMERA);
      startAddr := dmaAddr;
      dmaOn := true;
    }

    method StopDmaNow()
      requires Valid()
      modifies this`dmaOn, ddr
      ensures Valid() && OthersKept() && View() == StopDma(old(View()))
    {
      dmaOn := false;
      var r := ddr.Put(CAMERA);
    }

    method QueueSetup()
      requires Valid() && phase != Starting
      modifies this`active, this`next, this`sequence, this`since
      ensures Valid() && View() == Next(old(View()), Setup)
    {
      sequence := 0;
      active := None;
      next := None;
      since := |completed|;
    }

    method BufferQueue(buf: Buffer)
      requires Valid() && phase != Starting
      modifies this`list, this`active, this`next, this`queued, this`dmaOn, this`startAddr, ddr
      ensures Valid() && OthersKept() && View() == Next(old(View()), Queue(buf))
    {
      list := list + [buf];
      queued := queued + [buf];
      if active.None? {
        active := Some(buf);
        if phase == On {
          StartDmaNow();
        }
      } else if next.None? {
        next := Some(buf);
      }
    }

    method Complete()
      requires Valid() && active.Some?
      modifies this`list, this`active, this`next, this`sequence, this`completed
      ensures Valid() && View() == HandleStreaming(old(View()))
    {
      var buf := active.value;
      list := Removed(list, buf);
      if list == [] {
        active, next := None, None;
      } else {
        active := Some(list[0]);
        next := if |list| == 1 then None else Some(list[1]);
      }
      completed := completed + [Done(buf, sequence)];
      sequence := sequence + 1;
    }

    /** `rda_camera_isr` for the given causes. */
    method Isr(rise: bool, overflow: bool, fall: bool)
      requires Valid() && phase != Off
      modifies this`list, this`active, this`next, this`state, this`sequence, this`completed
      modifies this`dmaOn, this`startAddr, this`roseSinceFall, ddr
      ensures Valid() && OthersKept() && View() == Next(old(View()), Irq(rise, overflow, fall))
    {
      hide HandleStreaming, Flush;
      var addr, was := startAddr, state;
      if rise {
        state := if next.Some? then Success else OneShot;
        roseSinceFall := true;
      } else if overflow {
        state := OneShot;
      } else if fall {
        if active.Some? {
          if was == OneShot || addr == active.value.dmaAddr {
            StopDmaNow();
            Complete();
            if active.Some? {
              StartDmaNow();
            }
            state := OneShot;
          } else if was == Success {
            Complete();
          }
        }
        roseSinceFall := false;
      }
    }

    /** `handle_vsync`; with a zero transfer count it only reschedules itself. */
    method HandleVsync(tc: u32)
      requires Valid()
      modifies this`startAddr
      ensures Valid() && View() == Next(Next(old(View()), WorkRead(tc)), WorkWrite)
    {
      if tc != 0 && next.Some? {
        startAddr := next.value.dmaAddr;
      }
    }

    /** The locked part of `start_streaming`; `count` is the number of buffers the driver owns. */
    method StartStreaming(count: nat)
      requires Valid() && phase == Off && count == |list| && (count != 0 ==> active.Some?)
      modifies this`state, this`phase, this`roseSinceFall, this`dmaOn, this`startAddr, ddr
      ensures Valid() && OthersKept() && View() == Next(old(View()), Start)
    {
      state, phase, roseSinceFall := Idle, Starting, false;
      if count != 0 {
        StartDmaNow();
      }
    }

    /** Hands every queued buffer back with an error. */
    method FailQueued()
      modifies this`list, this`completed
      ensures list == [] && completed == old(completed) + Errors(old(list))
    {
      ghost var whole := completed + Errors(list);
      while list != []
        invariant completed + Errors(list) == whole
        decreases |list|
      {
        ghost var rest := Errors(list[1..]);
        assert Errors(list) == [Error(list[0])] + rest;
        assert completed + ([Error(list[0])] + rest) == completed + [Error(list[0])] + rest;
        completed := completed + [Error(list[0])];
        list := list[1..];
      }
    }

    /** The release of every queued buffer, shared by a failed start and a stop. */
    method ReleaseAll()
      requires Valid()
      modifies this`list, this`active, this`next, this`completed, this`phase, this`dmaOn, ddr
      ensures Valid() && OthersKept() && View() == Flush(old(View()))
    {
      StopDmaNow();
      active, next := None, None;
      FailQueued();
      phase := Off;
    }

    /** The end of `start_streaming`: the sensor started and a vsync came in time, or not. */
    method FinishStart(ok: bool)
      requires Valid() && phase == Starting
      modifies this`list, this`active, this`next, this`completed, this`phase, this`dmaOn, ddr
      ensures Valid() && OthersKept() && View() == Next(old(View()), StartResult(ok))
    {
      if ok {
        phase := On;
      } else {
        ReleaseAll();
      }
    }

    method StopStreaming()
      requires Valid() && phase == On
      modifies this`list, this`active, this`next, this`completed, this`phase, this`dmaOn, ddr
      ensures Valid() && OthersKept() && View() == Next(old(View()), Stop)
    {
      ReleaseAll();
    }
  }
}
