/** Data transfers of the SD/MMC hosts and the DMA channel each of them takes and gives back
    (drivers/rda/rda_mmc.c). */
module Mmc {
  import opened Words
  import opened PmDdr
  import opened Ifc

  /** Where the request thread of a host stands. */
  datatype Pc =
    | Rest
    | Prepared   // about to start the DMA of a piece
    | Commanding // DMA started, command not answered yet
    | Waiting    // waiting for the data
    | Expired    // the wait timed out, channel not stopped yet
    | Checking(expired: bool) // about to look at card and error
    | Leaving    // piece finished, one way or another
    | Halted     // BUG

  /** How a piece ends: all moved, an error noted on the data, the wait timed out, or never started. */
  datatype Outcome = Moved | Failed | TimedOut | Refused

  datatype Piece = Piece(outcome: Outcome, blocks: nat)

  /** `channel` and `request` belong to the transfer record, `dataSet` says whether the host has a
      data pointer, `dataErr` is the flag of the interrupt handler, `error` that of the data,
      `woken` the completion, `blocks` the size of the piece and `moved` the blocks accounted for.
      `pieces` are the ended pieces of the request; `taken`, `released` and `lost` count channels. */
  datatype Host = Host(pc: Pc, channel: nat, request: nat, dataSet: bool, read: bool, present: bool,
                       dataErr: bool, error: bool, woken: bool, blocks: nat, moved: nat,
                       pieces: seq<Piece>, taken: nat, released: nat, lost: nat)

  datatype Sys = Sys(bus: Bus, hosts: seq<Host>)

  datatype Event =
    | Begin(read: bool, aligned: bool, blocks: nat) // do_data_transfer, first piece
    | Grant(channel: nat)                      // hal_data_transfer_start
    | Answer(ok: bool)                         // do_command
    | ErrorIrq                                 // rda_mmc_irq with an error cause
    | Tasklet(tcZero: bool, crcBad: bool)      // tasklet_worker
    | Card(present: bool)                      // rda_mmc_det_irq
    | Poll(present: bool)                      // rda_mmc_get_cd
    | WakeUp | Expire | StopExpired            // the wait and its timeout branch
    | Check                                    // the common end of a piece
    | Again(aligned: bool, blocks: nat)        // next piece
    | Finish                                   // end of the request

  predicate Known(h: Host) {
    h.channel < CHANNELS
  }

  predicate BusShape(b: Bus) {
    |b.owner| == CHANNELS && |b.ddr.refs| == MASTERS
  }

  /** `hal_data_transfer_stop`. */
  function HalStop(b: Bus, h: Host): (r: (Bus, Host))
    requires BusShape(b)
    ensures BusShape(r.0)
  {
    if !Known(h) then (b, h)
    else if h.dataSet then (Freed(b, h.channel), h.(channel := UNKNOWN_CHANNEL, released := h.released + 1))
    else (b, h.(channel := UNKNOWN_CHANNEL, lost := h.lost + 1))
  }

  /** `do_data_abort`. */
  function Abort(b: Bus, h: Host): (r: (Bus, Host))
    requires BusShape(b)
    ensures BusShape(r.0)
  {
    var (b1, h1) := HalStop(b, h);
    (b1, if h1.dataSet then h1.(error := true) else h1)
  }

  /** `do_data_complete`. */
  function Complete(b: Bus, h: Host, tcZero: bool, crcBad: bool): (r: (Bus, Host))
    requires BusShape(b)
    ensures BusShape(r.0)
  {
    if !h.dataSet || !Known(h) then (b, h)
    else
      var (b1, h1) := HalStop(b, h);
      (b1, if !tcZero || (!h.read && crcBad) then h1.(error := true) else h1)
  }

  /** `tasklet_worker`. */
  function TaskletWorker(b: Bus, h: Host, tcZero: bool, crcBad: bool): (r: (Bus, Host))
    requires BusShape(b)
    ensures BusShape(r.0)
  {
    var (b1, h1) := if h.dataErr then Abort(b, h) else Complete(b, h, tcZero, crcBad);
    (b1, h1.(dataErr := false, woken := true))
  }

  function Stops(o: Outcome): bool {
    o.TimedOut? || o.Refused?
  }

  /** The host leaves the piece with this outcome. */
  function Left(h: Host, o: Outcome): Host {
    h.(pc := Leaving, pieces := h.pieces + [Piece(o, h.blocks)])
  }

  function Started(h: Host, aligned: bool, blocks: nat): Host {
    var h1 := h.(pc := Prepared, blocks := blocks);
    if aligned then h1 else Left(h1, Refused)
  }

  const HAL_IFC_SDMMC_TX := 10
  const HAL_IFC_SDMMC_RX := 11

  /** The request identifier of host `id`, one for each direction. */
  function RequestOf(id: nat, read: bool): nat {
    (if read then HAL_IFC_SDMMC_RX else HAL_IFC_SDMMC_TX) + id * 2
  }

  /** `hal_data_transfer_start`. The allocator only hands out free channels. */
  function Granted(b: Bus, h: Host, id: nat, channel: nat): (r: (Bus, Host))
    requires BusShape(b)
    ensures BusShape(r.0)
  {
    if h.pc != Prepared || (channel < CHANNELS && b.owner[channel].Some?) then (b, h)
    else
      var h1 := h.(request := RequestOf(id, h.read), lost := if Known(h) then h.lost + 1 else h.lost);
      if channel < CHANNELS then
        (Took(b, h1.request, channel), h1.(pc := Commanding, channel := channel, woken := false, taken := h.taken + 1))
      else (b, Left(h1.(channel := UNKNOWN_CHANNEL), Refused))
  }

  lemma GrantedIs(b: Bus, h: Host, id: nat, channel: nat)
    requires BusShape(b) && h.pc == Prepared && !Known(h) && (channel < CHANNELS ==> b.owner[channel].None?)
    ensures var h1 := h.(request := RequestOf(id, h.read));
            Granted(b, h, id, channel) ==
            if channel < CHANNELS then
              (Took(b, h1.request, channel),
               h1.(pc := Commanding, channel := channel, woken := false, taken := h.taken + 1))
            else (b, Left(h1.(channel := UNKNOWN_CHANNEL), Refused))
    ensures channel < CHANNELS ==> Took(b, RequestOf(id, h.read), channel).owner[channel] == Some(RequestOf(id, h.read))
  {
    hide Left, Got;
  }

  /** The command was answered, or not. */
  function Answered(b: Bus, h: Host, ok: bool): (r: (Bus, Host))
    requires BusShape(b)
    ensures BusShape(r.0)
  {
    if h.pc != Commanding then (b, h)
    else if ok then (b, h.(pc := Waiting))
    else
      var (b1, h1) := HalStop(b, h);
      (b1, Left(h1, Refused))
  }

  /** The timeout branch of the wait. */
  function StoppedLate(b: Bus, h: Host): (r: (Bus, Host))
    requires BusShape(b)
    ensures BusShape(r.0)
  {
    if h.pc != Expired then (b, h)
    else if !Known(h) then (b, h.(pc := Halted))
    else
      var (b1, h1) := HalStop(b, h);
      (b1, h1.(pc := Checking(true), error := true))
  }

  /** The end of a piece. */
  function Checked(b: Bus, h: Host): (r: (Bus, Host))
    requires BusShape(b)
    ensures BusShape(r.0)
  {
    if !h.pc.Checking? then (b, h)
    else
      var h1 := if !h.present then h.(error := true) else h;
      if h1.error then
        var (b2, h2) := HalStop(b, h1);
        (b2, Left(h2.(moved := 0), if h.pc.expired then TimedOut else Failed))
      else (b, Left(h1.(moved := h1.moved + h1.blocks), Moved))
  }

  /** The steps that touch neither the bus nor what the host knows of it. */
  function LocalStep(h: Host, e: Event): Host {
    match e
    case Begin(read, aligned, blocks) =>
      if h.pc != Rest then h
      else Started(h.(dataSet := true, read := read, error := false, moved := 0, pieces := []), aligned, blocks)
    case ErrorIrq => if h.present then h.(dataErr := true) else h
    case Card(present) =>
      if present == h.present then h
      else h.(present := present, woken := h.woken || (!present && h.dataSet))
    case Poll(present) => h.(present := present)
    case WakeUp => if h.pc == Waiting && h.woken then h.(pc := Checking(false)) else h
    case Expire => if h.pc == Waiting && !h.woken then h.(pc := Expired) else h
    case Again(aligned, blocks) =>
      if h.pc == Leaving && h.pieces != [] && !Stops(h.pieces[|h.pieces| - 1].outcome) then Started(h, aligned, blocks)
      else h
    case Finish => if h.pc == Leaving then h.(pc := Rest, dataSet := false) else h
    case _ => h
  }

  /** One step of host `id`; a step that is not due changes nothing. */
  function HostStep(b: Bus, h: Host, id: nat, e: Event): (r: (Bus, Host))
    requires BusShape(b)
    ensures BusShape(r.0)
  {
    match e
    case Grant(channel) => Granted(b, h, id, channel)
    case Answer(ok) => Answered(b, h, ok)
    case Tasklet(tcZero, crcBad) => TaskletWorker(b, h, tcZero, crcBad)
    case StopExpired => StoppedLate(b, h)
    case Check => Checked(b, h)
    case _ => (b, LocalStep(h, e))
  }

  // ----- What each step does to the flags of a host -----

  /** What notes an error on the data: an abort; the end of a DMA that has bytes left or, for a write, a bad
      CRC; a wait that ran out with the channel still known; and the end of a piece without a card. */
  predicate Notes(h: Host, e: Event) {
    match e
    case Tasklet(tcZero, crcBad) =>
      h.dataSet && (h.dataErr || (h.channel < 8 && (!tcZero || (crcBad && !h.read))))
    case StopExpired => h.pc.Expired? && h.channel < 8
    case Check => h.pc.Checking? && !h.present
    case _ => false
  }

  lemma HalStopFlags(b: Bus, h: Host)
    requires BusShape(b)
    ensures var h1 := HalStop(b, h).1;
            h1 == h.(channel := h1.channel, released := h1.released, lost := h1.lost)
  {
  }

  /** The completion a wait looks for is set by every tasklet and by a card that leaves during a request,
      and cleared when a command is about to be sent. */
  predicate WokenAfter(b: Bus, h: Host, e: Event)
    requires BusShape(b)
  {
    match e
    case Tasklet(_, _) => true
    case Card(present) => h.woken || (h.present && !present && h.dataSet)
    case Grant(channel) => h.woken && !(h.pc.Prepared? && channel < 8 && b.owner[channel].None?)
    case _ => h.woken
  }

  /** From `h` to `h1` the four flags are as the step `e` makes them: a new request starts without an
      error, which is set exactly by what notes one; the interrupt handler's flag is set while there is a
      card and taken back by the tasklet; interrupt and poll say whether there is one. */
  ghost predicate FlagsOk(b: Bus, h: Host, e: Event, h1: Host)
    requires BusShape(b)
  {
    && h1.error == (if e.Begin? && h.pc.Rest? then false else h.error || Notes(h, e))
    && h1.woken == WokenAfter(b, h, e)
    && h1.dataErr == (if e.Tasklet? then false else h.dataErr || (e.ErrorIrq? && h.present))
    && h1.present == (if e.Card? || e.Poll? then e.present else h.present)
  }

  lemma LeftFlags(h: Host, o: Outcome)
    ensures Left(h, o) == h.(pc := Leaving, pieces := Left(h, o).pieces)
  {
  }

  lemma TaskletFlags(b: Bus, h: Host, tcZero: bool, crcBad: bool)
    requires BusShape(b)
    ensures FlagsOk(b, h, Event.Tasklet(tcZero, crcBad), TaskletWorker(b, h, tcZero, crcBad).1)
  {
    HalStopFlags(b, h);
    hide HalStop;
  }

  lemma GrantFlags(b: Bus, h: Host, id: nat, channel: nat)
    requires BusShape(b)
    ensures FlagsOk(b, h, Grant(channel), Granted(b, h, id, channel).1)
  {
    LeftFlags(h.(request := RequestOf(id, h.read), channel := UNKNOWN_CHANNEL,
                 lost := if Known(h) then h.lost + 1 else h.lost), Refused);
    hide Took, RequestOf, Left;
  }

  lemma AnswerFlags(b: Bus, h: Host, ok: bool)
    requires BusShape(b)
    ensures FlagsOk(b, h, Answer(ok), Answered(b, h, ok).1)
  {
    HalStopFlags(b, h);
    hide HalStop;
  }

  lemma LateFlags(b: Bus, h: Host)
    requires BusShape(b)
    ensures FlagsOk(b, h, StopExpired, StoppedLate(b, h).1)
  {
    HalStopFlags(b, h);
    hide HalStop;
  }

  lemma CheckFlags(b: Bus, h: Host)
    requires BusShape(b)
    ensures FlagsOk(b, h, Check, Checked(b, h).1)
  {
    HalStopFlags(b, h);
    HalStopFlags(b, h.(error := true));
    hide HalStop;
  }

  lemma StartedIs(h: Host, aligned: bool, blocks: nat)
    ensures var h1 := Started(h, aligned, blocks);
            && h1.pc == (if aligned then Prepared else Leaving) && h1.channel == h.channel && h1.dataSet == h.dataSet
            && h1.woken == h.woken && h1.present == h.present && h1.error == h.error && h1.dataErr == h.dataErr
            && h1.taken == h.taken && h1.released == h.released && h1.lost == h.lost && h1.request == h.request
  {
  }

  lemma LocalFlags(b: Bus, h: Host, e: Event)
    requires BusShape(b)
    requires !(e.Grant? || e.Answer? || e.Tasklet? || e.StopExpired? || e.Check?)
    ensures FlagsOk(b, h, e, LocalStep(h, e))
  {
    if e.Begin? {
      var h0 := h.(dataSet := true, read := e.read, error := false, moved := 0, pieces := []);
      StartedIs(h0, e.aligned, e.blocks);
    } else if e.Again? {
      StartedIs(h, e.aligned, e.blocks);
    }
    hide Started;
  }

  /** The flags, over every step of a host. */
  lemma FlagsAre(b: Bus, h: Host, id: nat, e: Event)
    requires BusShape(b)
    ensures FlagsOk(b, h, e, HostStep(b, h, id, e).1)
  {
    hide TaskletWorker, Granted, Answered, StoppedLate, Checked, LocalStep, FlagsOk;
    match e
    case Grant(channel) => GrantFlags(b, h, id, channel);
    case Tasklet(tcZero, crcBad) => TaskletFlags(b, h, tcZero, crcBad);
    case Answer(ok) => AnswerFlags(b, h, ok);
    case StopExpired => LateFlags(b, h);
    case Check => CheckFlags(b, h);
    case _ => LocalFlags(b, h, e);
  }

  /** Where the wait goes: on when it was woken, into the timeout branch when it was not. */
  lemma WaitIs(h: Host)
    requires h.pc.Waiting?
    ensures LocalStep(h, WakeUp) == (if h.woken then h.(pc := Checking(false)) else h)
    ensures LocalStep(h, Expire) == (if h.woken then h else h.(pc := Expired))
  {
  }

  /** How a piece ends, at its end: moved with no error noted and the card there, otherwise timed out or
      failed. */
  lemma EndIs(b: Bus, h: Host, id: nat)
    requires BusShape(b) && h.pc.Checking?
    ensures var h1 := HostStep(b, h, id, Check).1;
            && |h1.pieces| == |h.pieces| + 1
            && h1.pieces == h.pieces + [Piece(h1.pieces[|h.pieces|].outcome, h.blocks)]
            && (h1.pieces[|h.pieces|].outcome.Moved? <==> h.present && !h.error)
            && (h1.pieces[|h.pieces|].outcome.TimedOut? <==> (!h.present || h.error) && h.pc.expired)
            && !h1.pieces[|h.pieces|].outcome.Refused?
  {
    HalStopFlags(b, h);
    HalStopFlags(b, h.(error := true));
    hide Freed, Took, HalStop;
  }

  /** What follows a piece: after a timeout and a refusal nothing but the end of the request, else the next
      piece. */
  lemma AgainIs(h: Host, aligned: bool, blocks: nat)
    requires h.pc.Leaving? && h.pieces != []
    ensures var last := h.pieces[|h.pieces| - 1].outcome;
            LocalStep(h, Again(aligned, blocks)) ==
            if last == TimedOut || last == Refused then h
            else if aligned then h.(pc := Prepared, blocks := blocks)
            else h.(pc := Leaving, blocks := blocks, pieces := h.pieces + [Piece(Refused, blocks)])
  {
  }

  /** Each host and direction has an identifier of its own. */
  lemma RequestsDiffer(id: nat, read: bool, id': nat, read': bool)
    ensures RequestOf(id, read) == RequestOf(id', read') <==> id == id' && read == read'
    ensures RequestOf(id, read) == 10 + 2 * id + if read then 1 else 0
  {
  }

  // ----- One host -----

  predicate Busy(pc: Pc) {
    pc.Commanding? || pc.Waiting? || pc.Expired? || pc.Checking?
  }

  /** A channel is held only inside a piece, and what woke a wait without giving it back was the
      card leaving. */
  ghost predicate HostOk(h: Host) {
    && (Known(h) ==> h.dataSet && Busy(h.pc))
    && (h.dataSet <==> h.pc != Rest)
    && (Known(h) && h.woken && (h.pc.Commanding? || h.pc.Waiting? || h.pc.Checking?) ==> !h.present)
    && (Known(h) && h.pc.Checking? ==> h.woken || h.error)
    && (h.pc.Checking? && h.pc.expired ==> h.error)
    && h.lost == 0 && h.taken == h.released + if Known(h) then 1 else 0
  }

  /** A card that is gone comes back only between requests. */
  predicate NoReinsertion(h: Host, e: Event) {
    e == Card(true) || e == Poll(true) ==> !h.dataSet || h.present
  }

  lemma TaskletKeepsOk(b: Bus, h: Host, tcZero: bool, crcBad: bool)
    requires BusShape(b) && HostOk(h)
    ensures HostOk(TaskletWorker(b, h, tcZero, crcBad).1)
  {
    hide Freed, Took;
  }

  lemma StopKeepsOk(b: Bus, h: Host, ok: bool)
    requires BusShape(b) && HostOk(h)
    ensures HostOk(Answered(b, h, ok).1) && HostOk(StoppedLate(b, h).1) && HostOk(Checked(b, h).1)
  {
    hide Freed;
  }

  lemma GrantKeepsOk(b: Bus, h: Host, id: nat, channel: nat)
    requires BusShape(b) && HostOk(h)
    ensures HostOk(Granted(b, h, id, channel).1)
  {
    hide Took;
  }

  lemma LocalStepKeepsOk(h: Host, e: Event)
    requires HostOk(h) && NoReinsertion(h, e)
    ensures HostOk(LocalStep(h, e))
  {
    hide Started;
    match e
    case Begin(read, aligned, blocks) =>
      StartedIs(h.(dataSet := true, read := read, error := false, moved := 0, pieces := []), aligned, blocks);
    case Again(aligned, blocks) => StartedIs(h, aligned, blocks);
    case _ =>
  }

  lemma HostStepKeepsOk(b: Bus, h: Host, id: nat, e: Event)
    requires BusShape(b) && HostOk(h) && NoReinsertion(h, e)
    ensures HostOk(HostStep(b, h, id, e).1)
  {
    hide TaskletWorker, Granted, Answered, StoppedLate, Checked, LocalStep, HostOk;
    match e
    case Grant(channel) => GrantKeepsOk(b, h, id, channel);
    case Tasklet(tcZero, crcBad) => TaskletKeepsOk(b, h, tcZero, crcBad);
    case Answer(ok) => StopKeepsOk(b, h, ok);
    case StopExpired => StopKeepsOk(b, h, true);
    case Check => StopKeepsOk(b, h, true);
    case _ => LocalStepKeepsOk(h, e);
  }

  /** The end of a piece gives the channel back exactly when the card is gone or an error is noted;
      otherwise a channel still held stays held. */
  lemma CheckReleases(b: Bus, h: Host, id: nat)
    requires BusShape(b) && h.pc.Checking? && h.dataSet && Known(h)
    ensures !Known(HostStep(b, h, id, Check).1) <==> !h.present || h.error
  {
  }

  // ----- All hosts over one controller -----

  /** A host that knows a channel owns it, nobody else does, and every owned channel is known. */
  ghost predicate Ownership(s: Sys) {
    && |s.bus.owner| == CHANNELS
    && (forall i :: 0 <= i < |s.hosts| && Known(s.hosts[i]) ==>
          s.bus.owner[s.hosts[i].channel] == Some(s.hosts[i].request))
    && (forall i, j :: 0 <= i < j < |s.hosts| && Known(s.hosts[i]) ==> s.hosts[i].channel != s.hosts[j].channel)
    && (forall c :: 0 <= c < CHANNELS && s.bus.owner[c].Some? ==>
          exists i :: 0 <= i < |s.hosts| && s.hosts[i].channel == c)
  }

  ghost predicate SysOk(s: Sys) {
    BusOk(s.bus) && Ownership(s) && forall i :: 0 <= i < |s.hosts| ==> HostOk(s.hosts[i])
  }

  function SysStep(s: Sys, id: nat, e: Event): (t: Sys)
    requires BusShape(s.bus) && id < |s.hosts|
    ensures BusShape(t.bus) && |t.hosts| == |s.hosts|
  {
    var (b, h) := HostStep(s.bus, s.hosts[id], id, e);
    Sys(b, s.hosts[id := h])
  }

  /** What a step can do to the bus: nothing, take one channel that was free, or free its own. */
  ghost predicate Effect(b: Bus, h: Host, b1: Bus, h1: Host)
    requires BusShape(b)
  {
    || (b1 == b && h1.channel == h.channel && h1.request == h.request)
    || (b1 == b && !Known(h) && !Known(h1))
    || (!Known(h) && Known(h1) && b.owner[h1.channel].None? && b1 == Took(b, h1.request, h1.channel))
    || (Known(h) && !Known(h1) && b1 == Freed(b, h.channel))
  }

  lemma StopEffect(b: Bus, h: Host, ok: bool)
    requires BusShape(b) && HostOk(h)
    ensures Effect(b, h, Answered(b, h, ok).0, Answered(b, h, ok).1)
    ensures Effect(b, h, StoppedLate(b, h).0, StoppedLate(b, h).1)
    ensures Effect(b, h, Checked(b, h).0, Checked(b, h).1)
  {
    hide Freed, Took;
  }

  lemma TaskletEffect(b: Bus, h: Host, tcZero: bool, crcBad: bool)
    requires BusShape(b) && HostOk(h)
    ensures var r := TaskletWorker(b, h, tcZero, crcBad); Effect(b, h, r.0, r.1)
  {
    hide Freed, Took;
  }

  lemma BusEffect(b: Bus, h: Host, id: nat, e: Event)
    requires BusOk(b) && HostOk(h) && NoReinsertion(h, e)
    ensures var (b1, h1) := HostStep(b, h, id, e); Effect(b, h, b1, h1)
  {
    hide TaskletWorker, Answered, StoppedLate, Checked, Took, Freed;
    match e
    case Tasklet(tcZero, crcBad) =>
      TaskletEffect(b, h, tcZero, crcBad);
      hide Effect, HostOk;
    case Answer(ok) =>
      StopEffect(b, h, ok);
      hide Effect, HostOk;
    case StopExpired =>
      StopEffect(b, h, true);
      hide Effect, HostOk;
    case Check =>
      StopEffect(b, h, true);
      hide Effect, HostOk;
    case _ =>
  }

  lemma SysStepKeepsOk(s: Sys, id: nat, e: Event)
    requires SysOk(s) && id < |s.hosts| && NoReinsertion(s.hosts[id], e)
    ensures SysOk(SysStep(s, id, e))
  {
    var h := s.hosts[id];
    HostStepKeepsOk(s.bus, h, id, e);
    BusEffect(s.bus, h, id, e);
    var (b1, h1) := HostStep(s.bus, h, id, e);
    hide HostStep;
    var t := Sys(b1, s.hosts[id := h1]);
    if Known(h) {
      TookAndFreedKeepOk(s.bus, h1.request, h.channel);
    }
    if Known(h1) {
      TookAndFreedKeepOk(s.bus, h1.request, h1.channel);
    }
    OwnershipKept(s, id, b1, h1);
  }

  lemma OwnershipKept(s: Sys, id: nat, b1: Bus, h1: Host)
    requires BusShape(s.bus) && Ownership(s) && id < |s.hosts|
    requires Effect(s.bus, s.hosts[id], b1, h1)
    ensures Ownership(Sys(b1, s.hosts[id := h1]))
  {
    var t := Sys(b1, s.hosts[id := h1]);
    forall c | 0 <= c < CHANNELS && t.bus.owner[c].Some?
      ensures exists i :: 0 <= i < |t.hosts| && t.hosts[i].channel == c
    {
      if s.bus.owner[c].Some? {
        var i :| 0 <= i < |s.hosts| && s.hosts[i].channel == c;
        assert t.hosts[i].channel == c;
      } else {
        assert t.hosts[id].channel == c;
      }
    }
  }

  function Run(s: Sys, es: seq<(nat, Event)>): (t: Sys)
    requires BusShape(s.bus) && forall i :: 0 <= i < |es| ==> es[i].0 < |s.hosts|
    ensures BusShape(t.bus) && |t.hosts| == |s.hosts|
  {
    if es == [] then s
    else
      var n := |es| - 1;
      SysStep(Run(s, es[..n]), es[n].0, es[n].1)
  }

  ghost predicate NeverReinserted(s: Sys, es: seq<(nat, Event)>)
    requires BusShape(s.bus) && forall i :: 0 <= i < |es| ==> es[i].0 < |s.hosts|
  {
    es != [] ==>
      var n := |es| - 1;
      NeverReinserted(s, es[..n]) && NoReinsertion(Run(s, es[..n]).hosts[es[n].0], es[n].1)
  }

  /** Over every interleaving of the hosts, their interrupts and card events without reinsertion
      during a request: ownership, DDR references and counts always agree. */
  lemma {:induction false} RunKeepsOk(s: Sys, es: seq<(nat, Event)>)
    requires SysOk(s) && forall i :: 0 <= i < |es| ==> es[i].0 < |s.hosts|
    requires NeverReinserted(s, es)
    ensures SysOk(Run(s, es))
  {
    if es == [] {
    } else {
      var n := |es| - 1;
      RunKeepsOk(s, es[..n]);
      SysStepKeepsOk(Run(s, es[..n]), es[n].0, es[n].1);
    }
  }

  /** Nobody owns the channel and it holds the DDR neither by its count nor by its bit. */
  predicate FreeAt(b: Bus, c: int)
    requires BusShape(b) && 0 <= c < CHANNELS
  {
    b.owner[c].None? && b.ddr.refs[IFC0 + c] == 0 && (IFC0 + c) !in b.ddr.bits
  }

  predicate AllFree(b: Bus)
    requires BusShape(b)
  {
    forall c :: 0 <= c < CHANNELS ==> FreeAt(b, c)
  }

  lemma FreeHoldsNothing(b: Bus, c: nat)
    requires BusOk(b) && c < CHANNELS && b.owner[c].None?
    ensures BusShape(b) && FreeAt(b, c)
  {
  }

  lemma OwnerIsKnown(s: Sys, c: nat) returns (i: nat)
    requires Ownership(s) && c < CHANNELS && s.bus.owner[c].Some?
    ensures i < |s.hosts| && Known(s.hosts[i])
  {
    i :| i < |s.hosts| && s.hosts[i].channel == c;
  }

  lemma FreeWhenUnknown(s: Sys)
    requires SysOk(s) && forall i :: 0 <= i < |s.hosts| ==> !Known(s.hosts[i])
    ensures BusShape(s.bus) && AllFree(s.bus)
  {
    hide HostOk, Ownership;
    assert BusShape(s.bus);
    forall c | 0 <= c < CHANNELS
      ensures FreeAt(s.bus, c)
    {
      hide BusOk, FreeAt;
      if s.bus.owner[c].Some? {
        var i := OwnerIsKnown(s, c);
      } else {
        FreeHoldsNothing(s.bus, c);
      }
    }
  }

  lemma ReleasedWhenIdle(h: Host)
    requires HostOk(h) && !Busy(h.pc)
    ensures h.taken == h.released && !Known(h)
  {
  }

  /** After any such run, a host outside a piece has given back every channel it took, and when all
      hosts rest no channel is owned and no channel holds the DDR. */
  lemma AllReleasedAtRest(s: Sys, es: seq<(nat, Event)>)
    requires SysOk(s) && forall i :: 0 <= i < |es| ==> es[i].0 < |s.hosts|
    requires NeverReinserted(s, es)
    ensures var t := Run(s, es);
            && (forall i :: 0 <= i < |t.hosts| && !Busy(t.hosts[i].pc) ==>
                  t.hosts[i].taken == t.hosts[i].released && !Known(t.hosts[i]))
            && ((forall i :: 0 <= i < |t.hosts| ==> t.hosts[i].pc.Rest?) ==> AllFree(t.bus))
  {
    RunKeepsOk(s, es);
    var t := Run(s, es);
    hide Run, NeverReinserted, HostOk, BusOk, Ownership;
    forall i | 0 <= i < |t.hosts| && !Busy(t.hosts[i].pc)
      ensures t.hosts[i].taken == t.hosts[i].released && !Known(t.hosts[i])
    {
      ReleasedWhenIdle(t.hosts[i]);
    }
    if forall i :: 0 <= i < |t.hosts| ==> t.hosts[i].pc.Rest? {
      assert forall i :: 0 <= i < |t.hosts| ==> !Known(t.hosts[i]) by {
        assert forall i :: 0 <= i < |t.hosts| ==> !Busy(t.hosts[i].pc);
      }
      FreeWhenUnknown(t);
    }
  }

  /** With a reinsertion it fails: the card leaves and comes back before the woken request looks at
      it, the transfer counts as good, and the channel stays taken. */
  lemma ReinsertionLeaks(b: Bus, h: Host, id: nat) returns (h': Host, b': Bus)
    requires BusOk(b) && HostOk(h) && h.pc.Rest? && h.present && b.owner[0].None?
    ensures BusOk(b') && b'.owner[0].Some? && b'.ddr.refs[IFC0] == 1
    ensures h'.pc.Rest? && h'.taken == h'.released + 1
  {
    TookAndFreedKeepOk(b, RequestOf(id, true), 0);
    var s1 := HostStep(b, h, id, Begin(true, true, 1));
    var s2 := HostStep(s1.0, s1.1, id, Grant(0));
    var s3 := HostStep(s2.0, s2.1, id, Answer(true));
    var s4 := HostStep(s3.0, s3.1, id, Card(false));
    var s5 := HostStep(s4.0, s4.1, id, Card(true));
    var s6 := HostStep(s5.0, s5.1, id, WakeUp);
    var s7 := HostStep(s6.0, s6.1, id, Check);
    var s8 := HostStep(s7.0, s7.1, id, Finish);
    b', h' := s8.0, s8.1;
  }

  // ----- Channels over runs with reinsertion -----

  /** Channels a host took are released, lost, or known to it. */
  predicate Accounted(h: Host) {
    h.taken == h.released + h.lost + (if Known(h) then 1 else 0) && (h.dataSet <==> h.pc != Rest)
  }

  /** The step loses a channel the host knows: a new one is taken over it, or an error tasklet comes
      when there is no data pointer any more. */
  predicate Forgets(b: Bus, h: Host, e: Event)
    requires BusShape(b)
  {
    Known(h) &&
    match e
    case Grant(channel) => h.pc == Prepared && !(channel < CHANNELS && b.owner[channel].Some?)
    case Tasklet(_, _) => h.dataErr && !h.dataSet
    case _ => false
  }

  lemma AnswerAccounts(b: Bus, h: Host, ok: bool)
    requires BusShape(b) && Accounted(h)
    ensures Accounted(Answered(b, h, ok).1) && Answered(b, h, ok).1.lost == h.lost
  {
    hide Freed;
  }

  lemma TimeoutAccounts(b: Bus, h: Host)
    requires BusShape(b) && Accounted(h)
    ensures Accounted(StoppedLate(b, h).1) && StoppedLate(b, h).1.lost == h.lost
  {
    hide Freed;
  }

  lemma CheckAccounts(b: Bus, h: Host)
    requires BusShape(b) && Accounted(h)
    ensures Accounted(Checked(b, h).1) && Checked(b, h).1.lost == h.lost
  {
    hide Freed;
  }

  lemma TaskletAccounts(b: Bus, h: Host, tcZero: bool, crcBad: bool)
    requires BusShape(b) && Accounted(h)
    ensures var h1 := TaskletWorker(b, h, tcZero, crcBad).1;
            Accounted(h1) && h1.lost == h.lost + (if Known(h) && h.dataErr && !h.dataSet then 1 else 0)
  {
    hide Freed;
  }

  lemma LocalAccounts(h: Host, e: Event)
    requires Accounted(h)
    ensures Accounted(LocalStep(h, e)) && LocalStep(h, e).lost == h.lost
  {
    hide Started;
    match e
    case Begin(read, aligned, blocks) =>
      StartedIs(h.(dataSet := true, read := read, error := false, moved := 0, pieces := []), aligned, blocks);
    case Again(aligned, blocks) => StartedIs(h, aligned, blocks);
    case _ =>
  }

  lemma StepAccounts(b: Bus, h: Host, id: nat, e: Event)
    requires BusShape(b) && Accounted(h)
    ensures var h1 := HostStep(b, h, id, e).1;
            Accounted(h1) && h1.lost == h.lost + if Forgets(b, h, e) then 1 else 0
  {
    hide TaskletWorker, Answered, StoppedLate, Checked, Took, Freed, LocalStep;
    match e
    case Tasklet(tcZero, crcBad) => TaskletAccounts(b, h, tcZero, crcBad);
    case Answer(ok) => AnswerAccounts(b, h, ok);
    case StopExpired => TimeoutAccounts(b, h);
    case Check => CheckAccounts(b, h);
    case Grant(channel) =>
    case _ => LocalAccounts(h, e);
  }

  /** Some step of the run made host `i` forget a channel. */
  ghost predicate Forgot(s: Sys, es: seq<(nat, Event)>, i: nat)
    requires BusShape(s.bus) && i < |s.hosts| && forall k :: 0 <= k < |es| ==> es[k].0 < |s.hosts|
  {
    es != [] &&
    var n := |es| - 1;
    Forgot(s, es[..n], i) ||
    (es[n].0 == i && Forgets(Run(s, es[..n]).bus, Run(s, es[..n]).hosts[i], es[n].1))
  }

  /** Over every run, reinsertions included: a host has released every channel it took exactly when it
      knows none and none of its steps forgot one. */
  lemma {:induction false} ReleasedUnlessForgotten(s: Sys, es: seq<(nat, Event)>, i: nat)
    requires BusShape(s.bus) && i < |s.hosts| && forall k :: 0 <= k < |es| ==> es[k].0 < |s.hosts|
    requires Accounted(s.hosts[i]) && s.hosts[i].lost == 0
    ensures var h := Run(s, es).hosts[i];
            && Accounted(h) && (h.lost > 0 <==> Forgot(s, es, i))
            && (h.taken == h.released <==> !Known(h) && !Forgot(s, es, i))
  {
    if es == [] {
    } else {
      var n := |es| - 1;
      ReleasedUnlessForgotten(s, es[..n], i);
      var t := Run(s, es[..n]);
      if es[n].0 == i {
        StepAccounts(t.bus, t.hosts[i], i, es[n].1);
      }
      hide HostStep, Forgets;
    }
  }

  /** A channel still known when its request ends may be released after all: a tasklet that runs once
      the next request has begun finds the data pointer and the old channel. */
  lemma LateTaskletReleases(b: Bus, h: Host, id: nat)
    requires BusShape(b) && Accounted(h) && h.pc.Leaving? && Known(h) && !h.dataErr && h.lost == 0
    ensures var (b1, h1) := HostStep(b, h, id, Finish);
            var (b2, h2) := HostStep(b1, h1, id, Begin(true, true, 1));
            var (b3, h3) := HostStep(b2, h2, id, Event.Tasklet(true, false));
            && h1.pc.Rest? && h1.taken == h1.released + 1
            && h3.taken == h3.released && !Known(h3) && b3 == Freed(b, h.channel)
  {
    hide Freed;
  }

  // ----- What a request accounts for -----

  /** A piece noted an error on the data. */
  predicate Noted(ps: seq<Piece>) {
    ps != [] && (Noted(ps[..|ps| - 1]) || ps[|ps| - 1].outcome.Failed? || ps[|ps| - 1].outcome.TimedOut?)
  }

  function MovedBlocks(ps: seq<Piece>): nat {
    if ps == [] then 0
    else MovedBlocks(ps[..|ps| - 1]) + if ps[|ps| - 1].outcome.Moved? then ps[|ps| - 1].blocks else 0
  }

  /** Nothing once an error is noted, else the blocks of the pieces that moved. */
  function Tally(ps: seq<Piece>): nat {
    if Noted(ps) then 0 else MovedBlocks(ps)
  }

  function Total(ps: seq<Piece>): nat {
    if ps == [] then 0 else Total(ps[..|ps| - 1]) + ps[|ps| - 1].blocks
  }

  /** The whole request is accounted for exactly when every piece moved. */
  lemma {:induction false} TallyIsWhole(ps: seq<Piece>)
    requires forall i :: 0 <= i < |ps| ==> ps[i].blocks > 0
    ensures MovedBlocks(ps) <= Total(ps)
    ensures ps == [] || (Tally(ps) == Total(ps) <==> forall i :: 0 <= i < |ps| ==> ps[i].outcome.Moved?)
  {
    if ps == [] {
    } else {
      var before, last := ps[..|ps| - 1], ps[|ps| - 1];
      TallyIsWhole(before);
      if last.outcome.Moved? && forall i :: 0 <= i < |before| ==> before[i].outcome.Moved? {
        assert forall i :: 0 <= i < |ps| ==> ps[i].outcome.Moved?;
        NothingTallied();
      }
      if forall i :: 0 <= i < |ps| ==> ps[i].outcome.Moved? {
        assert forall i :: 0 <= i < |before| ==> before[i] == ps[i];
      }
      assert Total(ps) > 0 && ps[|ps| - 1].blocks > 0;
    }
  }

  /** What is accounted for, and that an error once noted stays. */
  predicate Tallied(ps: seq<Piece>, moved: nat, error: bool) {
    moved == Tally(ps) && (Noted(ps) ==> error)
  }

  /** Only the last piece of a request can have stopped it, and only once the request is leaving. */
  ghost predicate StopsLast(ps: seq<Piece>, leaving: bool) {
    forall i :: 0 <= i < (if leaving then |ps| - 1 else |ps|) ==> !Stops(ps[i].outcome)
  }

  ghost predicate TallyOk(h: Host) {
    && Tallied(h.pieces, h.moved, h.error)
    && StopsLast(h.pieces, h.pc.Leaving? || h.pc.Rest?)
    && (h.pc.Checking? && h.pc.expired ==> h.error)
  }

  lemma LeftTally(h: Host, o: Outcome)
    ensures var ps := Left(h, o).pieces;
            && (Noted(ps) <==> Noted(h.pieces) || o.Failed? || o.TimedOut?)
            && MovedBlocks(ps) == MovedBlocks(h.pieces) + (if o.Moved? then h.blocks else 0)
            && ps[..|ps| - 1] == h.pieces
  {
    var ps := Left(h, o).pieces;
    assert ps[..|ps| - 1] == h.pieces;
  }

  lemma LeavingTallies(h: Host, o: Outcome, h1: Host)
    requires TallyOk(h) && !h.pc.Leaving? && !h.pc.Rest?
    requires h1.pieces == h.pieces && h1.blocks == h.blocks && (h.error ==> h1.error)
    requires o.Failed? || o.TimedOut? ==> h1.error && h1.moved == 0
    requires o.Moved? ==> !h1.error && h1.moved == h.moved + h.blocks
    requires o.Refused? ==> h1.moved == h.moved
    ensures TallyOk(Left(h1, o))
  {
    LeftTally(h1, o);
    hide Noted, MovedBlocks;
  }

  lemma MoreError(ps: seq<Piece>, moved: nat, error: bool)
    requires Tallied(ps, moved, error)
    ensures Tallied(ps, moved, true)
  {
    hide Tally, Noted;
  }

  lemma MayGoOn(ps: seq<Piece>)
    requires StopsLast(ps, true) && ps != [] && !Stops(ps[|ps| - 1].outcome)
    ensures StopsLast(ps, false)
  {
  }

  lemma TaskletKeepsTally(b: Bus, h: Host, tcZero: bool, crcBad: bool)
    requires BusShape(b) && TallyOk(h)
    ensures TallyOk(TaskletWorker(b, h, tcZero, crcBad).1)
  {
    hide HalStop, Tallied, StopsLast;
    StopKeeps(b, h);
    MoreError(h.pieces, h.moved, h.error);
  }

  lemma StopKeeps(b: Bus, h: Host)
    requires BusShape(b)
    ensures var h1 := HalStop(b, h).1;
            && h1.pc == h.pc && h1.pieces == h.pieces && h1.blocks == h.blocks
            && h1.error == h.error && h1.moved == h.moved
  {
  }

  lemma StartKeepsTally(h: Host, aligned: bool, blocks: nat)
    requires Tallied(h.pieces, h.moved, h.error) && StopsLast(h.pieces, false)
    ensures TallyOk(Started(h, aligned, blocks))
  {
    hide Tallied, StopsLast, Left;
    var h0 := h.(pc := Prepared, blocks := blocks);
    if !aligned {
      LeavingTallies(h0, Refused, h0);
    }
  }

  lemma LocalStepKeepsTally(h: Host, e: Event)
    requires TallyOk(h)
    ensures TallyOk(LocalStep(h, e))
  {
    hide Tallied, StopsLast, Started;
    match e
    case Begin(read, aligned, blocks) =>
      NothingTallied();
      StartKeepsTally(h.(dataSet := true, read := read, error := false, moved := 0, pieces := []), aligned, blocks);
      hide TallyOk;
    case Again(aligned, blocks) =>
      if h.pc == Leaving && h.pieces != [] && !Stops(h.pieces[|h.pieces| - 1].outcome) {
        MayGoOn(h.pieces);
        StartKeepsTally(h, aligned, blocks);
      }
    case _ =>
  }

  lemma GrantKeepsTally(b: Bus, h: Host, id: nat, channel: nat)
    requires BusShape(b) && TallyOk(h)
    ensures TallyOk(Granted(b, h, id, channel).1)
  {
    hide Took, Tallied, StopsLast, Left;
    if h.pc == Prepared && channel >= CHANNELS {
      var h0 := h.(request := RequestOf(id, h.read), lost := if Known(h) then h.lost + 1 else h.lost,
                   channel := UNKNOWN_CHANNEL);
      LeavingTallies(h, Refused, h0);
    }
  }

  lemma CheckKeepsTally(b: Bus, h: Host)
    requires BusShape(b) && TallyOk(h)
    ensures TallyOk(Checked(b, h).1)
  {
    hide Tallied, StopsLast, Left, HalStop;
    if h.pc.Checking? {
      var h0 := if !h.present then h.(error := true) else h;
      StopKeeps(b, h0);
      if h0.error {
        LeavingTallies(h, if h.pc.expired then TimedOut else Failed, HalStop(b, h0).1.(moved := 0));
      } else {
        LeavingTallies(h, Moved, h0.(moved := h0.moved + h0.blocks));
      }
    }
  }

  lemma AnswerKeepsTally(b: Bus, h: Host, ok: bool)
    requires BusShape(b) && TallyOk(h)
    ensures TallyOk(Answered(b, h, ok).1)
  {
    hide Tallied, StopsLast, Left, HalStop;
    StopKeeps(b, h);
    if h.pc == Commanding {
      LeavingTallies(h, Refused, HalStop(b, h).1);
    }
  }

  lemma LateStopKeepsTally(b: Bus, h: Host)
    requires BusShape(b) && TallyOk(h)
    ensures TallyOk(StoppedLate(b, h).1)
  {
    hide Tallied, StopsLast, HalStop, Stops;
    StopKeeps(b, h);
    MoreError(h.pieces, h.moved, h.error);
    if h.pc != Expired {
    } else if !Known(h) {
      assert StoppedLate(b, h).1 == h.(pc := Halted);
    } else {
      assert StoppedLate(b, h).1 == HalStop(b, h).1.(pc := Checking(true), error := true);
    }
  }

  lemma StepKeepsTally(b: Bus, h: Host, id: nat, e: Event)
    requires BusShape(b) && TallyOk(h)
    ensures TallyOk(HostStep(b, h, id, e).1)
  {
    hide TaskletWorker, Granted, Answered, StoppedLate, Checked, LocalStep, TallyOk;
    match e
    case Grant(channel) => GrantKeepsTally(b, h, id, channel);
    case Tasklet(tcZero, crcBad) => TaskletKeepsTally(b, h, tcZero, crcBad);
    case Answer(ok) => AnswerKeepsTally(b, h, ok);
    case StopExpired => LateStopKeepsTally(b, h);
    case Check => CheckKeepsTally(b, h);
    case _ => LocalStepKeepsTally(h, e);
  }

  lemma NothingTallied()
    ensures Tally([]) == 0 && !Noted([]) && Tallied([], 0, false) && StopsLast([], false)
  {
  }

  /** Over every interleaving, what each host accounts for is the tally of its request's pieces, and
      only the last of them can have stopped the request. */
  lemma {:induction false} RunKeepsTally(s: Sys, es: seq<(nat, Event)>)
    requires BusShape(s.bus) && forall k :: 0 <= k < |es| ==> es[k].0 < |s.hosts|
    requires forall i :: 0 <= i < |s.hosts| ==> TallyOk(s.hosts[i])
    ensures forall i :: 0 <= i < |s.hosts| ==> TallyOk(Run(s, es).hosts[i])
  {
    hide TallyOk, HostStep;
    if es == [] {
    } else {
      var n := |es| - 1;
      RunKeepsTally(s, es[..n]);
      var t := Run(s, es[..n]);
      StepKeepsTally(t.bus, t.hosts[es[n].0], es[n].0, es[n].1);
    }
  }

  // ----- One request cut into pieces -----

  datatype Opcode = ReadSingle | ReadMultiple | WriteSingle | WriteMultiple | OtherCommand

  datatype Part = Part(arg: u32, blocks: nat, addr: nat, opcode: Opcode)

  /** The parts `do_data_transfer` makes of one segment. */
  function Parts(hostId: nat, arg: u32, blocks: nat, blksz: nat, addr: nat, opcode: Opcode): seq<Part> {
    if hostId == 2 && arg % 2 == 1 && blocks > 1 && (opcode.ReadMultiple? || opcode.WriteMultiple?) then
      var single := if opcode.WriteMultiple? then WriteSingle else ReadSingle;
      [Part(arg, 1, addr, single),
       Part(Wrap32(arg + 1), blocks - 1, addr + blksz, if blocks - 1 > 1 then opcode else single)]
    else [Part(arg, blocks, addr, opcode)]
  }

  function Blocks(ps: seq<Part>): nat {
    if ps == [] then 0 else Blocks(ps[..|ps| - 1]) + ps[|ps| - 1].blocks
  }

  /** The parts follow each other on the card and in memory and make up the whole request; on host 2
      no multiple-block command starts at an odd block. */
  lemma PartsTile(hostId: nat, arg: u32, blocks: nat, blksz: nat, addr: nat, opcode: Opcode)
    ensures var ps := Parts(hostId, arg, blocks, blksz, addr, opcode);
            && Blocks(ps) == blocks
            && (forall i :: 0 <= i < |ps| ==> ps[i].arg == Wrap32(arg + Blocks(ps[..i])) &&
                                              ps[i].addr == addr + Blocks(ps[..i]) * blksz)
            && (hostId == 2 ==> forall i :: 0 <= i < |ps| && ps[i].blocks > 1 &&
                                            (ps[i].opcode.ReadMultiple? || ps[i].opcode.WriteMultiple?) ==>
                  ps[i].arg % 2 == 0)
  {
    var ps := Parts(hostId, arg, blocks, blksz, addr, opcode);
    assert ps[..0] == [] && ps[..|ps|] == ps;
    assert Blocks(ps[..1]) == ps[0].blocks by {
      assert ps[..1][..0] == [];
    }
    if |ps| == 2 {
      assert Blocks(ps) == Blocks(ps[..1]) + ps[1].blocks;
    }
  }

  /** What is sent for the parts: reads for a read request and writes for a write request; in a split
      request a single-block command exactly for a part of one block; and a request for another host,
      at an even block, of one block or with another command passes as it is. */
  lemma PartsCommand(hostId: nat, arg: u32, blocks: nat, blksz: nat, addr: nat, opcode: Opcode)
    ensures var ps := Parts(hostId, arg, blocks, blksz, addr, opcode);
            && (opcode in {ReadSingle, ReadMultiple} ==>
                  forall i :: 0 <= i < |ps| ==> ps[i].opcode in {ReadSingle, ReadMultiple})
            && (opcode in {WriteSingle, WriteMultiple} ==>
                  forall i :: 0 <= i < |ps| ==> ps[i].opcode in {WriteSingle, WriteMultiple})
            && (|ps| == 2 <==> hostId == 2 && arg % 2 == 1 && blocks > 1 && opcode in {ReadMultiple, WriteMultiple})
            && (|ps| != 2 ==> ps == [Part(arg, blocks, addr, opcode)])
            && (|ps| == 2 ==> forall i :: 0 <= i < |ps| ==>
                  (ps[i].opcode in {ReadSingle, WriteSingle} <==> ps[i].blocks == 1))
  {
  }

  /** The pieces that are tried: up to the first one that stops the loop. */
  function Tried(os: seq<Outcome>): (n: nat)
    ensures n <= |os|
  {
    if os == [] then 0 else if Stops(os[0]) then 1 else 1 + Tried(os[1..])
  }

  /** The first `n` parts with the way they ended. */
  function Ended(ps: seq<Part>, os: seq<Outcome>, n: nat): seq<Piece>
    requires n <= |ps| == |os|
  {
    if n == 0 then [] else Ended(ps, os, n - 1) + [Piece(os[n - 1], ps[n - 1].blocks)]
  }

  /** The bytes that pieces account for. */
  function Bytes(ps: seq<Piece>, blksz: nat): nat {
    Tally(ps) * blksz
  }

  /** The loop of `do_data_transfer` over the parts, with the bytes each `__do_data_transfer` accounts
      for. The outcomes are those of the host machine, whose own count `RunKeepsTally` ties to the same
      tally. */
  method DoDataTransfer(ps: seq<Part>, blksz: nat, os: seq<Outcome>) returns (xfered: nat, error: bool, ret: bool)
    requires |os| == |ps|
    ensures ret <==> forall j :: 0 <= j < |os| ==> os[j] != TimedOut && os[j] != Refused
    ensures error == Noted(Ended(ps, os, Tried(os)))
    ensures xfered == Bytes(Ended(ps, os, Tried(os)), blksz)
  {
    NothingEnded(ps, os, blksz);
    hide Ended, Noted, MovedBlocks, Tally, Tried, Bytes;
    xfered, error := 0, false;
    var i := 0;
    while i < |ps|
      invariant 0 <= i <= |ps|
      invariant forall j :: 0 <= j < i ==> !Stops(os[j])
      invariant error == Noted(Ended(ps, os, i))
      invariant xfered == Bytes(Ended(ps, os, i), blksz)
    {
      TriedAt(os, i);
      CountGrows(ps, os, i, blksz);
      if os[i].Refused? {
        return xfered, error, false;
      }
      if os[i].TimedOut? {
        error := true;
      }
      if os[i].Failed? {
        error := true;
      }
      if !error {
        xfered := xfered + ps[i].blocks * blksz;
      } else {
        xfered := 0;
      }
      if os[i].TimedOut? {
        return xfered, error, false;
      }
      i := i + 1;
    }
    TriedAt(os, |os|);
    return xfered, error, true;
  }

  lemma NothingEnded(ps: seq<Part>, os: seq<Outcome>, blksz: nat)
    requires |ps| == |os|
    ensures Bytes(Ended(ps, os, 0), blksz) == 0 && !Noted(Ended(ps, os, 0))
  {
  }

  lemma EndedGrows(ps: seq<Part>, os: seq<Outcome>, i: nat)
    requires i < |ps| == |os|
    ensures var e, e' := Ended(ps, os, i), Ended(ps, os, i + 1);
            && (Noted(e') <==> Noted(e) || os[i].Failed? || os[i].TimedOut?)
            && MovedBlocks(e') == MovedBlocks(e) + (if os[i].Moved? then ps[i].blocks else 0)
  {
    var e, e' := Ended(ps, os, i), Ended(ps, os, i + 1);
    assert e'[..|e'| - 1] == e;
  }

  /** The count after one more part. */
  lemma CountGrows(ps: seq<Part>, os: seq<Outcome>, i: nat, blksz: nat)
    requires i < |ps| == |os|
    ensures var e, e', noted := Ended(ps, os, i), Ended(ps, os, i + 1), os[i].Failed? || os[i].TimedOut?;
            && Noted(e') == (Noted(e) || noted)
            && (os[i].Refused? ==> Bytes(e', blksz) == Bytes(e, blksz))
            && (os[i].Moved? && !Noted(e) ==> Bytes(e', blksz) == Bytes(e, blksz) + ps[i].blocks * blksz)
            && (Noted(e') ==> Bytes(e', blksz) == 0)
  {
    EndedGrows(ps, os, i);
    hide Ended, Noted, MovedBlocks;
    var e, n := Ended(ps, os, i), ps[i].blocks;
    assert (MovedBlocks(e) + n) * blksz == MovedBlocks(e) * blksz + n * blksz;
  }

  lemma {:induction false} TriedAt(os: seq<Outcome>, i: nat)
    requires i <= |os| && forall j :: 0 <= j < i ==> !Stops(os[j])
    ensures i < |os| && Stops(os[i]) ==> Tried(os) == i + 1
    ensures i == |os| ==> Tried(os) == i
  {
    if i == 0 {
    } else {
      TriedAt(os[1..], i - 1);
    }
  }

  // ----- The driver's own methods -----

  lemma PowersUpTo31(k: nat)
    requires k <= 31
    ensures Pow2(k) <= 0x8000_0000
    ensures Pow2(k) == 0x8000_0000 <==> k == 31
  {
    assert Pow2(8) == 0x100 && Pow2(16) == 0x1_0000 && Pow2(24) == 0x100_0000;
    assert Pow2(31) == 0x8000_0000;
    Pow2Grows(k, 31);
  }

  /** The block size register takes a power of two: the smallest one that is at least 4 and holds
      the block. */
  method BlockSize(length: u32) returns (blockSize: u32, lengthExp: nat)
    requires length <= 0x8000_0000
    ensures blockSize == Pow2(lengthExp) && 4 <= blockSize && length <= blockSize
    ensures blockSize > 4 ==> blockSize / 2 < length
  {
    lengthExp, blockSize := 2, 4;
    if length > 4 {
      while blockSize < length
        invariant blockSize == Pow2(lengthExp) && 4 <= blockSize <= 0x8000_0000
        invariant blockSize > 4 ==> blockSize / 2 < length
        invariant lengthExp <= 31
        decreases length - blockSize
      {
        PowersUpTo31(lengthExp);
        PowersUpTo31(lengthExp + 1);
        blockSize := blockSize * 2;
        lengthExp := lengthExp + 1;
      }
    }
  }

  /** The transfer record and the host fields around it. */
  class Driver {
    const ifc: Controller
    const id: nat
    var channel: nat
    var request: nat
    var dataSet: bool
    var read: bool
    var present: bool
    var dataErr: bool
    var error: bool
    var woken: bool
    var blocks: nat
    var moved: nat
    ghost var pc: Pc
    ghost var pieces: seq<Piece>
    ghost var taken: nat
    ghost var released: nat
    ghost var lost: nat

    ghost predicate Valid()
      reads this, ifc, ifc.owner, ifc.ddr
    {
      ifc.Valid() && (channel < CHANNELS ==> ifc.owner[channel] == Some(request))
    }

    ghost function View(): Host
      reads this
    {
      Host(pc, channel, request, dataSet, read, present, dataErr, error, woken, blocks, moved, pieces,
           taken, released, lost)
    }

    constructor (ifc: Controller, id: nat)
      requires ifc.Valid()
      ensures Valid() && HostOk(View()) && TallyOk(View()) && this.ifc == ifc && this.id == id && pc == Rest
    {
      this.ifc, this.id := ifc, id;
      channel, request, dataSet, read, present := UNKNOWN_CHANNEL, 0, false, false, true;
      dataErr, error, woken := false, false, false;
      blocks, moved := 0, 0;
      pc, pieces, taken, released, lost := Rest, [], 0, 0, 0;
    }

    /** The transfer record gets its request identifier and, if the controller grants one, a channel. */
    method TakeChannel(granted: nat)
      requires Valid() && channel >= CHANNELS && (granted < CHANNELS ==> ifc.owner[granted].None?)
      modifies this`channel, this`request, ifc.owner, ifc.ddr
      ensures Valid()
      ensures View() == old(View()).(request := RequestOf(id, read),
                                     channel := if granted < CHANNELS then granted else UNKNOWN_CHANNEL)
      ensures ifc.View() == if granted < CHANNELS then Took(old(ifc.View()), RequestOf(id, read), granted)
                            else old(ifc.View())
    {
      hide DdrOk, BusOk, RequestOf;
      request := RequestOf(id, read);
      channel := ifc.TransferStart(request, granted);
    }

    method Command()
      requires Valid()
      modifies this`woken, this`pc, this`taken
      ensures Valid() && ifc.View() == old(ifc.View())
      ensures View() == old(View()).(pc := Commanding, woken := false, taken := old(taken) + 1)
    {
      woken := false;
      pc, taken := Commanding, taken + 1;
    }

    /** `hal_data_transfer_start` after the block size is settled. */
    method HalDataTransferStart(granted: nat) returns (ok: bool)
      requires Valid() && pc == Prepared && channel >= CHANNELS
      requires granted < CHANNELS ==> ifc.owner[granted].None?
      modifies this`channel, this`request, this`woken, this`pc, this`pieces, this`taken, ifc.owner, ifc.ddr
      ensures Valid() && ok == (granted < CHANNELS)
      ensures (ifc.View(), View()) == Granted(old(ifc.View()), old(View()), id, granted)
    {
      GrantedIs(ifc.View(), View(), id, granted);
      hide DdrOk, Took, BusOk, Granted, Left, RequestOf;
      TakeChannel(granted);
      ok := channel != UNKNOWN_CHANNEL;
      if !ok {
        LeavePiece(Refused);
      } else {
        Command();
      }
    }

    /** `hal_data_transfer_stop`. */
    method HalDataTransferStop()
      requires Valid()
      modifies this`channel, this`released, this`lost, ifc.owner, ifc.ddr
      ensures Valid() && (ifc.View(), View()) == HalStop(old(ifc.View()), old(View()))
    {
      if channel >= CHANNELS {
        return;
      }
      if dataSet {
        ifc.TransferStop(request, channel);
        released := released + 1;
      } else {
        lost := lost + 1;
      }
      channel := UNKNOWN_CHANNEL;
    }

    /** `do_data_abort`. */
    method DoDataAbort()
      requires Valid()
      modifies this`channel, this`released, this`lost, this`error, ifc.owner, ifc.ddr
      ensures Valid() && (ifc.View(), View()) == Abort(old(ifc.View()), old(View()))
    {
      HalDataTransferStop();
      if dataSet {
        error := true;
      }
    }

    /** `do_data_complete`. */
    method DoDataComplete(tcZero: bool, crcBad: bool)
      requires Valid()
      modifies this`channel, this`released, this`lost, this`error, ifc.owner, ifc.ddr
      ensures Valid() && (ifc.View(), View()) == Complete(old(ifc.View()), old(View()), tcZero, crcBad)
    {
      if !dataSet || channel >= CHANNELS {
        return;
      }
      if tcZero {
        ifc.TransferStop(request, channel);
        released := released + 1;
        channel := UNKNOWN_CHANNEL;
      } else {
        HalDataTransferStop();
        error := true;
      }
      if !read {
        if crcBad {
          error := true;
        }
      }
    }

    /** `tasklet_worker`. */
    method Tasklet(tcZero: bool, crcBad: bool)
      requires Valid()
      modifies this`channel, this`released, this`lost, this`error, this`dataErr, this`woken, ifc.owner, ifc.ddr
      ensures Valid()
      ensures (ifc.View(), View()) == TaskletWorker(old(ifc.View()), old(View()), tcZero, crcBad)
    {
      if dataErr {
        DoDataAbort();
        dataErr := false;
      } else {
        DoDataComplete(tcZero, crcBad);
      }
      woken := true;
    }

    /** `rda_mmc_det_irq`. */
    method DetIrq(nowPresent: bool)
      requires Valid()
      modifies this`present, this`woken
      ensures Valid()
      ensures ifc.View() == old(ifc.View()) && View() == LocalStep(old(View()), Card(nowPresent))
    {
      if nowPresent != present {
        present := nowPresent;
        if !nowPresent && dataSet {
          woken := true;
        }
      }
    }

    /** `rda_mmc_get_cd`, as far as it says whether a card is there. */
    method GetCd(nowPresent: bool)
      requires Valid()
      modifies this`present
      ensures Valid()
      ensures ifc.View() == old(ifc.View()) && View() == LocalStep(old(View()), Poll(nowPresent))
    {
      present := nowPresent;
    }

    /** The part of `__do_data_transfer` after the wait returned. */
    method EndOfPiece()
      requires Valid() && pc.Checking?
      modifies this`channel, this`released, this`lost, this`error, this`moved, this`pc, this`pieces, ifc.owner, ifc.ddr
      ensures Valid() && (ifc.View(), View()) == Checked(old(ifc.View()), old(View()))
    {
      hide DdrOk, BusOk, Freed, HalStop, Left, Controller.Valid, Controller.View;
      ghost var outcome := Moved;
      if !present {
        error := true;
      }
      if !error {
        moved := moved + blocks;
      } else {
        outcome := if pc.expired then TimedOut else Failed;
        HalDataTransferStop();
        moved := 0;
      }
      LeavePiece(outcome);
    }

    ghost method LeavePiece(outcome: Outcome)
      requires Valid()
      modifies this`pc, this`pieces
      ensures Valid() && ifc.View() == old(ifc.View())
      ensures View() == Left(old(View()), outcome)
    {
      pc, pieces := Leaving, pieces + [Piece(outcome, blocks)];
    }
  }
}
