/** Request and reply on the modem system channel: senders with stack-allocated messages, timeouts,
    and the one worker that matches replies (drivers/rda/md_sys.c). */
module MsysSend {
  import opened Words
  import opened Ring
  import opened Frames

  const SYS_CMD_FAIL: u32 := 0x8000_0001
  const EPERM: u32 := 1
  const ENOMEM: u32 := 12
  const REPLY_FLAG: nat := 0x8000
  const MAX_TRIES: nat := 10

  /** Where a sender stands inside `rda_msys_sync_write_timeout`. */
  datatype Pc =
    | Pumping(tries: nat) // on the pending list, trying to write its packet
    | Failing             // the write failed, about to take the lock and leave the list
    | Waiting             // blocked on its completion
    | TimedOut            // the wait expired, about to take the lock and leave the list
    | Halted              // ten busy writes: BUG
    | Returned(ret: u32, woken: bool) // its stack frame is gone

  /** A message; `room` is the reply buffer it offers, `completions` counts `complete` calls. */
  datatype Mesg = Mesg(dev: u32, mesgId: u16, room: Option<nat>, pc: Pc,
                       rxLen: nat, status: u32, out: seq<byte>, completions: nat)

  /** Where the worker stands while it holds the pending lock. */
  datatype Worker =
    | Unlocked
    | Searching(reply: Frame)
    | Unlinked(reply: Frame, id: nat) // taken off the list, fields not written yet
    | Filled(reply: Frame, id: nat)   // fields written, completion not signalled yet
    | Signalled                       // completion signalled, lock still held

  /** Reply number `no` completed message `id`. */
  datatype Match = Match(no: int, reply: Frame, id: nat)

  /** A message is named by its position in `mesgs`, which grows with each send. */
  datatype State = State(mesgs: seq<Mesg>, pending: seq<nat>, worker: Worker, replies: nat, log: seq<Match>)

  datatype Event =
    | Send(dev: u32, mesgId: u16, room: Option<nat>)
    | PumpOk(id: nat) | PumpBusy(id: nat) | PumpFail(id: nat)
    | Timeout(id: nat)
    | Withdraw(id: nat) // list_del under the lock, then return
    | Wake(id: nat)     // the wait saw the completion, return
    | Lock(reply: Frame) | Search | Fill | Signal | Unlock

  const INIT := State([], [], Unlocked, 0, [])

  predicate Answers(reply: Frame, m: Mesg) {
    m.dev == reply.reqId && m.mesgId == reply.msgId % REPLY_FLAG
  }

  /** The key of a reply, spelled out: the device that sent the message, and the number of the message with
      the reply flag on top. */
  ghost predicate HasKey(reply: Frame, m: Mesg) {
    reply.reqId == m.dev && reply.msgId == m.mesgId + 0x8000
  }

  lemma AnswersIs(reply: Frame, m: Mesg)
    requires reply.msgId >= REPLY_FLAG
    ensures Answers(reply, m) <==> HasKey(reply, m)
  {
  }

  /** Position of the first pending message the reply answers. */
  function FirstMatch(mesgs: seq<Mesg>, pending: seq<nat>, reply: Frame): (k: nat)
    requires forall i :: 0 <= i < |pending| ==> pending[i] < |mesgs|
    ensures k <= |pending|
    ensures k < |pending| ==> Answers(reply, mesgs[pending[k]])
    ensures forall j :: 0 <= j < k ==> !Answers(reply, mesgs[pending[j]])
  {
    if pending == [] || Answers(reply, mesgs[pending[0]]) then 0
    else 1 + FirstMatch(mesgs, pending[1..], reply)
  }

  /** `list_del`; a message the worker already unlinked is not on the list and nothing changes. */
  function Without(pending: seq<nat>, id: nat): seq<nat> {
    if pending == [] then []
    else if pending[0] == id then pending[1..]
    else [pending[0]] + Without(pending[1..], id)
  }

  /** Whether the reply's parameters go into the sender's buffer. */
  predicate HasRoom(m: Mesg, reply: Frame) {
    m.room.Some? && m.room.value >= |reply.ext|
  }

  function StatusFor(m: Mesg, reply: Frame): u32 {
    if reply.ext != [] && !HasRoom(m, reply) then ENOMEM else reply.retVal
  }

  /** The fields the worker writes into a matched message. */
  function FilledBy(m: Mesg, reply: Frame): Mesg {
    m.(rxLen := |Encode(reply)|, status := StatusFor(m, reply),
       out := if reply.ext != [] && HasRoom(m, reply) then reply.ext else m.out)
  }

  /** What the sender finds in a message that was matched with the reply: its length on the wire,
      its status and parameters, or out of memory when the parameters do not fit its buffer. */
  ghost predicate Delivered(m: Mesg, reply: Frame) {
    var fits := m.room.Some? && |reply.ext| <= m.room.value;
    && m.rxLen == HDR_SIZE + Align4(|reply.ext|)
    && (reply.ext == [] || fits ==> m.status == reply.retVal)
    && (reply.ext != [] && fits ==> m.out == reply.ext)
    && (reply.ext != [] && !fits ==> m.status == 12)
  }

  lemma FilledIsDelivered(m: Mesg, reply: Frame)
    ensures Delivered(FilledBy(m, reply), reply)
  {
  }

  lemma FilledKeepsRest(m: Mesg, reply: Frame)
    ensures var f := FilledBy(m, reply);
            && f.dev == m.dev && f.mesgId == m.mesgId && f.room == m.room && f.pc == m.pc
            && f.completions == m.completions && (reply.ext == [] || !HasRoom(m, reply) ==> f.out == m.out)
  {
  }

  function WithPc(s: State, id: nat, pc: Pc): State
    requires id < |s.mesgs|
  {
    s.(mesgs := s.mesgs[id := s.mesgs[id].(pc := pc)])
  }

  predicate WellFormed(s: State) {
    && (forall i :: 0 <= i < |s.pending| ==> s.pending[i] < |s.mesgs|)
    && (s.worker.Unlinked? || s.worker.Filled? ==> s.worker.id < |s.mesgs|)
  }

  predicate At(s: State, id: nat, pc: Pc) {
    id < |s.mesgs| && s.mesgs[id].pc == pc
  }

  /** One step; a step that is not due changes nothing. */
  function Next(s: State, e: Event): State
    requires WellFormed(s)
  {
    match e
    case Send(dev, mesgId, room) =>
      if s.worker.Unlocked? then
        s.(mesgs := s.mesgs + [Mesg(dev, mesgId, room, Pumping(0), 0, TWO32 - 1, [], 0)],
           pending := s.pending + [|s.mesgs|])
      else s
    case PumpOk(id) =>
      if id < |s.mesgs| && s.mesgs[id].pc.Pumping? then WithPc(s, id, Waiting) else s
    case PumpBusy(id) =>
      if id < |s.mesgs| && s.mesgs[id].pc.Pumping? then
        var t := s.mesgs[id].pc.tries + 1;
        WithPc(s, id, if t == MAX_TRIES then Halted else Pumping(t))
      else s
    case PumpFail(id) =>
      if id < |s.mesgs| && s.mesgs[id].pc.Pumping? then WithPc(s, id, Failing) else s
    case Timeout(id) =>
      if At(s, id, Waiting) && s.mesgs[id].completions == 0 then WithPc(s, id, TimedOut) else s
    case Withdraw(id) =>
      if s.worker.Unlocked? && (At(s, id, Failing) || At(s, id, TimedOut)) then
        var ret := if s.mesgs[id].pc.Failing? then SYS_CMD_FAIL else EPERM;
        WithPc(s, id, Returned(ret, false)).(pending := Without(s.pending, id))
      else s
    case Wake(id) =>
      if At(s, id, Waiting) && s.mesgs[id].completions > 0 then
        WithPc(s, id, Returned(s.mesgs[id].status, true))
      else s
    case Lock(reply) =>
      if s.worker.Unlocked? && reply.msgId >= REPLY_FLAG then
        s.(worker := Searching(reply), replies := s.replies + 1)
      else s
    case Search =>
      if s.worker.Searching? then
        var k := FirstMatch(s.mesgs, s.pending, s.worker.reply);
        if k == |s.pending| then s.(worker := Signalled)
        else s.(worker := Unlinked(s.worker.reply, s.pending[k]), pending := Without(s.pending, s.pending[k]))
      else s
    case Fill =>
      if s.worker.Unlinked? then
        var id, reply := s.worker.id, s.worker.reply;
        s.(mesgs := s.mesgs[id := FilledBy(s.mesgs[id], reply)], worker := Filled(reply, id))
      else s
    case Signal =>
      if s.worker.Filled? then
        var id := s.worker.id;
        s.(mesgs := s.mesgs[id := s.mesgs[id].(completions := s.mesgs[id].completions + 1)],
           log := s.log + [Match(s.replies - 1, s.worker.reply, id)], worker := Signalled)
      else s
    case Unlock =>
      if s.worker.Signalled? then s.(worker := Unlocked) else s
  }

  // ----- What each event does to a sender -----

  /** A message joins the list as the last one, under the lock, with nothing delivered and the status no
      reply brings. */
  lemma SendIs(s: State, dev: u32, mesgId: u16, room: Option<nat>)
    requires WellFormed(s)
    ensures Next(s, Event.Send(dev, mesgId, room)) ==
            if s.worker.Unlocked? then
              s.(mesgs := s.mesgs + [Mesg(dev, mesgId, room, Pumping(0), 0, 0xFFFF_FFFF, [], 0)],
                 pending := s.pending + [|s.mesgs|])
            else s
  {
  }

  /** Where a sender goes. A write that succeeds lets it wait and one that fails makes it withdraw; the
      tenth busy one stops it for good. A wait ends by its completion or, without one, by its time. A
      withdrawal needs the lock and returns the code of its cause; the status is returned on waking. */
  lemma SenderIs(s: State, e: Event, id: nat)
    requires WellFormed(s) && id < |s.mesgs|
    ensures var m := s.mesgs[id];
            Next(s, e).mesgs[id].pc ==
            match (m.pc, e)
            case (Pumping(tries), PumpOk(i)) => if i == id then Waiting else m.pc
            case (Pumping(tries), PumpBusy(i)) =>
              if i != id then m.pc else if tries == 9 then Halted else Pumping(tries + 1)
            case (Pumping(tries), PumpFail(i)) => if i == id then Failing else m.pc
            case (Waiting, Timeout(i)) => if i == id && m.completions == 0 then TimedOut else m.pc
            case (Waiting, Wake(i)) => if i == id && m.completions > 0 then Returned(m.status, true) else m.pc
            case (Failing, Withdraw(i)) =>
              if i == id && s.worker.Unlocked? then Returned(0x8000_0001, false) else m.pc
            case (TimedOut, Withdraw(i)) => if i == id && s.worker.Unlocked? then Returned(1, false) else m.pc
            case _ => m.pc
  {
    hide FirstMatch, Without, Encode, StatusFor;
  }

  // ----- The invariant -----

  ghost predicate Holds(w: Worker, id: nat) {
    (w.Unlinked? || w.Filled?) && w.id == id
  }

  /** A message is on the list exactly while it is owed a reply and nobody has unlinked it. */
  ghost predicate MesgOk(s: State, id: nat)
    requires id < |s.mesgs|
  {
    var m := s.mesgs[id];
    && (id in s.pending <==> !m.pc.Returned? && m.completions == 0 && !Holds(s.worker, id))
    && (Holds(s.worker, id) ==> !m.pc.Returned? && m.completions == 0 && Answers(s.worker.reply, m))
    && (s.worker.Filled? && s.worker.id == id ==> Delivered(m, s.worker.reply))
    && m.completions <= 1
    && (m.pc.Returned? && m.pc.woken ==> m.completions == 1 && m.pc.ret == m.status)
    && (m.pc.Returned? && !m.pc.woken ==> m.pc.ret == SYS_CMD_FAIL || m.pc.ret == EPERM)
    && (m.completions == 1 ==> exists k :: 0 <= k < |s.log| && s.log[k].id == id)
  }

  ghost predicate Ascending(pending: seq<nat>, bound: nat) {
    && (forall i, j :: 0 <= i < j < |pending| ==> pending[i] < pending[j])
    && (forall i :: 0 <= i < |pending| ==> pending[i] < bound)
  }

  ghost predicate LogOk(s: State) {
    && (s.worker.Searching? || s.worker.Unlinked? || s.worker.Filled? ==>
          s.replies > 0 && s.worker.reply.msgId >= REPLY_FLAG)
    && (forall k :: 0 <= k < |s.log| ==> s.log[k].reply.msgId >= REPLY_FLAG)
    && var last := if s.worker.Unlocked? || s.worker.Signalled? then s.replies else s.replies - 1;
    && (forall k :: 0 <= k < |s.log| ==> s.log[k].no < last && s.log[k].id < |s.mesgs|)
    && (forall k :: 0 <= k < |s.log| ==>
          var m := s.mesgs[s.log[k].id];
          m.completions == 1 && Answers(s.log[k].reply, m) && Delivered(m, s.log[k].reply))
    && (forall k, l :: 0 <= k < l < |s.log| ==> s.log[k].no < s.log[l].no && s.log[k].id != s.log[l].id)
  }

  ghost predicate Inv(s: State) {
    && WellFormed(s) && Ascending(s.pending, |s.mesgs|) && LogOk(s)
    && forall id :: 0 <= id < |s.mesgs| ==> MesgOk(s, id)
  }

  lemma {:induction false} WithoutIs(pending: seq<nat>, id: nat, bound: nat)
    requires Ascending(pending, bound)
    ensures Ascending(Without(pending, id), bound)
    ensures forall p :: p in Without(pending, id) <==> p in pending && p != id
  {
    if pending == [] {
    } else {
      var rest := pending[1..];
      assert pending == [pending[0]] + rest;
      if pending[0] != id {
        WithoutIs(rest, id, bound);
        var w := Without(rest, id);
        forall j | 0 <= j < |w|
          ensures pending[0] < w[j]
        {
          assert w[j] in rest;
        }
      }
    }
  }

  lemma WithdrawKeepsInv(s: State, id: nat)
    requires Inv(s)
    ensures Inv(Next(s, Withdraw(id)))
  {
    var t := Next(s, Withdraw(id));
    WithoutIs(s.pending, id, |s.mesgs|);
    forall j | 0 <= j < |t.mesgs|
      ensures MesgOk(t, j)
    {
      assert MesgOk(s, j);
    }
  }

  lemma SendKeepsInv(s: State, dev: u32, mesgId: u16, room: Option<nat>)
    requires Inv(s)
    ensures Inv(Next(s, Event.Send(dev, mesgId, room)))
  {
    var t := Next(s, Event.Send(dev, mesgId, room));
    forall id | 0 <= id < |t.mesgs|
      ensures MesgOk(t, id)
    {
      if id < |s.mesgs| {
        assert MesgOk(s, id) && t.mesgs[id] == s.mesgs[id];
      }
    }
  }

  lemma SearchKeepsInv(s: State)
    requires Inv(s)
    ensures Inv(Next(s, Search))
  {
    if s.worker.Searching? {
      var t := Next(s, Search);
      var k := FirstMatch(s.mesgs, s.pending, s.worker.reply);
      if k < |s.pending| {
        WithoutIs(s.pending, s.pending[k], |s.mesgs|);
      }
      forall id | 0 <= id < |t.mesgs|
        ensures MesgOk(t, id)
      {
        assert MesgOk(s, id);
      }
    }
  }

  lemma FillKeepsInv(s: State)
    requires Inv(s)
    ensures Inv(Next(s, Fill))
  {
    if s.worker.Unlinked? {
      hide Delivered, FilledBy;
      var t := Next(s, Fill);
      assert MesgOk(s, s.worker.id);
      FilledIsDelivered(s.mesgs[s.worker.id], s.worker.reply);
      FilledKeepsRest(s.mesgs[s.worker.id], s.worker.reply);
      forall id | 0 <= id < |t.mesgs|
        ensures MesgOk(t, id)
      {
        assert MesgOk(s, id);
      }
    }
  }

  lemma SignalKeepsInv(s: State)
    requires Inv(s)
    ensures Inv(Next(s, Signal))
  {
    if s.worker.Filled? {
      var t := Next(s, Signal);
      assert MesgOk(s, s.worker.id);
      assert t.log[|s.log|].id == s.worker.id;
      forall id | 0 <= id < |t.mesgs|
        ensures MesgOk(t, id)
      {
        assert MesgOk(s, id);
        if s.mesgs[id].completions == 1 {
          var k :| 0 <= k < |s.log| && s.log[k].id == id;
          assert t.log[k].id == id;
        }
      }
    }
  }

  /** Where the sender stands plays no part in what it finds. */
  lemma DeliveredToWhom()
    ensures forall m: Mesg, reply: Frame, pc: Pc :: Delivered(m.(pc := pc), reply) <==> Delivered(m, reply)
    ensures forall m: Mesg, reply: Frame, pc: Pc :: Answers(reply, m.(pc := pc)) <==> Answers(reply, m)
  {
  }

  /** The other steps only move one sender, or take or release the lock. */
  lemma QuietKeepsInv(s: State, e: Event)
    requires Inv(s) && (e.PumpOk? || e.PumpBusy? || e.PumpFail? || e.Timeout? || e.Wake? || e.Lock? || e.Unlock?)
    ensures Inv(Next(s, e))
  {
    hide Encode, FirstMatch, Without, FilledBy, Ascending, Answers;
    DeliveredToWhom();
    hide Delivered;
    var t := Next(s, e);
    forall id | 0 <= id < |t.mesgs|
      ensures MesgOk(t, id)
    {
      assert MesgOk(s, id);
    }
  }

  lemma StepKeepsInv(s: State, e: Event)
    requires Inv(s)
    ensures Inv(Next(s, e))
  {
    match e
    case Send(dev, mesgId, room) => SendKeepsInv(s, dev, mesgId, room);
    case Withdraw(id) => WithdrawKeepsInv(s, id);
    case Search => SearchKeepsInv(s);
    case Fill => FillKeepsInv(s);
    case Signal => SignalKeepsInv(s);
    case _ => QuietKeepsInv(s, e);
  }

  // ----- Whole runs -----

  /** The states a run can reach, as a trace. */
  ghost predicate IsRun(trace: seq<State>, es: seq<Event>) {
    && |trace| == |es| + 1 && trace[0] == INIT
    && forall i :: 0 <= i < |es| ==> WellFormed(trace[i]) && trace[i + 1] == Next(trace[i], es[i])
  }

  /** Every list of events has a run, so statements about runs speak of all of them. */
  lemma {:induction false} EveryEventListRuns(es: seq<Event>) returns (trace: seq<State>)
    ensures IsRun(trace, es)
  {
    if es == [] {
      trace := [INIT];
    } else {
      var n := |es| - 1;
      var before := EveryEventListRuns(es[..n]);
      RunKeepsInv(before, es[..n], n);
      trace := before + [Next(before[n], es[n])];
    }
  }

  lemma {:induction false} RunKeepsInv(trace: seq<State>, es: seq<Event>, i: nat)
    requires IsRun(trace, es) && i < |trace|
    ensures Inv(trace[i])
  {
    if i == 0 {
    } else {
      RunKeepsInv(trace, es, i - 1);
      StepKeepsInv(trace[i - 1], es[i - 1]);
    }
  }

  /** Every write the worker makes into a message hits one whose sender has not returned, and the
      sender is off the list when it has. */
  lemma WritesHitLiveMessages(trace: seq<State>, es: seq<Event>, i: nat, id: nat)
    requires IsRun(trace, es) && i < |trace| && id < |trace[i].mesgs|
    ensures (trace[i].worker.Unlinked? || trace[i].worker.Filled?) && trace[i].worker.id == id ==>
              !trace[i].mesgs[id].pc.Returned?
    ensures trace[i].mesgs[id].pc.Returned? ==> id !in trace[i].pending
  {
    RunKeepsInv(trace, es, i);
    assert MesgOk(trace[i], id);
  }

  lemma ReturnedStays(s: State, e: Event, id: nat)
    requires Inv(s) && id < |s.mesgs| && s.mesgs[id].pc.Returned?
    ensures id < |Next(s, e).mesgs| && Next(s, e).mesgs[id] == s.mesgs[id]
  {
    hide Encode, FirstMatch, Without, FilledBy;
    assert MesgOk(s, id);
  }

  /** Once its sender returned, a message never changes again and never is on the list again. */
  lemma {:induction false} ReturnedIsFinal(trace: seq<State>, es: seq<Event>, i: nat, j: nat, id: nat)
    requires IsRun(trace, es) && i <= j < |trace|
    requires id < |trace[i].mesgs| && trace[i].mesgs[id].pc.Returned?
    ensures id < |trace[j].mesgs| && trace[j].mesgs[id] == trace[i].mesgs[id] && id !in trace[j].pending
    decreases j
  {
    hide Next;
    if i == j {
    } else {
      ReturnedIsFinal(trace, es, i, j - 1, id);
      RunKeepsInv(trace, es, j - 1);
      ReturnedStays(trace[j - 1], es[j - 1], id);
    }
    RunKeepsInv(trace, es, j);
    assert MesgOk(trace[j], id);
  }

  /** No message is completed twice, no reply completes two messages, replies complete in order, and
      every message named in the log is completed, has the key of the reply that did it, and carries what
      it brought; each completed one is named there. */
  lemma CompletedOnce(trace: seq<State>, es: seq<Event>, i: nat)
    requires IsRun(trace, es) && i < |trace|
    ensures var s := trace[i];
            && (forall id :: 0 <= id < |s.mesgs| ==> s.mesgs[id].completions <= 1)
            && (forall k, l :: 0 <= k < l < |s.log| ==> s.log[k].no < s.log[l].no && s.log[k].id != s.log[l].id)
            && (forall k :: 0 <= k < |s.log| ==>
                  && s.log[k].id < |s.mesgs| && s.mesgs[s.log[k].id].completions == 1
                  && HasKey(s.log[k].reply, s.mesgs[s.log[k].id])
                  && Delivered(s.mesgs[s.log[k].id], s.log[k].reply))
            && (forall id :: 0 <= id < |s.mesgs| && s.mesgs[id].completions == 1 ==>
                  exists k :: 0 <= k < |s.log| && s.log[k].id == id && HasKey(s.log[k].reply, s.mesgs[id]) &&
                              Delivered(s.mesgs[id], s.log[k].reply))
  {
    var s := trace[i];
    RunKeepsInv(trace, es, i);
    hide HasKey, Delivered, Answers;
    forall k | 0 <= k < |s.log|
      ensures HasKey(s.log[k].reply, s.mesgs[s.log[k].id])
    {
      AnswersIs(s.log[k].reply, s.mesgs[s.log[k].id]);
    }
    forall id | 0 <= id < |s.mesgs|
      ensures s.mesgs[id].completions <= 1
      ensures s.mesgs[id].completions == 1 ==>
                exists k :: 0 <= k < |s.log| && s.log[k].id == id && HasKey(s.log[k].reply, s.mesgs[id]) &&
                            Delivered(s.mesgs[id], s.log[k].reply)
    {
      assert MesgOk(s, id);
      if s.mesgs[id].completions == 1 {
        var k :| 0 <= k < |s.log| && s.log[k].id == id;
        assert HasKey(s.log[k].reply, s.mesgs[id]);
      }
    }
  }

  /** A message that still waits for its reply: sent, not returned, not completed, not being filled. */
  ghost predicate Owed(s: State, id: nat) {
    id < |s.mesgs| && !s.mesgs[id].pc.Returned? && s.mesgs[id].completions == 0 && !Holds(s.worker, id)
  }

  /** A search picks the oldest message owed a reply with that key, and finds one iff there is one. */
  lemma OldestIsMatched(trace: seq<State>, es: seq<Event>, i: nat)
    requires IsRun(trace, es) && i < |es| && es[i].Search? && trace[i].worker.Searching?
    ensures var s, t := trace[i], trace[i + 1];
            var reply := s.worker.reply;
            && (t.worker.Unlinked? <==> exists id: nat :: Owed(s, id) && HasKey(reply, s.mesgs[id]))
            && (t.worker.Unlinked? ==>
                  && Owed(s, t.worker.id) && HasKey(reply, s.mesgs[t.worker.id]) && t.worker.reply == reply
                  && forall id: nat :: Owed(s, id) && HasKey(reply, s.mesgs[id]) ==> t.worker.id <= id)
  {
    var s := trace[i];
    var reply := s.worker.reply;
    RunKeepsInv(trace, es, i);
    var k := FirstMatch(s.mesgs, s.pending, reply);
    forall id: nat | Owed(s, id) && HasKey(reply, s.mesgs[id])
      ensures k < |s.pending| && s.pending[k] <= id
    {
      AnswersIs(reply, s.mesgs[id]);
      assert MesgOk(s, id);
      var j :| 0 <= j < |s.pending| && s.pending[j] == id;
    }
    if k < |s.pending| {
      AnswersIs(reply, s.mesgs[s.pending[k]]);
      assert s.pending[k] in s.pending;
      assert MesgOk(s, s.pending[k]);
      assert Owed(s, s.pending[k]);
    }
  }

  /** What a sender gets back: woken, the status of its message, which carries a reply with its key; else
      the code of a refused write or of a timeout. */
  lemma ReturnValue(trace: seq<State>, es: seq<Event>, i: nat, id: nat)
    requires IsRun(trace, es) && i < |trace| && id < |trace[i].mesgs| && trace[i].mesgs[id].pc.Returned?
    ensures var s := trace[i];
            var m := s.mesgs[id];
            && (m.pc.woken ==> m.pc.ret == m.status)
            && (m.pc.woken ==> exists k :: 0 <= k < |s.log| && s.log[k].id == id &&
                                           HasKey(s.log[k].reply, m) && Delivered(m, s.log[k].reply))
            && (!m.pc.woken ==> m.pc.ret == SYS_CMD_FAIL || m.pc.ret == EPERM)
  {
    hide Delivered, Answers, HasKey;
    RunKeepsInv(trace, es, i);
    assert MesgOk(trace[i], id);
    CompletedOnce(trace, es, i);
  }

  /** A refused write and an expired wait, with what the sender then returns. */
  ghost predicate CauseOk(s: State, id: nat, es: seq<Event>)
    requires id < |s.mesgs|
  {
    var pc := s.mesgs[id].pc;
    && (pc.Failing? ==> PumpFail(id) in es)
    && (pc.TimedOut? ==> Timeout(id) in es)
    && (pc.Returned? && !pc.woken && pc.ret == SYS_CMD_FAIL ==> PumpFail(id) in es)
    && (pc.Returned? && !pc.woken && pc.ret == EPERM ==> Timeout(id) in es)
  }

  lemma CauseStep(s: State, e: Event, id: nat, es: seq<Event>)
    requires Inv(s) && id < |Next(s, e).mesgs| && (id < |s.mesgs| ==> CauseOk(s, id, es))
    ensures CauseOk(Next(s, e), id, es + [e])
  {
    hide FirstMatch, Without, FilledBy, Encode, MesgOk, LogOk, Ascending;
    if e.Fill? && s.worker.Unlinked? {
      FilledKeepsRest(s.mesgs[s.worker.id], s.worker.reply);
    }
  }

  /** A sender that returns the failure code had its write refused, and one that returns the timeout code
      saw its wait expire. */
  lemma {:induction false} ReturnCause(trace: seq<State>, es: seq<Event>, i: nat, id: nat)
    requires IsRun(trace, es) && i < |trace| && id < |trace[i].mesgs|
    ensures CauseOk(trace[i], id, es[..i])
  {
    if i == 0 {
    } else {
      hide CauseOk, Next;
      var s := trace[i - 1];
      RunKeepsInv(trace, es, i - 1);
      if id < |s.mesgs| {
        ReturnCause(trace, es, i - 1, id);
      }
      CauseStep(s, es[i - 1], id, es[..i - 1]);
      assert es[..i] == es[..i - 1] + [es[i - 1]];
    }
  }

  // ----- The worker's loop over the pending list -----

  /** The five worker steps for one reply, with nobody in between. */
  ghost function ReplySection(s: State, reply: Frame): (t: State)
    requires Inv(s)
    ensures Inv(t)
  {
    StepKeepsInv(s, Lock(reply));
    var s1 := Next(s, Lock(reply));
    StepKeepsInv(s1, Search);
    var s2 := Next(s1, Search);
    StepKeepsInv(s2, Fill);
    var s3 := Next(s2, Fill);
    StepKeepsInv(s3, Signal);
    var s4 := Next(s3, Signal);
    StepKeepsInv(s4, Unlock);
    Next(s4, Unlock)
  }

  lemma SectionIs(s: State, reply: Frame)
    requires Inv(s) && s.worker.Unlocked? && reply.msgId >= REPLY_FLAG
    ensures WellFormed(s)
    ensures var k := FirstMatch(s.mesgs, s.pending, reply);
            ReplySection(s, reply) ==
            if k == |s.pending| then s.(replies := s.replies + 1)
            else
              var id := s.pending[k];
              var m := FilledBy(s.mesgs[id], reply);
              State(s.mesgs[id := m.(completions := m.completions + 1)], Without(s.pending, id), Unlocked,
                    s.replies + 1, s.log + [Match(s.replies, reply, id)])
  {
    hide FirstMatch, FilledBy, Without, MesgOk, LogOk, Ascending;
    var k := FirstMatch(s.mesgs, s.pending, reply);
    var s1 := Next(s, Lock(reply));
    StepKeepsInv(s, Lock(reply));
    assert s1 == s.(worker := Searching(reply), replies := s.replies + 1);
    var s2 := Next(s1, Search);
    StepKeepsInv(s1, Search);
    if k == |s.pending| {
      assert s2 == s1.(worker := Signalled);
      assert Next(Next(s2, Fill), Signal) == s2;
    } else {
      assert s2.worker == Unlinked(reply, s.pending[k]);
      var s3 := Next(s2, Fill);
      StepKeepsInv(s2, Fill);
      assert s3.worker == Filled(reply, s.pending[k]);
    }
  }

  /** The writes to a matched message, one field after the other. */
  method FillIn(m0: Mesg, reply: Frame) returns (m: Mesg)
    ensures m == FilledBy(m0, reply)
  {
    m := m0.(rxLen := |Encode(reply)|, status := reply.retVal);
    if reply.ext != [] {
      if m.room.Some? && m.room.value >= |reply.ext| {
        m := m.(out := reply.ext);
      } else {
        m := m.(status := ENOMEM);
      }
    }
  }

  lemma InvShape(s: State)
    requires Inv(s)
    ensures forall i :: 0 <= i < |s.pending| ==> s.pending[i] < |s.mesgs|
    ensures forall i, j :: 0 <= i < j < |s.pending| ==> s.pending[i] != s.pending[j]
  {
  }

  lemma {:induction false} WithoutAt(pending: seq<nat>, k: nat)
    requires k < |pending| && forall j :: 0 <= j < k ==> pending[j] != pending[k]
    ensures Without(pending, pending[k]) == pending[..k] + pending[k + 1..]
  {
    if k == 0 {
    } else {
      WithoutAt(pending[1..], k - 1);
      assert pending[..k] == [pending[0]] + pending[1..][..k - 1];
    }
  }

  /** How often a message was completed plays no part in what it carries. */
  lemma CountsApart(m: Mesg, reply: Frame)
    ensures Delivered(m.(completions := m.completions + 1), reply) <==> Delivered(m, reply)
  {
  }

  /** From `s` to `t` the reply completes the message at place `at` of the list, the first one with its
      key, which leaves the list with what the reply brought; or, at the end of the list, nothing. */
  ghost predicate Completes(s: State, reply: Frame, at: nat, t: State) {
    && WellFormed(s) && at <= |s.pending| && |t.mesgs| == |s.mesgs|
    && (forall j :: 0 <= j < at ==> !HasKey(reply, s.mesgs[s.pending[j]]))
    && (at == |s.pending| ==> t.pending == s.pending && t.mesgs == s.mesgs && t.log == s.log)
    && (at < |s.pending| ==>
          var id := s.pending[at];
          && HasKey(reply, s.mesgs[id]) && t.pending == s.pending[..at] + s.pending[at + 1..]
          && Delivered(t.mesgs[id], reply) && t.mesgs[id].completions == s.mesgs[id].completions + 1
          && t.log == s.log + [Match(s.replies, reply, id)]
          && forall j :: 0 <= j < |t.mesgs| && j != id ==> t.mesgs[j] == s.mesgs[j])
  }

  lemma SectionCompletes(s: State, reply: Frame)
    requires Inv(s) && s.worker.Unlocked? && reply.msgId >= REPLY_FLAG
    ensures Completes(s, reply, FirstMatch(s.mesgs, s.pending, reply), ReplySection(s, reply))
  {
    SectionIs(s, reply);
    InvShape(s);
    var k := FirstMatch(s.mesgs, s.pending, reply);
    hide Inv, ReplySection, FilledBy, Without, Encode, Answers, HasKey, Delivered;
    forall j | 0 <= j < |s.pending|
      ensures Answers(reply, s.mesgs[s.pending[j]]) <==> HasKey(reply, s.mesgs[s.pending[j]])
    {
      AnswersIs(reply, s.mesgs[s.pending[j]]);
    }
    hide FirstMatch;
    if k < |s.pending| {
      var m := s.mesgs[s.pending[k]];
      WithoutAt(s.pending, k);
      FilledIsDelivered(m, reply);
      FilledKeepsRest(m, reply);
      CountsApart(FilledBy(m, reply), reply);
    }
  }

  /** The pending list and the messages on it, as the worker finds them under the lock. */
  class PendingList {
    var mesgs: seq<Mesg>
    var pending: seq<nat>
    ghost var replies: nat
    ghost var log: seq<Match>

    ghost function View(): State
      reads this
    {
      State(mesgs, pending, Unlocked, replies, log)
    }

    /** The reply branch of `rda_msys_rx_work`: find the oldest matching message, unlink it, fill it
        in and complete it. `at` is the place of the message on the list. */
    method ProcessReply(reply: Frame) returns (msgDone: bool, ghost at: nat)
      requires Inv(View()) && reply.msgId >= REPLY_FLAG
      modifies this
      ensures Inv(View()) && View() == ReplySection(old(View()), reply)
      ensures Completes(old(View()), reply, at, View()) && (msgDone <==> at < |old(pending)|)
    {
      hide Inv, ReplySection, FirstMatch, FilledBy, Without, Encode, Answers, Completes;
      ghost var before := View();
      SectionIs(before, reply);
      SectionCompletes(before, reply);
      msgDone := false;
      var k := 0;
      replies := replies + 1;
      while k < |pending|
        invariant k <= |pending| && View() == before.(replies := before.replies + 1)
        invariant forall j :: 0 <= j < k ==> !Answers(reply, mesgs[pending[j]])
      {
        var id := pending[k];
        if Answers(reply, mesgs[id]) {
          FirstMatchIs(mesgs, pending, reply, k);
          pending := Without(pending, id);
          var m := FillIn(mesgs[id], reply);
          mesgs := mesgs[id := m.(completions := m.completions + 1)];
          log := log + [Match(replies - 1, reply, id)];
          return true, k;
        }
        k := k + 1;
      }
      FirstMatchIs(mesgs, pending, reply, k);
      at := k;
    }
  }

  lemma {:induction false} FirstMatchIs(mesgs: seq<Mesg>, pending: seq<nat>, reply: Frame, k: nat)
    requires forall i :: 0 <= i < |pending| ==> pending[i] < |mesgs|
    requires k <= |pending| && forall j :: 0 <= j < k ==> !Answers(reply, mesgs[pending[j]])
    requires k < |pending| ==> Answers(reply, mesgs[pending[k]])
    ensures FirstMatch(mesgs, pending, reply) == k
  {
  }
}
