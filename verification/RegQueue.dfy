/** The queue of regulatory hints: its work item, the one outstanding request, and restorations,
    with hints arriving at any moment (net/wireless/reg.c). */
module RegQueue {
  import opened Words
  import opened RegRules
  import opened RegBandwidth
  import opened RegHints

  /** What the queue's code changes; `work` says that the work item is scheduled. */
  datatype Hints = Hints(reg: Reg, queue: seq<Request>, work: bool)

  // ----- Whole operations, nobody interfering -----

  /** `reg_set_request_processed`. */
  function Settled(h: Hints): Hints {
    h.(reg := h.reg.(last := h.reg.last.(processed := true)), work := h.work || h.queue != [])
  }

  /** `queue_regulatory_request`. */
  function Queued(h: Hints, q: Request): Hints {
    h.(queue := h.queue + [q.(alpha2 := Upper(q.alpha2))], work := true)
  }

  /** `reg_process_hint`. */
  function Judged(h: Hints, q: Request, db: bool, baseDevices: nat): Hints {
    var (r, settles) := ProcessHint(h.reg, q, db, baseDevices);
    if settles then Settled(h.(reg := r)) else h.(reg := r)
  }

  /** `reg_process_pending_hints`. */
  function Todo(h: Hints, db: bool, baseDevices: nat): Hints {
    if !h.reg.last.processed || h.queue == [] then h
    else
      var j := Judged(h.(queue := h.queue[1..]), h.queue[0], db, baseDevices);
      j.(work := j.work || (j.queue != [] && j.reg.last.processed))
  }

  /** The hints an uncached restoration puts before everything that was queued. */
  function RestoringHints(a: Alpha2): seq<Request> {
    [CoreHint(WORLD_ALPHA2)] + if IsAnAlpha2(a) then [UserHint(a)] else []
  }

  /** `restore_regulatory_settings`, its uncached branch. */
  function RestoredHints(h: Hints, param: Alpha2, resetUser: bool): Hints {
    Hints(Restored(h.reg, resetUser), RestoringHints(RestoreAlpha2(h.reg, param, resetUser)) + h.queue, true)
  }

  /** `set_regdom`. */
  function Answered(h: Hints, rd: Regdom, param: Alpha2): (Hints, int) {
    if !Awaited(h.reg, rd.alpha2) then (h, EINVAL)
    else
      var (r, code) := Install(h.reg, rd);
      (if code == 0 || code == EALREADY then Settled(h.(reg := r))
       else RestoredHints(h.(reg := r), param, h.reg.last.initiator.User?), code)
  }

  /** A hint is queued behind the others with its country in capitals, and the work is scheduled. */
  lemma QueuedIs(h: Hints, q: Request)
    ensures Queued(h, q) ==
            Hints(h.reg, h.queue + [q.(alpha2 := Alpha2(ToUpper(q.alpha2.a), ToUpper(q.alpha2.b)))], true)
  {
  }

  /** An answer nobody waits for is refused and changes nothing. */
  lemma UnexpectedAnswer(h: Hints, rd: Regdom, param: Alpha2)
    requires h.reg.last.processed || h.reg.last.alpha2 != rd.alpha2
    ensures Answered(h, rd, param) == (h, -22)
  {
  }

  /** What a restoration does, in values: the built-in world in force under the static request; a reset
      forgets a user's country that is the world or two letters, and nothing else does; the new hints are
      the core's for the world and, first come of the user's country, if kept, and the module parameter,
      a user's for two letters, before all that was queued. */
  lemma RestorationIs(h: Hints, param: Alpha2, resetUser: bool)
    ensures var user, t := h.reg.userAlpha2, RestoredHints(h, param, resetUser);
            var letters := (a: Alpha2) => IsAlpha(a.a) && IsAlpha(a.b);
            var saved := user == Alpha2('0', '0') || letters(user);
            var asked := if saved && !resetUser then user else param;
            && t.reg == h.reg.(current := WORLD, world := WORLD,
                               last := Request(None, Core, Alpha2('0', '0'), None, false, false, true),
                               userAlpha2 := if saved && resetUser then Alpha2('9', '7') else user)
            && t.work
            && t.queue ==
               [Request(None, Core, Alpha2('0', '0'), None, false, false, false)]
               + (if letters(asked) then
                    [Request(None, User, Upper(asked), None, false, false, false)] else [])
               + h.queue
            && (forall cached: bool ::
                  Uncached(h.reg, param, resetUser, cached) <==>
                  !cached || (letters(asked) && h.reg.userRegdom.None?))
  {
    assert !IsAnAlpha2(WORLD_ALPHA2) && !IsAnAlpha2(NO_ALPHA2);
    assert Upper(WORLD_ALPHA2) == WORLD_ALPHA2;
  }

  /** The country of the last accepted user hint comes back with a restoration that keeps the user's
      setting, right after the core's own hint; one that resets it forgets it, and then only the
      module parameter, if it names a country, is asked for again. */
  lemma UserCountryIsRestored(h: Hints, q: Request, db: bool, baseDevices: nat, param: Alpha2)
    requires q.initiator.User? && q.alpha2 == Upper(q.alpha2) && IsAnAlpha2(q.alpha2)
    requires ProcessHint(h.reg, q, db, baseDevices).0.last != h.reg.last
    ensures var h1 := h.(reg := ProcessHint(h.reg, q, db, baseDevices).0);
            var keep, reset := RestoredHints(h1, param, false), RestoredHints(h1, param, true);
            && keep.queue == [CoreHint(WORLD_ALPHA2), UserHint(q.alpha2)] + h.queue && keep.reg.userAlpha2 == q.alpha2
            && keep.queue[1].alpha2 == q.alpha2
            && reset.queue == [CoreHint(WORLD_ALPHA2)] + (if IsAnAlpha2(param) then [UserHint(param)] else []) + h.queue
            && reset.reg.userAlpha2 == NO_ALPHA2
            && keep.reg.current == reset.reg.current == WORLD && keep.reg.last == reset.reg.last == CORE_WORLD
  {
    assert !IsAnAlpha2(WORLD_ALPHA2) && !IsAnAlpha2(NO_ALPHA2);
  }

  // ----- The machine -----

  /** Who holds the RTNL and what that thread does next. */
  datatype Pc =
    | Unlocked
    | Pending                // the worker, at the start of reg_process_pending_hints
    | Popped(q: Request)
    | Marked(inTodo: bool)   // processed just set, the list not looked at yet
    | Looked(inTodo: bool, more: bool)
    | LastLook               // the end of reg_process_pending_hints
    | Emptied(a: Alpha2)     // world domain back, hints not stashed yet
    | Stashed(a: Alpha2)
    | CoreAdded(a: Alpha2)
    | CoreKicked(a: Alpha2)
    | UserAdded
    | SpliceDue
    | Spliced

  /** `waiting`: the worker runs but has no RTNL yet. `half`: hints added whose work item is not
      scheduled yet. `popped` are the hints taken so far, `logged` counts the tagged ones added. */
  datatype Hub = Hub(h: Hints, param: Alpha2, stash: seq<Request>, pc: Pc, waiting: bool, half: nat,
                     popped: seq<Request>, logged: nat)

  /** Everything that is atomic: sections under the list's spinlock, scheduling, and what only the
      RTNL protects. */
  datatype Event =
    | Hint(q: Request) | Kick                              // queue_regulatory_request, from anywhere
    | Start | Lock | Pop | Judge(db: bool, baseDevices: nat) | FinalLook // reg_todo
    | Look | Schedule                                      // reg_set_request_processed
    | Answer(rd: Regdom)                                   // set_regdom
    | Restore(resetUser: bool, cached: bool)
    | Stash | AddCore | KickCore | AddUser | KickUser | Splice | KickLast
    | Devices(wiphys: map<nat, Wiphy>)

  predicate InTodo(pc: Pc) {
    pc.Pending? || pc.Popped? || pc.LastLook? || (pc.Marked? && pc.inTodo) || (pc.Looked? && pc.inTodo)
  }

  /** What `Hint(q)` adds; only drivers and country elements name a device. */
  function Logged(q: Request, n: nat): Request {
    q.(tag := Some(n), alpha2 := Upper(q.alpha2), intersect := false, processed := false,
       wiphy := if q.initiator.Driver? || q.initiator.CountryIe? then q.wiphy else None)
  }

  function Enqueued(m: Hub, q: Request): Hub {
    m.(h := m.h.(queue := m.h.queue + [q]))
  }

  function Kicked(m: Hub): Hub {
    m.(h := m.h.(work := true))
  }

  /** The RTNL holder's steps of `reg_todo` and `reg_set_request_processed`. */
  function TodoStep(m: Hub, e: Event): Hub {
    match (m.pc, e)
    case (Pending, Pop) =>
      if !m.h.reg.last.processed || m.h.queue == [] then m.(pc := Unlocked)
      else m.(h := m.h.(queue := m.h.queue[1..]), pc := Popped(m.h.queue[0]), popped := m.popped + [m.h.queue[0]])
    case (Popped(q), Judge(db, baseDevices)) =>
      var (r, settles) := ProcessHint(m.h.reg, q, db, baseDevices);
      if settles then m.(h := m.h.(reg := r.(last := r.last.(processed := true))), pc := Marked(true))
      else m.(h := m.h.(reg := r), pc := LastLook)
    case (Marked(t), Look) => m.(pc := Looked(t, m.h.queue != []))
    case (Looked(t, more), Schedule) =>
      m.(h := m.h.(work := m.h.work || more), pc := if t then LastLook else Unlocked)
    case (LastLook, FinalLook) =>
      m.(h := m.h.(work := m.h.work || (m.h.queue != [] && m.h.reg.last.processed)), pc := Unlocked)
    case _ => m
  }

  /** The steps of a restoration. */
  function RestoreStep(m: Hub, e: Event): Hub {
    match (m.pc, e)
    case (Emptied(a), Stash) => m.(h := m.h.(queue := []), stash := m.stash + m.h.queue, pc := Stashed(a))
    case (Stashed(a), AddCore) => Enqueued(m, CoreHint(WORLD_ALPHA2)).(pc := CoreAdded(a))
    case (CoreAdded(a), KickCore) => Kicked(m).(pc := CoreKicked(a))
    case (CoreKicked(a), AddUser) =>
      if IsAnAlpha2(a) then Enqueued(m, UserHint(a)).(pc := UserAdded) else m.(pc := SpliceDue)
    case (UserAdded, KickUser) => Kicked(m).(pc := SpliceDue)
    case (SpliceDue, Splice) => m.(h := m.h.(queue := m.h.queue + m.stash), stash := [], pc := Spliced)
    case (Spliced, KickLast) => Kicked(m).(pc := Unlocked)
    case _ => m
  }

  function Emptying(m: Hub, resetUser: bool): Hub {
    m.(h := m.h.(reg := Restored(m.h.reg, resetUser)), pc := Emptied(RestoreAlpha2(m.h.reg, m.param, resetUser)))
  }

  function AnswerStep(m: Hub, rd: Regdom): Hub {
    if !m.pc.Unlocked? || !Awaited(m.h.reg, rd.alpha2) then m
    else
      var (r, code) := Install(m.h.reg, rd);
      if code == 0 || code == EALREADY then
        m.(h := m.h.(reg := r.(last := r.last.(processed := true))), pc := Marked(false))
      else Emptying(m.(h := m.h.(reg := r)), m.h.reg.last.initiator.User?)
  }

  /** One step; a step that is not due changes nothing. */
  function Next(m: Hub, e: Event): Hub {
    match e
    case Hint(q) => Enqueued(m, Logged(q, m.logged)).(half := m.half + 1, logged := m.logged + 1)
    case Kick => if m.half == 0 then m else Kicked(m).(half := m.half - 1)
    case Start =>
      if !m.h.work || m.waiting || InTodo(m.pc) then m else m.(h := m.h.(work := false), waiting := true)
    case Lock => if m.waiting && m.pc.Unlocked? then m.(waiting := false, pc := Pending) else m
    case Answer(rd) => AnswerStep(m, rd)
    case Restore(resetUser, cached) =>
      if m.pc.Unlocked? && Uncached(m.h.reg, m.param, resetUser, cached) then Emptying(m, resetUser) else m
    case Devices(wiphys) => if m.pc.Unlocked? then m.(h := m.h.(reg := WithDevices(m.h.reg, wiphys))) else m
    case Pop | Judge(_, _) | Look | Schedule | FinalLook => TodoStep(m, e)
    case _ => RestoreStep(m, e)
  }

  function Run(m: Hub, es: seq<Event>): Hub {
    if es == [] then m else Next(Run(m, es[..|es| - 1]), es[|es| - 1])
  }

  /** Nothing queued, nothing outstanding. */
  predicate Fresh(m: Hub) {
    m.pc.Unlocked? && m.h.queue == [] && m.stash == [] && m.popped == [] && m.logged == 0 && m.h.reg.last.processed
  }

  /** What an outside hint looks like on the list: numbered, in capitals, neither processed nor an
      intersection, with a device only from drivers and country elements. */
  lemma LoggedIs(m: Hub, q: Request)
    ensures var device := if q.initiator.Driver? || q.initiator.CountryIe? then q.wiphy else None;
            var country := Alpha2(ToUpper(q.alpha2.a), ToUpper(q.alpha2.b));
            Next(m, Hint(q)) ==
            m.(h := m.h.(queue := m.h.queue +
                                  [Request(Some(m.logged), q.initiator, country, device, q.cellBase, false, false)]),
               half := m.half + 1, logged := m.logged + 1)
  {
  }

  /** There is one worker: it enters its function by taking the RTNL, stays inside until it finds nothing to
      do or takes its last look, and cannot be started again meanwhile. */
  lemma OneWorker(m: Hub, e: Event)
    ensures m.waiting && m.pc == Unlocked ==> Next(m, Lock).pc == Pending
    ensures InTodo(m.pc) ==> Next(m, Start) == m
    ensures InTodo(m.pc) && !InTodo(Next(m, e).pc) ==>
              e == FinalLook || (e == Pop && (m.h.queue == [] || !m.h.reg.last.processed))
    ensures m.pc == Pending || m.pc.Popped? || m.pc == LastLook ==> InTodo(m.pc)
  {
    hide ProcessHint, Install, Restored, RestoreAlpha2, Uncached, Logged, CoreHint, UserHint, IsAnAlpha2, Awaited;
  }

  // ----- No wakeup is lost -----

  predicate Awake(m: Hub) {
    m.h.work || m.waiting || m.half > 0
  }

  ghost predicate Inv(m: Hub) {
    && (m.pc.Unlocked? && m.h.queue != [] && m.h.reg.last.processed ==> Awake(m))
    && (m.pc.Popped? || m.pc.Marked? || m.pc.Looked? ==> m.h.reg.last.processed)
    && (m.pc.Looked? && !m.pc.more && m.h.queue != [] ==> Awake(m))
  }

  lemma TodoStepKeepsInv(m: Hub, e: Event)
    requires Inv(m)
    ensures Inv(TodoStep(m, e))
  {
    hide ProcessHint;
  }

  lemma RestoreStepKeepsInv(m: Hub, e: Event)
    requires Inv(m)
    ensures Inv(RestoreStep(m, e))
  {
    hide CoreHint, UserHint, IsAnAlpha2;
  }

  lemma StepKeepsInv(m: Hub, e: Event)
    requires Inv(m)
    ensures Inv(Next(m, e))
  {
    hide TodoStep, RestoreStep, Install, Restored, RestoreAlpha2, Uncached, Awaited, Logged;
    TodoStepKeepsInv(m, e);
    RestoreStepKeepsInv(m, e);
  }

  lemma {:induction false} RunKeepsInv(m: Hub, es: seq<Event>)
    requires Inv(m)
    ensures Inv(Run(m, es))
  {
    if es == [] {
    } else {
      RunKeepsInv(m, es[..|es| - 1]);
      StepKeepsInv(Run(m, es[..|es| - 1]), es[|es| - 1]);
    }
  }

  /** Over every interleaving, between RTNL sections: if hints are queued and the last request is
      processed, the work item is scheduled, or runs and waits for the RTNL, or the thread that just
      added a hint is about to schedule it. */
  lemma NoLostWakeup(m: Hub, es: seq<Event>)
    requires Fresh(m)
    ensures var t := Run(m, es);
            t.pc.Unlocked? && t.h.queue != [] && t.h.reg.last.processed ==> t.h.work || t.waiting || t.half > 0
  {
    RunKeepsInv(m, es);
  }

  /** In such a state no more than the worker's own steps are needed to take the next hint. */
  lemma AwakeTakesNext(m: Hub)
    requires Inv(m) && m.pc.Unlocked? && m.h.queue != [] && m.h.reg.last.processed
    ensures Next(Next(Next(Next(m, Kick), Start), Lock), Pop).popped == m.popped + [m.h.queue[0]]
  {
    hide ProcessHint, Install;
    var m1 := Next(m, Kick);
    assert m1.h.queue == m.h.queue && m1.popped == m.popped && m1.pc == m.pc && m1.h.reg == m.h.reg;
    var m2 := Next(m1, Start);
    assert m2.waiting && m2.h.queue == m.h.queue && m2.popped == m.popped && m2.pc == m.pc;
    var m3 := Next(m2, Lock);
    assert m3.pc.Pending? && m3.h.queue == m.h.queue;
  }

  // ----- One outstanding request -----

  /** An accepted request stays the last one until it is settled or a restoration drops it (it may lose
      its device on the way); no hint leaves the queue before that, and the hint that leaves is the
      head. */
  lemma OutstandingStays(m: Hub, e: Event)
    requires Inv(m)
    ensures var t := Next(m, e);
            && (!m.h.reg.last.processed ==>
                  (t.h.reg.last in {m.h.reg.last, m.h.reg.last.(processed := true), CORE_WORLD} ||
                   (e.Devices? && t.h.reg.last == m.h.reg.last.(wiphy := None))) && t.popped == m.popped)
            && (t.popped != m.popped ==> m.h.queue != [] && t.popped == m.popped + [m.h.queue[0]] &&
                                         t.h.queue == m.h.queue[1..])
  {
    hide ProcessHint, Restored, IsValidRd, RegdomIntersection, RestoreAlpha2, Uncached, Awaited;
    RestoredLast(m.h.reg);
    if e.Answer? {
      InstallKeepsLast(m.h.reg, e.rd);
      RestoredLast(Install(m.h.reg, e.rd).0);
    }
    hide Install;
  }

  lemma RestoredLast(r: Reg)
    ensures forall resetUser :: Restored(r, resetUser).last == CORE_WORLD
  {
  }

  lemma InstallKeepsLast(r: Reg, rd: Regdom)
    ensures Install(r, rd).0.last == r.last && Install(r, rd).0.wiphys.Keys == r.wiphys.Keys
  {
    hide IsValidRd, RegdomIntersection;
  }

  /** Every answer to the outstanding request settles it, one way or the other. */
  lemma AnswerSettles(m: Hub, rd: Regdom)
    requires m.pc.Unlocked? && Awaited(m.h.reg, rd.alpha2)
    ensures Next(m, Answer(rd)).h.reg.last.processed && !Next(m, Answer(rd)).pc.Unlocked?
  {
    hide Install, Restored, RestoreAlpha2;
    RestoredLast(Install(m.h.reg, rd).0);
  }

  // ----- A base station's country -----

  /** What users and access points may not touch while a base station's request is the last one. */
  function Standing(m: Hub): (Request, Regdom, Regdom, Alpha2) {
    (m.h.reg.last, m.h.reg.current, m.h.reg.world, m.h.reg.userAlpha2)
  }

  predicate BaseStationRules(m: Hub) {
    CellBase(m.h.reg.last) && m.h.reg.last.processed && m.h.reg.last.wiphy.None?
  }

  /** What ends it: a core hint or the hint of a present device, another base station's hint that
      names a change, each with a database to ask; and a restoration. */
  predicate EndsBaseStation(m: Hub, e: Event) {
    match (m.pc, e)
    case (Popped(q), Judge(db, baseDevices)) =>
      db && (match q.initiator
             case Core => true
             case User => q.cellBase && baseDevices > 0 && RegdomChanges(m.h.reg, q.alpha2)
             case Driver => WiphyKnown(m.h.reg, q.wiphy)
             case CountryIe => false)
    case (Unlocked, Restore(resetUser, cached)) => Uncached(m.h.reg, m.param, resetUser, cached)
    case _ => false
  }

  lemma BaseStationStep(m: Hub, e: Event)
    requires BaseStationRules(m)
    ensures Standing(Next(m, e)) == Standing(m) <==> !EndsBaseStation(m, e)
  {
    hide Install, IsAnAlpha2, RestoreAlpha2, Uncached, IsUserRegdomSaved;
  }

  ghost predicate EndedBaseStation(m: Hub, es: seq<Event>) {
    es != [] && (EndedBaseStation(m, es[..|es| - 1]) || EndsBaseStation(Run(m, es[..|es| - 1]), es[|es| - 1]))
  }

  ghost predicate StoodThroughout(m: Hub, es: seq<Event>) {
    es != [] ==> StoodThroughout(m, es[..|es| - 1]) && Standing(Run(m, es)) == Standing(m)
  }

  /** Over every run from a settled base station's request: the last request, the domain, the world
      domain and the user's country all stand, at every point of the run, exactly as long as none of
      the ending events occurs. No number of other users' hints and country elements moves them. */
  lemma {:induction false} BaseStationStands(m: Hub, es: seq<Event>)
    requires BaseStationRules(m)
    ensures StoodThroughout(m, es) <==> !EndedBaseStation(m, es)
  {
    hide Next;
    if es == [] {
    } else {
      var es', e := es[..|es| - 1], es[|es| - 1];
      BaseStationStands(m, es');
      if StoodThroughout(m, es') {
        StoodAtEnd(m, es');
        BaseStationStep(Run(m, es'), e);
      }
    }
  }

  lemma StoodAtEnd(m: Hub, es: seq<Event>)
    requires StoodThroughout(m, es)
    ensures Standing(Run(m, es)) == Standing(m)
  {
  }

  // ----- A country element's domain -----

  /** An element is in force, or an intersection with its domain that a user asked for. */
  predicate HoldsUsers(last: Request) {
    || (last.initiator.CountryIe? && last.processed)
    || (last.initiator.User? && !last.cellBase && last.intersect)
  }

  /** What ends it: any other hint than a plain user's, an answer that cannot be installed, and a
      restoration. */
  predicate EndsElement(m: Hub, e: Event) {
    match (m.pc, e)
    case (Popped(q), Judge(_, _)) => !q.initiator.User? || q.cellBase
    case (Unlocked, Answer(rd)) =>
      Awaited(m.h.reg, rd.alpha2) && Install(m.h.reg, rd).1 != 0 && Install(m.h.reg, rd).1 != EALREADY
    case (Unlocked, Restore(resetUser, cached)) => Uncached(m.h.reg, m.param, resetUser, cached)
    case _ => false
  }

  /** Nothing else does: only a hint of another kind that is judged, a restoration between sections, and an
      answer to the last request that is neither installed nor agreed. */
  lemma OnlyTheseEndElement(m: Hub, e: Event)
    requires EndsElement(m, e)
    ensures
      || (e.Judge? && m.pc.Popped? && (m.pc.q.cellBase || !m.pc.q.initiator.User?))
      || (e.Restore? && m.pc.Unlocked?)
      || (e.Answer? && m.pc.Unlocked? && !m.h.reg.last.processed && m.h.reg.last.alpha2 == e.rd.alpha2 &&
          Install(m.h.reg, e.rd).1 !in {0, -114})
  {
    hide Install;
  }

  ghost predicate EndedElement(m: Hub, es: seq<Event>) {
    es != [] && (EndedElement(m, es[..|es| - 1]) || EndsElement(Run(m, es[..|es| - 1]), es[|es| - 1]))
  }

  lemma AnswerHoldsUsers(r: Reg, rd: Regdom, d: Regdom)
    requires HoldsUsers(r.last) && !r.last.processed && Sealed(d) && StaysIn(r.current, d)
    requires Install(r, rd).1 == 0 || Install(r, rd).1 == EALREADY
    ensures Install(r, rd).0.last == r.last && StaysIn(Install(r, rd).0.current, d)
  {
    hide RegdomIntersection, IsValidRd, Sealed, StaysIn, AllRestrict;
    if Install(r, rd).1 == 0 {
      var out := RegdomIntersection(rd, r.current);
      assert out == Some(Install(r, rd).0.current);
      IntersectionRestricts(rd, r.current);
      StepStaysIn(out.value, r.current, d);
    }
  }

  lemma ElementStep(m: Hub, e: Event, d: Regdom)
    requires HoldsUsers(m.h.reg.last) && Sealed(d) && StaysIn(m.h.reg.current, d) && !EndsElement(m, e)
    ensures HoldsUsers(Next(m, e).h.reg.last) && StaysIn(Next(m, e).h.reg.current, d)
  {
    hide Sealed, StaysIn, IsAnAlpha2, RestoreAlpha2, Uncached, IsUserRegdomSaved;
    if e.Judge? && m.pc.Popped? {
      UserHintIs(m.h.reg, m.pc.q, e.db, e.baseDevices);
      hide ProcessHint, Install;
    } else {
      if e.Answer? && m.pc.Unlocked? && Awaited(m.h.reg, e.rd.alpha2) {
        AnswerHoldsUsers(m.h.reg, e.rd, d);
      }
      hide ProcessHint, Install;
    }
  }

  /** From a settled country element on: whatever plain users ask for and whatever is installed for them,
      over every run in which none of the ending events occurs, no band inside one rule is granted that
      the element's domain, if sealed, does not grant. */
  lemma {:induction false} ElementBoundsUsers(m: Hub, es: seq<Event>, d: Regdom)
    requires HoldsUsers(m.h.reg.last) && Sealed(d) && StaysIn(m.h.reg.current, d) && !EndedElement(m, es)
    ensures HoldsUsers(Run(m, es).h.reg.last) && StaysIn(Run(m, es).h.reg.current, d)
    ensures NoWider(Run(m, es).h.reg.current, d)
  {
    hide Next, Sealed, AutoPart, NoWider, HoldsUsers;
    if es == [] {
    } else {
      ElementBoundsUsers(m, es[..|es| - 1], d);
      ElementStep(Run(m, es[..|es| - 1]), es[|es| - 1], d);
    }
  }

  /** In particular from the element's own domain. */
  lemma ElementIsNotWidened(m: Hub, es: seq<Event>)
    requires m.h.reg.last.initiator.CountryIe? && m.h.reg.last.processed && Sealed(m.h.reg.current)
    requires !EndedElement(m, es)
    ensures NoWider(Run(m, es).h.reg.current, m.h.reg.current)
  {
    hide Run, EndedElement, Sealed, NoWider;
    StaysInItself(m.h.reg.current);
    ElementBoundsUsers(m, es, m.h.reg.current);
  }

  // ----- What came from outside is neither lost nor invented, and in which order it leaves -----

  /** The tags of the hints that came from outside, in list order. */
  function Tags(s: seq<Request>): seq<nat> {
    if s == [] then []
    else Tags(s[..|s| - 1]) + match s[|s| - 1].tag { case Some(n) => [n] case None => [] }
  }

  lemma {:induction false} TagsAppend(a: seq<Request>, b: seq<Request>)
    ensures Tags(a + b) == Tags(a) + Tags(b)
  {
    if b == [] {
      assert a + b == a;
    } else {
      var n := |b| - 1;
      TagsAppend(a, b[..n]);
      assert (a + b)[..|a + b| - 1] == a + b[..n];
    }
  }

  lemma TagsOne(q: Request)
    ensures Tags([q]) == match q.tag { case Some(n) => [n] case None => [] }
  {
    assert [q][..0] == [];
    assert Tags([]) == [];
  }

  function UpTo(n: nat): (s: seq<nat>)
    ensures |s| == n && forall i :: 0 <= i < n ==> s[i] == i
  {
    seq(n, i requires 0 <= i => i)
  }

  /** The tagged hints taken, stashed and waiting, and how many there have been. */
  datatype Tray = Tray(out: seq<nat>, aside: seq<nat>, wait: seq<nat>, logged: nat)

  function TrayOf(m: Hub): Tray {
    Tray(Tags(m.popped), Tags(m.stash), Tags(m.h.queue), m.logged)
  }

  /** The order in which the hints would leave if nothing intervened. */
  function Order(t: Tray): seq<nat> {
    t.out + t.aside + t.wait
  }

  /** The step puts stashed hints behind younger ones. */
  predicate Overtakes(m: Hub, e: Event) {
    e.Splice? && m.pc.SpliceDue? && Tags(m.stash) != [] && Tags(m.h.queue) != []
  }

  /** The stash is empty except inside a restoration. */
  predicate StashOk(m: Hub) {
    m.stash != [] ==> m.pc.Stashed? || m.pc.CoreAdded? || m.pc.CoreKicked? || m.pc.UserAdded? || m.pc.SpliceDue?
  }

  lemma StepKeepsStashOk(m: Hub, e: Event)
    requires StashOk(m)
    ensures StashOk(Next(m, e))
  {
    hide ProcessHint, Install, Restored, RestoreAlpha2, Uncached, Awaited, CoreHint, UserHint, IsAnAlpha2, Logged;
  }

  /** What a step does to the three lists. */
  datatype Move = Same | Enter(q: Request) | Leave | Away | Back

  function MoveOf(m: Hub, e: Event): Move {
    match e
    case Hint(q) => Enter(Logged(q, m.logged))
    case Pop => if m.pc.Pending? && m.h.reg.last.processed && m.h.queue != [] then Leave else Same
    case Stash => if m.pc.Emptied? then Away else Same
    case AddCore => if m.pc.Stashed? then Enter(CoreHint(WORLD_ALPHA2)) else Same
    case AddUser => if m.pc.CoreKicked? && IsAnAlpha2(m.pc.a) then Enter(UserHint(m.pc.a)) else Same
    case Splice => if m.pc.SpliceDue? then Back else Same
    case _ => Same
  }

  ghost predicate Moved(mv: Move, p: seq<Request>, s: seq<Request>, q: seq<Request>,
                        p': seq<Request>, s': seq<Request>, q': seq<Request>)
  {
    match mv
    case Same => p' == p && s' == s && q' == q
    case Enter(r) => p' == p && s' == s && q' == q + [r]
    case Leave => s == [] && q != [] && p' == p + [q[0]] && s' == s && q' == q[1..]
    case Away => s == [] && p' == p && s' == q && q' == []
    case Back => p' == p && s' == [] && q' == q + s
  }

  ghost predicate StepIsMove(m: Hub, e: Event) {
    var t := Next(m, e);
    && Moved(MoveOf(m, e), m.popped, m.stash, m.h.queue, t.popped, t.stash, t.h.queue)
    && t.logged == m.logged + if e.Hint? then 1 else 0
  }

  lemma EnteringMoves(m: Hub, e: Event)
    requires StashOk(m) && (e.Hint? || e.AddCore? || e.AddUser?)
    ensures StepIsMove(m, e)
  {
    hide TodoStep, ProcessHint, AnswerStep, Emptying, CoreHint, UserHint, IsAnAlpha2, Logged, WithDevices, Uncached;
    assert [] + m.h.queue == m.h.queue;
  }

  lemma LeavingMoves(m: Hub, e: Event)
    requires StashOk(m) && e.Pop?
    ensures StepIsMove(m, e)
  {
    hide RestoreStep, ProcessHint, AnswerStep, Emptying, CoreHint, UserHint, IsAnAlpha2, Logged, WithDevices, Uncached;
    assert [] + m.h.queue == m.h.queue;
  }

  lemma StashMoves(m: Hub)
    requires StashOk(m)
    ensures StepIsMove(m, Event.Stash)
  {
    hide TodoStep, AnswerStep, Emptying, CoreHint, UserHint, IsAnAlpha2, WithDevices, Uncached;
    assert [] + m.h.queue == m.h.queue;
  }

  lemma SpliceMoves(m: Hub)
    requires StashOk(m)
    ensures StepIsMove(m, Splice)
  {
    hide TodoStep, AnswerStep, Emptying, CoreHint, UserHint, IsAnAlpha2, WithDevices, Uncached;
  }

  lemma StepMoves(m: Hub, e: Event)
    requires StashOk(m)
    ensures StepIsMove(m, e)
  {
    if e.Hint? || e.AddCore? || e.AddUser? {
      EnteringMoves(m, e);
    } else if e.Pop? {
      LeavingMoves(m, e);
    } else if e.Stash? {
      StashMoves(m);
    } else if e.Splice? {
      SpliceMoves(m);
    } else {
      OthersMoveNothing(m, e);
      hide Next;
    }
  }

  lemma MoveTags(m: Hub, e: Event)
    ensures MoveOf(m, e).Enter? ==> MoveOf(m, e).q.tag == if e.Hint? then Some(m.logged) else None
    ensures MoveOf(m, e).Back? <==> e.Splice? && m.pc.SpliceDue?
    ensures e.Hint? ==> MoveOf(m, e).Enter?
  {
  }

  lemma OthersMoveNothing(m: Hub, e: Event)
    requires !(e.Hint? || e.Stash? || e.Splice? || e.Pop? || e.AddCore? || e.AddUser?)
    ensures var t := Next(m, e);
            t.popped == m.popped && t.stash == m.stash && t.h.queue == m.h.queue && t.logged == m.logged
  {
    hide ProcessHint, Install, Restored, RestoreAlpha2, Uncached, Awaited, CoreHint, UserHint, IsAnAlpha2, Logged;
  }

  /** The same on trays: a hint arrives, the order stays, or aside and wait change places. */
  ghost predicate TrayStep(t: Tray, u: Tray, arrives: bool, swaps: bool) {
    if arrives then u == Tray(t.out, t.aside, t.wait + [t.logged], t.logged + 1)
    else if swaps then t.aside != [] && t.wait != [] && u == Tray(t.out, [], t.wait + t.aside, t.logged)
    else Order(u) == Order(t) && u.logged == t.logged && (u.aside == [] || u.wait == [] || u == t)
  }

  /** The tags follow the lists. */
  ghost predicate TagsMoved(mv: Move, x: seq<nat>, t: Tray, u: Tray) {
    match mv
    case Same => u == t
    case Enter(_) => u == t.(wait := t.wait + x)
    case Leave => t.aside == [] && t.wait == x + u.wait && u.aside == [] && u.out == t.out + x
    case Away => t.aside == [] && u == t.(aside := t.wait, wait := [])
    case Back => u == t.(aside := [], wait := t.wait + t.aside)
  }

  lemma MovedTags(mv: Move, p: seq<Request>, s: seq<Request>, q: seq<Request>,
                  p': seq<Request>, s': seq<Request>, q': seq<Request>) returns (x: seq<nat>)
    requires Moved(mv, p, s, q, p', s', q')
    ensures TagsMoved(mv, x, Tray(Tags(p), Tags(s), Tags(q), 0), Tray(Tags(p'), Tags(s'), Tags(q'), 0))
    ensures mv.Enter? ==> x == match mv.q.tag { case Some(n) => [n] case None => [] }
  {
    EmptyTags();
    x := [];
    match mv
    case Same =>
      hide Tags;
    case Enter(r) =>
      TagsAppend(q, [r]);
      TagsOne(r);
      x := Tags([r]);
      hide Tags;
    case Leave =>
      assert q == [q[0]] + q[1..];
      TagsAppend([q[0]], q[1..]);
      TagsAppend(p, [q[0]]);
      x := Tags([q[0]]);
      hide Tags;
    case Away =>
      hide Tags;
    case Back =>
      TagsAppend(q, s);
      hide Tags;
  }

  lemma TagsMoveIsTrayStep(mv: Move, x: seq<nat>, t: Tray, u: Tray, arrives: bool)
    requires TagsMoved(mv, x, t.(logged := 0), u.(logged := 0))
    requires u.logged == t.logged + if arrives then 1 else 0
    requires mv.Enter? ==> x == if arrives then [t.logged] else []
    requires arrives ==> mv.Enter?
    ensures TrayStep(t, u, arrives, mv.Back? && t.aside != [] && t.wait != [])
  {
    if mv.Leave? {
      assert t.out + [] + (x + u.wait) == (t.out + x) + [] + u.wait;
    } else if mv.Away? {
      assert t.out + [] + t.wait == t.out + t.wait + [];
    } else if mv.Back? && (t.aside == [] || t.wait == []) {
      assert t.out + t.aside + t.wait == t.out + [] + (t.wait + t.aside);
    } else if mv.Enter? && !arrives {
      assert t.wait + [] == t.wait;
    }
  }

  lemma StepIsTrayStep(m: Hub, e: Event)
    requires StashOk(m)
    ensures TrayStep(TrayOf(m), TrayOf(Next(m, e)), e.Hint?, Overtakes(m, e))
  {
    hide Next, MoveOf, Tags, TrayStep, Moved, StashOk, TagsMoved;
    StepMoves(m, e);
    MoveTags(m, e);
    var t := Next(m, e);
    var x := MovedTags(MoveOf(m, e), m.popped, m.stash, m.h.queue, t.popped, t.stash, t.h.queue);
    TagsMoveIsTrayStep(MoveOf(m, e), x, TrayOf(m), TrayOf(t), e.Hint?);
  }

  lemma EmptyTags()
    ensures Tags([]) == []
  {
  }

  ghost predicate Inverted(s: seq<nat>) {
    exists i, j :: 0 <= i < j < |s| && s[i] > s[j]
  }

  ghost predicate AllBelow(a: seq<nat>, b: seq<nat>) {
    forall i, j :: 0 <= i < |a| && 0 <= j < |b| ==> a[i] < b[j]
  }

  /** What is stashed is older than what was queued since; every hint is accounted for once. */
  ghost predicate Ledger(t: Tray) {
    AllBelow(t.aside, t.wait) && multiset(Order(t)) == multiset(UpTo(t.logged))
  }

  /** Some splice of the run put stashed hints behind younger ones. */
  ghost predicate Overtaken(m: Hub, es: seq<Event>) {
    es != [] && (Overtaken(m, es[..|es| - 1]) || Overtakes(Run(m, es[..|es| - 1]), es[|es| - 1]))
  }

  lemma BelowLogged(s: seq<nat>, n: nat, x: nat)
    requires multiset(s) == multiset(UpTo(n)) && x in s
    ensures x < n
  {
    assert x in multiset(s);
    assert x in UpTo(n);
  }

  lemma ArrivalKeepsLedger(t: Tray, u: Tray)
    requires Ledger(t) && TrayStep(t, u, true, false)
    ensures Ledger(u) && Order(u) == Order(t) + [t.logged]
  {
    assert UpTo(t.logged + 1) == UpTo(t.logged) + [t.logged];
    assert Order(u) == Order(t) + [t.logged];
    forall i | 0 <= i < |t.aside|
      ensures t.aside[i] < t.logged
    {
      assert Order(t)[|t.out| + i] == t.aside[i];
      BelowLogged(Order(t), t.logged, t.aside[i]);
    }
  }

  lemma SwapKeepsLedger(t: Tray, u: Tray)
    requires Ledger(t) && TrayStep(t, u, false, true)
    ensures Ledger(u) && Inverted(Order(u))
  {
    assert multiset(Order(u)) == multiset(Order(t));
    var s := Order(u);
    assert s[|t.out|] == t.wait[0] && s[|t.out| + |t.wait|] == t.aside[0];
  }

  lemma AppendKeepsOrder(s: seq<nat>, n: nat)
    requires multiset(s) == multiset(UpTo(n))
    ensures Inverted(s + [n]) <==> Inverted(s)
    ensures s + [n] == UpTo(n + 1) <==> s == UpTo(n)
  {
    if Inverted(s) {
      var i, j :| 0 <= i < j < |s| && s[i] > s[j];
      assert (s + [n])[i] > (s + [n])[j];
    }
    if Inverted(s + [n]) {
      var i, j :| 0 <= i < j < |s| + 1 && (s + [n])[i] > (s + [n])[j];
      if j == |s| {
        BelowLogged(s, n, s[i]);
      }
    }
    assert UpTo(n + 1) == UpTo(n) + [n];
    if s + [n] == UpTo(n + 1) {
      assert s == (s + [n])[..|s|];
      assert UpTo(n) == UpTo(n + 1)[..n];
    }
  }

  lemma UpToNotInverted(n: nat)
    ensures !Inverted(UpTo(n))
  {
  }

  lemma TrayStepKeeps(t: Tray, u: Tray, arrives: bool, swaps: bool, was: bool)
    requires Ledger(t) && TrayStep(t, u, arrives, swaps) && !(arrives && swaps)
    requires was <==> Inverted(Order(t))
    requires !was <==> Order(t) == UpTo(t.logged)
    ensures Ledger(u)
    ensures was || swaps <==> Inverted(Order(u))
    ensures !(was || swaps) <==> Order(u) == UpTo(u.logged)
  {
    if arrives {
      ArrivalKeepsLedger(t, u);
      AppendKeepsOrder(Order(t), t.logged);
    } else if swaps {
      SwapKeepsLedger(t, u);
      UpToNotInverted(u.logged);
    }
  }

  /** From a fresh start and over every interleaving: each hint that came from outside is taken,
      stashed or queued exactly once; and those are in the order of arrival exactly when no
      restoration put its stash behind a hint that arrived meanwhile. */
  lemma {:induction false} FirstComeFirstServed(m: Hub, es: seq<Event>)
    requires Fresh(m)
    ensures var t := Run(m, es);
            && StashOk(t) && Ledger(TrayOf(t))
            && (!Overtaken(m, es) <==> Order(TrayOf(t)) == UpTo(t.logged))
            && (Overtaken(m, es) <==> Inverted(Order(TrayOf(t))))
  {
    if es == [] {
      EmptyTags();
      assert TrayOf(m) == Tray([], [], [], 0);
      hide Tags;
    } else {
      hide Fresh, Tags;
      var es', e := es[..|es| - 1], es[|es| - 1];
      FirstComeFirstServed(m, es');
      var t := Run(m, es');
      var u := Next(t, e);
      assert Run(m, es) == u;
      StepKeepsStashOk(t, e);
      StepIsTrayStep(t, e);
      assert TrayOf(u).logged == u.logged && !(e.Hint? && Overtakes(t, e));
      hide Next, TrayOf, StashOk, TrayStep, Ledger, Inverted, Order, Overtakes;
      TrayStepKeeps(TrayOf(t), TrayOf(u), e.Hint?, Overtakes(t, e), Overtaken(m, es'));
    }
  }

  // ----- Without interference the steps are the whole operations -----

  function TodoRun(m: Hub, db: bool, baseDevices: nat): Hub {
    Next(Next(Next(Next(Next(Next(m, Lock), Pop), Judge(db, baseDevices)), Look), Schedule), FinalLook)
  }

  lemma LookAndSchedule(m: Hub)
    requires m.pc.Marked?
    ensures Next(Next(m, Look), Schedule) ==
            m.(h := m.h.(work := m.h.work || m.h.queue != []), pc := if m.pc.inTodo then LastLook else Unlocked)
  {
  }

  lemma LookIdles(m: Hub)
    requires !m.pc.Marked? && !m.pc.Looked?
    ensures Next(Next(m, Look), Schedule) == m
  {
  }

  lemma PoppedFinishes(m: Hub, db: bool, baseDevices: nat)
    requires m.pc.Popped?
    ensures var j := Judged(m.h, m.pc.q, db, baseDevices);
            Next(Next(Next(Next(m, Judge(db, baseDevices)), Look), Schedule), FinalLook) ==
            m.(h := j.(work := j.work || (j.queue != [] && j.reg.last.processed)), pc := Unlocked)
  {
    hide ProcessHint;
    var m1 := Next(m, Judge(db, baseDevices));
    if m1.pc.Marked? {
      LookAndSchedule(m1);
    } else {
      LookIdles(m1);
    }
  }

  lemma TodoIsAtomic(m: Hub, db: bool, baseDevices: nat)
    requires m.pc.Unlocked? && m.waiting
    ensures var t := TodoRun(m, db, baseDevices);
            t == m.(h := Todo(m.h, db, baseDevices), waiting := false, popped := t.popped)
  {
    hide Judged;
    var m2 := Next(Next(m, Lock), Pop);
    if m2.pc.Popped? {
      assert m2.h == m.h.(queue := m.h.queue[1..]) && !m2.waiting && m2.stash == m.stash;
      PoppedFinishes(m2, db, baseDevices);
      hide Next;
    } else {
      assert m2.pc.Unlocked?;
      assert Next(m2, Judge(db, baseDevices)) == m2;
      LookIdles(m2);
      assert Next(m2, FinalLook) == m2;
      hide Next;
    }
  }

  function RestoreRun(m: Hub): Hub {
    Next(Next(Next(Next(Next(Next(Next(m, Stash), AddCore), KickCore), AddUser), KickUser), Splice), KickLast)
  }

  lemma CoreFirst(m: Hub)
    requires m.pc.Emptied? && m.stash == []
    ensures Next(Next(Next(m, Stash), AddCore), KickCore) ==
            m.(h := Hints(m.h.reg, [CoreHint(WORLD_ALPHA2)], true), stash := m.h.queue, pc := CoreKicked(m.pc.a))
  {
    hide CoreHint;
    var m1 := Next(m, Stash);
    assert [] + m.h.queue == m.h.queue;
    assert m1 == m.(h := m.h.(queue := []), stash := m.h.queue, pc := Stashed(m.pc.a));
  }

  lemma UserNext(m: Hub)
    requires m.pc.CoreKicked? && m.h.work
    ensures Next(Next(m, AddUser), KickUser) ==
            m.(h := m.h.(queue := m.h.queue + if IsAnAlpha2(m.pc.a) then [UserHint(m.pc.a)] else []), pc := SpliceDue)
  {
    hide IsAnAlpha2, UserHint;
    assert m.h.queue + [] == m.h.queue;
  }

  lemma SpliceLast(m: Hub)
    requires m.pc.SpliceDue?
    ensures Next(Next(m, Splice), KickLast) ==
            m.(h := Hints(m.h.reg, m.h.queue + m.stash, true), stash := [], pc := Unlocked)
  {
  }

  lemma RestoringIsAtomic(m: Hub)
    requires m.pc.Emptied? && m.stash == []
    ensures var t := RestoreRun(m);
            && t == m.(h := Hints(m.h.reg, RestoringHints(m.pc.a) + m.h.queue, true), pc := Unlocked)
  {
    hide Next, IsAnAlpha2, CoreHint, UserHint;
    CoreFirst(m);
    var m3 := Next(Next(Next(m, Stash), AddCore), KickCore);
    UserNext(m3);
    SpliceLast(Next(Next(m3, AddUser), KickUser));
  }

  lemma RestoreIsAtomic(m: Hub, resetUser: bool, cached: bool)
    requires m.pc.Unlocked? && m.stash == [] && Uncached(m.h.reg, m.param, resetUser, cached)
    ensures var t := RestoreRun(Next(m, Restore(resetUser, cached)));
            t == m.(h := RestoredHints(m.h, m.param, resetUser))
  {
    hide Restored, RestoreAlpha2, Uncached, RestoringHints, RestoreRun;
    RestoringIsAtomic(Next(m, Restore(resetUser, cached)));
  }

  function AnswerRun(m: Hub, rd: Regdom): Hub {
    RestoreRun(Next(Next(Next(m, Answer(rd)), Look), Schedule))
  }

  lemma RestoreStepIdles(m: Hub, e: Event)
    requires m.pc.Unlocked?
    requires e.Stash? || e.AddCore? || e.KickCore? || e.AddUser? || e.KickUser? || e.Splice? || e.KickLast?
    ensures Next(m, e) == m
  {
    hide TodoStep, AnswerStep, Emptying;
  }

  lemma RestoreRunIdles(m: Hub)
    requires m.pc.Unlocked?
    ensures RestoreRun(m) == m
  {
    hide Next;
    RestoreStepIdles(m, Stash);
    RestoreStepIdles(m, AddCore);
    RestoreStepIdles(m, KickCore);
    RestoreStepIdles(m, AddUser);
    RestoreStepIdles(m, KickUser);
    RestoreStepIdles(m, Splice);
    RestoreStepIdles(m, KickLast);
  }

  lemma AnswerIsAtomic(m: Hub, rd: Regdom)
    requires m.pc.Unlocked? && m.stash == []
    ensures AnswerRun(m, rd) == m.(h := Answered(m.h, rd, m.param).0)
  {
    hide Install, Restored, RestoreAlpha2, RestoringHints, RestoreRun, Awaited;
    var m1 := Next(m, Answer(rd));
    var m3 := Next(Next(m1, Look), Schedule);
    if m1.pc.Emptied? {
      assert m3 == m1;
      RestoringIsAtomic(m1);
    } else {
      assert m3.pc.Unlocked?;
      RestoreRunIdles(m3);
    }
  }
}
