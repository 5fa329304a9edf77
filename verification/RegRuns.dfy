/** Runs of the hint queue, from the state after start-up, in which it does not do what it is meant
    to (net/wireless/reg.c). */
module RegRuns {
  import opened Words
  import opened RegRules
  import opened RegHints
  import opened RegQueue

  const START := Hub(Hints(Reg(CORE_WORLD, WORLD, WORLD, NO_ALPHA2, None, map[]), [], false), WORLD_ALPHA2,
                     [], Unlocked, false, 0, [], 0)

  lemma Push(es: seq<Event>, m: Hub, e: Event) returns (es': seq<Event>, m': Hub)
    requires m == Run(START, es)
    ensures es' == es + [e] && m' == Next(m, e) == Run(START, es')
  {
    es', m' := es + [e], Next(m, e);
    assert es'[..|es|] == es;
  }

  lemma StartIsFresh()
    ensures Fresh(START) && Run(START, []) == START
  {
  }

  // ----- Whole operations as pieces of a run -----

  /** A hint is queued and the work item scheduled, with nobody in between. */
  lemma Queue(es: seq<Event>, m: Hub, q: Request) returns (es': seq<Event>, m': Hub)
    requires m == Run(START, es) && m.half == 0
    ensures es' == es + [Hint(q), Kick] && m' == Run(START, es')
    ensures m' == m.(h := m.h.(queue := m.h.queue + [Logged(q, m.logged)], work := true), logged := m.logged + 1)
  {
    hide Run, Logged;
    var es1, m1 := Push(es, m, Hint(q));
    es', m' := Push(es1, m1, Kick);
  }

  /** The worker runs and takes one hint. */
  lemma Work(es: seq<Event>, m: Hub, db: bool) returns (es': seq<Event>, m': Hub)
    requires m == Run(START, es) && m.pc.Unlocked? && m.h.work && !m.waiting
    ensures m' == Run(START, es') && es <= es'
    ensures m' == m.(h := Todo(m.h.(work := false), db, 0), popped := m'.popped)
  {
    hide Run, Todo, TodoStep, RestoreStep;
    var es1, m1 := Push(es, m, Start);
    TodoIsAtomic(m1, db, 0);
    hide Next;
    var es2, m2 := Push(es1, m1, Lock);
    var es3, m3 := Push(es2, m2, Pop);
    var es4, m4 := Push(es3, m3, Judge(db, 0));
    var es5, m5 := Push(es4, m4, Look);
    var es6, m6 := Push(es5, m5, Schedule);
    es', m' := Push(es6, m6, FinalLook);
  }

  lemma FinishRestore(es: seq<Event>, m: Hub) returns (es': seq<Event>, m': Hub)
    requires m == Run(START, es)
    ensures m' == Run(START, es') == RestoreRun(m) && es <= es'
  {
    hide Run, Next;
    var es1, m1 := Push(es, m, Stash);
    var es2, m2 := Push(es1, m1, AddCore);
    var es3, m3 := Push(es2, m2, KickCore);
    var es4, m4 := Push(es3, m3, AddUser);
    var es5, m5 := Push(es4, m4, KickUser);
    var es6, m6 := Push(es5, m5, Splice);
    es', m' := Push(es6, m6, KickLast);
  }

  /** An answer comes in and is dealt with. */
  lemma Reply(es: seq<Event>, m: Hub, rd: Regdom) returns (es': seq<Event>, m': Hub)
    requires m == Run(START, es) && m.pc.Unlocked? && m.stash == []
    ensures m' == Run(START, es') && es <= es' && m' == m.(h := Answered(m.h, rd, m.param).0)
  {
    hide Run, Next, Answered, RestoreRun;
    AnswerIsAtomic(m, rd);
    var es1, m1 := Push(es, m, Answer(rd));
    var es2, m2 := Push(es1, m1, Look);
    var es3, m3 := Push(es2, m2, Schedule);
    es', m' := FinishRestore(es3, m3);
  }

  lemma Renew(es: seq<Event>, m: Hub) returns (es': seq<Event>, m': Hub)
    requires m == Run(START, es) && m.pc.Unlocked? && m.stash == []
    ensures m' == Run(START, es') && es <= es' && m' == m.(h := RestoredHints(m.h, m.param, true))
  {
    hide Run, Next, RestoredHints, RestoreRun;
    assert Uncached(m.h.reg, m.param, true, false);
    RestoreIsAtomic(m, true, false);
    var es1, m1 := Push(es, m, Restore(true, false));
    es', m' := FinishRestore(es1, m1);
  }

  // ----- A country element that names no country -----

  const NOWHERE := Alpha2('1', '2')
  const ELEMENT := Request(None, CountryIe, NOWHERE, Some(0), false, false, false)
  const SOMEWHERE := Regdom(NOWHERE, Unset, [RegRule(2402, 2472, 20, 6, 20, {})])
  const ONE_DEVICE := map[0 := Wiphy(false, None)]

  lemma SomewhereIsValid()
    ensures IsValidRd(SOMEWHERE) && Upper(NOWHERE) == NOWHERE && !IsAnAlpha2(NOWHERE) && IsAlpha2Set(NOWHERE)
  {
    assert IsValidRule(SOMEWHERE.rules[0]);
  }

  /** The state around the domain in force and the last request. */
  function Around(last: Request, current: Regdom): Reg {
    Reg(last, current, WORLD, NO_ALPHA2, None, ONE_DEVICE)
  }

  lemma LoggedElement(n: nat)
    ensures Logged(ELEMENT, n) == ELEMENT.(tag := Some(n))
  {
  }

  lemma ElementTaken(n: nat, last: Request, current: Regdom, rest: seq<Request>)
    requires last.processed && (last == CORE_WORLD || last == ELEMENT.(tag := last.tag, processed := true))
    ensures var q := ELEMENT.(tag := Some(n));
            Todo(Hints(Around(last, current), [q] + rest, false), true, 0) == Hints(Around(q, current), rest, false)
  {
    var q := ELEMENT.(tag := Some(n));
    assert ([q] + rest)[1..] == rest;
    assert !IsAnAlpha2(NOWHERE);
  }

  lemma ElementSettled(n: nat, rest: seq<Request>)
    requires rest != []
    ensures var q := ELEMENT.(tag := Some(n));
            Answered(Hints(Around(q, WORLD), rest, false), SOMEWHERE, WORLD_ALPHA2).0 ==
            Hints(Around(q.(processed := true), SOMEWHERE), rest, true)
  {
    SomewhereIsValid();
    hide IsValidRd, RegdomIntersection, IsAnAlpha2;
  }

  lemma ElementsQueued() returns (es: seq<Event>, m: Hub)
    ensures m == Run(START, es) && es == [Devices(ONE_DEVICE), Hint(ELEMENT), Kick, Hint(ELEMENT), Kick]
    ensures var queue := [ELEMENT.(tag := Some(0)), ELEMENT.(tag := Some(1))];
            m == START.(h := Hints(Around(CORE_WORLD, WORLD), queue, true), logged := 2)
  {
    StartIsFresh();
    hide Run, Logged;
    LoggedElement(0);
    LoggedElement(1);
    var es0, m0 := Push([], START, Devices(ONE_DEVICE));
    assert m0 == START.(h := Hints(Around(CORE_WORLD, WORLD), [], false));
    hide Next;
    var es1, m1 := Queue(es0, m0, ELEMENT);
    es, m := Queue(es1, m1, ELEMENT);
  }

  /** Two equal elements are queued while nothing speaks against either. The first is installed and
      settled, and the second still becomes an outstanding request for the country in force. Queued
      after the first was accepted it would have been dropped. */
  lemma ElementAcceptedTwice() returns (es: seq<Event>)
    ensures var m := Run(START, es);
            && m.h.reg.current == SOMEWHERE && m.h.reg.last.tag == Some(1)
            && Awaited(m.h.reg, NOWHERE) && m.h.queue == []
            && m.h.reg.last.initiator.CountryIe? && m.h.reg.last.wiphy.Some?
    ensures [Devices(ONE_DEVICE), Hint(ELEMENT), Kick, Hint(ELEMENT), Kick] <= es
    ensures !START.h.reg.last.initiator.CountryIe?
  {
    hide Run, Next, Todo, Answered;
    var a, b := ELEMENT.(tag := Some(0)), ELEMENT.(tag := Some(1));
    var es2, m2 := ElementsQueued();
    assert [a, b] == [a] + [b] && [b] == [b] + [];
    ElementTaken(0, CORE_WORLD, WORLD, [b]);
    var es3, m3 := Work(es2, m2, true);
    ElementSettled(0, [b]);
    var es4, m4 := Reply(es3, m3, SOMEWHERE);
    ElementTaken(1, a.(processed := true), SOMEWHERE, []);
    var m5;
    es, m5 := Work(es4, m4, true);
  }

  // ----- A hint between stash and splice -----

  const PLAIN_USER := Request(None, User, Alpha2('U', 'S'), None, false, false, false)

  lemma OlderStashed() returns (es: seq<Event>, m: Hub)
    ensures m == Run(START, es)
    ensures m == START.(h := Hints(Restored(START.h.reg, false), [], true), stash := [Logged(PLAIN_USER, 0)],
                        pc := Stashed(NO_ALPHA2), half := 0, logged := 1)
  {
    StartIsFresh();
    hide Run, Logged;
    var es1, m1 := Queue([], START, PLAIN_USER);
    var es2, m2 := Push(es1, m1, Restore(false, false));
    assert m2.pc == Emptied(NO_ALPHA2);
    es, m := Push(es2, m2, Stash);
    assert m.stash == [Logged(PLAIN_USER, 0)];
  }

  lemma CoreStep(m: Hub, a: Alpha2)
    requires m.pc == Stashed(a)
    ensures Next(Next(m, AddCore), KickCore) ==
            m.(h := m.h.(queue := m.h.queue + [CoreHint(WORLD_ALPHA2)], work := true), pc := CoreKicked(a))
  {
    hide CoreHint, TodoStep, AnswerStep;
  }

  lemma HintStep(m: Hub, q: Request)
    ensures Next(m, Hint(q)) ==
            m.(h := m.h.(queue := m.h.queue + [Logged(q, m.logged)]), half := m.half + 1, logged := m.logged + 1)
  {
    hide Logged;
  }

  lemma NoUserStep(m: Hub)
    requires m.pc == CoreKicked(NO_ALPHA2)
    ensures Next(m, AddUser) == m.(pc := SpliceDue)
  {
    hide TodoStep, AnswerStep;
  }

  lemma YoungerQueued(es: seq<Event>, m: Hub) returns (es': seq<Event>, m': Hub)
    requires m == Run(START, es) && m.pc == Stashed(NO_ALPHA2) && m.h.queue == [] && m.logged == 1
    ensures m' == Run(START, es') && m'.pc == SpliceDue && m'.stash == m.stash && m'.popped == m.popped
    ensures m'.h.queue == [CoreHint(WORLD_ALPHA2), Logged(PLAIN_USER, 1)]
  {
    hide Run, Logged, CoreHint, Next;
    CoreStep(m, NO_ALPHA2);
    var es4, m4 := Push(es, m, AddCore);
    var es5, m5 := Push(es4, m4, KickCore);
    HintStep(m5, PLAIN_USER);
    var es6, m6 := Push(es5, m5, Hint(PLAIN_USER));
    NoUserStep(m6);
    es', m' := Push(es6, m6, AddUser);
  }

  /** The hint that arrives while an older one is stashed will leave first. */
  lemma HintOvertakesStash() returns (es: seq<Event>)
    ensures Overtaken(START, es)
    ensures var m := Run(START, es);
            m.pc == Spliced && Tags(m.h.queue) == [1, 0] && m.popped == []
  {
    hide Run, Tags;
    var es3, m3 := OlderStashed();
    var es7, m7 := YoungerQueued(es3, m3);
    var a, b := Logged(PLAIN_USER, 0), Logged(PLAIN_USER, 1);
    TagsOfThree(CoreHint(WORLD_ALPHA2), b, a);
    hide Logged, CoreHint;
    var m8;
    es, m8 := Push(es7, m7, Splice);
    assert m8.h.queue == [CoreHint(WORLD_ALPHA2), b, a];
    assert es[..|es| - 1] == es7;
    assert Overtakes(m7, Splice);
    hide Next;
  }

  lemma TagsOfThree(x: Request, y: Request, z: Request)
    requires x.tag.None? && y.tag.Some? && z.tag.Some?
    ensures Tags([x, y, z]) == [y.tag.value, z.tag.value]
    ensures Tags([x, y]) == [y.tag.value] && Tags([z]) == [z.tag.value]
  {
    TagsOne(x);
    TagsOne(y);
    TagsOne(z);
    TagsAppend([x], [y]);
    TagsAppend([x, y], [z]);
    assert [x] + [y] == [x, y] && [x, y] + [z] == [x, y, z];
  }

  // ----- A device that kept its domain -----

  const US := Alpha2('U', 'S')
  const DRIVER := Request(None, Driver, US, Some(0), false, false, false)
  const US_DOMAIN := Regdom(US, Fcc, [RegRule(2402, 2472, 40, 6, 20, {})])

  lemma UsDomainIsValid()
    ensures IsValidRd(US_DOMAIN) && Upper(US) == US && US != WORLD_ALPHA2
  {
    assert IsValidRule(US_DOMAIN.rules[0]);
  }

  /** A driver's domain is installed and kept by the device; a restoration brings the world back, and
      the database cannot be asked for the core hint. The same driver's hint is accepted again, and
      its answer leaves the world in force with the request processed: no plain user hint does
      anything from here. */
  lemma KeptDomainBlocksUsers() returns (es: seq<Event>)
    ensures var m := Run(START, es);
            && m.pc.Unlocked? && m.h.queue == []
            && m.h.reg.last.processed && m.h.reg.last.alpha2 == US && m.h.reg.current == WORLD
            && forall q: Request, db, baseDevices :: q.initiator.User? && !q.cellBase ==>
                 ProcessHint(m.h.reg, q, db, baseDevices) == (m.h.reg, false)
  {
    UsDomainIsValid();
    var es1, m1 := DriverInstalls();
    var es2, m2 := DriverAsksAgain(es1, m1);
    hide Run, Next, IsValidRd, RegdomIntersection, Upper;
    assert Install(m2.h.reg, US_DOMAIN).1 == EALREADY;
    AgreementOrOwnDomain(m2.h.reg, US_DOMAIN);
    var m3;
    es, m3 := Reply(es2, m2, US_DOMAIN);
    assert m3.h.reg == Install(m2.h.reg, US_DOMAIN).0.(last := m2.h.reg.last.(processed := true));
    hide ProcessHint, Install;
  }

  lemma DriverInstalls() returns (es: seq<Event>, m: Hub)
    ensures m == Run(START, es)
    ensures m == START.(h := Hints(Reg(Logged(DRIVER, 0).(processed := true), US_DOMAIN, WORLD, NO_ALPHA2, None,
                                       map[0 := Wiphy(false, Some(US_DOMAIN))]), [], false),
                        popped := m.popped, logged := 1)
  {
    StartIsFresh();
    hide Run, TodoStep, RestoreStep, AnswerStep, Logged;
    var es0, m0 := Push([], START, Devices(ONE_DEVICE));
    assert m0 == START.(h := Hints(Around(CORE_WORLD, WORLD), [], false));
    hide Next, Todo, Answered, Around;
    var q := Logged(DRIVER, 0);
    var es1, m1 := Queue(es0, m0, DRIVER);
    assert m1.h.queue == [q];
    DriverTaken();
    var es2, m2 := Work(es1, m1, true);
    DriverSettled();
    es, m := Reply(es2, m2, US_DOMAIN);
  }

  lemma DriverTaken()
    ensures Todo(Hints(Around(CORE_WORLD, WORLD), [Logged(DRIVER, 0)], false), true, 0) ==
            Hints(Around(Logged(DRIVER, 0), WORLD), [], false)
  {
    assert [Logged(DRIVER, 0)][1..] == [];
    UsDomainIsValid();
    hide Upper;
  }

  lemma DriverSettled()
    ensures Answered(Hints(Around(Logged(DRIVER, 0), WORLD), [], false), US_DOMAIN, WORLD_ALPHA2).0 ==
            Hints(Reg(Logged(DRIVER, 0).(processed := true), US_DOMAIN, WORLD, NO_ALPHA2, None,
                      map[0 := Wiphy(false, Some(US_DOMAIN))]), [], false)
  {
    UsDomainIsValid();
    hide IsValidRd, RegdomIntersection, Upper;
  }

  lemma DriverAsksAgain(es: seq<Event>, m: Hub) returns (es': seq<Event>, m': Hub)
    requires m == Run(START, es)
    requires m == START.(h := Hints(Reg(Logged(DRIVER, 0).(processed := true), US_DOMAIN, WORLD, NO_ALPHA2, None,
                                        map[0 := Wiphy(false, Some(US_DOMAIN))]), [], false),
                         popped := m.popped, logged := 1)
    ensures m' == Run(START, es') && m'.pc.Unlocked? && m'.stash == []
    ensures m'.h == Hints(Reg(Logged(DRIVER, 1), WORLD, WORLD, NO_ALPHA2, None,
                              map[0 := Wiphy(false, Some(US_DOMAIN))]), [], false)
  {
    hide Run, Next;
    UsDomainIsValid();
    hide Upper;
    var es1, m1 := Renew(es, m);
    assert m1.h.queue == [CoreHint(WORLD_ALPHA2)];
    assert m1.h.reg.last == CORE_WORLD && m1.h.reg.current == WORLD;
    var es2, m2 := Work(es1, m1, false);
    assert m2.h.reg == m1.h.reg && m2.h.queue == [] && !m2.h.work;
    var es3, m3 := Queue(es2, m2, DRIVER);
    assert m3.h.queue == [Logged(DRIVER, 1)];
    es', m' := Work(es3, m3, true);
  }
}
