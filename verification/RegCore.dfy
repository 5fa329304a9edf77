/** The regulatory core itself: requests and domains as objects that are handed over, kept and freed,
    and the functions that do so, as they run when nobody else touches the list (net/wireless/reg.c).
    A domain or request that was freed is never held and never freed again, and none that was held,
    handed over or made on the way is lost. */
module RegCore {
  import opened Words
  import opened RegRules
  import opened RegHints
  import opened RegQueue

  const COUNTRY_IE_MIN_LEN := 6

  /** `struct regulatory_request`. */
  class Hint {
    const tag: Option<nat>
    const initiator: Initiator
    var wiphy: Option<nat>
    const cellBase: bool
    var alpha2: Alpha2
    var intersect: bool
    var processed: bool

    function Value(): Request
      reads this
    {
      Request(tag, initiator, alpha2, wiphy, cellBase, intersect, processed)
    }

    constructor (tag: Option<nat>, initiator: Initiator, alpha2: Alpha2, wiphy: Option<nat>,
                 cellBase: bool, processed: bool)
      ensures Value() == Request(tag, initiator, alpha2, wiphy, cellBase, false, processed)
    {
      this.tag, this.initiator, this.wiphy, this.cellBase := tag, initiator, wiphy, cellBase;
      this.alpha2, intersect, this.processed := alpha2, false, processed;
    }
  }

  /** `struct ieee80211_regdomain`; its rules do not change once it is handed over. */
  class Domain {
    const rd: Regdom

    constructor (rd: Regdom)
      ensures this.rd == rd
    {
      this.rd := rd;
    }
  }

  /** What the core keeps of a device. */
  datatype Device = Device(ignoreCountryIe: bool, regd: Option<Domain>)

  function Content(d: Option<Domain>): Option<Regdom> {
    if d.Some? then Some(d.value.rd) else None
  }

  function Contents(devices: map<nat, Device>): (c: map<nat, Wiphy>)
    ensures c.Keys == devices.Keys
  {
    map w | w in devices :: Wiphy(devices[w].ignoreCountryIe, Content(devices[w].regd))
  }

  lemma ContentsUpdate(devices: map<nat, Device>, w: nat, d: Domain)
    requires w in devices
    ensures Contents(devices[w := devices[w].(regd := Some(d))]) ==
            Contents(devices)[w := Contents(devices)[w].(regd := Some(d.rd))]
  {
  }

  /** The domains the devices own. */
  ghost function Owned(devices: map<nat, Device>): set<Domain> {
    set w | w in devices && devices[w].regd.Some? :: devices[w].regd.value
  }

  ghost predicate OwnedOnce(devices: map<nat, Device>) {
    forall v, w ::
      v in devices && w in devices && v != w && devices[v].regd.Some? ==> devices[v].regd != devices[w].regd
  }

  ghost function AsSet(d: Option<Domain>): set<Domain> {
    if d.Some? then {d.value} else {}
  }

  lemma OwnedUpdate(devices: map<nat, Device>, w: nat, d: Domain)
    requires w in devices && OwnedOnce(devices) && d !in Owned(devices)
    ensures var devices' := devices[w := devices[w].(regd := Some(d))];
            OwnedOnce(devices') && Owned(devices') == Owned(devices) - AsSet(devices[w].regd) + {d}
    ensures AsSet(devices[w].regd) <= Owned(devices)
  {
    var devices' := devices[w := devices[w].(regd := Some(d))];
    forall x
      ensures x in Owned(devices') <==> x in Owned(devices) - AsSet(devices[w].regd) + {d}
    {
      if x in Owned(devices) - AsSet(devices[w].regd) {
        var v :| v in devices && devices[v].regd == Some(x);
        assert devices'[v].regd == Some(x);
      }
      if x == d {
        assert devices'[w].regd == Some(x);
      }
    }
  }

  lemma OwnedWithout(devices: map<nat, Device>, w: nat)
    requires w in devices && OwnedOnce(devices)
    ensures var devices' := devices - {w};
            OwnedOnce(devices') && Owned(devices') == Owned(devices) - AsSet(devices[w].regd)
    ensures AsSet(devices[w].regd) <= Owned(devices)
  {
    var devices' := devices - {w};
    forall x
      ensures x in Owned(devices') <==> x in Owned(devices) - AsSet(devices[w].regd)
    {
      if x in Owned(devices) - AsSet(devices[w].regd) {
        var v :| v in devices && devices[v].regd == Some(x);
        assert v in devices' && devices'[v].regd == Some(x);
      }
    }
  }

  lemma OwnedPlus(devices: map<nat, Device>, w: nat, ignoreCountryIe: bool)
    requires w !in devices && OwnedOnce(devices)
    ensures var devices' := devices[w := Device(ignoreCountryIe, None)];
            && OwnedOnce(devices') && Owned(devices') == Owned(devices)
            && Contents(devices') == Contents(devices)[w := Wiphy(ignoreCountryIe, None)]
  {
    var devices' := devices[w := Device(ignoreCountryIe, None)];
    forall x
      ensures x in Owned(devices') <==> x in Owned(devices)
    {
      if x in Owned(devices) {
        var v :| v in devices && devices[v].regd == Some(x);
        assert devices'[v].regd == Some(x);
      }
    }
  }

  function Values(queue: seq<Hint>): (v: seq<Request>)
    reads queue
    ensures |v| == |queue| && forall i :: 0 <= i < |v| ==> v[i] == queue[i].Value()
  {
    if queue == [] then [] else Values(queue[..|queue| - 1]) + [queue[|queue| - 1].Value()]
  }

  ghost function Elements(queue: seq<Hint>): set<Hint> {
    set q | q in queue
  }

  ghost predicate Distinct(queue: seq<Hint>) {
    forall i, j :: 0 <= i < j < |queue| ==> queue[i] != queue[j]
  }

  lemma Joined(a: seq<Hint>, b: seq<Hint>)
    requires Distinct(a) && Distinct(b) && Elements(a) !! Elements(b)
    ensures Distinct(a + b) && Elements(a + b) == Elements(a) + Elements(b)
  {
    forall i, j | 0 <= i < j < |a + b|
      ensures (a + b)[i] != (a + b)[j]
    {
      if i < |a| <= j {
        assert (a + b)[i] in Elements(a) && (a + b)[j] in Elements(b);
      }
    }
  }

  lemma ValuesJoined(a: seq<Hint>, b: seq<Hint>)
    ensures Values(a + b) == Values(a) + Values(b)
  {
    hide Hint.Value;
  }

  class Core {
    const param: Alpha2
    const coreWorld: Hint
    const builtIn: Domain
    var last: Hint
    var current: Domain
    var world: Domain
    var userAlpha2: Alpha2
    var userRegdom: Option<Domain>
    var devices: map<nat, Device>
    var queue: seq<Hint>
    var work: bool
    ghost var freedHints: set<Hint>
    ghost var freed: set<Domain>
    ghost var made: set<Domain>

    function RegView(): Reg
      reads this, last
    {
      Reg(last.Value(), current.rd, world.rd, userAlpha2, Content(userRegdom), Contents(devices))
    }

    function View(): Hints
      reads this, last, queue
    {
      Hints(RegView(), Values(queue), work)
    }

    /** The domains somebody still points to. */
    ghost function Held(): set<Domain>
      reads this`current, this`world, this`userRegdom, this`devices
    {
      {builtIn, current, world} + AsSet(userRegdom) + Owned(devices)
    }

    /** The requests somebody still points to. */
    ghost function Live(): set<Hint>
      reads this`last, this`queue
    {
      {coreWorld, last} + Elements(queue)
    }

    /** No two owners share a domain, except that the world domain may be the one in force, and nobody
        points to a freed one. */
    ghost predicate DomainsOk()
      reads this`current, this`world, this`userRegdom, this`devices, this`freed
    {
      && builtIn.rd == WORLD
      && {builtIn, current, world} !! AsSet(userRegdom) + Owned(devices)
      && AsSet(userRegdom) !! Owned(devices)
      && OwnedOnce(devices)
      && Held() !! freed
    }

    /** `q` was handed over and nobody points to it yet. */
    ghost predicate Handed(q: Hint)
      reads this`last, this`queue, this`freedHints
    {
      q !in Live() && q !in freedHints
    }

    ghost predicate HandedDomain(d: Domain)
      reads this`current, this`world, this`userRegdom, this`devices, this`freed
    {
      d !in Held() && d !in freed
    }

    ghost predicate HintsOk()
      reads this`last, this`queue, this`freedHints, coreWorld
    {
      && coreWorld.Value() == CORE_WORLD
      && {coreWorld, last} !! Elements(queue) && Distinct(queue)
      && Live() !! freedHints
    }

    ghost predicate Valid()
      reads this, coreWorld
    {
      HintsOk() && DomainsOk()
    }

    constructor (param: Alpha2)
      ensures Valid() && this.param == param && freedHints == {} && freed == {} && made <= Held()
      ensures View() == Hints(Reg(CORE_WORLD, WORLD, WORLD, NO_ALPHA2, None, map[]), [], false)
    {
      var start := new Hint(None, Initiator.Core, WORLD_ALPHA2, None, false, true);
      var base := new Domain(WORLD);
      this.param, coreWorld, builtIn := param, start, base;
      last, current, world := start, base, base;
      userAlpha2, userRegdom, devices := NO_ALPHA2, None, map[];
      queue, work := [], false;
      freedHints, freed, made := {}, {}, {base};
    }

    // ----- Requests -----

    /** `kfree` of a request: allowed once. */
    ghost method FreeHint(q: Hint)
      requires q !in freedHints && q != coreWorld
      modifies this`freedHints
      ensures freedHints == old(freedHints) + {q}
    {
      freedHints := freedHints + {q};
    }

    /** `reg_free_request`. */
    method FreeRequest(q: Hint)
      requires q !in freedHints
      modifies this`freedHints
      ensures freedHints == old(freedHints) + if q == coreWorld || q == last then {} else {q}
    {
      if q == coreWorld {
        return;
      }
      if q != last {
        FreeHint(q);
      }
    }

    /** `reg_update_last_request`, which frees the one it replaces. */
    method UpdateLast(q: Hint)
      requires Valid() && q !in freedHints + Elements(queue)
      modifies this`last, this`freedHints
      ensures Valid() && last == q
      ensures freedHints == old(freedHints) + if old(last) == coreWorld || old(last) == q then {} else {old(last)}
      ensures old(Live() + freedHints) + {q} <= Live() + freedHints && freedHints <= old(Live() + freedHints)
    {
      if last == q {
        return;
      }
      if last != coreWorld {
        FreeHint(last);
      }
      last := q;
    }

    /** `reg_set_request_processed`. */
    method SetRequestProcessed()
      requires Valid()
      modifies last`processed, this`work
      ensures Valid() && View() == Settled(old(View()))
    {
      var more := false;
      last.processed := true;
      if queue != [] {
        more := true;
      }
      if more {
        work := true;
      }
    }

    /** `queue_regulatory_request`. */
    method QueueRequest(q: Hint)
      requires Valid() && Handed(q)
      modifies this`queue, this`work, q`alpha2
      ensures Valid() && View() == Queued(old(View()), old(q.Value())) && queue == old(queue) + [q]
    {
      q.alpha2 := Upper(q.alpha2);
      queue := queue + [q];
      work := true;
    }

    /** `regulatory_hint_user`. */
    method HintUser(alpha2: Alpha2, cellBase: bool, tag: Option<nat>) returns (code: int)
      requires Valid()
      modifies this`queue, this`work
      ensures Valid() && old(Live()) <= Live() && fresh(Live() - old(Live()))
      ensures code == 0 <==> alpha2 == WORLD_ALPHA2 || IsAnAlpha2(alpha2)
      ensures code != 0 ==> code == EINVAL && View() == old(View()) && queue == old(queue)
      ensures code == 0 ==>
                View() == Queued(old(View()), Request(tag, User, alpha2, None, cellBase, false, false))
    {
      if alpha2 != WORLD_ALPHA2 && !IsAnAlpha2(alpha2) {
        return EINVAL;
      }
      var q := new Hint(tag, User, alpha2, None, cellBase, false);
      QueueRequest(q);
      return 0;
    }

    /** `regulatory_hint_country_ie`; `ie` is the element. A second element is dropped while the
        last request came from one whose device is still there. */
    method HintCountryIe(wiphy: nat, ie: seq<char>, tag: Option<nat>) returns (queued: bool)
      requires Valid()
      modifies this`queue, this`work
      ensures Valid() && old(Live()) <= Live() && fresh(Live() - old(Live()))
      ensures queued <==> |ie| % 2 == 0 && |ie| >= 6 && !(old(last).initiator.CountryIe? && old(last.wiphy).Some?)
      ensures !queued ==> View() == old(View())
      ensures queued ==> View() == Queued(old(View()),
                           Request(tag, CountryIe, Alpha2(ie[0], ie[1]), Some(wiphy), false, false, false))
    {
      hide DomainsOk, Contents, Values;
      if |ie| % 2 == 1 {
        return false;
      }
      if |ie| < COUNTRY_IE_MIN_LEN {
        return false;
      }
      if last.initiator.CountryIe? && last.wiphy.Some? {
        return false;
      }
      var q := new Hint(tag, CountryIe, Alpha2(ie[0], ie[1]), Some(wiphy), false, false);
      QueueRequest(q);
      return true;
    }

    // ----- Judging a hint -----

    /** Where a hint ends up: refused, it is still the caller's; else it is the last request or freed. */
    ghost predicate Placed(q: Hint, t: Treatment)
      reads this`last, this`queue, this`freedHints
    {
      if t.Ignore? then Handed(q) else q in Live() + freedHints
    }

    /** The hint becomes the last request, not processed yet. */
    method Accept(q: Hint, intersect: bool)
      requires Valid() && Handed(q)
      modifies this`last, this`freedHints, q`intersect, q`processed
      ensures Valid() && last == q && old(Live() + freedHints) + {q} <= Live() + freedHints
      ensures RegView() == old(RegView()).(last := Accepted(old(q.Value()), intersect))
      ensures Values(queue) == old(Values(queue))
    {
      hide DomainsOk, Contents;
      q.intersect := intersect;
      q.processed := false;
      UpdateLast(q);
    }

    /** `reg_process_hint_core`. */
    method ProcessHintCore(q: Hint, db: bool) returns (t: Treatment)
      requires Valid() && Handed(q) && q.initiator.Core?
      modifies this`last, this`freedHints, q`intersect, q`processed
      ensures Valid() && Placed(q, t) && old(Live() + freedHints) <= Live() + freedHints
      ensures Values(queue) == old(Values(queue)) && RegView() == ProcessCore(old(RegView()), old(q.Value()), db)
    {
      hide DomainsOk, HintsOk, Contents;
      if db {
        Accept(q, false);
        return Ok;
      }
      return Ignore;
    }

    /** `__reg_process_hint_user`. */
    method TreatUserHint(q: Hint, baseDevices: nat) returns (t: Treatment)
      requires q.initiator.User?
      ensures t == TreatUser(RegView(), q.Value(), baseDevices)
    {
      if q.cellBase {
        if baseDevices == 0 {
          return Ignore;
        }
        if CellBase(last.Value()) && current.rd.alpha2 == q.alpha2 {
          return AlreadySet;
        }
        return Ok;
      }
      if CellBase(last.Value()) {
        return Ignore;
      }
      if last.initiator.CountryIe? {
        return Intersected;
      }
      if last.initiator.User? && last.intersect {
        return Ignore;
      }
      if current.rd.alpha2 != last.alpha2 {
        return Ignore;
      }
      if current.rd.alpha2 == q.alpha2 {
        return AlreadySet;
      }
      return Ok;
    }

    /** `reg_process_hint_user`. */
    method ProcessHintUser(q: Hint, db: bool, baseDevices: nat) returns (t: Treatment)
      requires Valid() && Handed(q) && q.initiator.User?
      modifies this`last, this`userAlpha2, this`freedHints, q`intersect, q`processed
      ensures Valid() && Placed(q, t) && old(Live() + freedHints) <= Live() + freedHints
      ensures Values(queue) == old(Values(queue))
      ensures RegView() == ProcessUser(old(RegView()), old(q.Value()), db, baseDevices)
    {
      hide DomainsOk, HintsOk, Contents, TreatUser, Accepted, Live, Held, Values;
      t := TreatUserHint(q, baseDevices);
      if t.Ignore? || t.AlreadySet? {
        return Ignore;
      }
      if !db {
        return Ignore;
      }
      Accept(q, t.Intersected?);
      userAlpha2 := q.alpha2;
      return Ok;
    }

    // ----- Domains -----

    /** `kzalloc` of a domain, of which the core is to lose none. */
    method MakeDomain(rd: Regdom) returns (d: Domain)
      requires Valid()
      modifies this`made
      ensures Valid() && HandedDomain(d) && RegView() == old(RegView()) && Values(queue) == old(Values(queue))
      ensures fresh(d) && d.rd == rd && made == old(made) + {d}
    {
      hide DomainsOk, HintsOk, Contents, Values;
      d := new Domain(rd);
      made := made + {d};
    }

    /** Every domain made since a call began is held or was freed. */
    twostate predicate NoneLost()
      reads this`current, this`world, this`userRegdom, this`devices, this`freed, this`made
    {
      made - old(made) <= Held() + freed
    }

    /** `kfree_rcu` of a domain: allowed once, and never for the built-in one. */
    ghost method FreeDomain(d: Domain)
      requires d !in freed && d != builtIn
      modifies this`freed
      ensures freed == old(freed) + {d}
    {
      freed := freed + {d};
    }

    /** A domain nobody took is freed. */
    method FreeAnswer(d: Domain)
      requires Valid() && HandedDomain(d)
      modifies this`freed
      ensures Valid() && freed == old(freed) + {d}
    {
      hide HintsOk;
      FreeDomain(d);
    }

    /** A device gets a domain of its own and gives up the one it had. */
    method GiveDevice(w: nat, d: Domain)
      requires Valid() && w in devices && HandedDomain(d)
      modifies this`devices, this`freed
      ensures Valid() && devices == old(devices)[w := old(devices)[w].(regd := Some(d))]
      ensures Held() == old(Held()) - AsSet(old(devices)[w].regd) + {d}
      ensures freed == old(freed) + AsSet(old(devices)[w].regd) && AsSet(old(devices)[w].regd) <= old(Held())
      ensures Contents(devices) == Contents(old(devices))[w := Contents(old(devices))[w].(regd := Some(d.rd))]
    {
      hide HintsOk, Contents, Owned, OwnedOnce;
      OwnedUpdate(devices, w, d);
      ContentsUpdate(devices, w, d);
      var tmp := devices[w].regd;
      devices := devices[w := devices[w].(regd := Some(d))];
      if tmp.Some? {
        FreeDomain(tmp.value);
      }
    }

    /** `__reg_process_hint_driver`. */
    method TreatDriverHint(q: Hint) returns (t: Treatment)
      requires q.initiator.Driver?
      ensures t == TreatDriver(RegView(), q.Value())
    {
      if last.initiator.Core? {
        if current.rd.alpha2 != q.alpha2 {
          return Ok;
        }
        return AlreadySet;
      }
      if last.initiator.Driver? && current.rd.alpha2 == q.alpha2 {
        return AlreadySet;
      }
      return Intersected;
    }

    /** Unless the hint stands alone, the device gets a copy of the domain in force. */
    method CopyToDevice(w: nat, t: Treatment)
      requires Valid() && w in devices
      modifies this`devices, this`freed, this`made
      ensures NoneLost() && Valid() && devices.Keys == old(devices).Keys && old(Held() + freed) <= Held() + freed
      ensures var r := old(RegView());
              RegView() == if t.Ok? then r else r.(wiphys := r.wiphys[w := r.wiphys[w].(regd := Some(r.current))])
    {
      hide HintsOk, DomainsOk, Held, Contents, AsSet;
      if !t.Ok? {
        var copy := MakeDomain(current.rd);
        GiveDevice(w, copy);
      }
    }

    /** A hint that agrees becomes the last request and is settled on the spot. */
    method AcceptSettled(q: Hint)
      requires Valid() && Handed(q)
      modifies this`last, this`work, this`freedHints, q`intersect, q`processed
      ensures Valid() && last == q && old(Live() + freedHints) + {q} <= Live() + freedHints
      ensures var r := old(RegView());
              View() == Settled(old(View()).(reg := r.(last := Accepted(old(q.Value()), false))))
    {
      hide DomainsOk, HintsOk, Contents, Live, Values, Accepted, Settled;
      Accept(q, false);
      SetRequestProcessed();
    }

    /** `reg_process_hint_driver`, for a device that is there. */
    method ProcessHintDriver(q: Hint, db: bool) returns (t: Treatment)
      requires Valid() && Handed(q) && q.initiator.Driver? && q.wiphy.Some? && q.wiphy.value in devices
      modifies this`last, this`devices, this`work, this`freedHints, this`freed, this`made, q`intersect, q`processed
      ensures NoneLost() && Valid() && Placed(q, t) && old(Live() + freedHints) <= Live() + freedHints
      ensures old(Held() + freed) <= Held() + freed
      ensures var (r, settles) := ProcessDriver(old(RegView()), old(q.Value()), db);
              View() == if settles then Settled(old(View()).(reg := r)) else old(View()).(reg := r)
    {
      hide DomainsOk, HintsOk, Contents, TreatDriver, Accepted, Held, Live, Values, Settled;
      t := TreatDriverHint(q);
      CopyToDevice(q.wiphy.value, t);
      assert Values(queue) == old(Values(queue)) && q.Value() == old(q.Value());
      if t.AlreadySet? {
        AcceptSettled(q);
        return AlreadySet;
      }
      if db {
        Accept(q, t.Intersected?);
        return Ok;
      }
      return Ignore;
    }

    /** `__reg_process_hint_country_ie`, for a device that is there. */
    method TreatCountryHint(q: Hint) returns (t: Treatment)
      requires q.initiator.CountryIe? && q.wiphy.Some? && q.wiphy.value in devices
      ensures t == TreatCountryIe(RegView(), q.Value())
    {
      if CellBase(last.Value()) {
        if current.rd.alpha2 != q.alpha2 {
          return Ignore;
        }
        return AlreadySet;
      }
      if devices[q.wiphy.value].ignoreCountryIe {
        return Ignore;
      }
      if !IsAnAlpha2(q.alpha2) {
        return BadAlpha2;
      }
      if !last.initiator.CountryIe? {
        return Ok;
      }
      if last.wiphy != q.wiphy {
        if current.rd.alpha2 != q.alpha2 {
          return Ignore;
        }
        return AlreadySet;
      }
      if current.rd.alpha2 != q.alpha2 {
        return Ok;
      }
      return AlreadySet;
    }

    /** `reg_process_hint_country_ie`, for a device that is there; an element that agrees is freed here,
        and its caller does not free it again. */
    method ProcessHintCountryIe(q: Hint, db: bool) returns (t: Treatment)
      requires Valid() && Handed(q) && q.initiator.CountryIe? && q.wiphy.Some? && q.wiphy.value in devices
      modifies this`last, this`freedHints, q`intersect, q`processed
      ensures Valid() && Placed(q, t) && old(Live() + freedHints) <= Live() + freedHints
      ensures Values(queue) == old(Values(queue)) && RegView() == ProcessCountryIe(old(RegView()), old(q.Value()), db)
    {
      hide DomainsOk, Contents, TreatCountryIe, Accepted;
      t := TreatCountryHint(q);
      if t.Ignore? {
        return Ignore;
      }
      if t.AlreadySet? {
        FreeRequest(q);
        return AlreadySet;
      }
      if db {
        Accept(q, false);
        return Ok;
      }
      return Ignore;
    }

    /** `reg_process_hint`: in the end the hint is the last request or freed. */
    method ProcessOne(q: Hint, db: bool, baseDevices: nat)
      requires Valid() && Handed(q)
      modifies this`last, this`userAlpha2, this`devices, this`work, this`freedHints, this`freed, this`made
      modifies q`intersect, q`processed
      ensures NoneLost() && Valid() && old(Live() + freedHints) + {q} <= Live() + freedHints
      ensures old(Held() + freed) <= Held() + freed
      ensures View() == Judged(old(View()), old(q.Value()), db, baseDevices)
    {
      var t := Dispatch(q, db, baseDevices);
      hide DomainsOk, Judged, Contents;
      if t.Ignore? {
        FreeRequest(q);
      }
    }

    /** Its switch over the initiators; a hint for a device that is not there is refused. */
    method Dispatch(q: Hint, db: bool, baseDevices: nat) returns (t: Treatment)
      requires Valid() && Handed(q)
      modifies this`last, this`userAlpha2, this`devices, this`work, this`freedHints, this`freed, this`made
      modifies q`intersect, q`processed
      ensures NoneLost() && Valid() && Placed(q, t) && old(Live() + freedHints) <= Live() + freedHints
      ensures old(Held() + freed) <= Held() + freed
      ensures View() == Judged(old(View()), old(q.Value()), db, baseDevices)
    {
      hide DomainsOk, HintsOk, Contents, Held, Live, Values, ProcessCore, ProcessUser, ProcessDriver, Settled;
      t := Ignore;
      var known := q.wiphy.Some? && q.wiphy.value in devices;
      match q.initiator {
        case Core => t := ProcessHintCore(q, db);
        case User => t := ProcessHintUser(q, db, baseDevices);
        case Driver =>
          if known {
            t := ProcessHintDriver(q, db);
          } else {
            UnknownDevice(q.Value(), db, baseDevices);
          }
        case CountryIe =>
          if known {
            t := ProcessHintCountryIe(q, db);
          } else {
            UnknownDevice(q.Value(), db, baseDevices);
          }
      }
    }

    lemma UnknownDevice(q: Request, db: bool, baseDevices: nat)
      requires (q.initiator.Driver? || q.initiator.CountryIe?) && !(q.wiphy.Some? && q.wiphy.value in devices)
      ensures ProcessHint(RegView(), q, db, baseDevices) == (RegView(), false)
    {
      hide Contents;
    }

    /** `list_first_entry` and `list_del_init`. */
    method PopHint() returns (q: Hint)
      requires Valid() && queue != []
      modifies this`queue
      ensures Valid() && Handed(q) && q == old(queue)[0] && queue == old(queue)[1..]
      ensures old(Live()) == Live() + {q} && RegView() == old(RegView())
      ensures old(Values(queue)) == [q.Value()] + Values(queue)
    {
      hide DomainsOk;
      q := queue[0];
      queue := queue[1..];
    }

    /** The head of the queue is taken and judged. */
    method TakeOne(db: bool, baseDevices: nat)
      requires Valid() && queue != []
      modifies this`last, this`userAlpha2, this`devices, this`queue, this`work
      modifies this`freedHints, this`freed, this`made, queue
      ensures NoneLost() && Valid() && old(Live() + freedHints) <= Live() + freedHints
      ensures old(Held() + freed) <= Held() + freed
      ensures var h := old(View());
              View() == Judged(h.(queue := h.queue[1..]), h.queue[0], db, baseDevices)
    {
      hide DomainsOk, HintsOk, Judged, Contents, Held, Values, Handed, RegView;
      ghost var waiting := Values(queue);
      var q := PopHint();
      assert waiting[0] == q.Value() && waiting[1..] == Values(queue);
      ProcessOne(q, db, baseDevices);
    }

    /** `reg_process_pending_hints`. */
    method ProcessPendingHints(db: bool, baseDevices: nat)
      requires Valid()
      modifies this`last, this`userAlpha2, this`devices, this`queue, this`work
      modifies this`freedHints, this`freed, this`made, queue
      ensures NoneLost() && Valid() && old(Live() + freedHints) <= Live() + freedHints
      ensures old(Held() + freed) <= Held() + freed
      ensures View() == Todo(old(View()), db, baseDevices)
    {
      hide DomainsOk, HintsOk, Judged, Contents, Held, Live, Values;
      if !last.processed {
        return;
      }
      if queue == [] {
        return;
      }
      TakeOne(db, baseDevices);
      LastLook();
    }

    /** The end of `reg_process_pending_hints`. */
    method LastLook()
      requires Valid()
      modifies this`work
      ensures Valid() && RegView() == old(RegView()) && Values(queue) == old(Values(queue))
      ensures work == (old(work) || (queue != [] && last.processed))
    {
      hide DomainsOk, Contents, Values;
      if queue != [] && last.processed {
        work := true;
      }
    }

    // ----- Devices -----

    /** `wiphy_regulatory_register` of a device without a domain of its own. */
    method Plug(w: nat, ignoreCountryIe: bool)
      requires Valid() && w !in devices
      modifies this`devices
      ensures Valid() && Held() == old(Held()) && devices == old(devices)[w := Device(ignoreCountryIe, None)]
      ensures RegView() == WithDevices(old(RegView()), old(Contents(devices))[w := Wiphy(ignoreCountryIe, None)])
      ensures Values(queue) == old(Values(queue))
    {
      hide HintsOk;
      OwnedPlus(devices, w, ignoreCountryIe);
      devices := devices[w := Device(ignoreCountryIe, None)];
    }

    /** `wiphy_apply_custom_regulatory`: the device gets a copy of a domain of its driver's. */
    method ApplyCustom(w: nat, rd: Regdom)
      requires Valid() && w in devices
      modifies this`devices, this`freed, this`made
      ensures NoneLost() && Valid() && old(Held() + freed) <= Held() + freed
      ensures RegView() == WithDeviceDomain(old(RegView()), w, rd) && Values(queue) == old(Values(queue))
    {
      hide HintsOk, DomainsOk, Held, Contents, Values, AsSet;
      var copy := MakeDomain(rd);
      GiveDevice(w, copy);
    }

    /** `wiphy_regulatory_deregister`: the device's domain is freed and the last request forgets it. */
    method Unplug(w: nat)
      requires Valid() && w in devices && (last == coreWorld ==> last.wiphy.None?)
      modifies this`devices, this`freed, last`wiphy
      ensures Valid() && old(Held() + freed) <= Held() + freed && devices == old(devices) - {w}
      ensures RegView() == WithDevices(old(RegView()), Contents(devices)) && Values(queue) == old(Values(queue))
    {
      hide HintsOk, Contents;
      DropDevice(w);
      ForgetDevice(w);
    }

    method DropDevice(w: nat)
      requires Valid() && w in devices
      modifies this`devices, this`freed
      ensures Valid() && old(Held() + freed) <= Held() + freed && devices == old(devices) - {w}
    {
      hide HintsOk;
      var tmp := devices[w].regd;
      OwnedWithout(devices, w);
      devices := devices - {w};
      if tmp.Some? {
        FreeDomain(tmp.value);
      }
    }

    method ForgetDevice(w: nat)
      requires Valid() && (last == coreWorld ==> last.wiphy.None?)
      modifies last`wiphy
      ensures Valid()
      ensures last.Value() ==
              old(last.Value()).(wiphy := if old(last.wiphy) == Some(w) then None else old(last.wiphy))
      ensures Values(queue) == old(Values(queue))
    {
      hide DomainsOk;
      if last.wiphy == Some(w) {
        last.wiphy := None;
      }
    }

    // ----- Installing and restoring -----

    /** `reset_regdomains(false, d)`: the domain in force and the world domain are freed, each once even
        when they are the same, and the built-in one never. */
    method ResetRegdomains(d: Domain)
      requires Valid() && (d == builtIn || HandedDomain(d))
      modifies this`current, this`world, this`freed
      ensures Valid() && current == d && world == builtIn
      ensures old(Held() + freed) + {d} <= Held() + freed && freed <= old(Held() + freed) && Held() <= old(Held()) + {d}
      ensures RegView() == Reset(old(RegView()), d.rd)
    {
      hide HintsOk, Contents, Owned, OwnedOnce, AsSet, Content;
      var r, w := Some(current), Some(world);
      if current == world {
        r := None;
      }
      if world == builtIn {
        w := None;
      }
      if r == Some(builtIn) {
        r := None;
      }
      if r.Some? {
        FreeDomain(r.value);
      }
      if w.Some? {
        FreeDomain(w.value);
      }
      world := builtIn;
      current := d;
    }

    /** `cfg80211_save_user_regdom`. */
    method SaveUserRegdom(d: Domain)
      requires Valid() && HandedDomain(d)
      modifies this`userRegdom, this`freed, this`made
      ensures NoneLost() && Valid() && HandedDomain(d) && old(Held() + freed) <= Held() + freed
      ensures RegView() == old(RegView()).(userRegdom := Some(d.rd))
    {
      hide HintsOk, Contents;
      var copy := MakeDomain(d.rd);
      if userRegdom.Some? {
        FreeDomain(userRegdom.value);
      }
      userRegdom := Some(copy);
    }

    /** Where an answer ends up: installed it is held or freed, otherwise still the caller's. */
    ghost predicate Settles(d: Domain, code: int)
      reads this`current, this`world, this`userRegdom, this`devices, this`freed
    {
      if code == 0 then d in Held() + freed else HandedDomain(d)
    }

    /** `reg_set_rd_core`. */
    method SetRdCore(d: Domain) returns (code: int)
      requires Valid() && HandedDomain(d)
      modifies this`current, this`world, this`freed
      ensures Valid() && Settles(d, code) && old(Held() + freed) <= Held() + freed
      ensures (RegView(), code) == InstallCore(old(RegView()), d.rd)
    {
      hide HintsOk, Contents;
      if d.rd.alpha2 != WORLD_ALPHA2 {
        return EINVAL;
      }
      ResetRegdomains(d);
      world := d;
      return 0;
    }

    /** The intersection takes the place of the answer, which is freed. */
    method Replace(d: Domain, both: Regdom)
      requires Valid() && HandedDomain(d)
      modifies this`current, this`world, this`freed, this`made
      ensures NoneLost() && Valid() && d in freed && old(Held() + freed) <= Held() + freed
      ensures RegView() == Reset(old(RegView()), both)
    {
      hide HintsOk, DomainsOk, Held, Contents;
      FreeAnswer(d);
      var x := MakeDomain(both);
      ResetRegdomains(x);
    }

    /** `reg_set_rd_user`. */
    method SetRdUser(d: Domain) returns (code: int)
      requires Valid() && HandedDomain(d)
      modifies this`current, this`world, this`freed, this`made
      ensures NoneLost() && Valid() && Settles(d, code) && old(Held() + freed) <= Held() + freed
      ensures (RegView(), code) == InstallUser(old(RegView()), d.rd)
    {
      hide DomainsOk, HintsOk, Contents, IsValidRd, RegdomIntersection;
      if current.rd.alpha2 == d.rd.alpha2 {
        return EALREADY;
      }
      if !IsValidRd(d.rd) {
        return EINVAL;
      }
      if !last.intersect {
        ResetRegdomains(d);
        return 0;
      }
      var both := RegdomIntersect(Some(d.rd), Some(current.rd));
      if both.None? {
        return EINVAL;
      }
      Replace(d, both.value);
      return 0;
    }

    /** A driver's answer without intersection: the device gets a copy, the core keeps the answer. */
    method InstallAndCopy(w: nat, d: Domain)
      requires Valid() && HandedDomain(d) && w in devices
      modifies this`current, this`world, this`devices, this`freed, this`made
      ensures NoneLost() && Valid() && d in Held() && old(Held() + freed) <= Held() + freed
      ensures RegView() == Reset(WithDeviceDomain(old(RegView()), w, d.rd), d.rd)
    {
      hide HintsOk, DomainsOk, Held, Contents, AsSet;
      var copy := MakeDomain(d.rd);
      GiveDevice(w, copy);
      ResetRegdomains(d);
    }

    lemma HeldByDevice(w: nat)
      requires w in devices && devices[w].regd.Some?
      ensures devices[w].regd.value in Held()
    {
      assert devices[w].regd.value in Owned(devices);
    }

    /** With one: the device keeps the answer, the core the intersection. */
    method InstallAndKeep(w: nat, d: Domain, both: Regdom)
      requires Valid() && HandedDomain(d) && w in devices
      modifies this`current, this`world, this`devices, this`freed, this`made
      ensures NoneLost() && Valid() && d in Held() && old(Held() + freed) <= Held() + freed
      ensures RegView() == Reset(WithDeviceDomain(old(RegView()), w, d.rd), both)
    {
      hide HintsOk, DomainsOk, Held, Contents, AsSet;
      var x := MakeDomain(both);
      GiveDevice(w, d);
      ResetRegdomains(x);
      HeldByDevice(w);
    }

    /** `reg_set_rd_driver`. */
    method SetRdDriver(d: Domain) returns (code: int)
      requires Valid() && HandedDomain(d)
      modifies this`current, this`world, this`devices, this`freed, this`made
      ensures NoneLost() && Valid() && Settles(d, code) && old(Held() + freed) <= Held() + freed
      ensures (RegView(), code) == InstallDriver(old(RegView()), d.rd)
    {
      hide DomainsOk, HintsOk, IsValidRd, RegdomIntersection, Reset, WithDeviceDomain;
      if d.rd.alpha2 == WORLD_ALPHA2 {
        return EINVAL;
      }
      if current.rd.alpha2 == d.rd.alpha2 {
        return EALREADY;
      }
      if !IsValidRd(d.rd) {
        return EINVAL;
      }
      if !(last.wiphy.Some? && last.wiphy.value in devices) {
        return ENODEV;
      }
      var w := last.wiphy.value;
      if !last.intersect {
        if devices[w].regd.Some? {
          return EALREADY;
        }
        InstallAndCopy(w, d);
        return 0;
      }
      var both := RegdomIntersect(Some(d.rd), Some(current.rd));
      if both.None? {
        return EINVAL;
      }
      InstallAndKeep(w, d, both.value);
      return 0;
    }

    /** `reg_set_rd_country_ie`. */
    method SetRdCountryIe(d: Domain) returns (code: int)
      requires Valid() && HandedDomain(d)
      modifies this`current, this`world, this`freed
      ensures Valid() && Settles(d, code) && old(Held() + freed) <= Held() + freed
      ensures (RegView(), code) == InstallCountryIe(old(RegView()), d.rd)
    {
      hide DomainsOk, HintsOk, Contents, IsValidRd;
      if !IsAlpha2Set(d.rd.alpha2) && !IsAnAlpha2(d.rd.alpha2) && d.rd.alpha2 != UNKNOWN_ALPHA2 {
        return EINVAL;
      }
      if !IsValidRd(d.rd) {
        return EINVAL;
      }
      if !(last.wiphy.Some? && last.wiphy.value in devices) {
        return ENODEV;
      }
      if last.intersect {
        return EINVAL;
      }
      ResetRegdomains(d);
      return 0;
    }

    /** The switch of `set_regdom` over the initiators. */
    method SetRd(d: Domain) returns (code: int)
      requires Valid() && HandedDomain(d)
      modifies this`current, this`world, this`userRegdom, this`devices, this`freed, this`made
      ensures NoneLost() && Valid() && Settles(d, code) && old(Held() + freed) <= Held() + freed
      ensures (RegView(), code) == Install(old(RegView()), d.rd)
    {
      hide DomainsOk, HintsOk, Contents, InstallCore, InstallUser, InstallDriver, InstallCountryIe;
      match last.initiator {
        case Core => code := SetRdCore(d);
        case User =>
          SaveUserRegdom(d);
          code := SetRdUser(d);
        case Driver => code := SetRdDriver(d);
        case CountryIe => code := SetRdCountryIe(d);
      }
    }

    lemma CoreWorldIs()
      requires Valid()
      ensures coreWorld.Value() == CORE_WORLD && coreWorld !in freedHints + Elements(queue)
      ensures builtIn.rd == WORLD && builtIn in Held()
    {
    }

    /** `restore_alpha2`. */
    method PickAlpha2(resetUser: bool) returns (alpha2: Alpha2)
      modifies this`userAlpha2
      ensures alpha2 == RestoreAlpha2(old(RegView()), param, resetUser)
      ensures RegView() == old(RegView()).(userAlpha2 := Restored(old(RegView()), resetUser).userAlpha2)
    {
      hide Contents;
      alpha2 := NO_ALPHA2;
      var saved := IsUserRegdomSaved(RegView());
      if saved && !resetUser {
        alpha2 := userAlpha2;
      } else if param != WORLD_ALPHA2 {
        alpha2 := param;
      }
      if saved && resetUser {
        userAlpha2 := NO_ALPHA2;
      }
    }

    /** `reset_regdomains(true, &world_regdom)`. */
    method FullReset()
      requires Valid()
      modifies this`last, this`current, this`world, this`freedHints, this`freed
      ensures Valid() && old(Held() + freed) <= Held() + freed && freed <= old(Held() + freed) && Held() <= old(Held())
      ensures old(Live() + freedHints) <= Live() + freedHints && freedHints <= old(Live() + freedHints)
      ensures RegView() == Reset(old(RegView()), WORLD).(last := CORE_WORLD) && Values(queue) == old(Values(queue))
    {
      hide Contents, DomainsOk, HintsOk, Held, Live, Elements, Values, Reset;
      CoreWorldIs();
      ghost var h := Held();
      ResetRegdomains(builtIn);
      assert Held() <= h;
      UpdateLast(coreWorld);
    }

    /** The first part of a restoration. */
    method BackToWorld(resetUser: bool) returns (alpha2: Alpha2)
      requires Valid()
      modifies this`last, this`current, this`world, this`userAlpha2, this`freedHints, this`freed
      ensures Valid() && alpha2 == RestoreAlpha2(old(RegView()), param, resetUser)
      ensures old(Held() + freed) <= Held() + freed && freed <= old(Held() + freed) && Held() <= old(Held())
      ensures old(Live() + freedHints) <= Live() + freedHints && freedHints <= old(Live() + freedHints)
      ensures RegView() == Restored(old(RegView()), resetUser) && Values(queue) == old(Values(queue))
    {
      hide Contents, DomainsOk, HintsOk, Held, Live;
      FullReset();
      alpha2 := PickAlpha2(resetUser);
    }

    /** The whole list is put aside. */
    method Stash() returns (stash: seq<Hint>)
      requires Valid()
      modifies this`queue
      ensures Valid() && queue == [] && stash == old(queue) && Distinct(stash) && Elements(stash) !! Live() + freedHints
      ensures old(Live()) == Live() + Elements(stash) && RegView() == old(RegView())
    {
      hide DomainsOk, Contents;
      stash := queue;
      queue := [];
    }

    /** What was stashed goes back to the end of the list. */
    method Splice(stash: seq<Hint>)
      requires Valid() && Distinct(stash) && Elements(stash) !! Live() + freedHints
      modifies this`queue, this`work
      ensures Valid() && Live() == old(Live()) + Elements(stash)
      ensures View() == Hints(old(RegView()), old(Values(queue)) + old(Values(stash)), true)
    {
      hide DomainsOk, Contents, Distinct, Elements, Values;
      Joined(queue, stash);
      ValuesJoined(queue, stash);
      queue := queue + stash;
      work := true;
    }

    twostate lemma AllocatedIsNotFresh(e: set<Hint>, new n: set<Hint>)
      requires fresh(n)
      ensures e !! n
    {
    }

    method AskCore()
      requires Valid() && queue == []
      modifies this`queue, this`work
      ensures Valid() && Values(queue) == [CoreHint(WORLD_ALPHA2)]
      ensures old(Live()) <= Live() && fresh(Live() - old(Live())) && RegView() == old(RegView())
    {
      hide DomainsOk, Contents;
      var q := new Hint(None, Initiator.Core, WORLD_ALPHA2, None, false, false);
      QueueRequest(q);
    }

    /** The hints of a restoration, on an empty list; none of them is one of those put aside. */
    method AskAgain(alpha2: Alpha2, ghost aside: set<Hint>)
      requires Valid() && queue == [] && aside !! Live()
      modifies this`queue, this`work
      ensures Valid() && Values(queue) == RestoringHints(alpha2)
      ensures old(Live()) <= Live() && aside !! Live() && RegView() == old(RegView())
    {
      hide DomainsOk, HintsOk, Contents, Live, Values;
      ghost var l0 := Live();
      AskCore();
      ghost var l1 := Live();
      AllocatedIsNotFresh(aside, l1 - l0);
      assert l1 <= l0 + (l1 - l0);
      if IsAnAlpha2(alpha2) {
        label Asked:
        var code := HintUser(alpha2, false, None);
        AllocatedIsNotFresh@Asked(aside, Live() - l1);
        assert Live() <= l1 + (Live() - l1);
      }
    }

    /** The list during a restoration: put aside, the hints of the restoration added, and put back. */
    method Requeue(alpha2: Alpha2)
      requires Valid()
      modifies this`queue, this`work
      ensures Valid() && old(Live()) <= Live()
      ensures View() == Hints(old(RegView()), RestoringHints(alpha2) + old(Values(queue)), true)
    {
      hide DomainsOk, HintsOk, Contents, Held, Live, Elements, Distinct, Values, RestoringHints, RegView;
      var stash := Stash();
      ghost var v := Values(stash);
      AskAgain(alpha2, Elements(stash));
      assert Values(stash) == v;
      Splice(stash);
    }

    /** `restore_regulatory_settings` when it goes through the queue. */
    method Restore(resetUser: bool, cached: bool)
      requires Valid() && Uncached(RegView(), param, resetUser, cached)
      modifies this`last, this`current, this`world, this`userAlpha2, this`queue, this`work, this`freedHints, this`freed
      ensures Valid() && old(Live() + freedHints) <= Live() + freedHints
      ensures old(Held() + freed) <= Held() + freed && freed <= old(Held() + freed) && Held() <= old(Held())
      ensures View() == RestoredHints(old(View()), param, resetUser)
    {
      hide DomainsOk, HintsOk, Contents, Held, Live, Values, RestoreAlpha2, Restored, RestoringHints, RegView;
      var alpha2 := BackToWorld(resetUser);
      Requeue(alpha2);
    }

    /** The end of a failed installation: everything is restored and the answer freed. */
    method Reject(d: Domain, resetUser: bool)
      requires Valid() && HandedDomain(d)
      modifies this`last, this`current, this`world, this`userAlpha2, this`queue, this`work, this`freedHints, this`freed
      ensures Valid() && old(Live() + freedHints) <= Live() + freedHints
      ensures old(Held() + freed) + {d} <= Held() + freed
      ensures View() == RestoredHints(old(View()), param, resetUser)
    {
      hide DomainsOk, HintsOk, Contents, Held, Live, Values, RestoredHints;
      Restore(resetUser, false);
      FreeAnswer(d);
    }

    /** The rest of `set_regdom` for an answer that is awaited. */
    method SetAwaited(d: Domain) returns (code: int)
      requires Valid() && HandedDomain(d) && Awaited(RegView(), d.rd.alpha2)
      modifies this, last`processed
      ensures NoneLost() && Valid() && old(Live() + freedHints) <= Live() + freedHints
      ensures old(Held() + freed) + {d} <= Held() + freed
      ensures (View(), code) == RegQueue.Answered(old(View()), d.rd, param)
    {
      hide DomainsOk, HintsOk, Contents, Held, Live, Values, Install, RestoredHints, Settled;
      var userReset := last.initiator.User?;
      code := SetRd(d);
      if code != 0 && code != EALREADY {
        Reject(d, userReset);
        return code;
      }
      SetRequestProcessed();
      if code == EALREADY {
        FreeAnswer(d);
      }
    }

    /** `set_regdom`: the answer is installed or freed, whatever happens. */
    method SetRegdom(answer: Option<Domain>) returns (code: int)
      requires Valid() && (answer.Some? ==> HandedDomain(answer.value))
      modifies this, last`processed
      ensures NoneLost() && Valid() && old(Live() + freedHints) <= Live() + freedHints
      ensures old(Held() + freed) <= Held() + freed
      ensures answer.None? ==> code == ENODATA && View() == old(View())
      ensures answer.Some? ==> answer.value in Held() + freed
      ensures answer.Some? ==> (View(), code) == RegQueue.Answered(old(View()), answer.value.rd, param)
    {
      hide DomainsOk, HintsOk, Contents, Held, Live, Values, Install, RestoredHints, Settled;
      if answer.None? {
        return ENODATA;
      }
      var d := answer.value;
      if last.processed || last.alpha2 != d.rd.alpha2 {
        FreeAnswer(d);
        return EINVAL;
      }
      code := SetAwaited(d);
    }
  }
}
