/** Regulatory hints: how a hint is judged, how its answer becomes the current domain, and how the
    settings are restored (net/wireless/reg.c). The queue's machine is in `RegQueue`. */
module RegHints {
  import opened Words
  import opened RegRules
  import opened RegBandwidth
  import opened RegChains

  datatype Initiator = Core | User | Driver | CountryIe

  /** `tag` numbers the hints that come from outside; a restoration makes untagged ones. */
  datatype Request = Request(tag: Option<nat>, initiator: Initiator, alpha2: Alpha2, wiphy: Option<nat>,
                             cellBase: bool, intersect: bool, processed: bool)

  datatype Wiphy = Wiphy(ignoreCountryIe: bool, regd: Option<Regdom>)

  /** What the RTNL protects. */
  datatype Reg = Reg(last: Request, current: Regdom, world: Regdom, userAlpha2: Alpha2,
                     userRegdom: Option<Regdom>, wiphys: map<nat, Wiphy>)

  datatype Treatment = Ok | Ignore | Intersected | AlreadySet | BadAlpha2

  const WORLD_ALPHA2 := Alpha2('0', '0')
  const UNKNOWN_ALPHA2 := Alpha2('9', '9')
  const NO_ALPHA2 := Alpha2('9', '7')

  const ENODEV: int := -19
  const EINVAL: int := -22
  const ENODATA: int := -61
  const EALREADY: int := -114

  /** `core_request_world`. */
  const CORE_WORLD := Request(None, Core, WORLD_ALPHA2, None, false, false, true)

  const NO_IR := Other(0)
  const NO_OFDM := Other(1)
  const DFS := Other(2)

  /** `REG_RULE`, from MHz, dBi and dBm. */
  function RegRule(start: nat, end: nat, bw: nat, gain: nat, eirp: nat, flags: set<Flag>): Rule
    requires start < 100_000 && end < 100_000 && bw < 10_000 && gain < 100 && eirp < 100
  {
    Rule(1000 * start, 1000 * end, 1000 * bw, 100 * eirp, 100 * gain, flags, 0, NoWmm)
  }

  /** `world_regdom`. */
  const WORLD := Regdom(WORLD_ALPHA2, Unset, [
    RegRule(2402, 2472, 40, 6, 20, {}),
    RegRule(2457, 2482, 20, 6, 20, {NO_IR, AutoBw}),
    RegRule(2474, 2494, 20, 6, 20, {NO_IR, NO_OFDM}),
    RegRule(5170, 5250, 80, 6, 20, {NO_IR, AutoBw}),
    RegRule(5250, 5330, 80, 6, 20, {NO_IR, AutoBw, DFS}),
    RegRule(5490, 5730, 160, 6, 20, {NO_IR, DFS}),
    RegRule(5735, 5835, 80, 6, 20, {NO_IR}),
    RegRule(57240, 63720, 2160, 0, 0, {})])

  // ----- Country codes -----

  predicate IsAlpha(c: char) {
    'A' <= c <= 'Z' || 'a' <= c <= 'z'
  }

  function ToUpper(c: char): char {
    if 'a' <= c <= 'z' then ((c as int - 32) as char) else c
  }

  predicate IsAnAlpha2(a: Alpha2) {
    IsAlpha(a.a) && IsAlpha(a.b)
  }

  predicate IsAlpha2Set(a: Alpha2) {
    a.a != '\0' && a.b != '\0'
  }

  function Upper(a: Alpha2): Alpha2 {
    Alpha2(ToUpper(a.a), ToUpper(a.b))
  }

  predicate RegdomChanges(r: Reg, a: Alpha2) {
    r.current.alpha2 != a
  }

  predicate CellBase(q: Request) {
    q.initiator.User? && q.cellBase
  }

  const CAPITALS := "ABCDEFGHIJKLMNOPQRSTUVWXYZ"
  const SMALL := "abcdefghijklmnopqrstuvwxyz"

  /** The letters one by one: what counts as one, and what becomes of each and of anything else. */
  lemma LettersAre(c: char)
    ensures IsAlpha(c) <==> c in CAPITALS || c in SMALL
    ensures forall i :: 0 <= i < 26 ==> ToUpper(SMALL[i]) == CAPITALS[i]
    ensures c !in SMALL ==> ToUpper(c) == c
  {
    forall i | 0 <= i < 26
      ensures CAPITALS[i] as int == 65 + i && SMALL[i] as int == 97 + i
    {
    }
    if 'A' <= c <= 'Z' {
      assert CAPITALS[c as int - 65] == c;
    } else if 'a' <= c <= 'z' {
      assert SMALL[c as int - 97] == c;
    }
  }

  // ----- Judging a hint -----

  /** `__reg_process_hint_user`; `baseDevices` counts the devices that support cellular hints. */
  function TreatUser(r: Reg, q: Request, baseDevices: nat): Treatment {
    if CellBase(q) then
      if baseDevices == 0 then Ignore
      else if CellBase(r.last) && !RegdomChanges(r, q.alpha2) then AlreadySet
      else Ok
    else if CellBase(r.last) then Ignore
    else if r.last.initiator.CountryIe? then Intersected
    else if r.last.initiator.User? && r.last.intersect then Ignore
    else if (r.last.initiator.Core? || r.last.initiator.Driver? || r.last.initiator.User?) &&
            RegdomChanges(r, r.last.alpha2) then Ignore
    else if !RegdomChanges(r, q.alpha2) then AlreadySet
    else Ok
  }

  /** `__reg_process_hint_driver`. */
  function TreatDriver(r: Reg, q: Request): Treatment {
    if r.last.initiator.Core? then
      if RegdomChanges(r, q.alpha2) then Ok else AlreadySet
    else if r.last.initiator.Driver? && !RegdomChanges(r, q.alpha2) then AlreadySet
    else Intersected
  }

  /** `__reg_process_hint_country_ie`. */
  function TreatCountryIe(r: Reg, q: Request): Treatment
    requires q.wiphy.Some? && q.wiphy.value in r.wiphys
  {
    if CellBase(r.last) then
      if RegdomChanges(r, q.alpha2) then Ignore else AlreadySet
    else if r.wiphys[q.wiphy.value].ignoreCountryIe then Ignore
    else if !IsAnAlpha2(q.alpha2) then BadAlpha2
    else if !r.last.initiator.CountryIe? then Ok
    else if r.last.wiphy != q.wiphy then
      if RegdomChanges(r, q.alpha2) then Ignore else AlreadySet
    else if RegdomChanges(r, q.alpha2) then Ok
    else AlreadySet
  }

  predicate WiphyKnown(r: Reg, w: Option<nat>) {
    w.Some? && w.value in r.wiphys
  }

  /** The last request once `q` is accepted. */
  function Accepted(q: Request, intersect: bool): Request {
    q.(intersect := intersect, processed := false)
  }

  /** `reg_process_hint_core`. */
  function ProcessCore(r: Reg, q: Request, db: bool): Reg {
    if db then r.(last := Accepted(q, false)) else r
  }

  /** `reg_process_hint_user`. */
  function ProcessUser(r: Reg, q: Request, db: bool, baseDevices: nat): Reg {
    var t := TreatUser(r, q, baseDevices);
    if t.Ignore? || t.AlreadySet? || !db then r
    else r.(last := Accepted(q, t.Intersected?), userAlpha2 := q.alpha2)
  }

  /** `reg_process_hint_driver`, with whether the hint is settled on the spot. */
  function ProcessDriver(r: Reg, q: Request, db: bool): (Reg, bool) {
    if !WiphyKnown(r, q.wiphy) then (r, false)
    else
      var t := TreatDriver(r, q);
      var w := q.wiphy.value;
      var r1 := if t.Ok? then r else r.(wiphys := r.wiphys[w := r.wiphys[w].(regd := Some(r.current))]);
      var q1 := Accepted(q, t.Intersected?);
      if t.AlreadySet? then (r1.(last := q1), true)
      else (if db then r1.(last := q1) else r1, false)
  }

  /** `reg_process_hint_country_ie`. */
  function ProcessCountryIe(r: Reg, q: Request, db: bool): Reg {
    if !WiphyKnown(r, q.wiphy) then r
    else
      var t := TreatCountryIe(r, q);
      if t.Ignore? || t.AlreadySet? || !db then r else r.(last := Accepted(q, false))
  }

  /** `reg_process_hint`: the new state, and whether the hint is settled on the spot by
      `reg_set_request_processed`. `db` is what `reg_query_database` returns. */
  function ProcessHint(r: Reg, q: Request, db: bool, baseDevices: nat): (Reg, bool) {
    match q.initiator
    case Core => (ProcessCore(r, q, db), false)
    case User => (ProcessUser(r, q, db, baseDevices), false)
    case Driver => ProcessDriver(r, q, db)
    case CountryIe => (ProcessCountryIe(r, q, db), false)
  }

  /** Devices come and go; the last request forgets the index of a device that goes
      (`wiphy_regulatory_deregister`). */
  function WithDevices(r: Reg, wiphys: map<nat, Wiphy>): Reg {
    var gone := WiphyKnown(r, r.last.wiphy) && r.last.wiphy.value !in wiphys;
    r.(wiphys := wiphys, last := if gone then r.last.(wiphy := None) else r.last)
  }

  // ----- Installing an answer -----

  /** `reset_regdomains(false, rd)`. */
  function Reset(r: Reg, rd: Regdom): Reg {
    r.(current := rd, world := WORLD)
  }

  /** `reg_is_valid_request`. */
  predicate Awaited(r: Reg, a: Alpha2) {
    !r.last.processed && r.last.alpha2 == a
  }

  /** `reg_set_rd_core`. */
  function InstallCore(r: Reg, rd: Regdom): (Reg, int) {
    if rd.alpha2 != WORLD_ALPHA2 then (r, EINVAL) else (Reset(r, rd).(world := rd), 0)
  }

  /** `reg_set_rd_user`. */
  function InstallUser(r: Reg, rd: Regdom): (Reg, int) {
    if !RegdomChanges(r, rd.alpha2) then (r, EALREADY)
    else if !IsValidRd(rd) then (r, EINVAL)
    else if !r.last.intersect then (Reset(r, rd), 0)
    else
      var both := RegdomIntersection(rd, r.current);
      if both.None? then (r, EINVAL) else (Reset(r, both.value), 0)
  }

  /** The device of the last request gets a domain of its own. */
  function WithDeviceDomain(r: Reg, w: nat, rd: Regdom): Reg
    requires w in r.wiphys
  {
    r.(wiphys := r.wiphys[w := r.wiphys[w].(regd := Some(rd))])
  }

  /** `reg_set_rd_driver`. */
  function InstallDriver(r: Reg, rd: Regdom): (Reg, int) {
    if rd.alpha2 == WORLD_ALPHA2 then (r, EINVAL)
    else if !RegdomChanges(r, rd.alpha2) then (r, EALREADY)
    else if !IsValidRd(rd) then (r, EINVAL)
    else if !WiphyKnown(r, r.last.wiphy) then (r, ENODEV)
    else
      var w := r.last.wiphy.value;
      if !r.last.intersect then
        if r.wiphys[w].regd.Some? then (r, EALREADY) else (Reset(WithDeviceDomain(r, w, rd), rd), 0)
      else
        var both := RegdomIntersection(rd, r.current);
        if both.None? then (r, EINVAL) else (Reset(WithDeviceDomain(r, w, rd), both.value), 0)
  }

  /** `reg_set_rd_country_ie`. */
  function InstallCountryIe(r: Reg, rd: Regdom): (Reg, int) {
    if !IsAlpha2Set(rd.alpha2) && !IsAnAlpha2(rd.alpha2) && rd.alpha2 != UNKNOWN_ALPHA2 then (r, EINVAL)
    else if !IsValidRd(rd) then (r, EINVAL)
    else if !WiphyKnown(r, r.last.wiphy) then (r, ENODEV)
    else if r.last.intersect then (r, EINVAL)
    else (Reset(r, rd), 0)
  }

  /** What `set_regdom` does by the initiator of the last request, saving the user's domain before its
      own check: the new state and the error code. */
  function Install(r: Reg, rd: Regdom): (Reg, int) {
    match r.last.initiator
    case Core => InstallCore(r, rd)
    case User => InstallUser(r.(userRegdom := Some(rd)), rd)
    case Driver => InstallDriver(r, rd)
    case CountryIe => InstallCountryIe(r, rd)
  }

  // ----- Restoring -----

  /** `is_user_regdom_saved`. */
  predicate IsUserRegdomSaved(r: Reg) {
    r.userAlpha2 != NO_ALPHA2 && (r.userAlpha2 == WORLD_ALPHA2 || IsAnAlpha2(r.userAlpha2))
  }

  /** `restore_alpha2`; `param` is the module parameter. */
  function RestoreAlpha2(r: Reg, param: Alpha2, resetUser: bool): Alpha2 {
    if IsUserRegdomSaved(r) && !resetUser then r.userAlpha2
    else if param != WORLD_ALPHA2 then param
    else NO_ALPHA2
  }

  /** The domains and the last request go back to the built-in world, and a reset forgets the user. */
  function Restored(r: Reg, resetUser: bool): Reg {
    Reset(r, WORLD).(last := CORE_WORLD,
                     userAlpha2 := if IsUserRegdomSaved(r) && resetUser then NO_ALPHA2 else r.userAlpha2)
  }

  function CoreHint(a: Alpha2): Request {
    Request(None, Core, Upper(a), None, false, false, false)
  }

  function UserHint(a: Alpha2): Request {
    Request(None, User, Upper(a), None, false, false, false)
  }

  /** A cached restoration that finds the user's domain does not go through the queue. */
  predicate Uncached(r: Reg, param: Alpha2, resetUser: bool, cached: bool) {
    !(cached && (!IsAnAlpha2(RestoreAlpha2(r, param, resetUser)) || r.userRegdom.Some?))
  }

  // ----- What hint and answer achieve together -----

  lemma WorldIsValid()
    ensures IsValidRd(WORLD)
  {
    var rs := WORLD.rules;
    assert |rs| == 8;
    assert IsValidRule(rs[0]) && IsValidRule(rs[1]) && IsValidRule(rs[2]) && IsValidRule(rs[3]);
    assert IsValidRule(rs[4]) && IsValidRule(rs[5]) && IsValidRule(rs[6]) && IsValidRule(rs[7]);
  }

  /** The built-in world domain in kHz: where each rule begins and ends and how wide a channel may be, with
      20 dBm and 6 dBi on all but the last, and from which ones a device may not begin to radiate. */
  lemma WorldIs()
    ensures var r := WORLD.rules;
            && |r| == 8 && WORLD.alpha2 == Alpha2('0', '0')
            && r[0].start == 2_402_000 && r[0].end == 2_472_000 && r[0].maxBw == 40_000
            && r[1].start == 2_457_000 && r[1].end == 2_482_000 && r[1].maxBw == 20_000
            && r[2].start == 2_474_000 && r[2].end == 2_494_000 && r[2].maxBw == 20_000
            && r[3].start == 5_170_000 && r[3].end == 5_250_000 && r[3].maxBw == 80_000
            && r[4].start == 5_250_000 && r[4].end == 5_330_000 && r[4].maxBw == 80_000
            && r[5].start == 5_490_000 && r[5].end == 5_730_000 && r[5].maxBw == 160_000
            && r[6].start == 5_735_000 && r[6].end == 5_835_000 && r[6].maxBw == 80_000
            && r[7].start == 57_240_000 && r[7].end == 63_720_000 && r[7].maxBw == 2_160_000
            && (forall i :: 0 <= i < 8 ==> r[i].cacMs == 0 && r[i].wmm == NoWmm)
            && (forall i :: 0 <= i < 7 ==> r[i].maxEirp == 2000 && r[i].maxGain == 600)
            && (forall i :: 0 <= i < 8 ==> (NO_IR in r[i].flags <==> i != 0 && i != 7))
            && (forall i :: 0 <= i < 8 ==> (AutoBw in r[i].flags <==> i == 1 || i == 3 || i == 4))
            && (forall i :: 0 <= i < 8 ==> (DFS in r[i].flags <==> i == 4 || i == 5))
  {
  }

  // ----- What becomes of an answer -----

  /** After a core hint: only the world is taken, and becomes the world domain too. */
  lemma CoreAnswerIs(r: Reg, rd: Regdom)
    requires r.last.initiator.Core?
    ensures Install(r, rd) ==
            if rd.alpha2 == Alpha2('0', '0') then (r.(current := rd, world := rd), 0) else (r, -22)
  {
  }

  /** After a user's hint the answer is remembered, whatever becomes of it: agreement if its country is in
      force; refusal if it is not valid or, for an intersection, has nothing in common with the domain in
      force; else it, or the intersection, is in force, with the built-in world domain behind it. */
  lemma UserAnswerIs(r: Reg, rd: Regdom)
    requires r.last.initiator.User?
    ensures var both := RegdomIntersection(rd, r.current);
            var kept := r.(userRegdom := Some(rd));
            Install(r, rd) ==
            if rd.alpha2 == r.current.alpha2 then (kept, -114)
            else if !IsValidRd(rd) || (r.last.intersect && both.None?) then (kept, -22)
            else (kept.(current := if r.last.intersect then both.value else rd, world := WORLD), 0)
  {
    hide RegdomIntersection, IsValidRd;
  }

  /** After a driver's hint: never the world; agreement if its country is in force or its device, without
      an intersection, has a domain already; refusal if it is not valid, has nothing in common, or the
      device is gone; else the device gets it, and it or the intersection is in force. */
  lemma DriverAnswerIs(r: Reg, rd: Regdom)
    requires r.last.initiator.Driver?
    ensures var both := RegdomIntersection(rd, r.current);
            var (t, code) := Install(r, rd);
            var here := r.last.wiphy.Some? && r.last.wiphy.value in r.wiphys;
            && (code == 0 || code == -114 || code == -19 || code == -22) && (code != 0 ==> t == r)
            && (code == -114 <==>
                  && rd.alpha2 != Alpha2('0', '0')
                  && (rd.alpha2 == r.current.alpha2 ||
                      (IsValidRd(rd) && here && !r.last.intersect && r.wiphys[r.last.wiphy.value].regd.Some?)))
            && (code == -19 <==>
                  rd.alpha2 != Alpha2('0', '0') && rd.alpha2 != r.current.alpha2 && IsValidRd(rd) && !here)
            && (code == 0 <==>
                  && rd.alpha2 != Alpha2('0', '0') && rd.alpha2 != r.current.alpha2 && IsValidRd(rd) && here
                  && (if r.last.intersect then both.Some? else r.wiphys[r.last.wiphy.value].regd.None?))
            && (code == 0 ==>
                  var w := r.last.wiphy.value;
                  t == r.(current := if r.last.intersect then both.value else rd, world := WORLD,
                          wiphys := r.wiphys[w := r.wiphys[w].(regd := Some(rd))]))
  {
    hide RegdomIntersection, IsValidRd;
  }

  /** After a country element: the answer must name a country, or the unknown one, be valid, its device
      present, and no intersection asked for; then it is in force. */
  lemma ElementAnswerIs(r: Reg, rd: Regdom)
    requires r.last.initiator.CountryIe?
    ensures var here := r.last.wiphy.Some? && r.last.wiphy.value in r.wiphys;
            var named := rd.alpha2.a != '\0' && rd.alpha2.b != '\0';
            Install(r, rd) ==
            if !named || !IsValidRd(rd) then (r, -22)
            else if !here then (r, -19)
            else if r.last.intersect then (r, -22)
            else (r.(current := rd, world := WORLD), 0)
  {
    hide RegdomIntersection, IsValidRd;
  }

  /** `q` is judged in a settled state and becomes the request an answer is awaited for. */
  ghost predicate Accepts(r: Reg, q: Request, db: bool, baseDevices: nat) {
    r.last.processed && ProcessHint(r, q, db, baseDevices).0.last != r.last && !ProcessHint(r, q, db, baseDevices).1
  }

  /** What becomes of a user's hint. With a database to ask, a base station is accepted if a device
      supports it, unless it repeats the country that a base station put in force. Any other user is
      accepted when a country element is last, and else when the country of the last request is in
      force, is not the wanted one, and is not that of a base station or of a user who asked for an
      intersection. It is an intersection exactly for other users after a country element. */
  lemma UserHintIs(r: Reg, q: Request, db: bool, baseDevices: nat)
    requires q.initiator.User?
    ensures var inForce, last := r.current.alpha2, r.last;
            var overBase := last.initiator.User? && last.cellBase;
            var taken :=
              if q.cellBase then baseDevices > 0 && !(overBase && inForce == q.alpha2)
              else !overBase && (last.initiator.CountryIe? ||
                                 (inForce == last.alpha2 != q.alpha2 && !(last.initiator.User? && last.intersect)));
            ProcessHint(r, q, db, baseDevices) ==
            (if db && taken then
               r.(userAlpha2 := q.alpha2,
                  last := q.(processed := false, intersect := last.initiator.CountryIe? && !q.cellBase))
             else r, false)
  {
  }

  /** What becomes of a driver's hint for a present device. After a core hint that left another country
      in force it stands alone; after a core or driver's hint that left its own country in force it is
      settled on the spot; else it is an intersection. Unless it stands alone the device gets the domain
      in force. */
  lemma DriverHintIs(r: Reg, q: Request, db: bool, baseDevices: nat)
    requires q.initiator.Driver? && q.wiphy.Some? && q.wiphy.value in r.wiphys
    ensures var w, core := q.wiphy.value, r.last.initiator.Core?;
            var agrees := r.current.alpha2 == q.alpha2 && (core || r.last.initiator.Driver?);
            var (r1, settles) := ProcessHint(r, q, db, baseDevices);
            && (settles <==> agrees)
            && r1.last == (if agrees then q.(processed := false, intersect := false)
                           else if db then q.(processed := false, intersect := !core) else r.last)
            && r1.wiphys[w] == (if core && !agrees then r.wiphys[w] else r.wiphys[w].(regd := Some(r.current)))
            && r1 == r.(last := r1.last, wiphys := r.wiphys[w := r1.wiphys[w]])
  {
    assert r.wiphys[q.wiphy.value := r.wiphys[q.wiphy.value]] == r.wiphys;
  }

  /** What becomes of a country element from a present device: nothing under a base station, without a
      database, or if the device ignores elements; else it is accepted if it names no country, if no
      element is last, and if its own device's element is last and another country is in force. It never
      is an intersection. */
  lemma ElementHintIs(r: Reg, q: Request, db: bool, baseDevices: nat)
    requires q.initiator.CountryIe? && q.wiphy.Some? && q.wiphy.value in r.wiphys
    ensures var own, last := r.last.wiphy == q.wiphy, r.last;
            var taken :=
              && !(last.initiator.User? && last.cellBase) && !r.wiphys[q.wiphy.value].ignoreCountryIe
              && (!(IsAlpha(q.alpha2.a) && IsAlpha(q.alpha2.b)) || !last.initiator.CountryIe? ||
                  (own && r.current.alpha2 != q.alpha2));
            ProcessHint(r, q, db, baseDevices) ==
            (if db && taken then r.(last := q.(processed := false, intersect := false)) else r, false)
  {
  }

  /** Of the hints that are not accepted, these agree with what is in force and the rest are ignored; an
      element that agrees is freed on the spot. A plain user agrees where the country of the last request
      is in force and is the wanted one, a base station after a base station; an element agrees under a
      base station and, if it names a country and its device listens, after any element. */
  lemma AgreementIs(r: Reg, q: Request, baseDevices: nat)
    ensures var same, last := r.current.alpha2 == q.alpha2, r.last;
            var overBase := last.initiator.User? && last.cellBase;
            && (q.initiator.User? ==>
                  (TreatUser(r, q, baseDevices) == AlreadySet <==>
                     same && if q.cellBase then overBase && baseDevices > 0
                             else !overBase && !last.initiator.CountryIe? && last.alpha2 == q.alpha2 &&
                                  !(last.initiator.User? && last.intersect)))
            && (q.wiphy.Some? && q.wiphy.value in r.wiphys ==>
                  var letters := IsAlpha(q.alpha2.a) && IsAlpha(q.alpha2.b);
                  var heard := !overBase && !r.wiphys[q.wiphy.value].ignoreCountryIe;
                  && (TreatCountryIe(r, q) == AlreadySet <==>
                        same && (overBase || (heard && letters && last.initiator.CountryIe?)))
                  && (TreatCountryIe(r, q) == BadAlpha2 <==> heard && !letters))
  {
  }

  /** A core hint is accepted whenever there is a database to ask; a driver or an element of a device that
      is not there changes nothing. */
  lemma OtherHintsAre(r: Reg, q: Request, db: bool, baseDevices: nat)
    ensures q.initiator.Core? ==>
              ProcessHint(r, q, db, baseDevices) ==
              (if db then r.(last := q.(processed := false, intersect := false)) else r, false)
    ensures (q.initiator.Driver? || q.initiator.CountryIe?) && !(q.wiphy.Some? && q.wiphy.value in r.wiphys) ==>
              ProcessHint(r, q, db, baseDevices) == (r, false)
  {
  }

  /** When devices come and go, the last request loses its device exactly when that one was there and no
      longer is; nothing else changes. */
  lemma DevicesGo(r: Reg, wiphys: map<nat, Wiphy>)
    ensures var t := WithDevices(r, wiphys);
            && t == r.(wiphys := wiphys, last := r.last.(wiphy := t.last.wiphy))
            && (t.last.wiphy.Some? ==> t.last.wiphy == r.last.wiphy)
            && (r.last.wiphy.Some? ==>
                  (t.last.wiphy.None? <==> r.last.wiphy.value in r.wiphys && r.last.wiphy.value !in wiphys))
  {
  }

  /** Which hints, once accepted, ask for an intersection. */
  lemma WhoIntersects(r: Reg, q: Request, db: bool, baseDevices: nat)
    requires Accepts(r, q, db, baseDevices)
    ensures ProcessHint(r, q, db, baseDevices).0.last.intersect <==>
            match q.initiator
            case User => r.last.initiator.CountryIe? && !q.cellBase
            case Driver => !r.last.initiator.Core?
            case _ => false
  {
  }

  /** A sane domain of the country an accepted hint named is installed, unless the hint asked for an
      intersection, exactly when: a core hint named the world; a user hint from a base station named
      a change; a driver hint did not name the world and its device had no domain; a country
      element named a country at all. Other user hints always get their domain. */
  lemma AcceptedHintIsInstalled(r: Reg, q: Request, db: bool, baseDevices: nat, rd: Regdom)
    requires Accepts(r, q, db, baseDevices) && rd.alpha2 == q.alpha2 && IsValidRd(rd)
    requires !ProcessHint(r, q, db, baseDevices).0.last.intersect
    ensures var r1 := ProcessHint(r, q, db, baseDevices).0;
            var (r2, code) := Install(r1, rd);
            && Awaited(r1, rd.alpha2)
            && (code == 0 <==> match q.initiator
                               case Core => q.alpha2 == WORLD_ALPHA2
                               case User => q.cellBase ==> RegdomChanges(r, q.alpha2)
                               case Driver => q.alpha2 != WORLD_ALPHA2 && r.wiphys[q.wiphy.value].regd.None?
                               case CountryIe => q.alpha2.a != '\0' && q.alpha2.b != '\0')
            && (code == 0 ==> r2.current == rd)
            && (code != 0 ==> r2.current == r.current)
  {
    hide IsValidRd, RegdomIntersection;
  }

  /** The same hint again, once its domain is installed and settled, changes nothing or (from a
      driver) settles on the spot, unless it is a country element that names no country: that one
      is accepted every time. */
  lemma RepeatedHintIsSettled(r: Reg, q: Request, db: bool, baseDevices: nat, rd: Regdom, db': bool, baseDevices': nat)
    requires Accepts(r, q, db, baseDevices) && rd.alpha2 == q.alpha2 && !q.initiator.Core?
    requires var r1 := ProcessHint(r, q, db, baseDevices).0;
             !r1.last.intersect && Install(r1, rd).1 == 0
    ensures var r2 := Install(ProcessHint(r, q, db, baseDevices).0, rd).0;
            var r3 := r2.(last := r2.last.(processed := true));
            var (r4, settles) := ProcessHint(r3, q, db', baseDevices');
            && r4.current == rd && r4.userAlpha2 == r3.userAlpha2 && r4.last.alpha2 == q.alpha2
            && (settles || r4 == r3 <==> !(q.initiator.CountryIe? && !IsAnAlpha2(q.alpha2) && db'))
            && (settles ==> q.initiator.Driver? && r4.wiphys[q.wiphy.value].regd == Some(rd))
  {
    hide IsValidRd, RegdomIntersection;
  }

  /** What an intersecting answer puts in force records exactly the bands that both the answer and the
      old domain grant. From then on, user hints that do not come from a base station are ignored
      until another kind of hint is accepted. */
  lemma IntersectionRecordsBoth(r: Reg, rd: Regdom, lo: int, hi: int)
    requires r.last.intersect && Install(r, rd).1 == 0 && !r.last.initiator.Core?
    ensures var r2 := Install(r, rd).0;
            && r2.current.alpha2 == INTERSECTED
            && (Records(r2.current, lo, hi) <==> exists i: nat, j: nat :: BothGrant(rd, r.current, i, j, lo, hi))
    ensures var r2 := Install(r, rd).0;
            r2.last.initiator.User? ==>
              forall q: Request, db, baseDevices :: q.initiator.User? && !q.cellBase ==>
                ProcessHint(r2, q, db, baseDevices).0 == r2
  {
    SpectrumIsExact(rd, r.current, lo, hi);
    hide IsValidRd, Records, BothGrant;
  }

  /** What it really grants inside one rule, automatic bandwidth worked out anew: no band that a sealed
      old domain or a sealed answer does not grant. As each such answer is one cut, the same holds for
      good, however many follow (`RegBandwidth.SealedForGood`). Ordered domains stay ordered. */
  lemma IntersectionGrants(r: Reg, rd: Regdom)
    requires r.last.intersect && Install(r, rd).1 == 0 && !r.last.initiator.Core?
    ensures var r2 := Install(r, rd).0;
            && r2.current == After(r.current, Cut(rd, true)) && Common(r.current, Cut(rd, true)).Some?
            && (Sealed(r.current) ==> NoWider(r2.current, r.current))
            && (Sealed(rd) ==> NoWider(r2.current, rd))
            && (Ordered(r.current.rules) && Ordered(rd.rules) ==> Ordered(r2.current.rules))
  {
    assert RegdomIntersection(rd, r.current) == Some(Install(r, rd).0.current);
    SealedIsEnough(rd, r.current);
    if Ordered(r.current.rules) && Ordered(rd.rules) {
      OutputIsOrdered(rd, r.current);
    }
    hide Install, RegdomIntersection, Sealed, NoWider, Ordered;
  }

  /** The bandwidth it gives each rule, the number that is compared with channel widths: within a rule
      of the answer, when the answer ascends, its rules overlap by 2 kHz at most, and no rule of the old
      domain begins beyond the end of a later one; and within a rule of the old domain if that ascends.
      The new domain is again as the old one was, so that the same holds for good, however many such
      answers follow (`RegChains.NumbersForGood`). */
  lemma IntersectionBandwidth(r: Reg, rd: Regdom)
    requires r.last.intersect && Install(r, rd).1 == 0 && !r.last.initiator.Core?
    requires Reaching(r.current.rules) && Ascending(rd.rules) && Narrow(rd.rules)
    ensures Reaching(Install(r, rd).0.current.rules) && NarrowCut(Cut(rd, true))
    ensures KeepsBandwidth(Install(r, rd).0.current, rd)
    ensures Ascending(r.current.rules) ==> KeepsBandwidth(Install(r, rd).0.current, r.current)
  {
    hide RegdomIntersection, Ascending, Narrow, Reaching, KeepsBandwidth, IsValidRd;
    assert RegdomIntersection(rd, r.current) == Some(Install(r, rd).0.current);
    hide Install;
    NarrowIsEnough(rd, r.current);
    OutputReaches(rd, r.current);
  }

  /** The built-in world domain ascends, though it is not ordered. */
  lemma WorldAscends()
    ensures Ascending(WORLD.rules) && Reaching(WORLD.rules) && !Ordered(WORLD.rules)
  {
    WorldIsValid();
    hide IsValidRule;
    AscendingReaches(WORLD.rules);
    var rs := WORLD.rules;
    assert rs[0].end > rs[1].start;
  }

  /** Sealed domains are not enough for the number: a valid answer to a user's intersecting request is
      installed, both domains are sealed, and a rule of the domain in force has the bandwidth of an
      underflow. */
  lemma BandwidthCanWrap() returns (r: Reg, rd: Regdom)
    ensures r.last.initiator.User? && r.last.intersect && Awaited(r, rd.alpha2)
    ensures IsValidRd(r.current) && IsValidRd(rd) && Sealed(r.current) && Sealed(rd)
    ensures Install(r, rd).1 == 0 && |Install(r, rd).0.current.rules| == 4
    ensures EffectiveBw(Install(r, rd).0.current.rules, 1) == 4_294_727_296
    ensures !KeepsBandwidth(Install(r, rd).0.current, r.current) && !KeepsBandwidth(Install(r, rd).0.current, rd)
  {
    TwoBandsAreSealed();
    TwoBandsWrap();
    hide RegdomIntersection, IsValidRd, EffectiveBw, Sealed;
    var q := Request(Some(0), User, OVERLAPPING.alpha2, None, false, true, false);
    r := Reg(q, TWO_BANDS, WORLD, OVERLAPPING.alpha2, None, map[]);
    rd := OVERLAPPING;
    var out := Install(r, rd).0.current;
    assert !Bounded(out, 1, TWO_BANDS) && !Bounded(out, 1, OVERLAPPING);
  }

  /** An unsealed old domain can be widened inside one rule as well: a valid answer to a user's intersecting request is
      installed and grants a band the old, valid domain did not grant. */
  lemma IntersectionCanWiden() returns (r: Reg, rd: Regdom)
    ensures r.last.initiator.User? && r.last.intersect && Awaited(r, rd.alpha2)
    ensures IsValidRd(r.current) && IsValidRd(rd) && Install(r, rd).1 == 0
    ensures Grants(Install(r, rd).0.current, 0, 10, 100) && !GrantsSome(r.current, 10, 100)
  {
    NestedWidens();
    hide RegdomIntersection, IsValidRd, Grants, GrantsSome;
    var q := Request(Some(0), User, PLAIN.alpha2, None, false, true, false);
    r := Reg(q, NESTED, WORLD, PLAIN.alpha2, None, map[]);
    rd := PLAIN;
  }

  /** An installed domain is the answer itself unless an intersection was asked for, so the sanity
      warning after an installation never fires; and it passes the domain check, except that a core
      answer is not checked and that an intersection may have too many rules. */
  lemma InstalledIsSane(r: Reg, rd: Regdom)
    requires Install(r, rd).1 == 0
    ensures var r2 := Install(r, rd).0;
            && (!r.last.intersect || r.last.initiator.Core? ==> r2.current == rd)
            && (!r.last.initiator.Core? && !r.last.intersect ==> IsValidRd(r2.current))
            && (!r.last.initiator.Core? && r.last.intersect ==>
                  (IsValidRd(r2.current) <==> |r2.current.rules| <= MAX_SUPP_REG_RULES))
  {
    if !r.last.initiator.Core? && r.last.intersect {
      IntersectionIsValidRd(rd, r.current);
    }
    hide IsValidRd, RegdomIntersection;
  }

  /** Agreement (EALREADY) leaves the domain in force. Either it is the answer's country already, or a
      driver's device has a domain of its own; then the request counts as processed although its
      country is not in force, and from there on plain user hints are ignored. */
  lemma AgreementOrOwnDomain(r: Reg, rd: Regdom)
    requires Awaited(r, rd.alpha2) && Install(r, rd).1 == EALREADY
    ensures var r2 := Install(r, rd).0;
            r2.current == r.current && r2.last == r.last && r2.wiphys == r.wiphys
    ensures RegdomChanges(r, rd.alpha2) ==>
              r.last.initiator.Driver? && !r.last.intersect && r.wiphys[r.last.wiphy.value].regd.Some?
    ensures var r3 := Install(r, rd).0.(last := r.last.(processed := true));
            RegdomChanges(r, rd.alpha2) ==>
              forall q: Request, db, baseDevices :: q.initiator.User? && !q.cellBase ==>
                ProcessHint(r3, q, db, baseDevices) == (r3, false)
  {
    hide IsValidRd, RegdomIntersection;
  }

  /** What an intersecting driver hint leaves behind: the whole machine runs on the intersection, the
      device keeps what its driver asked for, and no other device changes. */
  lemma DriverKeepsItsDomain(r: Reg, q: Request, db: bool, baseDevices: nat, rd: Regdom)
    requires Accepts(r, q, db, baseDevices) && q.initiator.Driver? && rd.alpha2 == q.alpha2
    requires ProcessHint(r, q, db, baseDevices).0.last.intersect
    requires Install(ProcessHint(r, q, db, baseDevices).0, rd).1 == 0
    ensures var r2 := Install(ProcessHint(r, q, db, baseDevices).0, rd).0;
            && !r.last.initiator.Core?
            && RegdomIntersection(rd, r.current) == Some(r2.current)
            && r2.wiphys == r.wiphys[q.wiphy.value := r.wiphys[q.wiphy.value].(regd := Some(rd))]
  {
    hide IsValidRd, RegdomIntersection;
  }

  /** The world domain has the rules of the built-in one or those in force. */
  predicate WorldOk(r: Reg) {
    r.world == WORLD || r.world == r.current
  }

  lemma WorldStaysOk(r: Reg, q: Request, db: bool, baseDevices: nat, rd: Regdom, resetUser: bool)
    requires WorldOk(r)
    ensures WorldOk(ProcessHint(r, q, db, baseDevices).0)
    ensures WorldOk(Install(r, rd).0) && WorldOk(Restored(r, resetUser))
  {
    hide IsValidRd, RegdomIntersection;
  }
}
