/** Regulatory rules and domains: sanity check, auto bandwidth, intersection and
    the containment merge (net/wireless/reg.c). */
module RegRules {
  import opened Words

  /** `NL80211_RRF_*` as a set; `Other` stands for every bit this file does not look at. */
  datatype Flag = AutoBw | NoHt40Minus | NoHt40Plus | No80Mhz | No160Mhz | No320Mhz | Other(bit: nat)

  datatype WmmAc = WmmAc(cwMin: nat, cwMax: nat, cot: nat, aifsn: nat)

  /** `has_wmm` and, when set, the parameters of the four access categories. */
  datatype Wmm = NoWmm | HasWmm(client: seq<WmmAc>, ap: seq<WmmAc>)

  datatype Rule = Rule(start: u32, end: u32, maxBw: u32, maxEirp: u32, maxGain: u32,
                       flags: set<Flag>, cacMs: u32, wmm: Wmm)

  datatype Alpha2 = Alpha2(a: char, b: char)

  datatype DfsRegion = Unset | Fcc | Etsi | Jp

  datatype Regdom = Regdom(alpha2: Alpha2, dfs: DfsRegion, rules: seq<Rule>)

  const INTERSECTED := Alpha2('9', '8')
  const MAX_SUPP_REG_RULES := 128

  predicate IsValidRule(r: Rule) {
    if r.start <= 0 || r.end <= 0 then false
    else if r.start > r.end then false
    else
      var diff := Wrap32(r.end - r.start);
      !(r.end <= r.start || r.maxBw > diff)
  }

  /** `is_valid_rd`. */
  predicate IsValidRd(rd: Regdom) {
    rd.rules != [] && |rd.rules| <= MAX_SUPP_REG_RULES &&
    forall i :: 0 <= i < |rd.rules| ==> IsValidRule(rd.rules[i])
  }

  // ----- Automatic bandwidth -----

  /** Rules `k` and `k+1` touch or overlap, the test both walks stop at. */
  predicate Linked(rules: seq<Rule>, k: nat)
    requires k + 1 < |rules|
  {
    rules[k].end >= rules[k + 1].start
  }

  /** Where the walk towards lower indices stops. */
  function Low(rules: seq<Rule>, i: nat): (lo: nat)
    requires i < |rules|
    ensures lo <= i
  {
    if i == 0 || !Linked(rules, i - 1) then i else Low(rules, i - 1)
  }

  /** Where the walk towards higher indices stops. */
  function High(rules: seq<Rule>, i: nat): (hi: nat)
    requires i < |rules|
    ensures i <= hi < |rules|
    decreases |rules| - i
  {
    if i == |rules| - 1 || !Linked(rules, i) then i else High(rules, i + 1)
  }

  function RangeBandwidth(rules: seq<Rule>, i: nat): u32
    requires i < |rules|
  {
    Wrap32(rules[High(rules, i)].end - rules[Low(rules, i)].start)
  }

  /** `reg_get_max_bandwidth_from_range`; the rule is named by its position, and a position
      outside the domain stands for a rule that is not one of its rules. */
  method MaxBandwidthFromRange(rules: seq<Rule>, pos: nat) returns (bw: u32)
    ensures bw == if pos < |rules| then RangeBandwidth(rules, pos) else 0
  {
    var idx := 0;
    while idx < |rules| && pos != idx
      invariant idx <= |rules| && idx <= pos
    {
      idx := idx + 1;
    }
    if idx == |rules| {
      return 0;
    }
    var no, range := idx, rules[idx];
    while no != 0
      invariant no <= idx && range == rules[no] && Low(rules, no) == Low(rules, idx)
    {
      var tmp := rules[no - 1];
      if tmp.end < range.start {
        break;
      }
      no, range := no - 1, tmp;
    }
    var startFreq := range.start;
    no, range := idx, rules[idx];
    while no < |rules| - 1
      invariant idx <= no < |rules| && range == rules[no] && High(rules, no) == High(rules, idx)
    {
      var tmp := rules[no + 1];
      if tmp.start > range.end {
        break;
      }
      no, range := no + 1, tmp;
    }
    return Wrap32(range.end - startFreq);
  }

  /** Independent definition of a chain: every neighbouring pair from `lo` to `hi` is linked. */
  ghost predicate ChainFrom(rules: seq<Rule>, lo: nat, hi: nat) {
    lo <= hi < |rules| && forall k: nat :: lo <= k < hi ==> Linked(rules, k)
  }

  ghost predicate SameChain(rules: seq<Rule>, i: nat, j: nat) {
    ChainFrom(rules, i, j) || ChainFrom(rules, j, i)
  }

  lemma {:induction false} LowIsMaximal(rules: seq<Rule>, i: nat)
    requires i < |rules|
    ensures ChainFrom(rules, Low(rules, i), i)
    ensures Low(rules, i) == 0 || !Linked(rules, Low(rules, i) - 1)
  {
    if i == 0 || !Linked(rules, i - 1) {
    } else {
      LowIsMaximal(rules, i - 1);
    }
  }

  lemma {:induction false} HighIsMaximal(rules: seq<Rule>, i: nat)
    requires i < |rules|
    ensures ChainFrom(rules, i, High(rules, i))
    ensures High(rules, i) == |rules| - 1 || !Linked(rules, High(rules, i))
    decreases |rules| - i
  {
    if i == |rules| - 1 || !Linked(rules, i) {
    } else {
      HighIsMaximal(rules, i + 1);
    }
  }

  /** The two walks from `i` bound exactly the maximal run of linked rules around `i`. */
  lemma ChainIsWalked(rules: seq<Rule>, i: nat, j: nat)
    requires i < |rules| && j < |rules|
    ensures SameChain(rules, i, j) <==> Low(rules, i) <= j <= High(rules, i)
  {
    LowIsMaximal(rules, i);
    HighIsMaximal(rules, i);
  }

  /** Every rule of one maximal chain gets the same automatic bandwidth. */
  lemma ChainSharesBandwidth(rules: seq<Rule>, i: nat, j: nat)
    requires i < |rules| && j < |rules| && SameChain(rules, i, j)
    ensures Low(rules, i) == Low(rules, j) && High(rules, i) == High(rules, j)
    ensures RangeBandwidth(rules, i) == RangeBandwidth(rules, j)
  {
    LowIsMaximal(rules, i);
    LowIsMaximal(rules, j);
    HighIsMaximal(rules, i);
    HighIsMaximal(rules, j);
  }

  /** No gap: each frequency between the first start and the last end of a chain lies in one
      of its rules, whatever the order of the starts. */
  lemma {:induction false} ChainHasNoGap(rules: seq<Rule>, lo: nat, hi: nat, freq: u32) returns (k: nat)
    requires ChainFrom(rules, lo, hi)
    requires rules[lo].start <= freq <= rules[hi].end
    ensures lo <= k <= hi && rules[k].start <= freq <= rules[k].end
    decreases hi
  {
    if hi == lo || rules[hi].start <= freq {
      k := hi;
    } else {
      assert Linked(rules, hi - 1);
      k := ChainHasNoGap(rules, lo, hi - 1, freq);
    }
  }

  /** The bandwidth is the plain width of the chain exactly when the chain does not run backwards. */
  lemma ChainBandwidthExact(rules: seq<Rule>, i: nat)
    requires i < |rules|
    ensures RangeBandwidth(rules, i) == rules[High(rules, i)].end - rules[Low(rules, i)].start
            <==> rules[Low(rules, i)].start <= rules[High(rules, i)].end
  {
  }

  /** In a domain of valid rules sorted by start the subtraction never wraps. */
  lemma AscendingStartsNeverWrap(rules: seq<Rule>, i: nat)
    requires i < |rules|
    requires forall a: nat, b: nat :: a < b < |rules| ==> rules[a].start <= rules[b].start
    requires forall a: nat :: a < |rules| ==> IsValidRule(rules[a])
    ensures RangeBandwidth(rules, i) == rules[High(rules, i)].end - rules[Low(rules, i)].start
  {
    var lo, hi := Low(rules, i), High(rules, i);
    assert rules[lo].start <= rules[hi].start;
    assert IsValidRule(rules[hi]);
    ChainBandwidthExact(rules, i);
  }

  // ----- Intersecting two rules -----

  /** A bandwidth cut down by the bandwidth flags. */
  function Capped(f: set<Flag>, bw0: u32): u32 {
    var bw1 := if No320Mhz in f then Min(bw0, 160000) else bw0;
    var bw2 := if No160Mhz in f then Min(bw1, 80000) else bw1;
    var bw3 := if No80Mhz in f then Min(bw2, 40000) else bw2;
    if NoHt40Minus in f && NoHt40Plus in f then Min(bw3, 20000) else bw3
  }

  /** The caps one by one: 160 MHz where 320 is forbidden, and so on down to 20 MHz where both neighbours
      are. */
  lemma CapsAre(f: set<Flag>, bw: u32, w: int)
    ensures w <= Capped(f, bw) <==>
            && w <= bw && (No320Mhz in f ==> w <= 160_000) && (No160Mhz in f ==> w <= 80_000)
            && (No80Mhz in f ==> w <= 40_000) && (NoHt40Minus in f && NoHt40Plus in f ==> w <= 20_000)
  {
  }

  /** `reg_get_max_bandwidth`: the run width, capped by the bandwidth flags. */
  function AutoBandwidth(rules: seq<Rule>, i: nat): u32
    requires i < |rules|
  {
    Capped(rules[i].flags, RangeBandwidth(rules, i))
  }

  /** The bandwidth a rule of a domain really grants. */
  function EffectiveBw(rules: seq<Rule>, i: nat): u32
    requires i < |rules|
  {
    if AutoBw in rules[i].flags then AutoBandwidth(rules, i) else rules[i].maxBw
  }

  function WmmAcIntersect(a: WmmAc, b: WmmAc): WmmAc {
    WmmAc(Max(a.cwMin, b.cwMin), Max(a.cwMax, b.cwMax), Min(a.cot, b.cot), Max(a.aifsn, b.aifsn))
  }

  function WmmAcsIntersect(a: seq<WmmAc>, b: seq<WmmAc>): seq<WmmAc> {
    if |a| == 0 || |b| == 0 then []
    else [WmmAcIntersect(a[0], b[0])] + WmmAcsIntersect(a[1..], b[1..])
  }

  function WmmIntersect(a: Wmm, b: Wmm): Wmm {
    if a.HasWmm? && b.HasWmm? then
      HasWmm(WmmAcsIntersect(a.client, b.client), WmmAcsIntersect(a.ap, b.ap))
    else if a.HasWmm? then a else b
  }

  /** `reg_rules_intersect` before its final sanity check, given the bandwidths the rules grant. */
  function IntersectRules(r1: Rule, bw1: u32, r2: Rule, bw2: u32): Rule {
    var start := Max(r1.start, r2.start);
    var end := Min(r1.end, r2.end);
    var bw := Min(bw1, bw2);
    var joint := r1.flags + r2.flags;
    var flags := if AutoBw in r1.flags && AutoBw in r2.flags then joint + {AutoBw} else joint - {AutoBw};
    var diff := Wrap32(end - start);
    Rule(start, end, if bw > diff then diff else bw, Min(r1.maxEirp, r2.maxEirp),
         Min(r1.maxGain, r2.maxGain), flags, Max(r1.cacMs, r2.cacMs), WmmIntersect(r1.wmm, r2.wmm))
  }

  function Intersect(rd1: seq<Rule>, rd2: seq<Rule>, i: nat, j: nat): Rule
    requires i < |rd1| && j < |rd2|
  {
    IntersectRules(rd1[i], EffectiveBw(rd1, i), rd2[j], EffectiveBw(rd2, j))
  }

  /** No output field is looser than in either of the two rules. */
  ghost predicate Restricts(r: Rule, r1: Rule, bw1: u32) {
    && r1.start <= r.start < r.end <= r1.end && 0 < r.start
    && r.maxBw <= bw1 && r.maxBw <= r.end - r.start
    && r.maxEirp <= r1.maxEirp && r.maxGain <= r1.maxGain && r.cacMs >= r1.cacMs
    && r1.flags - {AutoBw} <= r.flags && (AutoBw in r.flags ==> AutoBw in r1.flags)
  }

  lemma IntersectRestricts(r1: Rule, bw1: u32, r2: Rule, bw2: u32)
    requires IsValidRule(IntersectRules(r1, bw1, r2, bw2))
    ensures Restricts(IntersectRules(r1, bw1, r2, bw2), r1, bw1)
    ensures Restricts(IntersectRules(r1, bw1, r2, bw2), r2, bw2)
  {
  }

  /** And none is tighter than it has to be: whatever restricts both rules restricts their intersection. */
  lemma IntersectIsGreatest(r1: Rule, bw1: u32, r2: Rule, bw2: u32, q: Rule)
    requires Restricts(q, r1, bw1) && Restricts(q, r2, bw2) && 0 < Max(r1.start, r2.start)
    ensures IsValidRule(IntersectRules(r1, bw1, r2, bw2))
    ensures var r := IntersectRules(r1, bw1, r2, bw2); Restricts(q, r, r.maxBw)
  {
  }

  /** A pair contributes exactly when the common range starts above zero and is not empty. */
  lemma PairContributes(r1: Rule, bw1: u32, r2: Rule, bw2: u32)
    ensures IsValidRule(IntersectRules(r1, bw1, r2, bw2)) <==>
            0 < Max(r1.start, r2.start) < Min(r1.end, r2.end)
  {
  }

  /** A rule that grants bandwidth `bw` lets the band `[lo, hi]` through. */
  ghost predicate LetsThrough(r: Rule, bw: u32, lo: int, hi: int) {
    r.start <= lo < hi <= r.end && hi - lo <= bw
  }

  /** Two rules let the same band through exactly when their intersection is valid and does. */
  lemma IntersectIsMeet(r1: Rule, bw1: u32, r2: Rule, bw2: u32, lo: int, hi: int)
    requires 0 < Max(r1.start, r2.start)
    ensures var r := IntersectRules(r1, bw1, r2, bw2);
            IsValidRule(r) && LetsThrough(r, r.maxBw, lo, hi) <==>
            LetsThrough(r1, bw1, lo, hi) && LetsThrough(r2, bw2, lo, hi)
  {
  }

  lemma {:induction false} WmmAcsAt(a: seq<WmmAc>, b: seq<WmmAc>, k: nat)
    requires k < |a| && k < |b|
    ensures |WmmAcsIntersect(a, b)| == if |a| <= |b| then |a| else |b|
    ensures WmmAcsIntersect(a, b)[k] == WmmAcIntersect(a[k], b[k])
  {
    if k == 0 {
      WmmLength(a, b);
    } else {
      WmmAcsAt(a[1..], b[1..], k - 1);
    }
  }

  lemma {:induction false} WmmLength(a: seq<WmmAc>, b: seq<WmmAc>)
    ensures |WmmAcsIntersect(a, b)| == if |a| <= |b| then |a| else |b|
  {
    if a != [] && b != [] {
      WmmLength(a[1..], b[1..]);
    }
  }

  /** Category by category the longer contention windows and interframe space and the shorter channel
      occupancy of the two, and either rule's parameters where the other has none. */
  lemma WmmIsMeet(a: Wmm, b: Wmm, k: nat)
    ensures a.NoWmm? ==> WmmIntersect(a, b) == b
    ensures b.NoWmm? ==> WmmIntersect(a, b) == a
    ensures a.HasWmm? && b.HasWmm? && k < |a.client| && k < |b.client| ==>
              var w := WmmIntersect(a, b);
              w.HasWmm? && k < |w.client| && StricterAc(w.client[k], a.client[k], b.client[k])
    ensures a.HasWmm? && b.HasWmm? && k < |a.ap| && k < |b.ap| ==>
              var w := WmmIntersect(a, b);
              w.HasWmm? && k < |w.ap| && StricterAc(w.ap[k], a.ap[k], b.ap[k])
  {
    if a.HasWmm? && b.HasWmm? {
      if k < |a.client| && k < |b.client| {
        WmmAcsAt(a.client, b.client, k);
      }
      if k < |a.ap| && k < |b.ap| {
        WmmAcsAt(a.ap, b.ap, k);
      }
    }
  }

  /** `w` bounds both, and is one of the two in each parameter. */
  ghost predicate StricterAc(w: WmmAc, a: WmmAc, b: WmmAc) {
    && w.cwMin >= a.cwMin && w.cwMin >= b.cwMin && (w.cwMin == a.cwMin || w.cwMin == b.cwMin)
    && w.cwMax >= a.cwMax && w.cwMax >= b.cwMax && (w.cwMax == a.cwMax || w.cwMax == b.cwMax)
    && w.cot <= a.cot && w.cot <= b.cot && (w.cot == a.cot || w.cot == b.cot)
    && w.aifsn >= a.aifsn && w.aifsn >= b.aifsn && (w.aifsn == a.aifsn || w.aifsn == b.aifsn)
  }

  lemma {:induction false} WmmAcsCommute(a: seq<WmmAc>, b: seq<WmmAc>)
    ensures WmmAcsIntersect(a, b) == WmmAcsIntersect(b, a)
  {
    if |a| == 0 || |b| == 0 {
    } else {
      WmmAcsCommute(a[1..], b[1..]);
    }
  }

  lemma PairCommutes(rd1: seq<Rule>, rd2: seq<Rule>, i: nat, j: nat)
    requires i < |rd1| && j < |rd2|
    ensures Intersect(rd1, rd2, i, j) == Intersect(rd2, rd1, j, i)
  {
    var a, b := rd1[i].wmm, rd2[j].wmm;
    if a.HasWmm? && b.HasWmm? {
      WmmAcsCommute(a.client, b.client);
      WmmAcsCommute(a.ap, b.ap);
    }
    assert rd1[i].flags + rd2[j].flags == rd2[j].flags + rd1[i].flags;
  }

  // ----- Containment and the merge -----

  /** What it is for one rule to make another one superfluous, field by field: the same flags, at least
      the range and the bandwidth, and at most the power and the gain. */
  ghost predicate Subsumes(r1: Rule, r2: Rule) {
    && r1.start <= r2.start && r2.end <= r1.end && r2.maxBw <= r1.maxBw
    && r1.flags == r2.flags && r1.maxGain <= r2.maxGain && r1.maxEirp <= r2.maxEirp
  }

  /** `rule_contains`; CAC time and WMM data play no part. */
  predicate Contains(r1: Rule, r2: Rule): (c: bool)
    ensures c <==> Subsumes(r1, r2)
  {
    if r1.flags != r2.flags then false
    else if r1.maxGain > r2.maxGain || r1.maxEirp > r2.maxEirp then false
    else if r1.start > r2.start || r1.end < r2.end then false
    else if r1.maxBw < r2.maxBw then false
    else true
  }

  ghost predicate Covers(rules: seq<Rule>, r: Rule) {
    exists k :: 0 <= k < |rules| && Subsumes(rules[k], r)
  }

  /** First entry that ends the scan of `add_rule`. */
  function FirstRelated(rules: seq<Rule>, r: Rule): (k: nat)
    ensures k <= |rules|
    ensures forall m :: 0 <= m < k ==> !Contains(rules[m], r) && !Contains(r, rules[m])
    ensures k < |rules| ==> Contains(rules[k], r) || Contains(r, rules[k])
  {
    if rules == [] then 0
    else if Contains(rules[0], r) || Contains(r, rules[0]) then 0
    else 1 + FirstRelated(rules[1..], r)
  }

  function Added(rules: seq<Rule>, r: Rule): seq<Rule> {
    var k := FirstRelated(rules, r);
    if k == |rules| then rules + [r]
    else if Contains(rules[k], r) then rules
    else rules[k := r]
  }

  function Merge(rules: seq<Rule>): (m: seq<Rule>)
    ensures |m| <= |rules|
  {
    if rules == [] then [] else Added(Merge(rules[..|rules| - 1]), rules[|rules| - 1])
  }

  /** `add_rule` on the array of the domain under construction. */
  method AddRule(r: Rule, a: array<Rule>, n: nat) returns (n': nat)
    requires n < a.Length
    modifies a
    ensures n' <= a.Length && a[..n'] == Added(old(a[..n]), r)
  {
    var i := 0;
    while i < n
      invariant 0 <= i <= n && a[..] == old(a[..])
      invariant forall m :: 0 <= m < i ==> !Contains(a[m], r) && !Contains(r, a[m])
    {
      if Contains(a[i], r) {
        RelatedIsFirst(a[..n], r, i);
        return n;
      }
      if Contains(r, a[i]) {
        RelatedIsFirst(a[..n], r, i);
        a[i] := r;
        return n;
      }
      i := i + 1;
    }
    a[n] := r;
    assert a[..n + 1] == old(a[..n]) + [r];
    n' := n + 1;
  }

  lemma RelatedIsFirst(rules: seq<Rule>, r: Rule, i: nat)
    requires i < |rules| && (Contains(rules[i], r) || Contains(r, rules[i]))
    requires forall m :: 0 <= m < i ==> !Contains(rules[m], r) && !Contains(r, rules[m])
    ensures FirstRelated(rules, r) == i
  {
  }

  /** Adding a rule covers it and keeps everything covered before, even where an entry was
      overwritten: the new entry contains the old one and containment is transitive. */
  lemma AddedCovers(rules: seq<Rule>, r: Rule)
    ensures Covers(Added(rules, r), r)
    ensures forall q :: Covers(rules, q) ==> Covers(Added(rules, r), q)
  {
    var out, f := Added(rules, r), FirstRelated(rules, r);
    assert Contains(r, r);
    assert Contains(out[f], r);
    forall q | Covers(rules, q)
      ensures Covers(out, q)
    {
      var k :| 0 <= k < |rules| && Subsumes(rules[k], q);
      if k == f && !Contains(rules[f], r) {
        assert Contains(out[k], q);
      } else {
        assert out[k] == rules[k];
      }
    }
  }

  lemma {:induction false} MergeCovers(rules: seq<Rule>, k: nat)
    requires k < |rules|
    ensures Covers(Merge(rules), rules[k])
  {
    var n := |rules| - 1;
    AddedCovers(Merge(rules[..n]), rules[n]);
    if k == n {
    } else {
      MergeCovers(rules[..n], k);
    }
  }

  /** No entry contains another one. */
  ghost predicate Antichain(m: seq<Rule>) {
    forall a: nat, b: nat :: a < |m| && b < |m| && a != b ==> !Subsumes(m[a], m[b])
  }

  ghost predicate Incomparable(r1: Rule, r2: Rule) {
    !Subsumes(r1, r2) && !Subsumes(r2, r1)
  }

  /** What a step of the merge does to the list, in fields: a rule with no related entry is appended;
      otherwise only the first related entry counts, which stays and makes the rule superfluous, or is
      itself superfluous and gives its place to the rule. */
  lemma AddedIs(m: seq<Rule>, r: Rule, k: nat)
    requires k <= |m| && forall j: nat :: j < k ==> Incomparable(m[j], r)
    ensures k == |m| ==> Added(m, r) == m + [r]
    ensures k < |m| && Subsumes(m[k], r) ==> Added(m, r) == m
    ensures k < |m| && !Subsumes(m[k], r) && Subsumes(r, m[k]) ==> Added(m, r) == m[k := r]
  {
    assert forall j :: 0 <= j < k ==> Incomparable(m[j], r);
    if k < |m| && (Subsumes(m[k], r) || Subsumes(r, m[k])) {
      RelatedIsFirst(m, r, k);
    }
  }

  /** So an old entry gives way exactly when it is the first related one and the rule subsumes it, but
      not the other way round; and the rule is left out exactly when the first related entry subsumes it. */
  lemma WhatDisappears(m: seq<Rule>, r: Rule, j: nat)
    requires j < |m|
    ensures m[j] != r && Added(m, r) == m[j := r] <==>
            Subsumes(r, m[j]) && !Subsumes(m[j], r) && forall i: nat :: i < j ==> Incomparable(m[i], r)
    ensures Added(m, r) == m <==> exists i: nat :: i < |m| && LeavesOut(m, r, i)
  {
    var k := FirstRelated(m, r);
    assert forall i :: 0 <= i < k ==> Incomparable(m[i], r);
    AddedIs(m, r, k);
    assert k < |m| ==> !Incomparable(m[k], r);
    assert k < |m| && Subsumes(m[k], r) ==> LeavesOut(m, r, k);
    if k < |m| && !Subsumes(m[k], r) {
      assert m[k := r][k] == r && (j != k ==> m[k := r][j] == m[j]);
      assert m[j := r][j] == r;
    } else if k < |m| {
      assert m[j := r][j] == r;
    }
  }

  /** Entry `i` is the first related one and makes the rule superfluous. */
  ghost predicate LeavesOut(m: seq<Rule>, r: Rule, i: nat)
    requires i < |m|
  {
    Subsumes(m[i], r) && forall h: nat :: h < i ==> Incomparable(m[h], r)
  }

  /** The first related entry is superfluous beside the rule, and so is a later one, which the scan never
      reaches. */
  ghost predicate Overlooks(m: seq<Rule>, r: Rule) {
    exists k: nat, j: nat :: k < j < |m| && OverlooksAt(m, r, k, j)
  }

  ghost predicate OverlooksAt(m: seq<Rule>, r: Rule, k: nat, j: nat)
    requires k < j < |m|
  {
    && (forall i: nat :: i < k ==> Incomparable(m[i], r))
    && Subsumes(r, m[k]) && !Subsumes(m[k], r) && Subsumes(r, m[j])
  }

  /** Only the first superfluous entry is replaced: a list without containment stays one exactly when no
      later entry is superfluous as well. */
  lemma AddedAntichain(m: seq<Rule>, r: Rule)
    requires Antichain(m)
    ensures Antichain(Added(m, r)) <==> !Overlooks(m, r)
  {
    var k, t := FirstRelated(m, r), Added(m, r);
    if Overlooks(m, r) {
      var k': nat, j: nat :| k' < j < |m| && OverlooksAt(m, r, k', j);
      AddedIs(m, r, k');
      assert Subsumes(t[k'], t[j]);
    } else if k < |m| && !Subsumes(m[k], r) {
      AddedIs(m, r, k);
      forall j: nat | j < |m| && j != k
        ensures !Subsumes(r, m[j]) && !Subsumes(m[j], r)
      {
        assert !Subsumes(m[j], m[k]);
        assert j > k ==> !OverlooksAt(m, r, k, j);
        assert j < k ==> Incomparable(m[j], r);
      }
    }
  }

  /** Over a whole merge: no prefix of the rules leaves one entry inside another exactly when no step
      overlooks an entry. */
  lemma MergeAntichain(rules: seq<Rule>)
    ensures (forall n: nat :: n <= |rules| ==> Antichain(Merge(rules[..n])))
            <==> (forall n: nat :: n < |rules| ==> !Overlooks(Merge(rules[..n]), rules[n]))
  {
    hide Antichain, Overlooks;
    if forall n: nat :: n < |rules| ==> !Overlooks(Merge(rules[..n]), rules[n]) {
      forall n: nat | n <= |rules|
        ensures Antichain(Merge(rules[..n]))
      {
        NothingOverlooked(rules, n);
      }
    } else {
      var n: nat :| n < |rules| && Overlooks(Merge(rules[..n]), rules[n]);
      MergeStep(rules, n);
      if Antichain(Merge(rules[..n])) {
        AddedAntichain(Merge(rules[..n]), rules[n]);
        assert !Antichain(Merge(rules[..n + 1]));
      }
    }
  }

  lemma MergeStep(rules: seq<Rule>, n: nat)
    requires n < |rules|
    ensures Merge(rules[..n + 1]) == Added(Merge(rules[..n]), rules[n])
  {
    assert rules[..n + 1][..n] == rules[..n];
  }

  lemma {:induction false} NothingOverlooked(rules: seq<Rule>, n: nat)
    requires n <= |rules|
    requires forall k: nat :: k < n ==> !Overlooks(Merge(rules[..k]), rules[k])
    ensures Antichain(Merge(rules[..n]))
  {
    if n == 0 {
    } else {
      hide *;
      NothingOverlooked(rules, n - 1);
      assert !Overlooks(Merge(rules[..n - 1]), rules[n - 1]);
      MergeStep(rules, n - 1);
      AddedAntichain(Merge(rules[..n - 1]), rules[n - 1]);
    }
  }

  /** Three rules and their merges in two orders: which entries stay depends on the order. */
  lemma MergeKeepsContained(a: Rule, b: Rule, c: Rule)
    requires Contains(c, a) && Contains(c, b)
    requires !Contains(a, b) && !Contains(b, a) && !Contains(a, c) && !Contains(b, c)
    ensures Merge([a, b, c]) == [c, b] && Merge([c, a, b]) == [c]
    ensures Overlooks([a, b], c) && !Antichain([c, b])
  {
    hide Contains;
    MergeOfThree(a, b, c);
    MergeOfThree(c, a, b);
    assert FirstRelated([a], b) == 1;
    RelatedIsFirst([a, b], c, 0);
    RelatedIsFirst([c], a, 0);
    RelatedIsFirst([c], b, 0);
    assert Subsumes([c, b][0], [c, b][1]) && OverlooksAt([a, b], c, 0, 1);
  }

  lemma MergeOfThree(a: Rule, b: Rule, c: Rule)
    ensures Merge([a, b]) == Added([a], b) && Merge([a, b, c]) == Added(Added([a], b), c)
  {
    hide Added;
    assert [a, b, c][..2] == [a, b] && [a, b][..1] == [a] && [a][..0] == [];
    assert Merge([a]) == [a] by {
      AddedToNothing(a);
    }
  }

  lemma AddedToNothing(a: Rule)
    ensures Added([], a) == [a]
  {
  }

  lemma {:induction false} MergeIsFrom(rules: seq<Rule>, r: Rule)
    requires r in Merge(rules)
    ensures r in rules
  {
    var n := |rules| - 1;
    if r == rules[n] {
    } else {
      MergeIsFrom(rules[..n], r);
    }
  }

  // ----- Intersecting two domains -----

  /** Raw intersections of rule `x` with the first `y` rules of the other domain. */
  function GridRow(rd1: seq<Rule>, rd2: seq<Rule>, x: nat, y: nat): (row: seq<Rule>)
    requires x < |rd1| && y <= |rd2|
    ensures |row| == y
  {
    if y == 0 then [] else GridRow(rd1, rd2, x, y - 1) + [Intersect(rd1, rd2, x, y - 1)]
  }

  /** Raw intersections of the first `x` rules with every rule of the other domain. */
  function GridRows(rd1: seq<Rule>, rd2: seq<Rule>, x: nat): (g: seq<seq<Rule>>)
    requires x <= |rd1|
    ensures |g| == x && forall k :: 0 <= k < x ==> |g[k]| == |rd2|
  {
    if x == 0 then [] else GridRows(rd1, rd2, x - 1) + [GridRow(rd1, rd2, x - 1, |rd2|)]
  }

  function Grid(rd1: seq<Rule>, rd2: seq<Rule>): (g: seq<seq<Rule>>)
    ensures |g| == |rd1| && forall k :: 0 <= k < |g| ==> |g[k]| == |rd2|
  {
    GridRows(rd1, rd2, |rd1|)
  }

  lemma {:induction false} GridRowAt(rd1: seq<Rule>, rd2: seq<Rule>, x: nat, y: nat, j: nat)
    requires x < |rd1| && j < y <= |rd2|
    ensures GridRow(rd1, rd2, x, y)[j] == Intersect(rd1, rd2, x, j)
  {
    if j == y - 1 {
    } else {
      GridRowAt(rd1, rd2, x, y - 1, j);
    }
  }

  lemma {:induction false} GridRowsAt(rd1: seq<Rule>, rd2: seq<Rule>, x: nat, i: nat, j: nat)
    requires i < x <= |rd1| && j < |rd2|
    ensures GridRows(rd1, rd2, x)[i][j] == Intersect(rd1, rd2, i, j)
  {
    if i < x - 1 {
      GridRowsAt(rd1, rd2, x - 1, i, j);
    } else {
      GridRowAt(rd1, rd2, i, |rd2|, j);
    }
  }

  function Cell(r: Rule): seq<Rule> {
    if IsValidRule(r) then [r] else []
  }

  /** The valid ones among the first `y` entries of a row. */
  function Row(row: seq<Rule>, y: nat): seq<Rule>
    requires y <= |row|
  {
    if y == 0 then [] else Row(row, y - 1) + Cell(row[y - 1])
  }

  /** The valid ones of the first `x` rows. */
  function Rows(g: seq<seq<Rule>>, x: nat): seq<Rule>
    requires x <= |g|
  {
    if x == 0 then [] else Rows(g, x - 1) + Row(g[x - 1], |g[x - 1]|)
  }

  function Candidates(rd1: seq<Rule>, rd2: seq<Rule>): seq<Rule> {
    Rows(Grid(rd1, rd2), |rd1|)
  }

  function DfsIntersect(a: DfsRegion, b: DfsRegion): DfsRegion {
    if a != b then Unset else a
  }

  function RegdomIntersection(rd1: Regdom, rd2: Regdom): Option<Regdom> {
    var c := Candidates(rd1.rules, rd2.rules);
    if c == [] then None
    else Some(Regdom(INTERSECTED, DfsIntersect(rd1.dfs, rd2.dfs), Merge(c)))
  }

  /** What the double loop has met when it is about to look at pair `(x, y)`. */
  function Met(g: seq<seq<Rule>>, x: nat, y: nat): seq<Rule>
    requires x < |g| && y <= |g[x]|
  {
    Rows(g, x) + Row(g[x], y)
  }

  lemma {:induction false} RowGrows(row: seq<Rule>, y: nat, z: nat)
    requires y <= z <= |row|
    ensures |Row(row, y)| <= |Row(row, z)|
  {
    if y == z {
    } else {
      RowGrows(row, y, z - 1);
    }
  }

  lemma {:induction false} RowsGrow(g: seq<seq<Rule>>, x: nat, z: nat)
    requires x <= z <= |g|
    ensures |Rows(g, x)| <= |Rows(g, z)|
  {
    if x == z {
    } else {
      RowsGrow(g, x, z - 1);
    }
  }

  /** One step of the double loop; the pairs met never outnumber those of the whole pass. */
  lemma MetStep(g: seq<seq<Rule>>, x: nat, y: nat)
    requires x < |g| && y < |g[x]|
    ensures Met(g, x, y + 1) == Met(g, x, y) + Cell(g[x][y])
    ensures |Met(g, x, y + 1)| <= |Rows(g, |g|)|
  {
    RowGrows(g[x], y + 1, |g[x]|);
    RowsGrow(g, x + 1, |g|);
  }

  lemma MetEnds(g: seq<seq<Rule>>, x: nat)
    requires x < |g|
    ensures Met(g, x, 0) == Rows(g, x) && Met(g, x, |g[x]|) == Rows(g, x + 1)
  {
  }

  lemma MergeEnds(rd1: seq<Rule>, rd2: seq<Rule>)
    ensures Merge(Rows(Grid(rd1, rd2), 0)) == []
    ensures Candidates(rd1, rd2) == Rows(Grid(rd1, rd2), |rd1|)
  {
  }

  lemma MergeAppend(rules: seq<Rule>, r: Rule)
    ensures Merge(rules + [r]) == Added(Merge(rules), r)
  {
    assert (rules + [r])[..|rules|] == rules;
  }

  /** `reg_rules_intersect`: the rule and whether it makes sense. */
  method RulesIntersect(rd1: seq<Rule>, rd2: seq<Rule>, i: nat, j: nat) returns (ok: bool, r: Rule)
    requires i < |rd1| && j < |rd2|
    ensures r == Grid(rd1, rd2)[i][j] && Cell(r) == if ok then [r] else []
  {
    GridRowsAt(rd1, rd2, |rd1|, i, j);
    r := Intersect(rd1, rd2, i, j);
    ok := IsValidRule(r);
  }

  method CountPairs(rd1: seq<Rule>, rd2: seq<Rule>) returns (numRules: nat)
    ensures numRules == |Candidates(rd1, rd2)|
  {
    ghost var g := Grid(rd1, rd2);
    numRules := 0;
    for x := 0 to |rd1|
      invariant numRules == |Rows(g, x)|
    {
      for y := 0 to |rd2|
        invariant numRules == |Met(g, x, y)|
      {
        var ok, r := RulesIntersect(rd1, rd2, x, y);
        MetStep(g, x, y);
        if ok {
          numRules := numRules + 1;
        }
      }
    }
  }

  /** The body of the merging pass. */
  method MergePair(rd1: seq<Rule>, rd2: seq<Rule>, x: nat, y: nat, a: array<Rule>, n: nat) returns (n': nat)
    requires x < |rd1| && y < |rd2| && a.Length == |Candidates(rd1, rd2)|
    requires n <= a.Length && a[..n] == Merge(Met(Grid(rd1, rd2), x, y))
    modifies a
    ensures n' <= a.Length && a[..n'] == Merge(Met(Grid(rd1, rd2), x, y + 1))
  {
    var ok, r := RulesIntersect(rd1, rd2, x, y);
    ghost var met := Met(Grid(rd1, rd2), x, y);
    MetStep(Grid(rd1, rd2), x, y);
    if !ok {
      assert met + [] == met;
      return n;
    }
    MergeAppend(met, r);
    assert |a[..n]| <= |met|;
    n' := AddRule(r, a, n);
  }

  /** The inner loop of the merging pass. */
  method MergeRow(rd1: seq<Rule>, rd2: seq<Rule>, x: nat, a: array<Rule>, n: nat) returns (n': nat)
    requires x < |rd1| && a.Length == |Candidates(rd1, rd2)|
    requires n <= a.Length && a[..n] == Merge(Rows(Grid(rd1, rd2), x))
    modifies a
    ensures n' <= a.Length && a[..n'] == Merge(Rows(Grid(rd1, rd2), x + 1))
  {
    hide *;
    ghost var g := Grid(rd1, rd2);
    MetEnds(g, x);
    n' := n;
    for y := 0 to |rd2|
      invariant n' <= a.Length && a[..n'] == Merge(Met(g, x, y))
    {
      n' := MergePair(rd1, rd2, x, y, a, n');
    }
  }

  method MergePairs(rd1: seq<Rule>, rd2: seq<Rule>, a: array<Rule>) returns (n: nat)
    requires a.Length == |Candidates(rd1, rd2)|
    modifies a
    ensures n <= a.Length && a[..n] == Merge(Candidates(rd1, rd2))
  {
    hide *;
    MergeEnds(rd1, rd2);
    n := 0;
    for x := 0 to |rd1|
      invariant n <= a.Length && a[..n] == Merge(Rows(Grid(rd1, rd2), x))
    {
      n := MergeRow(rd1, rd2, x, a, n);
    }
  }

  /** `regdom_intersect`: a counting pass, an allocation of that size, and the merging pass. The
      count of the first pass is what keeps every append of the second inside the array. */
  method RegdomIntersect(rd1: Option<Regdom>, rd2: Option<Regdom>) returns (res: Option<Regdom>)
    ensures res == if rd1.None? || rd2.None? then None else RegdomIntersection(rd1.value, rd2.value)
  {
    if rd1.None? || rd2.None? {
      return None;
    }
    var numRules := CountPairs(rd1.value.rules, rd2.value.rules);
    if numRules == 0 {
      return None;
    }
    var blank := Rule(0, 0, 0, 0, 0, {}, 0, NoWmm);
    var a := new Rule[numRules](_ => blank);
    var n := MergePairs(rd1.value.rules, rd2.value.rules, a);
    return Some(Regdom(INTERSECTED, DfsIntersect(rd1.value.dfs, rd2.value.dfs), a[..n]));
  }

  lemma {:induction false} RowIsFrom(row: seq<Rule>, y: nat, r: Rule) returns (j: nat)
    requires y <= |row| && r in Row(row, y)
    ensures j < y && IsValidRule(r) && r == row[j]
  {
    if r in Cell(row[y - 1]) {
      j := y - 1;
    } else {
      j := RowIsFrom(row, y - 1, r);
    }
  }

  lemma {:induction false} RowsAreFrom(g: seq<seq<Rule>>, x: nat, r: Rule) returns (i: nat, j: nat)
    requires x <= |g| && r in Rows(g, x)
    ensures i < x && j < |g[i]| && IsValidRule(r) && r == g[i][j]
  {
    if r in Row(g[x - 1], |g[x - 1]|) {
      i := x - 1;
      j := RowIsFrom(g[i], |g[i]|, r);
    } else {
      i, j := RowsAreFrom(g, x - 1, r);
    }
  }

  lemma {:induction false} InRow(row: seq<Rule>, y: nat, j: nat)
    requires j < y <= |row| && IsValidRule(row[j])
    ensures row[j] in Row(row, y)
  {
    if j == y - 1 {
    } else {
      InRow(row, y - 1, j);
    }
  }

  lemma {:induction false} InRows(g: seq<seq<Rule>>, x: nat, i: nat, j: nat)
    requires i < x <= |g| && j < |g[i]| && IsValidRule(g[i][j])
    ensures g[i][j] in Rows(g, x)
  {
    hide IsValidRule, Row;
    if i < x - 1 {
      InRows(g, x - 1, i, j);
    } else {
      InRow(g[i], |g[i]|, j);
    }
  }

  /** Soundness: an output rule is a valid intersection of some pair. */
  lemma OutputIsPair(rd1: Regdom, rd2: Regdom, r: Rule) returns (i: nat, j: nat)
    requires RegdomIntersection(rd1, rd2).Some? && r in RegdomIntersection(rd1, rd2).value.rules
    ensures i < |rd1.rules| && j < |rd2.rules|
    ensures r == Intersect(rd1.rules, rd2.rules, i, j) && IsValidRule(r)
  {
    MergeIsFrom(Candidates(rd1.rules, rd2.rules), r);
    i, j := RowsAreFrom(Grid(rd1.rules, rd2.rules), |rd1.rules|, r);
    GridRowsAt(rd1.rules, rd2.rules, |rd1.rules|, i, j);
  }

  /** What soundness means: no output rule is looser than the two rules it comes from, in what it
      records. What automatic bandwidth makes of it afterwards is the subject of `RegBandwidth`. */
  lemma OutputRestricts(rd1: Regdom, rd2: Regdom, r: Rule) returns (i: nat, j: nat)
    requires RegdomIntersection(rd1, rd2).Some? && r in RegdomIntersection(rd1, rd2).value.rules
    ensures i < |rd1.rules| && Restricts(r, rd1.rules[i], EffectiveBw(rd1.rules, i))
    ensures j < |rd2.rules| && Restricts(r, rd2.rules[j], EffectiveBw(rd2.rules, j))
  {
    i, j := OutputIsPair(rd1, rd2, r);
    IntersectRestricts(rd1.rules[i], EffectiveBw(rd1.rules, i), rd2.rules[j], EffectiveBw(rd2.rules, j));
  }

  /** Completeness: beside each valid pair there is an output rule that makes it superfluous, although
      the merge drops and overwrites entries as it goes. */
  lemma PairIsCovered(rd1: Regdom, rd2: Regdom, i: nat, j: nat)
    requires i < |rd1.rules| && j < |rd2.rules| && IsValidRule(Intersect(rd1.rules, rd2.rules, i, j))
    ensures RegdomIntersection(rd1, rd2).Some?
    ensures Covers(RegdomIntersection(rd1, rd2).value.rules, Intersect(rd1.rules, rd2.rules, i, j))
  {
    var c, r := Candidates(rd1.rules, rd2.rules), Intersect(rd1.rules, rd2.rules, i, j);
    GridRowsAt(rd1.rules, rd2.rules, |rd1.rules|, i, j);
    InRows(Grid(rd1.rules, rd2.rules), |rd1.rules|, i, j);
    var k :| 0 <= k < |c| && c[k] == r;
    MergeCovers(c, k);
  }

  /** Completeness in the fields of the two rules: where their ranges have something in common above
      zero, some output rule has at least that range, with the flags of both rules (automatic bandwidth
      if both have it), at least the smaller bandwidth as far as the range has room for it, and at most
      the smaller power and gain. */
  lemma PairIsCoveredInFields(rd1: Regdom, rd2: Regdom, i: nat, j: nat) returns (k: nat)
    requires i < |rd1.rules| && j < |rd2.rules|
    requires 0 < rd1.rules[i].start < rd1.rules[i].end && 0 < rd2.rules[j].start < rd2.rules[j].end
    requires rd1.rules[i].start < rd2.rules[j].end && rd2.rules[j].start < rd1.rules[i].end
    ensures RegdomIntersection(rd1, rd2).Some? && k < |RegdomIntersection(rd1, rd2).value.rules|
    ensures var a, b, o := rd1.rules[i], rd2.rules[j], RegdomIntersection(rd1, rd2).value.rules[k];
            && (o.start <= a.start || o.start <= b.start) && (o.end >= a.end || o.end >= b.end)
            && (forall f: Flag :: f != AutoBw ==> (f in o.flags <==> f in a.flags || f in b.flags))
            && (AutoBw in o.flags <==> AutoBw in a.flags && AutoBw in b.flags)
            && o.maxEirp <= a.maxEirp && o.maxEirp <= b.maxEirp && o.maxGain <= a.maxGain && o.maxGain <= b.maxGain
            && o.maxBw >= Min(Min(EffectiveBw(rd1.rules, i), EffectiveBw(rd2.rules, j)),
                              Min(a.end, b.end) - Max(a.start, b.start))
  {
    var r := Intersect(rd1.rules, rd2.rules, i, j);
    PairFields(rd1.rules[i], EffectiveBw(rd1.rules, i), rd2.rules[j], EffectiveBw(rd2.rules, j));
    hide RegdomIntersection, EffectiveBw, IntersectRules, IsValidRule;
    PairIsCovered(rd1, rd2, i, j);
    k :| k < |RegdomIntersection(rd1, rd2).value.rules| && Subsumes(RegdomIntersection(rd1, rd2).value.rules[k], r);
  }

  lemma PairFields(a: Rule, bw1: u32, b: Rule, bw2: u32)
    requires 0 < a.start < a.end && 0 < b.start < b.end && a.start < b.end && b.start < a.end
    ensures var r := IntersectRules(a, bw1, b, bw2);
            && IsValidRule(r) && r.start == Max(a.start, b.start) && r.end == Min(a.end, b.end)
            && (forall f: Flag :: f != AutoBw ==> (f in r.flags <==> f in a.flags || f in b.flags))
            && (AutoBw in r.flags <==> AutoBw in a.flags && AutoBw in b.flags)
            && r.maxEirp <= a.maxEirp && r.maxEirp <= b.maxEirp && r.maxGain <= a.maxGain && r.maxGain <= b.maxGain
            && r.maxBw == Min(Min(bw1, bw2), Min(a.end, b.end) - Max(a.start, b.start))
  {
  }

  /** Both orders of the operands give a domain or neither does, with the same country and DFS region,
      and each rule of one result is superfluous beside a rule of the other. */
  lemma IntersectionCommutes(rd1: Regdom, rd2: Regdom)
    ensures RegdomIntersection(rd1, rd2).Some? <==> RegdomIntersection(rd2, rd1).Some?
    ensures RegdomIntersection(rd1, rd2).Some? ==>
              var out1, out2 := RegdomIntersection(rd1, rd2).value, RegdomIntersection(rd2, rd1).value;
              && out1.alpha2 == out2.alpha2 && out1.dfs == out2.dfs
              && (forall r :: r in out1.rules ==> Covers(out2.rules, r))
              && (forall r :: r in out2.rules ==> Covers(out1.rules, r))
  {
    IntersectionIsCovered(rd1, rd2);
    IntersectionIsCovered(rd2, rd1);
  }

  lemma IntersectionIsCovered(rd1: Regdom, rd2: Regdom)
    ensures RegdomIntersection(rd1, rd2).Some? ==> RegdomIntersection(rd2, rd1).Some?
    ensures RegdomIntersection(rd1, rd2).Some? ==>
              forall r :: r in RegdomIntersection(rd1, rd2).value.rules ==>
                            Covers(RegdomIntersection(rd2, rd1).value.rules, r)
  {
    var o := RegdomIntersection(rd1, rd2);
    if o.Some? {
      MergeNonEmpty(Candidates(rd1.rules, rd2.rules));
      assert o.value.rules[0] in o.value.rules;
      forall r | r in o.value.rules
        ensures RegdomIntersection(rd2, rd1).Some? && Covers(RegdomIntersection(rd2, rd1).value.rules, r)
      {
        var i, j := OutputIsPair(rd1, rd2, r);
        PairCommutes(rd1.rules, rd2.rules, i, j);
        PairIsCovered(rd2, rd1, j, i);
      }
    }
  }

  lemma {:induction false} MergeNonEmpty(rules: seq<Rule>)
    requires rules != []
    ensures Merge(rules) != []
  {
  }

  // ----- Two domains whose intersection keeps a rule inside another -----

  function PlainRule(start: u32, end: u32, maxBw: u32): Rule {
    Rule(start, end, maxBw, 0, 0, {}, 0, NoWmm)
  }

  const PARTS := Regdom(Alpha2('A', 'A'), Unset, [PlainRule(10, 20, 10), PlainRule(30, 40, 10), PlainRule(10, 40, 30)])
  const WHOLE := Regdom(Alpha2('B', 'B'), Unset, [PlainRule(10, 40, 30)])

  lemma {:induction false} OneColumn(g: seq<seq<Rule>>, x: nat)
    requires x <= |g| && forall k: nat :: k < |g| ==> |g[k]| == 1 && IsValidRule(g[k][0])
    ensures |Rows(g, x)| == x && forall k: nat :: k < x ==> Rows(g, x)[k] == g[k][0]
  {
    hide IsValidRule;
    if x == 0 {
    } else {
      OneColumn(g, x - 1);
      assert Row(g[x - 1], 1) == Row(g[x - 1], 0) + [g[x - 1][0]];
    }
  }

  lemma PartsPair(i: nat)
    requires i < 3
    ensures Grid(PARTS.rules, WHOLE.rules)[i][0] == PARTS.rules[i] && IsValidRule(PARTS.rules[i])
  {
    GridRowsAt(PARTS.rules, WHOLE.rules, 3, i, 0);
  }

  lemma PartsCandidates()
    ensures Candidates(PARTS.rules, WHOLE.rules) == PARTS.rules
  {
    hide IsValidRule, Grid, Rows;
    PartsPair(0);
    PartsPair(1);
    PartsPair(2);
    OneColumn(Grid(PARTS.rules, WHOLE.rules), 3);
  }

  /** Two valid domains whose intersection is no antichain: of the three rules of the first, the last
      replaces one of the other two, and the other one stays beside it. */
  lemma IntersectionKeepsContained()
    ensures IsValidRd(PARTS) && IsValidRd(WHOLE) && RegdomIntersection(PARTS, WHOLE).Some?
    ensures RegdomIntersection(PARTS, WHOLE).value.rules == [PlainRule(10, 40, 30), PlainRule(30, 40, 10)]
    ensures !Antichain(RegdomIntersection(PARTS, WHOLE).value.rules)
  {
    PartsCandidates();
    hide Candidates, Merge;
    MergeKeepsContained(PlainRule(10, 20, 10), PlainRule(30, 40, 10), PlainRule(10, 40, 30));
  }

  // ----- What a domain lets through -----

  /** Some rule of the domain lets the band through, with the bandwidth it really grants. */
  ghost predicate Grants(rd: Regdom, i: nat, lo: int, hi: int) {
    i < |rd.rules| && LetsThrough(rd.rules[i], EffectiveBw(rd.rules, i), lo, hi)
  }

  /** Some rule of the domain lets the band through, with the bandwidth it records. */
  ghost predicate Records(rd: Regdom, lo: int, hi: int) {
    exists r :: r in rd.rules && LetsThrough(r, r.maxBw, lo, hi)
  }

  ghost predicate BothGrant(rd1: Regdom, rd2: Regdom, i: nat, j: nat, lo: int, hi: int) {
    Grants(rd1, i, lo, hi) && Grants(rd2, j, lo, hi) && 0 < Max(rd1.rules[i].start, rd2.rules[j].start)
  }

  lemma BothGrantIsRecorded(rd1: Regdom, rd2: Regdom, i: nat, j: nat, lo: int, hi: int)
    requires BothGrant(rd1, rd2, i, j, lo, hi)
    ensures RegdomIntersection(rd1, rd2).Some? && Records(RegdomIntersection(rd1, rd2).value, lo, hi)
  {
    IntersectIsMeet(rd1.rules[i], EffectiveBw(rd1.rules, i), rd2.rules[j], EffectiveBw(rd2.rules, j), lo, hi);
    PairIsCovered(rd1, rd2, i, j);
    var r, out := Intersect(rd1.rules, rd2.rules, i, j), RegdomIntersection(rd1, rd2).value.rules;
    var k :| 0 <= k < |out| && Contains(out[k], r);
    assert out[k] in out;
  }

  lemma RecordedIsBothGrant(rd1: Regdom, rd2: Regdom, lo: int, hi: int) returns (i: nat, j: nat)
    requires RegdomIntersection(rd1, rd2).Some? && Records(RegdomIntersection(rd1, rd2).value, lo, hi)
    ensures BothGrant(rd1, rd2, i, j, lo, hi)
  {
    var r :| r in RegdomIntersection(rd1, rd2).value.rules && LetsThrough(r, r.maxBw, lo, hi);
    i, j := OutputIsPair(rd1, rd2, r);
    IntersectIsMeet(rd1.rules[i], EffectiveBw(rd1.rules, i), rd2.rules[j], EffectiveBw(rd2.rules, j), lo, hi);
  }

  /** The intersection records exactly the bands that some rule of each domain grants
      (a pair whose ranges both start at zero contributes nothing). */
  lemma SpectrumIsExact(rd1: Regdom, rd2: Regdom, lo: int, hi: int)
    ensures (RegdomIntersection(rd1, rd2).Some? && Records(RegdomIntersection(rd1, rd2).value, lo, hi))
            <==> exists i: nat, j: nat :: BothGrant(rd1, rd2, i, j, lo, hi)
  {
    if RegdomIntersection(rd1, rd2).Some? && Records(RegdomIntersection(rd1, rd2).value, lo, hi) {
      var i, j := RecordedIsBothGrant(rd1, rd2, lo, hi);
    }
    forall i: nat, j: nat | BothGrant(rd1, rd2, i, j, lo, hi)
      ensures RegdomIntersection(rd1, rd2).Some? && Records(RegdomIntersection(rd1, rd2).value, lo, hi)
    {
      BothGrantIsRecorded(rd1, rd2, i, j, lo, hi);
    }
  }

  /** The result passes the domain sanity check unless the merge kept too many rules. */
  lemma IntersectionIsValidRd(rd1: Regdom, rd2: Regdom)
    requires RegdomIntersection(rd1, rd2).Some?
    ensures var out := RegdomIntersection(rd1, rd2).value;
            IsValidRd(out) <==> |out.rules| <= 128
  {
    var out := RegdomIntersection(rd1, rd2).value;
    MergeNonEmpty(Candidates(rd1.rules, rd2.rules));
    forall k | 0 <= k < |out.rules|
      ensures IsValidRule(out.rules[k])
    {
      var i, j := OutputIsPair(rd1, rd2, out.rules[k]);
    }
  }
}
