/** The bandwidth number that automatic bandwidth gives the rules of an intersection, the one compared
    with channel widths: the chains of the result against the chains of the two domains, and which
    domains keep every number in bounds (net/wireless/reg.c). */
module RegChains {
  import opened Words
  import opened RegRules
  import opened RegBandwidth

  // ----- Where the candidates come from, in their order -----

  lemma {:induction false} RowPlaces(row: seq<Rule>, y: nat, p: nat, q: nat) returns (j: nat, j': nat)
    requires y <= |row| && p < q < |Row(row, y)|
    ensures j < j' < y && IsValidRule(row[j]) && IsValidRule(row[j'])
    ensures Row(row, y)[p] == row[j] && Row(row, y)[q] == row[j']
  {
    hide IsValidRule;
    var before := Row(row, y - 1);
    if q < |before| {
      j, j' := RowPlaces(row, y - 1, p, q);
    } else {
      assert Row(row, y)[p] == before[p] && before[p] in before;
      j := RowIsFrom(row, y - 1, before[p]);
      j' := y - 1;
    }
  }

  /** Of two candidates the earlier comes from an earlier pair. */
  lemma {:induction false} RowsPlaces(g: seq<seq<Rule>>, x: nat, p: nat, q: nat)
    returns (i: nat, j: nat, i': nat, j': nat)
    requires x <= |g| && p < q < |Rows(g, x)|
    ensures i <= i' < x && j < |g[i]| && j' < |g[i']| && (i == i' ==> j < j')
    ensures IsValidRule(g[i][j]) && IsValidRule(g[i'][j'])
    ensures Rows(g, x)[p] == g[i][j] && Rows(g, x)[q] == g[i'][j']
  {
    hide IsValidRule, Row;
    var before, row := Rows(g, x - 1), Row(g[x - 1], |g[x - 1]|);
    if q < |before| {
      i, j, i', j' := RowsPlaces(g, x - 1, p, q);
    } else if p < |before| {
      assert Rows(g, x)[p] == before[p] && before[p] in before;
      i, j := RowsAreFrom(g, x - 1, before[p]);
      i' := x - 1;
      assert Rows(g, x)[q] == row[q - |before|] && row[q - |before|] in row;
      j' := RowIsFrom(g[i'], |g[i']|, row[q - |before|]);
    } else {
      i, i' := x - 1, x - 1;
      j, j' := RowPlaces(g[i], |g[i]|, p - |before|, q - |before|);
    }
  }

  /** Pair `(i, j)` of two domains is valid and comes before the valid pair `(i', j')`. */
  ghost predicate PairsInOrder(rd1: seq<Rule>, rd2: seq<Rule>, i: nat, j: nat, i': nat, j': nat) {
    && i <= i' < |rd1| && j < |rd2| && j' < |rd2| && (i == i' ==> j < j')
    && IsValidRule(Intersect(rd1, rd2, i, j)) && IsValidRule(Intersect(rd1, rd2, i', j'))
  }

  lemma CandidatePlaces(rd1: seq<Rule>, rd2: seq<Rule>, p: nat, q: nat) returns (i: nat, j: nat, i': nat, j': nat)
    requires p < q < |Candidates(rd1, rd2)|
    ensures PairsInOrder(rd1, rd2, i, j, i', j')
    ensures Candidates(rd1, rd2)[p] == Intersect(rd1, rd2, i, j)
    ensures Candidates(rd1, rd2)[q] == Intersect(rd1, rd2, i', j')
  {
    hide IsValidRule, Intersect, Rows, Grid;
    i, j, i', j' := RowsPlaces(Grid(rd1, rd2), |rd1|, p, q);
    GridAt(rd1, rd2, i, j);
    GridAt(rd1, rd2, i', j');
  }

  lemma CandidatesAreValid(rd1: seq<Rule>, rd2: seq<Rule>)
    ensures forall k: nat :: k < |Candidates(rd1, rd2)| ==> IsValidRule(Candidates(rd1, rd2)[k])
  {
    hide IsValidRule;
    forall k: nat | k < |Candidates(rd1, rd2)|
      ensures IsValidRule(Candidates(rd1, rd2)[k])
    {
      var i, j := RowsAreFrom(Grid(rd1, rd2), |rd1|, Candidates(rd1, rd2)[k]);
    }
  }

  /** The range of a pair. */
  lemma PairRange(rd1: seq<Rule>, rd2: seq<Rule>, i: nat, j: nat)
    requires i < |rd1| && j < |rd2|
    ensures var r := Intersect(rd1, rd2, i, j);
            && r.start == Max(rd1[i].start, rd2[j].start) && r.end == Min(rd1[i].end, rd2[j].end)
            && (IsValidRule(r) <==> 0 < r.start < r.end)
  {
    hide EffectiveBw;
    PairContributes(rd1[i], EffectiveBw(rd1, i), rd2[j], EffectiveBw(rd2, j));
  }

  // ----- Lists the merge leaves alone -----

  predicate Related(r1: Rule, r2: Rule) {
    Contains(r1, r2) || Contains(r2, r1)
  }

  ghost predicate Unrelated(rules: seq<Rule>) {
    forall a: nat, b: nat :: a < b < |rules| ==> !Related(rules[a], rules[b])
  }

  lemma {:induction false} UnrelatedMergesToItself(rules: seq<Rule>)
    requires Unrelated(rules)
    ensures Merge(rules) == rules
  {
    hide Contains;
    if rules == [] {
    } else {
      var n := |rules| - 1;
      UnrelatedMergesToItself(rules[..n]);
      var k := FirstRelated(rules[..n], rules[n]);
      assert k < n ==> Related(rules[k], rules[n]);
      assert rules == rules[..n] + [rules[n]];
    }
  }

  lemma UnrelatedIsAntichain(rules: seq<Rule>)
    requires Unrelated(rules)
    ensures Antichain(rules)
  {
    hide Contains;
    forall a: nat, b: nat | a < |rules| && b < |rules| && a != b
      ensures !Contains(rules[a], rules[b])
    {
      assert if a < b then !Related(rules[a], rules[b]) else !Related(rules[b], rules[a]);
    }
  }

  /** Intersecting ordered domains gives an ordered domain: all valid pairs, in order, none inside
      another. */
  lemma OutputIsOrdered(rd1: Regdom, rd2: Regdom)
    requires Ordered(rd1.rules) && Ordered(rd2.rules) && RegdomIntersection(rd1, rd2).Some?
    ensures RegdomIntersection(rd1, rd2).value.rules == Candidates(rd1.rules, rd2.rules)
    ensures Ordered(RegdomIntersection(rd1, rd2).value.rules) && Antichain(RegdomIntersection(rd1, rd2).value.rules)
  {
    var c := Candidates(rd1.rules, rd2.rules);
    CandidatesAreValid(rd1.rules, rd2.rules);
    hide IsValidRule, Intersect, Candidates;
    forall a: nat, b: nat | a < b < |c|
      ensures c[a].end <= c[b].start
    {
      var i, j, i', j' := CandidatePlaces(rd1.rules, rd2.rules, a, b);
      PairRange(rd1.rules, rd2.rules, i, j);
      PairRange(rd1.rules, rd2.rules, i', j');
    }
    assert Ordered(c);
    forall a: nat, b: nat | a < b < |c|
      ensures !Related(c[a], c[b])
    {
      OrderedPair(c, a, b);
    }
    UnrelatedMergesToItself(c);
    UnrelatedIsAntichain(c);
  }

  // ----- Chains of the output lie inside chains of the input -----

  ghost predicate InsideSome(r: Rule, rules: seq<Rule>) {
    exists i: nat :: i < |rules| && rules[i].start <= r.start && r.end <= rules[i].end
  }

  /** Each rule of `out` lies inside some rule of `rules`. */
  ghost predicate Inside(out: seq<Rule>, rules: seq<Rule>) {
    forall k: nat :: k < |out| ==> InsideSome(out[k], rules)
  }

  lemma InsideOf(out: seq<Rule>, rules: seq<Rule>, k: nat) returns (i: nat)
    requires Inside(out, rules) && k < |out|
    ensures i < |rules| && rules[i].start <= out[k].start && out[k].end <= rules[i].end
  {
    assert InsideSome(out[k], rules);
    var b: nat :| b < |rules| && rules[b].start <= out[k].start && out[k].end <= rules[b].end;
    i := b;
  }

  lemma EndsGrow(rules: seq<Rule>, a: nat, b: nat)
    requires Ascending(rules) && a <= b < |rules|
    ensures rules[a].start <= rules[b].start && rules[a].end <= rules[b].end
  {
    hide IsValidRule;
  }

  /** Rule `h` reaches `p` and ends a chain; a rule that begins at `p` or before cannot lie beyond. */
  lemma NoGapAfter(rules: seq<Rule>, h: nat, b: nat, p: int)
    requires Ascending(rules) && h < |rules| && b < |rules| && rules[b].start <= p <= rules[h].end
    requires h == |rules| - 1 || !Linked(rules, h)
    ensures rules[b].end <= rules[h].end
  {
    hide IsValidRule;
    if b <= h {
      EndsGrow(rules, b, h);
    } else {
      assert false;
    }
  }

  lemma NoGapBefore(rules: seq<Rule>, l: nat, b: nat, p: int)
    requires Ascending(rules) && l < |rules| && b < |rules| && rules[l].start <= p <= rules[b].end
    requires l == 0 || !Linked(rules, l - 1)
    ensures rules[l].start <= rules[b].start
  {
    hide IsValidRule;
    if l <= b {
      EndsGrow(rules, l, b);
    } else {
      assert false;
    }
  }

  lemma {:induction false} ChainEndsInside(out: seq<Rule>, rules: seq<Rule>, k: nat, m: nat, i: nat)
    requires Ascending(rules) && Inside(out, rules) && ChainFrom(out, k, m)
    requires i < |rules| && out[k].end <= rules[i].end
    ensures out[m].end <= rules[High(rules, i)].end
    decreases m
  {
    HighIsMaximal(rules, i);
    hide High, Ascending, IsValidRule, Inside;
    if m == k {
      EndsGrow(rules, i, High(rules, i));
    } else {
      ChainEndsInside(out, rules, k, m - 1, i);
      assert Linked(out, m - 1);
      hide ChainFrom;
      var b := InsideOf(out, rules, m);
      NoGapAfter(rules, High(rules, i), b, out[m].start);
    }
  }

  lemma {:induction false} ChainStartsInside(out: seq<Rule>, rules: seq<Rule>, m: nat, k: nat, i: nat)
    requires Ascending(rules) && Inside(out, rules) && ChainFrom(out, m, k)
    requires i < |rules| && rules[i].start <= out[k].start
    ensures rules[Low(rules, i)].start <= out[m].start
    decreases k - m
  {
    LowIsMaximal(rules, i);
    hide Low, Ascending, IsValidRule, Inside;
    if m == k {
      EndsGrow(rules, Low(rules, i), i);
    } else {
      ChainStartsInside(out, rules, m + 1, k, i);
      assert Linked(out, m);
      hide ChainFrom;
      var b := InsideOf(out, rules, m);
      NoGapBefore(rules, Low(rules, i), b, out[m].end);
    }
  }

  /** The chain of rule `k` does not run backwards. */
  predicate Forward(rules: seq<Rule>, k: nat)
    requires k < |rules|
  {
    rules[Low(rules, k)].start <= rules[High(rules, k)].end
  }

  /** The stops of a chain of `out` lie between the stops of the chain around its rule. */
  lemma ChainInside(out: seq<Rule>, rules: seq<Rule>, k: nat, i: nat)
    requires Ascending(rules) && Inside(out, rules) && k < |out|
    requires i < |rules| && rules[i].start <= out[k].start && out[k].end <= rules[i].end
    ensures rules[Low(rules, i)].start <= out[Low(out, k)].start
    ensures out[High(out, k)].end <= rules[High(rules, i)].end
  {
    LowIsMaximal(out, k);
    HighIsMaximal(out, k);
    hide Inside, Ascending;
    ChainEndsInside(out, rules, k, High(out, k), i);
    ChainStartsInside(out, rules, Low(out, k), k, i);
  }

  /** A forward chain of an output is no wider than the chain of the rule it lies in. */
  lemma ChainNoWider(out: seq<Rule>, rules: seq<Rule>, k: nat, i: nat)
    requires Ascending(rules) && Inside(out, rules) && k < |out| && Forward(out, k)
    requires i < |rules| && rules[i].start <= out[k].start && out[k].end <= rules[i].end
    ensures RangeBandwidth(out, k) <= RangeBandwidth(rules, i)
  {
    ChainInside(out, rules, k, i);
    ChainIsNoNarrower(rules, i);
    ChainBandwidthExact(out, k);
    hide Inside, Ascending, Low, High;
  }

  /** What a chain that runs backwards amounts to: almost the whole word. */
  lemma BackwardsWraps(out: seq<Rule>, k: nat)
    requires k < |out| && !Forward(out, k)
    ensures RangeBandwidth(out, k) == TWO32 - (out[Low(out, k)].start - out[High(out, k)].end)
  {
    hide Low, High;
  }

  /** Below 2^31 kHz the bandwidth of an output chain stays within that of the input chain exactly when
      it runs forward. */
  lemma ForwardIsExact(out: seq<Rule>, rules: seq<Rule>, k: nat, i: nat)
    requires Ascending(rules) && Inside(out, rules) && k < |out|
    requires i < |rules| && rules[i].start <= out[k].start && out[k].end <= rules[i].end
    requires forall a: nat :: a < |out| ==> IsValidRule(out[a])
    requires forall b: nat :: b < |rules| ==> rules[b].end < 0x8000_0000
    ensures RangeBandwidth(out, k) <= RangeBandwidth(rules, i) <==> Forward(out, k)
  {
    if Forward(out, k) {
      ChainNoWider(out, rules, k, i);
    } else {
      BackwardsWraps(out, k);
      ChainIsNoNarrower(rules, i);
      assert IsValidRule(out[Low(out, k)]);
      var b := InsideOf(out, rules, Low(out, k));
      hide Inside, Ascending, Low, High, RangeBandwidth;
    }
  }

  lemma CapsShrink(f: set<Flag>, g: set<Flag>, bw: u32, bw': u32)
    requires f - {AutoBw} <= g && bw' <= bw
    ensures Capped(g, bw') <= Capped(f, bw)
  {
    assert forall x: Flag :: x in f && x != AutoBw ==> x in f - {AutoBw};
  }

  lemma BandwidthPassesBack(out: Regdom, k: nat, rd: Regdom, i: nat)
    requires Ascending(rd.rules) && Inside(out.rules, rd.rules) && k < |out.rules| && Forward(out.rules, k)
    requires i < |rd.rules| && Restricts(out.rules[k], rd.rules[i], EffectiveBw(rd.rules, i))
    ensures EffectiveBw(out.rules, k) <= EffectiveBw(rd.rules, i)
  {
    hide RangeBandwidth, Capped, Ascending, Inside, Forward;
    if AutoBw in out.rules[k].flags {
      ChainNoWider(out.rules, rd.rules, k, i);
      CapsShrink(rd.rules[i].flags, out.rules[k].flags, RangeBandwidth(rd.rules, i), RangeBandwidth(out.rules, k));
    }
  }

  lemma OutputIsInside(rd1: Regdom, rd2: Regdom)
    requires RegdomIntersection(rd1, rd2).Some?
    ensures Inside(RegdomIntersection(rd1, rd2).value.rules, rd1.rules)
    ensures Inside(RegdomIntersection(rd1, rd2).value.rules, rd2.rules)
  {
    var out := RegdomIntersection(rd1, rd2).value.rules;
    hide RegdomIntersection, EffectiveBw;
    forall k: nat | k < |out|
      ensures InsideSome(out[k], rd1.rules) && InsideSome(out[k], rd2.rules)
    {
      assert out[k] in out;
      var i, j := OutputRestricts(rd1, rd2, out[k]);
    }
  }

  // ----- First operands that keep every chain forward -----

  /** Neighbours overlap by at most 2 kHz, and the rest not at all. */
  ghost predicate Narrow(rules: seq<Rule>) {
    forall a: nat, b: nat :: a < b < |rules| ==> rules[a].end <= rules[b].start + 2
  }

  lemma OrderedIsNarrow(rules: seq<Rule>)
    requires Ordered(rules)
    ensures Ascending(rules) && Narrow(rules)
  {
    OrderedAscends(rules);
    hide Ascending, IsValidRule;
  }

  /** No rule begins beyond the end of a later one. */
  ghost predicate Reaching(rules: seq<Rule>) {
    forall a: nat, b: nat :: a < b < |rules| ==> rules[a].start <= rules[b].end
  }

  lemma AscendingReaches(rules: seq<Rule>)
    requires Ascending(rules)
    ensures Reaching(rules)
  {
    forall a: nat, b: nat | a < b < |rules|
      ensures rules[a].start <= rules[b].end
    {
      assert IsValidRule(rules[b]);
    }
  }

  lemma PairsReach(rd1: seq<Rule>, rd2: seq<Rule>, i: nat, j: nat, i': nat, j': nat)
    requires Ascending(rd1) && Narrow(rd1) && Reaching(rd2) && PairsInOrder(rd1, rd2, i, j, i', j')
    ensures Intersect(rd1, rd2, i, j).start <= Intersect(rd1, rd2, i', j').end
  {
    PairRange(rd1, rd2, i, j);
    PairRange(rd1, rd2, i', j');
    EndsGrow(rd1, i, i');
    hide Ascending, Intersect, IsValidRule;
  }

  lemma CandidatesReach(rd1: seq<Rule>, rd2: seq<Rule>)
    requires Ascending(rd1) && Narrow(rd1) && Reaching(rd2)
    ensures Reaching(Candidates(rd1, rd2))
  {
    hide Ascending, Narrow, Candidates, Intersect, IsValidRule;
    var c := Candidates(rd1, rd2);
    forall a: nat, b: nat | a < b < |c|
      ensures c[a].start <= c[b].end
    {
      var i, j, i', j' := CandidatePlaces(rd1, rd2, a, b);
      PairsReach(rd1, rd2, i, j, i', j');
    }
  }

  /** Replacing an entry by a later rule that contains it moves the replacement forward, which does no
      harm: it begins no later than what it replaces. */
  lemma AddedReaches(m: seq<Rule>, r: Rule)
    requires Reaching(m) && forall q: nat :: q < |m| ==> m[q].start <= r.end
    ensures Reaching(Added(m, r))
  {
  }

  lemma {:induction false} MergeReaches(rules: seq<Rule>)
    requires Reaching(rules)
    ensures Reaching(Merge(rules))
  {
    hide Added;
    if rules == [] {
    } else {
      var n := |rules| - 1;
      MergeReaches(rules[..n]);
      var m := Merge(rules[..n]);
      forall q: nat | q < |m|
        ensures m[q].start <= rules[n].end
      {
        MergeIsFrom(rules[..n], m[q]);
      }
      AddedReaches(m, rules[n]);
    }
  }

  lemma ReachingIsForward(rules: seq<Rule>, k: nat)
    requires Reaching(rules) && k < |rules| && IsValidRule(rules[k])
    ensures Forward(rules, k)
  {
    hide Low, High;
  }

  /** When the first domain ascends and its rules overlap by 2 kHz at most, no rule of the result begins
      beyond the end of a later one if none of the second domain does. */
  lemma OutputReaches(rd1: Regdom, rd2: Regdom)
    requires Ascending(rd1.rules) && Narrow(rd1.rules) && Reaching(rd2.rules)
    requires RegdomIntersection(rd1, rd2).Some?
    ensures Reaching(RegdomIntersection(rd1, rd2).value.rules)
  {
    hide Ascending, Narrow, Reaching;
    CandidatesReach(rd1.rules, rd2.rules);
    MergeReaches(Candidates(rd1.rules, rd2.rules));
  }

  /** Then every chain of the result runs forward. */
  lemma OutputIsForward(rd1: Regdom, rd2: Regdom, k: nat)
    requires Ascending(rd1.rules) && Narrow(rd1.rules) && Reaching(rd2.rules)
    requires RegdomIntersection(rd1, rd2).Some? && k < |RegdomIntersection(rd1, rd2).value.rules|
    ensures Forward(RegdomIntersection(rd1, rd2).value.rules, k)
  {
    hide RegdomIntersection, Ascending, Narrow, IsValidRule, Reaching, Forward;
    var out := RegdomIntersection(rd1, rd2).value.rules;
    OutputReaches(rd1, rd2);
    assert out[k] in out;
    var i, j := OutputIsPair(rd1, rd2, out[k]);
    ReachingIsForward(out, k);
  }

  /** And no output rule ends up with more bandwidth than the rule of the first domain it comes from,
      nor than that of the second if this one ascends, automatic bandwidth on the new chains included. */
  lemma EffectiveNoWider(rd1: Regdom, rd2: Regdom, k: nat) returns (i: nat, j: nat)
    requires Ascending(rd1.rules) && Narrow(rd1.rules) && Reaching(rd2.rules)
    requires RegdomIntersection(rd1, rd2).Some? && k < |RegdomIntersection(rd1, rd2).value.rules|
    ensures var out := RegdomIntersection(rd1, rd2).value.rules;
            && i < |rd1.rules| && j < |rd2.rules| && out[k] == Intersect(rd1.rules, rd2.rules, i, j)
            && EffectiveBw(out, k) <= EffectiveBw(rd1.rules, i)
            && (Ascending(rd2.rules) ==> EffectiveBw(out, k) <= EffectiveBw(rd2.rules, j))
  {
    var out := RegdomIntersection(rd1, rd2).value;
    OutputIsForward(rd1, rd2, k);
    OutputIsInside(rd1, rd2);
    hide RegdomIntersection, EffectiveBw, Intersect, Ascending, Narrow, Reaching, Inside, IsValidRule, Forward;
    assert out.rules[k] in out.rules;
    i, j := OutputIsPair(rd1, rd2, out.rules[k]);
    PairRestricts(rd1.rules, rd2.rules, i, j);
    BandwidthPassesBack(out, k, rd1, i);
    if Ascending(rd2.rules) {
      BandwidthPassesBack(out, k, rd2, j);
    }
  }

  lemma PairRestricts(rd1: seq<Rule>, rd2: seq<Rule>, i: nat, j: nat)
    requires i < |rd1| && j < |rd2| && IsValidRule(Intersect(rd1, rd2, i, j))
    ensures Restricts(Intersect(rd1, rd2, i, j), rd1[i], EffectiveBw(rd1, i))
    ensures Restricts(Intersect(rd1, rd2, i, j), rd2[j], EffectiveBw(rd2, j))
  {
    IntersectRestricts(rd1[i], EffectiveBw(rd1, i), rd2[j], EffectiveBw(rd2, j));
  }

  /** Rule `k` of `out` lies in rule `i` of `rd` and has no more bandwidth. */
  predicate NoFaster(out: Regdom, k: nat, rd: Regdom, i: nat)
    requires k < |out.rules| && i < |rd.rules|
  {
    && rd.rules[i].start <= out.rules[k].start && out.rules[k].end <= rd.rules[i].end
    && EffectiveBw(out.rules, k) <= EffectiveBw(rd.rules, i)
  }

  ghost predicate Bounded(out: Regdom, k: nat, rd: Regdom)
    requires k < |out.rules|
  {
    exists i: nat :: i < |rd.rules| && NoFaster(out, k, rd, i)
  }

  /** Every rule of `out` lies in some rule of `rd` and has no more bandwidth than it. */
  ghost predicate KeepsBandwidth(out: Regdom, rd: Regdom) {
    forall k: nat :: k < |out.rules| ==> Bounded(out, k, rd)
  }

  lemma NarrowIsEnough(rd1: Regdom, rd2: Regdom)
    requires Ascending(rd1.rules) && Narrow(rd1.rules) && Reaching(rd2.rules)
    requires RegdomIntersection(rd1, rd2).Some?
    ensures KeepsBandwidth(RegdomIntersection(rd1, rd2).value, rd1)
    ensures Ascending(rd2.rules) ==> KeepsBandwidth(RegdomIntersection(rd1, rd2).value, rd2)
  {
    var out := RegdomIntersection(rd1, rd2).value;
    hide RegdomIntersection, EffectiveBw, Ascending, Narrow, Reaching, Intersect;
    forall k: nat | k < |out.rules|
      ensures Bounded(out, k, rd1) && (Ascending(rd2.rules) ==> Bounded(out, k, rd2))
    {
      var i, j := EffectiveNoWider(rd1, rd2, k);
      PairRange(rd1.rules, rd2.rules, i, j);
      assert NoFaster(out, k, rd1, i);
      assert Ascending(rd2.rules) ==> NoFaster(out, k, rd2, j);
    }
  }

  // ----- Any number of narrow answers -----

  /** What further cuts with narrow answers keep: no number exceeds `rd`, and automatic bandwidth works
      inside its automatic rules only, on chains that run forward. */
  ghost predicate NumbersStayIn(cur: Regdom, rd: Regdom) {
    && Reaching(cur.rules) && KeepsBandwidth(cur, rd)
    && (forall k: nat :: k < |cur.rules| ==> IsValidRule(cur.rules[k]))
    && forall k: nat :: k < |cur.rules| && AutoBw in cur.rules[k].flags ==> AutoPart(cur, k, rd)
  }

  lemma NumbersStayInItself(rd: Regdom)
    requires Ascending(rd.rules)
    ensures NumbersStayIn(rd, rd)
  {
    AscendingReaches(rd.rules);
    StaysInItself(rd);
    hide Reaching, NoWider, EffectiveBw, AutoPart;
    forall k: nat | k < |rd.rules|
      ensures Bounded(rd, k, rd)
    {
      assert NoFaster(rd, k, rd, k);
    }
  }

  lemma KeptIsInside(out: Regdom, rd: Regdom)
    requires KeepsBandwidth(out, rd)
    ensures Inside(out.rules, rd.rules)
  {
    hide EffectiveBw;
    forall k: nat | k < |out.rules|
      ensures InsideSome(out.rules[k], rd.rules)
    {
      assert Bounded(out, k, rd);
      var i: nat :| i < |rd.rules| && NoFaster(out, k, rd, i);
    }
  }

  /** Restricting a domain inside another one stays inside. */
  lemma RestrictedIsInside(out: Regdom, cur: Regdom, rules: seq<Rule>)
    requires AllRestrict(out, cur) && Inside(cur.rules, rules)
    ensures Inside(out.rules, rules)
  {
    hide EffectiveBw;
    forall k: nat | k < |out.rules|
      ensures InsideSome(out.rules[k], rules)
    {
      assert RestrictsSome(out.rules[k], cur);
      var m: nat :| m < |cur.rules| && Restricts(out.rules[k], cur.rules[m], EffectiveBw(cur.rules, m));
      var i := InsideOf(cur.rules, rules, m);
      assert rules[i].start <= out.rules[k].start && out.rules[k].end <= rules[i].end;
    }
  }

  /** An automatic rule on part of an automatic rule of an ascending domain has no more bandwidth. */
  lemma PartIsBounded(out: Regdom, k: nat, rd: Regdom)
    requires Ascending(rd.rules) && Inside(out.rules, rd.rules) && k < |out.rules| && Forward(out.rules, k)
    requires AutoBw in out.rules[k].flags && AutoPart(out, k, rd)
    ensures Bounded(out, k, rd)
  {
    hide Ascending, Inside, Forward, RangeBandwidth, Capped;
    var i: nat :| i < |rd.rules| && AutoBw in rd.rules[i].flags &&
      rd.rules[i].start <= out.rules[k].start && out.rules[k].end <= rd.rules[i].end &&
      rd.rules[i].flags - {AutoBw} <= out.rules[k].flags;
    ChainNoWider(out.rules, rd.rules, k, i);
    CapsShrink(rd.rules[i].flags, out.rules[k].flags, RangeBandwidth(rd.rules, i), RangeBandwidth(out.rules, k));
    assert NoFaster(out, k, rd, i);
  }

  /** A rule without keeps what it records, which the rule it restricts really has. */
  lemma RecordedIsBounded(out: Regdom, k: nat, cur: Regdom, m: nat, rd: Regdom)
    requires k < |out.rules| && m < |cur.rules| && AutoBw !in out.rules[k].flags
    requires Restricts(out.rules[k], cur.rules[m], EffectiveBw(cur.rules, m)) && Bounded(cur, m, rd)
    ensures Bounded(out, k, rd)
  {
    hide AutoBandwidth;
    var i: nat :| i < |rd.rules| && NoFaster(cur, m, rd, i);
    assert NoFaster(out, k, rd, i);
  }

  lemma StepIsBounded(out: Regdom, k: nat, cur: Regdom, rd: Regdom)
    requires Reaching(out.rules) && k < |out.rules| && IsValidRule(out.rules[k]) && Inside(out.rules, rd.rules)
    requires RestrictsSome(out.rules[k], cur) && NumbersStayIn(cur, rd) && Ascending(rd.rules)
    ensures Bounded(out, k, rd) && (AutoBw in out.rules[k].flags ==> AutoPart(out, k, rd))
  {
    hide EffectiveBw, Ascending, Inside, Reaching, AutoPart, Bounded, IsValidRule;
    var m: nat :| m < |cur.rules| && Restricts(out.rules[k], cur.rules[m], EffectiveBw(cur.rules, m));
    if AutoBw in out.rules[k].flags {
      PartOfPart(out, k, cur, m, rd);
      ReachingIsForward(out.rules, k);
      PartIsBounded(out, k, rd);
    } else {
      RecordedIsBounded(out, k, cur, m, rd);
    }
  }

  lemma NumbersStep(out: Regdom, cur: Regdom, rd: Regdom)
    requires AllRestrict(out, cur) && Reaching(out.rules) && NumbersStayIn(cur, rd) && Ascending(rd.rules)
    ensures NumbersStayIn(out, rd)
  {
    hide EffectiveBw, Ascending, Reaching, AutoPart, Bounded, Inside;
    KeptIsInside(cur, rd);
    RestrictedIsInside(out, cur, rd.rules);
    forall k: nat | k < |out.rules|
      ensures IsValidRule(out.rules[k]) && Bounded(out, k, rd)
      ensures AutoBw in out.rules[k].flags ==> AutoPart(out, k, rd)
    {
      assert RestrictsSome(out.rules[k], cur);
      RestrictedIsValid(out.rules[k], cur);
      StepIsBounded(out, k, cur, rd);
    }
  }

  lemma RestrictedIsValid(r: Rule, cur: Regdom)
    requires RestrictsSome(r, cur)
    ensures IsValidRule(r)
  {
    hide EffectiveBw;
  }

  /** A cut with an answer, the first operand, that ascends and whose rules overlap by 2 kHz at most. */
  ghost predicate NarrowCut(cut: Cut) {
    cut.otherFirst && Ascending(cut.other.rules) && Narrow(cut.other.rules)
  }

  ghost predicate NarrowCuts(cuts: seq<Cut>) {
    forall n: nat :: n < |cuts| ==> NarrowCut(cuts[n])
  }

  lemma NarrowCutReaches(cur: Regdom, cut: Cut)
    requires NarrowCut(cut) && Reaching(cur.rules)
    ensures Reaching(After(cur, cut).rules)
  {
    hide RegdomIntersection, Reaching, Ascending, Narrow;
    if Common(cur, cut).Some? {
      OutputReaches(cut.other, cur);
    }
  }

  lemma {:induction false} NarrowCutsReach(cur: Regdom, cuts: seq<Cut>)
    requires NarrowCuts(cuts) && Reaching(cur.rules)
    ensures Reaching(AfterAll(cur, cuts).rules)
  {
    hide Reaching, After, NarrowCut;
    if cuts == [] {
    } else {
      var n := |cuts| - 1;
      NarrowCutsReach(cur, cuts[..n]);
      NarrowCutReaches(AfterAll(cur, cuts[..n]), cuts[n]);
    }
  }

  lemma {:induction false} CutsKeepNumbers(cur: Regdom, cuts: seq<Cut>, rd: Regdom)
    requires NarrowCuts(cuts) && NumbersStayIn(cur, rd) && Ascending(rd.rules)
    ensures NumbersStayIn(AfterAll(cur, cuts), rd)
  {
    hide Reaching, Ascending, NarrowCut, KeepsBandwidth, AllRestrict, Common, AutoPart, IsValidRule;
    if cuts == [] {
    } else {
      var n := |cuts| - 1;
      CutsKeepNumbers(cur, cuts[..n], rd);
      NarrowCutReaches(AfterAll(cur, cuts[..n]), cuts[n]);
      hide NumbersStayIn;
      if Common(AfterAll(cur, cuts[..n]), cuts[n]).Some? {
        CutRestricts(AfterAll(cur, cuts[..n]), cuts[n]);
        NumbersStep(AfterAll(cur, cuts), AfterAll(cur, cuts[..n]), rd);
      }
    }
  }

  /** However many such answers follow, the numbers stay within the domain that was in force, if that
      ascends, and within every answer; no chain ever runs backwards. */
  lemma NumbersForGood(cur: Regdom, cuts: seq<Cut>, n: nat)
    requires NarrowCuts(cuts) && Reaching(cur.rules) && n < |cuts|
    ensures Reaching(AfterAll(cur, cuts).rules)
    ensures Ascending(cur.rules) ==> KeepsBandwidth(AfterAll(cur, cuts), cur)
    ensures Common(AfterAll(cur, cuts[..n]), cuts[n]).Some? ==> KeepsBandwidth(AfterAll(cur, cuts), cuts[n].other)
  {
    hide Reaching, Ascending, Narrow, KeepsBandwidth, AllRestrict, After, Common, AutoPart, IsValidRule;
    NarrowCutsReach(cur, cuts);
    if Ascending(cur.rules) {
      NumbersStayInItself(cur);
      CutsKeepNumbers(cur, cuts, cur);
    }
    var before, rd := AfterAll(cur, cuts[..n]), cuts[n].other;
    assert NarrowCut(cuts[n]);
    if Common(before, cuts[n]).Some? {
      NarrowCutsReach(cur, cuts[..n]);
      NarrowCutReaches(before, cuts[n]);
      CutRestricts(before, cuts[n]);
      NumbersStayInItself(rd);
      NumbersStep(After(before, cuts[n]), rd, rd);
      CutsKeepNumbers(After(before, cuts[n]), cuts[n + 1..], rd);
      CutsInTwo(cur, cuts, n + 1);
      assert cuts[..n + 1][..n] == cuts[..n];
    }
  }

  // ----- Exactly those -----

  ghost predicate SameRanges(a: seq<Rule>, b: seq<Rule>) {
    |a| == |b| && forall k: nat :: k < |a| ==> a[k].start == b[k].start && a[k].end == b[k].end
  }

  /** Whatever else rules with these ranges say, as a first operand they keep the bandwidth of every
      intersection with an ascending domain within both. */
  ghost predicate SafeFirst(rules: seq<Rule>) {
    forall rd1: Regdom, rd2: Regdom ::
      && IsValidRd(rd1) && SameRanges(rd1.rules, rules) && IsValidRd(rd2) && Ascending(rd2.rules)
      && RegdomIntersection(rd1, rd2).Some?
      ==> && KeepsBandwidth(RegdomIntersection(rd1, rd2).value, rd1)
          && KeepsBandwidth(RegdomIntersection(rd1, rd2).value, rd2)
  }

  /** The rules with automatic bandwidth and a flag of their own each, so that none is related to
      another. */
  function Marked(rules: seq<Rule>): (m: seq<Rule>)
    ensures |m| == |rules|
  {
    seq(|rules|, x requires 0 <= x < |rules| =>
      Rule(rules[x].start, rules[x].end, 0, 0, 0, {AutoBw, Other(x)}, 0, NoWmm))
  }

  function Tooth(p: u32): Rule
    requires p + 1 < TWO32
  {
    Rule(p, p + 1, 0, 0, 0, {AutoBw}, 0, NoWmm)
  }

  /** Two rules of 1 kHz with 1 kHz between them. */
  function Teeth(p: u32): seq<Rule>
    requires p + 3 < TWO32
  {
    [Tooth(p), Tooth(p + 2)]
  }

  lemma TeethAreValid(p: u32)
    requires 0 < p && p + 3 < TWO32
    ensures IsValidRd(Regdom(INTERSECTED, Unset, Teeth(p))) && Ascending(Teeth(p))
    ensures EffectiveBw(Teeth(p), 0) == EffectiveBw(Teeth(p), 1) == 1
  {
    var t := Teeth(p);
    assert !Linked(t, 0);
    assert RangeBandwidth(t, 0) == RangeBandwidth(t, 1) == 1;
  }

  lemma MarkedFlags(rules: seq<Rule>, p: u32, i: nat, j: nat)
    requires p + 3 < TWO32 && i < |rules| && j < 2
    ensures Intersect(Marked(rules), Teeth(p), i, j).flags == {AutoBw, Other(i)}
  {
    hide EffectiveBw;
  }

  lemma MarkedAreUnrelated(rules: seq<Rule>, p: u32)
    requires p + 3 < TWO32
    ensures Unrelated(Candidates(Marked(rules), Teeth(p)))
  {
    var c := Candidates(Marked(rules), Teeth(p));
    hide Intersect, Candidates, Marked;
    forall a: nat, b: nat | a < b < |c|
      ensures !Related(c[a], c[b])
    {
      var i, j, i', j' := CandidatePlaces(Marked(rules), Teeth(p), a, b);
      MarkedFlags(rules, p, i, j);
      MarkedFlags(rules, p, i', j');
      PairRange(Marked(rules), Teeth(p), i, j);
      PairRange(Marked(rules), Teeth(p), i', j');
      assert Other(i) in c[a].flags;
    }
  }

  lemma {:induction false} RowsExtend(g: seq<seq<Rule>>, x: nat, z: nat)
    requires x <= z <= |g|
    ensures Rows(g, x) <= Rows(g, z)
  {
    if x == z {
    } else {
      RowsExtend(g, x, z - 1);
    }
  }

  lemma RowOfTwo(row: seq<Rule>)
    requires |row| == 2 && IsValidRule(row[0]) && IsValidRule(row[1])
    ensures Row(row, 2) == row
  {
    assert Row(row, 1) == Row(row, 0) + [row[0]];
  }

  /** What the teeth cut out of a rule that holds them. */
  lemma TeethRow(rules: seq<Rule>, p: u32, x: nat)
    requires 0 < p && p + 3 < TWO32 && x < |rules| && rules[x].start <= p && p + 3 <= rules[x].end
    ensures var row := Row(Grid(Marked(rules), Teeth(p))[x], 2);
            && |row| == 2 && row[0].flags == row[1].flags == {AutoBw, Other(x)}
            && row[0].start == p && row[0].end == p + 1 && row[1].start == p + 2 && row[1].end == p + 3
  {
    var m, t := Marked(rules), Teeth(p);
    PairRange(m, t, x, 0);
    PairRange(m, t, x, 1);
    MarkedFlags(rules, p, x, 0);
    MarkedFlags(rules, p, x, 1);
    GridAt(m, t, x, 0);
    GridAt(m, t, x, 1);
    hide Intersect, IsValidRule, Grid;
    RowOfTwo(Grid(m, t)[x]);
  }

  /** The rows of two neighbours stand together among the candidates. */
  lemma RowsTogether(g: seq<seq<Rule>>, z: nat)
    requires z + 1 < |g|
    ensures Rows(g, z) + Row(g[z], |g[z]|) + Row(g[z + 1], |g[z + 1]|) <= Rows(g, |g|)
  {
    RowsExtend(g, z + 2, |g|);
    hide Row;
    assert Rows(g, z + 2) == Rows(g, z + 1) + Row(g[z + 1], |g[z + 1]|);
  }

  /** A chain of two rules between gaps. */
  lemma ChainOfTwo(rules: seq<Rule>, k: nat)
    requires 0 < k && k + 2 < |rules|
    requires !Linked(rules, k - 1) && Linked(rules, k) && !Linked(rules, k + 1)
    ensures Low(rules, k) == k && High(rules, k) == k + 1
  {
    assert High(rules, k + 1) == k + 1;
  }

  /** The piece of a second tooth before the piece of a first: their chain runs backwards. */
  lemma PiecesGoBackwards(c: seq<Rule>, k: nat, p: u32, z: nat)
    requires 0 < k && k + 2 < |c| && p + 3 < TWO32 && c[k].flags == {AutoBw, Other(z)}
    requires c[k - 1].end == p + 1 && c[k].start == p + 2 && c[k].end == p + 3
    requires c[k + 1].start == p && c[k + 1].end == p + 1 && c[k + 2].start == p + 2
    ensures EffectiveBw(c, k) == TWO32 - 1
  {
    ChainOfTwo(c, k);
    hide Low, High;
  }

  /** Two rules that overlap by more than 2 kHz, cut by the teeth: the second piece of the first rule
      links to the first piece of the second. */
  lemma TeethGoBackwards(rules: seq<Rule>, p: u32, z: nat) returns (k: nat)
    requires 0 < p && p + 3 < TWO32 && z + 1 < |rules|
    requires rules[z].start <= p && p + 3 <= rules[z].end && rules[z + 1].start <= p && p + 3 <= rules[z + 1].end
    ensures var c := Candidates(Marked(rules), Teeth(p));
            k < |c| && EffectiveBw(c, k) == TWO32 - 1
  {
    hide Grid, Row, Rows, Marked, EffectiveBw;
    var g, c := Grid(Marked(rules), Teeth(p)), Candidates(Marked(rules), Teeth(p));
    TeethRow(rules, p, z);
    TeethRow(rules, p, z + 1);
    RowsTogether(g, z);
    k := |Rows(g, z)| + 1;
    var part := Rows(g, z) + Row(g[z], 2) + Row(g[z + 1], 2);
    assert c[k - 1] == part[k - 1] && c[k] == part[k] && c[k + 1] == part[k + 1] && c[k + 2] == part[k + 2];
    hide Candidates;
    PiecesGoBackwards(c, k, p, z);
  }

  lemma MarkedAreValid(rules: seq<Rule>)
    requires Ascending(rules) && 0 < |rules| <= MAX_SUPP_REG_RULES
    ensures IsValidRd(Regdom(INTERSECTED, Unset, Marked(rules))) && SameRanges(Marked(rules), rules)
  {
    forall x | 0 <= x < |rules|
      ensures IsValidRule(Marked(rules)[x])
    {
      assert IsValidRule(rules[x]);
    }
  }

  /** Where two rules overlap by more than 2 kHz, so do two neighbours. */
  lemma WideOverlap(rules: seq<Rule>) returns (z: nat)
    requires Ascending(rules) && !Narrow(rules)
    ensures z + 1 < |rules| && 0 < rules[z + 1].start && rules[z + 1].start + 3 <= rules[z].end
    ensures rules[z].start <= rules[z + 1].start && rules[z].end <= rules[z + 1].end
  {
    var a: nat, b: nat :| a < b < |rules| && rules[a].end > rules[b].start + 2;
    z := a;
    EndsGrow(rules, z + 1, b);
    EndsGrow(rules, z, z + 1);
    assert IsValidRule(rules[z + 1]);
  }

  lemma NarrowIsNeeded(rules: seq<Rule>) returns (rd1: Regdom, rd2: Regdom)
    requires Ascending(rules) && 0 < |rules| <= MAX_SUPP_REG_RULES && !Narrow(rules)
    ensures IsValidRd(rd1) && SameRanges(rd1.rules, rules) && IsValidRd(rd2) && Ascending(rd2.rules)
    ensures RegdomIntersection(rd1, rd2).Some? && !KeepsBandwidth(RegdomIntersection(rd1, rd2).value, rd2)
  {
    var z := WideOverlap(rules);
    var p := rules[z + 1].start;
    hide Ascending, Narrow, EffectiveBw, Candidates, IsValidRd, SameRanges, Marked, Merge, Unrelated;
    rd1, rd2 := Regdom(INTERSECTED, Unset, Marked(rules)), Regdom(INTERSECTED, Unset, Teeth(p));
    MarkedAreValid(rules);
    TeethAreValid(p);
    MarkedAreUnrelated(rules, p);
    UnrelatedMergesToItself(Candidates(rd1.rules, rd2.rules));
    var k := TeethGoBackwards(rules, p, z);
    var out := RegdomIntersection(rd1, rd2).value;
    hide RegdomIntersection;
    forall i: nat | i < |rd2.rules|
      ensures !NoFaster(out, k, rd2, i)
    {
      assert i == 0 || i == 1;
    }
    assert !Bounded(out, k, rd2);
  }

  lemma SameRangesAscend(a: seq<Rule>, b: seq<Rule>)
    requires SameRanges(a, b) && Ascending(b)
    requires forall k :: 0 <= k < |a| ==> IsValidRule(a[k])
    ensures Ascending(a) && (Narrow(b) ==> Narrow(a))
  {
    hide IsValidRule;
    forall k: nat, l: nat | k < l < |a|
      ensures a[k].start <= a[l].start && a[k].end <= a[l].end
    {
      EndsGrow(b, k, l);
    }
  }

  /** Among ascending domains the ones that are safe as the first operand, the answer to a hint, are
      those whose neighbours overlap by 2 kHz at most. The condition is on the ranges: what the rules
      carry otherwise decides which of them the merge drops. */
  lemma NarrowIsExact(rd: Regdom)
    requires IsValidRd(rd) && Ascending(rd.rules)
    ensures Narrow(rd.rules) <==> SafeFirst(rd.rules)
  {
    hide Ascending, Narrow, RegdomIntersection, KeepsBandwidth, SameRanges, IsValidRule;
    if Narrow(rd.rules) {
      forall rd1: Regdom, rd2: Regdom |
        && IsValidRd(rd1) && SameRanges(rd1.rules, rd.rules) && IsValidRd(rd2) && Ascending(rd2.rules)
        && RegdomIntersection(rd1, rd2).Some?
        ensures KeepsBandwidth(RegdomIntersection(rd1, rd2).value, rd1)
        ensures KeepsBandwidth(RegdomIntersection(rd1, rd2).value, rd2)
      {
        SameRangesAscend(rd1.rules, rd.rules);
        AscendingReaches(rd2.rules);
        NarrowIsEnough(rd1, rd2);
      }
    } else {
      var rd1, rd2 := NarrowIsNeeded(rd.rules);
    }
  }

  // ----- Two bands -----

  const TWO_BANDS := Regdom(Alpha2('A', 'A'), Unset, [
    WideRule(5_170_000, 5_250_000, {AutoBw}), WideRule(5_490_000, 5_570_000, {AutoBw})])

  const OVERLAPPING := Regdom(Alpha2('B', 'B'), Unset, [
    WideRule(5_170_000, 5_560_000, {AutoBw}), WideRule(5_180_000, 5_570_000, {AutoBw, Other(1)})])

  function WideRule(start: u32, end: u32, flags: set<Flag>): Rule {
    Rule(start, end, 40_000, 2000, 0, flags, 0, NoWmm)
  }

  lemma TwoBandsAreSealed()
    ensures IsValidRd(TWO_BANDS) && Ordered(TWO_BANDS.rules) && Sealed(TWO_BANDS)
    ensures IsValidRd(OVERLAPPING) && Ascending(OVERLAPPING.rules) && Sealed(OVERLAPPING)
    ensures EffectiveBw(TWO_BANDS.rules, 0) == EffectiveBw(TWO_BANDS.rules, 1) == 80_000
    ensures EffectiveBw(OVERLAPPING.rules, 0) == EffectiveBw(OVERLAPPING.rules, 1) == 400_000
  {
    OrderedAscends(TWO_BANDS.rules);
    AscendingIsSealed(TWO_BANDS);
    AscendingIsSealed(OVERLAPPING);
    hide Sealed;
    var a, b := TWO_BANDS.rules, OVERLAPPING.rules;
    assert !Linked(a, 0) && Linked(b, 0);
    assert RangeBandwidth(a, 0) == RangeBandwidth(a, 1) == 80_000;
    assert Low(b, 0) == Low(b, 1) == 0 && High(b, 0) == High(b, 1) == 1;
    assert RangeBandwidth(b, 0) == RangeBandwidth(b, 1) == 400_000;
  }

  lemma TwoBandsPair(i: nat, j: nat)
    requires i < 2 && j < 2
    ensures var a, b := OVERLAPPING.rules, TWO_BANDS.rules;
            var r := Intersect(a, b, i, j);
            && Grid(a, b)[i][j] == r && IsValidRule(r) && r.flags == a[i].flags
            && r.start == Max(a[i].start, b[j].start) && r.end == Min(a[i].end, b[j].end)
  {
    var a, b := OVERLAPPING.rules, TWO_BANDS.rules;
    GridAt(a, b, i, j);
    PairRange(a, b, i, j);
    hide EffectiveBw;
  }

  lemma TwoBandsCandidates() returns (c: seq<Rule>)
    ensures c == Candidates(OVERLAPPING.rules, TWO_BANDS.rules) && |c| == 4
    ensures c[0].start == 5_170_000 && c[0].end == 5_250_000 && c[0].flags == {AutoBw}
    ensures c[1].start == 5_490_000 && c[1].end == 5_560_000 && c[1].flags == {AutoBw}
    ensures c[2].start == 5_180_000 && c[2].end == 5_250_000 && c[2].flags == {AutoBw, Other(1)}
    ensures c[3].start == 5_490_000 && c[3].end == 5_570_000 && c[3].flags == {AutoBw, Other(1)}
  {
    TwoBandsPair(0, 0);
    TwoBandsPair(0, 1);
    TwoBandsPair(1, 0);
    TwoBandsPair(1, 1);
    var g := Grid(OVERLAPPING.rules, TWO_BANDS.rules);
    hide Grid, Intersect, IsValidRule;
    RowOfTwo(g[0]);
    RowOfTwo(g[1]);
    hide Row;
    assert Rows(g, 1) == Rows(g, 0) + g[0];
    c := g[0] + g[1];
    assert Rows(g, 2) == c;
  }

  /** Both domains valid and sealed, the old one ordered and the answer ascending, and yet a rule of
      their intersection has the bandwidth of an underflow. */
  lemma TwoBandsWrap()
    ensures RegdomIntersection(OVERLAPPING, TWO_BANDS).Some?
    ensures var out := RegdomIntersection(OVERLAPPING, TWO_BANDS).value;
            |out.rules| == 4 && EffectiveBw(out.rules, 1) == 4_294_727_296 && !Forward(out.rules, 1)
  {
    var c := TwoBandsCandidates();
    hide Candidates;
    assert Unrelated(c);
    UnrelatedMergesToItself(c);
    hide Merge;
    ChainOfTwo(c, 1);
    hide Low, High;
  }

  // ----- Ordered domains: exactly what is common -----

  lemma PairIsPlaced(rd1: Regdom, rd2: Regdom, i: nat, j: nat) returns (k: nat)
    requires Ordered(rd1.rules) && Ordered(rd2.rules) && i < |rd1.rules| && j < |rd2.rules|
    requires IsValidRule(Intersect(rd1.rules, rd2.rules, i, j))
    ensures RegdomIntersection(rd1, rd2).Some? && k < |RegdomIntersection(rd1, rd2).value.rules|
    ensures RegdomIntersection(rd1, rd2).value.rules[k] == Intersect(rd1.rules, rd2.rules, i, j)
    ensures Ordered(RegdomIntersection(rd1, rd2).value.rules)
  {
    hide EffectiveBw, IsValidRule, Ordered;
    var r := Intersect(rd1.rules, rd2.rules, i, j);
    GridAt(rd1.rules, rd2.rules, i, j);
    InRows(Grid(rd1.rules, rd2.rules), |rd1.rules|, i, j);
    OutputIsOrdered(rd1, rd2);
    k :| k < |RegdomIntersection(rd1, rd2).value.rules| && RegdomIntersection(rd1, rd2).value.rules[k] == r;
  }

  /** The two rules of a pair leave room for a band of width `w` when their HT40 restrictions are put
      together: one may forbid the upper and the other the lower neighbour. */
  predicate Ht40Room(r1: Rule, r2: Rule, w: int) {
    AutoBw in r1.flags && AutoBw in r2.flags && NoHt40Minus in r1.flags + r2.flags && NoHt40Plus in r1.flags + r2.flags
    ==> w <= 20000
  }

  /** Caps of joined flags, but for the pair of HT40 flags, are the caps of both. */
  lemma JointCaps(f: set<Flag>, g: set<Flag>, bw1: u32, bw2: u32, bw: u32, w: u32)
    requires w <= Capped(f, bw1) && w <= Capped(g, bw2) && w <= bw
    ensures w <= Capped(f + g, bw) <==> (NoHt40Minus in f + g && NoHt40Plus in f + g ==> w <= 20000)
  {
  }

  lemma PairEffective(rd1: Regdom, rd2: Regdom, out: Regdom, i: nat, j: nat, k: nat, lo: int, hi: int)
    requires i < |rd1.rules| && j < |rd2.rules| && k < |out.rules| && Ascending(out.rules)
    requires out.rules[k] == Intersect(rd1.rules, rd2.rules, i, j)
    requires Grants(rd1, i, lo, hi) && Grants(rd2, j, lo, hi)
    ensures Grants(out, k, lo, hi) <==> Ht40Room(rd1.rules[i], rd2.rules[j], hi - lo)
  {
    var r1, r2, r := rd1.rules[i], rd2.rules[j], out.rules[k];
    assert IsValidRule(r);
    if AutoBw in r1.flags && AutoBw in r2.flags {
      ChainIsNoNarrower(out.rules, k);
      hide RangeBandwidth, Capped;
      assert r.flags == r1.flags + r2.flags;
      JointCaps(r1.flags, r2.flags, RangeBandwidth(rd1.rules, i), RangeBandwidth(rd2.rules, j),
                RangeBandwidth(out.rules, k), hi - lo);
    } else {
      hide RangeBandwidth, Capped;
      assert AutoBw !in r.flags;
    }
  }

  /** Some pair of rules grants the band on both sides and has room for it. */
  ghost predicate BothHaveRoom(rd1: Regdom, rd2: Regdom, i: nat, j: nat, lo: int, hi: int) {
    Grants(rd1, i, lo, hi) && Grants(rd2, j, lo, hi) && Ht40Room(rd1.rules[i], rd2.rules[j], hi - lo)
  }

  /** Between ordered domains the intersection really grants exactly the bands that a rule of each
      really grants, joined HT40 restrictions aside. */
  lemma EffectiveSpectrum(rd1: Regdom, rd2: Regdom, lo: int, hi: int)
    requires Ordered(rd1.rules) && Ordered(rd2.rules)
    ensures (RegdomIntersection(rd1, rd2).Some? && GrantsSome(RegdomIntersection(rd1, rd2).value, lo, hi))
            <==> exists i: nat, j: nat :: BothHaveRoom(rd1, rd2, i, j, lo, hi)
  {
    if RegdomIntersection(rd1, rd2).Some? && GrantsSome(RegdomIntersection(rd1, rd2).value, lo, hi) {
      var out := RegdomIntersection(rd1, rd2).value;
      var k: nat :| Grants(out, k, lo, hi);
      OrderedIsNarrow(rd1.rules);
      OrderedAscends(rd2.rules);
      AscendingReaches(rd2.rules);
      var i, j := EffectiveNoWider(rd1, rd2, k);
      OutputIsOrdered(rd1, rd2);
      OrderedAscends(out.rules);
      hide RegdomIntersection, EffectiveBw, Ordered, Candidates, Ht40Room;
      assert Grants(rd1, i, lo, hi) && Grants(rd2, j, lo, hi);
      PairEffective(rd1, rd2, out, i, j, k, lo, hi);
      assert BothHaveRoom(rd1, rd2, i, j, lo, hi);
    }
    forall i: nat, j: nat | BothHaveRoom(rd1, rd2, i, j, lo, hi)
      ensures RegdomIntersection(rd1, rd2).Some? && GrantsSome(RegdomIntersection(rd1, rd2).value, lo, hi)
    {
      RoomIsGranted(rd1, rd2, i, j, lo, hi);
    }
  }

  lemma RoomIsGranted(rd1: Regdom, rd2: Regdom, i: nat, j: nat, lo: int, hi: int)
    requires Ordered(rd1.rules) && Ordered(rd2.rules) && BothHaveRoom(rd1, rd2, i, j, lo, hi)
    ensures RegdomIntersection(rd1, rd2).Some? && GrantsSome(RegdomIntersection(rd1, rd2).value, lo, hi)
  {
    assert IsValidRule(rd1.rules[i]) && IsValidRule(rd2.rules[j]);
    PairRange(rd1.rules, rd2.rules, i, j);
    hide EffectiveBw, IsValidRule, Ht40Room, Intersect, RegdomIntersection;
    var k := PairIsPlaced(rd1, rd2, i, j);
    var out := RegdomIntersection(rd1, rd2).value;
    OrderedAscends(out.rules);
    hide Ordered;
    PairEffective(rd1, rd2, out, i, j, k, lo, hi);
    assert Grants(out, k, lo, hi);
  }

  // ----- Ordered domains: chains meet exactly -----

  /** Some rule of a chain begins below a frequency of its span and reaches it. */
  lemma {:induction false} ChainReaches(rules: seq<Rule>, lo: nat, hi: nat, f: u32) returns (k: nat)
    requires ChainFrom(rules, lo, hi) && rules[lo].start < f <= rules[hi].end
    ensures k < |rules| && rules[k].start < f <= rules[k].end
    decreases hi
  {
    if hi == lo || rules[hi].start < f {
      k := hi;
    } else {
      assert Linked(rules, hi - 1);
      k := ChainReaches(rules, lo, hi - 1, f);
    }
  }

  /** Some rule of a chain holds a frequency of its span and goes on beyond it. */
  lemma {:induction false} ChainGoesOn(rules: seq<Rule>, lo: nat, hi: nat, f: u32) returns (k: nat)
    requires ChainFrom(rules, lo, hi) && rules[lo].start <= f < rules[hi].end
    ensures k < |rules| && rules[k].start <= f < rules[k].end
    decreases hi
  {
    if hi == lo || rules[hi].start <= f {
      k := hi;
    } else {
      assert Linked(rules, hi - 1);
      k := ChainGoesOn(rules, lo, hi - 1, f);
    }
  }

  ghost predicate FromPair(rd1: Regdom, rd2: Regdom, k: nat, i: nat, j: nat) {
    && RegdomIntersection(rd1, rd2).Some? && k < |RegdomIntersection(rd1, rd2).value.rules|
    && i < |rd1.rules| && j < |rd2.rules|
    && RegdomIntersection(rd1, rd2).value.rules[k] == Intersect(rd1.rules, rd2.rules, i, j)
  }

  lemma ChainSpan(rules: seq<Rule>, k: nat)
    requires Ascending(rules) && k < |rules|
    ensures ChainFrom(rules, Low(rules, k), k) && (Low(rules, k) == 0 || !Linked(rules, Low(rules, k) - 1))
    ensures ChainFrom(rules, k, High(rules, k))
    ensures High(rules, k) == |rules| - 1 || !Linked(rules, High(rules, k))
    ensures rules[Low(rules, k)].start <= rules[k].start < rules[k].end <= rules[High(rules, k)].end
  {
    LowIsMaximal(rules, k);
    HighIsMaximal(rules, k);
    hide Low, High;
    EndsGrow(rules, Low(rules, k), k);
    EndsGrow(rules, k, High(rules, k));
    assert IsValidRule(rules[k]);
  }

  lemma OutputAscends(rd1: Regdom, rd2: Regdom)
    requires Ordered(rd1.rules) && Ordered(rd2.rules) && RegdomIntersection(rd1, rd2).Some?
    ensures Ascending(rd1.rules) && Ascending(rd2.rules) && Ascending(RegdomIntersection(rd1, rd2).value.rules)
  {
    hide Ordered, Ascending, RegdomIntersection, Candidates;
    OutputIsOrdered(rd1, rd2);
    OrderedAscends(rd1.rules);
    OrderedAscends(rd2.rules);
    OrderedAscends(RegdomIntersection(rd1, rd2).value.rules);
  }

  /** Two rules with a frequency in common and more on the same side of it leave a piece that has it. */
  lemma PieceAt(rd1: Regdom, rd2: Regdom, i: nat, j: nat, lo: u32, hi: u32) returns (k: nat)
    requires Ordered(rd1.rules) && Ordered(rd2.rules) && i < |rd1.rules| && j < |rd2.rules| && lo < hi
    requires rd1.rules[i].start <= lo && hi <= rd1.rules[i].end && rd2.rules[j].start <= lo && hi <= rd2.rules[j].end
    ensures RegdomIntersection(rd1, rd2).Some? && k < |RegdomIntersection(rd1, rd2).value.rules|
    ensures RegdomIntersection(rd1, rd2).value.rules[k].start <= lo
    ensures hi <= RegdomIntersection(rd1, rd2).value.rules[k].end
  {
    PairRange(rd1.rules, rd2.rules, i, j);
    assert IsValidRule(rd1.rules[i]);
    hide RegdomIntersection, Intersect, Ordered;
    k := PairIsPlaced(rd1, rd2, i, j);
  }

  /** Were the first start of the chain above where both chains begin, the two rules that reach it would
      leave a piece that links to it from below. */
  lemma ChainStartIsMet(rd1: Regdom, rd2: Regdom, k: nat, i: nat, j: nat)
    requires Ordered(rd1.rules) && Ordered(rd2.rules) && FromPair(rd1, rd2, k, i, j)
    ensures var out := RegdomIntersection(rd1, rd2).value.rules;
            out[Low(out, k)].start <= Max(rd1.rules[Low(rd1.rules, i)].start, rd2.rules[Low(rd2.rules, j)].start)
  {
    hide Low, High, ChainFrom, Linked, RegdomIntersection, Intersect, Candidates, Ascending, Ordered;
    var a, b, out := rd1.rules, rd2.rules, RegdomIntersection(rd1, rd2).value.rules;
    var f := out[Low(out, k)].start;
    PairRange(a, b, i, j);
    OutputAscends(rd1, rd2);
    ChainSpan(a, i);
    ChainSpan(b, j);
    ChainSpan(out, k);
    if f > Max(a[Low(a, i)].start, b[Low(b, j)].start) {
      var x := ChainReaches(a, Low(a, i), i, f);
      var y := ChainReaches(b, Low(b, j), j, f);
      var m := PieceAt(rd1, rd2, x, y, f - 1, f);
      NoGapBefore(out, Low(out, k), m, f);
    }
  }

  lemma ChainEndIsMet(rd1: Regdom, rd2: Regdom, k: nat, i: nat, j: nat)
    requires Ordered(rd1.rules) && Ordered(rd2.rules) && FromPair(rd1, rd2, k, i, j)
    ensures var out := RegdomIntersection(rd1, rd2).value.rules;
            out[High(out, k)].end >= Min(rd1.rules[High(rd1.rules, i)].end, rd2.rules[High(rd2.rules, j)].end)
  {
    hide Low, High, ChainFrom, Linked, RegdomIntersection, Intersect, Candidates, Ascending, Ordered;
    var a, b, out := rd1.rules, rd2.rules, RegdomIntersection(rd1, rd2).value.rules;
    var f := out[High(out, k)].end;
    PairRange(a, b, i, j);
    OutputAscends(rd1, rd2);
    ChainSpan(a, i);
    ChainSpan(b, j);
    ChainSpan(out, k);
    if f < Min(a[High(a, i)].end, b[High(b, j)].end) {
      var x := ChainGoesOn(a, i, High(a, i), f);
      var y := ChainGoesOn(b, j, High(b, j), f);
      var m := PieceAt(rd1, rd2, x, y, f, f + 1);
      NoGapAfter(out, High(out, k), m, f);
    }
  }

  /** The chain around a rule of the result is the common part of the chains around the two rules it
      comes from, so automatic bandwidth gives it exactly the width of that part: a channel may span
      touching rules of the result just where it may in both domains. */
  lemma ChainIsMeet(rd1: Regdom, rd2: Regdom, k: nat, i: nat, j: nat)
    requires Ordered(rd1.rules) && Ordered(rd2.rules) && FromPair(rd1, rd2, k, i, j)
    ensures var out, a, b := RegdomIntersection(rd1, rd2).value.rules, rd1.rules, rd2.rules;
            && out[Low(out, k)].start == Max(a[Low(a, i)].start, b[Low(b, j)].start)
            && out[High(out, k)].end == Min(a[High(a, i)].end, b[High(b, j)].end)
            && RangeBandwidth(out, k) == out[High(out, k)].end - out[Low(out, k)].start
  {
    hide Low, High, RegdomIntersection, Intersect, Candidates, Ascending, Ordered, Inside, RangeBandwidth;
    var out := RegdomIntersection(rd1, rd2).value.rules;
    ChainStartIsMet(rd1, rd2, k, i, j);
    ChainEndIsMet(rd1, rd2, k, i, j);
    OutputIsInside(rd1, rd2);
    PairRange(rd1.rules, rd2.rules, i, j);
    OutputAscends(rd1, rd2);
    ChainIsNoNarrower(out, k);
    ChainInside(out, rd1.rules, k, i);
    ChainInside(out, rd2.rules, k, j);
  }

  /** The width that the chains around two rules have in common. */
  function CommonWidth(a: seq<Rule>, i: nat, b: seq<Rule>, j: nat): u32
    requires i < |a| && j < |b|
  {
    Wrap32(Min(a[High(a, i)].end, b[High(b, j)].end) - Max(a[Low(a, i)].start, b[Low(b, j)].start))
  }

  /** The number that is compared with channel widths: the common part of the two chains, under the
      caps of both rules. */
  lemma EffectiveIsMeet(rd1: Regdom, rd2: Regdom, k: nat, i: nat, j: nat)
    requires Ordered(rd1.rules) && Ordered(rd2.rules) && FromPair(rd1, rd2, k, i, j)
    requires AutoBw in rd1.rules[i].flags && AutoBw in rd2.rules[j].flags
    ensures EffectiveBw(RegdomIntersection(rd1, rd2).value.rules, k) ==
            Capped(rd1.rules[i].flags + rd2.rules[j].flags, CommonWidth(rd1.rules, i, rd2.rules, j))
  {
    hide RegdomIntersection, Low, High, Ordered, Capped;
    ChainIsMeet(rd1, rd2, k, i, j);
    BothAutomatic(rd1.rules, rd2.rules, i, j);
    hide Intersect;
  }

  lemma BothAutomatic(a: seq<Rule>, b: seq<Rule>, i: nat, j: nat)
    requires i < |a| && j < |b| && AutoBw in a[i].flags && AutoBw in b[j].flags
    ensures Intersect(a, b, i, j).flags == a[i].flags + b[j].flags
  {
    hide EffectiveBw;
    assert a[i].flags + b[j].flags + {AutoBw} == a[i].flags + b[j].flags;
  }
}
