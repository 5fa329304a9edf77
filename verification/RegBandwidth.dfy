/** What a domain grants once automatic bandwidth is worked out on its own rules, before and after an
    intersection: which bands inside one rule pass, and which bandwidth each rule ends up with, the
    number that is compared with channel widths (net/wireless/reg.c). */
module RegBandwidth {
  import opened Words
  import opened RegRules

  /** Some rule of the domain lets the band through, with the bandwidth it really grants. */
  ghost predicate GrantsSome(rd: Regdom, lo: int, hi: int) {
    exists i: nat :: Grants(rd, i, lo, hi)
  }

  /** Nothing is granted by `out` that `rd` does not grant. */
  ghost predicate NoWider(out: Regdom, rd: Regdom) {
    forall k: nat, lo, hi :: Grants(out, k, lo, hi) ==> GrantsSome(rd, lo, hi)
  }

  /** The band lies inside rule `i`, which has automatic bandwidth, and below the caps of its flags. */
  predicate Fits(rd: Regdom, i: nat, lo: int, hi: int) {
    && i < |rd.rules| && AutoBw in rd.rules[i].flags
    && 0 < lo && rd.rules[i].start <= lo < hi <= rd.rules[i].end
    && Capped(rd.rules[i].flags, hi - lo) == hi - lo
  }

  /** Every band that fits a rule with automatic bandwidth is granted by some rule of the domain. What
      breaks this is a chain that ends, or begins, inside the rule it was worked out for. */
  ghost predicate Sealed(rd: Regdom) {
    forall i: nat, lo, hi :: Fits(rd, i, lo, hi) ==> GrantsSome(rd, lo, hi)
  }

  lemma CapsOfMoreFlags(f: set<Flag>, g: set<Flag>, bw: u32, w: u32)
    requires f - {AutoBw} <= g && w <= Capped(g, bw)
    ensures Capped(f, w) == w
  {
    assert forall x: Flag :: x in f && x != AutoBw ==> x in f - {AutoBw};
  }

  lemma CapsGrow(f: set<Flag>, bw: u32, w: u32)
    requires Capped(f, w) == w && w <= bw
    ensures w <= Capped(f, bw)
  {
  }

  /** A restricted rule passes its grants on to a sealed domain. */
  lemma GrantPassesBack(out: Regdom, k: nat, rd: Regdom, i: nat, lo: int, hi: int)
    requires Grants(out, k, lo, hi) && Sealed(rd)
    requires i < |rd.rules| && Restricts(out.rules[k], rd.rules[i], EffectiveBw(rd.rules, i))
    ensures GrantsSome(rd, lo, hi)
  {
    hide RangeBandwidth, Capped;
    if AutoBw in out.rules[k].flags {
      CapsOfMoreFlags(rd.rules[i].flags, out.rules[k].flags, RangeBandwidth(out.rules, k), hi - lo);
      assert Fits(rd, i, lo, hi);
    } else {
      assert Grants(rd, i, lo, hi);
    }
  }

  /** Soundness in effective bandwidth, for either operand: a sealed domain grants whatever the
      intersection grants. */
  lemma SealedIsEnough(rd1: Regdom, rd2: Regdom)
    requires RegdomIntersection(rd1, rd2).Some?
    ensures Sealed(rd1) ==> NoWider(RegdomIntersection(rd1, rd2).value, rd1)
    ensures Sealed(rd2) ==> NoWider(RegdomIntersection(rd1, rd2).value, rd2)
  {
    var out := RegdomIntersection(rd1, rd2).value;
    hide EffectiveBw, RegdomIntersection, Sealed, LetsThrough, Restricts;
    forall k: nat, lo, hi | Grants(out, k, lo, hi)
      ensures Sealed(rd1) ==> GrantsSome(rd1, lo, hi)
      ensures Sealed(rd2) ==> GrantsSome(rd2, lo, hi)
    {
      assert out.rules[k] in out.rules;
      var i, j := OutputRestricts(rd1, rd2, out.rules[k]);
      if Sealed(rd1) {
        GrantPassesBack(out, k, rd1, i, lo, hi);
      }
      if Sealed(rd2) {
        GrantPassesBack(out, k, rd2, j, lo, hi);
      }
    }
  }

  // ----- Any number of intersections -----

  /** Rule `k` of `cur` has automatic bandwidth on part of an automatic rule of `rd` and carries all of
      its caps. */
  ghost predicate AutoPart(cur: Regdom, k: nat, rd: Regdom)
    requires k < |cur.rules|
  {
    exists i: nat :: i < |rd.rules| && AutoBw in rd.rules[i].flags &&
      rd.rules[i].start <= cur.rules[k].start && cur.rules[k].end <= rd.rules[i].end &&
      rd.rules[i].flags - {AutoBw} <= cur.rules[k].flags
  }

  /** What further intersections keep: nothing is granted beyond `rd`, and automatic bandwidth works
      inside its automatic rules only. */
  ghost predicate StaysIn(cur: Regdom, rd: Regdom) {
    NoWider(cur, rd) && forall k: nat :: k < |cur.rules| && AutoBw in cur.rules[k].flags ==> AutoPart(cur, k, rd)
  }

  lemma StaysInItself(rd: Regdom)
    ensures StaysIn(rd, rd)
  {
    forall k: nat | k < |rd.rules| && AutoBw in rd.rules[k].flags
      ensures AutoPart(rd, k, rd)
    {
      assert rd.rules[k].start <= rd.rules[k].start;
    }
  }

  /** Each rule of `out` restricts one of `cur`, as the rules of an intersection do either operand's. */
  ghost predicate AllRestrict(out: Regdom, cur: Regdom) {
    forall k: nat :: k < |out.rules| ==> RestrictsSome(out.rules[k], cur)
  }

  ghost predicate RestrictsSome(r: Rule, cur: Regdom) {
    exists m: nat :: m < |cur.rules| && Restricts(r, cur.rules[m], EffectiveBw(cur.rules, m))
  }

  lemma IntersectionRestricts(rd1: Regdom, rd2: Regdom)
    requires RegdomIntersection(rd1, rd2).Some?
    ensures AllRestrict(RegdomIntersection(rd1, rd2).value, rd1)
    ensures AllRestrict(RegdomIntersection(rd1, rd2).value, rd2)
  {
    var out := RegdomIntersection(rd1, rd2).value;
    hide RegdomIntersection, EffectiveBw, Restricts;
    forall k: nat | k < |out.rules|
      ensures RestrictsSome(out.rules[k], rd1) && RestrictsSome(out.rules[k], rd2)
    {
      assert out.rules[k] in out.rules;
      var i, j := OutputRestricts(rd1, rd2, out.rules[k]);
    }
  }

  lemma PartOfPart(out: Regdom, k: nat, cur: Regdom, m: nat, rd: Regdom)
    requires k < |out.rules| && m < |cur.rules| && AutoBw in out.rules[k].flags
    requires Restricts(out.rules[k], cur.rules[m], EffectiveBw(cur.rules, m))
    requires AutoPart(cur, m, rd)
    ensures AutoPart(out, k, rd)
  {
    hide EffectiveBw;
    var i: nat :| i < |rd.rules| && AutoBw in rd.rules[i].flags &&
      rd.rules[i].start <= cur.rules[m].start && cur.rules[m].end <= rd.rules[i].end &&
      rd.rules[i].flags - {AutoBw} <= cur.rules[m].flags;
    assert rd.rules[i].start <= out.rules[k].start && out.rules[k].end <= rd.rules[i].end;
  }

  /** A grant of an automatic rule inside an automatic rule of a sealed domain. */
  lemma PartIsGranted(out: Regdom, k: nat, rd: Regdom, lo: int, hi: int)
    requires Grants(out, k, lo, hi) && AutoBw in out.rules[k].flags && 0 < out.rules[k].start
    requires AutoPart(out, k, rd) && Sealed(rd)
    ensures GrantsSome(rd, lo, hi)
  {
    var i: nat :| i < |rd.rules| && AutoBw in rd.rules[i].flags &&
      rd.rules[i].start <= out.rules[k].start && out.rules[k].end <= rd.rules[i].end &&
      rd.rules[i].flags - {AutoBw} <= out.rules[k].flags;
    hide RangeBandwidth, Capped;
    CapsOfMoreFlags(rd.rules[i].flags, out.rules[k].flags, RangeBandwidth(out.rules, k), hi - lo);
    assert Fits(rd, i, lo, hi);
  }

  lemma StepStaysIn(out: Regdom, cur: Regdom, rd: Regdom)
    requires AllRestrict(out, cur) && StaysIn(cur, rd) && Sealed(rd)
    ensures StaysIn(out, rd)
  {
    hide EffectiveBw, Sealed, AutoPart;
    forall k: nat | k < |out.rules| && AutoBw in out.rules[k].flags
      ensures AutoPart(out, k, rd)
    {
      assert RestrictsSome(out.rules[k], cur);
      var m: nat :| m < |cur.rules| && Restricts(out.rules[k], cur.rules[m], EffectiveBw(cur.rules, m));
      PartOfPart(out, k, cur, m, rd);
    }
    forall k: nat, lo, hi | Grants(out, k, lo, hi)
      ensures GrantsSome(rd, lo, hi)
    {
      assert RestrictsSome(out.rules[k], cur);
      var m: nat :| m < |cur.rules| && Restricts(out.rules[k], cur.rules[m], EffectiveBw(cur.rules, m));
      if AutoBw in out.rules[k].flags {
        PartIsGranted(out, k, rd, lo, hi);
      } else {
        RecordedPassesBack(out, k, cur, m, lo, hi);
      }
    }
  }

  lemma RecordedPassesBack(out: Regdom, k: nat, cur: Regdom, m: nat, lo: int, hi: int)
    requires Grants(out, k, lo, hi) && AutoBw !in out.rules[k].flags
    requires m < |cur.rules| && Restricts(out.rules[k], cur.rules[m], EffectiveBw(cur.rules, m))
    ensures Grants(cur, m, lo, hi)
  {
    hide RangeBandwidth, Capped;
  }

  /** One intersection of the domain in force with another one, as first or second operand; where
      nothing is common the domain in force stays. */
  datatype Cut = Cut(other: Regdom, otherFirst: bool)

  function Common(cur: Regdom, cut: Cut): Option<Regdom> {
    if cut.otherFirst then RegdomIntersection(cut.other, cur) else RegdomIntersection(cur, cut.other)
  }

  function After(cur: Regdom, cut: Cut): Regdom {
    if Common(cur, cut).Some? then Common(cur, cut).value else cur
  }

  function AfterAll(cur: Regdom, cuts: seq<Cut>): Regdom {
    if cuts == [] then cur else After(AfterAll(cur, cuts[..|cuts| - 1]), cuts[|cuts| - 1])
  }

  lemma CutRestricts(cur: Regdom, cut: Cut)
    requires Common(cur, cut).Some?
    ensures AllRestrict(After(cur, cut), cur) && AllRestrict(After(cur, cut), cut.other)
  {
    hide RegdomIntersection, AllRestrict;
    if cut.otherFirst {
      IntersectionRestricts(cut.other, cur);
    } else {
      IntersectionRestricts(cur, cut.other);
    }
  }

  lemma {:induction false} CutsStayIn(cur: Regdom, cuts: seq<Cut>, rd: Regdom)
    requires Sealed(rd) && StaysIn(cur, rd)
    ensures StaysIn(AfterAll(cur, cuts), rd)
  {
    hide Sealed, StaysIn, AllRestrict, Common;
    if cuts == [] {
    } else {
      var n := |cuts| - 1;
      CutsStayIn(cur, cuts[..n], rd);
      if Common(AfterAll(cur, cuts[..n]), cuts[n]).Some? {
        CutRestricts(AfterAll(cur, cuts[..n]), cuts[n]);
        StepStaysIn(AfterAll(cur, cuts), AfterAll(cur, cuts[..n]), rd);
      }
    }
  }

  lemma {:induction false} CutsInTwo(cur: Regdom, cuts: seq<Cut>, n: nat)
    requires n <= |cuts|
    ensures AfterAll(cur, cuts) == AfterAll(AfterAll(cur, cuts[..n]), cuts[n..])
    decreases |cuts|
  {
    hide After;
    if n == |cuts| {
      assert cuts[..n] == cuts && cuts[n..] == [];
    } else {
      var last := |cuts| - 1;
      CutsInTwo(cur, cuts[..last], n);
      assert cuts[..last][..n] == cuts[..n] && cuts[..last][n..] == cuts[n..last];
      assert cuts[n..][..last - n] == cuts[n..last];
    }
  }

  /** However many intersections follow, with any domains and in any order of the operands, nothing is
      granted beyond the domain that was in force, if that was sealed, nor beyond any sealed domain it
      was cut with. */
  lemma SealedForGood(cur: Regdom, cuts: seq<Cut>, n: nat)
    requires n < |cuts|
    ensures Sealed(cur) ==> NoWider(AfterAll(cur, cuts), cur)
    ensures Sealed(cuts[n].other) && Common(AfterAll(cur, cuts[..n]), cuts[n]).Some? ==>
              NoWider(AfterAll(cur, cuts), cuts[n].other)
  {
    hide Sealed, NoWider, AllRestrict, After, Common, AutoPart;
    if Sealed(cur) {
      StaysInItself(cur);
      CutsStayIn(cur, cuts, cur);
    }
    var before, rd := AfterAll(cur, cuts[..n]), cuts[n].other;
    if Sealed(rd) && Common(before, cuts[n]).Some? {
      CutRestricts(before, cuts[n]);
      StaysInItself(rd);
      StepStaysIn(After(before, cuts[n]), rd, rd);
      CutsStayIn(After(before, cuts[n]), cuts[n + 1..], rd);
      CutsInTwo(cur, cuts, n + 1);
      assert cuts[..n + 1][..n] == cuts[..n];
    }
  }

  // ----- Ordered domains -----

  /** Valid rules that begin and end in order, the way the database lists them. */
  ghost predicate Ascending(rules: seq<Rule>) {
    && (forall a: nat :: a < |rules| ==> IsValidRule(rules[a]))
    && (forall a: nat, b: nat :: a < b < |rules| ==> rules[a].start <= rules[b].start && rules[a].end <= rules[b].end)
  }

  lemma ChainIsNoNarrower(rules: seq<Rule>, i: nat)
    requires Ascending(rules) && i < |rules|
    ensures RangeBandwidth(rules, i) == rules[High(rules, i)].end - rules[Low(rules, i)].start
    ensures rules[i].end - rules[i].start <= RangeBandwidth(rules, i)
  {
    hide Low, High;
    AscendingStartsNeverWrap(rules, i);
  }

  lemma AscendingIsSealed(rd: Regdom)
    requires Ascending(rd.rules)
    ensures Sealed(rd)
  {
    forall i: nat, lo, hi | Fits(rd, i, lo, hi)
      ensures GrantsSome(rd, lo, hi)
    {
      ChainIsNoNarrower(rd.rules, i);
      hide RangeBandwidth, Capped;
      CapsGrow(rd.rules[i].flags, RangeBandwidth(rd.rules, i), hi - lo);
      assert Grants(rd, i, lo, hi);
    }
  }

  /** Valid rules, one after the other, which may touch. */
  ghost predicate Ordered(rules: seq<Rule>) {
    && (forall a: nat :: a < |rules| ==> IsValidRule(rules[a]))
    && (forall a: nat, b: nat :: a < b < |rules| ==> rules[a].end <= rules[b].start)
  }

  lemma OrderedPair(rules: seq<Rule>, a: nat, b: nat)
    requires Ordered(rules) && a < b < |rules|
    ensures rules[a].start < rules[a].end <= rules[b].start < rules[b].end
  {
    assert IsValidRule(rules[a]) && IsValidRule(rules[b]);
  }

  lemma OrderedAscends(rules: seq<Rule>)
    requires Ordered(rules)
    ensures Ascending(rules)
  {
    forall a: nat, b: nat | a < b < |rules|
      ensures rules[a].start <= rules[b].start && rules[a].end <= rules[b].end
    {
      OrderedPair(rules, a, b);
    }
  }

  lemma GridAt(rd1: seq<Rule>, rd2: seq<Rule>, i: nat, j: nat)
    requires i < |rd1| && j < |rd2|
    ensures Grid(rd1, rd2)[i][j] == Intersect(rd1, rd2, i, j)
  {
    GridRowsAt(rd1, rd2, |rd1|, i, j);
  }

  // ----- Where it goes wrong -----

  /** One automatic rule inside another, begun later: the chain of both ends before the first does. */
  const NESTED := Regdom(Alpha2('A', 'A'), Unset, [AutoRule(10, 100), AutoRule(15, 60)])
  const PLAIN := Regdom(Alpha2('B', 'B'), Unset, [AutoRule(10, 100)])

  function AutoRule(start: u32, end: u32): Rule {
    Rule(start, end, 40, 2000, 0, {AutoBw}, 0, NoWmm)
  }

  /** Valid domains with ascending starts are not enough: the merge drops the inner rule, which had
      ended the chain early, and the outer one is left with its full width. */
  lemma NestedWidens()
    ensures IsValidRd(NESTED) && IsValidRd(PLAIN) && NESTED.rules[0].start <= NESTED.rules[1].start
    ensures RegdomIntersection(PLAIN, NESTED).Some?
    ensures var out := RegdomIntersection(PLAIN, NESTED).value;
            && out.alpha2 == INTERSECTED && |out.rules| == 1 && EffectiveBw(out.rules, 0) == 90
            && EffectiveBw(NESTED.rules, 0) == EffectiveBw(NESTED.rules, 1) == 50
            && Grants(out, 0, 10, 100) && !GrantsSome(NESTED, 10, 100) && !Sealed(NESTED)
  {
    NestedBandwidths();
    var c0, c1 := NestedPieces();
    NestedCandidates();
    MergeOfTwo(c0, c1);
    assert RangeBandwidth([c0], 0) == 90;
    hide RangeBandwidth, Intersect, Candidates, Merge;
    assert Fits(NESTED, 0, 10, 100);
  }

  lemma NestedBandwidths()
    ensures EffectiveBw(PLAIN.rules, 0) == 90
    ensures EffectiveBw(NESTED.rules, 0) == EffectiveBw(NESTED.rules, 1) == 50
  {
    var a, b := PLAIN.rules, NESTED.rules;
    assert RangeBandwidth(a, 0) == 90;
    assert Linked(b, 0) && High(b, 0) == 1 && Low(b, 1) == 0 && Low(b, 0) == 0 && High(b, 1) == 1;
  }

  lemma NestedPieces() returns (c0: Rule, c1: Rule)
    ensures c0 == Intersect(PLAIN.rules, NESTED.rules, 0, 0) && c1 == Intersect(PLAIN.rules, NESTED.rules, 0, 1)
    ensures IsValidRule(c0) && IsValidRule(c1) && Contains(c0, c1)
    ensures c0.start == 10 && c0.end == 100 && c0.flags == {AutoBw}
  {
    NestedBandwidths();
    hide EffectiveBw;
    c0, c1 := Intersect(PLAIN.rules, NESTED.rules, 0, 0), Intersect(PLAIN.rules, NESTED.rules, 0, 1);
  }

  lemma NestedCandidates()
    ensures Candidates(PLAIN.rules, NESTED.rules) ==
            [Intersect(PLAIN.rules, NESTED.rules, 0, 0), Intersect(PLAIN.rules, NESTED.rules, 0, 1)]
  {
    var a, b := PLAIN.rules, NESTED.rules;
    var c0, c1 := NestedPieces();
    GridAt(a, b, 0, 0);
    GridAt(a, b, 0, 1);
    hide Grid, Intersect, IsValidRule;
    var g := Grid(a, b);
    assert Row(g[0], 1) == Row(g[0], 0) + [c0];
    assert Row(g[0], 2) == [c0, c1];
    assert Rows(g, 1) == Rows(g, 0) + Row(g[0], 2) == [c0, c1];
  }

  lemma MergeOfTwo(c0: Rule, c1: Rule)
    requires Contains(c0, c1)
    ensures Merge([c0, c1]) == [c0]
  {
    assert [c0, c1][..1] == [c0] && [c0][..0] == [];
    assert Merge([c0]) == [c0];
    RelatedIsFirst([c0], c1, 0);
  }
}
