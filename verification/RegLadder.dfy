/** Which domains can be widened inside one rule by an intersection at all: exactly those that are not
    sealed. The other domain that does it cuts a band at the ends of the domain's rules and lists every
    interval between two cuts, shorter ones first (net/wireless/reg.c). */
module RegLadder {
  import opened Words
  import opened RegRules
  import opened RegBandwidth

  // ----- All intervals between numbered cuts, by end and then from the top down -----

  function Rung(x: nat): (r: (nat, nat))
    ensures r.0 < r.1
  {
    if x == 0 then (0, 1)
    else
      var (s, e) := Rung(x - 1);
      if s > 0 then (s - 1, e) else (e, e + 1)
  }

  /** The number of intervals between `k + 1` cuts. */
  function Intervals(k: nat): nat {
    if k == 0 then 0 else Intervals(k - 1) + k
  }

  lemma {:induction false} IntervalsGrow(k: nat, l: nat)
    requires k <= l
    ensures Intervals(k) <= Intervals(l)
  {
    if k == l {
    } else {
      IntervalsGrow(k, l - 1);
    }
  }

  lemma {:induction false} RungOf(s: nat, e: nat) returns (x: nat)
    requires s < e
    ensures Rung(x) == (s, e) && x + s + 1 == Intervals(e - 1) + e
    decreases e, e - s
  {
    if s + 1 < e {
      var y := RungOf(s + 1, e);
      x := y + 1;
    } else if s == 0 {
      x := 0;
    } else {
      var y := RungOf(0, s);
      x := y + 1;
    }
  }

  lemma {:induction false} EndsAscend(x: nat, y: nat)
    requires x <= y
    ensures Rung(x).1 <= Rung(y).1
  {
    if x == y {
    } else {
      EndsAscend(x, y - 1);
    }
  }

  /** Whatever ends earlier, or ends there and begins later, has had its turn. */
  lemma {:induction false} EarlierRung(x: nat, s: nat, e: nat) returns (y: nat)
    requires s < e
    requires e < Rung(x).1 || (e == Rung(x).1 && s >= Rung(x).0)
    ensures y <= x && Rung(y) == (s, e)
  {
    if Rung(x) == (s, e) {
      y := x;
    } else {
      y := EarlierRung(x - 1, s, e);
    }
  }

  // ----- Cuts -----

  ghost predicate Rising(c: seq<u32>) {
    forall a: nat, b: nat :: a < b < |c| ==> c[a] < c[b]
  }

  function WithCut(c: seq<u32>, f: u32): (d: seq<u32>)
    ensures |d| <= |c| + 1
    ensures forall x :: x in d <==> x == f || x in c
  {
    if c == [] then [f]
    else if f < c[0] then [f] + c
    else if f == c[0] then c
    else [c[0]] + WithCut(c[1..], f)
  }

  lemma {:induction false} WithCutRises(c: seq<u32>, f: u32)
    requires Rising(c)
    ensures Rising(WithCut(c, f))
  {
    if c != [] && f > c[0] {
      WithCutRises(c[1..], f);
      var rest := WithCut(c[1..], f);
      forall k: nat | k < |rest|
        ensures c[0] < rest[k]
      {
        assert rest[k] in rest;
      }
    }
  }

  /** A frequency cuts a band it lies inside. */
  function CutBy(c: seq<u32>, lo: u32, hi: u32, f: u32): (d: seq<u32>)
    ensures |d| <= |c| + (if lo < f < hi then 1 else 0)
  {
    if lo < f < hi then WithCut(c, f) else c
  }

  /** The two ends of a band and the ends of the first `n` rules inside it. */
  function Cuts(rules: seq<Rule>, lo: u32, hi: u32, n: nat): seq<u32>
    requires n <= |rules|
  {
    if n == 0 then [lo, hi]
    else CutBy(CutBy(Cuts(rules, lo, hi, n - 1), lo, hi, rules[n - 1].start), lo, hi, rules[n - 1].end)
  }

  /** A rule that spans the band cuts nothing. */
  lemma {:induction false} CutsAreFew(rules: seq<Rule>, lo: u32, hi: u32, n: nat, i: nat)
    requires n <= |rules| && i < |rules| && rules[i].start <= lo && hi <= rules[i].end
    ensures |Cuts(rules, lo, hi, n)| <= 2 + 2 * (if i < n then n - 1 else n)
  {
    hide CutBy;
    if n == 0 {
    } else {
      CutsAreFew(rules, lo, hi, n - 1, i);
    }
  }

  /** Between the ends of a band, in order. */
  ghost predicate InBand(c: seq<u32>, lo: u32, hi: u32) {
    Rising(c) && lo in c && hi in c && forall x :: x in c ==> lo <= x <= hi
  }

  lemma CutByIs(c: seq<u32>, lo: u32, hi: u32, f: u32)
    requires InBand(c, lo, hi)
    ensures InBand(CutBy(c, lo, hi, f), lo, hi)
    ensures forall x :: x in CutBy(c, lo, hi, f) <==> (x == f && lo < f < hi) || x in c
  {
    hide WithCut, Rising;
    WithCutRises(c, f);
  }

  /** Each end inside the band is a cut. */
  ghost predicate CutAt(c: seq<u32>, lo: u32, hi: u32, r: Rule) {
    (lo < r.start < hi ==> r.start in c) && (lo < r.end < hi ==> r.end in c)
  }

  /** The ends of one more rule, with all the cuts there were. */
  lemma CutByBoth(c: seq<u32>, lo: u32, hi: u32, r: Rule)
    requires InBand(c, lo, hi)
    ensures var d := CutBy(CutBy(c, lo, hi, r.start), lo, hi, r.end);
            InBand(d, lo, hi) && CutAt(d, lo, hi, r) && forall q: Rule :: CutAt(c, lo, hi, q) ==> CutAt(d, lo, hi, q)
  {
    CutByIs(c, lo, hi, r.start);
    CutByIs(CutBy(c, lo, hi, r.start), lo, hi, r.end);
    hide CutBy, InBand;
  }

  lemma TwoEnds(lo: u32, hi: u32)
    requires lo < hi
    ensures InBand([lo, hi], lo, hi)
  {
    var c: seq<u32> := [lo, hi];
    assert c[0] == lo && c[1] == hi;
  }

  lemma {:induction false} CutsHold(rules: seq<Rule>, lo: u32, hi: u32, n: nat)
    requires lo < hi && n <= |rules|
    ensures InBand(Cuts(rules, lo, hi, n), lo, hi)
    ensures forall k: nat :: k < n ==> CutAt(Cuts(rules, lo, hi, n), lo, hi, rules[k])
  {
    hide CutBy, InBand, CutAt;
    if n == 0 {
      TwoEnds(lo, hi);
    } else {
      CutsHold(rules, lo, hi, n - 1);
      CutByBoth(Cuts(rules, lo, hi, n - 1), lo, hi, rules[n - 1]);
    }
  }

  /** From `lo` to `hi`, with a cut at every end of a rule in between. */
  ghost predicate CutsUp(cuts: seq<u32>, lo: u32, hi: u32, rules: seq<Rule>) {
    && 2 <= |cuts| && Rising(cuts) && cuts[0] == lo && cuts[|cuts| - 1] == hi
    && forall k: nat :: k < |rules| ==> CutAt(cuts, lo, hi, rules[k])
  }

  lemma CutsCutUp(rules: seq<Rule>, lo: u32, hi: u32)
    requires lo < hi
    ensures CutsUp(Cuts(rules, lo, hi, |rules|), lo, hi, rules)
  {
    hide Cuts, CutAt;
    CutsHold(rules, lo, hi, |rules|);
    var c := Cuts(rules, lo, hi, |rules|);
    var a: nat :| a < |c| && c[a] == lo;
    var b: nat :| b < |c| && c[b] == hi;
    assert c[0] in c && c[|c| - 1] in c;
    assert a == 0 && b == |c| - 1;
  }

  lemma CutsOrder(cuts: seq<u32>, a: nat, b: nat)
    requires Rising(cuts) && a < |cuts| && b < |cuts|
    ensures a < b <==> cuts[a] < cuts[b]
    ensures a <= b <==> cuts[a] <= cuts[b]
  {
  }

  // ----- The ladder -----

  /** The numbers of the last rung and of the cuts agree. */
  ghost predicate LastRung(cuts: seq<u32>, n: nat) {
    2 <= |cuts| && Rising(cuts) && Rung(n) == (0, |cuts| - 1)
  }

  lemma RungInside(cuts: seq<u32>, n: nat, x: nat)
    requires LastRung(cuts, n) && x <= n
    ensures Rung(x).0 < Rung(x).1 < |cuts| && cuts[Rung(x).0] < cuts[Rung(x).1]
  {
    hide Rung;
    EndsAscend(x, n);
  }

  /** The intervals as rules. */
  function Ladder(cuts: seq<u32>, n: nat): (rules: seq<Rule>)
    requires LastRung(cuts, n)
    ensures |rules| == n + 1
    ensures forall x: nat :: x <= n ==>
              Rung(x).1 < |cuts| && rules[x] == LadderRule(cuts[Rung(x).0], cuts[Rung(x).1])
  {
    assert forall x: nat :: x <= n ==> Rung(x).1 < |cuts| by {
      forall x: nat | x <= n
        ensures Rung(x).1 < |cuts|
      {
        RungInside(cuts, n, x);
      }
    }
    seq(n + 1, x requires 0 <= x <= n => LadderRule(cuts[Rung(x).0], cuts[Rung(x).1]))
  }

  function LadderRule(s: u32, e: u32): Rule {
    Rule(s, e, 0, 0, 0, {AutoBw}, 0, NoWmm)
  }

  lemma RungsTouch(x: nat)
    ensures Rung(x + 1).0 <= Rung(x).1
  {
  }

  /** The ladder is one chain, so each of its rules has the same bandwidth. */
  lemma LadderIsChain(cuts: seq<u32>, n: nat, x: nat)
    requires LastRung(cuts, n) && x <= n
    ensures EffectiveBw(Ladder(cuts, n), x) == RangeBandwidth(Ladder(cuts, n), 0)
  {
    hide Rung, RangeBandwidth;
    var rules := Ladder(cuts, n);
    forall k: nat | 0 <= k < n
      ensures Linked(rules, k)
    {
      RungsTouch(k);
      CutsOrder(cuts, Rung(k + 1).0, Rung(k).1);
    }
    assert ChainFrom(rules, 0, x);
    ChainSharesBandwidth(rules, 0, x);
  }

  // ----- What the merge makes of a ladder and another domain -----

  /** The intersection of rung `(s, e)` with rule `y`; `bw` is the bandwidth of the ladder. */
  function Piece(s: u32, e: u32, bw: u32, d: seq<Rule>, y: nat): Rule
    requires y < |d|
  {
    IntersectRules(LadderRule(s, e), bw, d[y], EffectiveBw(d, y))
  }

  lemma PieceIs(s: u32, e: u32, bw: u32, d: seq<Rule>, y: nat)
    requires y < |d|
    ensures var p := Piece(s, e, bw, d, y);
            && p.start == Max(s, d[y].start) && p.end == Min(e, d[y].end) && p.flags == d[y].flags
            && p.maxEirp == 0 && p.maxGain == 0
            && (IsValidRule(p) <==> 0 < p.start < p.end)
  {
    hide EffectiveBw;
    PairContributes(LadderRule(s, e), bw, d[y], EffectiveBw(d, y));
    if AutoBw in d[y].flags {
      assert {AutoBw} + d[y].flags + {AutoBw} == d[y].flags;
    } else {
      assert {AutoBw} + d[y].flags - {AutoBw} == d[y].flags;
    }
  }

  /** Cutting the rung down to the piece it leaves gives the same piece. */
  lemma PieceOfPiece(s: u32, e: u32, bw: u32, d: seq<Rule>, y: nat)
    requires y < |d| && IsValidRule(Piece(s, e, bw, d, y))
    ensures var p := Piece(s, e, bw, d, y);
            Piece(p.start, p.end, bw, d, y) == p
  {
    hide EffectiveBw;
  }

  lemma GridIsPiece(cuts: seq<u32>, n: nat, d: seq<Rule>, x: nat, y: nat)
    requires LastRung(cuts, n) && x <= n && y < |d|
    ensures Rung(x).1 < |cuts|
    ensures var rules := Ladder(cuts, n);
            Grid(rules, d)[x][y] == Piece(cuts[Rung(x).0], cuts[Rung(x).1], RangeBandwidth(rules, 0), d, y)
  {
    var rules := Ladder(cuts, n);
    RungInside(cuts, n, x);
    LadderIsChain(cuts, n, x);
    GridAt(rules, d, x, y);
    hide EffectiveBw, RangeBandwidth, Grid, IntersectRules, Rung;
  }

  /** Linked throughout, from `lo` to `e`. */
  ghost predicate Stair(m: seq<Rule>, lo: int, e: int) {
    && m != [] && m[0].start == lo && m[|m| - 1].end == e
    && (forall q: nat :: q < |m| ==> lo <= m[q].start < m[q].end <= e)
    && (forall q: nat :: q + 1 < |m| ==> Linked(m, q))
  }

  /** What is covered, or reaches the end, keeps the stair when it is added. */
  lemma AddedToStair(m: seq<Rule>, r: Rule, lo: int, e: int)
    requires Stair(m, lo, e) && lo <= r.start < r.end <= e && (Covers(m, r) || r.end == e)
    ensures Stair(Added(m, r), lo, e)
  {
    var k, t := FirstRelated(m, r), Added(m, r);
    if k == |m| {
      forall q: nat | q + 1 < |t|
        ensures Linked(t, q)
      {
        assert q + 1 < |m| ==> Linked(m, q);
      }
    } else if !Contains(m[k], r) {
      forall q: nat | q + 1 < |t|
        ensures Linked(t, q)
      {
        assert Linked(m, q);
      }
    }
  }

  /** The first piece of a new step lies beyond everything. */
  lemma StairGrows(m: seq<Rule>, r: Rule, lo: int, s: int, e: int)
    requires (m == [] && s == lo) || Stair(m, lo, s)
    requires r.start == s && r.end == e && s < e
    ensures Stair(Added(m, r), lo, e)
  {
    var k, t := FirstRelated(m, r), Added(m, r);
    assert k == |m|;
    forall q: nat | q + 1 < |t|
      ensures Linked(t, q)
    {
      assert q + 1 < |m| ==> Linked(m, q);
    }
  }

  /** Where the merge stands before a rung `(s, e)`: everything up to the end of the rung before, which
      is `s` for a rung between neighbouring cuts. */
  ghost predicate Before(m: seq<Rule>, lo: int, s: int, e: int, unit: bool) {
    if unit then (m == [] && s == lo) || Stair(m, lo, s) else Stair(m, lo, e)
  }

  /** Some piece of the rung's row was valid. */
  ghost predicate Hit(row: seq<Rule>, y: nat)
    requires y <= |row|
  {
    exists j: nat :: j < y && IsValidRule(row[j])
  }

  /** Where it stands inside the row: a unit rung adds its step with the first valid piece. */
  ghost predicate Amid(m: seq<Rule>, lo: int, s: int, e: int, unit: bool, row: seq<Rule>, y: nat)
    requires y <= |row|
  {
    if Hit(row, y) then Stair(m, lo, e) else Before(m, lo, s, e, unit)
  }

  /** A valid piece of a unit rung is the whole rung; any other reaches the end of its rung, or the
      merge has covered it. */
  ghost predicate PieceOk(g: seq<seq<Rule>>, x: nat, y: nat, lo: int, s: int, e: int, unit: bool)
    requires x < |g| && y < |g[x]|
  {
    var r := g[x][y];
    IsValidRule(r) ==>
      && lo <= s <= r.start < r.end <= e && (unit ==> r.start == s && r.end == e)
      && (r.end == e || Covers(Merge(Met(g, x, y)), r))
  }

  lemma RowStep(g: seq<seq<Rule>>, x: nat, y: nat, lo: int, s: int, e: int, unit: bool)
    requires x < |g| && y < |g[x]| && s < e && PieceOk(g, x, y, lo, s, e, unit)
    requires Amid(Merge(Met(g, x, y)), lo, s, e, unit, g[x], y)
    ensures Amid(Merge(Met(g, x, y + 1)), lo, s, e, unit, g[x], y + 1)
  {
    hide Stair, Merge, Met, IsValidRule, Linked;
    var m, r := Merge(Met(g, x, y)), g[x][y];
    MetStep(g, x, y);
    if IsValidRule(r) {
      MergeAppend(Met(g, x, y), r);
      if !unit || Hit(g[x], y) {
        AddedToStair(m, r, lo, e);
      } else {
        StairGrows(m, r, lo, s, e);
      }
    } else {
      assert Met(g, x, y) + [] == Met(g, x, y);
    }
  }

  lemma {:induction false} RowKeepsStair(g: seq<seq<Rule>>, x: nat, y: nat, lo: int, s: int, e: int, unit: bool)
    requires x < |g| && y <= |g[x]| && s < e
    requires forall z: nat :: z < y ==> PieceOk(g, x, z, lo, s, e, unit)
    requires Before(Merge(Rows(g, x)), lo, s, e, unit)
    ensures Amid(Merge(Met(g, x, y)), lo, s, e, unit, g[x], y)
  {
    hide Merge, Before, Rows, PieceOk;
    if y == 0 {
      assert Met(g, x, 0) == Rows(g, x);
    } else {
      hide Amid, Met;
      RowKeepsStair(g, x, y - 1, lo, s, e, unit);
      RowStep(g, x, y - 1, lo, s, e, unit);
    }
  }

  /** Between neighbouring cuts. */
  predicate IsUnit(x: nat) {
    Rung(x).0 + 1 == Rung(x).1
  }

  /** A valid piece of a rung runs from one cut to another. */
  lemma PieceIsCut(cuts: seq<u32>, lo: u32, hi: u32, d: seq<Rule>, s: nat, e: nat, bw: u32, y: nat)
    returns (s': nat, e': nat)
    requires CutsUp(cuts, lo, hi, d) && s < e < |cuts| && y < |d|
    requires IsValidRule(Piece(cuts[s], cuts[e], bw, d, y))
    ensures s <= s' < e' <= e
    ensures var p := Piece(cuts[s], cuts[e], bw, d, y);
            p.start == cuts[s'] && p.end == cuts[e'] && Piece(p.start, p.end, bw, d, y) == p
  {
    PieceIs(cuts[s], cuts[e], bw, d, y);
    PieceOfPiece(cuts[s], cuts[e], bw, d, y);
    var p := Piece(cuts[s], cuts[e], bw, d, y);
    hide Piece, IsValidRule;
    assert CutAt(cuts, lo, hi, d[y]);
    CutsOrder(cuts, 0, s);
    CutsOrder(cuts, e, |cuts| - 1);
    s' :| s' < |cuts| && cuts[s'] == p.start;
    e' :| e' < |cuts| && cuts[e'] == p.end;
    CutsOrder(cuts, s, s');
    CutsOrder(cuts, s', e');
    CutsOrder(cuts, e', e);
  }

  /** A piece that stops short of its rung has been a whole rung's piece before. */
  lemma PieceWasThere(cuts: seq<u32>, lo: u32, hi: u32, n: nat, d: seq<Rule>, x: nat, y: nat) returns (x': nat)
    requires CutsUp(cuts, lo, hi, d) && LastRung(cuts, n) && x <= n && y < |d|
    requires IsValidRule(Grid(Ladder(cuts, n), d)[x][y])
    ensures var g := Grid(Ladder(cuts, n), d);
            && x' <= x && g[x'][y] == g[x][y] && Rung(x).0 <= Rung(x').0 && Rung(x').1 <= Rung(x).1 < |cuts|
            && g[x][y].start == cuts[Rung(x').0] && g[x][y].end == cuts[Rung(x').1]
  {
    hide Ladder, Grid, RangeBandwidth, IsValidRule, Piece, Rung, CutsUp, Rising;
    GridIsPiece(cuts, n, d, x, y);
    var (s, e) := Rung(x);
    var s', e' := PieceIsCut(cuts, lo, hi, d, s, e, RangeBandwidth(Ladder(cuts, n), 0), y);
    x' := EarlierRung(x, s', e');
    GridIsPiece(cuts, n, d, x', y);
  }

  lemma CoveredByNow(g: seq<seq<Rule>>, x': nat, x: nat, y: nat, z: nat)
    requires x' < x < |g| && y < |g[x']| && z <= |g[x]| && IsValidRule(g[x'][y])
    ensures Covers(Merge(Met(g, x, z)), g[x'][y])
  {
    hide IsValidRule, Row, Merge, Contains, Covers;
    InRows(g, x, x', y);
    var k: nat :| k < |Rows(g, x)| && Rows(g, x)[k] == g[x'][y];
    MergeCovers(Met(g, x, z), k);
  }

  lemma LadderPieceOk(cuts: seq<u32>, lo: u32, hi: u32, n: nat, d: seq<Rule>, x: nat, y: nat)
    requires CutsUp(cuts, lo, hi, d) && LastRung(cuts, n) && x <= n && y < |d|
    ensures Rung(x).1 < |cuts|
    ensures PieceOk(Grid(Ladder(cuts, n), d), x, y, lo, cuts[Rung(x).0], cuts[Rung(x).1], IsUnit(x))
  {
    hide Ladder, Grid, Rung, IsValidRule, Merge, Met, Covers;
    RungInside(cuts, n, x);
    var g := Grid(Ladder(cuts, n), d);
    CutsOrder(cuts, 0, Rung(x).0);
    if IsValidRule(g[x][y]) {
      var x' := PieceWasThere(cuts, lo, hi, n, d, x, y);
      CutsOrder(cuts, Rung(x).0, Rung(x').0);
      CutsOrder(cuts, Rung(x').0, Rung(x').1);
      CutsOrder(cuts, Rung(x').1, Rung(x).1);
      if x' < x {
        CoveredByNow(g, x', x, y, y);
      }
    }
  }

  lemma RungBefore(m: seq<Rule>, cuts: seq<u32>, n: nat, x: nat)
    requires LastRung(cuts, n) && 0 < x <= n
    requires Rung(x - 1).1 < |cuts| && Stair(m, cuts[0], cuts[Rung(x - 1).1])
    ensures Rung(x).1 < |cuts|
    ensures Before(m, cuts[0], cuts[Rung(x).0], cuts[Rung(x).1], IsUnit(x))
  {
    hide Stair;
    RungInside(cuts, n, x);
  }

  lemma FirstRungBefore(cuts: seq<u32>)
    requires 2 <= |cuts|
    ensures Rung(0).1 < |cuts| && Before([], cuts[0], cuts[Rung(0).0], cuts[Rung(0).1], IsUnit(0))
  {
  }

  /** Against a domain with one rule that spans the band, the ladder leaves a stair after each rung. */
  lemma {:induction false} LadderKeepsStair(cuts: seq<u32>, lo: u32, hi: u32, n: nat, d: seq<Rule>, i: nat, x: nat)
    requires 0 < lo && CutsUp(cuts, lo, hi, d) && LastRung(cuts, n) && x <= n
    requires i < |d| && d[i].start <= lo && hi <= d[i].end
    ensures Rung(x).1 < |cuts|
    ensures Stair(Merge(Rows(Grid(Ladder(cuts, n), d), x + 1)), lo, cuts[Rung(x).1])
  {
    hide Grid, Ladder, Stair, Merge, IsValidRule, Rung, Before, Row, PieceOk, LastRung, IsUnit;
    var g := Grid(Ladder(cuts, n), d);
    RungInside(cuts, n, x);
    if x == 0 {
      FirstRungBefore(cuts);
      NothingMerged();
      assert Rows(g, 0) == [];
    } else {
      LadderKeepsStair(cuts, lo, hi, n, d, i, x - 1);
      RungBefore(Merge(Rows(g, x)), cuts, n, x);
    }
    SpanningPieceIsValid(cuts, lo, hi, n, d, i, x);
    forall z: nat | z < |d|
      ensures PieceOk(g, x, z, lo, cuts[Rung(x).0], cuts[Rung(x).1], IsUnit(x))
    {
      LadderPieceOk(cuts, lo, hi, n, d, x, z);
    }
    RowKeepsStair(g, x, |d|, lo, cuts[Rung(x).0], cuts[Rung(x).1], IsUnit(x));
    assert Hit(g[x], |d|);
    assert Met(g, x, |d|) == Rows(g, x + 1);
  }

  lemma NothingMerged()
    ensures Merge([]) == []
  {
  }

  lemma SpanningPieceIsValid(cuts: seq<u32>, lo: u32, hi: u32, n: nat, d: seq<Rule>, i: nat, x: nat)
    requires 0 < lo && CutsUp(cuts, lo, hi, d) && LastRung(cuts, n) && x <= n
    requires i < |d| && d[i].start <= lo && hi <= d[i].end
    ensures Rung(x).1 < |cuts|
    ensures var r := Grid(Ladder(cuts, n), d)[x][i];
            IsValidRule(r) && r.start == cuts[Rung(x).0] && r.end == cuts[Rung(x).1] && r.flags == d[i].flags
  {
    hide Piece, Ladder, Grid, RangeBandwidth, IsValidRule, Rung;
    GridIsPiece(cuts, n, d, x, i);
    RungInside(cuts, n, x);
    CutsOrder(cuts, 0, Rung(x).0);
    CutsOrder(cuts, Rung(x).1, |cuts| - 1);
    PieceIs(cuts[Rung(x).0], cuts[Rung(x).1], RangeBandwidth(Ladder(cuts, n), 0), d, i);
  }

  /** Each rule of a stair gets the width of the whole stair. */
  lemma StairBandwidth(m: seq<Rule>, lo: int, hi: int, k: nat)
    requires Stair(m, lo, hi) && k < |m| && 0 <= lo && hi < TWO32
    ensures RangeBandwidth(m, k) == hi - lo
  {
    assert ChainFrom(m, 0, k) && ChainFrom(m, k, |m| - 1);
    ChainIsWalked(m, k, 0);
    ChainIsWalked(m, k, |m| - 1);
    hide Low, High, ChainFrom;
  }

  const LADDER_ALPHA2 := Alpha2('A', 'A')

  lemma LadderOf(rd: Regdom, i: nat, lo: u32, hi: u32) returns (other: Regdom, n: nat)
    requires i < |rd.rules| && 0 < lo && rd.rules[i].start <= lo < hi <= rd.rules[i].end
    ensures var cuts := Cuts(rd.rules, lo, hi, |rd.rules|);
            LastRung(cuts, n) && other == Regdom(LADDER_ALPHA2, Unset, Ladder(cuts, n))
    ensures 0 < |other.rules| <= Intervals(2 * |rd.rules| - 1)
    ensures forall x: nat :: x < |other.rules| ==> IsValidRule(other.rules[x])
    ensures |rd.rules| <= 8 ==> IsValidRd(other)
  {
    hide Cuts, Rung, Ladder;
    var cuts := Cuts(rd.rules, lo, hi, |rd.rules|);
    CutsCutUp(rd.rules, lo, hi);
    CutsAreFew(rd.rules, lo, hi, |rd.rules|, i);
    n := RungOf(0, |cuts| - 1);
    assert n + 1 == Intervals(|cuts| - 1);
    IntervalsGrow(|cuts| - 1, 2 * |rd.rules| - 1);
    other := Regdom(LADDER_ALPHA2, Unset, Ladder(cuts, n));
    forall x: nat | x < |other.rules|
      ensures IsValidRule(other.rules[x])
    {
      RungInside(cuts, n, x);
      CutsOrder(cuts, 0, Rung(x).0);
    }
    if |rd.rules| <= 8 {
      IntervalsGrow(2 * |rd.rules| - 1, 15);
      FifteenParts();
    }
  }

  lemma FifteenParts()
    ensures Intervals(15) == 120 < MAX_SUPP_REG_RULES
  {
    assert Intervals(5) == 15;
    assert Intervals(10) == 55;
  }

  lemma LadderLeavesStair(cuts: seq<u32>, lo: u32, hi: u32, n: nat, rd: Regdom, i: nat) returns (k: nat)
    requires 0 < lo && CutsUp(cuts, lo, hi, rd.rules) && LastRung(cuts, n)
    requires i < |rd.rules| && rd.rules[i].start <= lo && hi <= rd.rules[i].end
    ensures var both := RegdomIntersection(Regdom(LADDER_ALPHA2, Unset, Ladder(cuts, n)), rd);
            && both.Some? && Stair(both.value.rules, lo, hi) && k < |both.value.rules|
            && both.value.rules[k].start <= lo && hi <= both.value.rules[k].end
            && both.value.rules[k].flags == rd.rules[i].flags
  {
    hide Rung, Grid, Ladder, Stair, Intersect, Merge, Rows, IsValidRule;
    var rules := Ladder(cuts, n);
    LadderKeepsStair(cuts, lo, hi, n, rd.rules, i, n);
    SpanningPieceIsValid(cuts, lo, hi, n, rd.rules, i, n);
    GridAt(rules, rd.rules, n, i);
    PairIsCovered(Regdom(LADDER_ALPHA2, Unset, rules), rd, n, i);
    var m := RegdomIntersection(Regdom(LADDER_ALPHA2, Unset, rules), rd).value.rules;
    assert Stair(m, lo, hi);
    hide RegdomIntersection;
    k :| k < |m| && Subsumes(m[k], Intersect(rules, rd.rules, n, i));
  }

  /** A rule of a stair that spans the band, with the flags of a rule the band fits. */
  lemma StairGrants(out: Regdom, k: nat, rd: Regdom, i: nat, lo: int, hi: int)
    requires Fits(rd, i, lo, hi) && k < |out.rules| && Stair(out.rules, lo, hi)
    requires out.rules[k].start <= lo && hi <= out.rules[k].end && out.rules[k].flags == rd.rules[i].flags
    ensures Grants(out, k, lo, hi)
  {
    StairBandwidth(out.rules, lo, hi, k);
    hide RangeBandwidth, Capped, Stair;
  }

  /** The ladder of a band that fits a rule is made of valid rules, and its intersection with the
      rule's domain grants the band. A domain of `k` rules cuts the band in `2k - 1` parts at most, so
      that the ladder of a domain of up to eight rules passes the domain check. */
  lemma LadderGrants(rd: Regdom, i: nat, lo: nat, hi: nat) returns (other: Regdom)
    requires Fits(rd, i, lo, hi)
    ensures 0 < |other.rules| <= Intervals(2 * |rd.rules| - 1)
    ensures forall x: nat :: x < |other.rules| ==> IsValidRule(other.rules[x])
    ensures |rd.rules| <= 8 ==> IsValidRd(other)
    ensures RegdomIntersection(other, rd).Some?
    ensures GrantsSome(RegdomIntersection(other, rd).value, lo, hi)
  {
    var n: nat;
    other, n := LadderOf(rd, i, lo, hi);
    hide Rung, Ladder, Stair, RegdomIntersection, IsValidRule, LastRung, CutsUp, Cuts, Intervals, Grants, IsValidRd;
    hide Capped;
    var cuts := Cuts(rd.rules, lo, hi, |rd.rules|);
    CutsCutUp(rd.rules, lo, hi);
    var k := LadderLeavesStair(cuts, lo, hi, n, rd, i);
    var out := RegdomIntersection(other, rd).value;
    StairGrants(out, k, rd, i, lo, hi);
    assert Grants(out, k, lo, hi);
  }

  /** No intersection with `other`, in either order, grants a band that `rd` does not grant. */
  ghost predicate Withstands(rd: Regdom, other: Regdom) {
    && (RegdomIntersection(rd, other).Some? ==> NoWider(RegdomIntersection(rd, other).value, rd))
    && (RegdomIntersection(other, rd).Some? ==> NoWider(RegdomIntersection(other, rd).value, rd))
  }

  lemma SealedWithstands(rd: Regdom, other: Regdom)
    requires Sealed(rd)
    ensures Withstands(rd, other)
  {
    hide RegdomIntersection, NoWider, Sealed;
    if RegdomIntersection(rd, other).Some? {
      SealedIsEnough(rd, other);
    }
    if RegdomIntersection(other, rd).Some? {
      SealedIsEnough(other, rd);
    }
  }

  lemma UnsealedYields(rd: Regdom) returns (other: Regdom)
    requires !Sealed(rd)
    ensures !Withstands(rd, other) && (|rd.rules| <= 8 ==> IsValidRd(other))
  {
    var i: nat, lo, hi :| Fits(rd, i, lo, hi) && !GrantsSome(rd, lo, hi);
    other := LadderGrants(rd, i, lo, hi);
    hide RegdomIntersection, IsValidRd;
    var out := RegdomIntersection(other, rd).value;
    var k: nat :| Grants(out, k, lo, hi);
    assert !NoWider(out, rd);
  }

  /** For bands inside one rule: a domain withstands every intersection exactly when it is sealed; and
      up to eight rules, as many as the built-in world domain has, it is enough to look at the domains
      that pass the domain check. */
  lemma SealedIsExact(rd: Regdom)
    ensures Sealed(rd) <==> forall other: Regdom :: Withstands(rd, other)
    ensures |rd.rules| <= 8 ==> (Sealed(rd) <==> forall other: Regdom :: IsValidRd(other) ==> Withstands(rd, other))
  {
    hide Withstands, Sealed, IsValidRd;
    if Sealed(rd) {
      forall other: Regdom
        ensures Withstands(rd, other)
      {
        SealedWithstands(rd, other);
      }
    } else {
      var other := UnsealedYields(rd);
    }
  }
}
