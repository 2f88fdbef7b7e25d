/** Grouping a column's glyphs into lines by their vertical centres. */
module LineBands {
  import opened Options
  import opened Glyphs
  import opened Seqs

  function Id(x: real): real { x }

  /** `statistics.median`. */
  function Median(xs: seq<real>): real
    requires xs != []
  {
    SortFacts(xs, Id);
    var s := SortBy(xs, Id);
    if |s| % 2 == 1 then s[|s| / 2] else (s[|s| / 2 - 1] + s[|s| / 2]) / 2.0
  }

  function HeightOf(g: Glyph): real { g.y1 - g.y0 }

  /** Heights of the glyphs that have one. */
  function Heights(gs: seq<Glyph>): seq<real> {
    if gs == [] then []
    else (if HeightOf(gs[0]) > 0.0 then [HeightOf(gs[0])] else []) + Heights(gs[1..])
  }

  function MedianHeight(gs: seq<Glyph>, default: real): real {
    if Heights(gs) == [] then default else Median(Heights(gs))
  }

  /** Sort key: highest centre first. */
  function Downward(g: Glyph): real { -MidY(g) }

  function Abs(x: real): real { if x < 0.0 then -x else x }

  predicate Near(g: Glyph, leader: Glyph, tol: real) {
    Abs(MidY(g) - MidY(leader)) <= tol
  }

  /** Length of the run of glyphs near the first one. */
  function RunLength(gs: seq<Glyph>, leader: Glyph, tol: real): (n: nat)
    ensures n <= |gs|
  {
    if gs == [] || !Near(gs[0], leader, tol) then 0 else 1 + RunLength(gs[1..], leader, tol)
  }

  /** Greedy bands: a glyph joins the current band while it is near the band's first glyph. */
  function Bands(gs: seq<Glyph>, tol: real): seq<seq<Glyph>>
    decreases |gs|
  {
    if gs == [] then [] else
      var n := RunLength(gs[1..], gs[0], tol) + 1;
      [gs[..n]] + Bands(gs[n..], tol)
  }

  function Ordered(chars: seq<Glyph>): seq<Glyph> {
    SortBy(chars, Downward)
  }

  function LineTolerance(chars: seq<Glyph>): real {
    0.5 * MedianHeight(chars, 1.0)
  }

  /** The visual lines of a column, top to bottom. */
  function LineBandsOf(chars: seq<Glyph>): seq<seq<Glyph>> {
    Bands(Ordered(chars), LineTolerance(chars))
  }

  // ----- the loop

  method BandLoop(ordered: seq<Glyph>, tol: real) returns (lines: seq<seq<Glyph>>)
    requires tol >= 0.0
    ensures lines == Bands(ordered, tol)
  {
    hide Bands, RunLength, OpenBand;
    lines := [];
    var cur: seq<Glyph> := [];
    var ref: Option<real> := None;
    assert ordered[0..] == ordered;
    for i := 0 to |ordered|
      invariant cur == [] <==> i == 0
      invariant ref == if i == 0 then None else Some(MidY(cur[0]))
      invariant Bands(ordered, tol) == lines + Pending(cur, ordered[i..], tol)
    {
      var c := ordered[i];
      var yc := MidY(c);
      assert ordered[i..] == [c] + ordered[i + 1..];
      if ref == None || Abs(yc - ref.value) <= tol {
        OpenBandExtend(cur, c, ordered[i + 1..], tol);
        assert cur == [] ==> cur + [c] == [c];
        cur := cur + [c];
        ref := if ref == None then Some(yc) else ref;
      } else {
        OpenBandClose(cur, c, ordered[i + 1..], tol);
        assert lines + ([cur] + Pending([c], ordered[i + 1..], tol)) == lines + [cur] + Pending([c], ordered[i + 1..], tol);
        lines := lines + [cur];
        cur := [c];
        ref := Some(yc);
      }
    }
    PendingDone(cur, tol);
    if cur != [] {
      lines := lines + [cur];
    }
  }

  ghost function Pending(cur: seq<Glyph>, rest: seq<Glyph>, tol: real): seq<seq<Glyph>> {
    if cur == [] then Bands(rest, tol) else OpenBand(cur, rest, tol)
  }

  lemma {:induction false} PendingDone(cur: seq<Glyph>, tol: real)
    ensures Pending(cur, [], tol) == if cur == [] then [] else [cur]
  {
    if cur != [] {
      assert RunLength([], cur[0], tol) == 0 && cur + [] == cur;
    }
  }

  /** Bands of the remaining glyphs when `cur` is the band being filled. */
  ghost function OpenBand(cur: seq<Glyph>, rest: seq<Glyph>, tol: real): seq<seq<Glyph>>
    requires cur != []
  {
    var n := RunLength(rest, cur[0], tol);
    [cur + rest[..n]] + Bands(rest[n..], tol)
  }

  lemma {:induction false} OpenBandExtend(cur: seq<Glyph>, c: Glyph, rest: seq<Glyph>, tol: real)
    requires tol >= 0.0
    requires cur == [] || Near(c, cur[0], tol)
    ensures cur == [] ==> Bands([c] + rest, tol) == OpenBand([c], rest, tol)
    ensures cur != [] ==> OpenBand(cur, [c] + rest, tol) == OpenBand(cur + [c], rest, tol)
  {
    var all := [c] + rest;
    assert all[1..] == rest;
    if cur == [] {
      var n := RunLength(rest, c, tol);
      assert all[..n + 1] == [c] + rest[..n] && all[n + 1..] == rest[n..];
    } else {
      var n := RunLength(rest, cur[0], tol);
      assert cur + all[..n + 1] == cur + [c] + rest[..n] && all[n + 1..] == rest[n..];
    }
  }

  lemma {:induction false} OpenBandClose(cur: seq<Glyph>, c: Glyph, rest: seq<Glyph>, tol: real)
    requires tol >= 0.0
    requires cur != [] && !Near(c, cur[0], tol)
    ensures OpenBand(cur, [c] + rest, tol) == [cur] + OpenBand([c], rest, tol)
  {
    assert ([c] + rest)[0..] == [c] + rest && ([c] + rest)[..0] == [];
    assert cur + [] == cur;
    OpenBandExtend([], c, rest, tol);
  }

  // ----- what the bands are

  predicate Descending(gs: seq<Glyph>) {
    forall i, j :: 0 <= i < j < |gs| ==> MidY(gs[i]) >= MidY(gs[j])
  }

  lemma {:induction false} OrderedFacts(chars: seq<Glyph>)
    ensures Descending(Ordered(chars))
    ensures multiset(Ordered(chars)) == multiset(chars)
    ensures forall g :: g in Ordered(chars) <==> g in chars
  {
    SortFacts(chars, Downward);
    var s := Ordered(chars);
    forall i, j | 0 <= i < j < |s| ensures MidY(s[i]) >= MidY(s[j]) {
      assert Downward(s[i]) <= Downward(s[j]);
    }
  }

  lemma {:induction false} RunFacts(gs: seq<Glyph>, leader: Glyph, tol: real)
    ensures var n := RunLength(gs, leader, tol);
      && (forall k :: 0 <= k < n ==> Near(gs[k], leader, tol))
      && (n < |gs| ==> !Near(gs[n], leader, tol))
  {
    if gs != [] && Near(gs[0], leader, tol) {
      RunFacts(gs[1..], leader, tol);
    }
  }

  /** Nothing is lost or reordered, and no band is empty. */
  lemma {:induction false} BandsFlatten(gs: seq<Glyph>, tol: real)
    ensures Flat(Bands(gs, tol)) == gs
    ensures forall k :: 0 <= k < |Bands(gs, tol)| ==> Bands(gs, tol)[k] != []
    decreases |gs|
  {
    hide Flat, Bands, RunLength;
    BandsNone(tol);
    if gs != [] {
      var n := RunLength(gs[1..], gs[0], tol) + 1;
      BandsCons(gs, tol);
      BandsFlatten(gs[n..], tol);
      FlatCons(gs[..n], Bands(gs[n..], tol));
      assert gs == gs[..n] + gs[n..];
    }
  }

  lemma BandsNone(tol: real)
    ensures Bands([], tol) == [] && Leaders([], tol) == [] && Flat<Glyph>([]) == []
  {
  }

  lemma BandsCons(gs: seq<Glyph>, tol: real)
    requires gs != []
    ensures var n := RunLength(gs[1..], gs[0], tol) + 1;
      && n <= |gs|
      && Bands(gs, tol) == [gs[..n]] + Bands(gs[n..], tol)
      && Leaders(gs, tol) == [gs[0]] + Leaders(gs[n..], tol)
  {
  }

  lemma FlatCons(x: seq<Glyph>, rest: seq<seq<Glyph>>)
    ensures Flat([x] + rest) == x + Flat(rest)
  {
    assert ([x] + rest)[1..] == rest;
  }

  /** The first glyph of every band. */
  function Leaders(gs: seq<Glyph>, tol: real): seq<Glyph>
    decreases |gs|
  {
    if gs == [] then [] else [gs[0]] + Leaders(gs[RunLength(gs[1..], gs[0], tol) + 1..], tol)
  }

  lemma {:induction false} LeadersLead(gs: seq<Glyph>, tol: real)
    ensures |Leaders(gs, tol)| == |Bands(gs, tol)|
    ensures forall k :: 0 <= k < |Bands(gs, tol)| ==> Bands(gs, tol)[k] != [] && Bands(gs, tol)[k][0] == Leaders(gs, tol)[k]
    ensures forall g :: g in Leaders(gs, tol) ==> g in gs
    decreases |gs|
  {
    hide Bands, Leaders, RunLength;
    BandsNone(tol);
    if gs != [] {
      var n := RunLength(gs[1..], gs[0], tol) + 1;
      BandsCons(gs, tol);
      LeadersLead(gs[n..], tol);
      forall g | g in Leaders(gs[n..], tol) ensures g in gs {
        assert g in gs[n..];
      }
    }
  }

  /** Within a band all centres lie within `tol` below the leader's. */
  lemma {:induction false} BandSpread(gs: seq<Glyph>, tol: real, k: nat, g: Glyph)
    requires Descending(gs) && tol >= 0.0
    requires gs != [] && k < |Bands(gs, tol)| && g in Bands(gs, tol)[k]
    ensures Bands(gs, tol)[k] != [] && 0.0 <= MidY(Bands(gs, tol)[k][0]) - MidY(g) <= tol
    decreases |gs|
  {
    hide Bands, RunLength;
    var n := RunLength(gs[1..], gs[0], tol) + 1;
    BandsCons(gs, tol);
    BandsNone(tol);
    if k == 0 {
      assert g in gs[..n];
      RunFacts(gs[1..], gs[0], tol);
      var m :| 0 <= m < n && gs[m] == g;
      assert m > 0 ==> gs[1..][m - 1] == g;
    } else {
      BandSpread(gs[n..], tol, k - 1, g);
    }
  }

  /** Leaders are more than `tol` apart. */
  lemma {:induction false} LeadersApart(gs: seq<Glyph>, tol: real)
    requires Descending(gs) && tol >= 0.0
    ensures var ls := Leaders(gs, tol);
      forall i, j :: 0 <= i < j < |ls| ==> MidY(ls[i]) - MidY(ls[j]) > tol
    decreases |gs|
  {
    hide Leaders, Bands, RunLength, MidY, Near;
    BandsNone(tol);
    if gs != [] {
      var n := RunLength(gs[1..], gs[0], tol) + 1;
      BandsCons(gs, tol);
      LeadersApart(gs[n..], tol);
      var ls := Leaders(gs[n..], tol);
      LeadersLead(gs[n..], tol);
      forall j | 0 <= j < |ls| ensures MidY(gs[0]) - MidY(ls[j]) > tol {
        assert ls[j] in gs[n..];
        var m :| n <= m < |gs| && gs[m] == ls[j];
        BelowRun(gs, tol, m);
      }
    }
  }

  lemma {:induction false} BelowRun(gs: seq<Glyph>, tol: real, m: nat)
    requires Descending(gs) && tol >= 0.0 && gs != []
    requires RunLength(gs[1..], gs[0], tol) + 1 <= m < |gs|
    ensures MidY(gs[0]) - MidY(gs[m]) > tol
  {
    hide RunLength;
    var n := RunLength(gs[1..], gs[0], tol) + 1;
    RunFacts(gs[1..], gs[0], tol);
    assert gs[1..][n - 1] == gs[n];
    assert MidY(gs[0]) >= MidY(gs[n]) >= MidY(gs[m]);
  }

  // ----- optimality

  /** Every glyph's centre falls in one of the windows [c, c + tol]. */
  predicate Covers(windows: seq<real>, chars: seq<Glyph>, tol: real) {
    forall g :: g in chars ==> exists k :: 0 <= k < |windows| && windows[k] <= MidY(g) <= windows[k] + tol
  }

  lemma {:induction false} RangeSet(n: nat) returns (r: set<nat>)
    ensures |r| == n && forall x: nat :: x in r <==> x < n
  {
    r := {};
    for i := 0 to n
      invariant |r| == i
      invariant forall x: nat :: x in r <==> x < i
    {
      r := r + {i};
    }
  }

  lemma {:induction false} ElementSet(xs: seq<nat>) returns (r: set<nat>)
    requires forall i, j :: 0 <= i < j < |xs| ==> xs[i] != xs[j]
    ensures |r| == |xs| && forall x :: x in r <==> x in xs
  {
    r := {};
    for i := 0 to |xs|
      invariant |r| == i && forall x :: x in r <==> x in xs[..i]
    {
      assert xs[i] !in xs[..i];
      r := r + {xs[i]};
    }
  }

  /** Pigeonhole: distinct numbers below `n` number at most `n`. */
  lemma {:induction false} Pigeonhole(xs: seq<nat>, n: nat)
    requires forall i, j :: 0 <= i < j < |xs| ==> xs[i] != xs[j]
    requires forall i :: 0 <= i < |xs| ==> xs[i] < n
    ensures |xs| <= n
  {
    var a := ElementSet(xs);
    var b := RangeSet(n);
    assert a <= b;
    SubsetSize(a, b);
  }

  /** No set of windows of the same height covers the glyphs with fewer windows than there are lines. */
  lemma {:induction false} GreedyBandingIsOptimal(chars: seq<Glyph>, tol: real, windows: seq<real>)
    requires tol >= 0.0
    requires Covers(windows, chars, tol)
    ensures |Bands(Ordered(chars), tol)| <= |windows|
  {
    hide Leaders, Bands, Ordered;
    OrderedFacts(chars);
    var ls := Leaders(Ordered(chars), tol);
    LeadersLead(Ordered(chars), tol);
    LeadersApart(Ordered(chars), tol);
    var xs: seq<nat> := [];
    for i := 0 to |ls|
      invariant |xs| == i
      invariant forall k :: 0 <= k < i ==> xs[k] < |windows| && windows[xs[k]] <= MidY(ls[k]) <= windows[xs[k]] + tol
    {
      assert ls[i] in ls && ls[i] in chars;
      var w :| 0 <= w < |windows| && windows[w] <= MidY(ls[i]) <= windows[w] + tol;
      xs := xs + [w];
    }
    forall i, j | 0 <= i < j < |xs| ensures xs[i] != xs[j] {
      assert MidY(ls[i]) - MidY(ls[j]) > tol;
    }
    Pigeonhole(xs, |windows|);
  }

  /** ... and the lines themselves are such a cover. */
  lemma {:induction false} BandsCover(chars: seq<Glyph>, tol: real) returns (windows: seq<real>)
    requires tol >= 0.0
    ensures |windows| == |Bands(Ordered(chars), tol)| && Covers(windows, chars, tol)
  {
    var gs := Ordered(chars);
    OrderedFacts(chars);
    BandsFlatten(gs, tol);
    var bands := Bands(gs, tol);
    windows := seq(|bands|, k requires 0 <= k < |bands| => MidY(bands[k][0]) - tol);
    forall g | g in chars
      ensures exists k :: 0 <= k < |windows| && windows[k] <= MidY(g) <= windows[k] + tol
    {
      FlatIn(bands, g);
      var k :| 0 <= k < |bands| && g in bands[k];
      BandSpread(gs, tol, k, g);
      assert windows[k] <= MidY(g) <= windows[k] + tol;
    }
  }

  // ----- the tolerance is half a median height

  lemma {:induction false} HeightsPositive(gs: seq<Glyph>)
    ensures forall h :: h in Heights(gs) ==> h > 0.0
  {
    if gs != [] {
      HeightsPositive(gs[1..]);
    }
  }

  lemma {:induction false} MedianIn(xs: seq<real>)
    requires xs != []
    ensures exists a, b :: a in xs && b in xs && a <= Median(xs) <= b
  {
    SortFacts(xs, Id);
    var s := SortBy(xs, Id);
    var lo := if |s| % 2 == 1 then s[|s| / 2] else s[|s| / 2 - 1];
    var hi := s[|s| / 2];
    assert Id(lo) <= Id(hi);
    assert lo in s && hi in s;
  }

  lemma {:induction false} TolerancePositive(chars: seq<Glyph>)
    ensures LineTolerance(chars) > 0.0
  {
    HeightsPositive(chars);
    if Heights(chars) != [] {
      MedianIn(Heights(chars));
    }
  }
}
