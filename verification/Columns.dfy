/** Recursive widest-gutter columns and their sweep. */
module Columns {
  import opened Options
  import opened Glyphs
  import opened Seqs

  /** A vertical strip of white space, from the right edge of one glyph to the left edge of another. */
  datatype Gutter = Gutter(lo: real, hi: real)

  function Width(g: Gutter): real { g.hi - g.lo }

  function Mid(g: Gutter): real { g.lo + Width(g) / 2.0 }

  /** No glyph reaches into the strip, the strip is maximal, and it is wide enough. */
  ghost predicate IsGutter(items: seq<Glyph>, minGap: real, g: Gutter) {
    && g.lo < g.hi && Width(g) >= minGap
    && (exists a :: a in items && a.x1 == g.lo)
    && (exists b :: b in items && b.x0 == g.hi)
    && (forall c :: c in items ==> c.x1 <= g.lo || g.hi <= c.x0)
  }

  predicate Increasing(gs: seq<Gutter>) {
    && (forall i :: 0 <= i < |gs| ==> gs[i].lo < gs[i].hi)
    && (forall i, j :: 0 <= i < j < |gs| ==> gs[i].hi <= gs[j].lo)
  }

  /** `gs` lists exactly the gutters of `items`, from left to right. */
  ghost predicate Lists(gs: seq<Gutter>, items: seq<Glyph>, minGap: real) {
    && Increasing(gs)
    && (forall g :: g in gs <==> IsGutter(items, minGap, g))
  }

  // ----- the scan over intervals sorted by left edge

  /** Rightmost edge among the first `i` glyphs: the scan's running end. */
  function MaxEnd(ivs: seq<Glyph>, i: nat): real
    requires 1 <= i <= |ivs|
  {
    if i == 1 then ivs[0].x1 else Max(MaxEnd(ivs, i - 1), ivs[i - 1].x1)
  }

  predicate Clean(ivs: seq<Glyph>, i: nat, minGap: real)
    requires 1 <= i < |ivs|
  {
    var gap := ivs[i].x0 - MaxEnd(ivs, i);
    gap >= minGap && gap > 0.0
  }

  function GutterAt(ivs: seq<Glyph>, i: nat): Gutter
    requires 1 <= i < |ivs|
  {
    Gutter(MaxEnd(ivs, i), ivs[i].x0)
  }

  /** One left-to-right pass that records every gutter. */
  function GuttersFrom(ivs: seq<Glyph>, i: nat, minGap: real): seq<Gutter>
    requires 1 <= i <= |ivs|
    decreases |ivs| - i
  {
    if i == |ivs| then []
    else (if Clean(ivs, i, minGap) then [GutterAt(ivs, i)] else []) + GuttersFrom(ivs, i + 1, minGap)
  }

  /** The same pass keeping only the first widest gutter, as the code does. */
  function WidestFrom(ivs: seq<Glyph>, i: nat, minGap: real, bestGap: real, bestCut: Option<real>): Option<real>
    requires 1 <= i <= |ivs|
    decreases |ivs| - i
  {
    if i == |ivs| then bestCut else
      var gap := ivs[i].x0 - MaxEnd(ivs, i);
      if gap >= minGap && gap > bestGap
      then WidestFrom(ivs, i + 1, minGap, gap, Some(MaxEnd(ivs, i) + gap / 2.0))
      else WidestFrom(ivs, i + 1, minGap, bestGap, bestCut)
  }

  function WidestCut(items: seq<Glyph>, minGap: real): Option<real>
    requires items != []
  {
    SortFacts(items, X0);
    WidestFrom(SortBy(items, X0), 1, minGap, 0.0, None)
  }

  function GutterList(items: seq<Glyph>, minGap: real): seq<Gutter>
    requires items != []
  {
    SortFacts(items, X0);
    GuttersFrom(SortBy(items, X0), 1, minGap)
  }

  method FindSplit(items: seq<Glyph>, minGap: real) returns (bestCut: Option<real>)
    requires items != []
    ensures bestCut == WidestCut(items, minGap)
  {
    var intervals := SortBy(items, X0);
    SortFacts(items, X0);
    var curEnd := intervals[0].x1;
    var bestGap := 0.0;
    bestCut := None;
    for i := 1 to |intervals|
      invariant curEnd == MaxEnd(intervals, i)
      invariant WidestFrom(intervals, i, minGap, bestGap, bestCut) == WidestCut(items, minGap)
    {
      var gap := intervals[i].x0 - curEnd;
      if gap >= minGap && gap > bestGap {
        bestGap, bestCut := gap, Some(curEnd + gap / 2.0);
      }
      if intervals[i].x1 > curEnd {
        curEnd := intervals[i].x1;
      }
    }
  }

  lemma {:induction false} MaxEndFacts(ivs: seq<Glyph>, i: nat)
    requires 1 <= i <= |ivs|
    ensures forall k :: 0 <= k < i ==> ivs[k].x1 <= MaxEnd(ivs, i)
    ensures exists k :: 0 <= k < i && ivs[k].x1 == MaxEnd(ivs, i)
  {
    if i == 1 {
      assert ivs[0].x1 == MaxEnd(ivs, i);
    } else {
      MaxEndFacts(ivs, i - 1);
      if MaxEnd(ivs, i) != ivs[i - 1].x1 {
        var k :| 0 <= k < i - 1 && ivs[k].x1 == MaxEnd(ivs, i - 1);
        assert ivs[k].x1 == MaxEnd(ivs, i);
      }
    }
  }

  /** The pass records exactly the clean positions. */
  lemma {:induction false} GuttersFromMembers(ivs: seq<Glyph>, i: nat, minGap: real, g: Gutter)
    requires 1 <= i <= |ivs|
    ensures g in GuttersFrom(ivs, i, minGap)
       <==> exists k :: i <= k < |ivs| && Clean(ivs, k, minGap) && g == GutterAt(ivs, k)
    decreases |ivs| - i
  {
    hide Clean, GutterAt, MaxEnd;
    if i < |ivs| {
      var rest := GuttersFrom(ivs, i + 1, minGap);
      GuttersFromMembers(ivs, i + 1, minGap, g);
      assert g in GuttersFrom(ivs, i, minGap) <==> g in rest || (Clean(ivs, i, minGap) && g == GutterAt(ivs, i));
    }
  }

  /** ... and in order. */
  lemma {:induction false} GuttersFromIncreasing(ivs: seq<Glyph>, i: nat, minGap: real)
    requires 1 <= i <= |ivs|
    requires AllBoxed(ivs)
    ensures Increasing(GuttersFrom(ivs, i, minGap))
    decreases |ivs| - i
  {
    if i < |ivs| {
      GuttersFromIncreasing(ivs, i + 1, minGap);
      var rest := GuttersFrom(ivs, i + 1, minGap);
      forall j | 0 <= j < |rest| ensures ivs[i].x0 <= rest[j].lo {
        assert rest[j] in rest;
        GuttersFromMembers(ivs, i + 1, minGap, rest[j]);
        var k :| i + 1 <= k < |ivs| && Clean(ivs, k, minGap) && rest[j] == GutterAt(ivs, k);
        MaxEndFacts(ivs, k);
        assert Boxed(ivs[i]);
      }
    }
  }

  lemma {:induction false} CleanIsGutter(ivs: seq<Glyph>, k: nat, minGap: real)
    requires 1 <= k < |ivs|
    requires Ascending(ivs, X0)
    requires Clean(ivs, k, minGap)
    ensures IsGutter(ivs, minGap, GutterAt(ivs, k))
  {
    MaxEndFacts(ivs, k);
    var m :| 0 <= m < k && ivs[m].x1 == MaxEnd(ivs, k);
    assert ivs[m] in ivs && ivs[k] in ivs;
    forall c | c in ivs ensures c.x1 <= MaxEnd(ivs, k) || ivs[k].x0 <= c.x0 {
      var n :| 0 <= n < |ivs| && ivs[n] == c;
      if n > k {
        assert X0(ivs[k]) <= X0(ivs[n]);
      }
    }
  }

  lemma {:induction false} GutterIsClean(ivs: seq<Glyph>, g: Gutter, minGap: real) returns (k: nat)
    requires Ascending(ivs, X0) && AllBoxed(ivs)
    requires IsGutter(ivs, minGap, g)
    ensures 1 <= k < |ivs| && Clean(ivs, k, minGap) && GutterAt(ivs, k) == g
  {
    var b :| b in ivs && b.x0 == g.hi;
    k := FirstFrom(ivs, g.hi);
    var a :| a in ivs && a.x1 == g.lo;
    assert Boxed(a);
    var m :| 0 <= m < |ivs| && ivs[m] == a;
    ComesBefore(ivs, m, k);
    MaxEndFacts(ivs, k);
    forall n | 0 <= n < k ensures ivs[n].x1 <= g.lo {
      assert ivs[n] in ivs;
    }
  }

  lemma ComesBefore(ivs: seq<Glyph>, m: nat, k: nat)
    requires Ascending(ivs, X0) && m < |ivs| && k < |ivs| && ivs[m].x0 < ivs[k].x0
    ensures m < k
  {
    assert m > k ==> X0(ivs[k]) <= X0(ivs[m]);
  }

  lemma {:induction false} FirstFrom(ivs: seq<Glyph>, x: real) returns (k: nat)
    requires Ascending(ivs, X0)
    requires exists b :: b in ivs && b.x0 == x
    ensures k < |ivs| && ivs[k].x0 == x
    ensures forall n :: 0 <= n < k ==> ivs[n].x0 < x
  {
    var b :| b in ivs && b.x0 == x;
    var m :| 0 <= m < |ivs| && ivs[m] == b;
    k := 0;
    while ivs[k].x0 < x
      invariant 0 <= k <= m
      invariant forall n :: 0 <= n < k ==> ivs[n].x0 < x
      decreases m - k
    {
      assert k != m;
      k := k + 1;
    }
    assert k < m ==> X0(ivs[k]) <= X0(ivs[m]);
  }

  /** The scan's gutters are the gutters of the page, whatever the glyph order. */
  lemma {:induction false} GutterListLists(items: seq<Glyph>, minGap: real)
    requires items != [] && AllBoxed(items)
    ensures Lists(GutterList(items, minGap), items, minGap)
  {
    var ivs := SortBy(items, X0);
    SortFacts(items, X0);
    GuttersFromIncreasing(ivs, 1, minGap);
    var gs := GutterList(items, minGap);
    forall g ensures g in gs <==> IsGutter(items, minGap, g) {
      SameGutters(ivs, items, minGap, g);
      GuttersFromMembers(ivs, 1, minGap, g);
      if g in gs {
        var k :| 1 <= k < |ivs| && Clean(ivs, k, minGap) && g == GutterAt(ivs, k);
        CleanIsGutter(ivs, k, minGap);
      }
      if IsGutter(ivs, minGap, g) {
        var k := GutterIsClean(ivs, g, minGap);
      }
    }
  }

  lemma {:induction false} SameGutters(a: seq<Glyph>, b: seq<Glyph>, minGap: real, g: Gutter)
    requires forall x :: x in a <==> x in b
    ensures IsGutter(a, minGap, g) <==> IsGutter(b, minGap, g)
  {
  }

  lemma {:induction false} HasFirst(b: seq<Gutter>)
    ensures b == [] || b[0] in b
  {
  }

  lemma {:induction false} ListsUnique(a: seq<Gutter>, b: seq<Gutter>)
    requires Increasing(a) && Increasing(b)
    requires forall g :: g in a <==> g in b
    ensures a == b
  {
    HasFirst(b);
    if a != [] {
      assert a[0] in b;
      assert b[0] in a;
      assert a[0] == b[0];
      var a', b' := a[1..], b[1..];
      forall g ensures g in a' <==> g in b' {
        TailMember(a, g);
        TailMember(b, g);
      }
      ListsUnique(a', b');
      assert a == [a[0]] + a' && b == [b[0]] + b';
    }
  }

  lemma {:induction false} TailMember(a: seq<Gutter>, g: Gutter)
    requires Increasing(a) && a != []
    ensures g in a[1..] <==> g in a && g != a[0]
  {
    if g in a[1..] {
      var k :| 0 <= k < |a[1..]| && a[1..][k] == g;
      assert a[0].hi <= a[k + 1].lo;
    }
  }

  // ----- the recursive split

  function LeftOf(cut: real): Glyph -> bool { (g: Glyph) => MidX(g) < cut }

  function RightOf(cut: real): Glyph -> bool { (g: Glyph) => MidX(g) >= cut }

  const MAX_DEPTH: nat := 10

  function SplitColumns(chars: seq<Glyph>, minGap: real, depth: nat): seq<seq<Glyph>>
    decreases if depth <= MAX_DEPTH then MAX_DEPTH + 1 - depth else 0
  {
    if |chars| <= 1 || depth > MAX_DEPTH then [chars] else
      match WidestCut(chars, minGap)
      case None => [chars]
      case Some(cut) =>
        var left := Filter(chars, LeftOf(cut));
        var right := Filter(chars, RightOf(cut));
        if left == [] || right == [] then [chars]
        else SplitColumns(left, minGap, depth + 1) + SplitColumns(right, minGap, depth + 1)
  }

  /** Some recursive call is stopped by the depth limit although its glyphs still have a gutter. */
  predicate CapHit(chars: seq<Glyph>, minGap: real, depth: nat)
    decreases if depth <= MAX_DEPTH then MAX_DEPTH + 1 - depth else 0
  {
    if |chars| <= 1 then false else
      match WidestCut(chars, minGap)
      case None => false
      case Some(cut) =>
        || depth > MAX_DEPTH
        || CapHit(Filter(chars, LeftOf(cut)), minGap, depth + 1)
        || CapHit(Filter(chars, RightOf(cut)), minGap, depth + 1)
  }

  /** Cut `items` at the middle of each listed gutter; every strip keeps the input order. */
  function Slice(items: seq<Glyph>, gs: seq<Gutter>): (cols: seq<seq<Glyph>>)
    ensures |cols| == |gs| + 1
    decreases gs
  {
    if gs == [] then [items]
    else [Filter(items, LeftOf(Mid(gs[0])))] + Slice(Filter(items, RightOf(Mid(gs[0]))), gs[1..])
  }

  /** Reference definition: one pass that cuts at every gutter. */
  function Sweep(items: seq<Glyph>, minGap: real): seq<seq<Glyph>>
    requires items != []
  {
    Slice(items, GutterList(items, minGap))
  }

  predicate FirstWidest(gs: seq<Gutter>, k: int) {
    && 0 <= k < |gs|
    && (forall j :: 0 <= j < |gs| ==> Width(gs[j]) <= Width(gs[k]))
    && (forall j :: 0 <= j < k ==> Width(gs[j]) < Width(gs[k]))
  }

  lemma {:induction false} WidestHere(g: Gutter, rest: seq<Gutter>)
    requires forall j :: 0 <= j < |rest| ==> Width(rest[j]) <= Width(g)
    ensures FirstWidest([g] + rest, 0)
  {
  }

  lemma {:induction false} WidestLater(g: Gutter, rest: seq<Gutter>, k: nat)
    requires FirstWidest(rest, k) && Width(g) < Width(rest[k])
    ensures FirstWidest([g] + rest, k + 1)
  {
  }

  /** The widest of a list of gutters, starting from a best width seen so far. */
  function WidestOf(gs: seq<Gutter>, bestGap: real, bestCut: Option<real>): Option<real> {
    if gs == [] then bestCut
    else if Width(gs[0]) > bestGap then WidestOf(gs[1..], Width(gs[0]), Some(Mid(gs[0])))
    else WidestOf(gs[1..], bestGap, bestCut)
  }

  lemma {:induction false} WidestFromList(ivs: seq<Glyph>, i: nat, minGap: real, bestGap: real, bestCut: Option<real>)
    requires 1 <= i <= |ivs| && bestGap >= 0.0
    ensures WidestFrom(ivs, i, minGap, bestGap, bestCut) == WidestOf(GuttersFrom(ivs, i, minGap), bestGap, bestCut)
    decreases |ivs| - i
  {
    if i < |ivs| {
      var gap := ivs[i].x0 - MaxEnd(ivs, i);
      var rest := GuttersFrom(ivs, i + 1, minGap);
      assert ([GutterAt(ivs, i)] + rest)[1..] == rest;
      assert [] + rest == rest;
      if gap >= minGap && gap > bestGap {
        WidestFromList(ivs, i + 1, minGap, gap, Some(MaxEnd(ivs, i) + gap / 2.0));
      } else {
        WidestFromList(ivs, i + 1, minGap, bestGap, bestCut);
      }
    }
  }

  lemma {:induction false} WidestOfIs(gs: seq<Gutter>, bestGap: real, bestCut: Option<real>) returns (k: int)
    ensures if k < 0
      then WidestOf(gs, bestGap, bestCut) == bestCut && forall j :: 0 <= j < |gs| ==> Width(gs[j]) <= bestGap
      else FirstWidest(gs, k) && Width(gs[k]) > bestGap && WidestOf(gs, bestGap, bestCut) == Some(Mid(gs[k]))
  {
    if gs == [] {
      return -1;
    }
    var g, rest := gs[0], gs[1..];
    assert gs == [g] + rest;
    if Width(g) > bestGap {
      var m := WidestOfIs(rest, Width(g), Some(Mid(g)));
      if m < 0 {
        WidestHere(g, rest);
        k := 0;
      } else {
        WidestLater(g, rest, m);
        k := m + 1;
      }
    } else {
      var m := WidestOfIs(rest, bestGap, bestCut);
      if m < 0 {
        k := -1;
      } else {
        WidestLater(g, rest, m);
        k := m + 1;
      }
    }
  }

  /** The code's cut is the middle of the leftmost widest gutter, and there is none exactly when no gutter exists. */
  lemma {:induction false} WidestCutIs(items: seq<Glyph>, minGap: real) returns (k: int)
    requires items != [] && AllBoxed(items)
    ensures var gs := GutterList(items, minGap);
      if gs == [] then WidestCut(items, minGap) == None
      else FirstWidest(gs, k) && WidestCut(items, minGap) == Some(Mid(gs[k]))
  {
    SortFacts(items, X0);
    GutterListLists(items, minGap);
    WidestFromList(SortBy(items, X0), 1, minGap, 0.0, None);
    k := WidestOfIs(GutterList(items, minGap), 0.0, None);
    assert GutterList(items, minGap) != [] ==> Width(GutterList(items, minGap)[0]) > 0.0;
  }

  /** A gutter separates the glyphs by their centres: the two halves lie on its two sides. */
  lemma {:induction false} CutSides(items: seq<Glyph>, minGap: real, g: Gutter)
    requires AllBoxed(items) && IsGutter(items, minGap, g)
    ensures var left, right := Filter(items, LeftOf(Mid(g))), Filter(items, RightOf(Mid(g)));
      && left != [] && right != []
      && (forall c :: c in left <==> c in items && c.x1 <= g.lo)
      && (forall c :: c in right <==> c in items && g.hi <= c.x0)
      && AllBoxed(left) && AllBoxed(right)
  {
    FilterIn(items, LeftOf(Mid(g)));
    FilterIn(items, RightOf(Mid(g)));
    forall c | c in items
      ensures MidX(c) < Mid(g) <==> c.x1 <= g.lo
      ensures MidX(c) >= Mid(g) <==> g.hi <= c.x0
    {
      assert Boxed(c);
    }
    var a :| a in items && a.x1 == g.lo;
    var b :| b in items && b.x0 == g.hi;
    assert a in Filter(items, LeftOf(Mid(g)));
    assert b in Filter(items, RightOf(Mid(g)));
  }

  lemma {:induction false} LeftGutter(items: seq<Glyph>, left: seq<Glyph>, minGap: real, gs: seq<Gutter>, k: nat, g: Gutter)
    requires AllBoxed(items) && Lists(gs, items, minGap) && k < |gs|
    requires forall c :: c in left <==> c in items && c.x1 <= gs[k].lo
    ensures IsGutter(left, minGap, g) <==> g in gs[..k]
  {
    assert gs[k] in gs;
    if g in gs[..k] {
      var i :| 0 <= i < k && gs[i] == g;
      assert g in gs && gs[i].hi <= gs[k].lo;
      LeftGutterBack(items, left, minGap, gs[k], g);
    }
    if IsGutter(left, minGap, g) {
      assert g in gs;
      var i :| 0 <= i < |gs| && gs[i] == g;
      assert gs[..k][i] == g;
    }
  }

  lemma {:induction false} RightGutter(items: seq<Glyph>, right: seq<Glyph>, minGap: real, gs: seq<Gutter>, k: nat, g: Gutter)
    requires AllBoxed(items) && Lists(gs, items, minGap) && k < |gs|
    requires forall c :: c in right <==> c in items && gs[k].hi <= c.x0
    ensures IsGutter(right, minGap, g) <==> g in gs[k + 1..]
  {
    assert gs[k] in gs;
    if g in gs[k + 1..] {
      var i :| k + 1 <= i < |gs| && gs[i] == g;
      assert g in gs && gs[k].hi <= gs[i].lo;
    }
    if IsGutter(right, minGap, g) {
      assert g in gs;
      var i :| 0 <= i < |gs| && gs[i] == g;
      assert gs[k + 1..][i - k - 1] == g;
    }
  }

  /** The gutters of the left half are the page's gutters left of the cut. */
  lemma {:induction false} LeftGutters(items: seq<Glyph>, minGap: real, gs: seq<Gutter>, k: nat)
    requires items != [] && AllBoxed(items)
    requires gs == GutterList(items, minGap) && k < |gs|
    ensures var left := Filter(items, LeftOf(Mid(gs[k])));
      left != [] && GutterList(left, minGap) == gs[..k]
  {
    GutterListLists(items, minGap);
    assert gs[k] in gs;
    CutSides(items, minGap, gs[k]);
    var left := Filter(items, LeftOf(Mid(gs[k])));
    GutterListLists(left, minGap);
    forall g ensures g in GutterList(left, minGap) <==> g in gs[..k] {
      LeftGutter(items, left, minGap, gs, k, g);
    }
    ListsUnique(GutterList(left, minGap), gs[..k]);
  }

  lemma {:induction false} LeftGutterBack(items: seq<Glyph>, left: seq<Glyph>, minGap: real, cut: Gutter, g: Gutter)
    requires AllBoxed(items)
    requires forall c :: c in left <==> c in items && c.x1 <= cut.lo
    requires IsGutter(items, minGap, cut) && IsGutter(items, minGap, g) && g.hi <= cut.lo
    ensures IsGutter(left, minGap, g)
  {
    var a :| a in items && a.x1 == g.lo;
    var b :| b in items && b.x0 == g.hi;
    assert Boxed(b);
    assert a in left && b in left;
  }

  /** ... and those of the right half the ones right of it. */
  lemma {:induction false} RightGutters(items: seq<Glyph>, minGap: real, gs: seq<Gutter>, k: nat)
    requires items != [] && AllBoxed(items)
    requires gs == GutterList(items, minGap) && k < |gs|
    ensures var right := Filter(items, RightOf(Mid(gs[k])));
      right != [] && GutterList(right, minGap) == gs[k + 1..]
  {
    GutterListLists(items, minGap);
    assert gs[k] in gs;
    CutSides(items, minGap, gs[k]);
    var right := Filter(items, RightOf(Mid(gs[k])));
    GutterListLists(right, minGap);
    forall g ensures g in GutterList(right, minGap) <==> g in gs[k + 1..] {
      RightGutter(items, right, minGap, gs, k, g);
    }
    ListsUnique(GutterList(right, minGap), gs[k + 1..]);
  }

  lemma {:induction false} StripsAgree(items: seq<Glyph>, first: real, cut: real)
    requires first < cut
    ensures Filter(Filter(items, LeftOf(cut)), LeftOf(first)) == Filter(items, LeftOf(first))
    ensures Filter(Filter(items, RightOf(first)), RightOf(cut)) == Filter(items, RightOf(cut))
    ensures Filter(Filter(items, RightOf(first)), LeftOf(cut)) == Filter(Filter(items, LeftOf(cut)), RightOf(first))
  {
    FilterFilter(items, LeftOf(cut), LeftOf(first), LeftOf(first));
    FilterFilter(items, RightOf(first), RightOf(cut), RightOf(cut));
    var between := (g: Glyph) => first <= MidX(g) < cut;
    FilterFilter(items, RightOf(first), LeftOf(cut), between);
    FilterFilter(items, LeftOf(cut), RightOf(first), between);
  }

  /** Slicing at any one gutter first and then at the others gives the same strips. */
  lemma {:induction false} SliceSplits(items: seq<Glyph>, gs: seq<Gutter>, k: nat)
    requires Increasing(gs) && k < |gs|
    ensures Slice(items, gs)
         == Slice(Filter(items, LeftOf(Mid(gs[k]))), gs[..k]) + Slice(Filter(items, RightOf(Mid(gs[k]))), gs[k + 1..])
    decreases gs
  {
    hide *;
    SliceCons(items, gs);
    if k > 0 {
      var first, cut := Mid(gs[0]), Mid(gs[k]);
      MidsIncrease(gs, 0, k);
      var tail := gs[1..];
      var rest := Filter(items, RightOf(first));
      TailIncreases(gs);
      SliceSplits(rest, tail, k - 1);
      assert tail[k - 1] == gs[k];
      assert tail[..k - 1] == gs[..k][1..] && tail[k..] == gs[k + 1..] && gs[..k][0] == gs[0];
      StripsAgree(items, first, cut);
      SliceCons(Filter(items, LeftOf(cut)), gs[..k]);
      Regroup([Filter(items, LeftOf(first))], Slice(Filter(rest, LeftOf(cut)), tail[..k - 1]),
              Slice(Filter(rest, RightOf(cut)), tail[k..]));
    } else {
      assert gs[..0] == [];
      SliceNone(Filter(items, LeftOf(Mid(gs[0]))));
    }
  }

  lemma SliceCons(items: seq<Glyph>, gs: seq<Gutter>)
    requires gs != []
    ensures Slice(items, gs)
         == [Filter(items, LeftOf(Mid(gs[0])))] + Slice(Filter(items, RightOf(Mid(gs[0]))), gs[1..])
  {
  }

  lemma SliceNone(items: seq<Glyph>)
    ensures Slice(items, []) == [items]
  {
  }

  lemma TailIncreases(gs: seq<Gutter>)
    requires gs != [] && Increasing(gs)
    ensures Increasing(gs[1..])
  {
  }

  /** `k` is the gutter the code picks, and `left` and `right` are the two recursive arguments. */
  ghost predicate IsStep(chars: seq<Glyph>, minGap: real, k: nat, left: seq<Glyph>, right: seq<Glyph>)
    requires chars != []
  {
    var gs := GutterList(chars, minGap);
    && k < |gs|
    && WidestCut(chars, minGap) == Some(Mid(gs[k]))
    && left == Filter(chars, LeftOf(Mid(gs[k]))) && right == Filter(chars, RightOf(Mid(gs[k])))
    && left != [] && right != []
    && GutterList(left, minGap) == gs[..k] && GutterList(right, minGap) == gs[k + 1..]
  }

  /** Everything a recursive step needs about its cut. */
  lemma {:induction false} Halves(chars: seq<Glyph>, minGap: real) returns (k: nat, left: seq<Glyph>, right: seq<Glyph>)
    requires chars != [] && AllBoxed(chars) && GutterList(chars, minGap) != []
    ensures IsStep(chars, minGap, k, left, right) && AllBoxed(left) && AllBoxed(right)
    ensures left != [] && right != []
  {
    var gs := GutterList(chars, minGap);
    GutterListLists(chars, minGap);
    k := WidestCutIs(chars, minGap);
    left, right := Filter(chars, LeftOf(Mid(gs[k]))), Filter(chars, RightOf(Mid(gs[k])));
    CutSides(chars, minGap, gs[k]);
    LeftGutters(chars, minGap, gs, k);
    RightGutters(chars, minGap, gs, k);
  }

  /** Without the depth limit in play, the recursion finds exactly the columns of the sweep. */
  lemma {:induction false} SplitRefinesSweep(chars: seq<Glyph>, minGap: real, depth: nat)
    requires chars != [] && AllBoxed(chars)
    requires depth <= MAX_DEPTH + 1 && !CapHit(chars, minGap, depth)
    ensures SplitColumns(chars, minGap, depth) == Sweep(chars, minGap)
    decreases MAX_DEPTH + 1 - depth
  {
    hide SplitColumns, CapHit, Sweep, GutterList;
    if |chars| == 1 || GutterList(chars, minGap) == [] || depth > MAX_DEPTH {
      Unsplit(chars, minGap, depth);
    } else {
      var k, left, right := Halves(chars, minGap);
      StepUnfolds(chars, minGap, depth, left, right, k);
      SweepUnfolds(chars, minGap, left, right, k);
      SplitRefinesSweep(left, minGap, depth + 1);
      SplitRefinesSweep(right, minGap, depth + 1);
    }
  }

  /** A split never has more columns than the sweep ... */
  lemma {:induction false} NoExtraColumns(chars: seq<Glyph>, minGap: real, depth: nat)
    requires chars != [] && AllBoxed(chars)
    requires depth <= MAX_DEPTH + 1
    ensures |SplitColumns(chars, minGap, depth)| <= |GutterList(chars, minGap)| + 1
    decreases MAX_DEPTH + 1 - depth
  {
    hide SplitColumns, CapHit;
    if |chars| == 1 || GutterList(chars, minGap) == [] || depth > MAX_DEPTH {
      Unsplit(chars, minGap, depth);
    } else {
      var k, left, right := Halves(chars, minGap);
      StepCounts(chars, minGap, depth, left, right, k);
      NoExtraColumns(left, minGap, depth + 1);
      NoExtraColumns(right, minGap, depth + 1);
    }
  }

  /** ... and has fewer when the depth limit stops a cut. */
  lemma {:induction false} CapLosesColumns(chars: seq<Glyph>, minGap: real, depth: nat)
    requires chars != [] && AllBoxed(chars)
    requires depth <= MAX_DEPTH + 1 && CapHit(chars, minGap, depth)
    ensures |SplitColumns(chars, minGap, depth)| <= |GutterList(chars, minGap)|
    decreases MAX_DEPTH + 1 - depth
  {
    hide SplitColumns, CapHit;
    if |chars| == 1 || GutterList(chars, minGap) == [] || depth > MAX_DEPTH {
      Unsplit(chars, minGap, depth);
    } else {
      var k, left, right := Halves(chars, minGap);
      StepCounts(chars, minGap, depth, left, right, k);
      NoExtraColumns(left, minGap, depth + 1);
      NoExtraColumns(right, minGap, depth + 1);
      if CapHit(left, minGap, depth + 1) {
        CapLosesColumns(left, minGap, depth + 1);
      } else {
        CapLosesColumns(right, minGap, depth + 1);
      }
    }
  }

  /** The split equals the sweep exactly when the depth limit stops no useful cut. */
  lemma {:induction false} SplitIsSweepIff(chars: seq<Glyph>, minGap: real)
    requires chars != [] && AllBoxed(chars)
    ensures SplitColumns(chars, minGap, 0) == Sweep(chars, minGap) <==> !CapHit(chars, minGap, 0)
  {
    if CapHit(chars, minGap, 0) {
      CapLosesColumns(chars, minGap, 0);
    } else {
      SplitRefinesSweep(chars, minGap, 0);
    }
  }

  lemma {:induction false} Unsplit(chars: seq<Glyph>, minGap: real, depth: nat)
    requires chars != [] && AllBoxed(chars)
    requires |chars| == 1 || GutterList(chars, minGap) == [] || depth > MAX_DEPTH
    ensures SplitColumns(chars, minGap, depth) == [chars]
    ensures CapHit(chars, minGap, depth) <==> GutterList(chars, minGap) != []
    ensures GutterList(chars, minGap) == [] ==> Sweep(chars, minGap) == [chars]
  {
    if |chars| == 1 {
      OneGlyph(chars, minGap);
    }
    var _ := WidestCutIs(chars, minGap);
  }

  lemma {:induction false} SweepUnfolds(chars: seq<Glyph>, minGap: real, left: seq<Glyph>, right: seq<Glyph>, k: nat)
    requires chars != [] && AllBoxed(chars) && IsStep(chars, minGap, k, left, right)
    ensures Sweep(chars, minGap) == Sweep(left, minGap) + Sweep(right, minGap)
  {
    GutterListLists(chars, minGap);
    SliceSplits(chars, GutterList(chars, minGap), k);
  }

  lemma {:induction false} StepCounts(chars: seq<Glyph>, minGap: real, depth: nat, left: seq<Glyph>, right: seq<Glyph>, k: nat)
    requires |chars| > 1 && depth <= MAX_DEPTH
    requires IsStep(chars, minGap, k, left, right)
    ensures |SplitColumns(chars, minGap, depth)|
         == |SplitColumns(left, minGap, depth + 1)| + |SplitColumns(right, minGap, depth + 1)|
    ensures |GutterList(chars, minGap)| == |GutterList(left, minGap)| + |GutterList(right, minGap)| + 1
    ensures CapHit(chars, minGap, depth) == (CapHit(left, minGap, depth + 1) || CapHit(right, minGap, depth + 1))
  {
    StepUnfolds(chars, minGap, depth, left, right, k);
  }

  lemma {:induction false} StepUnfolds(chars: seq<Glyph>, minGap: real, depth: nat, left: seq<Glyph>, right: seq<Glyph>, k: nat)
    requires |chars| > 1 && depth <= MAX_DEPTH
    requires IsStep(chars, minGap, k, left, right)
    ensures SplitColumns(chars, minGap, depth)
         == SplitColumns(left, minGap, depth + 1) + SplitColumns(right, minGap, depth + 1)
    ensures CapHit(chars, minGap, depth) == (CapHit(left, minGap, depth + 1) || CapHit(right, minGap, depth + 1))
  {
  }

  // ----- how deep the split must go

  function WidestIndex(gs: seq<Gutter>): (k: nat)
    requires gs != []
    ensures FirstWidest(gs, k)
  {
    if |gs| == 1 then 0 else
      var m := WidestIndex(gs[1..]);
      assert gs == [gs[0]] + gs[1..];
      if Width(gs[0]) >= Width(gs[1..][m]) then
        WidestHere(gs[0], gs[1..]);
        0
      else
        WidestLater(gs[0], gs[1..], m);
        m + 1
  }

  /** Height of the tree that halves a list of gutters at its first widest one. */
  function Height(gs: seq<Gutter>): nat
    decreases |gs|
  {
    if gs == [] then 0 else
      var k := WidestIndex(gs);
      var l, r := Height(gs[..k]), Height(gs[k + 1..]);
      1 + (if l >= r then l else r)
  }

  lemma MidsIncrease(gs: seq<Gutter>, i: nat, j: nat)
    requires Increasing(gs) && i < j < |gs|
    ensures Mid(gs[i]) < Mid(gs[j])
  {
    assert gs[i].hi <= gs[j].lo;
  }

  lemma {:induction false} SameCut(gs: seq<Gutter>, j: nat, k: nat)
    requires Increasing(gs) && FirstWidest(gs, j) && k < |gs| && Mid(gs[j]) == Mid(gs[k])
    ensures j == k == WidestIndex(gs)
  {
    if j < k {
      MidsIncrease(gs, j, k);
    } else if k < j {
      MidsIncrease(gs, k, j);
    }
  }

  /** Whether the depth limit stops a cut is a matter of the gutter widths alone. */
  lemma {:induction false} CapHitIff(chars: seq<Glyph>, minGap: real, depth: nat)
    requires chars != [] && AllBoxed(chars) && depth <= MAX_DEPTH + 1
    ensures CapHit(chars, minGap, depth) <==> Height(GutterList(chars, minGap)) > MAX_DEPTH + 1 - depth
    decreases MAX_DEPTH + 1 - depth
  {
    hide SplitColumns, CapHit, GutterList, Height;
    var gs := GutterList(chars, minGap);
    HeightUnfolds(gs);
    if |chars| == 1 {
      OneGlyph(chars, minGap);
    }
    if |chars| == 1 || gs == [] || depth > MAX_DEPTH {
      Unsplit(chars, minGap, depth);
    } else {
      var k, left, right := Halves(chars, minGap);
      StepUnfolds(chars, minGap, depth, left, right, k);
      var j := WidestCutIs(chars, minGap);
      GutterListLists(chars, minGap);
      SameCut(gs, j, k);
      CapHitIff(left, minGap, depth + 1);
      CapHitIff(right, minGap, depth + 1);
    }
  }

  lemma HeightUnfolds(gs: seq<Gutter>)
    ensures gs == [] <==> Height(gs) == 0
    ensures gs != [] ==>
      var k := WidestIndex(gs);
      Height(gs) == 1 + (if Height(gs[..k]) >= Height(gs[k + 1..]) then Height(gs[..k]) else Height(gs[k + 1..]))
  {
  }

  /** The split equals the sweep exactly when the gutters' halving tree has at most eleven levels. */
  lemma {:induction false} SplitIsSweepIffShallow(chars: seq<Glyph>, minGap: real)
    requires chars != [] && AllBoxed(chars)
    ensures SplitColumns(chars, minGap, 0) == Sweep(chars, minGap) <==> Height(GutterList(chars, minGap)) <= 11
  {
    SplitIsSweepIff(chars, minGap);
    CapHitIff(chars, minGap, 0);
  }

  ghost predicate Narrowing(gs: seq<Gutter>) {
    forall i, j :: 0 <= i < j < |gs| ==> Width(gs[i]) > Width(gs[j])
  }

  /** Gutters that narrow from left to right are cut off one at a time. */
  lemma {:induction false} NarrowingHeight(gs: seq<Gutter>)
    requires Narrowing(gs)
    ensures Height(gs) == |gs|
  {
    if gs != [] {
      assert WidestIndex(gs) == 0;
      assert gs[..0] == [];
      NarrowingHeight(gs[1..]);
    }
  }

  /** Position of the i-th of a row of thin glyphs whose distances shrink by one. */
  function Row(i: nat): real {
    if i == 0 then 0.0 else Row(i - 1) + (21 - i) as real
  }

  lemma {:induction false} RowRises(i: nat, j: nat)
    requires i < j <= 20
    ensures Row(i) < Row(j)
  {
    if i < j - 1 {
      RowRises(i, j - 1);
    }
  }

  function RowGlyph(i: nat): Glyph { Glyph(Row(i), 0.0, Row(i), 1.0, "x") }

  function RowGutter(i: nat): Gutter { Gutter(Row(i), Row(i + 1)) }

  function RowItems(): (items: seq<Glyph>)
    ensures |items| == 13
  {
    seq(13, i requires 0 <= i < 13 => RowGlyph(i))
  }

  function RowList(): (gs: seq<Gutter>)
    ensures |gs| == 12
  {
    seq(12, i requires 0 <= i < 12 => RowGutter(i))
  }

  lemma RowStep(i: nat)
    requires i < 20
    ensures Row(i + 1) - Row(i) == (20 - i) as real
  {
  }

  lemma {:induction false} RowGutterHolds(i: nat)
    requires i < 12
    ensures IsGutter(RowItems(), 8.0, RowGutter(i))
  {
    hide Row;
    var items := RowItems();
    RowStep(i);
    assert items[i] in items && items[i + 1] in items;
    forall c | c in items ensures c.x1 <= Row(i) || Row(i + 1) <= c.x0 {
      var k :| 0 <= k < 13 && items[k] == c;
      if k < i {
        RowRises(k, i);
      } else if k > i + 1 {
        RowRises(i + 1, k);
      }
    }
  }

  lemma {:induction false} RowGutterIs(g: Gutter) returns (i: nat)
    requires IsGutter(RowItems(), 8.0, g)
    ensures i < 12 && g == RowGutter(i)
  {
    hide Row;
    var items := RowItems();
    var a :| a in items && a.x1 == g.lo;
    var b :| b in items && b.x0 == g.hi;
    i :| 0 <= i < 13 && items[i] == a;
    var j :| 0 <= j < 13 && items[j] == b;
    if j < i {
      RowRises(j, i);
    }
    assert i < j;
    assert items[i + 1] in items;
    RowRises(i, i + 1);
    if i + 1 < j {
      RowRises(i + 1, j);
    }
  }

  lemma {:induction false} RowGutters()
    ensures AllBoxed(RowItems()) && GutterList(RowItems(), 8.0) == RowList() && Narrowing(RowList())
  {
    hide Row, IsGutter, GutterList;
    var items, gs := RowItems(), RowList();
    forall i | 0 <= i < 12 ensures Row(i + 1) - Row(i) == (20 - i) as real {
      RowStep(i);
    }
    forall i, j | 0 <= i < j < 13 ensures Row(i) < Row(j) {
      RowRises(i, j);
    }
    forall g ensures g in gs <==> IsGutter(items, 8.0, g) {
      if g in gs {
        var i :| 0 <= i < 12 && gs[i] == g;
        RowGutterHolds(i);
      }
      if IsGutter(items, 8.0, g) {
        var i := RowGutterIs(g);
        assert gs[i] == g;
      }
    }
    assert Increasing(gs) by {
      forall i, j | 0 <= i < j < 12 ensures gs[i].hi <= gs[j].lo {
        assert i + 1 < j ==> Row(i + 1) < Row(j);
      }
    }
    GutterListLists(items, 8.0);
    ListsUnique(GutterList(items, 8.0), gs);
  }

  /** Thirteen columns can be too many for the recursion: on a page 200 wide the last gutter of this row is never cut. */
  lemma {:induction false} CapCanBeHit()
    ensures var chars, scale, width := RowItems(), 1.0, 200.0;
      && chars != [] && AllBoxed(chars) && OnPage(chars, width)
      && PageColumns(chars, scale, width) != Sweep(chars, MinGap(scale, width))
  {
    RowOnPage();
    hide SplitColumns, Sweep, RowItems, RowList, GutterList, Height, OnPage;
    assert MinGap(1.0, 200.0) == 8.0;
    RowGutters();
    NarrowingHeight(GutterList(RowItems(), 8.0));
    SplitIsSweepIffShallow(RowItems(), 8.0);
  }

  lemma {:induction false} RowOnPage()
    ensures OnPage(RowItems(), 200.0)
  {
    forall g | g in RowItems() ensures 0.0 <= g.x0 <= 200.0 && g.x1 == g.x0 {
      var i :| 0 <= i < 13 && RowItems()[i] == g;
      RowWithin(i);
    }
  }

  lemma {:induction false} RowWithin(i: nat)
    requires i <= 12
    ensures 0.0 <= Row(i) <= 174.0
  {
    hide Row;
    RowSum(12);
    if i < 12 {
      RowRises(i, 12);
    }
    if i > 0 {
      RowSum(0);
      RowRises(0, i);
    }
    RowSum(0);
  }

  lemma {:induction false} RowSum(i: nat)
    requires i <= 20
    ensures 2.0 * Row(i) == (i * (41 - i)) as real
  {
    if i > 0 {
      RowSum(i - 1);
      assert i * (41 - i) == (i - 1) * (42 - i) + 2 * (21 - i);
    }
  }

  lemma {:induction false} OneGlyph(chars: seq<Glyph>, minGap: real)
    requires |chars| == 1
    ensures GutterList(chars, minGap) == []
  {
    SortFacts(chars, X0);
  }

  /** Up to twelve columns the depth limit cannot be reached. */
  lemma {:induction false} FewColumnsNoCap(chars: seq<Glyph>, minGap: real, depth: nat)
    requires chars != [] && AllBoxed(chars)
    requires depth <= MAX_DEPTH + 1
    requires |Sweep(chars, minGap)| + depth <= MAX_DEPTH + 2
    ensures !CapHit(chars, minGap, depth)
    decreases MAX_DEPTH + 1 - depth
  {
    if |chars| > 1 {
      if GutterList(chars, minGap) == [] {
        var _ := WidestCutIs(chars, minGap);
      } else {
        var k, left, right := Halves(chars, minGap);
        FewColumnsNoCap(left, minGap, depth + 1);
        FewColumnsNoCap(right, minGap, depth + 1);
      }
    }
  }

  /** A page of up to twelve columns is split as the sweep does. */
  lemma {:induction false} TwelveColumnsAreSafe(chars: seq<Glyph>, minGap: real)
    requires chars != [] && AllBoxed(chars) && |Sweep(chars, minGap)| <= 12
    ensures SplitColumns(chars, minGap, 0) == Sweep(chars, minGap)
  {
    FewColumnsNoCap(chars, minGap, 0);
    SplitRefinesSweep(chars, minGap, 0);
  }

  // ----- properties that hold with or without the depth limit

  /** The guard for an empty half is unreachable: a chosen cut always has glyphs on both sides. */
  lemma {:induction false} EmptyHalfNeverHappens(chars: seq<Glyph>, minGap: real)
    requires chars != [] && AllBoxed(chars)
    ensures var cut := WidestCut(chars, minGap);
      cut.Some? ==> Filter(chars, LeftOf(cut.value)) != [] && Filter(chars, RightOf(cut.value)) != []
  {
    if GutterList(chars, minGap) == [] {
      var _ := WidestCutIs(chars, minGap);
    } else {
      var _, _, _ := Halves(chars, minGap);
    }
  }

  /** `part` keeps every occurrence of each of its glyphs, in the order of `whole`. */
  ghost predicate Restriction(part: seq<Glyph>, whole: seq<Glyph>) {
    part == Filter(whole, (g: Glyph) => g in part)
  }

  lemma {:induction false} RestrictionThrough(part: seq<Glyph>, mid: seq<Glyph>, whole: seq<Glyph>, p: Glyph -> bool)
    requires mid == Filter(whole, p) && Restriction(part, mid)
    ensures Restriction(part, whole)
  {
    FilterIn(whole, p);
    FilterIn(mid, (g: Glyph) => g in part);
    FilterFilter(whole, p, (g: Glyph) => g in part, (g: Glyph) => g in part);
  }

  /** None lost, none duplicated, no empty column, and each column in input order. */
  ghost predicate Shares(cols: seq<seq<Glyph>>, chars: seq<Glyph>) {
    && cols != []
    && multiset(Flat(cols)) == multiset(chars)
    && (forall col :: col in cols ==> col != [] && Restriction(col, chars))
  }

  lemma {:induction false} SharesAppend(l: seq<seq<Glyph>>, r: seq<seq<Glyph>>, chars: seq<Glyph>, cut: real)
    requires Shares(l, Filter(chars, LeftOf(cut))) && Shares(r, Filter(chars, RightOf(cut)))
    ensures Shares(l + r, chars)
  {
    FlatAppend(l, r);
    FilterSplits(chars, LeftOf(cut), RightOf(cut));
    forall col | col in l + r ensures col != [] && Restriction(col, chars) {
      if col in l {
        RestrictionThrough(col, Filter(chars, LeftOf(cut)), chars, LeftOf(cut));
      } else {
        RestrictionThrough(col, Filter(chars, RightOf(cut)), chars, RightOf(cut));
      }
    }
  }

  lemma {:induction false} SharesSome(cols: seq<seq<Glyph>>, chars: seq<Glyph>)
    requires Shares(cols, chars)
    ensures cols != []
  {
  }

  lemma {:induction false} SharesWhole(chars: seq<Glyph>)
    requires chars != []
    ensures Shares([chars], chars)
  {
    assert [chars][1..] == [];
    FilterAll(chars, (g: Glyph) => g in chars);
  }

  /** The columns share out the glyphs of the page. */
  lemma {:induction false} ColumnsPartition(chars: seq<Glyph>, minGap: real, depth: nat)
    requires chars != []
    ensures Shares(SplitColumns(chars, minGap, depth), chars)
    decreases if depth <= MAX_DEPTH then MAX_DEPTH + 1 - depth else 0
  {
    hide Shares, WidestCut, Filter;
    if SplitColumns(chars, minGap, depth) == [chars] {
      SharesWhole(chars);
    } else {
      var cut := WidestCut(chars, minGap).value;
      var left, right := Filter(chars, LeftOf(cut)), Filter(chars, RightOf(cut));
      ColumnsPartition(left, minGap, depth + 1);
      ColumnsPartition(right, minGap, depth + 1);
      SharesAppend(SplitColumns(left, minGap, depth + 1), SplitColumns(right, minGap, depth + 1), chars, cut);
    }
  }

  /** Every glyph of an earlier column ends at least `minGap` before any glyph of a later one begins. */
  ghost predicate Apart(cols: seq<seq<Glyph>>, minGap: real) {
    forall i, j, a: Glyph, b: Glyph :: 0 <= i < j < |cols| && a in cols[i] && b in cols[j] ==> b.x0 - a.x1 >= minGap && a.x1 < b.x0
  }

  lemma {:induction false} ApartAppend(l: seq<seq<Glyph>>, r: seq<seq<Glyph>>, minGap: real, g: Gutter)
    requires Apart(l, minGap) && Apart(r, minGap)
    requires g.lo < g.hi && Width(g) >= minGap
    requires forall i, a: Glyph :: 0 <= i < |l| && a in l[i] ==> a.x1 <= g.lo
    requires forall i, a: Glyph :: 0 <= i < |r| && a in r[i] ==> g.hi <= a.x0
    ensures Apart(l + r, minGap)
  {
    var cols := l + r;
    forall i, j, a: Glyph, b: Glyph | 0 <= i < j < |cols| && a in cols[i] && b in cols[j]
      ensures b.x0 - a.x1 >= minGap && a.x1 < b.x0
    {
      if j < |l| {
        assert a in l[i] && b in l[j];
      } else if i < |l| {
        assert a in l[i] && b in r[j - |l|];
      } else {
        assert a in r[i - |l|] && b in r[j - |l|];
      }
    }
  }

  lemma {:induction false} ColumnGlyphs(chars: seq<Glyph>, minGap: real, depth: nat)
    requires chars != []
    ensures var cols := SplitColumns(chars, minGap, depth);
      forall i, a: Glyph :: 0 <= i < |cols| && a in cols[i] ==> a in chars
  {
    hide SplitColumns;
    ColumnsPartition(chars, minGap, depth);
    var cols := SplitColumns(chars, minGap, depth);
    forall i, a: Glyph | 0 <= i < |cols| && a in cols[i] ensures a in chars {
      assert cols[i] in cols;
      FilterIn(chars, (g: Glyph) => g in cols[i]);
    }
  }

  lemma {:induction false} OneColumnApart(chars: seq<Glyph>, minGap: real)
    ensures Apart([chars], minGap)
  {
  }

  lemma {:induction false} ColumnsApart(chars: seq<Glyph>, minGap: real, depth: nat)
    requires chars != [] && AllBoxed(chars)
    requires depth <= MAX_DEPTH + 1
    ensures Apart(SplitColumns(chars, minGap, depth), minGap)
    decreases MAX_DEPTH + 1 - depth
  {
    hide SplitColumns, Apart;
    if |chars| == 1 || GutterList(chars, minGap) == [] || depth > MAX_DEPTH {
      Unsplit(chars, minGap, depth);
      OneColumnApart(chars, minGap);
    } else {
      var k, left, right := Halves(chars, minGap);
      ColumnsApart(left, minGap, depth + 1);
      ColumnsApart(right, minGap, depth + 1);
      StepApart(chars, minGap, depth, left, right, k);
    }
  }

  lemma {:induction false} StepApart(chars: seq<Glyph>, minGap: real, depth: nat, left: seq<Glyph>, right: seq<Glyph>, k: nat)
    requires |chars| > 1 && depth <= MAX_DEPTH && AllBoxed(chars)
    requires IsStep(chars, minGap, k, left, right)
    requires Apart(SplitColumns(left, minGap, depth + 1), minGap)
    requires Apart(SplitColumns(right, minGap, depth + 1), minGap)
    ensures Apart(SplitColumns(chars, minGap, depth), minGap)
  {
    hide SplitColumns, Apart;
    var g := GutterList(chars, minGap)[k];
    GutterListLists(chars, minGap);
    assert g in GutterList(chars, minGap);
    CutSides(chars, minGap, g);
    ColumnGlyphs(left, minGap, depth + 1);
    ColumnGlyphs(right, minGap, depth + 1);
    StepUnfolds(chars, minGap, depth, left, right, k);
    ApartAppend(SplitColumns(left, minGap, depth + 1), SplitColumns(right, minGap, depth + 1), minGap, g);
  }

  // ----- the page-level call

  function MinGap(scale: real, width: real): real {
    Max(scale * 2.5, width * 0.04)
  }

  /** Glyphs that survive the off-page filter touch the page horizontally. */
  predicate OnPage(chars: seq<Glyph>, width: real) {
    forall g :: g in chars ==> g.x1 >= 0.0 && g.x0 <= width
  }

  /** The gap added up `n` times. */
  ghost function Times(n: nat, gap: real): real {
    if n == 0 then 0.0 else Times(n - 1, gap) + gap
  }

  lemma {:induction false} TimesIs(n: nat, gap: real)
    ensures Times(n, gap) == n as real * gap
  {
    if n > 0 {
      TimesIs(n - 1, gap);
      var m: real := (n - 1) as real;
      assert (m + 1.0) * gap == m * gap + gap;
    }
  }

  lemma {:induction false} Spread(cols: seq<seq<Glyph>>, minGap: real, i: nat, a: Glyph, b: Glyph)
    requires Apart(cols, minGap) && 1 <= i < |cols|
    requires forall c :: c in cols ==> c != [] && AllBoxed(c)
    requires a in cols[0] && b in cols[i]
    ensures b.x0 - a.x1 >= Times(i, minGap)
  {
    if i > 1 {
      assert cols[i - 1] in cols;
      var m := cols[i - 1][0];
      assert m in cols[i - 1] && Boxed(m);
      Spread(cols, minGap, i - 1, a, m);
    }
  }

  /** A page never splits into more than 26 columns, however many glyphs it has. */
  lemma {:induction false} AtMostTwentySixColumns(chars: seq<Glyph>, scale: real, width: real)
    requires chars != [] && AllBoxed(chars)
    requires width > 0.0 && OnPage(chars, width)
    ensures |PageColumns(chars, scale, width)| <= 26
  {
    hide SplitColumns;
    var minGap := MinGap(scale, width);
    var cols := SplitColumns(chars, minGap, 0);
    ColumnsPartition(chars, minGap, 0);
    ColumnsApart(chars, minGap, 0);
    ColumnGlyphs(chars, minGap, 0);
    assert 26.0 * minGap >= 1.04 * width;
    if |cols| > 26 {
      forall c | c in cols ensures AllBoxed(c) {
        var i :| 0 <= i < |cols| && cols[i] == c;
        assert forall g :: g in cols[i] ==> g in chars;
      }
      assert cols[0] in cols && cols[26] in cols;
      var a, b := cols[0][0], cols[26][0];
      assert a in cols[0] && b in cols[26];
      Spread(cols, minGap, 26, a, b);
      TimesIs(26, minGap);
      assert false;
    }
  }

  /** The columns of a page whose glyphs are `scale` high. */
  function PageColumns(chars: seq<Glyph>, scale: real, width: real): seq<seq<Glyph>> {
    SplitColumns(chars, MinGap(scale, width), 0)
  }

  /** A full-height strip at least 2.5 glyph heights and at least 4% of the page wide. */
  ghost predicate WideStrip(chars: seq<Glyph>, scale: real, width: real, g: Gutter) {
    IsGutter(chars, 2.5 * scale, g) && IsGutter(chars, 0.04 * width, g)
  }

  /** Some cut of the page is stopped by the depth limit. */
  predicate PageCapHit(chars: seq<Glyph>, scale: real, width: real) {
    CapHit(chars, MinGap(scale, width), 0)
  }

  lemma {:induction false} WideIsGutter(chars: seq<Glyph>, scale: real, width: real, g: Gutter)
    ensures WideStrip(chars, scale, width, g) <==> IsGutter(chars, MinGap(scale, width), g)
  {
  }

  /** Glyphs of different columns lie 2.5 glyph heights and 4% of the page apart. */
  lemma {:induction false} PageColumnsApart(chars: seq<Glyph>, scale: real, width: real, i: nat, j: nat, a: Glyph, b: Glyph)
    requires chars != [] && AllBoxed(chars) && i < j < |PageColumns(chars, scale, width)|
    requires a in PageColumns(chars, scale, width)[i] && b in PageColumns(chars, scale, width)[j]
    ensures b.x0 - a.x1 >= 2.5 * scale && b.x0 - a.x1 >= 0.04 * width
  {
    hide SplitColumns;
    ColumnsApart(chars, MinGap(scale, width), 0);
  }

  lemma {:induction false} SliceGlyphs(items: seq<Glyph>, gs: seq<Gutter>, col: seq<Glyph>, c: Glyph)
    requires col in Slice(items, gs) && c in col
    ensures c in items
    decreases gs
  {
    if gs != [] {
      FilterIn(items, LeftOf(Mid(gs[0])));
      FilterIn(items, RightOf(Mid(gs[0])));
      if col != Filter(items, LeftOf(Mid(gs[0]))) {
        SliceGlyphs(Filter(items, RightOf(Mid(gs[0]))), gs[1..], col, c);
      }
    }
  }

  /** The strip separates the first `n` columns from the others. */
  ghost predicate Separates(cols: seq<seq<Glyph>>, n: nat, g: Gutter) {
    && 0 < n < |cols|
    && (forall i, c: Glyph :: 0 <= i < n && c in cols[i] ==> c.x1 <= g.lo)
    && (forall i, c: Glyph :: n <= i < |cols| && c in cols[i] ==> g.hi <= c.x0)
  }

  lemma {:induction false} SliceSeparates(items: seq<Glyph>, minGap: real, gs: seq<Gutter>, k: nat)
    requires AllBoxed(items) && Increasing(gs) && k < |gs| && IsGutter(items, minGap, gs[k])
    ensures Separates(Slice(items, gs), k + 1, gs[k])
  {
    hide Slice, IsGutter, LeftOf, RightOf, Increasing, Filter, Mid, AllBoxed;
    var g := gs[k];
    var left, right := Filter(items, LeftOf(Mid(g))), Filter(items, RightOf(Mid(g)));
    var l, r := Slice(left, gs[..k]), Slice(right, gs[k + 1..]);
    SliceSplits(items, gs, k);
    CutSides(items, minGap, g);
    var cols := Slice(items, gs);
    forall i, c: Glyph | 0 <= i < k + 1 && c in cols[i] ensures c.x1 <= g.lo {
      assert cols[i] == l[i] && l[i] in l;
      SliceGlyphs(left, gs[..k], l[i], c);
    }
    forall i, c: Glyph | k + 1 <= i < |cols| && c in cols[i] ensures g.hi <= c.x0 {
      assert cols[i] == r[i - k - 1] && r[i - k - 1] in r;
      SliceGlyphs(right, gs[k + 1..], r[i - k - 1], c);
    }
  }

  /** When no cut is stopped, every strip that is wide enough is the boundary between two columns. */
  lemma {:induction false} WideStripsSeparate(chars: seq<Glyph>, scale: real, width: real, g: Gutter) returns (n: nat)
    requires chars != [] && AllBoxed(chars) && !PageCapHit(chars, scale, width)
    requires WideStrip(chars, scale, width, g)
    ensures Separates(PageColumns(chars, scale, width), n, g)
  {
    hide SplitColumns, CapHit, Slice, GutterList, IsGutter, Separates;
    var minGap := MinGap(scale, width);
    var gs := GutterList(chars, minGap);
    WideIsGutter(chars, scale, width, g);
    GutterListLists(chars, minGap);
    SplitRefinesSweep(chars, minGap, 0);
    assert g in gs;
    var k :| 0 <= k < |gs| && gs[k] == g;
    SliceSeparates(chars, minGap, gs, k);
    n := k + 1;
  }

  /** A page is one column exactly when it has no strip that is wide enough; the depth limit makes no difference to that. */
  lemma {:induction false} OneColumnIff(chars: seq<Glyph>, scale: real, width: real)
    requires chars != [] && AllBoxed(chars)
    ensures PageColumns(chars, scale, width) == [chars] <==> !exists g :: WideStrip(chars, scale, width, g)
  {
    var minGap := MinGap(scale, width);
    var gs := GutterList(chars, minGap);
    GutterListLists(chars, minGap);
    forall g ensures WideStrip(chars, scale, width, g) <==> g in gs {
      WideIsGutter(chars, scale, width, g);
    }
    hide SplitColumns, CapHit, GutterList, IsGutter;
    if gs == [] {
      Unsplit(chars, minGap, 0);
    } else {
      assert gs[0] in gs;
      assert WideStrip(chars, scale, width, gs[0]);
      if |chars| == 1 {
        OneGlyph(chars, minGap);
      }
      var k, left, right := Halves(chars, minGap);
      StepUnfolds(chars, minGap, 0, left, right, k);
      SomeColumn(left, minGap, 1);
      SomeColumn(right, minGap, 1);
    }
  }

  lemma {:induction false} SomeColumn(chars: seq<Glyph>, minGap: real, depth: nat)
    requires chars != []
    ensures |SplitColumns(chars, minGap, depth)| >= 1
  {
    ColumnsPartition(chars, minGap, depth);
    SharesSome(SplitColumns(chars, minGap, depth), chars);
    hide SplitColumns;
  }
}
