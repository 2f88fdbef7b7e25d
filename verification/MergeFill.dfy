/** Filling merged worksheet cells, in place, with the original value of the top-left cell. */
module MergeFill {
  import opened Options

  datatype Pos = Pos(row: int, col: int)

  /** An inclusive block of cells. */
  datatype Range = Range(top: int, left: int, bottom: int, right: int)

  /** Cells that exist and their values; an existing cell may be empty. */
  type Cells = map<Pos, Option<string>>

  predicate Covers(r: Range, p: Pos) {
    r.top <= p.row <= r.bottom && r.left <= p.col <= r.right
  }

  predicate WellFormed(r: Range) {
    r.top <= r.bottom && r.left <= r.right
  }

  function Corner(r: Range): Pos { Pos(r.top, r.left) }

  function Block(r: Range): set<Pos> {
    set i, j | r.top <= i <= r.bottom && r.left <= j <= r.right :: Pos(i, j)
  }

  function ValueAt(cells: Cells, p: Pos): Option<string> {
    if p in cells then cells[p] else None
  }

  function Painted(cells: Cells, block: set<Pos>, v: Option<string>): Cells {
    cells + map p | p in block :: v
  }

  /** Every cell of the block holds the value its corner had. */
  function FillRange(cells: Cells, r: Range): Cells {
    Painted(cells, Block(r), ValueAt(cells, Corner(r)))
  }

  /** The ranges filled one after the other. */
  function Filled(cells: Cells, order: seq<Range>): Cells
    decreases order
  {
    if order == [] then cells else Filled(FillRange(cells, order[0]), order[1..])
  }

  /** The sequence lists the ranges, each once. */
  ghost predicate Orders(order: seq<Range>, ranges: set<Range>) {
    && (forall r :: r in order <==> r in ranges)
    && forall i, j :: 0 <= i < j < |order| ==> order[i] != order[j]
  }

  predicate Disjoint(r: Range, q: Range) {
    forall p | p in Block(r) :: p !in Block(q)
  }

  ghost predicate PairwiseDisjoint(ranges: set<Range>) {
    && (forall r :: r in ranges ==> WellFormed(r))
    && forall r, q :: r in ranges && q in ranges && r != q ==> Disjoint(r, q)
  }

  // ----- the worksheet

  class Worksheet {
    var cells: Cells
    var merged: set<Range>

    constructor (cells: Cells, merged: set<Range>)
      ensures this.cells == cells && this.merged == merged
    {
      this.cells, this.merged := cells, merged;
    }

    /** `ws.cell(row, col)`: the cell exists afterwards. */
    method Touch(p: Pos) returns (v: Option<string>)
      modifies this`cells
      ensures v == ValueAt(old(cells), p)
      ensures cells == old(cells)[p := v]
    {
      if p !in cells {
        cells := cells[p := None];
      }
      v := cells[p];
    }

    /** The range is forgotten and its cells dropped, except the first. */
    method Unmerge(r: Range)
      modifies this
      ensures merged == old(merged) - {r}
      ensures cells == old(cells) - (Block(r) - {Corner(r)})
    {
      merged := merged - {r};
      cells := cells - (Block(r) - {Corner(r)});
    }

    method FillMerged(r: Range)
      requires WellFormed(r)
      modifies this
      ensures merged == old(merged) - {r}
      ensures cells == FillRange(old(cells), r)
    {
      hide FillRange, Painted, Block;
      ghost var before := cells;
      var master := Touch(Corner(r));
      Unmerge(r);
      ghost var bare := cells;
      ghost var done: set<Pos> := {};
      PaintNone(bare, master);
      for row := r.top to r.bottom + 1
        invariant merged == old(merged) - {r}
        invariant cells == Painted(bare, done, master)
        invariant forall p :: p in done <==> Covers(r, p) && p.row < row
      {
        for col := r.left to r.right + 1
          invariant merged == old(merged) - {r}
          invariant cells == Painted(bare, done, master)
          invariant forall p :: p in done <==> Covers(r, p) && (p.row < row || (p.row == row && p.col < col))
        {
          PaintOne(bare, done, master, Pos(row, col));
          cells := cells[Pos(row, col) := master];
          done := done + {Pos(row, col)};
        }
      }
      forall p ensures p in done <==> p in Block(r) {
        BlockCovers(r, p);
      }
      assert done == Block(r);
      Repainted(before, r, master);
    }

    /** All merged ranges of the sheet, in whatever order the set yields them. */
    method FillMergedCells() returns (changed: bool)
      requires forall r :: r in merged ==> WellFormed(r)
      modifies this
      ensures changed == (old(merged) != {})
      ensures merged == {}
      ensures exists order :: Orders(order, old(merged)) && cells == Filled(old(cells), order)
      ensures PairwiseDisjoint(old(merged)) ==> SheetFilled(old(cells), old(merged), cells)
    {
      changed := false;
      ghost var order: seq<Range> := [];
      var ranges := merged;
      while ranges != {}
        invariant ranges == merged <= old(merged)
        invariant Orders(order, old(merged) - ranges)
        invariant cells == Filled(old(cells), order)
        invariant changed == (order != [])
        decreases ranges
      {
        var r :| r in ranges;
        FilledSnoc(old(cells), order, r);
        FillMerged(r);
        ranges := ranges - {r};
        order := order + [r];
        changed := true;
      }
      assert old(merged) - {} == old(merged);
      if order == [] {
        assert forall r :: r in old(merged) ==> r in order;
      } else {
        assert order[0] in order;
      }
      if PairwiseDisjoint(old(merged)) {
        FilledSheet(old(cells), old(merged), order);
      }
    }
  }

  // ----- what filling achieves

  /** Covered cells hold the original corner value of their range, all others what they held. */
  ghost predicate SheetFilled(before: Cells, ranges: set<Range>, after: Cells) {
    && (forall r, p :: r in ranges && Covers(r, p) ==> p in after && after[p] == ValueAt(before, Corner(r)))
    && (forall p :: (forall r :: r in ranges ==> !Covers(r, p)) ==> (p in after <==> p in before) && ValueAt(after, p) == ValueAt(before, p))
  }

  lemma BlockCovers(r: Range, p: Pos)
    ensures p in Block(r) <==> Covers(r, p)
  {
  }

  lemma {:induction false} PaintNone(cells: Cells, v: Option<string>)
    ensures Painted(cells, {}, v) == cells
  {
  }

  lemma {:induction false} PaintOne(cells: Cells, block: set<Pos>, v: Option<string>, p: Pos)
    ensures Painted(cells, block, v)[p := v] == Painted(cells, block + {p}, v)
  {
  }

  /** Dropping the covered cells first makes no difference to the painted block. */
  lemma {:induction false} Repainted(cells: Cells, r: Range, v: Option<string>)
    requires WellFormed(r) && v == ValueAt(cells, Corner(r))
    ensures Painted(cells[Corner(r) := v] - (Block(r) - {Corner(r)}), Block(r), v) == FillRange(cells, r)
  {
    BlockCovers(r, Corner(r));
  }

  lemma {:induction false} FilledSnoc(cells: Cells, order: seq<Range>, r: Range)
    ensures Filled(cells, order + [r]) == FillRange(Filled(cells, order), r)
    decreases order
  {
    if order == [] {
      assert ([r])[1..] == [];
      assert [] + [r] == [r];
    } else {
      FilledSnoc(FillRange(cells, order[0]), order[1..], r);
      assert (order + [r])[1..] == order[1..] + [r];
    }
  }

  ghost predicate AllApart(order: seq<Range>) {
    && (forall r :: r in order ==> WellFormed(r))
    && forall i, j :: 0 <= i < j < |order| ==> forall p :: !(Covers(order[i], p) && Covers(order[j], p))
  }

  lemma {:induction false} OrderedApart(order: seq<Range>, ranges: set<Range>)
    requires Orders(order, ranges) && PairwiseDisjoint(ranges)
    ensures AllApart(order)
  {
    forall i, j, p | 0 <= i < j < |order|
      ensures !(Covers(order[i], p) && Covers(order[j], p))
    {
      assert order[i] in ranges && order[j] in ranges;
      BlockCovers(order[i], p);
      BlockCovers(order[j], p);
    }
  }

  lemma {:induction false} FillRangeAt(cells: Cells, r: Range, p: Pos)
    ensures Covers(r, p) ==> p in FillRange(cells, r) && FillRange(cells, r)[p] == ValueAt(cells, Corner(r))
    ensures !Covers(r, p) ==>
      (p in FillRange(cells, r) <==> p in cells) && ValueAt(FillRange(cells, r), p) == ValueAt(cells, p)
  {
    BlockCovers(r, p);
  }

  lemma {:induction false} CornerApart(order: seq<Range>, k: nat)
    requires AllApart(order) && 0 < k < |order|
    ensures !Covers(order[0], Corner(order[k]))
  {
    var r, c := order[k], Corner(order[k]);
    assert r in order;
    assert Covers(r, c);
  }

  lemma {:induction false} FilledAt(cells: Cells, order: seq<Range>, p: Pos)
    requires AllApart(order)
    ensures forall k :: 0 <= k < |order| && Covers(order[k], p) ==>
      p in Filled(cells, order) && Filled(cells, order)[p] == ValueAt(cells, Corner(order[k]))
    ensures (forall k :: 0 <= k < |order| ==> !Covers(order[k], p)) ==>
      (p in Filled(cells, order) <==> p in cells) && ValueAt(Filled(cells, order), p) == ValueAt(cells, p)
    decreases order
  {
    if order != [] {
      hide FillRange, ValueAt;
      var r, rest := order[0], order[1..];
      var next := FillRange(cells, r);
      FillRangeAt(cells, r, p);
      assert forall k :: 0 < k < |order| ==> order[k] == rest[k - 1];
      FilledAt(next, rest, p);
      forall k | 0 < k < |order| ensures ValueAt(next, Corner(order[k])) == ValueAt(cells, Corner(order[k])) {
        CornerApart(order, k);
        FillRangeAt(cells, r, Corner(order[k]));
      }
    }
  }

  lemma {:induction false} FilledSheet(cells: Cells, ranges: set<Range>, order: seq<Range>)
    requires Orders(order, ranges) && PairwiseDisjoint(ranges)
    ensures SheetFilled(cells, ranges, Filled(cells, order))
  {
    OrderedApart(order, ranges);
    forall r, p | r in ranges && Covers(r, p)
      ensures p in Filled(cells, order) && Filled(cells, order)[p] == ValueAt(cells, Corner(r))
    {
      FilledAt(cells, order, p);
      assert r in order;
    }
    forall p | forall r :: r in ranges ==> !Covers(r, p)
      ensures (p in Filled(cells, order) <==> p in cells) && ValueAt(Filled(cells, order), p) == ValueAt(cells, p)
    {
      FilledAt(cells, order, p);
    }
  }

  lemma {:induction false} FilledUnique(cells: Cells, ranges: set<Range>, a: Cells, b: Cells)
    requires SheetFilled(cells, ranges, a) && SheetFilled(cells, ranges, b)
    ensures a == b
  {
    forall p
      ensures p in a <==> p in b
      ensures p in a ==> a[p] == b[p]
    {
      if forall r :: r in ranges ==> !Covers(r, p) {
        assert ValueAt(a, p) == ValueAt(b, p);
      }
    }
  }

  /** The order in which the set of ranges is visited does not matter. */
  lemma {:induction false} OrderIrrelevant(cells: Cells, ranges: set<Range>, one: seq<Range>, other: seq<Range>)
    requires Orders(one, ranges) && Orders(other, ranges) && PairwiseDisjoint(ranges)
    ensures Filled(cells, one) == Filled(cells, other)
  {
    hide Filled;
    FilledSheet(cells, ranges, one);
    FilledSheet(cells, ranges, other);
    FilledUnique(cells, ranges, Filled(cells, one), Filled(cells, other));
  }

  /** Filling the same ranges again, in any order, changes nothing. */
  lemma {:induction false} FillTwice(cells: Cells, ranges: set<Range>, one: seq<Range>, other: seq<Range>)
    requires Orders(one, ranges) && Orders(other, ranges) && PairwiseDisjoint(ranges)
    ensures Filled(Filled(cells, one), other) == Filled(cells, one)
  {
    hide Filled;
    var once := Filled(cells, one);
    FilledSheet(cells, ranges, one);
    FilledSheet(once, ranges, other);
    forall r | r in ranges ensures ValueAt(once, Corner(r)) == ValueAt(cells, Corner(r)) {
      assert Covers(r, Corner(r));
    }
    assert SheetFilled(once, ranges, once);
    FilledUnique(once, ranges, once, Filled(once, other));
  }

  /** Two overlapping ranges can be visited in an order that matters. */
  lemma {:induction false} OverlapDependsOnOrder()
    ensures exists cells, r, q :: WellFormed(r) && WellFormed(q) && Filled(cells, [r, q]) != Filled(cells, [q, r])
  {
    hide FillRange;
    var r, q := Range(1, 1, 1, 2), Range(1, 2, 1, 3);
    var cells: Cells := map[Pos(1, 1) := Some("a"), Pos(1, 2) := Some("b")];
    var a, b := FillRange(cells, r), FillRange(cells, q);
    FillRangeAt(cells, r, Pos(1, 2));
    FillRangeAt(a, q, Pos(1, 3));
    FillRangeAt(cells, q, Pos(1, 3));
    FillRangeAt(b, r, Pos(1, 3));
    TwoRanges(cells, r, q);
    TwoRanges(cells, q, r);
    assert ValueAt(Filled(cells, [r, q]), Pos(1, 3)) == Some("a");
    assert ValueAt(Filled(cells, [q, r]), Pos(1, 3)) == Some("b");
  }

  lemma TwoRanges(cells: Cells, r: Range, q: Range)
    ensures Filled(cells, [r, q]) == FillRange(FillRange(cells, r), q)
  {
    assert [r, q][1..] == [q] && [q][1..] == [];
    assert Filled(FillRange(cells, r), [q]) == FillRange(FillRange(cells, r), q);
  }
}
