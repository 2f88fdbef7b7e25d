/** Rows of a workbook as text, and the numbered chunks with offsets that index this text, sheet by sheet. */
module SheetChunks {
  import opened Options
  import opened Seqs
  import opened Text

  /** A cell with its printed value, absent when it is empty; image formulas are not shown. */
  datatype Cell = Cell(column: string, value: Option<string>, image: bool)

  datatype Chunk = Chunk(content: string, seqNo: nat, start: nat, end: nat)

  function Pairs(row: seq<Cell>): seq<string> {
    if row == [] then []
    else
      var c := row[0];
      (if c.value.Some? && !c.image then [c.column + ": " + c.value.value] else []) + Pairs(row[1..])
  }

  /** The text of the rows that show anything, in order. */
  function RowTexts(rows: seq<seq<Cell>>): seq<string> {
    if rows == [] then []
    else
      var n := |rows| - 1;
      RowTexts(rows[..n]) + (if Pairs(rows[n]) == [] then [] else [Join(",", Pairs(rows[n])) + "\n"])
  }

  /** Where the first k chunks end. */
  function EndOf(chunks: seq<Chunk>, k: nat): nat
    requires k <= |chunks|
  {
    if k == 0 then 0 else chunks[k - 1].end
  }

  predicate TileAt(chunks: seq<Chunk>, text: string, k: nat)
    requires k < |chunks|
  {
    && chunks[k].seqNo == k
    && chunks[k].start == EndOf(chunks, k)
    && chunks[k].start < chunks[k].end <= |text|
    && text[chunks[k].start..chunks[k].end] == chunks[k].content
  }

  /** The chunks cut the text into consecutive pieces, numbered from zero, without gap or overlap. */
  predicate Tiles(chunks: seq<Chunk>, text: string) {
    && (forall k :: 0 <= k < |chunks| ==> TileAt(chunks, text, k))
    && |text| == EndOf(chunks, |chunks|)
  }

  function Contents(chunks: seq<Chunk>): seq<string> {
    seq(|chunks|, k requires 0 <= k < |chunks| => chunks[k].content)
  }

  method ParseRows(sheets: seq<seq<seq<Cell>>>) returns (content: string, chunks: seq<Chunk>)
    ensures Tiles(chunks, content)
    ensures Contents(chunks) == RowTexts(Flat(sheets))
  {
    hide Tiles, RowTexts, Pairs, Join, Flat, Contents;
    content, chunks := "", [];
    var start, end := 0, 0;
    NoRows();
    for i := 0 to |sheets|
      invariant Tiles(chunks, content) && start == end == |content|
      invariant Contents(chunks) == RowTexts(Flat(sheets[..i]))
    {
      var sheet := sheets[i];
      ghost var above := Flat(sheets[..i]);
      assert above + sheet[..0] == above;
      for j := 0 to |sheet|
        invariant Tiles(chunks, content) && start == end == |content|
        invariant Contents(chunks) == RowTexts(above + sheet[..j])
      {
        RowAdded(above + sheet[..j], sheet[j]);
        assert above + sheet[..j + 1] == above + sheet[..j] + [sheet[j]];
        var page := Pairs(sheet[j]);
        if page == [] {
          continue;
        }
        var row := Join(",", page) + "\n";
        end := end + |row|;
        TilesMore(chunks, content, row);
        content := content + row;
        chunks := chunks + [Chunk(row, |chunks|, start, end)];
        start := end;
      }
      assert sheet[..|sheet|] == sheet;
      SheetAdded(sheets[..i], sheet);
      assert sheets[..i + 1] == sheets[..i] + [sheet];
    }
    assert sheets[..|sheets|] == sheets;
  }

  lemma NoRows()
    ensures Tiles([], "") && Contents([]) == RowTexts(Flat([]))
  {
  }

  lemma {:induction false} SheetAdded(sheets: seq<seq<seq<Cell>>>, sheet: seq<seq<Cell>>)
    ensures Flat(sheets + [sheet]) == Flat(sheets) + sheet
  {
    FlatAppend(sheets, [sheet]);
    assert [sheet][1..] == [];
    assert Flat([sheet]) == sheet;
  }

  lemma {:induction false} RowAdded(rows: seq<seq<Cell>>, row: seq<Cell>)
    ensures RowTexts(rows + [row]) ==
      RowTexts(rows) + (if Pairs(row) == [] then [] else [Join(",", Pairs(row)) + "\n"])
  {
    assert (rows + [row])[..|rows|] == rows;
  }

  lemma {:induction false} TilesMore(chunks: seq<Chunk>, text: string, row: string)
    requires Tiles(chunks, text) && row != ""
    ensures var all := chunks + [Chunk(row, |chunks|, |text|, |text| + |row|)];
      Tiles(all, text + row) && Contents(all) == Contents(chunks) + [row]
  {
    var all := chunks + [Chunk(row, |chunks|, |text|, |text| + |row|)];
    forall k | 0 <= k < |all| ensures TileAt(all, text + row, k) {
      if k < |chunks| {
        hide EndOf;
        TileGrows(chunks, all, text, row, k);
      }
    }
  }

  lemma {:induction false} TileGrows(chunks: seq<Chunk>, all: seq<Chunk>, text: string, row: string, k: nat)
    requires k < |chunks| && chunks <= all && TileAt(chunks, text, k)
    ensures TileAt(all, text + row, k)
  {
    assert all[k] == chunks[k];
    assert EndOf(all, k) == EndOf(chunks, k);
    assert (text + row)[chunks[k].start..chunks[k].end] == text[chunks[k].start..chunks[k].end];
  }

  /** Joining the chunk texts gives the document back. */
  lemma {:induction false} ChunksRebuild(chunks: seq<Chunk>, text: string)
    requires Tiles(chunks, text)
    ensures Flat(Contents(chunks)) == text
  {
    if chunks != [] {
      var n := |chunks| - 1;
      var last := chunks[n];
      assert TileAt(chunks, text, n);
      var before := text[..last.start];
      TilesLess(chunks, text);
      ChunksRebuild(chunks[..n], before);
      assert Contents(chunks) == Contents(chunks[..n]) + [last.content];
      FlatAppend(Contents(chunks[..n]), [last.content]);
      assert [last.content][1..] == [];
      assert Flat([last.content]) == last.content;
      assert text == before + last.content;
    }
  }

  lemma {:induction false} TilesLess(chunks: seq<Chunk>, text: string)
    requires Tiles(chunks, text) && chunks != []
    ensures var n := |chunks| - 1;
      TileAt(chunks, text, n) && Tiles(chunks[..n], text[..chunks[n].start])
  {
    var n := |chunks| - 1;
    assert TileAt(chunks, text, n);
    assert EndOf(chunks, n) == EndOf(chunks[..n], n);
    forall k | 0 <= k < n ensures TileAt(chunks[..n], text[..chunks[n].start], k) {
      EndsAscend(chunks, text, k + 1, n);
      assert TileAt(chunks, text, k);
      assert EndOf(chunks[..n], k) == EndOf(chunks, k);
      assert text[..chunks[n].start][chunks[k].start..chunks[k].end] == text[chunks[k].start..chunks[k].end];
    }
  }

  lemma {:induction false} EndsAscend(chunks: seq<Chunk>, text: string, j: nat, k: nat)
    requires Tiles(chunks, text) && j <= k <= |chunks|
    ensures EndOf(chunks, j) <= EndOf(chunks, k)
    decreases k
  {
    if j < k {
      assert TileAt(chunks, text, k - 1);
      EndsAscend(chunks, text, j, k - 1);
    }
  }

  // ----- what a chunk shows

  predicate Shown(c: Cell) { c.value.Some? && !c.image }

  ghost predicate ShowsAny(row: seq<Cell>) {
    exists c :: c in row && Shown(c)
  }

  /** The strings are the shown cells of the row, in order, each its column, a colon, a space and its value. */
  ghost predicate AreCells(parts: seq<string>, row: seq<Cell>) {
    var cells := Filter(row, Shown);
    && |parts| == |cells|
    && forall k :: 0 <= k < |parts| ==> cells[k].value.Some? && parts[k] == cells[k].column + ": " + cells[k].value.value
  }

  lemma {:induction false} PairsAreCells(row: seq<Cell>)
    ensures AreCells(Pairs(row), row)
    ensures Pairs(row) != [] <==> ShowsAny(row)
  {
    FilterIn(row, Shown);
    CellsFrom(row);
    if c :| c in row && Shown(c) {
      assert c in Filter(row, Shown);
    } else if Pairs(row) != [] {
      assert Filter(row, Shown)[0] in Filter(row, Shown);
    }
  }

  lemma {:induction false} CellsFrom(row: seq<Cell>)
    ensures AreCells(Pairs(row), row)
  {
    if row != [] {
      CellsFrom(row[1..]);
      assert Filter(row, Shown) == (if Shown(row[0]) then [row[0]] else []) + Filter(row[1..], Shown);
    }
  }

  ghost predicate CommaFree(row: seq<Cell>) {
    forall c :: c in row ==> ',' !in c.column && (c.value.Some? ==> ',' !in c.value.value)
  }

  /** One row shows as one line; where no cell holds a comma, splitting the line at commas gives its cells back. */
  lemma RowReadsBack(row: seq<Cell>)
    requires ShowsAny(row)
    ensures var line := Join(",", Pairs(row)) + "\n";
      CommaFree(row) ==> AreCells(Split(line[..|line| - 1], ','), row)
  {
    PairsAreCells(row);
    var text, line := Join(",", Pairs(row)), Join(",", Pairs(row)) + "\n";
    assert line[..|line| - 1] == text;
    if CommaFree(row) {
      FilterIn(row, Shown);
      forall k | 0 <= k < |Pairs(row)| ensures ',' !in Pairs(row)[k] {
        assert Filter(row, Shown)[k] in Filter(row, Shown);
      }
      SplitJoin(Pairs(row), ',');
      assert [','] == ",";
    }
  }

  lemma {:induction false} ShowingRows(rows: seq<seq<Cell>>)
    ensures var showing := Filter(rows, (row: seq<Cell>) => Pairs(row) != []);
      && |RowTexts(rows)| == |showing|
      && forall k :: 0 <= k < |showing| ==> RowTexts(rows)[k] == Join(",", Pairs(showing[k])) + "\n"
  {
    hide Pairs, Join;
    if rows != [] {
      var n := |rows| - 1;
      var p := (row: seq<Cell>) => Pairs(row) != [];
      ShowingRows(rows[..n]);
      assert rows == rows[..n] + [rows[n]] && [rows[n]][1..] == [];
      FilterAppend(rows[..n], [rows[n]], p);
    }
  }

  /** The chunks are the rows that show a cell, in order, one line each, in which the shown cells can be read back. */
  lemma {:induction false} RowsReadBack(rows: seq<seq<Cell>>, k: nat)
    requires forall row :: row in rows ==> CommaFree(row)
    ensures var showing := Filter(rows, (row: seq<Cell>) => ShowsAny(row));
      && |RowTexts(rows)| == |showing|
      && (k < |showing| ==>
            var line := RowTexts(rows)[k];
            line != "" && line[|line| - 1] == '\n' && AreCells(Split(line[..|line| - 1], ','), showing[k]))
  {
    ShowingRows(rows);
    forall row ensures Pairs(row) != [] <==> ShowsAny(row) {
      PairsAreCells(row);
    }
    var p, q := (row: seq<Cell>) => Pairs(row) != [], (row: seq<Cell>) => ShowsAny(row);
    FilterSame(rows, p, q);
    FilterIn(rows, p);
    hide Pairs, ShowsAny, AreCells, CommaFree, RowTexts, Join, Split, Filter;
    var showing := Filter(rows, p);
    if k < |showing| {
      assert showing[k] in showing;
      RowReadsBack(showing[k]);
    }
  }
}
