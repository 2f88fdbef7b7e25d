/** Markdown table rows: splitting, printing, and repair of table blocks. */
module MarkdownTables {
  import opened Seqs
  import opened Text

  // ----- one row

  function StripAll(parts: seq<string>): seq<string> {
    if parts == [] then [] else [Strip(parts[0])] + StripAll(parts[1..])
  }

  /** Parts between pipes without a blank first and a blank last part. */
  function Inside(parts: seq<string>): seq<string> {
    var tail := if parts != [] && Strip(parts[0]) == "" then parts[1..] else parts;
    if tail != [] && Strip(tail[|tail| - 1]) == "" then tail[..|tail| - 1] else tail
  }

  function SplitRowCells(row: string): seq<string> {
    var inner := Strip(row);
    if inner == "" || inner[0] != '|' then [] else StripAll(Inside(Split(inner, '|')))
  }

  predicate IsTableRow(line: string) {
    var s := Strip(line);
    s != "" && s[0] == '|' && '|' in s[1..]
  }

  predicate AllDashes(s: string) {
    forall k :: 0 <= k < |s| ==> s[k] == '-'
  }

  /** `:?-{3,}:?` */
  predicate SeparatorCell(cell: string) {
    var a := if cell != "" && cell[0] == ':' then cell[1..] else cell;
    var b := if a != "" && a[|a| - 1] == ':' then a[..|a| - 1] else a;
    |b| >= 3 && AllDashes(b)
  }

  predicate IsSeparatorRow(line: string) {
    var cells := SplitRowCells(line);
    cells != [] && forall k :: 0 <= k < |cells| ==> SeparatorCell(cells[k])
  }

  predicate IsEmptyRow(line: string) {
    var cells := SplitRowCells(line);
    cells != [] && forall k :: 0 <= k < |cells| ==> cells[k] == ""
  }

  function PrintRow(cells: seq<string>): string {
    "| " + Join(" | ", cells) + " |"
  }

  function Dashes(n: nat): (cells: seq<string>)
    ensures |cells| == n && forall k :: 0 <= k < n ==> cells[k] == "---"
  {
    seq(n, i requires 0 <= i < n => "---")
  }

  function SeparatorRowFor(header: string): string {
    PrintRow(Dashes(|SplitRowCells(header)|))
  }

  /** A content row carries data. */
  predicate ContentRow(line: string) {
    !IsEmptyRow(line) && !IsSeparatorRow(line)
  }

  // ----- printing and splitting undo each other

  /** A cell as the splitter returns it. */
  predicate CleanCell(c: string) {
    Strip(c) == c && '|' !in c
  }

  predicate CleanCells(cells: seq<string>) {
    forall k :: 0 <= k < |cells| ==> CleanCell(cells[k])
  }

  function Padded(cells: seq<string>): seq<string> {
    if cells == [] then [] else [" " + cells[0] + " "] + Padded(cells[1..])
  }

  lemma {:induction false} PaddedJoin(cells: seq<string>)
    requires cells != []
    ensures Padded(cells) != [] && Join("|", Padded(cells)) == " " + Join(" | ", cells) + " "
  {
    var c := " " + cells[0] + " ";
    if |cells| == 1 {
      assert Padded(cells) == [c];
    } else {
      var rest, tail := Padded(cells[1..]), Join(" | ", cells[1..]);
      PaddedJoin(cells[1..]);
      hide Join;
      assert Join("|", [c]) == c && Join(" | ", [cells[0]]) == cells[0] by { JoinOne(c, cells[0]); }
      JoinAppend("|", [c], rest);
      JoinAppend(" | ", [cells[0]], cells[1..]);
      assert cells == [cells[0]] + cells[1..];
      assert c + "|" + (" " + tail + " ") == " " + (cells[0] + " | " + tail) + " ";
    }
  }

  lemma {:induction false} JoinOne(c: string, d: string)
    ensures Join("|", [c]) == c && Join(" | ", [d]) == d
  {
  }

  /** A printed row is its padded cells between pipes. */
  lemma {:induction false} PrintIsJoin(cells: seq<string>)
    requires cells != []
    ensures PrintRow(cells) == Join("|", [""] + Padded(cells) + [""])
  {
    PaddedJoin(cells);
    JoinAppend("|", [""] + Padded(cells), [""]);
    JoinAppend("|", [""], Padded(cells));
    assert Join("|", [""]) == "";
    var mid := Join(" | ", cells);
    assert "" + "|" + (" " + mid + " ") + "|" + "" == "| " + mid + " |";
  }

  lemma {:induction false} PaddedFacts(cells: seq<string>)
    requires CleanCells(cells)
    ensures |Padded(cells)| == |cells|
    ensures forall k :: 0 <= k < |cells| ==> '|' !in Padded(cells)[k]
    ensures StripAll(Padded(cells)) == cells
  {
    if cells != [] {
      assert CleanCell(cells[0]);
      PaddedFacts(cells[1..]);
      StripPadded(cells[0]);
      assert Padded(cells)[1..] == Padded(cells[1..]);
      hide Strip;
    }
  }

  lemma {:induction false} StripPadded(c: string)
    requires Strip(c) == c
    ensures Strip(" " + c + " ") == c
  {
    StripEnds(c, IsSpace);
    LStripSpace(c + " ");
    assert " " + c + " " == " " + (c + " ");
    if c == "" {
      assert c + " " == " ";
      LStripSpace("");
    } else {
      assert (c + " ")[0] == c[0];
      assert (c + " ")[..|c|] == c;
    }
  }

  lemma {:induction false} LStripSpace(t: string)
    ensures LStripBy(" " + t, IsSpace) == LStripBy(t, IsSpace)
  {
    assert (" " + t)[1..] == t;
  }

  /** Splitting a printed row gives back its cells. */
  lemma {:induction false} PrintThenSplit(cells: seq<string>)
    requires cells != [] && CleanCells(cells)
    ensures SplitRowCells(PrintRow(cells)) == cells
  {
    var row, mid := PrintRow(cells), Padded(cells);
    PaddedFacts(cells);
    PrintIsJoin(cells);
    var parts := [""] + mid + [""];
    forall k | 0 <= k < |parts| ensures '|' !in parts[k] {
      if 0 < k < |parts| - 1 {
        assert parts[k] == mid[k - 1];
      }
    }
    SplitJoin(parts, '|');
    InsideTrims(mid);
  }

  lemma {:induction false} InsideTrims(mid: seq<string>)
    ensures Inside([""] + mid + [""]) == mid
  {
    assert Strip("") == "";
    hide Strip;
    var parts := [""] + mid + [""];
    assert parts[1..] == mid + [""];
  }

  lemma {:induction false} StripAllClean(parts: seq<string>)
    requires forall k :: 0 <= k < |parts| ==> '|' !in parts[k]
    ensures CleanCells(StripAll(parts)) && |StripAll(parts)| == |parts|
  {
    if parts != [] {
      StripAllClean(parts[1..]);
      StripEnds(parts[0], IsSpace);
      StripKeepsChars(parts[0], '|');
      hide Strip;
    }
  }

  lemma {:induction false} StripKeepsChars(s: string, c: char)
    requires c !in s
    ensures c !in Strip(s)
  {
    var i := LStripCut(s, IsSpace);
    var j := RStripCut(s[i..], IsSpace);
  }

  /** Split cells are trimmed and pipe-free. */
  lemma {:induction false} SplitClean(row: string)
    ensures CleanCells(SplitRowCells(row))
  {
    var inner := Strip(row);
    if inner != "" && inner[0] == '|' {
      JoinSplit(inner, '|');
      StripAllClean(Inside(Split(inner, '|')));
    }
  }

  /** Printing the cells of a row is a normal form: doing it twice is doing it once, and the cells stay the same. */
  lemma {:induction false} RowNormalForm(row: string)
    requires SplitRowCells(row) != []
    ensures SplitRowCells(PrintRow(SplitRowCells(row))) == SplitRowCells(row)
    ensures PrintRow(SplitRowCells(PrintRow(SplitRowCells(row)))) == PrintRow(SplitRowCells(row))
  {
    SplitClean(row);
    PrintThenSplit(SplitRowCells(row));
  }

  /** Indentation does not matter to the splitter. */
  lemma {:induction false} IndentedRow(prefix: string, row: string)
    requires forall c :: c in prefix ==> IsSpace(c)
    ensures SplitRowCells(prefix + row) == SplitRowCells(row)
  {
    if prefix == "" {
      assert prefix + row == row;
    } else {
      assert (prefix + row)[1..] == prefix[1..] + row;
      assert (prefix + row)[0] == prefix[0];
      assert prefix[0] in prefix;
      IndentedRow(prefix[1..], row);
      assert Strip(prefix + row) == Strip(prefix[1..] + row);
      hide Strip, Split, Inside;
    }
  }

  /** The cells of a row closed by a pipe are the parts between its pipes, without the white space around them. */
  lemma {:induction false} RowCells(parts: seq<string>)
    requires parts != [] && forall k :: 0 <= k < |parts| ==> '|' !in parts[k]
    ensures SplitRowCells("|" + Join("|", parts) + "|") == StripAll(parts)
  {
    var all := [""] + parts + [""];
    var row := "|" + Join("|", parts) + "|";
    JoinAppend("|", [""] + parts, [""]);
    JoinAppend("|", [""], parts);
    JoinOne("", "");
    assert row == Join("|", all);
    assert row[0] == '|' && row[|row| - 1] == '|';
    assert Strip(row) == row;
    SplitJoin(all, '|');
    InsideTrims(parts);
    hide Strip, Split, Join;
  }

  /** Cell by cell. */
  lemma {:induction false} StripAllAt(parts: seq<string>, k: nat)
    requires k < |parts|
    ensures |StripAll(parts)| == |parts| && StripAll(parts)[k] == Strip(parts[k])
  {
    hide Strip;
    StripAllLength(parts);
    if k > 0 {
      StripAllAt(parts[1..], k - 1);
    }
  }

  /** Two pipes, the first with nothing but white space before it. */
  ghost predicate TwoPipes(line: string, i: nat, j: nat) {
    i < j < |line| && line[i] == '|' == line[j] && forall k :: 0 <= k < i ==> IsSpace(line[k])
  }

  lemma {:induction false} TableRowIff(line: string)
    ensures IsTableRow(line) <==> exists i: nat, j: nat :: TwoPipes(line, i, j)
  {
    var i := LStripCut(line, IsSpace);
    var t := line[i..];
    var n := RStripCut(t, IsSpace);
    var s := Strip(line);
    assert s == t[..n];
    hide LStripBy, RStripBy, Strip;
    assert forall k :: 0 <= k < n ==> s[k] == line[i + k];
    if IsTableRow(line) {
      var k :| 0 <= k < |s[1..]| && s[1..][k] == '|';
      assert s[k + 1] == '|';
      assert TwoPipes(line, i, i + k + 1);
    }
    if a: nat, b: nat :| TwoPipes(line, a, b) {
      PipeStays(line, i, t, n, a);
      PipeStays(line, i, t, n, b);
      assert a == i;
      assert s[1..][b - i - 1] == '|';
    }
  }

  lemma PipeStays(line: string, i: nat, t: string, n: nat, a: nat)
    requires i <= |line| && t == line[i..] && n <= |t| && a < |line| && line[a] == '|'
    requires (forall k :: 0 <= k < i ==> IsSpace(line[k])) && forall k :: n <= k < |t| ==> IsSpace(t[k])
    ensures i <= a < i + n
  {
    assert a >= i && t[a - i] == line[a];
  }

  /** Dashes between positions `l` and `m`, and at most one colon on either side. */
  ghost predicate DelimiterShape(cell: string, l: nat, m: nat) {
    && l <= 1 && l + 3 <= m <= |cell| <= m + 1
    && (forall k :: 0 <= k < l || m <= k < |cell| ==> cell[k] == ':')
    && (forall k :: l <= k < m ==> cell[k] == '-')
  }

  /** A delimiter cell is three dashes or more, with a colon allowed at either end. */
  lemma {:induction false} SeparatorCellIff(cell: string)
    ensures SeparatorCell(cell) <==> exists l: nat, m: nat :: DelimiterShape(cell, l, m)
  {
    hide SeparatorCell, DelimiterShape;
    if SeparatorCell(cell) {
      var l, m := ShapeOf(cell);
    }
    if l: nat, m: nat :| DelimiterShape(cell, l, m) {
      ShapeSeparates(cell, l, m);
    }
  }

  lemma ShapeOf(cell: string) returns (l: nat, m: nat)
    requires SeparatorCell(cell)
    ensures DelimiterShape(cell, l, m)
  {
    l := if cell[0] == ':' then 1 else 0;
    m := if cell[l..][|cell[l..]| - 1] == ':' then |cell| - 1 else |cell|;
    var a, b := cell[l..], cell[l..m];
    assert b == if a[|a| - 1] == ':' then a[..|a| - 1] else a;
    assert m >= l + 3 && AllDashes(b);
    hide SeparatorCell;
    forall k | l <= k < m ensures cell[k] == '-' {
      assert b[k - l] == cell[k];
    }
  }

  lemma ShapeSeparates(cell: string, l: nat, m: nat)
    requires DelimiterShape(cell, l, m)
    ensures SeparatorCell(cell)
  {
    var a := cell[l..];
    assert cell[l] == '-' && cell[m - 1] == '-';
    assert a == if cell[0] == ':' then cell[1..] else cell;
    assert a[|a| - 1] == cell[|cell| - 1];
    var b := cell[l..m];
    assert b == if a[|a| - 1] == ':' then a[..|a| - 1] else a;
  }

  // ----- rows of a table

  lemma {:induction false} SplitPipes(s: string, c: char)
    requires c in s
    ensures |Split(s, c)| >= 2
  {
    if s[0] != c {
      assert s == [s[0]] + s[1..];
      SplitPipes(s[1..], c);
    }
  }

  /** A table row has at least one cell. */
  lemma {:induction false} TableRowHasCells(line: string)
    requires IsTableRow(line)
    ensures SplitRowCells(line) != []
  {
    var s := Strip(line);
    SplitPipes(s[1..], '|');
    assert Split(s, '|') == [""] + Split(s[1..], '|');
    var parts := Split(s, '|');
    hide Split, Strip;
    assert |parts| >= 3;
    assert |Inside(parts)| >= 1;
    StripAllLength(Inside(parts));
  }

  lemma {:induction false} StripAllLength(parts: seq<string>)
    ensures |StripAll(parts)| == |parts|
  {
    hide Strip;
    if parts != [] {
      StripAllLength(parts[1..]);
    }
  }

  lemma {:induction false} DashesClean(n: nat)
    ensures CleanCells(Dashes(n))
    ensures SeparatorCell("---")
  {
    assert Strip("---") == "---";
  }

  /** An inserted delimiter has as many cells as the header, is a delimiter row, and is its own delimiter. */
  lemma {:induction false} SeparatorRowFacts(header: string)
    requires SplitRowCells(header) != []
    ensures var sep := SeparatorRowFor(header);
      && |SplitRowCells(sep)| == |SplitRowCells(header)|
      && IsSeparatorRow(sep) && !IsEmptyRow(sep) && IsTableRow(sep)
      && SeparatorRowFor(sep) == sep
  {
    var n := |SplitRowCells(header)|;
    DashesClean(n);
    PrintThenSplit(Dashes(n));
    hide SplitRowCells, SeparatorCell, CleanCells;
    var sep := PrintRow(Dashes(n));
    hide Strip, Join;
    assert sep[0] == '|' && sep[1..][|sep| - 2] == '|';
    assert SplitRowCells(sep)[0] == "---" != "";
  }

  lemma {:induction false} SeparatorNotEmpty(line: string)
    requires IsSeparatorRow(line)
    ensures !IsEmptyRow(line)
  {
    hide SplitRowCells;
    assert SeparatorCell(SplitRowCells(line)[0]);
  }

  // ----- one block

  function DropEmptyRows(block: seq<string>): seq<string> {
    if block != [] && IsEmptyRow(block[0]) then DropEmptyRows(block[1..]) else block
  }

  /** Rows left after the bogus prefix is removed. */
  function Survivors(block: seq<string>): seq<string> {
    var b := DropEmptyRows(block);
    if b != [] && IsSeparatorRow(b[0]) then b[1..] else b
  }

  function WithDelimiter(rows: seq<string>): seq<string> {
    if |rows| >= 2 && !IsSeparatorRow(rows[1]) then [rows[0], SeparatorRowFor(rows[0])] + rows[1..] else rows
  }

  function NormalizeBlock(block: seq<string>): seq<string> {
    WithDelimiter(Survivors(block))
  }

  method NormalizeTableBlock(block: seq<string>) returns (rows: seq<string>)
    ensures rows == NormalizeBlock(block)
  {
    hide IsEmptyRow, IsSeparatorRow, SeparatorRowFor;
    rows := block;
    while rows != [] && IsEmptyRow(rows[0])
      invariant DropEmptyRows(rows) == DropEmptyRows(block)
    {
      rows := rows[1..];
    }
    if rows != [] && IsSeparatorRow(rows[0]) {
      rows := rows[1..];
    }
    if |rows| >= 2 && !IsSeparatorRow(rows[1]) {
      var sep := SeparatorRowFor(rows[0]);
      rows := [rows[0], sep] + rows[1..];
    }
  }

  predicate TableRows(block: seq<string>) {
    forall k :: 0 <= k < |block| ==> IsTableRow(block[k])
  }

  lemma {:induction false} SurvivorsSuffix(block: seq<string>) returns (n: nat)
    ensures n <= |block| && Survivors(block) == block[n..]
    ensures forall k :: 0 <= k < n ==> !ContentRow(block[k])
  {
    hide IsSeparatorRow;
    var m := DropSuffix(block);
    var b := DropEmptyRows(block);
    n := if b != [] && IsSeparatorRow(b[0]) then m + 1 else m;
  }

  lemma {:induction false} DropSuffix(block: seq<string>) returns (n: nat)
    ensures n <= |block| && DropEmptyRows(block) == block[n..]
    ensures forall k :: 0 <= k < n ==> IsEmptyRow(block[k])
  {
    hide IsEmptyRow;
    n := 0;
    if block != [] && IsEmptyRow(block[0]) {
      var m := DropSuffix(block[1..]);
      n := m + 1;
    }
  }

  /** `rows[0]` is `n` cells of three dashes between pipes. */
  ghost predicate PlainDelimiter(row: string, n: nat) {
    exists cells: seq<string> ::
      |cells| == n && (forall k :: 0 <= k < n ==> cells[k] == "---") && row == "| " + Join(" | ", cells) + " |"
  }

  /** The empty rows in front are dropped, then one delimiter row, if one follows. */
  ghost predicate Dropped(block: seq<string>, n: nat) {
    exists k: nat ::
      && k <= n <= |block|
      && (forall j :: 0 <= j < k ==> IsEmptyRow(block[j]))
      && (k < |block| ==> !IsEmptyRow(block[k]))
      && n == if k < |block| && IsSeparatorRow(block[k]) then k + 1 else k
  }

  /** Of the rows left, two or more get a delimiter with the header's number of cells in second place, unless one is there. */
  lemma {:induction false} BlockExactly(block: seq<string>, n: nat)
    requires Dropped(block, n)
    ensures var rest, r := block[n..], NormalizeBlock(block);
      if |rest| >= 2 && !IsSeparatorRow(rest[1]) then
        |r| == |rest| + 1 && PlainDelimiter(r[1], |SplitRowCells(rest[0])|) && r[0] == rest[0] && r[2..] == rest[1..]
      else r == rest
  {
    hide *;
    DroppedRows(block, n);
    DelimiterPut(block[n..]);
    NormalizedIs(block);
  }

  lemma NormalizedIs(block: seq<string>)
    ensures NormalizeBlock(block) == WithDelimiter(Survivors(block))
  {
  }

  lemma DroppedRows(block: seq<string>, n: nat)
    requires Dropped(block, n)
    ensures n <= |block| && Survivors(block) == block[n..]
  {
    hide IsEmptyRow, IsSeparatorRow;
    var k: nat :| k <= n <= |block|
      && (forall j :: 0 <= j < k ==> IsEmptyRow(block[j]))
      && (k < |block| ==> !IsEmptyRow(block[k]))
      && n == if k < |block| && IsSeparatorRow(block[k]) then k + 1 else k;
    DropsEmpty(block, k);
  }

  lemma DelimiterPut(rest: seq<string>)
    ensures var r := WithDelimiter(rest);
      if |rest| >= 2 && !IsSeparatorRow(rest[1]) then
        |r| == |rest| + 1 && PlainDelimiter(r[1], |SplitRowCells(rest[0])|) && r[0] == rest[0] && r[2..] == rest[1..]
      else r == rest
  {
    if |rest| >= 2 && !IsSeparatorRow(rest[1]) {
      DelimiterIsPlain(rest[0]);
      hide IsSeparatorRow, SplitRowCells, PlainDelimiter, SeparatorRowFor;
      assert WithDelimiter(rest)[2..] == rest[1..];
    }
  }

  lemma DelimiterIsPlain(header: string)
    ensures PlainDelimiter(SeparatorRowFor(header), |SplitRowCells(header)|)
  {
    hide SplitRowCells, Join;
    var cells := Dashes(|SplitRowCells(header)|);
    assert SeparatorRowFor(header) == "| " + Join(" | ", cells) + " |";
  }

  lemma {:induction false} DropsEmpty(block: seq<string>, k: nat)
    requires k <= |block| && forall j :: 0 <= j < k ==> IsEmptyRow(block[j])
    requires k < |block| ==> !IsEmptyRow(block[k])
    ensures DropEmptyRows(block) == block[k..]
  {
    hide IsEmptyRow;
    if k > 0 {
      DropsEmpty(block[1..], k - 1);
    }
  }

  /** A normalised block of two or more rows has a delimiter second. */
  lemma {:induction false} DelimiterSecond(block: seq<string>)
    requires TableRows(block)
    ensures var r := NormalizeBlock(block);
      && TableRows(r)
      && (|r| >= 2 ==> IsSeparatorRow(r[1]))
  {
    var n := SurvivorsSuffix(block);
    var s := Survivors(block);
    hide IsTableRow, IsSeparatorRow, Survivors, SeparatorRowFor;
    if s != [] {
      assert IsTableRow(s[0]);
      TableRowHasCells(s[0]);
      SeparatorRowFacts(s[0]);
    }
  }

  function ContentRows(block: seq<string>): seq<string> {
    Filter(block, ContentRow)
  }

  /** Every content row survives, in order, and nothing else is added but a delimiter. */
  lemma {:induction false} ContentSurvives(block: seq<string>)
    requires TableRows(block)
    ensures ContentRows(NormalizeBlock(block)) == ContentRows(block)
  {
    var n := SurvivorsSuffix(block);
    hide ContentRow, Survivors, Filter, IsTableRow, SeparatorRowFor, IsSeparatorRow;
    var s := Survivors(block);
    assert block == block[..n] + s;
    FilterAppend(block[..n], s, ContentRow);
    FilterNone(block[..n], ContentRow);
    if |s| >= 2 {
      assert s[0] == block[n];
      InsertedDelimiter(s);
    }
  }

  lemma {:induction false} InsertedDelimiter(s: seq<string>)
    requires |s| >= 2 && IsTableRow(s[0])
    ensures Filter([s[0], SeparatorRowFor(s[0])] + s[1..], ContentRow) == Filter(s, ContentRow)
  {
    HeaderFacts(s[0]);
    hide SeparatorRowFor, Filter, IsTableRow, IsSeparatorRow, IsEmptyRow;
    FilterInserted(s[0], SeparatorRowFor(s[0]), s[1..], ContentRow);
    assert s == [s[0]] + s[1..];
  }

  // ----- when normalising twice changes nothing

  /** A delimiter row that is exactly the one the code would insert. */
  predicate Canonical(row: string) {
    IsSeparatorRow(row) && SeparatorRowFor(row) == row
  }

  /** The block's surviving rows are stable: none, or led by a content row, or led by a canonical delimiter in two special shapes. */
  predicate StableRows(s: seq<string>) {
    || s == []
    || ContentRow(s[0])
    || (Canonical(s[0]) && |s| >= 2 && !IsSeparatorRow(s[1]))
    || (Canonical(s[0]) && |s| >= 3 && s[1] == s[0] && !IsSeparatorRow(s[2]))
  }

  /** Normalising a block twice is normalising it once exactly when its surviving rows are stable. */
  lemma {:induction false} BlockIdempotentIff(block: seq<string>)
    requires TableRows(block)
    ensures NormalizeBlock(NormalizeBlock(block)) == NormalizeBlock(block) <==> StableRows(Survivors(block))
  {
    hide IsTableRow, SeparatorRowFor, IsSeparatorRow, IsEmptyRow, Survivors;
    var n := SurvivorsSuffix(block);
    var s := Survivors(block);
    if s == [] {
      NothingLeft();
    } else {
      assert IsTableRow(s[0]);
      HeaderFacts(s[0]);
      if IsEmptyRow(s[0]) {
        EmptyFirst(s);
      } else if IsSeparatorRow(s[0]) {
        SeparatorFirst(s);
      } else {
        ContentFirst(s);
      }
    }
  }

  lemma {:induction false} NothingLeft()
    ensures NormalizeBlock([]) == []
  {
  }

  lemma {:induction false} HeaderFacts(row: string)
    requires IsTableRow(row)
    ensures var sep := SeparatorRowFor(row);
      && IsSeparatorRow(sep) && !IsEmptyRow(sep) && SeparatorRowFor(sep) == sep
      && !(IsEmptyRow(row) && IsSeparatorRow(row))
  {
    TableRowHasCells(row);
    SeparatorRowFacts(row);
    hide SeparatorRowFor;
    if IsSeparatorRow(row) {
      SeparatorNotEmpty(row);
    }
  }

  lemma {:induction false} ContentFirst(s: seq<string>)
    requires s != [] && ContentRow(s[0])
    requires IsSeparatorRow(SeparatorRowFor(s[0]))
    ensures NormalizeBlock(WithDelimiter(s)) == WithDelimiter(s)
  {
    hide SeparatorRowFor, IsSeparatorRow, IsEmptyRow;
    var r := WithDelimiter(s);
    assert DropEmptyRows(r) == r;
  }

  lemma {:induction false} NormalizedLength(block: seq<string>)
    ensures |NormalizeBlock(block)| <= |Survivors(block)| + 1
    ensures |Survivors(block)| <= |block|
  {
    var n := SurvivorsSuffix(block);
  }

  /** An empty first row: the second pass removes it and the delimiter after it, or the only row. */
  lemma {:induction false} EmptyFirst(s: seq<string>)
    requires s != [] && IsEmptyRow(s[0]) && !IsSeparatorRow(s[0])
    requires IsSeparatorRow(SeparatorRowFor(s[0])) && !IsEmptyRow(SeparatorRowFor(s[0]))
    ensures NormalizeBlock(WithDelimiter(s)) != WithDelimiter(s) && !StableRows(s)
  {
    hide SeparatorRowFor, IsSeparatorRow, IsEmptyRow;
    var r := WithDelimiter(s);
    assert DropEmptyRows(r) == DropEmptyRows(r[1..]);
    if |r| == 1 {
      assert NormalizeBlock(r) == [];
    } else {
      assert IsSeparatorRow(r[1]);
      if IsEmptyRow(r[1]) {
        SeparatorNotEmpty(r[1]);
      } else {
        assert Survivors(r) == r[1..][1..];
        NormalizedLength(r);
      }
    }
  }

  lemma {:induction false} SeparatorFirst(s: seq<string>)
    requires s != [] && IsSeparatorRow(s[0]) && !IsEmptyRow(s[0])
    requires var sep := SeparatorRowFor(s[0]);
      IsSeparatorRow(sep) && !IsEmptyRow(sep) && SeparatorRowFor(sep) == sep
    ensures NormalizeBlock(WithDelimiter(s)) == WithDelimiter(s) <==> StableRows(s)
  {
    hide SeparatorRowFor, IsSeparatorRow, IsEmptyRow;
    var r := WithDelimiter(s);
    assert DropEmptyRows(r) == r;
    assert Survivors(r) == r[1..];
    if |r| >= 2 {
      assert IsSeparatorRow(r[1]);
    }
    if |r| >= 3 && !IsSeparatorRow(r[2]) {
      assert r[1..][0] == r[1] && r[1..][1] == r[2];
      var q := [r[1], SeparatorRowFor(r[1])] + r[2..];
      assert r[1..][1..] == r[2..];
      assert NormalizeBlock(r) == q;
      assert r == [r[0], r[1]] + r[2..];
      assert q == r <==> r[1] == r[0] && SeparatorRowFor(r[1]) == r[1] by {
        assert q[0] == r[1] && q[1] == SeparatorRowFor(r[1]);
      }
    } else {
      assert |NormalizeBlock(r)| == |r| - 1;
    }
  }

  /** A delimiter row followed by an empty row: the first pass leaves the empty row, the second removes it. */
  lemma {:induction false} NotAlwaysIdempotent()
    ensures var block := ["| --- |", "|  |"];
      TableRows(block) && NormalizeBlock(NormalizeBlock(block)) != NormalizeBlock(block)
  {
    hide SplitRowCells, IsTableRow, IsSeparatorRow, IsEmptyRow, NormalizeBlock, Survivors;
    var dashes, empty := "| --- |", "|  |";
    assert dashes == "| " + "---" + " |" && empty == "| " + "" + " |";
    DashesClean(1);
    assert Strip("") == "" && "---" != "";
    OneCellRow("---", dashes);
    OneCellRow("", empty);
    assert !SeparatorCell("");
    hide SeparatorCell, Strip;
    SurvivorsOfTwo(dashes, empty);
    BlockIdempotentIff([dashes, empty]);
  }

  lemma {:induction false} SurvivorsOfTwo(sep: string, empty: string)
    requires IsSeparatorRow(sep) && !IsEmptyRow(sep) && IsEmptyRow(empty) && !IsSeparatorRow(empty)
    ensures Survivors([sep, empty]) == [empty] && !StableRows([empty])
  {
    hide IsSeparatorRow, IsEmptyRow;
    assert [sep, empty][1..] == [empty];
  }

  lemma {:induction false} OneCellRow(cell: string, row: string)
    requires CleanCell(cell) && row == "| " + cell + " |"
    ensures IsTableRow(row)
    ensures IsEmptyRow(row) <==> cell == ""
    ensures IsSeparatorRow(row) <==> SeparatorCell(cell)
  {
    assert PrintRow([cell]) == row;
    PrintThenSplit([cell]);
    assert row[1..][|row| - 2] == '|';
    hide SplitRowCells, SeparatorCell;
    assert SplitRowCells(row) == [cell] && [cell][0] == cell;
  }

  // ----- whole documents

  /** Length of the run of table rows at the front. */
  function TableRun(lines: seq<string>): (n: nat)
    ensures n <= |lines|
    ensures TableRows(lines[..n])
    ensures n < |lines| ==> !IsTableRow(lines[n])
  {
    if lines == [] || !IsTableRow(lines[0]) then 0 else
      var n := TableRun(lines[1..]);
      assert lines[..n + 1] == [lines[0]] + lines[1..][..n];
      n + 1
  }

  /** Every maximal run of table rows is normalised; other lines are copied. */
  function NormalizeLines(lines: seq<string>): seq<string>
    decreases |lines|
  {
    if lines == [] then []
    else if !IsTableRow(lines[0]) then [lines[0]] + NormalizeLines(lines[1..])
    else NormalizeBlock(lines[..TableRun(lines)]) + NormalizeLines(lines[TableRun(lines)..])
  }

  /** The rows of the table that starts at line `start`. */
  method TakeBlock(lines: seq<string>, start: nat) returns (block: seq<string>, i: nat)
    requires start < |lines|
    ensures i == start + TableRun(lines[start..]) && i <= |lines|
    ensures block == lines[start..i] == lines[start..][..TableRun(lines[start..])]
  {
    hide IsTableRow;
    i := start;
    block := [];
    while i < |lines| && IsTableRow(lines[i])
      invariant start <= i <= |lines|
      invariant block == lines[start..i]
      invariant i - start + TableRun(lines[i..]) == TableRun(lines[start..])
    {
      assert lines[i..][1..] == lines[i + 1..];
      block := block + [lines[i]];
      i := i + 1;
    }
    assert TableRun(lines[i..]) == 0;
  }

  lemma {:induction false} NormalizeLinesStep(lines: seq<string>, i: nat)
    requires i < |lines|
    ensures !IsTableRow(lines[i]) ==> NormalizeLines(lines[i..]) == [lines[i]] + NormalizeLines(lines[i + 1..])
    ensures IsTableRow(lines[i]) ==> var n := TableRun(lines[i..]);
      n > 0 && i + n <= |lines| && NormalizeLines(lines[i..]) == NormalizeBlock(lines[i..][..n]) + NormalizeLines(lines[i + n..])
  {
    hide IsTableRow, NormalizeBlock;
    assert lines[i..][1..] == lines[i + 1..];
    var n := TableRun(lines[i..]);
    assert lines[i..][n..] == lines[i + n..];
  }

  method NormalizeSpuriousPrefixes(lines: seq<string>) returns (out: seq<string>)
    ensures out == NormalizeLines(lines)
  {
    hide IsTableRow, NormalizeBlock, NormalizeLines, TableRun;
    out := [];
    var i := 0;
    assert lines[0..] == lines && [] + NormalizeLines(lines) == NormalizeLines(lines);
    while i < |lines|
      invariant i <= |lines|
      invariant NormalizeLines(lines) == out + NormalizeLines(lines[i..])
    {
      NormalizeLinesStep(lines, i);
      if !IsTableRow(lines[i]) {
        assert out + ([lines[i]] + NormalizeLines(lines[i + 1..])) == out + [lines[i]] + NormalizeLines(lines[i + 1..]);
        out := out + [lines[i]];
        i := i + 1;
        continue;
      }
      var block, next := TakeBlock(lines, i);
      var rows := NormalizeTableBlock(block);
      assert out + (rows + NormalizeLines(lines[next..])) == out + rows + NormalizeLines(lines[next..]);
      out := out + rows;
      i := next;
    }
    assert NormalizeLines(lines[i..]) == [] by { NoLines(lines, i); }
  }

  lemma {:induction false} NoLines(lines: seq<string>, i: nat)
    requires i == |lines|
    ensures NormalizeLines(lines[i..]) == []
  {
  }

  /** Lines that must not be lost: everything outside tables and every content row. */
  predicate Significant(line: string) {
    !IsTableRow(line) || ContentRow(line)
  }

  /** Nothing significant is lost, added or reordered in the document. */
  lemma {:induction false} DocumentKeepsContent(lines: seq<string>)
    ensures Filter(NormalizeLines(lines), Significant) == Filter(lines, Significant)
    decreases |lines|
  {
    hide Significant, IsTableRow, Filter, NormalizeBlock, TableRun;
    if lines != [] {
      NormalizeLinesStep(lines, 0);
      assert lines[0..] == lines;
      hide NormalizeLines;
      if !IsTableRow(lines[0]) {
        DocumentKeepsContent(lines[1..]);
        FilterCons(lines[0], NormalizeLines(lines[1..]), Significant);
        FilterCons(lines[0], lines[1..], Significant);
        assert lines == [lines[0]] + lines[1..];
      } else {
        var n := TableRun(lines);
        var block, rest := lines[..n], lines[n..];
        DocumentKeepsContent(rest);
        BlockKeepsSignificant(block);
        FilterAppend(NormalizeBlock(block), NormalizeLines(rest), Significant);
        FilterAppend(block, rest, Significant);
        assert lines == block + rest;
      }
    }
  }

  lemma {:induction false} BlockKeepsSignificant(block: seq<string>)
    requires TableRows(block)
    ensures Filter(NormalizeBlock(block), Significant) == Filter(block, Significant)
  {
    DelimiterSecond(block);
    ContentSurvives(block);
    SignificantIsContent(block);
    SignificantIsContent(NormalizeBlock(block));
    hide Filter, NormalizeBlock, TableRows;
  }

  lemma {:induction false} SignificantIsContent(rows: seq<string>)
    requires TableRows(rows)
    ensures Filter(rows, Significant) == Filter(rows, ContentRow)
  {
    hide ContentRow, IsTableRow;
    forall x | x in rows ensures Significant(x) <==> ContentRow(x) {
      var k :| 0 <= k < |rows| && rows[k] == x;
      assert IsTableRow(rows[k]);
    }
    FilterSame(rows, Significant, ContentRow);
  }

  // ----- when normalising a document twice changes nothing

  /** Every maximal run of table rows is stable as a block. */
  predicate BlocksStable(lines: seq<string>)
    decreases |lines|
  {
    lines == [] ||
    if !IsTableRow(lines[0]) then BlocksStable(lines[1..])
    else StableRows(Survivors(lines[..TableRun(lines)])) && BlocksStable(lines[TableRun(lines)..])
  }

  /** The lines do not begin with a table row. */
  predicate StartsPlain(lines: seq<string>) {
    lines == [] || !IsTableRow(lines[0])
  }

  /** A document is rewritten one table after the other: the lines before a table stay, the whole table is normalised. */
  lemma {:induction false} TableByTable(plain: seq<string>, block: seq<string>, rest: seq<string>)
    requires forall k :: 0 <= k < |plain| ==> !IsTableRow(plain[k])
    requires TableRows(block) && StartsPlain(rest)
    ensures NormalizeLines(plain + (block + rest))
         == plain + (if block == [] then [] else NormalizeBlock(block)) + NormalizeLines(rest)
    decreases |plain|
  {
    hide IsTableRow, NormalizeBlock, NormalizeLines;
    var lines := plain + (block + rest);
    if plain != [] {
      assert lines == [plain[0]] + (plain[1..] + (block + rest));
      PlainFirst(plain[0], plain[1..] + (block + rest));
      TableByTable(plain[1..], block, rest);
      assert plain == [plain[0]] + plain[1..];
    } else {
      assert lines == block + rest;
      TableFirst(block, rest);
    }
  }

  lemma PlainFirst(line: string, rest: seq<string>)
    requires !IsTableRow(line)
    ensures NormalizeLines([line] + rest) == [line] + NormalizeLines(rest)
  {
    hide IsTableRow, NormalizeBlock;
    assert ([line] + rest)[1..] == rest;
  }

  lemma TableFirst(block: seq<string>, rest: seq<string>)
    requires TableRows(block) && StartsPlain(rest)
    ensures NormalizeLines(block + rest) == (if block == [] then [] else NormalizeBlock(block)) + NormalizeLines(rest)
  {
    hide IsTableRow, NormalizeBlock;
    if block == [] {
      assert block + rest == rest;
    } else {
      RunIsBlock(block, rest);
      hide TableRun;
      var lines := block + rest;
      assert lines[0] == block[0];
      assert lines[..|block|] == block && lines[|block|..] == rest;
    }
  }

  lemma {:induction false} RunIsBlock(block: seq<string>, rest: seq<string>)
    requires TableRows(block) && StartsPlain(rest)
    ensures TableRun(block + rest) == |block|
  {
    hide IsTableRow;
    if block == [] {
      assert block + rest == rest;
    } else {
      assert (block + rest)[0] == block[0] && IsTableRow(block[0]);
      assert (block + rest)[1..] == block[1..] + rest;
      RunIsBlock(block[1..], rest);
    }
  }

  lemma {:induction false} BlockThenRest(block: seq<string>, rest: seq<string>)
    requires TableRows(block) && StartsPlain(rest)
    ensures NormalizeLines(block + rest) == NormalizeBlock(block) + NormalizeLines(rest)
  {
    if block == [] {
      NothingLeft();
      assert block + rest == rest;
    } else {
      RunIsBlock(block, rest);
      hide IsTableRow, NormalizeBlock, TableRun;
      var all := block + rest;
      NormalizeLinesStep(all, 0);
      assert all[0..] == all && all[0] == block[0];
      assert all[..|block|] == block && all[|block|..] == rest;
    }
  }

  lemma {:induction false} PlainStays(rest: seq<string>)
    requires StartsPlain(rest)
    ensures StartsPlain(NormalizeLines(rest))
  {
  }

  /** Table rows and what follows them can be told apart. */
  lemma {:induction false} SplitUnique(a: seq<string>, x: seq<string>, b: seq<string>, y: seq<string>)
    requires TableRows(a) && TableRows(b) && StartsPlain(x) && StartsPlain(y)
    ensures a + x == b + y <==> a == b && x == y
  {
    hide IsTableRow;
    if a + x == b + y {
      RunIsBlock(a, x);
      RunIsBlock(b, y);
      assert a == (a + x)[..|a|] && b == (b + y)[..|b|];
      assert x == (a + x)[|a|..] && y == (b + y)[|b|..];
    }
  }

  /** Normalising a document twice is normalising it once exactly when each of its maximal blocks is stable. */
  lemma {:induction false} DocumentIdempotentIff(lines: seq<string>)
    ensures NormalizeLines(NormalizeLines(lines)) == NormalizeLines(lines) <==> BlocksStable(lines)
    decreases |lines|
  {
    if lines != [] {
      hide IsTableRow, NormalizeBlock, TableRun, StableRows, Survivors;
      NormalizeLinesStep(lines, 0);
      assert lines[0..] == lines;
      var once := NormalizeLines(lines);
      if !IsTableRow(lines[0]) {
        var x, rest := lines[0], NormalizeLines(lines[1..]);
        DocumentIdempotentIff(lines[1..]);
        NormalizeLinesStep(once, 0);
        assert once[0..] == once && once[1..] == rest;
        hide NormalizeLines;
        SameRest(x, NormalizeLines(rest), rest);
      } else {
        var n := TableRun(lines);
        var block, rest := lines[..n], lines[n..];
        assert TableRows(block) && StartsPlain(rest);
        DocumentIdempotentIff(rest);
        BlockIdempotentIff(block);
        DelimiterSecond(block);
        DelimiterSecond(NormalizeBlock(block));
        PlainStays(rest);
        PlainStays(NormalizeLines(rest));
        BlockThenRest(NormalizeBlock(block), NormalizeLines(rest));
        hide NormalizeLines;
        SplitUnique(NormalizeBlock(NormalizeBlock(block)), NormalizeLines(NormalizeLines(rest)),
                    NormalizeBlock(block), NormalizeLines(rest));
      }
    }
  }

  lemma SameRest(x: string, a: seq<string>, b: seq<string>)
    ensures [x] + a == [x] + b <==> a == b
  {
    if [x] + a == [x] + b {
      assert a == ([x] + a)[1..];
      assert b == ([x] + b)[1..];
    }
  }
}
