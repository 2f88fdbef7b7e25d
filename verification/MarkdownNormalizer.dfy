/** Fence-aware markdown normalisation of web archives. */
module MarkdownNormalizer {
  import opened Options
  import opened Seqs
  import opened Text

  predicate IsGap(c: char) { c == ' ' || c == '\t' }

  predicate IsNewline(c: char) { c == '\n' }

  // ----- fences

  /** An open fence: its character and length. */
  datatype Fence = Fence(mark: char, len: nat)

  /** Length of the run of `c` at the front. */
  function RunOf(s: string, c: char): (n: nat)
    ensures n <= |s|
  {
    if s != "" && s[0] == c then 1 + RunOf(s[1..], c) else 0
  }

  function OpeningFence(line: string): Option<Fence> {
    var stripped := LStripBy(line, IsBlankChar);
    if |line| - |stripped| > 3 || stripped == "" then None
    else if stripped[0] != '`' && stripped[0] != '~' then None
    else if RunOf(stripped, stripped[0]) < 3 then None
    else Some(Fence(stripped[0], RunOf(stripped, stripped[0])))
  }

  predicate ClosingFence(line: string, f: Fence) {
    var stripped := LStripBy(line, IsBlankChar);
    && |line| - |stripped| <= 3
    && RunOf(stripped, f.mark) >= f.len
    && StripBy(stripped[RunOf(stripped, f.mark)..], IsGap) == ""
  }

  predicate BlankLine(line: string) {
    StripBy(line, IsGap) == ""
  }

  function TrailingSpaces(line: string): int {
    |line| - |RStripBy(line, IsBlankChar)|
  }

  /** An unfenced line keeps a hard break (two spaces) if it had one, and no other trailing white space. */
  function Trim(line: string): string {
    RStripBy(line, IsGap) + (if TrailingSpaces(line) >= 2 then "  " else "")
  }

  // ----- the line machine

  /** What the loop remembers: the open fence, a blank line waiting to be written, and whether anything was written. */
  datatype Scan = Scan(fence: Option<Fence>, pending: bool, started: bool)

  /** Lines written for one input line. */
  function Written(st: Scan, line: string): seq<string> {
    if st.fence.Some? then [line]
    else if OpeningFence(line) == None && BlankLine(line) then []
    else (if st.pending && st.started then [""] else []) + [if OpeningFence(line) == None then Trim(line) else line]
  }

  function Advance(st: Scan, line: string): Scan {
    if st.fence.Some? then
      st.(fence := if ClosingFence(line, st.fence.value) then None else st.fence, started := true)
    else if OpeningFence(line) == None && BlankLine(line) then st.(pending := true)
    else Scan(OpeningFence(line), false, true)
  }

  function Emit(lines: seq<string>, st: Scan): seq<string> {
    if lines == [] then [] else Written(st, lines[0]) + Emit(lines[1..], Advance(st, lines[0]))
  }

  function ScanAfter(lines: seq<string>, st: Scan): Scan {
    if lines == [] then st else ScanAfter(lines[1..], Advance(st, lines[0]))
  }

  const BEGIN := Scan(None, false, false)

  function NormalizeMarkdown(text: string): string {
    StripBy(Join("\n", Emit(Split(UnixLines(text), '\n'), BEGIN)), IsNewline)
  }

  lemma {:induction false} EmitAppend(a: seq<string>, b: seq<string>, st: Scan)
    ensures Emit(a + b, st) == Emit(a, st) + Emit(b, ScanAfter(a, st))
    ensures ScanAfter(a + b, st) == ScanAfter(b, ScanAfter(a, st))
    decreases a
  {
    hide Written, Advance;
    if a == [] {
      assert a + b == b;
    } else {
      assert (a + b)[1..] == a[1..] + b;
      EmitAppend(a[1..], b, Advance(st, a[0]));
    }
  }

  lemma {:induction false} EmitOne(lines: seq<string>, i: nat, st: Scan)
    requires i < |lines|
    ensures Emit(lines[..i + 1], st) == Emit(lines[..i], st) + Written(ScanAfter(lines[..i], st), lines[i])
    ensures ScanAfter(lines[..i + 1], st) == Advance(ScanAfter(lines[..i], st), lines[i])
  {
    assert lines[..i + 1] == lines[..i] + [lines[i]];
    EmitAppend(lines[..i], [lines[i]], st);
    var one := [lines[i]];
    assert one[1..] == [];
    var mid := ScanAfter(lines[..i], st);
    assert Emit(one, mid) == Written(mid, one[0]) + Emit(one[1..], Advance(mid, one[0]));
  }

  method Normalize(text: string) returns (result: string)
    ensures result == NormalizeMarkdown(text)
  {
    hide Written, Advance, OpeningFence, ClosingFence, BlankLine, Trim, Split, UnixLines;
    var lines := Split(UnixLines(text), '\n');
    var output: seq<string> := [];
    var pendingBlank := false;
    var fence: Option<Fence> := None;
    assert lines[..0] == [];
    for i := 0 to |lines|
      invariant output == Emit(lines[..i], BEGIN)
      invariant ScanAfter(lines[..i], BEGIN) == Scan(fence, pendingBlank, output != [])
    {
      var line := lines[i];
      EmitOne(lines, i, BEGIN);
      OneLine(Scan(fence, pendingBlank, output != []), line);
      if fence.Some? {
        output := output + [line];
        if ClosingFence(line, fence.value) {
          fence := None;
        }
        continue;
      }
      var opening := OpeningFence(line);
      if opening.Some? {
        if pendingBlank && output != [] {
          output := output + [""];
        }
        pendingBlank := false;
        output := output + [line];
        fence := opening;
        continue;
      }
      if BlankLine(line) {
        pendingBlank := true;
        continue;
      }
      if pendingBlank && output != [] {
        output := output + [""];
      }
      pendingBlank := false;
      output := output + [Trim(line)];
    }
    assert lines[..|lines|] == lines;
    result := StripBy(Join("\n", output), IsNewline);
  }

  /** `Written` and `Advance` case by case. */
  lemma {:induction false} OneLine(st: Scan, line: string)
    ensures st.fence.Some? ==>
      && Written(st, line) == [line]
      && Advance(st, line) == Scan(if ClosingFence(line, st.fence.value) then None else st.fence, st.pending, true)
    ensures st.fence.None? && OpeningFence(line).Some? ==>
      && Written(st, line) == (if st.pending && st.started then ["", line] else [line])
      && Advance(st, line) == Scan(OpeningFence(line), false, true)
    ensures st.fence.None? && OpeningFence(line).None? && BlankLine(line) ==>
      Written(st, line) == [] && Advance(st, line) == Scan(None, true, st.started)
    ensures st.fence.None? && OpeningFence(line).None? && !BlankLine(line) ==>
      && Written(st, line) == (if st.pending && st.started then ["", Trim(line)] else [Trim(line)])
      && Advance(st, line) == Scan(None, false, true)
  {
    hide OpeningFence, ClosingFence, BlankLine, Trim;
  }

  // ----- single lines

  lemma {:induction false} StripFree(s: string, p: char -> bool)
    ensures StripBy(s, p) == "" <==> forall q :: 0 <= q < |s| ==> p(s[q])
  {
    var i := LStripCut(s, p);
    var t := s[i..];
    var j := RStripCut(t, p);
    assert forall q :: 0 <= q < |t| ==> t[q] == s[i + q];
    if i < |s| {
      assert t[0] == s[i];
      assert j > 0 && t[j - 1] == s[i + j - 1];
    }
  }

  lemma {:induction false} RStripPrefix(s: string, p: char -> bool, k: nat)
    requires k <= |s| && (forall q :: k <= q < |s| ==> p(s[q])) && (k > 0 ==> !p(s[k - 1]))
    ensures RStripBy(s, p) == s[..k]
  {
    var m := RStripCut(s, p);
    assert m <= k;
    assert m >= k;
  }

  /** The shape of a trimmed line: its text up to the last visible character, then nothing or exactly two spaces. */
  lemma {:induction false} TrimShape(line: string) returns (k: nat)
    requires !BlankLine(line)
    ensures 0 < k <= |line| && !IsGap(line[k - 1])
    ensures forall q :: k <= q < |line| ==> IsGap(line[q])
    ensures Trim(line) == line[..k] + (if TrailingSpaces(line) >= 2 then "  " else "")
  {
    k := RStripCut(line, IsGap);
    StripFree(line, IsGap);
  }

  /** Exactly two trailing spaces remain when there were two or more, none otherwise; the rest of the line is untouched. */
  lemma {:induction false} TrimKeepsHardBreak(line: string)
    requires !BlankLine(line)
    ensures TrailingSpaces(Trim(line)) == if TrailingSpaces(line) >= 2 then 2 else 0
    ensures RStripBy(Trim(line), IsGap) == RStripBy(line, IsGap)
    ensures Trim(Trim(line)) == Trim(line)
    ensures !BlankLine(Trim(line)) && Trim(line) != ""
  {
    var k := TrimShape(line);
    var t := Trim(line);
    RStripPrefix(t, IsGap, k);
    RStripPrefix(t, IsBlankChar, k);
    RStripPrefix(line, IsGap, k);
    StripFree(t, IsGap);
    assert t[k - 1] == line[k - 1];
    assert t[..k] == line[..k];
  }

  lemma {:induction false} RunPrefix(s: string, t: string, c: char)
    requires c != ' ' && c != '\t'
    requires t != "" && t <= s && !IsGap(t[|t| - 1]) && forall q :: |t| <= q < |s| ==> IsGap(s[q])
    ensures RunOf(t, c) == RunOf(s, c)
  {
    if t[0] == c {
      if |t| == 1 {
        assert |s| > 1 ==> s[1..][0] == s[1];
      } else {
        assert t[1..] <= s[1..];
        RunPrefix(s[1..], t[1..], c);
      }
    }
  }

  lemma {:induction false} RunExtended(t: string, tail: string, c: char)
    requires c != ' ' && c != '\t'
    requires t != "" && !IsGap(t[|t| - 1]) && forall q :: 0 <= q < |tail| ==> IsGap(tail[q])
    ensures RunOf(t + tail, c) == RunOf(t, c)
  {
    assert t <= t + tail;
    RunPrefix(t + tail, t, c);
  }

  lemma {:induction false} LStripExtended(t: string, tail: string)
    requires t != "" && !IsGap(t[|t| - 1])
    ensures LStripBy(t, IsBlankChar) != ""
    ensures LStripBy(t + tail, IsBlankChar) == LStripBy(t, IsBlankChar) + tail
    ensures var u := LStripBy(t, IsBlankChar); !IsGap(u[|u| - 1])
  {
    if t[0] == ' ' {
      assert (t + tail)[1..] == t[1..] + tail;
      LStripExtended(t[1..], tail);
    }
  }

  /** Whether a line opens a fence depends only on the part before its trailing white space. */
  lemma {:induction false} OpeningIgnoresTail(t: string, tail: string)
    requires t != "" && !IsGap(t[|t| - 1]) && forall q :: 0 <= q < |tail| ==> IsGap(tail[q])
    ensures OpeningFence(t + tail) == OpeningFence(t)
  {
    LStripExtended(t, tail);
    var u := LStripBy(t, IsBlankChar);
    assert (u + tail)[0] == u[0];
    if u[0] == '`' || u[0] == '~' {
      RunExtended(u, tail, u[0]);
    }
  }

  lemma {:induction false} TrimNotOpening(line: string)
    requires !BlankLine(line)
    ensures OpeningFence(Trim(line)) == OpeningFence(line)
  {
    var k := TrimShape(line);
    assert line == line[..k] + line[k..];
    OpeningIgnoresTail(line[..k], line[k..]);
    OpeningIgnoresTail(line[..k], if TrailingSpaces(line) >= 2 then "  " else "");
    assert line[..k] + "" == line[..k];
  }

  // ----- which lines are fences

  /** At most three spaces, then exactly `n` copies of the mark; what follows is free. */
  predicate Marked(line: string, k: nat, n: nat, mark: char) {
    && k <= 3 && k + n <= |line|
    && (forall q :: 0 <= q < k ==> line[q] == ' ')
    && (forall q :: k <= q < k + n ==> line[q] == mark)
    && (k + n < |line| ==> line[k + n] != mark)
  }

  /** A line that opens a fence of `n` backticks or tildes. */
  ghost predicate Opens(line: string, n: nat, mark: char) {
    (mark == '`' || mark == '~') && n >= 3 && exists k: nat :: Marked(line, k, n, mark)
  }

  /** A line that closes it: at least as many marks, and nothing after them but spaces and tabs. */
  ghost predicate Closes(line: string, n: nat, mark: char) {
    exists k: nat, m: nat :: m >= n && Marked(line, k, m, mark) && OnlyGaps(line, k + m)
  }

  predicate OnlyGaps(line: string, from: nat) {
    forall q :: from <= q < |line| ==> line[q] == ' ' || line[q] == '\t'
  }

  lemma {:induction false} RunOfIs(s: string, c: char)
    ensures var n := RunOf(s, c); (forall q :: 0 <= q < n ==> s[q] == c) && (n < |s| ==> s[n] != c)
  {
    if s != "" && s[0] == c {
      RunOfIs(s[1..], c);
      var n := RunOf(s[1..], c);
      forall q | 0 <= q < n + 1 ensures s[q] == c {
        assert q > 0 ==> s[q] == s[1..][q - 1];
      }
    }
  }

  /** The spaces and marks that `OpeningFence` and `ClosingFence` measure. */
  lemma {:induction false} Measured(line: string, mark: char) returns (k: nat)
    requires mark != ' '
    ensures k <= |line| && LStripBy(line, IsBlankChar) == line[k..]
    ensures k <= 3 ==> Marked(line, k, RunOf(line[k..], mark), mark)
    ensures forall k': nat, n: nat :: n > 0 && Marked(line, k', n, mark) ==> k' == k && n == RunOf(line[k..], mark)
  {
    k := LStripCut(line, IsBlankChar);
    var run := RunOf(line[k..], mark);
    RunOfIs(line[k..], mark);
    assert forall q :: 0 <= q < |line[k..]| ==> line[k..][q] == line[k + q];
    forall q | k <= q < k + run ensures line[q] == mark {
      assert line[k..][q - k] == mark;
    }
    forall k': nat, n: nat | n > 0 && Marked(line, k', n, mark) ensures k' == k && n == run {
      assert line[k'] == mark;
    }
  }

  /** Exactly the lines of that shape open a fence, with that mark and length. */
  lemma {:induction false} OpeningFenceIff(line: string, f: Fence)
    ensures OpeningFence(line) == Some(f) <==> Opens(line, f.len, f.mark)
  {
    var k := Measured(line, '~');
    var k' := Measured(line, '`');
    if OpeningFence(line) == Some(f) {
      assert Marked(line, k, f.len, f.mark);
    }
  }

  /** A fence of backticks or tildes is closed by exactly the lines of the closing shape. */
  lemma {:induction false} ClosingFenceIff(line: string, f: Fence)
    requires (f.mark == '`' || f.mark == '~') && f.len >= 1
    ensures ClosingFence(line, f) <==> Closes(line, f.len, f.mark)
  {
    var k := Measured(line, f.mark);
    var n := RunOf(line[k..], f.mark);
    var tail := line[k + n..];
    StripFree(tail, IsGap);
    assert line[k..][n..] == tail;
    assert forall q :: 0 <= q < |tail| ==> tail[q] == line[k + n + q];
    hide StripBy, LStripBy, RunOf;
    if ClosingFence(line, f) {
      assert Marked(line, k, n, f.mark) && OnlyGaps(line, k + n) by {
        forall q | k + n <= q < |line| ensures IsGap(line[q]) {
          assert tail[q - k - n] == line[q];
        }
      }
    }
    if Closes(line, f.len, f.mark) {
      var k': nat, m: nat :| m >= f.len && Marked(line, k', m, f.mark) && OnlyGaps(line, k' + m);
      assert k' == k && m == n;
    }
  }

  /** The trailing spaces a hard break is recognised by. */
  lemma TrailingSpacesAre(line: string, n: nat)
    requires n <= |line| && (forall q :: |line| - n <= q < |line| ==> line[q] == ' ')
    requires n < |line| ==> line[|line| - n - 1] != ' '
    ensures TrailingSpaces(line) == n
  {
    RStripPrefix(line, IsBlankChar, |line| - n);
  }

  lemma {:induction false} EmptyLine()
    ensures BlankLine("") && OpeningFence("") == None
  {
  }

  // ----- trailing empty lines

  /** What stripping newlines does to the list of lines: empty lines at the end go. */
  function DropEmptyEnd(lines: seq<string>): seq<string> {
    if lines == [] then [] else
      var rest := DropEmptyEnd(lines[1..]);
      if rest == [] && lines[0] == "" then [] else [lines[0]] + rest
  }

  /** The output's lines, as a list. */
  function CleanLines(lines: seq<string>): seq<string> {
    DropEmptyEnd(Emit(lines, BEGIN))
  }

  // ----- normalising twice

  /** Feeding a written block back in writes it again. */
  lemma {:induction false} EmitCons(x: string, lines: seq<string>, st: Scan)
    ensures Emit([x] + lines, st) == Written(st, x) + Emit(lines, Advance(st, x))
  {
    assert ([x] + lines)[1..] == lines;
  }

  /** The state in which the output of state `st` is read back. */
  function Reread(st: Scan): Scan {
    st.(pending := false)
  }

  /** A machine inside a fence has no blank line pending. */
  predicate Sound(st: Scan) {
    st.fence.Some? ==> !st.pending
  }

  /** A written line that is not an unfenced blank, read back in state `st`. */
  predicate Stable(st: Scan, x: string) {
    st.fence.None? ==> OpeningFence(x).Some? || (!BlankLine(x) && Trim(x) == x)
  }

  lemma {:induction false} WrittenShape(st: Scan, line: string) returns (x: string)
    ensures Written(st, line) == [] || Written(st, line) == [x] || (Written(st, line) == ["", x] && st.fence.None? && st.pending && st.started)
    ensures Written(st, line) == [] ==> st.fence.None? && OpeningFence(line).None? && BlankLine(line) && Advance(st, line) == st.(pending := true)
    ensures Written(st, line) != [] ==> Stable(st, x) && Advance(st, x) == Advance(st, line)
    ensures Written(st, line) == [x] && st.fence.None? ==> !(st.pending && st.started)
    ensures Written(st, line) != [] && (st.fence.Some? || OpeningFence(line).Some?) ==> x == line
    ensures Written(st, line) != [] && st.fence.None? && OpeningFence(line).None? ==>
      x == Trim(line) && !BlankLine(line) && OpeningFence(x).None?
  {
    OneLine(st, line);
    x := if st.fence.None? && OpeningFence(line).None? then Trim(line) else line;
    if st.fence.None? && OpeningFence(line).None? && !BlankLine(line) {
      TrimNotOpening(line);
      TrimKeepsHardBreak(line);
    }
    OneLine(st, x);
    hide OpeningFence, ClosingFence, BlankLine, Trim, Written, Advance;
  }

  /** Reading back a stable line writes it unchanged, and forgets any pending blank line. */
  lemma {:induction false} StableRead(st: Scan, x: string, rest: seq<string>)
    requires Sound(st) && Stable(st, x)
    ensures Emit([x] + rest, Reread(st)) == [x] + Emit(rest, Reread(Advance(st, x)))
    ensures st.fence.None? && st.pending && st.started ==>
      Emit(["", x] + rest, Reread(st)) == ["", x] + Emit(rest, Reread(Advance(st, x)))
  {
    StableLine(st, x);
    hide OpeningFence, ClosingFence, BlankLine, Trim, Written, Advance, Emit, Stable;
    EmitCons(x, rest, Reread(st));
    if st.fence.None? && st.pending && st.started {
      StablePending(st, x);
      EmitCons("", [x] + rest, Reread(st));
      EmitCons(x, rest, Advance(Reread(st), ""));
      assert ["", x] + rest == [""] + ([x] + rest);
      assert [] + Emit([x] + rest, Advance(Reread(st), "")) == Emit([x] + rest, Advance(Reread(st), ""));
    }
  }

  lemma {:induction false} StableLine(st: Scan, x: string)
    requires Sound(st) && Stable(st, x)
    ensures Written(Reread(st), x) == [x] && Advance(Reread(st), x) == Reread(Advance(st, x))
  {
    OneLine(st, x);
    OneLine(Reread(st), x);
  }

  /** A blank line is remembered, and written before the next stable line. */
  lemma {:induction false} StablePending(st: Scan, x: string)
    requires Sound(st) && Stable(st, x) && st.fence.None? && st.pending && st.started
    ensures Written(Reread(st), "") == []
    ensures Written(Advance(Reread(st), ""), x) == ["", x]
    ensures Advance(Advance(Reread(st), ""), x) == Reread(Advance(st, x))
  {
    EmptyLine();
    OneLine(st, x);
    OneLine(Reread(st), "");
    OneLine(Scan(None, true, true), x);
  }

  /** Re-reading what was written for one line, followed by `rest`. */
  lemma {:induction false} WrittenTwice(st: Scan, line: string, rest: seq<string>)
    requires Sound(st)
    ensures Emit(Written(st, line) + rest, Reread(st)) == Written(st, line) + Emit(rest, Reread(Advance(st, line)))
  {
    var x := WrittenShape(st, line);
    hide OpeningFence, BlankLine, Trim, Written, Advance, Emit, Stable;
    if Written(st, line) == [] {
      assert [] + rest == rest;
    } else {
      StableRead(st, x, rest);
    }
  }

  /** Trailing empty lines are dropped without changing what comes before. */
  lemma {:induction false} DropAfterWritten(st: Scan, line: string, rest: seq<string>)
    ensures st.fence.None? ==> DropEmptyEnd(Written(st, line) + rest) == Written(st, line) + DropEmptyEnd(rest)
    ensures st.fence.Some? ==>
      DropEmptyEnd(Written(st, line) + rest) == DropEmptyEnd([line] + rest)
      == (if DropEmptyEnd(rest) == [] && line == "" then [] else [line] + DropEmptyEnd(rest))
  {
    WrittenForms(st, line);
    hide *;
    var w := Written(st, line);
    if w == [] {
      assert w + rest == rest && w + DropEmptyEnd(rest) == DropEmptyEnd(rest);
    } else {
      var last := w[|w| - 1];
      DropCons(last, rest);
      if |w| == 2 {
        DropCons("", [last] + rest);
        Regroup([""], [last], rest);
        Regroup([""], [last], DropEmptyEnd(rest));
      }
    }
  }

  /** Nothing, one line, or an empty line and one that is not. */
  lemma WrittenForms(st: Scan, line: string)
    ensures st.fence.Some? ==> Written(st, line) == [line]
    ensures st.fence.None? ==>
      var w := Written(st, line);
      w == [] || (w == [w[0]] && w[0] != "") || (|w| == 2 && w == [""] + [w[1]] && w[1] != "")
  {
    OneLine(st, line);
    EmptyLine();
    if st.fence.None? && OpeningFence(line).None? && !BlankLine(line) {
      TrimKeepsHardBreak(line);
    }
    hide OpeningFence, ClosingFence, BlankLine, Trim, Written;
  }

  lemma DropCons(x: string, rest: seq<string>)
    ensures DropEmptyEnd([x] + rest)
         == if DropEmptyEnd(rest) == [] && x == "" then [] else [x] + DropEmptyEnd(rest)
  {
    assert ([x] + rest)[1..] == rest;
  }

  /** Cleaned output is a fixed point of the machine. */
  lemma {:induction false} CleanFixed(lines: seq<string>, st: Scan)
    requires Sound(st)
    ensures Emit(DropEmptyEnd(Emit(lines, st)), Reread(st)) == DropEmptyEnd(Emit(lines, st))
  {
    if lines != [] {
      var line, rest := lines[0], Emit(lines[1..], Advance(st, lines[0]));
      assert Emit(lines, st) == Written(st, line) + rest;
      CleanFixed(lines[1..], Advance(st, line));
      DropAfterWritten(st, line, rest);
      WrittenTwice(st, line, DropEmptyEnd(rest));
      FencedWritten(st, line);
      hide Written, Advance, DropEmptyEnd, OpeningFence, BlankLine;
    }
  }

  lemma {:induction false} FencedWritten(st: Scan, line: string)
    ensures st.fence.Some? ==> Written(st, line) == [line]
    ensures Emit([], Reread(st)) == []
  {
  }

  lemma {:induction false} DropTwice(lines: seq<string>)
    ensures DropEmptyEnd(DropEmptyEnd(lines)) == DropEmptyEnd(lines)
  {
    if lines != [] {
      DropTwice(lines[1..]);
    }
  }

  /** Cleaning the cleaned lines changes nothing. */
  lemma {:induction false} CleanTwice(lines: seq<string>)
    ensures CleanLines(CleanLines(lines)) == CleanLines(lines)
  {
    CleanFixed(lines, BEGIN);
    DropTwice(Emit(lines, BEGIN));
  }

  // ----- from lines to text

  predicate LineLike(s: string) {
    '\n' !in s && '\r' !in s
  }

  predicate AllLineLike(lines: seq<string>) {
    forall i :: 0 <= i < |lines| ==> LineLike(lines[i])
  }

  lemma {:induction false} WrittenLineLike(st: Scan, line: string)
    requires LineLike(line)
    ensures AllLineLike(Written(st, line))
  {
    OneLine(st, line);
    var k := RStripCut(line, IsGap);
    hide OpeningFence, ClosingFence, BlankLine, Written;
  }

  lemma {:induction false} EmitLineLike(lines: seq<string>, st: Scan)
    requires AllLineLike(lines)
    ensures AllLineLike(Emit(lines, st))
  {
    hide Written, Advance, LineLike;
    if lines != [] {
      WrittenLineLike(st, lines[0]);
      EmitLineLike(lines[1..], Advance(st, lines[0]));
    }
  }

  lemma {:induction false} DropLineLike(lines: seq<string>)
    requires AllLineLike(lines)
    ensures AllLineLike(DropEmptyEnd(lines))
    ensures var d := DropEmptyEnd(lines);
      && |d| <= |lines|
      && (d != [] ==> d[0] == lines[0] && d[|d| - 1] != "")
  {
    hide LineLike;
    if lines != [] {
      DropLineLike(lines[1..]);
    }
  }

  lemma {:induction false} SplitLineLike(text: string)
    ensures AllLineLike(Split(UnixLines(text), '\n'))
  {
    var s := UnixLines(text);
    UnixNoReturn(text);
    JoinSplit(s, '\n');
    forall i | 0 <= i < |Split(s, '\n')| ensures '\r' !in Split(s, '\n')[i] {
      SplitChars(s, '\n', i, '\r');
    }
  }

  lemma {:induction false} SplitChars(s: string, c: char, i: nat, x: char)
    requires i < |Split(s, c)|
    ensures x in Split(s, c)[i] ==> x in s
  {
    if s != "" {
      var rest := Split(s[1..], c);
      if s[0] == c {
        if i > 0 {
          SplitChars(s[1..], c, i - 1, x);
        }
      } else if i > 0 {
        SplitChars(s[1..], c, i, x);
      } else if x != s[0] {
        SplitChars(s[1..], c, 0, x);
      }
    }
  }

  lemma {:induction false} JoinChars(parts: seq<string>, x: char)
    requires x in Join("\n", parts)
    ensures x == '\n' || exists i :: 0 <= i < |parts| && x in parts[i]
  {
    if |parts| > 1 && x !in parts[0] && x != '\n' {
      JoinChars(parts[1..], x);
      var i :| 0 <= i < |parts[1..]| && x in parts[1..][i];
      assert x in parts[i + 1];
    }
  }

  /** Joining lines and stripping newlines is dropping the empty lines at the end, when the first line is not empty. */
  lemma {:induction false} JoinStripped(lines: seq<string>)
    requires AllLineLike(lines) && (lines != [] ==> lines[0] != "")
    ensures StripBy(Join("\n", lines), IsNewline) == Join("\n", DropEmptyEnd(lines))
  {
    if lines != [] {
      var s := Join("\n", lines);
      assert s[0] == lines[0][0] by {
        JoinFirst(lines);
      }
      assert lines[0][0] in lines[0];
      assert LStripBy(s, IsNewline) == s;
      JoinRStripped(lines);
    }
  }

  lemma {:induction false} JoinFirst(lines: seq<string>)
    requires lines != [] && lines[0] != ""
    ensures Join("\n", lines) != "" && Join("\n", lines)[0] == lines[0][0]
  {
  }

  lemma {:induction false} JoinRStripped(lines: seq<string>)
    requires AllLineLike(lines)
    ensures RStripBy(Join("\n", lines), IsNewline) == Join("\n", DropEmptyEnd(lines))
  {
    if lines != [] {
      var init, last := lines[..|lines| - 1], lines[|lines| - 1];
      assert lines == init + [last];
      DropSnoc(init, last);
      if init == [] {
        assert init + [last] == [last];
        assert Join("\n", lines) == last;
        LastNotNewline(last);
        assert DropEmptyEnd([last]) == if last == "" then [] else [last] + DropEmptyEnd([last][1..]);
      } else {
        JoinAppend("\n", init, [last]);
        assert Join("\n", [last]) == last;
        if last == "" {
          JoinRStripped(init);
          var s := Join("\n", init);
          assert s + "\n" + "" == s + "\n";
          assert (s + "\n")[..|s|] == s;
        } else {
          LastNotNewline(last);
          var s := Join("\n", lines);
          assert s[|s| - 1] == last[|last| - 1];
        }
      }
    }
  }

  lemma {:induction false} LastNotNewline(s: string)
    requires LineLike(s)
    ensures s != "" ==> !IsNewline(s[|s| - 1])
    ensures RStripBy(s, IsNewline) == s
  {
  }

  lemma {:induction false} DropSnoc(init: seq<string>, last: string)
    ensures DropEmptyEnd(init + [last]) == if last == "" then DropEmptyEnd(init) else init + [last]
  {
    if init == [] {
      assert init + [last] == [last];
      assert [last] + [] == [last];
    } else {
      assert (init + [last])[1..] == init[1..] + [last];
      DropSnoc(init[1..], last);
      assert init == [init[0]] + init[1..];
    }
  }

  lemma {:induction false} EmitFirst(lines: seq<string>, st: Scan)
    requires !st.started && st.fence.None?
    ensures Emit(lines, st) != [] ==> Emit(lines, st)[0] != ""
  {
    if lines != [] {
      OneLine(st, lines[0]);
      if OpeningFence(lines[0]).None? && BlankLine(lines[0]) {
        hide OpeningFence, Written, Advance;
        EmitFirst(lines[1..], Advance(st, lines[0]));
        assert [] + Emit(lines[1..], Advance(st, lines[0])) == Emit(lines[1..], Advance(st, lines[0]));
      } else if OpeningFence(lines[0]).None? {
        TrimKeepsHardBreak(lines[0]);
      }
    }
  }

  /** The normalised text is the cleaned lines, joined; and splitting it gives them back. */
  lemma {:induction false} NormalizedIsClean(text: string)
    ensures var out := CleanLines(Split(UnixLines(text), '\n'));
      && NormalizeMarkdown(text) == Join("\n", out)
      && AllLineLike(out)
      && UnixLines(Join("\n", out)) == Join("\n", out)
      && Split(Join("\n", out), '\n') == if out == [] then [""] else out
  {
    var lines := Split(UnixLines(text), '\n');
    SplitLineLike(text);
    hide Split, UnixLines;
    EmitLineLike(lines, BEGIN);
    EmitFirst(lines, BEGIN);
    JoinStripped(Emit(lines, BEGIN));
    DropLineLike(Emit(lines, BEGIN));
    var out := CleanLines(lines);
    hide Emit, CleanLines;
    assert '\r' !in Join("\n", out) by {
      if '\r' in Join("\n", out) {
        JoinChars(out, '\r');
        assert false;
      }
    }
    UnixFixed(Join("\n", out));
    if out == [] {
      NothingSplit();
    } else {
      SplitJoin(out, '\n');
    }
  }

  lemma {:induction false} NothingSplit()
    ensures Split("", '\n') == [""]
    ensures Emit([""], BEGIN) == []
  {
    EmptyLine();
    assert [""][1..] == [];
    OneLine(BEGIN, "");
    assert Emit([""], BEGIN) == Written(BEGIN, "") + Emit([""][1..], Advance(BEGIN, ""));
  }

  /** Normalising twice is normalising once. */
  lemma {:induction false} NormalizeIdempotent(text: string)
    ensures NormalizeMarkdown(NormalizeMarkdown(text)) == NormalizeMarkdown(text)
  {
    hide NormalizeMarkdown, UnixLines, Split;
    var out := CleanLines(Split(UnixLines(text), '\n'));
    NormalizedIsClean(text);
    NormalizedIsClean(NormalizeMarkdown(text));
    CleanTwice(Split(UnixLines(text), '\n'));
    NothingSplit();
    if out == [] {
      assert CleanLines([""]) == [];
    }
  }

  // ----- fenced blocks

  /** `body` never closes the fence. */
  predicate Open(body: seq<string>, f: Fence) {
    forall i :: 0 <= i < |body| ==> !ClosingFence(body[i], f)
  }

  lemma {:induction false} BodyVerbatim(body: seq<string>, st: Scan)
    requires st.fence.Some? && Open(body, st.fence.value) && st.started && !st.pending
    ensures Emit(body, st) == body && ScanAfter(body, st) == st
    decreases body
  {
    if body != [] {
      OneLine(st, body[0]);
      assert !ClosingFence(body[0], st.fence.value);
      hide Written, Advance, ClosingFence;
      assert Advance(st, body[0]) == st;
      BodyVerbatim(body[1..], st);
    }
  }

  lemma {:induction false} CloseNotEmpty(line: string, f: Fence)
    requires ClosingFence(line, f) && f.len >= 1
    ensures line != ""
  {
  }

  /** The blank line, if any, that the machine writes before its next line. */
  function Gap(st: Scan): seq<string> {
    if st.pending && st.started then [""] else []
  }

  lemma {:induction false} BlockEmitted(st: Scan, open: string, body: seq<string>, close: string, post: seq<string>)
    requires st.fence == None
    requires OpeningFence(open).Some? && Open(body, OpeningFence(open).value)
    requires ClosingFence(close, OpeningFence(open).value)
    ensures Emit([open] + (body + ([close] + post)), st)
         == Gap(st) + ([open] + (body + ([close] + Emit(post, Scan(None, false, true)))))
  {
    var f := OpeningFence(open).value;
    var inside := Scan(Some(f), false, true);
    OneLine(st, open);
    OneLine(inside, close);
    hide OpeningFence, ClosingFence, Written, Advance, Emit;
    EmitCons(open, body + ([close] + post), st);
    BodyVerbatim(body, inside);
    EmitAppend(body, [close] + post, inside);
    EmitCons(close, post, inside);
    var tail := body + ([close] + Emit(post, Scan(None, false, true)));
    assert ["", open] + tail == [""] + ([open] + tail);
    assert [] + ([open] + tail) == [open] + tail;
  }

  /**
   * Every fenced block appears in the output verbatim and contiguously, whatever surrounds it: a line of at least three
   * backticks or tildes, lines none of which closes it, and one that does.
   */
  lemma {:induction false} FencedBlockVerbatim(
    pre: seq<string>, open: string, n: nat, mark: char, body: seq<string>, close: string, post: seq<string>)
    requires ScanAfter(pre, BEGIN).fence == None
    requires Opens(open, n, mark) && Closes(close, n, mark)
    requires forall k :: 0 <= k < |body| ==> !Closes(body[k], n, mark)
    ensures CleanLines(pre + ([open] + (body + ([close] + post))))
         == Emit(pre, BEGIN) + Gap(ScanAfter(pre, BEGIN))
            + ([open] + (body + ([close] + DropEmptyEnd(Emit(post, Scan(None, false, true))))))
  {
    var f := Fence(mark, n);
    OpeningFenceIff(open, f);
    ClosingFenceIff(close, f);
    forall k | 0 <= k < |body| ensures !ClosingFence(body[k], f) {
      ClosingFenceIff(body[k], f);
    }
    hide OpeningFence, ClosingFence, Emit, DropEmptyEnd, Opens, Closes, ScanAfter;
    CloseNotEmpty(close, f);
    var st := ScanAfter(pre, BEGIN);
    BlockEmitted(st, open, body, close, post);
    EmitAppend(pre, [open] + (body + ([close] + post)), BEGIN);
    BlockKept(Emit(pre, BEGIN), Gap(st), open, body, close, Emit(post, Scan(None, false, true)));
  }

  lemma {:induction false} BlockKept(a: seq<string>, gap: seq<string>, open: string, body: seq<string>, close: string, tail: seq<string>)
    requires close != ""
    ensures DropEmptyEnd(a + (gap + ([open] + (body + ([close] + tail)))))
         == a + gap + ([open] + (body + ([close] + DropEmptyEnd(tail))))
  {
    hide DropEmptyEnd;
    var front := a + gap + [open] + body;
    DropKeeps(front, close, tail);
    assert a + (gap + ([open] + (body + ([close] + tail)))) == front + ([close] + tail);
    assert a + gap + ([open] + (body + ([close] + DropEmptyEnd(tail)))) == front + ([close] + DropEmptyEnd(tail));
  }

  lemma {:induction false} DropKeeps(a: seq<string>, x: string, tail: seq<string>)
    requires x != ""
    ensures DropEmptyEnd(a + ([x] + tail)) == a + ([x] + DropEmptyEnd(tail))
  {
    if a == [] {
      assert a + ([x] + tail) == [x] + tail;
    } else {
      assert (a + ([x] + tail))[1..] == a[1..] + ([x] + tail);
      DropKeeps(a[1..], x, tail);
      assert a == [a[0]] + a[1..];
    }
  }

  // ----- blank lines

  lemma BlankIff(line: string)
    ensures BlankLine(line) <==> OnlyGaps(line, 0)
    ensures OnlyGaps(line, 0) ==> OpeningFence(line) == None
  {
    StripFree(line, IsGap);
    var k := LStripCut(line, IsBlankChar);
    hide StripBy;
  }

  /** A line outside fences that is not blank, as it is written. */
  function Shown(line: string): string {
    if OpeningFence(line) == None then Trim(line) else line
  }

  lemma ShownNotEmpty(line: string)
    requires !OnlyGaps(line, 0)
    ensures Shown(line) != ""
  {
    BlankIff(line);
    if OpeningFence(line) == None {
      TrimKeepsHardBreak(line);
    } else {
      EmptyLine();
    }
  }

  lemma {:induction false} BlanksPend(blanks: seq<string>, started: bool, pending: bool)
    requires forall k :: 0 <= k < |blanks| ==> OnlyGaps(blanks[k], 0)
    ensures var st := Scan(None, pending, started);
      && Emit(blanks, st) == []
      && ScanAfter(blanks, st) == Scan(None, pending || blanks != [], started)
    decreases blanks
  {
    if blanks != [] {
      BlankIff(blanks[0]);
      OneLine(Scan(None, pending, started), blanks[0]);
      BlanksPend(blanks[1..], started, true);
      hide OnlyGaps, OpeningFence, BlankLine, Trim, Written, Advance;
    }
  }

  lemma TextWritten(st: Scan, line: string)
    requires st.fence.None? && !OnlyGaps(line, 0)
    ensures Written(st, line) == (if st.pending && st.started then [""] else []) + [Shown(line)]
    ensures Advance(st, line) == Scan(OpeningFence(line), false, true)
  {
    BlankIff(line);
    OneLine(st, line);
    hide OnlyGaps, OpeningFence, BlankLine, Trim;
  }

  /** Outside fences a run of blank lines between two others is written as one empty line, and no blank line as none. */
  lemma {:induction false} BlankRunShrinks(pre: seq<string>, x: string, blanks: seq<string>, y: string, post: seq<string>)
    requires ScanAfter(pre, BEGIN).fence == None && OpeningFence(x) == None
    requires !OnlyGaps(x, 0) && !OnlyGaps(y, 0) && forall k :: 0 <= k < |blanks| ==> OnlyGaps(blanks[k], 0)
    ensures CleanLines(pre + ([x] + (blanks + ([y] + post))))
         == Emit(pre, BEGIN) + Gap(ScanAfter(pre, BEGIN)) + [Shown(x)] + (if blanks == [] then [] else [""])
            + ([Shown(y)] + DropEmptyEnd(Emit(post, Scan(OpeningFence(y), false, true))))
  {
    hide OpeningFence, OnlyGaps, Emit, ScanAfter, DropEmptyEnd, Written, Advance, Trim, Shown;
    var st := ScanAfter(pre, BEGIN);
    var mid, end := Scan(None, false, true), Scan(None, blanks != [], true);
    var next := Scan(OpeningFence(y), false, true);
    EmitAppend(pre, [x] + (blanks + ([y] + post)), BEGIN);
    EmitCons(x, blanks + ([y] + post), st);
    TextWritten(st, x);
    EmitAppend(blanks, [y] + post, mid);
    BlanksPend(blanks, true, false);
    EmitCons(y, post, end);
    TextWritten(end, y);
    ShownNotEmpty(y);
    var front := Emit(pre, BEGIN) + Gap(st) + [Shown(x)] + (if blanks == [] then [] else [""]);
    DropKeeps(front, Shown(y), Emit(post, next));
    GapsMatch(Emit(pre, BEGIN), Gap(st), Shown(x), if blanks == [] then [] else [""], Shown(y), Emit(post, next));
  }

  lemma GapsMatch(a: seq<string>, g: seq<string>, x: string, h: seq<string>, y: string, tail: seq<string>)
    ensures a + ((g + [x]) + ([] + ((h + [y]) + tail))) == (a + g + [x] + h) + ([y] + tail)
  {
  }

  // ----- the shape of the output

  /**
   * Reading the output from state `fence`: an unfenced blank line is empty, only where `mayBlank`, and always followed
   * by a line that is not blank; unfenced text lines are trimmed.
   */
  predicate Tidy(out: seq<string>, fence: Option<Fence>, mayBlank: bool)
    decreases out
  {
    if out == [] then true
    else if fence.Some? then Tidy(out[1..], if ClosingFence(out[0], fence.value) then None else fence, true)
    else if OpeningFence(out[0]).Some? then Tidy(out[1..], OpeningFence(out[0]), true)
    else if BlankLine(out[0]) then
      && mayBlank && out[0] == "" && |out| > 1
      && (OpeningFence(out[1]).Some? || !BlankLine(out[1]))
      && Tidy(out[1..], None, false)
    else Trim(out[0]) == out[0] && Tidy(out[1..], None, true)
  }

  lemma {:induction false} TidyText(x: string, rest: seq<string>, mayBlank: bool)
    requires OpeningFence(x).None? && !BlankLine(x) && Trim(x) == x && Tidy(rest, None, true)
    ensures Tidy([x] + rest, None, mayBlank)
  {
    assert ([x] + rest)[1..] == rest;
  }

  lemma {:induction false} TidyOpening(x: string, rest: seq<string>, mayBlank: bool)
    requires OpeningFence(x).Some? && Tidy(rest, OpeningFence(x), true)
    ensures Tidy([x] + rest, None, mayBlank)
  {
    assert ([x] + rest)[1..] == rest;
  }

  lemma {:induction false} TidyBlank(x: string, rest: seq<string>)
    requires OpeningFence(x).Some? || !BlankLine(x)
    requires Tidy([x] + rest, None, false)
    ensures Tidy(["", x] + rest, None, true)
  {
    EmptyLine();
    assert (["", x] + rest)[1..] == [x] + rest;
    hide OpeningFence, BlankLine, Trim;
  }

  lemma {:induction false} TidyFenced(x: string, rest: seq<string>, f: Fence)
    requires Tidy(rest, if ClosingFence(x, f) then None else Some(f), true)
    ensures Tidy([x] + rest, Some(f), true)
  {
    assert ([x] + rest)[1..] == rest;
  }

  /** No blank first or last line, no two blank lines in a row outside fences, no stray trailing white space. */
  lemma {:induction false} OutputTidy(lines: seq<string>, st: Scan)
    requires Sound(st)
    ensures Tidy(DropEmptyEnd(Emit(lines, st)), st.fence, st.started)
    decreases lines
  {
    if lines != [] {
      var line, next := lines[0], Advance(st, lines[0]);
      var rest := Emit(lines[1..], next);
      assert Emit(lines, st) == Written(st, line) + rest;
      OneLine(st, line);
      OutputTidy(lines[1..], next);
      DropAfterWritten(st, line, rest);
      var out := DropEmptyEnd(rest);
      if st.fence.Some? {
        hide Emit, Written, Advance, ClosingFence, DropEmptyEnd;
        FencedTidy(st, line, out, next);
      } else if OpeningFence(line).Some? {
        hide Emit, Written, Advance, DropEmptyEnd, OpeningFence;
        TidyOpening(line, out, st.started);
        TidyOpening(line, out, false);
        TidyBlank(line, out);
      } else if BlankLine(line) {
        hide Emit, Written, Advance, DropEmptyEnd, OpeningFence, BlankLine, Tidy;
        assert [] + out == out;
      } else {
        TrimNotOpening(line);
        TrimKeepsHardBreak(line);
        hide Emit, Written, Advance, DropEmptyEnd, OpeningFence, BlankLine, Trim;
        TidyText(Trim(line), out, st.started);
        TidyText(Trim(line), out, false);
        TidyBlank(Trim(line), out);
      }
    }
  }

  lemma {:induction false} FencedTidy(st: Scan, line: string, out: seq<string>, next: Scan)
    requires st.fence.Some?
    requires next == Scan(if ClosingFence(line, st.fence.value) then None else st.fence, st.pending, true)
    requires Tidy(out, next.fence, next.started)
    ensures Tidy([line] + out, st.fence, st.started)
  {
    hide ClosingFence, Tidy;
    TidyFenced(line, out, st.fence.value);
    FencedAny([line] + out, st.fence.value, st.started);
  }

  lemma {:induction false} FencedAny(out: seq<string>, f: Fence, b: bool)
    requires Tidy(out, Some(f), true)
    ensures Tidy(out, Some(f), b)
  {
  }

  /** The fence open before line `k` when a text is read from its beginning. */
  function FenceBefore(out: seq<string>, fence: Option<Fence>, k: nat): Option<Fence>
    requires k <= |out|
  {
    if k == 0 then fence
    else FenceBefore(out[1..], if fence.Some? then (if ClosingFence(out[0], fence.value) then None else fence)
                               else OpeningFence(out[0]), k - 1)
  }

  /** The same, line by line: an unfenced blank line is empty, neither first nor last, and its successor is not blank. */
  lemma {:induction false} TidyAt(out: seq<string>, fence: Option<Fence>, mayBlank: bool, k: nat)
    requires Tidy(out, fence, mayBlank) && k < |out|
    requires FenceBefore(out, fence, k) == None && OpeningFence(out[k]).None?
    ensures BlankLine(out[k]) ==>
      && out[k] == "" && k + 1 < |out| && (k == 0 ==> mayBlank)
      && (OpeningFence(out[k + 1]).Some? || !BlankLine(out[k + 1]))
    ensures !BlankLine(out[k]) ==> Trim(out[k]) == out[k]
    decreases k
  {
    hide OpeningFence, ClosingFence, BlankLine, Trim;
    if k > 0 {
      var next := if fence.Some? then (if ClosingFence(out[0], fence.value) then None else fence) else OpeningFence(out[0]);
      var may := !(fence.None? && OpeningFence(out[0]).None? && BlankLine(out[0]));
      assert Tidy(out[1..], next, may);
      TidyAt(out[1..], next, may, k - 1);
    }
  }

  /** The whole output. */
  lemma {:induction false} NormalizedLinesTidy(text: string, k: nat)
    requires var out := CleanLines(Split(UnixLines(text), '\n'));
      k < |out| && FenceBefore(out, None, k) == None && OpeningFence(out[k]).None?
    ensures var out := CleanLines(Split(UnixLines(text), '\n'));
      && (BlankLine(out[k]) ==>
            && out[k] == "" && 0 < k < |out| - 1
            && (OpeningFence(out[k + 1]).Some? || !BlankLine(out[k + 1])))
      && (!BlankLine(out[k]) ==> Trim(out[k]) == out[k])
  {
    OutputTidy(Split(UnixLines(text), '\n'), BEGIN);
    hide Split, UnixLines, Emit, OpeningFence, BlankLine, Trim, FenceBefore, Tidy;
    TidyAt(CleanLines(Split(UnixLines(text), '\n')), None, false, k);
  }

  // ----- nothing else is lost

  /** Fenced lines and the non-blank unfenced ones, the latter trimmed. */
  function Content(lines: seq<string>, st: Scan): seq<string> {
    if lines == [] then [] else
      (if st.fence.None? && OpeningFence(lines[0]).None? then (if BlankLine(lines[0]) then [] else [Trim(lines[0])])
       else [lines[0]]) + Content(lines[1..], Advance(st, lines[0]))
  }

  lemma {:induction false} ContentCons(x: string, rest: seq<string>, st: Scan)
    ensures Content([x] + rest, st) ==
      (if st.fence.None? && OpeningFence(x).None? then (if BlankLine(x) then [] else [Trim(x)]) else [x])
      + Content(rest, Advance(st, x))
  {
    hide OpeningFence, BlankLine, Trim, Advance;
    assert ([x] + rest)[1..] == rest;
  }

  /** The output has the same content lines as the input, in the same order. */
  lemma {:induction false} ContentKept(lines: seq<string>, st: Scan)
    requires Sound(st)
    ensures Content(Emit(lines, st), Reread(st)) == Content(lines, st)
    decreases lines
  {
    if lines != [] {
      var line, next := lines[0], Advance(st, lines[0]);
      var rest := Emit(lines[1..], next);
      ContentKept(lines[1..], next);
      ContentWritten(st, line, rest);
      ContentCons(line, lines[1..], st);
      assert lines == [line] + lines[1..];
      hide Content, Written, Advance, OpeningFence, BlankLine, Trim;
    }
  }

  lemma {:induction false} ContentWritten(st: Scan, line: string, rest: seq<string>)
    requires Sound(st)
    ensures Content(Written(st, line) + rest, Reread(st)) ==
      (if st.fence.None? && OpeningFence(line).None? then (if BlankLine(line) then [] else [Trim(line)]) else [line])
      + Content(rest, Reread(Advance(st, line)))
  {
    var x := WrittenShape(st, line);
    hide OpeningFence, BlankLine, Trim, Written, Advance, Content;
    if Written(st, line) == [] {
      assert [] + rest == rest && [] + Content(rest, Reread(st)) == Content(rest, Reread(st));
    } else {
      ContentStable(st, x, rest);
    }
  }

  lemma {:induction false} ContentStable(st: Scan, x: string, rest: seq<string>)
    requires Sound(st) && Stable(st, x)
    ensures Content([x] + rest, Reread(st)) == [x] + Content(rest, Reread(Advance(st, x)))
    ensures st.fence.None? && st.pending && st.started ==>
      Content(["", x] + rest, Reread(st)) == [x] + Content(rest, Reread(Advance(st, x)))
  {
    ContentCons(x, rest, Reread(st));
    OneLine(st, x);
    OneLine(Reread(st), x);
    EmptyLine();
    OneLine(Reread(st), "");
    ContentCons("", [x] + rest, Reread(st));
    ContentCons(x, rest, Scan(None, true, true));
    OneLine(Scan(None, true, true), x);
    assert ["", x] + rest == [""] + ([x] + rest);
    hide OpeningFence, ClosingFence, BlankLine, Trim, Written, Advance, Content;
  }
}
