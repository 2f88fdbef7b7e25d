/** Removal of chart labels and of lines above figure captions. */
module ChartDebris {
  import opened Seqs
  import opened Text

  predicate BlankLine(s: string) { Strip(s) == "" }

  predicate Soft(debris: string -> bool, s: string) { debris(s) || BlankLine(s) }

  // ----- runs of chart labels

  /** How many lines at the front are debris or blank. */
  function RunLength(debris: string -> bool, lines: seq<string>): (n: nat)
    ensures n <= |lines|
    ensures n < |lines| ==> !Soft(debris, lines[n])
  {
    if lines == [] || !Soft(debris, lines[0]) then 0 else 1 + RunLength(debris, lines[1..])
  }

  predicate LeadsRun(debris: string -> bool, lines: seq<string>) {
    lines != [] && debris(lines[0]) && RunLength(debris, lines) >= 3
  }

  function DropRuns(debris: string -> bool, lines: seq<string>): seq<string>
    decreases |lines|
  {
    if lines == [] then []
    else if LeadsRun(debris, lines) then DropRuns(debris, lines[RunLength(debris, lines)..])
    else [lines[0]] + DropRuns(debris, lines[1..])
  }

  method DropChartRuns(debris: string -> bool, lines: seq<string>) returns (out: seq<string>)
    ensures out == DropRuns(debris, lines)
  {
    hide DropRuns, RunLength, Soft;
    out := [];
    var i := 0;
    assert lines[0..] == lines;
    while i < |lines|
      invariant i <= |lines|
      invariant out + DropRuns(debris, lines[i..]) == DropRuns(debris, lines)
    {
      ghost var rest := lines[i..];
      DropStep(debris, rest);
      RunAt(debris, lines, i);
      if debris(lines[i]) {
        var j := i;
        while j < |lines| && Soft(debris, lines[j])
          invariant i <= j <= i + RunLength(debris, rest)
        {
          j := j + 1;
        }
        if j - i >= 3 {
          assert rest[j - i..] == lines[j..];
          i := j;
          continue;
        }
      }
      assert rest[1..] == lines[i + 1..];
      out := out + [lines[i]];
      i := i + 1;
    }
    assert lines[i..] == [];
    DropNothing(debris);
  }

  lemma DropNothing(debris: string -> bool)
    ensures DropRuns(debris, []) == []
  {
  }

  /** Line k belongs to a run of at least three debris or blank lines that starts with debris. */
  ghost predicate InRun(debris: string -> bool, lines: seq<string>, k: nat) {
    exists i, j :: 0 <= i <= k < j <= |lines| && RunSpan(debris, lines, i, j)
  }

  ghost predicate RunSpan(debris: string -> bool, lines: seq<string>, i: nat, j: nat) {
    && i + 3 <= j <= |lines|
    && debris(lines[i])
    && forall t :: i <= t < j ==> Soft(debris, lines[t])
  }

  /** The lines from k on that belong to no run. */
  ghost function OutsideRuns(debris: string -> bool, lines: seq<string>, k: nat): seq<string>
    requires k <= |lines|
    decreases |lines| - k
  {
    if k == |lines| then []
    else (if InRun(debris, lines, k) then [] else [lines[k]]) + OutsideRuns(debris, lines, k + 1)
  }

  /** No run that includes line k starts before it. */
  ghost predicate Boundary(debris: string -> bool, lines: seq<string>, k: nat) {
    forall i, j :: 0 <= i < k < j <= |lines| ==> !RunSpan(debris, lines, i, j)
  }

  lemma {:induction false} RunAt(debris: string -> bool, lines: seq<string>, k: nat)
    requires k <= |lines|
    ensures var n := RunLength(debris, lines[k..]);
      k + n <= |lines| && (forall t :: k <= t < k + n ==> Soft(debris, lines[t]))
      && (k + n < |lines| ==> !Soft(debris, lines[k + n]))
    decreases |lines| - k
  {
    if k < |lines| && Soft(debris, lines[k]) {
      RunAt(debris, lines, k + 1);
      assert lines[k..][1..] == lines[k + 1..];
    }
  }

  lemma {:induction false} SkipRun(debris: string -> bool, lines: seq<string>, k: nat, i: nat, j: nat)
    requires i <= k <= j <= |lines| && RunSpan(debris, lines, i, j)
    ensures OutsideRuns(debris, lines, k) == OutsideRuns(debris, lines, j)
    decreases j - k
  {
    if k < j {
      assert InRun(debris, lines, k);
      SkipRun(debris, lines, k + 1, i, j);
    }
  }

  lemma {:induction false} DropsFrom(debris: string -> bool, lines: seq<string>, k: nat)
    requires k <= |lines| && Boundary(debris, lines, k)
    ensures DropRuns(debris, lines[k..]) == OutsideRuns(debris, lines, k)
    decreases |lines| - k
  {
    hide *;
    if k == |lines| {
      NothingFrom(debris, lines);
    } else {
      var rest := lines[k..];
      var n := RunLength(debris, rest);
      DropStep(debris, rest);
      OutsideStep(debris, lines, k);
      assert rest[n..] == lines[k + n..] && rest[1..] == lines[k + 1..];
      if LeadsRun(debris, rest) {
        LeadsSpan(debris, lines, k);
        SkipRun(debris, lines, k, k, k + n);
        DropsFrom(debris, lines, k + n);
      } else {
        NotInRun(debris, lines, k);
        DropsFrom(debris, lines, k + 1);
      }
    }
  }

  lemma NothingFrom(debris: string -> bool, lines: seq<string>)
    ensures DropRuns(debris, lines[|lines|..]) == OutsideRuns(debris, lines, |lines|)
  {
    assert lines[|lines|..] == [];
  }

  lemma {:induction false} NotInRun(debris: string -> bool, lines: seq<string>, k: nat)
    requires k < |lines| && Boundary(debris, lines, k) && !LeadsRun(debris, lines[k..])
    ensures !InRun(debris, lines, k) && Boundary(debris, lines, k + 1)
  {
    hide RunLength, Soft, LeadsRun, RunSpan;
    forall i, j | 0 <= i <= k < j <= |lines| ensures !RunSpan(debris, lines, i, j) {
      if RunSpan(debris, lines, k, j) {
        SpanLeads(debris, lines, k, j);
      }
    }
  }

  lemma {:induction false} SpanLeads(debris: string -> bool, lines: seq<string>, k: nat, j: nat)
    requires k < j <= |lines| && RunSpan(debris, lines, k, j)
    ensures LeadsRun(debris, lines[k..])
  {
    hide RunLength;
    RunAt(debris, lines, k);
  }

  lemma DropStep(debris: string -> bool, lines: seq<string>)
    requires lines != []
    ensures DropRuns(debris, lines) ==
      if LeadsRun(debris, lines) then DropRuns(debris, lines[RunLength(debris, lines)..])
      else [lines[0]] + DropRuns(debris, lines[1..])
  {
  }

  lemma OutsideStep(debris: string -> bool, lines: seq<string>, k: nat)
    requires k < |lines|
    ensures OutsideRuns(debris, lines, k) ==
      (if InRun(debris, lines, k) then [] else [lines[k]]) + OutsideRuns(debris, lines, k + 1)
  {
  }

  lemma {:induction false} LeadsSpan(debris: string -> bool, lines: seq<string>, k: nat)
    requires k < |lines| && LeadsRun(debris, lines[k..])
    ensures var j := k + RunLength(debris, lines[k..]);
      k < j <= |lines| && RunSpan(debris, lines, k, j) && Boundary(debris, lines, j)
  {
    hide RunLength;
    RunAt(debris, lines, k);
  }

  /** Exactly the lines outside runs of three or more survive, in order. */
  lemma {:induction false} DropsExactly(debris: string -> bool, lines: seq<string>)
    ensures DropRuns(debris, lines) == OutsideRuns(debris, lines, 0)
  {
    DropsFrom(debris, lines, 0);
    assert lines[0..] == lines;
  }

  predicate Prose(debris: string -> bool, s: string) { !Soft(debris, s) }

  /** Every line that is neither debris nor blank is kept, in order. */
  lemma {:induction false} ProseKept(debris: string -> bool, lines: seq<string>)
    ensures var prose := s => Prose(debris, s);
      Filter(DropRuns(debris, lines), prose) == Filter(lines, prose)
    decreases |lines|
  {
    var prose := s => Prose(debris, s);
    if lines != [] {
      hide DropRuns, RunLength, Filter;
      DropStep(debris, lines);
      var n := RunLength(debris, lines);
      if LeadsRun(debris, lines) {
        ProseKept(debris, lines[n..]);
        RunAt(debris, lines, 0);
        assert lines[0..] == lines;
        NoProse(debris, lines[..n], prose);
        FilterAppend(lines[..n], lines[n..], prose);
        assert lines == lines[..n] + lines[n..];
      } else {
        ProseKept(debris, lines[1..]);
        FilterCons(lines[0], lines[1..], prose);
        FilterCons(lines[0], DropRuns(debris, lines[1..]), prose);
        assert lines == [lines[0]] + lines[1..];
      }
    }
  }

  lemma {:induction false} NoProse(debris: string -> bool, run: seq<string>, prose: string -> bool)
    requires forall s :: s in run ==> !prose(s)
    ensures Filter(run, prose) == []
  {
    if run != [] {
      NoProse(debris, run[1..], prose);
    }
  }

  /** No debris-led run of three or more. */
  ghost predicate NoRuns(debris: string -> bool, lines: seq<string>) {
    forall k :: 0 <= k < |lines| ==> !LeadsRun(debris, lines[k..])
  }

  lemma {:induction false} ShortRunStays(debris: string -> bool, lines: seq<string>)
    requires RunLength(debris, lines) < 3
    ensures RunLength(debris, DropRuns(debris, lines)) == RunLength(debris, lines)
  {
    if lines != [] && Soft(debris, lines[0]) {
      var rest := lines[1..];
      ShortRunStays(debris, rest);
      var out := DropRuns(debris, lines);
      assert out == [lines[0]] + DropRuns(debris, rest);
      assert out[1..] == DropRuns(debris, rest);
    }
  }

  /** No debris-led run of three or more is left. */
  lemma {:induction false} NoRunsLeft(debris: string -> bool, lines: seq<string>)
    ensures NoRuns(debris, DropRuns(debris, lines))
    decreases |lines|
  {
    if lines != [] {
      hide DropRuns, RunLength, Soft, LeadsRun;
      DropStep(debris, lines);
      if LeadsRun(debris, lines) {
        NoRunsLeft(debris, lines[RunLength(debris, lines)..]);
      } else {
        var out, more := DropRuns(debris, lines), DropRuns(debris, lines[1..]);
        NoRunsLeft(debris, lines[1..]);
        if RunLength(debris, lines) < 3 {
          ShortRunStays(debris, lines);
        }
        forall k | 0 <= k < |out| ensures !LeadsRun(debris, out[k..]) {
          if k == 0 {
            assert out[0..] == out;
          } else {
            assert out[k..] == more[k - 1..];
          }
        }
      }
    }
  }

  /** A text is left alone exactly when it holds no such run. */
  lemma {:induction false} DropsNothingIff(debris: string -> bool, lines: seq<string>)
    ensures DropRuns(debris, lines) == lines <==> NoRuns(debris, lines)
  {
    NoRunsLeft(debris, lines);
    if NoRuns(debris, lines) {
      NothingToDrop(debris, lines);
    }
  }

  lemma {:induction false} NothingToDrop(debris: string -> bool, lines: seq<string>)
    requires NoRuns(debris, lines)
    ensures DropRuns(debris, lines) == lines
  {
    if lines != [] {
      hide LeadsRun;
      assert lines[0..] == lines;
      forall k | 0 <= k < |lines[1..]| ensures !LeadsRun(debris, lines[1..][k..]) {
        assert lines[1..][k..] == lines[k + 1..];
      }
      NothingToDrop(debris, lines[1..]);
    }
  }

  // ----- label lines above figure captions

  /** The lines without the interior lines at the end. */
  function PopInterior(interior: string -> bool, out: seq<string>): seq<string> {
    if out != [] && interior(out[|out| - 1]) then PopInterior(interior, out[..|out| - 1]) else out
  }

  function StripAbove(caption: string -> bool, interior: string -> bool, lines: seq<string>): seq<string> {
    if lines == [] then []
    else
      var n := |lines| - 1;
      var before := StripAbove(caption, interior, lines[..n]);
      (if caption(lines[n]) then PopInterior(interior, before) else before) + [lines[n]]
  }

  method StripLinesAbove(caption: string -> bool, interior: string -> bool, lines: seq<string>) returns (out: seq<string>)
    ensures out == StripAbove(caption, interior, lines)
  {
    out := [];
    for n := 0 to |lines|
      invariant out == StripAbove(caption, interior, lines[..n])
    {
      hide PopInterior, StripAbove;
      AboveStep(caption, interior, lines[..n], lines[n]);
      assert lines[..n + 1] == lines[..n] + [lines[n]];
      if caption(lines[n]) {
        ghost var all := out;
        while out != [] && interior(out[|out| - 1])
          invariant PopInterior(interior, out) == PopInterior(interior, all)
        {
          out := out[..|out| - 1];
        }
      }
      out := out + [lines[n]];
    }
    assert lines[..|lines|] == lines;
  }

  lemma {:induction false} AboveStep(caption: string -> bool, interior: string -> bool, lines: seq<string>, line: string)
    ensures var before := StripAbove(caption, interior, lines);
      StripAbove(caption, interior, lines + [line]) ==
        (if caption(line) then PopInterior(interior, before) else before) + [line]
  {
    assert (lines + [line])[..|lines|] == lines;
  }

  /** A caption lies below the line with nothing but interior lines between, the line included. */
  ghost predicate Doomed(caption: string -> bool, interior: string -> bool, lines: seq<string>, k: nat) {
    exists m :: k < m < |lines| && caption(lines[m]) && InteriorSpan(interior, lines, k, m)
  }

  ghost predicate InteriorSpan(interior: string -> bool, lines: seq<string>, k: nat, m: nat) {
    forall t :: k <= t < m && t < |lines| ==> interior(lines[t])
  }

  /** The first n lines without the doomed ones. */
  ghost function Spared(caption: string -> bool, interior: string -> bool, lines: seq<string>, n: nat): seq<string>
    requires n <= |lines|
  {
    if n == 0 then []
    else
      var before := Spared(caption, interior, lines, n - 1);
      if Doomed(caption, interior, lines, n - 1) then before else before + [lines[n - 1]]
  }

  lemma {:induction false} DoomedMore(caption: string -> bool, interior: string -> bool, lines: seq<string>, x: string, k: nat)
    requires k < |lines|
    ensures Doomed(caption, interior, lines + [x], k) <==>
      Doomed(caption, interior, lines, k) || (caption(x) && InteriorSpan(interior, lines, k, |lines|))
  {
    var more := lines + [x];
    if Doomed(caption, interior, more, k) {
      var m :| k < m < |more| && caption(more[m]) && InteriorSpan(interior, more, k, m);
      assert InteriorSpan(interior, lines, k, m) by {
        forall t | k <= t < m && t < |lines| ensures interior(lines[t]) {
          assert more[t] == lines[t];
        }
      }
    }
    if Doomed(caption, interior, lines, k) {
      var m :| k < m < |lines| && caption(lines[m]) && InteriorSpan(interior, lines, k, m);
      assert caption(more[m]) && InteriorSpan(interior, more, k, m);
    }
    if caption(x) && InteriorSpan(interior, lines, k, |lines|) {
      assert caption(more[|lines|]) && InteriorSpan(interior, more, k, |lines|);
    }
  }

  /** Above the last line that is not interior, a new line changes nothing. */
  lemma {:induction false} SparedSame(caption: string -> bool, interior: string -> bool, lines: seq<string>, x: string, n: nat)
    requires n <= |lines|
    requires forall k :: 0 <= k < n ==> !(caption(x) && InteriorSpan(interior, lines, k, |lines|))
    ensures Spared(caption, interior, lines + [x], n) == Spared(caption, interior, lines, n)
  {
    if n > 0 {
      hide Doomed, InteriorSpan;
      SparedSame(caption, interior, lines, x, n - 1);
      DoomedMore(caption, interior, lines, x, n - 1);
    }
  }

  /** A new caption dooms the interior lines that end the text. */
  lemma {:induction false} SparedPopped(caption: string -> bool, interior: string -> bool, lines: seq<string>, x: string, n: nat)
    requires n <= |lines| && caption(x) && InteriorSpan(interior, lines, n, |lines|)
    ensures Spared(caption, interior, lines + [x], n) == PopInterior(interior, Spared(caption, interior, lines, n))
  {
    if n > 0 {
      var s := Spared(caption, interior, lines, n);
      var t := Spared(caption, interior, lines, n - 1);
      hide Doomed, PopInterior;
      DoomedMore(caption, interior, lines, x, n - 1);
      if interior(lines[n - 1]) {
        assert InteriorSpan(interior, lines, n - 1, |lines|);
        SparedPopped(caption, interior, lines, x, n - 1);
        if !Doomed(caption, interior, lines, n - 1) {
          assert s == t + [lines[n - 1]];
          assert s[..|s| - 1] == t;
        }
      } else {
        NotDoomed(caption, interior, lines, n - 1);
        forall k | 0 <= k < n ensures !InteriorSpan(interior, lines, k, |lines|) {
          assert !interior(lines[n - 1]);
        }
        SparedSame(caption, interior, lines, x, n);
      }
    }
  }

  lemma NotDoomed(caption: string -> bool, interior: string -> bool, lines: seq<string>, k: nat)
    requires k < |lines| && !interior(lines[k])
    ensures !Doomed(caption, interior, lines, k)
  {
  }

  /** Exactly the lines that are not doomed survive, in order. */
  lemma {:induction false} AboveExactly(caption: string -> bool, interior: string -> bool, lines: seq<string>)
    ensures StripAbove(caption, interior, lines) == Spared(caption, interior, lines, |lines|)
  {
    if lines != [] {
      hide Doomed, PopInterior, StripAbove, InteriorSpan;
      var n := |lines| - 1;
      var before, x := lines[..n], lines[n];
      assert lines == before + [x];
      AboveExactly(caption, interior, before);
      AboveStep(caption, interior, before, x);
      if caption(x) {
        NoLines(interior, before);
        SparedPopped(caption, interior, before, x, n);
      } else {
        SparedSame(caption, interior, before, x, n);
      }
    } else {
      AboveNothing(caption, interior);
    }
  }

  lemma AboveNothing(caption: string -> bool, interior: string -> bool)
    ensures StripAbove(caption, interior, []) == []
  {
  }

  lemma NoLines(interior: string -> bool, lines: seq<string>)
    ensures InteriorSpan(interior, lines, |lines|, |lines|)
  {
  }

  predicate Exterior(interior: string -> bool, s: string) { !interior(s) }

  lemma {:induction false} PopKeeps(interior: string -> bool, out: seq<string>, exterior: string -> bool)
    requires forall s :: exterior(s) <==> !interior(s)
    ensures Filter(PopInterior(interior, out), exterior) == Filter(out, exterior)
  {
    if out != [] && interior(out[|out| - 1]) {
      var n := |out| - 1;
      PopKeeps(interior, out[..n], exterior);
      hide Filter;
      FilterSnoc(out[..n], out[n], exterior);
      assert out == out[..n] + [out[n]];
    }
  }

  lemma {:induction false} PopEnds(interior: string -> bool, out: seq<string>)
    ensures var p := PopInterior(interior, out); p == [] || !interior(p[|p| - 1])
  {
    if out != [] && interior(out[|out| - 1]) {
      PopEnds(interior, out[..|out| - 1]);
    }
  }

  lemma {:induction false} FilterSnoc(s: seq<string>, x: string, p: string -> bool)
    ensures Filter(s + [x], p) == Filter(s, p) + (if p(x) then [x] else [])
  {
    FilterAppend(s, [x], p);
    assert [x][1..] == [];
  }

  /** Every line that is not interior is kept, in order. */
  lemma {:induction false} ExteriorKept(caption: string -> bool, interior: string -> bool, lines: seq<string>)
    ensures var exterior := s => Exterior(interior, s);
      Filter(StripAbove(caption, interior, lines), exterior) == Filter(lines, exterior)
  {
    var exterior := s => Exterior(interior, s);
    if lines != [] {
      hide Filter, PopInterior, StripAbove;
      var n := |lines| - 1;
      assert lines == lines[..n] + [lines[n]];
      AboveStep(caption, interior, lines[..n], lines[n]);
      ExteriorKept(caption, interior, lines[..n]);
      var before := StripAbove(caption, interior, lines[..n]);
      PopKeeps(interior, before, exterior);
      FilterSnoc(before, lines[n], exterior);
      FilterSnoc(PopInterior(interior, before), lines[n], exterior);
      FilterSnoc(lines[..n], lines[n], exterior);
    } else {
      AboveNothing(caption, interior);
    }
  }

  /** No interior line directly above a caption. */
  ghost predicate CaptionsClear(caption: string -> bool, interior: string -> bool, lines: seq<string>) {
    forall k :: 0 < k < |lines| && caption(lines[k]) ==> !interior(lines[k - 1])
  }

  lemma {:induction false} ClearSnoc(caption: string -> bool, interior: string -> bool, lines: seq<string>, x: string)
    requires CaptionsClear(caption, interior, lines)
    requires caption(x) && lines != [] ==> !interior(lines[|lines| - 1])
    ensures CaptionsClear(caption, interior, lines + [x])
  {
  }

  lemma {:induction false} PopIsPrefix(interior: string -> bool, out: seq<string>)
    ensures PopInterior(interior, out) <= out
  {
    if out != [] && interior(out[|out| - 1]) {
      PopIsPrefix(interior, out[..|out| - 1]);
    }
  }

  /** Afterwards no interior line stands directly above a caption. */
  lemma {:induction false} CaptionsCleared(caption: string -> bool, interior: string -> bool, lines: seq<string>)
    ensures CaptionsClear(caption, interior, StripAbove(caption, interior, lines))
  {
    if lines != [] {
      hide PopInterior, StripAbove, CaptionsClear;
      var n := |lines| - 1;
      assert lines == lines[..n] + [lines[n]];
      AboveStep(caption, interior, lines[..n], lines[n]);
      CaptionsCleared(caption, interior, lines[..n]);
      var before := StripAbove(caption, interior, lines[..n]);
      PopIsPrefix(interior, before);
      PopEnds(interior, before);
      if caption(lines[n]) {
        ClearSnoc(caption, interior, PopInterior(interior, before), lines[n]);
      } else {
        ClearSnoc(caption, interior, before, lines[n]);
      }
    } else {
      AboveNothing(caption, interior);
    }
  }

  /** A text is left alone exactly when no interior line stands directly above a caption. */
  lemma {:induction false} AboveNothingIff(caption: string -> bool, interior: string -> bool, lines: seq<string>)
    ensures StripAbove(caption, interior, lines) == lines <==> CaptionsClear(caption, interior, lines)
  {
    CaptionsCleared(caption, interior, lines);
    if CaptionsClear(caption, interior, lines) {
      NothingAbove(caption, interior, lines);
    }
  }

  lemma {:induction false} NothingAbove(caption: string -> bool, interior: string -> bool, lines: seq<string>)
    requires CaptionsClear(caption, interior, lines)
    ensures StripAbove(caption, interior, lines) == lines
  {
    if lines != [] {
      hide PopInterior, StripAbove;
      var n := |lines| - 1;
      assert lines == lines[..n] + [lines[n]];
      NothingAbove(caption, interior, lines[..n]);
      AboveStep(caption, interior, lines[..n], lines[n]);
    } else {
      AboveNothing(caption, interior);
    }
  }

  // ----- whole texts

  function TextLines(text: string): (lines: seq<string>)
    ensures lines != []
  {
    Split(UnixLines(text), '\n')
  }

  function StripChartTextDebris(debris: string -> bool, text: string): string {
    if text == "" then "" else Join("\n", DropRuns(debris, TextLines(text)))
  }

  function StripLinesAboveCaptions(caption: string -> bool, interior: string -> bool, text: string): string {
    Join("\n", StripAbove(caption, interior, TextLines(text)))
  }

  ghost predicate AllOneLine(lines: seq<string>) {
    forall s :: s in lines ==> OneLine(s)
  }

  lemma {:induction false} SplitParts(s: string, c: char)
    ensures forall p, x :: p in Split(s, c) && x in p ==> x in s && x != c
  {
    if s != "" {
      SplitParts(s[1..], c);
      var rest := Split(s[1..], c);
      assert forall p :: p in Split(s, c) ==> p == "" || p in rest || p == [s[0]] + rest[0];
    }
  }

  lemma {:induction false} TextLinesFacts(text: string)
    ensures AllOneLine(TextLines(text))
  {
    UnixNoReturn(text);
    SplitParts(UnixLines(text), '\n');
  }

  lemma {:induction false} JoinClean(lines: seq<string>)
    requires AllOneLine(lines)
    ensures '\r' !in Join("\n", lines)
  {
    if |lines| > 1 {
      assert lines[0] in lines;
      JoinClean(lines[1..]);
    } else if |lines| == 1 {
      assert lines[0] in lines;
    }
  }

  /** Reading joined lines back gives the lines. */
  lemma {:induction false} LinesBack(lines: seq<string>)
    requires AllOneLine(lines) && lines != []
    ensures TextLines(Join("\n", lines)) == lines
  {
    JoinClean(lines);
    UnixFixed(Join("\n", lines));
    assert forall i :: 0 <= i < |lines| ==> lines[i] in lines;
    SplitJoin(lines, '\n');
  }

  lemma {:induction false} DropsAreLines(debris: string -> bool, lines: seq<string>)
    ensures forall s :: s in DropRuns(debris, lines) ==> s in lines
    decreases |lines|
  {
    if lines != [] {
      hide RunLength;
      if LeadsRun(debris, lines) {
        DropsAreLines(debris, lines[RunLength(debris, lines)..]);
      } else {
        DropsAreLines(debris, lines[1..]);
      }
    }
  }

  lemma {:induction false} AboveAreLines(caption: string -> bool, interior: string -> bool, lines: seq<string>)
    ensures forall s :: s in StripAbove(caption, interior, lines) ==> s in lines
    ensures lines != [] ==> StripAbove(caption, interior, lines) != []
  {
    hide PopInterior, StripAbove;
    if lines == [] {
      AboveNothing(caption, interior);
    } else {
      var n := |lines| - 1;
      var before := StripAbove(caption, interior, lines[..n]);
      AboveAreLines(caption, interior, lines[..n]);
      PopIsPrefix(interior, before);
      AboveStep(caption, interior, lines[..n], lines[n]);
      assert lines == lines[..n] + [lines[n]];
      assert forall s :: s in PopInterior(interior, before) ==> s in before;
    }
  }

  /** Removing chart-label runs twice is the same as once. */
  lemma {:induction false} ChartDebrisIdempotent(debris: string -> bool, text: string)
    ensures var once := StripChartTextDebris(debris, text); StripChartTextDebris(debris, once) == once
  {
    hide DropRuns, Join, TextLines, NoRuns;
    var lines := TextLines(text);
    var out := DropRuns(debris, lines);
    TextLinesFacts(text);
    DropsAreLines(debris, lines);
    NoRunsLeft(debris, lines);
    DropsNothingIff(debris, out);
    if out != [] {
      LinesBack(out);
    } else {
      JoinNothing();
    }
  }

  lemma JoinNothing()
    ensures Join("\n", []) == ""
  {
  }

  /** Removing label lines above captions twice is the same as once. */
  lemma {:induction false} CaptionsIdempotent(caption: string -> bool, interior: string -> bool, text: string)
    ensures var once := StripLinesAboveCaptions(caption, interior, text);
      StripLinesAboveCaptions(caption, interior, once) == once
  {
    hide StripAbove, Join, TextLines, CaptionsClear;
    var lines := TextLines(text);
    TextLinesFacts(text);
    AboveAreLines(caption, interior, lines);
    CaptionsCleared(caption, interior, lines);
    AboveNothingIff(caption, interior, StripAbove(caption, interior, lines));
    LinesBack(StripAbove(caption, interior, lines));
  }
}
