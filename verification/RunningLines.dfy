/** Removal of running headers and footers that repeat across the text pages. */
module RunningLines {
  import opened Seqs
  import opened Text

  datatype PageClass = TextPage | ScannedPage

  /** Characters at which `splitlines` breaks. */
  predicate IsBreak(c: char) {
    || '\n' <= c <= '\r' || '\U{1c}' <= c <= '\U{1e}' || c == '\U{85}' || c == '\U{2028}' || c == '\U{2029}'
  }

  /** One by one. */
  lemma BreaksAre(c: char)
    ensures IsBreak(c) <==> c in "\U{a}\U{b}\U{c}\U{d}\U{1c}\U{1d}\U{1e}\U{85}\U{2028}\U{2029}"
  {
  }

  /** Length of the text before the first line break. */
  function LineLength(s: string): (n: nat)
    ensures n <= |s|
    ensures n < |s| ==> IsBreak(s[n])
  {
    if s == "" || IsBreak(s[0]) then 0 else 1 + LineLength(s[1..])
  }

  /** `s.splitlines()`. */
  function SplitLines(s: string): seq<string>
    decreases |s|
  {
    if s == "" then [] else
      var n := LineLength(s);
      if n == |s| then [s]
      else
        var skip := if s[n] == '\r' && n + 1 < |s| && s[n + 1] == '\n' then n + 2 else n + 1;
        [s[..n]] + SplitLines(s[skip..])
  }

  function StrippedLines(lines: seq<string>): seq<string> {
    if lines == [] then []
    else (if Strip(lines[0]) == "" then [] else [Strip(lines[0])]) + StrippedLines(lines[1..])
  }

  /** First and last non-blank line of a page, when they are short. */
  function Edges(text: string): (es: set<string>)
    ensures |es| <= 2
  {
    var lines := StrippedLines(SplitLines(text));
    if lines == [] then {} else
      var pair := {lines[0], lines[|lines| - 1]};
      var es := set e | e in pair && |e| <= 80;
      assert es <= pair;
      SubsetSize(es, pair);
      es
  }

  /** Indices of the text pages. */
  function TextPages(classes: seq<PageClass>): (ps: seq<nat>)
    ensures forall k :: 0 <= k < |ps| ==> ps[k] < |classes| && classes[ps[k]].TextPage?
  {
    if classes == [] then [] else
      var n := |classes| - 1;
      TextPages(classes[..n]) + (if classes[n].TextPage? then [n] else [])
  }

  ghost predicate InRange(texts: seq<string>, pages: seq<nat>) {
    forall k :: 0 <= k < |pages| ==> pages[k] < |texts|
  }

  /** On how many of the pages a line is an edge. */
  function EdgeCount(texts: seq<string>, pages: seq<nat>, line: string): nat
    requires InRange(texts, pages)
  {
    if pages == [] then 0 else
      var n := |pages| - 1;
      EdgeCount(texts, pages[..n], line) + (if line in Edges(texts[pages[n]]) then 1 else 0)
  }

  function AllEdges(texts: seq<string>, pages: seq<nat>): set<string>
    requires InRange(texts, pages)
  {
    if pages == [] then {} else
      var n := |pages| - 1;
      AllEdges(texts, pages[..n]) + Edges(texts[pages[n]])
  }

  /** max(2, int(0.6 n)). */
  function Threshold(n: nat): nat {
    if 3 * n / 5 > 2 then 3 * n / 5 else 2
  }

  function Repeating(texts: seq<string>, classes: seq<PageClass>): set<string>
    requires |texts| == |classes|
  {
    var pages := TextPages(classes);
    if |pages| < 4 then {}
    else set l | l in AllEdges(texts, pages) && EdgeCount(texts, pages, l) >= Threshold(|pages|)
  }

  function Kept(lines: seq<string>, repeating: set<string>): seq<string> {
    if lines == [] then []
    else (if Strip(lines[0]) in repeating then [] else [lines[0]]) + Kept(lines[1..], repeating)
  }

  function CleanPage(text: string, cls: PageClass, repeating: set<string>): string {
    if repeating == {} || cls.ScannedPage? then text else Join("\n", Kept(SplitLines(text), repeating))
  }

  function StripRepeatingLines(texts: seq<string>, classes: seq<PageClass>): (out: seq<string>)
    requires |texts| == |classes|
    ensures |out| == |texts|
  {
    seq(|texts|, i requires 0 <= i < |texts| => CleanPage(texts[i], classes[i], Repeating(texts, classes)))
  }

  // ----- the loops

  function Tally(counter: map<string, nat>, line: string): nat {
    if line in counter then counter[line] else 0
  }

  method CountPage(before: map<string, nat>, edges: set<string>) returns (counter: map<string, nat>)
    ensures forall l :: Tally(counter, l) == Tally(before, l) + (if l in edges then 1 else 0)
    ensures counter.Keys == before.Keys + edges
  {
    counter := before;
    var todo := edges;
    while todo != {}
      invariant todo <= edges
      invariant forall l :: Tally(counter, l) == Tally(before, l) + (if l in edges - todo then 1 else 0)
      invariant counter.Keys == before.Keys + (edges - todo)
      decreases todo
    {
      var e :| e in todo;
      counter := counter[e := Tally(counter, e) + 1];
      todo := todo - {e};
    }
  }

  method CountEdges(texts: seq<string>, pages: seq<nat>) returns (counter: map<string, nat>)
    requires InRange(texts, pages)
    ensures forall l :: Tally(counter, l) == EdgeCount(texts, pages, l)
    ensures counter.Keys == AllEdges(texts, pages)
  {
    hide Edges, Tally;
    counter := map[];
    assert pages[..0] == [];
    NothingCounted(texts);
    for k := 0 to |pages|
      invariant forall l :: Tally(counter, l) == EdgeCount(texts, pages[..k], l)
      invariant counter.Keys == AllEdges(texts, pages[..k])
    {
      assert pages[..k + 1][..k] == pages[..k];
      counter := CountPage(counter, Edges(texts[pages[k]]));
    }
    assert pages[..|pages|] == pages;
  }

  lemma {:induction false} NothingCounted(texts: seq<string>)
    ensures forall l :: Tally(map[], l) == EdgeCount(texts, [], l)
    ensures AllEdges(texts, []) == {}
  {
  }

  method KeepLines(lines: seq<string>, repeating: set<string>) returns (kept: seq<string>)
    ensures kept == Kept(lines, repeating)
  {
    kept := [];
    assert lines[..0] == [];
    for i := 0 to |lines|
      invariant kept == Kept(lines[..i], repeating)
    {
      KeptSnoc(lines[..i], lines[i], repeating);
      assert lines[..i + 1] == lines[..i] + [lines[i]];
      if Strip(lines[i]) !in repeating {
        kept := kept + [lines[i]];
      }
    }
    assert lines[..|lines|] == lines;
  }

  lemma {:induction false} KeptSnoc(lines: seq<string>, ln: string, repeating: set<string>)
    ensures Kept(lines + [ln], repeating)
         == Kept(lines, repeating) + (if Strip(ln) in repeating then [] else [ln])
  {
    hide Strip;
    if lines == [] {
      assert lines + [ln] == [ln] && [ln][1..] == [];
    } else {
      assert (lines + [ln])[1..] == lines[1..] + [ln];
      KeptSnoc(lines[1..], ln, repeating);
    }
  }

  method StripRepeating(texts: seq<string>, classes: seq<PageClass>) returns (cleaned: seq<string>)
    requires |texts| == |classes|
    ensures cleaned == StripRepeatingLines(texts, classes)
  {
    hide Edges, SplitLines, Kept, AllEdges, EdgeCount;
    var pages := TextPages(classes);
    if |pages| < 4 {
      return texts;
    }
    var counter := CountEdges(texts, pages);
    var repeating := set l | l in counter && counter[l] >= Threshold(|pages|);
    assert repeating == Repeating(texts, classes) by {
      forall l ensures l in repeating <==> l in Repeating(texts, classes) {
        assert Tally(counter, l) == EdgeCount(texts, pages, l);
      }
    }
    if repeating == {} {
      return texts;
    }
    hide Repeating;
    cleaned := [];
    for i := 0 to |texts|
      invariant |cleaned| == i
      invariant forall k :: 0 <= k < i ==> cleaned[k] == CleanPage(texts[k], classes[k], repeating)
    {
      if classes[i].ScannedPage? {
        cleaned := cleaned + [texts[i]];
      } else {
        var kept := KeepLines(SplitLines(texts[i]), repeating);
        cleaned := cleaned + [Join("\n", kept)];
      }
    }
  }

  // ----- which lines repeat

  /** Up to a line break the text is one line; "\r\n" counts as one break, and a break at the end opens no line. */
  lemma {:induction false} SplitLinesPiece(p: string, end: string, rest: string)
    requires forall c :: c in p ==> !IsBreak(c)
    requires end == "\r\n" || (|end| == 1 && IsBreak(end[0]) && (end == "\r" && rest != "" ==> rest[0] != '\n'))
    ensures SplitLines(p + end + rest) == [p] + SplitLines(rest)
    ensures SplitLines(p) == if p == "" then [] else [p]
  {
    var s := p + end + rest;
    BreakAt(p, end + rest);
    BreakAt(p, "");
    assert p + (end + rest) == s && p + "" == p;
    assert s[..|p|] == p && s[|p| + |end|..] == rest && s[|p|] == end[0];
    if end == "\r\n" {
      assert s[|p| + 1] == '\n';
    } else if rest != "" {
      assert s[|p| + 1] == rest[0];
    }
  }

  lemma {:induction false} BreakAt(p: string, rest: string)
    requires forall c :: c in p ==> !IsBreak(c)
    requires rest != "" ==> IsBreak(rest[0])
    ensures LineLength(p + rest) == |p|
  {
    if p != "" {
      assert (p + rest)[1..] == p[1..] + rest;
      BreakAt(p[1..], rest);
    } else {
      assert p + rest == rest;
    }
  }

  /** `l` is the first line of these that is not blank, or the last, without the white space around it. */
  ghost predicate FirstOf(lines: seq<string>, l: string) {
    exists k :: 0 <= k < |lines| && Strip(lines[k]) == l && forall j :: 0 <= j < k ==> Strip(lines[j]) == ""
  }

  ghost predicate LastOf(lines: seq<string>, l: string) {
    exists k :: 0 <= k < |lines| && Strip(lines[k]) == l && forall j :: k < j < |lines| ==> Strip(lines[j]) == ""
  }

  /** A short first or last line of the page. */
  ghost predicate EdgeOf(text: string, l: string) {
    0 < |l| <= 80 && (FirstOf(SplitLines(text), l) || LastOf(SplitLines(text), l))
  }

  lemma {:induction false} FirstStripped(lines: seq<string>, l: string)
    requires l != ""
    ensures FirstOf(lines, l) <==> StrippedLines(lines) != [] && StrippedLines(lines)[0] == l
  {
    hide Strip;
    if lines != [] {
      FirstStripped(lines[1..], l);
      if Strip(lines[0]) == "" {
        if FirstOf(lines, l) {
          var k :| 0 <= k < |lines| && Strip(lines[k]) == l && forall j :: 0 <= j < k ==> Strip(lines[j]) == "";
          assert lines[1..][k - 1] == lines[k];
          assert forall j :: 0 <= j < k - 1 ==> lines[1..][j] == lines[j + 1];
        }
        if FirstOf(lines[1..], l) {
          var k :| 0 <= k < |lines[1..]| && Strip(lines[1..][k]) == l && forall j :: 0 <= j < k ==> Strip(lines[1..][j]) == "";
          assert lines[k + 1] == lines[1..][k];
          assert forall j :: 1 <= j < k + 1 ==> lines[j] == lines[1..][j - 1];
        }
      }
    }
  }

  lemma {:induction false} StrippedSnoc(lines: seq<string>, last: string)
    ensures StrippedLines(lines + [last]) == StrippedLines(lines) + (if Strip(last) == "" then [] else [Strip(last)])
  {
    hide Strip;
    if lines == [] {
      assert lines + [last] == [last] && [last][1..] == [];
    } else {
      assert (lines + [last])[1..] == lines[1..] + [last];
      StrippedSnoc(lines[1..], last);
    }
  }

  lemma {:induction false} LastStripped(lines: seq<string>, l: string)
    requires l != ""
    ensures var ss := StrippedLines(lines); LastOf(lines, l) <==> ss != [] && ss[|ss| - 1] == l
  {
    hide Strip;
    if lines != [] {
      var n := |lines| - 1;
      assert lines == lines[..n] + [lines[n]];
      StrippedSnoc(lines[..n], lines[n]);
      LastStripped(lines[..n], l);
      hide StrippedLines;
      if Strip(lines[n]) == "" {
        if LastOf(lines, l) {
          var k :| 0 <= k < |lines| && Strip(lines[k]) == l && forall j :: k < j < |lines| ==> Strip(lines[j]) == "";
          assert lines[..n][k] == lines[k];
        }
        if LastOf(lines[..n], l) {
          var k :| 0 <= k < n && Strip(lines[..n][k]) == l && forall j :: k < j < n ==> Strip(lines[..n][j]) == "";
          assert lines[k] == lines[..n][k];
          forall j | k < j < |lines| ensures Strip(lines[j]) == "" {
            assert j < n ==> lines[j] == lines[..n][j];
          }
        }
      }
    }
  }

  /** The edges of a page are its short first and last lines. */
  lemma {:induction false} EdgesIff(text: string, l: string)
    ensures l in Edges(text) <==> EdgeOf(text, l)
  {
    var lines := SplitLines(text);
    StrippedNotEmpty(lines);
    if l != "" {
      FirstStripped(lines, l);
      LastStripped(lines, l);
    }
    hide StrippedLines, SplitLines, FirstOf, LastOf;
  }

  ghost function TextPageSet(classes: seq<PageClass>): set<nat> {
    set i: nat | i < |classes| && classes[i].TextPage?
  }

  /** The text pages on which `l` is an edge. */
  ghost function EdgePages(texts: seq<string>, classes: seq<PageClass>, l: string): set<nat>
    requires |texts| == |classes|
  {
    set i: nat | i < |texts| && classes[i].TextPage? && EdgeOf(texts[i], l)
  }

  ghost predicate Rising(pages: seq<nat>) {
    forall j, k :: 0 <= j < k < |pages| ==> pages[j] < pages[k]
  }

  lemma RisingSnoc(pages: seq<nat>, last: nat)
    requires Rising(pages) && forall p :: p in pages ==> p < last
    ensures Rising(pages + [last])
  {
    forall j | 0 <= j < |pages| ensures pages[j] < last {
      assert pages[j] in pages;
    }
  }

  lemma {:induction false} TextPagesAre(classes: seq<PageClass>)
    ensures var ps := TextPages(classes);
      (forall i: nat :: i in ps <==> i < |classes| && classes[i].TextPage?) && Rising(ps)
  {
    hide TextPages, Rising;
    NoTextPages();
    if classes != [] {
      var n := |classes| - 1;
      var before := TextPages(classes[..n]);
      TextPagesAre(classes[..n]);
      TextPagesSnoc(classes[..n], classes[n]);
      assert classes == classes[..n] + [classes[n]];
      assert before + [] == before;
      RisingSnoc(before, n);
      TextPagesIn(before, classes, n);
    }
  }

  lemma NoTextPages()
    ensures TextPages([]) == [] && Rising([])
  {
  }

  lemma TextPagesIn(before: seq<nat>, classes: seq<PageClass>, n: nat)
    requires |classes| == n + 1 && forall i: nat :: i in before <==> i < n && classes[..n][i].TextPage?
    ensures var ps := before + if classes[n].TextPage? then [n] else [];
      forall i: nat :: i in ps <==> i < |classes| && classes[i].TextPage?
  {
    assert before + [] == before;
  }

  lemma TextPagesSnoc(init: seq<PageClass>, last: PageClass)
    ensures TextPages(init + [last]) == TextPages(init) + (if last.TextPage? then [|init|] else [])
  {
    assert (init + [last])[..|init|] == init;
  }

  /** Those of the pages on which `l` is an edge. */
  ghost function EdgesAmong(texts: seq<string>, pages: seq<nat>, l: string): set<nat> {
    set i | i in pages && i < |texts| && EdgeOf(texts[i], l)
  }

  lemma EdgesAmongSnoc(texts: seq<string>, init: seq<nat>, last: nat, l: string)
    requires last < |texts|
    ensures EdgesAmong(texts, init + [last], l)
         == EdgesAmong(texts, init, l) + (if EdgeOf(texts[last], l) then {last} else {})
  {
    hide EdgeOf;
  }

  lemma RisingInit(pages: seq<nat>)
    requires Rising(pages) && pages != []
    ensures var n := |pages| - 1;
      Rising(pages[..n]) && pages == pages[..n] + [pages[n]] && pages[n] !in pages[..n]
  {
  }

  lemma {:induction false} CountIsSize(texts: seq<string>, pages: seq<nat>, l: string)
    requires InRange(texts, pages) && Rising(pages)
    ensures EdgeCount(texts, pages, l) == |EdgesAmong(texts, pages, l)|
    ensures l in AllEdges(texts, pages) <==> EdgeCount(texts, pages, l) > 0
  {
    if pages != [] {
      RisingInit(pages);
      hide Edges, EdgeOf, Rising;
      var n := |pages| - 1;
      CountIsSize(texts, pages[..n], l);
      EdgesIff(texts[pages[n]], l);
      EdgesAmongSnoc(texts, pages[..n], pages[n], l);
      assert pages[n] !in EdgesAmong(texts, pages[..n], l);
    }
  }

  ghost function PageSet(pages: seq<nat>): set<nat> {
    set i | i in pages
  }

  lemma {:induction false} SizeOfPages(pages: seq<nat>)
    requires Rising(pages)
    ensures |PageSet(pages)| == |pages|
  {
    if pages != [] {
      RisingInit(pages);
      var n := |pages| - 1;
      hide Rising, PageSet;
      SizeOfPages(pages[..n]);
      SetSnoc(pages[..n], pages[n]);
    }
  }

  lemma SetSnoc(init: seq<nat>, last: nat)
    ensures PageSet(init + [last]) == PageSet(init) + {last}
    ensures last in PageSet(init) <==> last in init
  {
  }

  /**
   * The lines removed: with at least four text pages, those that are an edge of two of them at least, and of as many as
   * the whole part of 60% of them.
   */
  lemma {:induction false} RepeatingIff(texts: seq<string>, classes: seq<PageClass>, l: string)
    requires |texts| == |classes|
    ensures var n, k := |TextPageSet(classes)|, |EdgePages(texts, classes, l)|;
      l in Repeating(texts, classes) <==> n >= 4 && k >= 2 && 5 * (k + 1) > 3 * n
  {
    var pages := TextPages(classes);
    TextPagesAre(classes);
    CountIsSize(texts, pages, l);
    SizeOfPages(pages);
    assert EdgePages(texts, classes, l) == EdgesAmong(texts, pages, l);
    assert TextPageSet(classes) == PageSet(pages);
    ThresholdIs(|pages|, EdgeCount(texts, pages, l));
    InRepeating(texts, classes, l);
    hide *;
  }

  lemma ThresholdIs(n: nat, k: nat)
    ensures k >= Threshold(n) <==> k >= 2 && 5 * (k + 1) > 3 * n
  {
  }

  lemma InRepeating(texts: seq<string>, classes: seq<PageClass>, l: string)
    requires |texts| == |classes|
    ensures var pages := TextPages(classes);
      l in Repeating(texts, classes) <==>
        |pages| >= 4 && l in AllEdges(texts, pages) && EdgeCount(texts, pages, l) >= Threshold(|pages|)
  {
    hide AllEdges, EdgeCount, Threshold;
  }

  // ----- how much can be removed

  /** Edge occurrences of a set of lines over some pages. */
  function Hits(lines: set<string>, texts: seq<string>, pages: seq<nat>): nat
    requires InRange(texts, pages)
  {
    if pages == [] then 0 else
      var n := |pages| - 1;
      Hits(lines, texts, pages[..n]) + |lines * Edges(texts[pages[n]])|
  }

  lemma {:induction false} HitsFew(lines: set<string>, texts: seq<string>, pages: seq<nat>)
    requires InRange(texts, pages)
    ensures Hits(lines, texts, pages) <= 2 * |pages|
  {
    hide Edges;
    if pages != [] {
      var n := |pages| - 1;
      HitsFew(lines, texts, pages[..n]);
      SubsetSize(lines * Edges(texts[pages[n]]), Edges(texts[pages[n]]));
    }
  }

  lemma {:induction false} HitsWithout(lines: set<string>, l: string, texts: seq<string>, pages: seq<nat>)
    requires InRange(texts, pages) && l in lines
    ensures Hits(lines, texts, pages) == Hits(lines - {l}, texts, pages) + EdgeCount(texts, pages, l)
  {
    hide Edges;
    if pages != [] {
      var n := |pages| - 1;
      var es := Edges(texts[pages[n]]);
      HitsWithout(lines, l, texts, pages[..n]);
      if l in es {
        assert lines * es == (lines - {l}) * es + {l};
      } else {
        assert lines * es == (lines - {l}) * es;
      }
    }
  }

  lemma {:induction false} HitsMany(lines: set<string>, texts: seq<string>, pages: seq<nat>, t: nat)
    requires InRange(texts, pages)
    requires forall l :: l in lines ==> EdgeCount(texts, pages, l) >= t
    ensures |lines| * t <= Hits(lines, texts, pages)
    decreases |lines|
  {
    hide EdgeCount, Hits;
    if lines == {} {
      assert |lines| * t == 0;
    } else {
      var l :| l in lines;
      var rest := lines - {l};
      HitsMany(rest, texts, pages, t);
      HitsWithout(lines, l, texts, pages);
      assert |lines| == |rest| + 1;
      MulStep(|rest|, t);
    }
  }

  /** The threshold is at least half the text pages, although not always 60% of them. */
  lemma {:induction false} ThresholdHalf(n: nat)
    requires n >= 4
    ensures 2 * Threshold(n) >= n && Threshold(n) >= 2
  {
  }

  /** In a document of any length at most four distinct lines are running lines. */
  lemma {:induction false} AtMostFourRunningLines(texts: seq<string>, classes: seq<PageClass>)
    requires |texts| == |classes|
    ensures |Repeating(texts, classes)| <= 4
  {
    var pages := TextPages(classes);
    if |pages| >= 4 {
      var r := Repeating(texts, classes);
      var t := Threshold(|pages|);
      HitsMany(r, texts, pages, t);
      HitsFew(r, texts, pages);
      ThresholdHalf(|pages|);
      FourTimes(|r|, t, |pages|);
    }
  }

  lemma {:induction false} MulGrows(a: nat, b: nat, t: nat)
    requires a <= b
    ensures a * t <= b * t
  {
  }

  lemma {:induction false} MulStep(a: nat, t: nat)
    ensures (a + 1) * t == a * t + t
  {
  }

  lemma {:induction false} FourTimes(r: nat, t: nat, n: nat)
    requires r * t <= 2 * n && 2 * t >= n && t > 0
    ensures r <= 4
  {
    if r >= 5 {
      MulGrows(5, r, t);
    }
  }

  /** `part` is `whole` with only lines of `gone` (compared after stripping) left out. */
  ghost predicate OnlyMissing(part: seq<string>, whole: seq<string>, gone: set<string>) {
    if whole == [] then part == []
    else if Strip(whole[0]) in gone then OnlyMissing(part, whole[1..], gone)
    else part != [] && part[0] == whole[0] && OnlyMissing(part[1..], whole[1..], gone)
  }

  lemma {:induction false} KeptOnlyMissing(lines: seq<string>, gone: set<string>)
    ensures OnlyMissing(Kept(lines, gone), lines, gone)
  {
    hide Strip;
    if lines != [] {
      KeptOnlyMissing(lines[1..], gone);
      if Strip(lines[0]) !in gone {
        assert Kept(lines, gone)[1..] == Kept(lines[1..], gone);
      } else {
        assert Kept(lines, gone) == Kept(lines[1..], gone);
      }
    }
  }

  /**
   * Page count and scanned pages never change; a text page loses only lines from one set of at most four, each short,
   * not blank and an edge of at least half the text pages; every other line stays, in order.
   */
  lemma {:induction false} RemovalIsLimited(texts: seq<string>, classes: seq<PageClass>, i: nat)
    requires |texts| == |classes| && i < |texts|
    ensures var out, gone := StripRepeatingLines(texts, classes), Repeating(texts, classes);
      && |out| == |texts| && |gone| <= 4
      && (classes[i].ScannedPage? || gone == {} ==> out[i] == texts[i])
      && (classes[i].TextPage? && gone != {} ==>
            exists kept :: out[i] == Join("\n", kept) && OnlyMissing(kept, SplitLines(texts[i]), gone))
      && (forall l :: l in gone ==>
            && |l| <= 80 && l != ""
            && 2 * EdgeCount(texts, TextPages(classes), l) >= |TextPages(classes)| >= 4)
  {
    AtMostFourRunningLines(texts, classes);
    var gone := Repeating(texts, classes);
    hide Join, SplitLines, Edges, EdgeCount;
    if gone != {} {
      KeptOnlyMissing(SplitLines(texts[i]), gone);
      ThresholdHalf(|TextPages(classes)|);
      forall l | l in gone ensures |l| <= 80 && l != "" {
        EdgesShort(texts, TextPages(classes), l);
      }
    }
  }

  lemma {:induction false} EdgesShort(texts: seq<string>, pages: seq<nat>, l: string)
    requires InRange(texts, pages) && l in AllEdges(texts, pages)
    ensures |l| <= 80 && l != ""
  {
    var n := |pages| - 1;
    if l in AllEdges(texts, pages[..n]) {
      EdgesShort(texts, pages[..n], l);
    } else {
      StrippedNotEmpty(SplitLines(texts[pages[n]]));
    }
  }

  lemma {:induction false} StrippedNotEmpty(lines: seq<string>)
    ensures forall k :: 0 <= k < |StrippedLines(lines)| ==> StrippedLines(lines)[k] != ""
  {
    hide Strip;
    if lines != [] {
      StrippedNotEmpty(lines[1..]);
    }
  }

  /** Four is reached: with four text pages the threshold is two pages, half of them. */
  lemma {:induction false} FourLinesCanGo()
    ensures var texts, classes := ["a\nb", "a\nb", "c\nd", "c\nd"], [TextPage, TextPage, TextPage, TextPage];
      Repeating(texts, classes) == {"a", "b"} + {"c", "d"} && |Repeating(texts, classes)| == 4
  {
    var texts, classes := ["a\nb", "a\nb", "c\nd", "c\nd"], [TextPage, TextPage, TextPage, TextPage];
    TwoLines('a', 'b');
    TwoLines('c', 'd');
    hide Edges, Repeating;
    DistinctLines("a", "b", "c", "d");
    FourRepeat(texts, classes, {"a", "b"}, {"c", "d"});
  }

  lemma {:induction false} DistinctLines(a: string, b: string, c: string, d: string)
    requires |a| == |b| == |c| == |d| == 1
    requires a[0] != b[0] && c[0] != d[0] && a[0] != c[0] && a[0] != d[0] && b[0] != c[0] && b[0] != d[0]
    ensures {a, b} !! {c, d} && |{a, b} + {c, d}| == 4
  {
    assert {a, b} == {a} + {b} && {a, b} + {c, d} == {a} + {b} + {c} + {d};
  }

  lemma {:induction false} FourRepeat(texts: seq<string>, classes: seq<PageClass>, es: set<string>, fs: set<string>)
    requires |texts| == 4 && classes == [TextPage, TextPage, TextPage, TextPage] && es !! fs
    requires Edges(texts[0]) == es && Edges(texts[1]) == es && Edges(texts[2]) == fs && Edges(texts[3]) == fs
    ensures Repeating(texts, classes) == es + fs
  {
    FourPages(classes);
    TwoAndTwo(texts, es, fs);
    hide Edges, EdgeCount, AllEdges;
  }

  lemma {:induction false} FourPages(classes: seq<PageClass>)
    requires classes == [TextPage, TextPage, TextPage, TextPage]
    ensures TextPages(classes) == [0, 1, 2, 3]
  {
    var c3, c2, c1 := classes[..3], classes[..2], classes[..1];
    assert c3[..2] == c2 && c2[..1] == c1 && c1[..0] == [];
    assert TextPages(c1) == TextPages(c1[..0]) + [0] == [0];
    assert TextPages(c2) == TextPages(c2[..1]) + [1] == [0, 1];
    assert TextPages(c3) == TextPages(c3[..2]) + [2] == [0, 1, 2];
  }

  lemma {:induction false} TwoLines(x: char, y: char)
    requires !IsSpace(x) && !IsSpace(y) && !IsBreak(x) && !IsBreak(y)
    ensures Edges([x, '\n', y]) == {[x], [y]}
  {
    var s := [x, '\n', y];
    assert LineLength(s) == 1 by {
      assert s[1..] == ['\n', y];
      assert LineLength(['\n', y]) == 0;
    }
    assert s[..1] == [x] && s[2..] == [y] && [y][1..] == "";
    assert LineLength([y]) == 1;
    assert SplitLines(s) == [s[..1]] + SplitLines(s[2..]) == [[x], [y]];
    assert Strip([x]) == [x] && Strip([y]) == [y];
    assert [[x], [y]][1..] == [[y]] && [[y]][1..] == [];
    assert StrippedLines([[y]]) == [[y]];
    assert StrippedLines([[x], [y]]) == [[x], [y]];
  }

  lemma {:induction false} TwoAndTwo(texts: seq<string>, es: set<string>, fs: set<string>)
    requires |texts| == 4 && es !! fs
    requires Edges(texts[0]) == es && Edges(texts[1]) == es && Edges(texts[2]) == fs && Edges(texts[3]) == fs
    ensures AllEdges(texts, [0, 1, 2, 3]) == es + fs
    ensures forall l :: l in es + fs ==> EdgeCount(texts, [0, 1, 2, 3], l) == 2
  {
    hide Edges;
    var p4: seq<nat>, p3: seq<nat>, p2: seq<nat>, p1: seq<nat> := [0, 1, 2, 3], [0, 1, 2], [0, 1], [0];
    assert p4[..3] == p3 && p3[..2] == p2 && p2[..1] == p1 && p1[..0] == [];
    assert AllEdges(texts, p1) == es;
    assert AllEdges(texts, p2) == es;
    assert AllEdges(texts, p3) == es + fs;
    forall l | l in es + fs ensures EdgeCount(texts, p4, l) == 2 {
      assert EdgeCount(texts, p1, l) == if l in es then 1 else 0;
      assert EdgeCount(texts, p2, l) == if l in es then 2 else 0;
      assert EdgeCount(texts, p3, l) == if l in es then 2 else 1;
    }
  }

  // ----- the 60% rule

  /** The threshold is 60% of the pages only at multiples of five, and exactly half of them at 4, 6 and 8. */
  lemma {:induction false} ThresholdSixty(n: nat)
    requires n >= 4
    ensures 5 * Threshold(n) >= 3 * n <==> n % 5 == 0
    ensures 2 * Threshold(n) == n <==> n == 4 || n == 6 || n == 8
    ensures 5 * (Threshold(n) + 1) >= 3 * n
  {
  }

  /** Every running line is an edge of at least 60% of the text pages. */
  ghost predicate SixtyPercent(texts: seq<string>, classes: seq<PageClass>)
    requires |texts| == |classes|
  {
    var pages := TextPages(classes);
    forall l :: l in Repeating(texts, classes) ==> 5 * EdgeCount(texts, pages, l) >= 3 * |pages|
  }

  /** Some line is an edge of exactly as many text pages as the threshold. */
  ghost predicate JustEnough(texts: seq<string>, classes: seq<PageClass>)
    requires |texts| == |classes|
  {
    var pages := TextPages(classes);
    exists l :: l in AllEdges(texts, pages) && EdgeCount(texts, pages, l) == Threshold(|pages|)
  }

  /** A document meets the 60% rule exactly when its text pages are few or a multiple of five, or no edge meets the threshold exactly. */
  lemma {:induction false} SixtyPercentIff(texts: seq<string>, classes: seq<PageClass>)
    requires |texts| == |classes|
    ensures var n := |TextPages(classes)|;
      SixtyPercent(texts, classes) <==> n < 4 || n % 5 == 0 || !JustEnough(texts, classes)
  {
    var n := |TextPages(classes)|;
    if n < 4 || n % 5 == 0 || !JustEnough(texts, classes) {
      SixtyHolds(texts, classes);
    } else {
      SixtyFails(texts, classes);
    }
  }

  lemma SixtyHolds(texts: seq<string>, classes: seq<PageClass>)
    requires |texts| == |classes|
    requires var n := |TextPages(classes)|; n < 4 || n % 5 == 0 || !JustEnough(texts, classes)
    ensures SixtyPercent(texts, classes)
  {
    var pages := TextPages(classes);
    if |pages| >= 4 {
      ThresholdSixty(|pages|);
    }
    hide Threshold, Repeating, EdgeCount, AllEdges;
    forall l | l in Repeating(texts, classes) ensures 5 * EdgeCount(texts, pages, l) >= 3 * |pages| {
      InRepeating(texts, classes, l);
    }
  }

  lemma SixtyFails(texts: seq<string>, classes: seq<PageClass>)
    requires |texts| == |classes|
    requires var n := |TextPages(classes)|; n >= 4 && n % 5 != 0 && JustEnough(texts, classes)
    ensures !SixtyPercent(texts, classes)
  {
    var pages := TextPages(classes);
    ThresholdSixty(|pages|);
    hide Threshold, Repeating, EdgeCount, AllEdges;
    var l :| l in AllEdges(texts, pages) && EdgeCount(texts, pages, l) == Threshold(|pages|);
    InRepeating(texts, classes, l);
  }

  /** Pages 0 .. n-1. */
  function UpTo(n: nat): seq<nat> {
    seq(n, i requires 0 <= i < n => i)
  }

  function AllTextPages(n: nat): seq<PageClass> {
    seq(n, i requires 0 <= i < n => TextPage)
  }

  lemma {:induction false} AllPages(n: nat)
    ensures TextPages(AllTextPages(n)) == UpTo(n)
  {
    if n > 0 {
      AllPages(n - 1);
      assert AllTextPages(n)[..n - 1] == AllTextPages(n - 1);
      assert UpTo(n) == UpTo(n - 1) + [n - 1];
    }
  }

  /** The first `t` of `n` pages have the edges `a` and `b`, the others are blank. */
  function SomePages(n: nat, t: nat): seq<string> {
    seq(n, i requires 0 <= i < n => if i < t then "a\nb" else "")
  }

  lemma {:induction false} SomeCounted(n: nat, t: nat, k: nat)
    requires k <= n
    ensures InRange(SomePages(n, t), UpTo(k))
    ensures EdgeCount(SomePages(n, t), UpTo(k), "a") == if k < t then k else t
    ensures k > 0 && t > 0 ==> "a" in AllEdges(SomePages(n, t), UpTo(k))
  {
    if k > 0 {
      SomeCounted(n, t, k - 1);
      TwoLines('a', 'b');
      assert Edges("") == {};
      hide Edges;
      assert UpTo(k)[..k - 1] == UpTo(k - 1) && UpTo(k)[k - 1] == k - 1;
      assert ["a"[0]] == "a" && "a\nb" == ['a', '\n', 'b'];
    }
  }

  /** All documents with `n` text pages meet the rule exactly when there are fewer than four, or a multiple of five. */
  lemma {:induction false} SixtyPercentForAllIff(n: nat)
    ensures (forall texts, classes | |texts| == |classes| && |TextPages(classes)| == n :: SixtyPercent(texts, classes))
       <==> n < 4 || n % 5 == 0
  {
    if n < 4 || n % 5 == 0 {
      forall texts, classes | |texts| == |classes| && |TextPages(classes)| == n ensures SixtyPercent(texts, classes) {
        SixtyPercentIff(texts, classes);
      }
    } else {
      var texts, classes := SomePages(n, Threshold(n)), AllTextPages(n);
      AllPages(n);
      SomeCounted(n, Threshold(n), n);
      SixtyPercentIff(texts, classes);
    }
  }
}
