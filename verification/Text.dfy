/** Python string operations used by the parsers: the white space tests, strip, split and join, and the visible characters. */
module Text {
  import opened Seqs

  /** Characters that `str.isspace`, `str.strip()` and `str.split()` treat as white space. */
  predicate IsSpace(c: char) {
    || '\U{9}' <= c <= '\U{d}' || '\U{1c}' <= c <= ' ' || c == '\U{85}' || c == '\U{a0}' || c == '\U{1680}'
    || '\U{2000}' <= c <= '\U{200a}' || c == '\U{2028}' || c == '\U{2029}' || c == '\U{202f}'
    || c == '\U{205f}' || c == '\U{3000}'
  }

  /** One by one. */
  lemma SpacesAre(c: char)
    ensures var all := "\U{9}\U{a}\U{b}\U{c}\U{d}\U{1c}\U{1d}\U{1e}\U{1f}\U{20}\U{85}\U{a0}\U{1680}"
        + "\U{2000}\U{2001}\U{2002}\U{2003}\U{2004}\U{2005}\U{2006}\U{2007}\U{2008}\U{2009}\U{200a}"
        + "\U{2028}\U{2029}\U{202f}\U{205f}\U{3000}";
      IsSpace(c) <==> c in all
  {
  }

  predicate Ink(c: char) { !IsSpace(c) }

  /** `str.isspace`: not empty and nothing but white space. */
  predicate Blank(s: string) {
    s != "" && forall c :: c in s ==> IsSpace(c)
  }

  /** The non-white-space characters, in order. */
  function Visible(s: string): string {
    Filter(s, Ink)
  }

  function LStripBy(s: string, p: char -> bool): string {
    if s != "" && p(s[0]) then LStripBy(s[1..], p) else s
  }

  function RStripBy(s: string, p: char -> bool): string {
    if s != "" && p(s[|s| - 1]) then RStripBy(s[..|s| - 1], p) else s
  }

  function StripBy(s: string, p: char -> bool): string {
    RStripBy(LStripBy(s, p), p)
  }

  function Strip(s: string): string {
    StripBy(s, IsSpace)
  }

  function Join(sep: string, parts: seq<string>): string {
    if parts == [] then ""
    else if |parts| == 1 then parts[0]
    else parts[0] + sep + Join(sep, parts[1..])
  }

  /** `s.split(c)` for a single character: always at least one part. */
  function Split(s: string, c: char): (parts: seq<string>)
    ensures parts != []
  {
    if s == "" then [""]
    else if s[0] == c then [""] + Split(s[1..], c)
    else
      var rest := Split(s[1..], c);
      [[s[0]] + rest[0]] + rest[1..]
  }

  // ----- visible characters

  lemma {:induction false} VisibleAppend(a: string, b: string)
    ensures Visible(a + b) == Visible(a) + Visible(b)
  {
    FilterAppend(a, b, Ink);
  }

  lemma {:induction false} VisibleNone(s: string)
    requires forall c :: c in s ==> IsSpace(c)
    ensures Visible(s) == ""
  {
    if s != "" {
      VisibleNone(s[1..]);
    }
  }

  lemma {:induction false} LStripCut(s: string, p: char -> bool) returns (k: nat)
    ensures k <= |s| && LStripBy(s, p) == s[k..]
    ensures forall q :: 0 <= q < k ==> p(s[q])
    ensures k < |s| ==> !p(s[k])
  {
    k := 0;
    if s != "" && p(s[0]) {
      var m := LStripCut(s[1..], p);
      k := m + 1;
      assert s[k..] == s[1..][m..];
      assert s[..k] == [s[0]] + s[1..][..m];
    }
  }

  lemma {:induction false} RStripCut(s: string, p: char -> bool) returns (k: nat)
    ensures k <= |s| && RStripBy(s, p) == s[..k]
    ensures forall q :: k <= q < |s| ==> p(s[q])
    ensures k > 0 ==> !p(s[k - 1])
  {
    k := |s|;
    if s != "" && p(s[|s| - 1]) {
      k := RStripCut(s[..|s| - 1], p);
      assert s[..k] == s[..|s| - 1][..k];
      assert s[k..] == s[..|s| - 1][k..] + [s[|s| - 1]];
    }
  }

  lemma {:induction false} VisibleStrip(s: string)
    ensures Visible(Strip(s)) == Visible(s)
  {
    var i := LStripCut(s, IsSpace);
    var t := s[i..];
    var j := RStripCut(t, IsSpace);
    assert s == s[..i] + t && t == t[..j] + t[j..];
    VisibleAppend(s[..i], t);
    VisibleAppend(t[..j], t[j..]);
    VisibleNone(s[..i]);
    VisibleNone(t[j..]);
  }

  /** A stripped string has no white space at either end, and stripping it again does nothing. */
  lemma {:induction false} StripEnds(s: string, p: char -> bool)
    ensures var t := StripBy(s, p);
      && (t != "" ==> !p(t[0]) && !p(t[|t| - 1]))
      && StripBy(t, p) == t
  {
    var i := LStripCut(s, p);
    var j := RStripCut(s[i..], p);
  }

  // ----- split and join

  lemma {:induction false} SplitPiece(p: string, rest: string, c: char)
    requires c !in p
    ensures Split(p + [c] + rest, c) == [p] + Split(rest, c)
  {
    if p == "" {
      assert p + [c] + rest == [c] + rest;
    } else {
      var q := p[1..];
      assert p + [c] + rest == [p[0]] + (q + [c] + rest);
      SplitPiece(q, rest, c);
      assert p == [p[0]] + q;
    }
  }

  lemma {:induction false} SplitLast(p: string, c: char)
    requires c !in p
    ensures Split(p, c) == [p]
  {
    if p != "" {
      SplitLast(p[1..], c);
      assert p == [p[0]] + p[1..];
    }
  }

  /** Splitting undoes joining when no part contains the separator. */
  lemma {:induction false} SplitJoin(parts: seq<string>, c: char)
    requires parts != [] && forall i :: 0 <= i < |parts| ==> c !in parts[i]
    ensures Split(Join([c], parts), c) == parts
  {
    hide Split;
    if |parts| == 1 {
      SplitLast(parts[0], c);
    } else {
      SplitJoin(parts[1..], c);
      SplitPiece(parts[0], Join([c], parts[1..]), c);
      assert [parts[0]] + parts[1..] == parts;
    }
  }

  lemma {:induction false} JoinPush(x: char, rest: seq<string>, sep: string)
    requires rest != []
    ensures Join(sep, [[x] + rest[0]] + rest[1..]) == [x] + Join(sep, rest)
  {
    var parts := [[x] + rest[0]] + rest[1..];
    assert parts[1..] == rest[1..];
    if |rest| > 1 {
      assert ([x] + rest[0]) + sep + Join(sep, rest[1..]) == [x] + (rest[0] + sep + Join(sep, rest[1..]));
    }
  }

  /** Joining undoes splitting. */
  lemma {:induction false} JoinSplit(s: string, c: char)
    ensures Join([c], Split(s, c)) == s
    ensures forall i :: 0 <= i < |Split(s, c)| ==> c !in Split(s, c)[i]
  {
    if s != "" {
      JoinSplit(s[1..], c);
      var rest := Split(s[1..], c);
      assert s == [s[0]] + s[1..];
      hide Split;
      if s[0] == c {
        assert ([""] + rest)[1..] == rest;
      } else {
        JoinPush(s[0], rest, [c]);
      }
    }
  }

  lemma {:induction false} JoinAppend(sep: string, a: seq<string>, b: seq<string>)
    requires a != [] && b != []
    ensures Join(sep, a + b) == Join(sep, a) + sep + Join(sep, b)
  {
    if |a| == 1 {
      assert (a + b)[1..] == b;
    } else {
      assert (a + b)[1..] == a[1..] + b;
      JoinAppend(sep, a[1..], b);
    }
  }

  lemma {:induction false} VisibleAround(a: string, sep: string, b: string)
    requires forall c :: c in sep ==> IsSpace(c)
    ensures Visible(a + sep + b) == Visible(a) + Visible(b)
  {
    VisibleNone(sep);
    hide Visible;
    VisibleAppend(a + sep, b);
    VisibleAppend(a, sep);
    assert Visible(a) + "" == Visible(a);
  }

  /** A blank separator adds no visible character. */
  lemma {:induction false} VisibleJoin(sep: string, parts: seq<string>)
    requires forall c :: c in sep ==> IsSpace(c)
    ensures Visible(Join(sep, parts)) == Visible(Flat(parts))
  {
    hide Visible;
    if |parts| == 1 {
      assert Flat(parts) == parts[0] + Flat(parts[1..]) == parts[0];
    } else if |parts| > 1 {
      VisibleJoin(sep, parts[1..]);
      VisibleAround(parts[0], sep, Join(sep, parts[1..]));
      VisibleAppend(parts[0], Flat(parts[1..]));
    }
  }

  // ----- line ends

  predicate IsBlankChar(c: char) { c == ' ' }

  /** "\r\n" and then "\r" replaced by "\n". */
  function UnixLines(s: string): string {
    if s == "" then ""
    else if s[0] != '\r' then [s[0]] + UnixLines(s[1..])
    else if |s| > 1 && s[1] == '\n' then "\n" + UnixLines(s[2..])
    else "\n" + UnixLines(s[1..])
  }

  lemma {:induction false} UnixNoReturn(s: string)
    ensures '\r' !in UnixLines(s)
  {
    if s != "" {
      UnixNoReturn(if s[0] == '\r' && |s| > 1 && s[1] == '\n' then s[2..] else s[1..]);
    }
  }

  lemma {:induction false} UnixFixed(s: string)
    requires '\r' !in s
    ensures UnixLines(s) == s
  {
    if s != "" {
      UnixFixed(s[1..]);
    }
  }

  lemma {:induction false} UnixPlain(p: string, rest: string)
    requires '\r' !in p
    ensures UnixLines(p + rest) == p + UnixLines(rest)
  {
    if p == "" {
      assert p + rest == rest;
    } else {
      assert (p + rest)[1..] == p[1..] + rest;
      UnixPlain(p[1..], rest);
      assert p == [p[0]] + p[1..];
    }
  }

  predicate OneLine(line: string) {
    '\r' !in line && '\n' !in line
  }

  /** Lines separated in any of the three ways come out separated by "\n". */
  lemma {:induction false} UnixLinesJoin(lines: seq<string>, sep: string)
    requires sep in ["\n", "\r\n", "\r"]
    requires forall k :: 0 <= k < |lines| ==> OneLine(lines[k])
    ensures UnixLines(Join(sep, lines)) == Join("\n", lines)
  {
    if |lines| == 1 {
      UnixFixed(lines[0]);
    } else if |lines| > 1 {
      var rest := Join(sep, lines[1..]);
      UnixLinesJoin(lines[1..], sep);
      assert lines[0] + sep + rest == lines[0] + (sep + rest);
      UnixPlain(lines[0], sep + rest);
      UnixSep(sep, lines[1..]);
      assert lines[0] + "\n" + UnixLines(rest) == lines[0] + ("\n" + UnixLines(rest));
    }
  }

  lemma UnixSep(sep: string, lines: seq<string>)
    requires sep in ["\n", "\r\n", "\r"] && lines != []
    requires forall k :: 0 <= k < |lines| ==> OneLine(lines[k])
    ensures var rest := Join(sep, lines); UnixLines(sep + rest) == "\n" + UnixLines(rest)
  {
    var rest := Join(sep, lines);
    if sep == "\r" {
      assert rest != "" ==> rest[0] == if lines[0] != "" then lines[0][0] else '\r';
      assert (sep + rest)[1..] == rest;
    } else if sep == "\n" {
      assert (sep + rest)[1..] == rest;
    } else {
      assert (sep + rest)[2..] == rest;
    }
  }
}
