/** What the workbook repair looks for in names, parts and cells, character by character. */
module XlsxTexts {
  import opened Options
  import opened Seqs
  import opened XlsxRepair

  const SMALL := "abcdefghijklmnopqrstuvwxyz"
  const CAPITAL := "ABCDEFGHIJKLMNOPQRSTUVWXYZ"

  /** The same character, or the capital of the small letter `b`. */
  predicate SameLetter(a: char, b: char) {
    a == b || exists k :: 0 <= k < 26 && CAPITAL[k] == a && SMALL[k] == b
  }

  /** `s` is `p`, with capitals or without. */
  predicate Spells(s: string, p: string) {
    |s| == |p| && forall i :: 0 <= i < |p| ==> SameLetter(s[i], p[i])
  }

  predicate NoCapitals(p: string) {
    forall i :: 0 <= i < |p| ==> !('A' <= p[i] <= 'Z')
  }

  lemma LettersAt(k: nat)
    requires k < 26
    ensures SMALL[k] as int == 'a' as int + k && CAPITAL[k] as int == 'A' as int + k
  {
    var small, capital := SMALL, CAPITAL;
    assert small[k] as int == 'a' as int + k;
    assert capital[k] as int == 'A' as int + k;
  }

  lemma LowerCharIs(a: char, b: char)
    requires !('A' <= b <= 'Z')
    ensures LowerChar(a) == b <==> SameLetter(a, b)
  {
    if 'A' <= a <= 'Z' {
      var k := a as int - 'A' as int;
      LettersAt(k);
      assert a + ' ' == SMALL[k];
    }
    forall k | 0 <= k < 26 && CAPITAL[k] == a ensures 'A' <= a <= 'Z' && SMALL[k] == a + ' ' {
      LettersAt(k);
    }
  }

  lemma LowerIs(s: string, p: string)
    requires NoCapitals(p)
    ensures Lower(s) == p <==> Spells(s, p)
  {
    hide LowerChar, SameLetter;
    forall i | 0 <= i < |s| && |s| == |p| ensures Lower(s)[i] == p[i] <==> SameLetter(s[i], p[i]) {
      LowerCharIs(s[i], p[i]);
    }
  }

  // ----- occurrences

  ghost predicate Occurs(s: string, p: string) {
    exists a, b, c :: s == a + b + c && Spells(b, p)
  }

  ghost predicate Begins(s: string, p: string) {
    exists b, c :: s == b + c && Spells(b, p)
  }

  ghost predicate Ends(s: string, p: string) {
    exists a, b :: s == a + b && Spells(b, p)
  }

  lemma LowerParts(s: string, p: string, i: int)
    requires NoCapitals(p) && 0 <= i <= |s| - |p|
    ensures StartsAt(Lower(s), p, i) <==> Spells(s[i..i + |p|], p)
  {
    assert Lower(s)[i..i + |p|] == Lower(s[i..i + |p|]);
    LowerIs(s[i..i + |p|], p);
  }

  lemma OccursIff(s: string, p: string)
    requires NoCapitals(p)
    ensures Contains(Lower(s), p) <==> Occurs(s, p)
  {
    hide Lower, Spells;
    LowerLength(s);
    if i :| 0 <= i <= |s| && StartsAt(Lower(s), p, i) {
      LowerParts(s, p, i);
      assert s == s[..i] + s[i..i + |p|] + s[i + |p|..];
    }
    if Occurs(s, p) {
      var a, b, c :| s == a + b + c && Spells(b, p);
      SpellsLength(b, p);
      assert s[|a|..|a| + |p|] == b;
      LowerParts(s, p, |a|);
    }
  }

  lemma BeginsIff(s: string, p: string)
    requires NoCapitals(p)
    ensures StartsAt(Lower(s), p, 0) <==> Begins(s, p)
  {
    hide Lower, Spells;
    LowerLength(s);
    if StartsAt(Lower(s), p, 0) {
      LowerParts(s, p, 0);
      assert s == s[0..|p|] + s[|p|..];
    }
    if Begins(s, p) {
      var b, c :| s == b + c && Spells(b, p);
      SpellsLength(b, p);
      assert s[0..|p|] == b;
      LowerParts(s, p, 0);
    }
  }

  lemma EndsIff(s: string, p: string)
    requires NoCapitals(p)
    ensures EndsWith(Lower(s), p) <==> Ends(s, p)
  {
    hide Lower, Spells;
    LowerLength(s);
    if EndsWith(Lower(s), p) {
      LowerParts(s, p, |s| - |p|);
      assert s == s[..|s| - |p|] + s[|s| - |p|..|s| - |p| + |p|];
    }
    if Ends(s, p) {
      var a, b :| s == a + b && Spells(b, p);
      SpellsLength(b, p);
      assert s[|s| - |p|..|s| - |p| + |p|] == b;
      LowerParts(s, p, |s| - |p|);
    }
  }

  lemma LowerLength(s: string)
    ensures |Lower(s)| == |s|
  {
  }

  lemma SpellsLength(b: string, p: string)
    requires Spells(b, p)
    ensures |b| == |p|
  {
  }

  // ----- names

  /** A shared-strings part by name: whatever comes before, and in capitals or not. */
  lemma {:induction false} SharedStringsNameIff(name: string)
    ensures IsSharedStrings(name) <==> Ends(name, "sharedstrings.xml")
  {
    EndsIff(name, "sharedstrings.xml");
  }

  /** A sheet by name. */
  lemma SheetNameIff(name: string)
    ensures IsSheet(name) <==> "xl/worksheets/" <= name && exists a :: name == a + ".xml"
  {
    var p, e := "xl/worksheets/", ".xml";
    if IsSheet(name) {
      assert name == name[..|name| - |e|] + e;
      assert name == p + name[|p|..];
    }
    if a :| "xl/worksheets/" <= name && name == a + ".xml" {
      assert name[0..0 + |p|] == p && name[|name| - |e|..|name| - |e| + |e|] == e;
    }
  }

  /** Backslashes become slashes, and nothing else changes. */
  lemma NormalIs(name: string, k: nat)
    requires k < |name|
    ensures Normal(name)[k] == if name[k] == '\\' then '/' else name[k]
    ensures |Normal(name)| == |name|
  {
  }

  // ----- nodes

  /** One of the node's strings has the word. */
  ghost predicate Names(n: Node, word: string) {
    match n
    case Text(t) => Occurs(t, word)
    case Tag(tag, attrs, _) => Occurs(tag, word) || exists a :: a in attrs && (Occurs(a.name, word) || Occurs(a.value, word))
  }

  lemma MentionsIff(n: Node, word: string)
    requires NoCapitals(word)
    ensures Mentions(n, word) <==> Names(n, word)
  {
    hide Contains, Occurs, Lower;
    forall s ensures Contains(Lower(s), word) <==> Occurs(s, word) {
      OccursIff(s, word);
    }
  }

  /** A manifest mentions the shared strings when a node has that word; the two manifests differ in the word. */
  lemma {:induction false} ManifestMentionsIff(p: Part)
    ensures CtMentions(p) <==> exists n :: n in p.nodes && Names(n, "sharedstrings.xml")
    ensures RelsMention(p) <==> exists n :: n in p.nodes && Names(n, "sharedstrings")
  {
    hide Mentions, Names;
    forall n ensures Mentions(n, "sharedstrings.xml") <==> Names(n, "sharedstrings.xml") {
      MentionsIff(n, "sharedstrings.xml");
    }
    forall n ensures Mentions(n, "sharedstrings") <==> Names(n, "sharedstrings") {
      MentionsIff(n, "sharedstrings");
    }
  }

  /** A self-closing element with such a tag and such an attribute. */
  ghost predicate SelfClosed(n: Node, tag: string, attribute: string, value: string) {
    && n.Tag? && n.selfClosing && Begins(n.tag, tag)
    && exists a :: a in n.attrs && Ends(a.name, attribute) && Ends(a.value, value)
  }

  lemma StrippableIff(n: Node, tag: string, attribute: string, value: string)
    requires NoCapitals(tag) && NoCapitals(attribute) && NoCapitals(value)
    ensures Strippable(n, tag, attribute, value) <==> SelfClosed(n, tag, attribute, value)
  {
    hide StartsAt, EndsWith, Begins, Ends, Lower;
    forall s ensures EndsWith(Lower(s), attribute) <==> Ends(s, attribute) {
      EndsIff(s, attribute);
    }
    forall s ensures EndsWith(Lower(s), value) <==> Ends(s, value) {
      EndsIff(s, value);
    }
    if n.Tag? {
      BeginsIff(n.tag, tag);
    }
  }

  /** The elements that stripping removes. */
  lemma {:induction false} StrippedElements(n: Node)
    ensures NotOverride(n) <==> !SelfClosed(n, "override", "partname", "sharedstrings.xml")
    ensures NotRelationship(n) <==> !SelfClosed(n, "relationship", "type", "sharedstrings")
  {
    StrippableIff(n, "override", "partname", "sharedstrings.xml");
    StrippableIff(n, "relationship", "type", "sharedstrings");
    hide Strippable, SelfClosed;
  }

  /** Nothing before, or no letter, digit or underscore at the end of it. */
  predicate WordBoundary(before: string) {
    before == "" || before[|before| - 1] !in SMALL + CAPITAL + "0123456789_"
  }

  lemma {:induction false} WordCharIff(c: char)
    ensures IsWordChar(c) <==> c in SMALL + CAPITAL + "0123456789_"
  {
    if 'a' <= c <= 'z' {
      LettersAt(c as int - 'a' as int);
      assert c == SMALL[c as int - 'a' as int];
    } else if 'A' <= c <= 'Z' {
      LettersAt(c as int - 'A' as int);
      assert c == CAPITAL[c as int - 'A' as int];
    } else {
      forall k | 0 <= k < 26 ensures SMALL[k] != c && CAPITAL[k] != c {
        LettersAt(k);
      }
      assert c in "0123456789_" <==> IsWordChar(c);
    }
  }

  lemma AfterIff(before: string)
    ensures WordBoundary(before) <==> before == "" || !IsWordChar(before[|before| - 1])
  {
    if before != "" {
      WordCharIff(before[|before| - 1]);
    }
    hide IsWordChar;
  }

  /** `t="s"` in running text at a word boundary. */
  ghost predicate RefersAt(t: string, a: string, b: string) {
    t == a + "t=\"s\"" + b && WordBoundary(a)
  }

  /** An attribute with value `s` whose name ends in `t` at a word boundary. */
  ghost predicate RefersBy(attr: Attr, x: string) {
    attr == Attr(x + "t", "s") && WordBoundary(x)
  }

  lemma SharedTextFound(t: string) returns (a: string, b: string)
    requires SharedCell(Text(t))
    ensures RefersAt(t, a, b)
  {
    var p := "t=\"s\"";
    var i :| 0 <= i <= |t| && StartsAt(t, p, i) && (i == 0 || !IsWordChar(t[i - 1]));
    hide IsWordChar, WordBoundary;
    a, b := t[..i], t[i + |p|..];
    assert t == a + p + b;
    AfterIff(a);
  }

  lemma SharedTextThere(t: string, a: string, b: string)
    requires RefersAt(t, a, b)
    ensures SharedCell(Text(t))
  {
    var p := "t=\"s\"";
    AfterIff(a);
    assert t[|a|..|a| + |p|] == p;
    hide IsWordChar, WordBoundary;
    assert StartsAt(t, p, |a|);
    assert a != "" ==> t[|a| - 1] == a[|a| - 1];
  }

  lemma AttrFound(attr: Attr) returns (x: string)
    requires attr.value == "s" && EndsWith(attr.name, "t")
    requires |attr.name| == 1 || !IsWordChar(attr.name[|attr.name| - 2])
    ensures RefersBy(attr, x)
  {
    hide IsWordChar, WordBoundary;
    x := attr.name[..|attr.name| - 1];
    assert attr.name == x + "t";
    AfterIff(x);
  }

  lemma AttrThere(attr: Attr, x: string)
    requires RefersBy(attr, x)
    ensures attr.value == "s" && EndsWith(attr.name, "t")
    ensures |attr.name| == 1 || !IsWordChar(attr.name[|attr.name| - 2])
  {
    AfterIff(x);
    hide IsWordChar, WordBoundary;
    var name := attr.name;
    assert name[|name| - 1..|name|] == "t";
    assert |name| > 1 ==> name[|name| - 2] == x[|x| - 1];
  }

  lemma SharedTagFound(n: Node) returns (attr: Attr, x: string)
    requires n.Tag? && SharedCell(n)
    ensures attr in n.attrs && RefersBy(attr, x)
  {
    hide IsWordChar, RefersBy;
    attr :| attr in n.attrs && attr.value == "s" && EndsWith(attr.name, "t")
      && (|attr.name| == 1 || !IsWordChar(attr.name[|attr.name| - 2]));
    x := AttrFound(attr);
  }

  lemma SharedTagThere(n: Node, attr: Attr, x: string)
    requires n.Tag? && attr in n.attrs && RefersBy(attr, x)
    ensures SharedCell(n)
  {
    hide IsWordChar, RefersBy, EndsWith;
    AttrThere(attr, x);
  }

  /** A node of a cell that refers to the shared strings. */
  lemma {:induction false} SharedCellIff(n: Node)
    ensures SharedCell(n) <==>
      match n
      case Text(t) => exists a, b :: RefersAt(t, a, b)
      case Tag(_, attrs, _) => exists attr, x :: attr in attrs && RefersBy(attr, x)
  {
    hide RefersAt, RefersBy, SharedCell;
    match n
    case Text(t) =>
      if SharedCell(n) {
        var a, b := SharedTextFound(t);
      }
      if a, b :| RefersAt(t, a, b) {
        SharedTextThere(t, a, b);
      }
    case Tag(_, attrs, _) =>
      if SharedCell(n) {
        var attr, x := SharedTagFound(n);
      }
      if attr, x :| attr in attrs && RefersBy(attr, x) {
        SharedTagThere(n, attr, x);
      }
  }

  // ----- the repair of a package with normal names

  ghost predicate MentionedIn(zip: Archive, path: string, word: string) {
    Find(zip, path).Some? && exists n :: n in Find(zip, path).value.nodes && Names(n, word)
  }

  ghost predicate Utf8At(zip: Archive, path: string) {
    Find(zip, path).Some? ==> Find(zip, path).value.utf8
  }

  /** The part under a name once the two manifests have lost the elements that name the shared strings. */
  function Stripped(zip: Archive, name: string): Option<Part> {
    match Find(zip, name)
    case None => None
    case Some(p) =>
      if name == "[Content_Types].xml" then Some(CleanTypes(p))
      else if name == "xl/_rels/workbook.xml.rels" then Some(CleanRels(p))
      else Some(p)
  }

  /**
   * A package without a shared-strings part is left alone when neither manifest mentions one or a sheet refers to them;
   * otherwise the two manifests lose the elements in question and no other part changes.
   */
  lemma {:induction false} MissingPartRepair(zip: Archive, listing: seq<string>)
    requires Tidy(zip) && Lists(listing, XlsxRepair.Names(zip))
    requires forall name :: name in listing ==> !Ends(name, "sharedstrings.xml")
    ensures var types, rels := "[Content_Types].xml", "xl/_rels/workbook.xml.rels";
      var r := RepairArchive(zip, listing);
      if !(MentionedIn(zip, types, "sharedstrings.xml") || MentionedIn(zip, rels, "sharedstrings")) || SharedCells(zip)
      then r == Kept
      else if !(Utf8At(zip, types) && Utf8At(zip, rels)) then r == Failed
      else
        && r.Repaired? && Keys(r.archive) == Keys(zip)
        && forall name :: Find(r.archive, name) == Stripped(zip, name)
  {
    hide Ends, Names, Find, Keys, Tidy, SharedCells, CleanTypes, CleanRels, StripManifest, CtMentions, RelsMention, Lists;
    hide RepairArchive, IsSharedStrings;
    forall name | name in listing ensures !IsSharedStrings(name) {
      SharedStringsNameIff(name);
    }
    NoneListed(zip, listing);
    TidyRepair(zip, listing);
    StripFacts(zip);
    forall p: Part ensures CtMentions(p) <==> exists n :: n in p.nodes && Names(n, "sharedstrings.xml") {
      ManifestMentionsIff(p);
    }
    forall p: Part ensures RelsMention(p) <==> exists n :: n in p.nodes && Names(n, "sharedstrings") {
      ManifestMentionsIff(p);
    }
  }

  lemma NoneListed(zip: Archive, listing: seq<string>)
    requires Lists(listing, XlsxRepair.Names(zip)) && forall name :: name in listing ==> !IsSharedStrings(name)
    ensures SstNames(XlsxRepair.Names(zip)) == {}
  {
    hide IsSharedStrings;
  }

  /** A part under another name is moved to the canonical one. */
  lemma {:induction false} MovedTo(zip: Archive, listing: seq<string>, path: string)
    requires Lists(listing, XlsxRepair.Names(zip)) && FirstSharedStrings(listing) == Some(path)
    ensures RepairArchive(zip, listing) == Kept <==> path == "xl/sharedStrings.xml"
    ensures path != "xl/sharedStrings.xml" ==>
      && RepairArchive(zip, listing).Repaired?
      && Find(RepairArchive(zip, listing).archive, "xl/sharedStrings.xml") == Find(Files(zip), path)
  {
    KeptCanonical(zip, listing);
    if path != "xl/sharedStrings.xml" {
      RenamedPackage(zip, listing);
    }
    hide *;
  }
}
