/** Repair of a workbook's shared-strings packaging. */
module XlsxRepair {
  import opened Options
  import opened Seqs

  datatype Attr = Attr(name: string, value: string)

  /** A package part is XML: running text and tags in the order they are written. */
  datatype Node = Text(text: string) | Tag(tag: string, attrs: seq<Attr>, selfClosing: bool)

  /** What reading a part shows, and whether its bytes are proper UTF-8. */
  datatype Part = Part(nodes: seq<Node>, utf8: bool)

  datatype Entry = Entry(name: string, part: Part)

  /** The members of a zip file in directory order; also a dictionary in insertion order. */
  type Archive = seq<Entry>

  datatype Repair = Kept | Repaired(archive: Archive) | Failed

  const SST_PART := "xl/sharedStrings.xml"
  const CONTENT_TYPES := "[Content_Types].xml"
  const WORKBOOK_RELS := "xl/_rels/workbook.xml.rels"

  // ----- strings

  function LowerChar(c: char): char {
    if 'A' <= c <= 'Z' then c + ' ' else c
  }

  function Lower(s: string): (r: string)
    ensures |r| == |s|
  {
    seq(|s|, i requires 0 <= i < |s| => LowerChar(s[i]))
  }

  function Normal(name: string): (r: string)
    ensures |r| == |name|
  {
    seq(|name|, i requires 0 <= i < |name| => if name[i] == '\\' then '/' else name[i])
  }

  predicate StartsAt(s: string, p: string, i: int) {
    0 <= i <= |s| - |p| && s[i..i + |p|] == p
  }

  predicate Contains(s: string, p: string) {
    exists i | 0 <= i <= |s| :: StartsAt(s, p, i)
  }

  predicate EndsWith(s: string, p: string) {
    StartsAt(s, p, |s| - |p|)
  }

  predicate IsWordChar(c: char) {
    'a' <= c <= 'z' || 'A' <= c <= 'Z' || '0' <= c <= '9' || c == '_'
  }

  // ----- tests on nodes

  predicate Mentions(n: Node, needle: string) {
    match n
    case Text(t) => Contains(Lower(t), needle)
    case Tag(tag, attrs, _) =>
      || Contains(Lower(tag), needle)
      || exists a | a in attrs :: Contains(Lower(a.name), needle) || Contains(Lower(a.value), needle)
  }

  /** A self-closing element of the given kind with an attribute naming the shared strings. */
  predicate Strippable(n: Node, tag: string, attribute: string, value: string) {
    && n.Tag?
    && n.selfClosing
    && StartsAt(Lower(n.tag), tag, 0)
    && exists a | a in n.attrs :: EndsWith(Lower(a.name), attribute) && EndsWith(Lower(a.value), value)
  }

  predicate IsOverride(n: Node) { Strippable(n, "override", "partname", "sharedstrings.xml") }

  predicate IsRelationship(n: Node) { Strippable(n, "relationship", "type", "sharedstrings") }

  predicate NotOverride(n: Node) { !IsOverride(n) }

  predicate NotRelationship(n: Node) { !IsRelationship(n) }

  predicate CtMentions(p: Part) { exists n | n in p.nodes :: Mentions(n, "sharedstrings.xml") }

  predicate RelsMention(p: Part) { exists n | n in p.nodes :: Mentions(n, "sharedstrings") }

  /** Text `t="s"` at a word boundary: the cell holds an index into the shared strings. */
  predicate SharedCell(n: Node) {
    match n
    case Text(t) => exists i | 0 <= i <= |t| :: StartsAt(t, "t=\"s\"", i) && (i == 0 || !IsWordChar(t[i - 1]))
    case Tag(_, attrs, _) => exists a | a in attrs ::
      a.value == "s" && EndsWith(a.name, "t") && (|a.name| == 1 || !IsWordChar(a.name[|a.name| - 2]))
  }

  predicate HasSharedCell(p: Part) { exists n | n in p.nodes :: SharedCell(n) }

  predicate IsSheet(name: string) {
    StartsAt(name, "xl/worksheets/", 0) && EndsWith(name, ".xml")
  }

  predicate IsSharedStrings(name: string) {
    EndsWith(Lower(name), "sharedstrings.xml")
  }

  // ----- archives and dictionaries

  /** The part stored last under a name. */
  function Find(d: Archive, name: string): Option<Part> {
    if d == [] then None
    else if Find(d[1..], name).Some? then Find(d[1..], name)
    else if d[0].name == name then Some(d[0].part)
    else None
  }

  function Put(d: Archive, name: string, part: Part): Archive {
    if d == [] then [Entry(name, part)]
    else if d[0].name == name then [Entry(name, part)] + d[1..]
    else [d[0]] + Put(d[1..], name, part)
  }

  function Pop(d: Archive, name: string): Archive {
    if d == [] then [] else (if d[0].name == name then [] else [d[0]]) + Pop(d[1..], name)
  }

  function Keys(d: Archive): set<string> {
    set e | e in d :: e.name
  }

  function Names(zip: Archive): set<string> {
    set e | e in zip :: Normal(e.name)
  }

  ghost predicate Unique(d: Archive) {
    d == [] || (d[0].name !in Keys(d[1..]) && Unique(d[1..]))
  }

  /** An archive as the repair itself writes it: no name twice, no backslashes. */
  ghost predicate Tidy(zip: Archive) {
    Unique(zip) && forall e :: e in zip ==> Normal(e.name) == e.name
  }

  /** The dictionary after the first k members of the archive were read, each by its own name. */
  function Unpacked(zip: Archive, k: nat): Archive
    requires k <= |zip|
  {
    if k == 0 then [] else
      var e := zip[k - 1];
      match Find(zip, e.name)
      case Some(p) => Put(Unpacked(zip, k - 1), Normal(e.name), p)
      case None => Unpacked(zip, k - 1)
  }

  function Files(zip: Archive): Archive {
    Unpacked(zip, |zip|)
  }

  // ----- the repair

  function FirstSharedStrings(listing: seq<string>): Option<string> {
    if listing == [] then None
    else if IsSharedStrings(listing[0]) then Some(listing[0])
    else FirstSharedStrings(listing[1..])
  }

  /** None when a member whose name holds a backslash cannot be read by its normalised name. */
  function ReferencesSst(zip: Archive): Option<bool> {
    var ct := Find(zip, CONTENT_TYPES);
    var rels := Find(zip, WORKBOOK_RELS);
    if CONTENT_TYPES in Names(zip) && ct.None? then None
    else if CONTENT_TYPES in Names(zip) && CtMentions(ct.value) then Some(true)
    else if WORKBOOK_RELS !in Names(zip) then Some(false)
    else if rels.None? then None
    else Some(RelsMention(rels.value))
  }

  function UsesSharedCells(zip: Archive, listing: seq<string>): Option<bool> {
    if listing == [] then Some(false)
    else if !IsSheet(listing[0]) then UsesSharedCells(zip, listing[1..])
    else match Find(zip, listing[0])
      case None => None
      case Some(p) => if HasSharedCell(p) then Some(true) else UsesSharedCells(zip, listing[1..])
  }

  function RenameSst(d: Archive, source: string): Archive {
    match Find(d, source)
    case Some(p) => Put(Pop(d, source), SST_PART, p)
    case None => d
  }

  function CleanTypes(p: Part): Part {
    p.(nodes := Filter(p.nodes, NotOverride))
  }

  function CleanRels(p: Part): Part {
    p.(nodes := Filter(p.nodes, NotRelationship))
  }

  function StripContentTypes(d: Archive): Archive {
    match Find(d, CONTENT_TYPES)
    case Some(p) => Put(d, CONTENT_TYPES, CleanTypes(p))
    case None => d
  }

  function StripRels(d: Archive): Archive {
    match Find(d, WORKBOOK_RELS)
    case Some(p) => Put(d, WORKBOOK_RELS, CleanRels(p))
    case None => d
  }

  function StripManifest(d: Archive): Archive {
    StripRels(StripContentTypes(d))
  }

  /** The listing is the order in which the set of names is visited. */
  ghost predicate Lists(listing: seq<string>, names: set<string>) {
    forall n :: n in listing <==> n in names
  }

  /** Stripping decodes the manifest parts, and raises on improper UTF-8. */
  predicate Decodable(d: Archive) {
    && (Find(d, CONTENT_TYPES).Some? ==> Find(d, CONTENT_TYPES).value.utf8)
    && (Find(d, WORKBOOK_RELS).Some? ==> Find(d, WORKBOOK_RELS).value.utf8)
  }

  function RepairArchive(zip: Archive, listing: seq<string>): Repair {
    match FirstSharedStrings(listing)
    case Some(path) => if path == SST_PART then Kept else Repaired(RenameSst(Files(zip), path))
    case None =>
      match ReferencesSst(zip)
      case None => Failed
      case Some(false) => Kept
      case Some(true) =>
        match UsesSharedCells(zip, listing)
        case None => Failed
        case Some(true) => Kept
        case Some(false) => if Decodable(Files(zip)) then Repaired(StripManifest(Files(zip))) else Failed
  }

  // ----- the loops

  method FindSharedStringsPath(listing: seq<string>) returns (r: Option<string>)
    ensures r == FirstSharedStrings(listing)
  {
    for i := 0 to |listing|
      invariant FirstSharedStrings(listing) == FirstSharedStrings(listing[i..])
    {
      if IsSharedStrings(listing[i]) {
        return Some(listing[i]);
      }
    }
    return None;
  }

  method WorksheetsUseSharedStringCells(zip: Archive, listing: seq<string>) returns (r: Option<bool>)
    ensures r == UsesSharedCells(zip, listing)
  {
    for i := 0 to |listing|
      invariant UsesSharedCells(zip, listing) == UsesSharedCells(zip, listing[i..])
    {
      assert listing[i..][1..] == listing[i + 1..];
      if IsSheet(listing[i]) {
        var part := Find(zip, listing[i]);
        if part.None? {
          return None;
        }
        if HasSharedCell(part.value) {
          return Some(true);
        }
      }
    }
    return Some(false);
  }

  method ReadFiles(zip: Archive) returns (files: Archive)
    ensures files == Files(zip)
  {
    files := [];
    for k := 0 to |zip|
      invariant files == Unpacked(zip, k)
    {
      var part := Find(zip, zip[k].name);
      if part.Some? {
        files := Put(files, Normal(zip[k].name), part.value);
      }
    }
  }

  method RepairXlsxBytes(zip: Archive, listing: seq<string>) returns (r: Repair)
    ensures r == RepairArchive(zip, listing)
  {
    var path := FindSharedStringsPath(listing);
    if path.Some? {
      if path.value == SST_PART {
        return Kept;
      }
      var files := ReadFiles(zip);
      return Repaired(RenameSst(files, path.value));
    }
    var referenced := ReferencesSst(zip);
    if referenced.None? {
      return Failed;
    }
    if !referenced.value {
      return Kept;
    }
    var used := WorksheetsUseSharedStringCells(zip, listing);
    if used.None? {
      return Failed;
    }
    if used.value {
      return Kept;
    }
    var files := ReadFiles(zip);
    return if Decodable(files) then Repaired(StripManifest(files)) else Failed;
  }

  // ----- dictionary facts

  lemma {:induction false} FindIn(d: Archive, name: string)
    ensures Find(d, name).Some? <==> name in Keys(d)
    ensures Find(d, name).Some? ==> Entry(name, Find(d, name).value) in d
  {
    if d != [] {
      FindIn(d[1..], name);
      assert d == [d[0]] + d[1..];
    }
  }

  lemma {:induction false} KeysCons(e: Entry, d: Archive)
    ensures Keys([e] + d) == {e.name} + Keys(d)
  {
    var all := [e] + d;
    assert all[0] == e;
    forall n | n in Keys(d) ensures n in Keys(all) {
      var x :| x in d && x.name == n;
      assert x in all;
    }
  }

  lemma {:induction false} FindCons(e: Entry, d: Archive, n: string)
    ensures Find([e] + d, n) == if Find(d, n).Some? then Find(d, n) else if e.name == n then Some(e.part) else None
  {
    assert ([e] + d)[1..] == d;
  }

  lemma {:induction false} PutCons(e: Entry, d: Archive, name: string, part: Part)
    ensures Put([e] + d, name, part) == if e.name == name then [Entry(name, part)] + d else [e] + Put(d, name, part)
  {
    assert ([e] + d)[1..] == d;
  }

  lemma {:induction false} UniqueCons(e: Entry, d: Archive)
    ensures Unique([e] + d) <==> e.name !in Keys(d) && Unique(d)
  {
    assert ([e] + d)[1..] == d;
  }

  lemma {:induction false} PutKeys(d: Archive, name: string, part: Part)
    requires Unique(d)
    ensures Unique(Put(d, name, part))
    ensures Keys(Put(d, name, part)) == Keys(d) + {name}
  {
    if d == [] {
      UniqueCons(Entry(name, part), []);
      assert [Entry(name, part)] + [] == [Entry(name, part)];
    } else {
      hide Unique, Put, Keys;
      var e, rest := d[0], d[1..];
      assert d == [e] + rest;
      KeysCons(e, rest);
      UniqueCons(e, rest);
      PutCons(e, rest, name, part);
      PutKeys(rest, name, part);
      KeysCons(e, Put(rest, name, part));
      KeysCons(Entry(name, part), rest);
      UniqueCons(e, Put(rest, name, part));
      UniqueCons(Entry(name, part), rest);
    }
  }

  lemma {:induction false} PutFind(d: Archive, name: string, part: Part, n: string)
    requires Unique(d)
    ensures Find(Put(d, name, part), n) == if n == name then Some(part) else Find(d, n)
  {
    if d != [] {
      hide Unique, Put, Keys, Find;
      var e, rest := d[0], d[1..];
      assert d == [e] + rest;
      UniqueCons(e, rest);
      PutCons(e, rest, name, part);
      PutFind(rest, name, part, n);
      FindIn(rest, name);
      FindCons(e, rest, n);
      FindCons(e, Put(rest, name, part), n);
      FindCons(Entry(name, part), rest, n);
    }
  }

  lemma {:induction false} PutShape(d: Archive, name: string, part: Part)
    requires Unique(d)
    ensures name !in Keys(d) ==> Put(d, name, part) == d + [Entry(name, part)]
    ensures Find(d, name) == Some(part) ==> Put(d, name, part) == d
    ensures forall e :: e in Put(d, name, part) ==> e.name == name || e in d
  {
    if d != [] {
      hide Unique, Put, Keys, Find;
      var e, rest := d[0], d[1..];
      assert d == [e] + rest;
      KeysCons(e, rest);
      UniqueCons(e, rest);
      PutCons(e, rest, name, part);
      PutShape(rest, name, part);
      FindIn(rest, name);
      FindCons(e, rest, name);
    }
  }

  lemma {:induction false} PutFacts(d: Archive, name: string, part: Part)
    requires Unique(d)
    ensures Unique(Put(d, name, part))
    ensures Keys(Put(d, name, part)) == Keys(d) + {name}
    ensures forall n :: Find(Put(d, name, part), n) == if n == name then Some(part) else Find(d, n)
    ensures name !in Keys(d) ==> Put(d, name, part) == d + [Entry(name, part)]
    ensures Find(d, name) == Some(part) ==> Put(d, name, part) == d
    ensures forall e :: e in Put(d, name, part) ==> e.name == name || e in d
  {
    hide *;
    PutKeys(d, name, part);
    PutShape(d, name, part);
    forall n ensures Find(Put(d, name, part), n) == if n == name then Some(part) else Find(d, n) {
      PutFind(d, name, part, n);
    }
  }

  lemma {:induction false} PopFacts(d: Archive, name: string)
    requires Unique(d)
    ensures Unique(Pop(d, name))
    ensures Keys(Pop(d, name)) == Keys(d) - {name}
    ensures forall n :: Find(Pop(d, name), n) == if n == name then None else Find(d, n)
    ensures forall e :: e in Pop(d, name) ==> e in d
  {
    if d != [] {
      var e, rest := d[0], d[1..];
      assert d == [e] + rest;
      PopCons(e, rest, name);
      hide Unique, Pop, Keys, Find;
      KeysCons(e, rest);
      UniqueCons(e, rest);
      PopFacts(rest, name);
      FindIn(rest, name);
      KeysCons(e, Pop(rest, name));
      UniqueCons(e, Pop(rest, name));
      forall n ensures Find(Pop(d, name), n) == if n == name then None else Find(d, n) {
        FindCons(e, rest, n);
        FindCons(e, Pop(rest, name), n);
      }
    }
  }

  lemma {:induction false} PopCons(e: Entry, d: Archive, name: string)
    ensures Pop([e] + d, name) == if e.name == name then Pop(d, name) else [e] + Pop(d, name)
  {
    assert ([e] + d)[1..] == d;
  }

  lemma NormalTwice(name: string)
    ensures Normal(Normal(name)) == Normal(name)
  {
  }

  lemma {:induction false} UnpackedFacts(zip: Archive, k: nat)
    requires k <= |zip|
    ensures Tidy(Unpacked(zip, k))
    ensures Keys(Unpacked(zip, k)) == Names(zip[..k])
  {
    if k > 0 {
      var e := zip[k - 1];
      UnpackedFacts(zip, k - 1);
      UnpackedStep(zip, k);
      hide Unpacked, Unique, Keys, Find, Put, Names, Normal;
      var before := Unpacked(zip, k - 1);
      PutFacts(before, Normal(e.name), Find(zip, e.name).value);
      NormalTwice(e.name);
      NamesSnoc(zip, k);
    }
  }

  lemma {:induction false} UnpackedStep(zip: Archive, k: nat)
    requires 0 < k <= |zip|
    ensures Find(zip, zip[k - 1].name).Some?
    ensures Unpacked(zip, k) ==
      Put(Unpacked(zip, k - 1), Normal(zip[k - 1].name), Find(zip, zip[k - 1].name).value)
  {
    FindIn(zip, zip[k - 1].name);
    assert zip[k - 1] in zip;
  }

  lemma {:induction false} NamesSnoc(zip: Archive, k: nat)
    requires 0 < k <= |zip|
    ensures Names(zip[..k]) == Names(zip[..k - 1]) + {Normal(zip[k - 1].name)}
  {
    assert zip[..k] == zip[..k - 1] + [zip[k - 1]];
  }

  /** Member `i` is the last of the first `k` with its normalised name. */
  ghost predicate LastNamed(zip: Archive, i: nat, k: nat)
    requires i < k <= |zip|
  {
    forall j :: i < j < k ==> Normal(zip[j].name) != Normal(zip[i].name)
  }

  lemma {:induction false} UnpackedPart(zip: Archive, k: nat, i: nat)
    requires i < k <= |zip| && LastNamed(zip, i, k)
    ensures Find(Unpacked(zip, k), Normal(zip[i].name)) == Find(zip, zip[i].name)
    decreases k
  {
    hide Unpacked, Unique, Find, Put, Normal;
    UnpackedStep(zip, k);
    UnpackedFacts(zip, k - 1);
    PutFind(Unpacked(zip, k - 1), Normal(zip[k - 1].name), Find(zip, zip[k - 1].name).value, Normal(zip[i].name));
    if i < k - 1 {
      UnpackedPart(zip, k - 1, i);
    }
  }

  lemma {:induction false} LastIsFound(zip: Archive, i: nat)
    requires i < |zip| && forall j :: i < j < |zip| ==> zip[j].name != zip[i].name
    ensures Find(zip, zip[i].name) == Some(zip[i].part)
  {
    if i == 0 {
      FindIn(zip[1..], zip[0].name);
    } else {
      LastIsFound(zip[1..], i - 1);
    }
  }

  /** Under a normalised name the dictionary holds the part of the last member with that name. */
  lemma {:induction false} LastMemberWins(zip: Archive, i: nat)
    requires i < |zip| && LastNamed(zip, i, |zip|)
    ensures Find(Files(zip), Normal(zip[i].name)) == Some(zip[i].part)
  {
    hide Unpacked, Find, Normal;
    UnpackedPart(zip, |zip|, i);
    LastIsFound(zip, i);
  }

  lemma {:induction false} FilesFacts(zip: Archive)
    ensures Tidy(Files(zip))
    ensures Keys(Files(zip)) == Names(zip)
    ensures Names(Files(zip)) == Names(zip)
  {
    UnpackedFacts(zip, |zip|);
    assert zip[..|zip|] == zip;
    TidyNames(Files(zip));
  }

  lemma {:induction false} TidyNames(d: Archive)
    requires Tidy(d)
    ensures Names(d) == Keys(d)
  {
  }

  // ----- what one repair does

  function SstNames(names: set<string>): set<string> {
    set n | n in names && IsSharedStrings(n)
  }

  ghost predicate Referenced(d: Archive) {
    || (Find(d, CONTENT_TYPES).Some? && CtMentions(Find(d, CONTENT_TYPES).value))
    || (Find(d, WORKBOOK_RELS).Some? && RelsMention(Find(d, WORKBOOK_RELS).value))
  }

  /** Some mention of the shared strings sits outside the elements that stripping removes. */
  ghost predicate Leftover(d: Archive) {
    || (Find(d, CONTENT_TYPES).Some?
        && exists n :: n in Find(d, CONTENT_TYPES).value.nodes && Mentions(n, "sharedstrings.xml") && !IsOverride(n))
    || (Find(d, WORKBOOK_RELS).Some?
        && exists n :: n in Find(d, WORKBOOK_RELS).value.nodes && Mentions(n, "sharedstrings") && !IsRelationship(n))
  }

  ghost predicate SharedCells(d: Archive) {
    exists name :: IsSheet(name) && Find(d, name).Some? && HasSharedCell(Find(d, name).value)
  }

  lemma {:induction false} FirstFacts(listing: seq<string>)
    ensures FirstSharedStrings(listing).Some? ==>
      FirstSharedStrings(listing).value in listing && IsSharedStrings(FirstSharedStrings(listing).value)
    ensures FirstSharedStrings(listing).None? ==> forall n :: n in listing ==> !IsSharedStrings(n)
  {
    if listing != [] {
      FirstFacts(listing[1..]);
    }
  }

  lemma {:induction false} NothingListed(listing: seq<string>, names: set<string>)
    requires Lists(listing, names)
    ensures FirstSharedStrings(listing).None? <==> SstNames(names) == {}
  {
    FirstFacts(listing);
    if FirstSharedStrings(listing).Some? {
      assert FirstSharedStrings(listing).value in SstNames(names);
    }
  }

  lemma CanonicalName()
    ensures IsSharedStrings(SST_PART) && Normal(SST_PART) == SST_PART
  {
    assert Lower(SST_PART)[3..] == "sharedstrings.xml";
  }

  lemma ManifestsAreNotSheets()
    ensures !IsSheet(CONTENT_TYPES) && !IsSheet(WORKBOOK_RELS)
  {
    assert CONTENT_TYPES[0] == '[';
    assert WORKBOOK_RELS[..14][3] != "xl/worksheets/"[3];
  }

  lemma {:induction false} RenameFacts(d: Archive, path: string)
    requires Tidy(d) && path in Keys(d)
    ensures Tidy(RenameSst(d, path))
    ensures Keys(RenameSst(d, path)) == Keys(d) - {path} + {SST_PART}
    ensures forall n ::
      Find(RenameSst(d, path), n) == (if n == SST_PART then Find(d, path) else if n == path then None else Find(d, n))
  {
    hide Unique, Put, Pop, Find, IsSharedStrings, IsSheet, Keys;
    FindIn(d, path);
    PopFacts(d, path);
    PutFacts(Pop(d, path), SST_PART, Find(d, path).value);
    CanonicalName();
  }

  lemma {:induction false} StripFacts(d: Archive)
    requires Tidy(d)
    ensures Tidy(StripManifest(d))
    ensures Keys(StripManifest(d)) == Keys(d)
    ensures forall n ::
      Find(StripManifest(d), n) ==
      (if Find(d, n).None? then None
       else if n == CONTENT_TYPES then Some(CleanTypes(Find(d, n).value))
       else if n == WORKBOOK_RELS then Some(CleanRels(Find(d, n).value))
       else Find(d, n))
  {
    hide Unique, Put, Find, Keys, NotOverride, NotRelationship, Filter;
    FindIn(d, CONTENT_TYPES);
    var e := StripContentTypes(d);
    if Find(d, CONTENT_TYPES).Some? {
      PutFacts(d, CONTENT_TYPES, CleanTypes(Find(d, CONTENT_TYPES).value));
      KeepsNormal(d, CONTENT_TYPES, CleanTypes(Find(d, CONTENT_TYPES).value));
    }
    FindIn(e, WORKBOOK_RELS);
    if Find(e, WORKBOOK_RELS).Some? {
      PutFacts(e, WORKBOOK_RELS, CleanRels(Find(e, WORKBOOK_RELS).value));
      KeepsNormal(e, WORKBOOK_RELS, CleanRels(Find(e, WORKBOOK_RELS).value));
    }
  }

  lemma {:induction false} KeepsNormal(d: Archive, name: string, part: Part)
    requires Tidy(d) && name in Keys(d)
    ensures Tidy(Put(d, name, part))
  {
    hide Unique, Put, Find;
    PutFacts(d, name, part);
    var x :| x in d && x.name == name;
    assert forall e :: e in Put(d, name, part) ==> Normal(e.name) == e.name;
  }

  /** After stripping, the package still references shared strings exactly when a mention was left over. */
  lemma {:induction false} StripLeavesIff(d: Archive)
    requires Tidy(d)
    ensures Referenced(StripManifest(d)) <==> Leftover(d)
    ensures SharedCells(StripManifest(d)) <==> SharedCells(d)
    ensures Decodable(StripManifest(d)) <==> Decodable(d)
  {
    hide Unique, Put, Find, Keys, IsSheet, IsOverride, IsRelationship, HasSharedCell, Mentions, StripManifest, IsSharedStrings;
    StripFacts(d);
    ManifestsAreNotSheets();
    if Find(d, CONTENT_TYPES).Some? {
      FilterIn(Find(d, CONTENT_TYPES).value.nodes, NotOverride);
    }
    if Find(d, WORKBOOK_RELS).Some? {
      FilterIn(Find(d, WORKBOOK_RELS).value.nodes, NotRelationship);
    }
  }

  lemma {:induction false} StripTwice(d: Archive)
    requires Tidy(d)
    ensures StripManifest(StripManifest(d)) == StripManifest(d)
  {
    hide Unique, Put, Find, Keys, IsSheet, IsOverride, IsRelationship, Filter;
    var s := StripManifest(d);
    StripFacts(d);
    if Find(d, CONTENT_TYPES).Some? {
      var p := Find(d, CONTENT_TYPES).value;
      FilterIn(p.nodes, NotOverride);
      FilterAll(CleanTypes(p).nodes, NotOverride);
      PutFacts(s, CONTENT_TYPES, CleanTypes(p));
    }
    assert StripContentTypes(s) == s;
    if Find(d, WORKBOOK_RELS).Some? {
      var p := Find(d, WORKBOOK_RELS).value;
      FilterIn(p.nodes, NotRelationship);
      FilterAll(CleanRels(p).nodes, NotRelationship);
      PutFacts(s, WORKBOOK_RELS, CleanRels(p));
    }
  }

  lemma {:induction false} TidyFiles(d: Archive, k: nat)
    requires Tidy(d) && k <= |d|
    ensures Unpacked(d, k) == d[..k]
  {
    if k == 0 {
      NothingUnpacked(d);
    } else {
      TidyFiles(d, k - 1);
      TidyStep(d, k);
    }
  }

  lemma {:induction false} TidyStep(d: Archive, k: nat)
    requires Tidy(d) && 0 < k <= |d| && Unpacked(d, k - 1) == d[..k - 1]
    ensures Unpacked(d, k) == d[..k]
  {
    var e, before := d[k - 1], d[..k - 1];
    assert e in d && Normal(e.name) == e.name;
    hide *;
    UnpackedStep(d, k);
    OwnPart(d, k - 1);
    UniquePrefix(d, k - 1);
    PutShape(before, e.name, e.part);
    assert d[..k] == before + [e];
  }

  lemma NothingUnpacked(d: Archive)
    ensures Unpacked(d, 0) == []
  {
  }

  lemma {:induction false} UniquePrefix(d: Archive, k: nat)
    requires Unique(d) && k < |d|
    ensures Unique(d[..k]) && d[k].name !in Keys(d[..k])
  {
    if k > 0 {
      UniquePrefix(d[1..], k - 1);
      assert d[..k][1..] == d[1..][..k - 1];
      assert d[k] == d[1..][k - 1] && d[1..][k - 1] in d[1..];
      assert d[..k] == [d[0]] + d[1..][..k - 1];
      KeysCons(d[0], d[1..][..k - 1]);
      forall n | n in Keys(d[1..][..k - 1]) ensures n in Keys(d[1..]) {
        var x :| x in d[1..][..k - 1] && x.name == n;
      }
    }
  }

  lemma {:induction false} OwnPart(d: Archive, k: nat)
    requires Unique(d) && k < |d|
    ensures Find(d, d[k].name) == Some(d[k].part)
  {
    if k == 0 {
      FindIn(d[1..], d[0].name);
    } else {
      OwnPart(d[1..], k - 1);
    }
  }

  lemma {:induction false} TidySharedCells(d: Archive, listing: seq<string>)
    requires forall n :: n in listing ==> n in Keys(d)
    ensures UsesSharedCells(d, listing) ==
      Some(exists n :: n in listing && IsSheet(n) && Find(d, n).Some? && HasSharedCell(Find(d, n).value))
  {
    if listing != [] {
      hide Find, Keys, IsSheet, HasSharedCell;
      assert listing == [listing[0]] + listing[1..];
      FindIn(d, listing[0]);
      TidySharedCells(d, listing[1..]);
    }
  }

  /** On a package the repair wrote itself, or any tidy one, it strips exactly when the guards say so. */
  lemma {:induction false} TidyRepair(d: Archive, listing: seq<string>)
    requires Tidy(d) && Lists(listing, Names(d)) && SstNames(Names(d)) == {}
    ensures RepairArchive(d, listing) ==
      if !Referenced(d) || SharedCells(d) then Kept
      else if Decodable(d) then Repaired(StripManifest(d)) else Failed
  {
    hide Find, Keys, IsSheet, HasSharedCell, IsSharedStrings, UsesSharedCells, CtMentions, RelsMention, StripManifest, Normal, Unique;
    NothingListed(listing, Names(d));
    TidyNames(d);
    FindIn(d, CONTENT_TYPES);
    FindIn(d, WORKBOOK_RELS);
    TidySharedCells(d, listing);
    if SharedCells(d) {
      var name :| IsSheet(name) && Find(d, name).Some? && HasSharedCell(Find(d, name).value);
      FindIn(d, name);
      assert name in listing;
    }
    TidyFiles(d, |d|);
    assert d[..|d|] == d;
  }

  /** A renamed package carries the same part under the canonical name and nothing else changes. */
  lemma {:induction false} RenamedPackage(zip: Archive, listing: seq<string>)
    requires Lists(listing, Names(zip)) && FirstSharedStrings(listing).Some?
    requires FirstSharedStrings(listing).value != SST_PART
    ensures RepairArchive(zip, listing).Repaired?
    ensures var path := FirstSharedStrings(listing).value;
      var r := RepairArchive(zip, listing).archive;
      && Tidy(r)
      && path in SstNames(Names(zip))
      && SstNames(Names(r)) == SstNames(Names(zip)) - {path} + {SST_PART}
      && Find(r, SST_PART) == Find(Files(zip), path)
      && forall n :: n != SST_PART && n != path ==> Find(r, n) == Find(Files(zip), n)
  {
    hide Find, Keys, IsSheet, IsSharedStrings, RenameSst, Normal, Unique, Unpacked;
    FirstFacts(listing);
    FilesFacts(zip);
    RenameFacts(Files(zip), FirstSharedStrings(listing).value);
    TidyNames(RepairArchive(zip, listing).archive);
    CanonicalName();
  }

  /** A stripped package has no shared-strings part, the same names and the same sheets. */
  lemma {:induction false} StrippedPackage(zip: Archive, listing: seq<string>)
    requires Lists(listing, Names(zip)) && FirstSharedStrings(listing).None?
    requires RepairArchive(zip, listing).Repaired?
    ensures var r := RepairArchive(zip, listing).archive;
      && r == StripManifest(Files(zip))
      && Tidy(r)
      && Names(r) == Names(zip)
      && SstNames(Names(r)) == {}
      && (Referenced(r) <==> Leftover(Files(zip)))
      && (SharedCells(r) <==> SharedCells(Files(zip)))
      && Decodable(r)
  {
    hide Find, Keys, IsSheet, IsSharedStrings, StripManifest, Normal, Unique, Unpacked, Leftover, Referenced, SharedCells;
    FirstFacts(listing);
    FilesFacts(zip);
    StripFacts(Files(zip));
    StripLeavesIff(Files(zip));
    TidyNames(StripManifest(Files(zip)));
  }

  // ----- repeated repair

  /** How often the repair can still change the package. */
  ghost function RepairsLeft(zip: Archive): nat {
    var c := SstNames(Names(zip));
    if c != {} then 2 * |c| - (if SST_PART in c then 1 else 0)
    else if Tidy(zip) && (Referenced(zip) ==> SharedCells(zip)) then 0 else 1
  }

  ghost predicate Enumerates(order: set<string> -> seq<string>) {
    forall names :: Lists(order(names), names)
  }

  ghost predicate Quiet(zip: Archive, order: set<string> -> seq<string>) {
    !RepairArchive(zip, order(Names(zip))).Repaired?
  }

  /** Stripping applies: no part, a readable reference, readable sheets without shared cells, and proper UTF-8 ... */
  ghost predicate Strips(zip: Archive, listing: seq<string>) {
    && SstNames(Names(zip)) == {}
    && ReferencesSst(zip) == Some(true)
    && UsesSharedCells(zip, listing) == Some(false)
    && Decodable(Files(zip))
  }

  /** ... and a mention outside the stripped elements survives it. */
  ghost predicate Stuck(zip: Archive, order: set<string> -> seq<string>) {
    && Strips(zip, order(Names(zip)))
    && Leftover(Files(zip))
    && !SharedCells(Files(zip))
  }

  /** Without a shared-strings part, a repair is a stripping. */
  lemma {:induction false} StripsIff(zip: Archive, order: set<string> -> seq<string>)
    requires Enumerates(order) && SstNames(Names(zip)) == {}
    ensures Strips(zip, order(Names(zip))) <==> !Quiet(zip, order)
  {
    hide ReferencesSst, UsesSharedCells, StripManifest, Unpacked, Names, Decodable;
    assert Lists(order(Names(zip)), Names(zip));
    NothingListed(order(Names(zip)), Names(zip));
  }

  lemma {:induction false} StuckIff(zip: Archive, order: set<string> -> seq<string>)
    requires Enumerates(order)
    ensures Stuck(zip, order) <==>
      SstNames(Names(zip)) == {} && !Quiet(zip, order) && Leftover(Files(zip)) && !SharedCells(Files(zip))
  {
    hide Quiet, Strips, Leftover, SharedCells, Names, Unpacked;
    if SstNames(Names(zip)) == {} {
      StripsIff(zip, order);
    } else {
      StripsNeedsNone(zip, order(Names(zip)));
    }
  }

  lemma StripsNeedsNone(zip: Archive, listing: seq<string>)
    ensures Strips(zip, listing) ==> SstNames(Names(zip)) == {}
  {
  }

  /** On a package with normal names, each once, whose manifest can be decoded: no part, no cells, and a mention left over. */
  lemma {:induction false} StuckTidyIff(zip: Archive, order: set<string> -> seq<string>)
    requires Enumerates(order) && Tidy(zip) && Decodable(zip)
    ensures Stuck(zip, order) <==> SstNames(Names(zip)) == {} && Leftover(zip) && !SharedCells(zip)
  {
    TidyIsItsFiles(zip);
    if SstNames(Names(zip)) == {} {
      StripsIff(zip, order);
      assert Lists(order(Names(zip)), Names(zip));
      TidyRepair(zip, order(Names(zip)));
      hide Find, Keys, IsSheet, IsSharedStrings, StripManifest, Normal, Unpacked, SharedCells, Tidy, Names, RepairArchive,
        ReferencesSst, UsesSharedCells, Decodable, IsOverride, IsRelationship, Mentions;
    }
  }

  function Repeat(zip: Archive, order: set<string> -> seq<string>, k: nat): Archive
    decreases k
  {
    if k == 0 then zip else
      match RepairArchive(zip, order(Names(zip)))
      case Repaired(z) => Repeat(z, order, k - 1)
      case _ => zip
  }

  /** A repair of a package that is not stuck lowers the number of repairs left, and gets no package stuck. */
  lemma {:induction false} RepairLowers(zip: Archive, order: set<string> -> seq<string>)
    requires Enumerates(order) && !Quiet(zip, order) && !Stuck(zip, order)
    ensures var r := RepairArchive(zip, order(Names(zip))).archive;
      RepairsLeft(r) < RepairsLeft(zip) && !Stuck(r, order)
  {
    hide Find, Keys, IsSheet, IsSharedStrings, StripManifest, Normal, Unpacked, Leftover, Referenced, SharedCells, Tidy, Names, RepairArchive, Stuck, Decodable;
    StuckIff(zip, order);
    StuckIff(RepairArchive(zip, order(Names(zip))).archive, order);
    var listing := order(Names(zip));
    var c := SstNames(Names(zip));
    assert Lists(listing, Names(zip));
    FirstFacts(listing);
    if FirstSharedStrings(listing).None? {
      StrippedPackage(zip, listing);
      var r := RepairArchive(zip, listing).archive;
      assert c == {};
      TidyRepair(r, order(Names(r)));
      TidyIsItsFiles(r);
      NeverNegative(zip, order);
    } else {
      var path := FirstSharedStrings(listing).value;
      KeptCanonical(zip, listing);
      RenamedPackage(zip, listing);
      CanonicalName();
      assert path in c;
      var d := SstNames(Names(RepairArchive(zip, listing).archive));
      assert SST_PART in d;
      if SST_PART in c {
        assert d == c - {path};
      } else {
        assert |c - {path} + {SST_PART}| == |c|;
      }
    }
  }

  lemma {:induction false} KeptCanonical(zip: Archive, listing: seq<string>)
    ensures FirstSharedStrings(listing) == Some(SST_PART) ==> RepairArchive(zip, listing) == Kept
  {
  }

  lemma {:induction false} TidyIsItsFiles(d: Archive)
    requires Tidy(d)
    ensures Files(d) == d
  {
    TidyFiles(d, |d|);
    assert d[..|d|] == d;
  }

  /** A package without a shared-strings part that can still be repaired counts as one repair. */
  lemma {:induction false} NeverNegative(zip: Archive, order: set<string> -> seq<string>)
    requires Enumerates(order) && !Quiet(zip, order) && SstNames(Names(zip)) == {}
    ensures RepairsLeft(zip) == 1
  {
    hide Find, Keys, IsSheet, IsSharedStrings, StripManifest, Normal, Unpacked, Leftover, Referenced, SharedCells, Names, RepairArchive;
    assert Lists(order(Names(zip)), Names(zip));
    if Tidy(zip) {
      TidyRepair(zip, order(Names(zip)));
    }
  }

  /** A stuck package is repaired into one that the repair writes again and again. */
  lemma {:induction false} StuckRepeats(zip: Archive, order: set<string> -> seq<string>)
    requires Enumerates(order) && Stuck(zip, order)
    ensures RepairArchive(zip, order(Names(zip))).Repaired?
    ensures var r := RepairArchive(zip, order(Names(zip))).archive;
      RepairArchive(r, order(Names(r))) == Repaired(r) && Stuck(r, order)
  {
    StuckIff(zip, order);
    hide Find, Keys, IsSheet, IsSharedStrings, StripManifest, Normal, Unpacked, Leftover, Referenced, SharedCells, Tidy, Names, RepairArchive, Stuck, Decodable;
    var listing := order(Names(zip));
    assert Lists(listing, Names(zip));
    NothingListed(listing, Names(zip));
    StrippedPackage(zip, listing);
    var r := RepairArchive(zip, listing).archive;
    assert Lists(order(Names(r)), Names(r));
    TidyRepair(r, order(Names(r)));
    FilesFacts(zip);
    StripTwice(Files(zip));
    TidyIsItsFiles(r);
    StripLeavesIff(r);
    StuckIff(r, order);
  }

  lemma {:induction false} StuckForever(zip: Archive, order: set<string> -> seq<string>, k: nat)
    requires Enumerates(order) && Stuck(zip, order)
    ensures Stuck(Repeat(zip, order, k), order)
    decreases k
  {
    hide Stuck, RepairArchive, Names;
    if k > 0 {
      StuckRepeats(zip, order);
      StuckForever(RepairArchive(zip, order(Names(zip))).archive, order, k - 1);
    }
  }

  lemma {:induction false} RepairSettles(zip: Archive, order: set<string> -> seq<string>, k: nat)
    requires Enumerates(order) && !Stuck(zip, order) && RepairsLeft(zip) <= k
    ensures Quiet(Repeat(zip, order, k), order)
    decreases k
  {
    hide RepairArchive, RepairsLeft, Stuck, Names;
    if !Quiet(zip, order) {
      RepairLowers(zip, order);
      RepairSettles(RepairArchive(zip, order(Names(zip))).archive, order, k - 1);
    }
  }

  /** Repeated repair reaches a package it leaves alone exactly when the package is not stuck. */
  lemma {:induction false} RepairStopsIff(zip: Archive, order: set<string> -> seq<string>)
    requires Enumerates(order)
    ensures (exists k :: Quiet(Repeat(zip, order, k), order)) <==> !Stuck(zip, order)
    ensures !Stuck(zip, order) ==> Quiet(Repeat(zip, order, RepairsLeft(zip)), order)
  {
    hide RepairArchive, RepairsLeft, Names, Repeat, Stuck;
    if Stuck(zip, order) {
      forall k: nat ensures !Quiet(Repeat(zip, order, k), order) {
        StuckForever(zip, order, k);
        StuckIff(Repeat(zip, order, k), order);
      }
    } else {
      RepairSettles(zip, order, RepairsLeft(zip));
    }
  }

  /** One repair is enough with one shared-strings part, or when every mention can be stripped. */
  lemma {:induction false} OneRepairIsEnough(zip: Archive, order: set<string> -> seq<string>)
    requires Enumerates(order) && !Quiet(zip, order)
    requires |SstNames(Names(zip)) - {SST_PART}| <= 1 && !Stuck(zip, order)
    ensures Quiet(RepairArchive(zip, order(Names(zip))).archive, order)
  {
    hide Find, Keys, IsSheet, IsSharedStrings, StripManifest, Normal, Unpacked, Leftover, Referenced, SharedCells, Tidy, Names, RepairArchive, Stuck, Decodable;
    StuckIff(zip, order);
    var listing := order(Names(zip));
    var c := SstNames(Names(zip));
    assert Lists(listing, Names(zip));
    FirstFacts(listing);
    if FirstSharedStrings(listing).None? {
      StrippedPackage(zip, listing);
      var r := RepairArchive(zip, listing).archive;
      assert Lists(order(Names(r)), Names(r));
      assert c == {};
      TidyRepair(r, order(Names(r)));
    } else {
      KeptCanonical(zip, listing);
      RenamedPackage(zip, listing);
      var path := FirstSharedStrings(listing).value;
      var r := RepairArchive(zip, listing).archive;
      assert Lists(order(Names(r)), Names(r));
      var again := order(Names(r));
      Only(c - {SST_PART}, path);
      assert SstNames(Names(r)) == {SST_PART};
      NothingListed(again, Names(r));
      FirstFacts(again);
      assert FirstSharedStrings(again).value in SstNames(Names(r));
      KeptCanonical(r, again);
    }
  }

  lemma {:induction false} Only<T>(s: set<T>, x: T)
    requires |s| <= 1 && x in s
    ensures s == {x}
  {
    assert s == {x} + (s - {x});
  }

  const END_TAGGED: Node := Tag("Override", [Attr("PartName", "/xl/sharedStrings.xml")], false)

  lemma {:induction false} EndTaggedFacts()
    ensures Mentions(END_TAGGED, "sharedstrings.xml") && !IsOverride(END_TAGGED)
  {
    var attr := END_TAGGED.attrs[0];
    assert Lower(attr.value)[4..] == "sharedstrings.xml";
    assert StartsAt(Lower(attr.value), "sharedstrings.xml", 4);
  }

  lemma {:induction false} OnlyContentTypes(p: Part)
    ensures var d := [Entry(CONTENT_TYPES, p)];
      && Tidy(d)
      && Names(d) == {CONTENT_TYPES}
      && SstNames(Names(d)) == {}
      && forall n :: Find(d, n) == if n == CONTENT_TYPES then Some(p) else None
  {
    var d := [Entry(CONTENT_TYPES, p)];
    assert d[1..] == [];
    assert Normal(CONTENT_TYPES) == CONTENT_TYPES;
    assert Tidy(d);
    TidyNames(d);
    assert Lower(CONTENT_TYPES)[|CONTENT_TYPES| - 17] != "sharedstrings.xml"[0];
  }

  /** An empty element with a separate end tag is not stripped, and keeps the package repairable for ever. */
  lemma {:induction false} RepairNeedNotStop(order: set<string> -> seq<string>)
    requires Enumerates(order)
    ensures Stuck([Entry(CONTENT_TYPES, Part([END_TAGGED], true))], order)
  {
    hide Find, Names, Normal, Mentions, IsOverride, IsSheet, RepairArchive, Unpacked, SstNames, Tidy, CtMentions, Stuck;
    var zip := [Entry(CONTENT_TYPES, Part([END_TAGGED], true))];
    OnlyContentTypes(Part([END_TAGGED], true));
    EndTaggedFacts();
    ManifestsAreNotSheets();
    assert END_TAGGED in Part([END_TAGGED], true).nodes;
    StuckTidyIff(zip, order);
  }
}
