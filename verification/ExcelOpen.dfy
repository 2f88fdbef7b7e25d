/** Opening a workbook: detect, convert, repair, retry. */
module ExcelOpen {
  import opened Options
  import opened Text
  import opened XlsxRepair

  datatype Format = Xlsx | Xls | Xlsb | Ods

  datatype Engine = Openpyxl | Xlrd | Odf

  datatype Bytes = Zip(archive: Archive) | Other(raw: string)

  /** What the data-frame library answers: a book, or one of the errors the loop distinguishes. */
  datatype Opening = Opened | EngineAbsent | PartAbsent(sharedStrings: bool) | BadValue(undetermined: bool) | Broken

  datatype Outcome = Book(data: Bytes, engine: Engine) | Undetermined | NoEngine | Raised

  /** Foreign code: set order, format detection, conversion, merge filling and the engines. */
  datatype Env = Env(
    order: set<string> -> seq<string>,
    sniff: Bytes -> Option<Format>,
    convert: (Bytes, string) -> Option<Bytes>,
    fill: Bytes -> Option<Bytes>,
    open: (Bytes, Engine) -> Opening)

  function Detect(env: Env, b: Bytes): Option<Format> {
    if b == Other("") then None else env.sniff(b)
  }

  function EngineFor(f: Format): Engine {
    match f
    case Xls => Xlrd
    case Ods => Odf
    case _ => Openpyxl
  }

  /** A conversion that yields an empty file counts as none. */
  function Converted(env: Env, b: Bytes, suffix: string): Option<Bytes> {
    match env.convert(b, suffix)
    case Some(c) => if c == Other("") then None else Some(c)
    case None => None
  }

  /** An empty file has no format, and is no result of a conversion. */
  lemma {:induction false} EmptyFiles(env: Env, b: Bytes, suffix: string, c: Bytes)
    ensures Detect(env, b).Some? <==> b != Other("") && env.sniff(b).Some?
    ensures Detect(env, b).Some? ==> Detect(env, b) == env.sniff(b)
    ensures Converted(env, b, suffix) == Some(c) <==> c != Other("") && env.convert(b, suffix) == Some(c)
  {
  }

  // ----- normalising unrecognised bytes

  predicate IsDot(c: char) { c == '.' }

  function Suffixes(fileType: Option<string>): seq<string> {
    (if fileType.Some? && fileType.value != "" then ["." + LStripBy(fileType.value, IsDot)] else [])
    + [".xlsx", ".xls", ".et", ".csv"]
  }

  predicate Usable(env: Env, b: Bytes, suffix: string) {
    var c := Converted(env, b, suffix);
    c.Some? && Detect(env, c.value).Some?
  }

  function FirstUsable(env: Env, b: Bytes, suffixes: seq<string>): Option<Bytes> {
    if suffixes == [] then None
    else if Usable(env, b, suffixes[0]) then Converted(env, b, suffixes[0])
    else FirstUsable(env, b, suffixes[1..])
  }

  function Normalized(env: Env, b: Bytes, fileType: Option<string>): Option<Bytes> {
    if Detect(env, b).Some? then Some(b) else FirstUsable(env, b, Suffixes(fileType))
  }

  method NormalizeExcelBytes(env: Env, b: Bytes, fileType: Option<string>) returns (r: Option<Bytes>)
    ensures r == Normalized(env, b, fileType)
  {
    if Detect(env, b).Some? {
      return Some(b);
    }
    var suffixes := Suffixes(fileType);
    var seen: set<string> := {};
    for i := 0 to |suffixes|
      invariant forall x :: x in seen ==> !Usable(env, b, x)
      invariant FirstUsable(env, b, suffixes) == FirstUsable(env, b, suffixes[i..])
    {
      assert suffixes[i..][1..] == suffixes[i + 1..];
      if suffixes[i] !in seen {
        seen := seen + {suffixes[i]};
        var c := Converted(env, b, suffixes[i]);
        if c.Some? && Detect(env, c.value).Some? {
          return c;
        }
      }
    }
    return None;
  }

  lemma {:induction false} FirstUsableFacts(env: Env, b: Bytes, suffixes: seq<string>)
    ensures FirstUsable(env, b, suffixes).None? <==> forall x :: x in suffixes ==> !Usable(env, b, x)
    ensures FirstUsable(env, b, suffixes).Some? ==>
      exists k :: 0 <= k < |suffixes| && FirstUsable(env, b, suffixes) == Converted(env, b, suffixes[k])
        && Usable(env, b, suffixes[k]) && forall j :: 0 <= j < k ==> !Usable(env, b, suffixes[j])
  {
    if suffixes != [] {
      var rest := suffixes[1..];
      FirstUsableFacts(env, b, rest);
      assert suffixes == [suffixes[0]] + rest;
      if !Usable(env, b, suffixes[0]) && FirstUsable(env, b, rest).Some? {
        var k :| 0 <= k < |rest| && FirstUsable(env, b, rest) == Converted(env, b, rest[k])
          && Usable(env, b, rest[k]) && forall j :: 0 <= j < k ==> !Usable(env, b, rest[j]);
        assert suffixes[k + 1] == rest[k];
        forall j | 0 <= j < k + 1 ensures !Usable(env, b, suffixes[j]) {
          if j > 0 {
            assert suffixes[j] == rest[j - 1];
          }
        }
      }
    }
  }

  /** Recognised bytes pass unchanged; others become the first recognised conversion, if there is one. */
  lemma {:induction false} NormalizedFacts(env: Env, b: Bytes, fileType: Option<string>)
    ensures Detect(env, b).Some? ==> Normalized(env, b, fileType) == Some(b)
    ensures Normalized(env, b, fileType).None? <==>
      Detect(env, b).None? && forall x :: x in Suffixes(fileType) ==> !Usable(env, b, x)
    ensures Normalized(env, b, fileType).Some? ==> Detect(env, Normalized(env, b, fileType).value).Some?
    ensures Normalized(env, b, fileType).Some? && Detect(env, b).None? ==>
      exists x :: x in Suffixes(fileType) && Normalized(env, b, fileType) == Converted(env, b, x)
  {
    FirstUsableFacts(env, b, Suffixes(fileType));
  }

  // ----- repair and merge filling

  function RepairBytes(env: Env, b: Bytes): Repair {
    match b
    case Zip(a) => RepairArchive(a, env.order(Names(a)))
    case Other(_) => Kept
  }

  /** None when reading the workbook raises. */
  function Prepared(env: Env, b: Bytes): Option<Bytes> {
    match RepairBytes(env, b)
    case Failed => None
    case Repaired(z) => env.fill(Zip(z))
    case Kept => env.fill(b)
  }

  // ----- the loop

  datatype State = State(data: Bytes, converted: bool)

  datatype Turn = Next(state: State) | Done(outcome: Outcome)

  function Retry(env: Env, s: State, prepared: Bytes): Turn {
    match RepairBytes(env, prepared)
    case Repaired(z) =>
      (match Prepared(env, Zip(z))
       case Some(d) => Next(State(d, s.converted))
       case None => Done(Raised))
    case _ => Done(Raised)
  }

  function Turned(env: Env, content: Bytes, fileType: Option<string>, s: State): Turn {
    var f := Detect(env, s.data);
    if f.None? then
      if s.converted then Done(Undetermined)
      else match Normalized(env, s.data, fileType)
        case Some(d) => Next(State(d, true))
        case None => Done(Undetermined)
    else if f.value == Ods && Converted(env, s.data, ".ods").Some? then
      Next(State(Converted(env, s.data, ".ods").value, s.converted))
    else
      var prepared := if f.value == Xlsx then Prepared(env, s.data) else Some(s.data);
      if prepared.None? then Done(Raised)
      else match env.open(prepared.value, EngineFor(f.value))
        case Opened => Done(Book(prepared.value, EngineFor(f.value)))
        case EngineAbsent => Done(NoEngine)
        case PartAbsent(sst) =>
          if !sst || EngineFor(f.value) != Openpyxl then Done(Raised) else Retry(env, s, prepared.value)
        case BadValue(undetermined) =>
          if s.converted || !undetermined then Done(Raised)
          else (match Normalized(env, content, fileType)
                case Some(d) => Next(State(d, true))
                case None => Done(Raised))
        case Broken => Done(Raised)
  }

  /** The outcome of at most n turns. */
  function Turns(env: Env, content: Bytes, fileType: Option<string>, s: State, n: nat): Option<Outcome>
    decreases n
  {
    if n == 0 then None else
      match Turned(env, content, fileType, s)
      case Done(o) => Some(o)
      case Next(t) => Turns(env, content, fileType, t, n - 1)
  }

  // ----- termination

  ghost predicate Repairable(env: Env, b: Bytes) {
    RepairBytes(env, b).Repaired?
  }

  ghost predicate IsOds(env: Env, b: Bytes) {
    Detect(env, b) == Some(Ods)
  }

  /** The engine misses the shared-strings part, and the repair has something to offer. */
  ghost predicate Retries(env: Env, b: Bytes) {
    env.open(b, Openpyxl) == PartAbsent(true) && Repairable(env, b)
  }

  /** A conversion to xlsx never yields an ods file. */
  ghost predicate ConvertsWell(env: Env) {
    forall b, x :: Converted(env, b, x).Some? ==> !IsOds(env, Converted(env, b, x).value)
  }

  /** A workbook that merge filling saves is no ods file and needs no repair. */
  ghost predicate FillsWell(env: Env) {
    forall b :: env.fill(b).Some? && env.fill(b).value != b ==>
      !IsOds(env, env.fill(b).value) && !Repairable(env, env.fill(b).value)
  }

  /** Merge filling and the engine read with the same loader: what the engine cannot load, filling cannot either. */
  ghost predicate SameLoader(env: Env) {
    forall b :: env.open(b, Openpyxl) == PartAbsent(true) ==> env.fill(b).None?
  }

  ghost predicate RepairKeepsFormat(env: Env) {
    forall b :: Repairable(env, b) && !IsOds(env, b) ==> !IsOds(env, Zip(RepairBytes(env, b).archive))
  }

  /** What the loop relies on in the code it calls. */
  ghost predicate WellBehaved(env: Env) {
    ConvertsWell(env) && FillsWell(env) && SameLoader(env) && RepairKeepsFormat(env)
  }

  /** What merge filling returns gives no reason for another repair. */
  lemma {:induction false} FilledBytes(env: Env, b: Bytes)
    requires WellBehaved(env) && env.fill(b).Some?
    ensures !Retries(env, env.fill(b).value)
    ensures !IsOds(env, b) ==> !IsOds(env, env.fill(b).value)
  {
    hide RepairBytes, Detect;
  }

  /** A prepared package is never repaired again, and preparing makes no ods file. */
  lemma {:induction false} PreparedBytes(env: Env, b: Bytes)
    requires WellBehaved(env) && Prepared(env, b).Some?
    ensures !Retries(env, Prepared(env, b).value)
    ensures !IsOds(env, b) ==> !IsOds(env, Prepared(env, b).value)
  {
    hide RepairBytes, Detect;
    match RepairBytes(env, b)
    case Failed =>
    case Repaired(z) => FilledBytes(env, Zip(z));
    case Kept => FilledBytes(env, b);
  }

  /** Not yet converted, then an ods file, then in need of a repair: the digits of a number below eight. */
  ghost function Rank(env: Env, s: State): (n: nat)
    ensures n < 8
  {
    (if s.converted then 0 else 4) + (if IsOds(env, s.data) then 2 else 0) + (if Retries(env, s.data) then 1 else 0)
  }

  /** Every turn that goes on lowers the rank, on every file. */
  lemma {:induction false} TurnLowers(env: Env, content: Bytes, fileType: Option<string>, s: State)
    requires WellBehaved(env) && Turned(env, content, fileType, s).Next?
    ensures Rank(env, Turned(env, content, fileType, s).state) < Rank(env, s)
  {
    hide Prepared, RepairBytes, Normalized, Converted;
    var f := Detect(env, s.data);
    if f.Some? && !(f.value == Ods && Converted(env, s.data, ".ods").Some?) {
      var prepared := if f.value == Xlsx then Prepared(env, s.data) else Some(s.data);
      if env.open(prepared.value, EngineFor(f.value)).PartAbsent? {
        RetryLowers(env, s, f.value, prepared.value);
      }
    }
  }

  lemma {:induction false} RetryLowers(env: Env, s: State, f: Format, p: Bytes)
    requires WellBehaved(env) && Detect(env, s.data) == Some(f) && EngineFor(f) == Openpyxl
    requires if f == Xlsx then Prepared(env, s.data) == Some(p) else p == s.data
    requires env.open(p, Openpyxl) == PartAbsent(true) && Retry(env, s, p).Next?
    ensures Rank(env, Retry(env, s, p).state) < Rank(env, s)
  {
    hide Prepared, RepairBytes, Detect;
    if f == Xlsx {
      PreparedBytes(env, s.data);
    } else {
      PreparedBytes(env, Zip(RepairBytes(env, p).archive));
    }
  }

  /** On every file, from every state, the loop ends within eight turns. */
  lemma {:induction false} LoopEnds(env: Env, content: Bytes, fileType: Option<string>, s: State, n: nat)
    requires WellBehaved(env) && Rank(env, s) < n
    ensures Turns(env, content, fileType, s, n).Some?
    decreases n
  {
    hide Turned, WellBehaved, Rank;
    match Turned(env, content, fileType, s)
    case Done(_) =>
    case Next(t) =>
      TurnLowers(env, content, fileType, s);
      LoopEnds(env, content, fileType, t, n - 1);
  }

  lemma {:induction false} FirstTurn(env: Env, content: Bytes, fileType: Option<string>, s: State, n: nat)
    ensures Turns(env, content, fileType, s, n + 1) ==
      match Turned(env, content, fileType, s)
      case Done(o) => Some(o)
      case Next(t) => Turns(env, content, fileType, t, n)
  {
  }

  /** The outcome does not depend on how many turns are allowed once it is reached. */
  lemma {:induction false} SameOutcome(env: Env, content: Bytes, fileType: Option<string>, s: State, m: nat, n: nat)
    requires Turns(env, content, fileType, s, m).Some? && m <= n
    ensures Turns(env, content, fileType, s, n) == Turns(env, content, fileType, s, m)
    decreases m
  {
    hide Turned;
    match Turned(env, content, fileType, s)
    case Done(_) =>
    case Next(t) => SameOutcome(env, content, fileType, t, m - 1, n - 1);
  }

  /** How a book that is returned was opened. */
  ghost predicate OpenedWell(env: Env, data: Bytes, engine: Engine) {
    && env.open(data, engine) == Opened
    && exists b, f ::
      && Detect(env, b) == Some(f)
      && engine == EngineFor(f)
      && (f == Ods ==> Converted(env, b, ".ods").None?)
      && (if f == Xlsx then Prepared(env, b) == Some(data) else data == b)
  }

  /** Every book was opened by the engine of its detected format, a package only after repair and merge filling. */
  lemma {:induction false} BooksOpenWell(env: Env, content: Bytes, fileType: Option<string>, s: State, n: nat)
    requires Turns(env, content, fileType, s, n).Some? && Turns(env, content, fileType, s, n).value.Book?
    ensures var o := Turns(env, content, fileType, s, n).value; OpenedWell(env, o.data, o.engine)
    decreases n
  {
    match Turned(env, content, fileType, s)
    case Done(o) =>
    case Next(t) =>
      hide Turned, OpenedWell;
      BooksOpenWell(env, content, fileType, t, n - 1);
  }

  // ----- what becomes of a file

  /** The suffixes tried: the file's own, whatever dots it came with, and four fixed ones. */
  lemma {:induction false} SuffixesAre(dots: string, name: string)
    requires (forall k :: 0 <= k < |dots| ==> dots[k] == '.') && name != "" && name[0] != '.'
    ensures Suffixes(Some(dots + name)) == ["." + name, ".xlsx", ".xls", ".et", ".csv"]
    ensures Suffixes(None) == Suffixes(Some("")) == [".xlsx", ".xls", ".et", ".csv"]
  {
    NameLeft(dots, name);
    assert ["." + name] + [".xlsx", ".xls", ".et", ".csv"] == ["." + name, ".xlsx", ".xls", ".et", ".csv"];
    hide LStripBy;
  }

  lemma {:induction false} NameLeft(dots: string, name: string)
    requires (forall k :: 0 <= k < |dots| ==> dots[k] == '.') && name != "" && name[0] != '.'
    ensures LStripBy(dots + name, IsDot) == name
  {
    if dots == "" {
      assert dots + name == name;
    } else {
      assert (dots + name)[1..] == dots[1..] + name;
      NameLeft(dots[1..], name);
    }
  }

  /** `suffixes[k]` is the first under which `b` converts to a recognised file. */
  ghost predicate UsableFirst(env: Env, b: Bytes, suffixes: seq<string>, k: nat) {
    k < |suffixes| && Usable(env, b, suffixes[k]) && forall j :: 0 <= j < k ==> !Usable(env, b, suffixes[j])
  }

  lemma {:induction false} UsableFirstFound(env: Env, b: Bytes, suffixes: seq<string>, k: nat)
    requires UsableFirst(env, b, suffixes, k)
    ensures FirstUsable(env, b, suffixes) == Converted(env, b, suffixes[k])
  {
    if k > 0 {
      assert !Usable(env, b, suffixes[0]);
      forall j | 0 <= j < k - 1 ensures !Usable(env, b, suffixes[1..][j]) {
        assert suffixes[1..][j] == suffixes[j + 1];
      }
      UsableFirstFound(env, b, suffixes[1..], k - 1);
    }
  }

  /** Bytes of no known format are read as their first usable conversion, and given up when there is none. */
  lemma {:induction false} UnrecognisedIsConverted(env: Env, content: Bytes, fileType: Option<string>, n: nat)
    requires Detect(env, content).None?
    ensures (forall x :: x in Suffixes(fileType) ==> !Usable(env, content, x)) ==>
      Turns(env, content, fileType, State(content, false), n + 1) == Some(Undetermined)
    ensures forall k: nat :: UsableFirst(env, content, Suffixes(fileType), k) ==>
      Turns(env, content, fileType, State(content, false), n + 1)
        == Turns(env, content, fileType, State(Converted(env, content, Suffixes(fileType)[k]).value, true), n)
  {
    NormalizedFacts(env, content, fileType);
    FirstTurn(env, content, fileType, State(content, false), n);
    forall k: nat | UsableFirst(env, content, Suffixes(fileType), k)
      ensures Normalized(env, content, fileType) == Converted(env, content, Suffixes(fileType)[k])
    {
      UsableFirstFound(env, content, Suffixes(fileType), k);
    }
    hide Turns, Detect, Converted, Suffixes, Normalized;
  }

  /** The bytes the engine is given for bytes of a known format: those of a package are repaired and filled first. */
  ghost predicate Readied(env: Env, b: Bytes, f: Format, p: Bytes) {
    && Detect(env, b) == Some(f) && (f == Ods ==> Converted(env, b, ".ods").None?)
    && (if f == Xlsx then Prepared(env, b) == Some(p) else p == b)
  }

  /** A file that the engine of its format opens is the book. */
  lemma {:induction false} ReadableOpens(env: Env, content: Bytes, fileType: Option<string>, s: State, f: Format, p: Bytes, n: nat)
    requires Readied(env, s.data, f, p)
    ensures env.open(p, EngineFor(f)) == Opened ==> Turns(env, content, fileType, s, n + 1) == Some(Book(p, EngineFor(f)))
    ensures env.open(p, EngineFor(f)) == EngineAbsent ==> Turns(env, content, fileType, s, n + 1) == Some(NoEngine)
    ensures env.open(p, EngineFor(f)) == Broken ==> Turns(env, content, fileType, s, n + 1) == Some(Raised)
  {
    FirstTurn(env, content, fileType, s, n);
    hide Turns, Prepared, Detect, Converted, Retry, Normalized;
  }

  /** A file whose format the engine cannot tell is converted from its original bytes, once. */
  lemma {:induction false} UndeterminedIsConverted(env: Env, content: Bytes, fileType: Option<string>, s: State, f: Format, p: Bytes, n: nat)
    requires Readied(env, s.data, f, p) && env.open(p, EngineFor(f)) == BadValue(true)
    ensures Turns(env, content, fileType, s, n + 1) ==
      if s.converted || Normalized(env, content, fileType).None? then Some(Raised)
      else Turns(env, content, fileType, State(Normalized(env, content, fileType).value, true), n)
  {
    FirstTurn(env, content, fileType, s, n);
    hide Turns, Prepared, Detect, Converted, Retry, Normalized;
  }

  /** A package in which the engine misses the shared strings is repaired and read again. */
  lemma {:induction false} MissingPartIsRepaired(env: Env, content: Bytes, fileType: Option<string>, s: State, p: Archive, z: Archive, d: Bytes, n: nat)
    requires Readied(env, s.data, Xlsx, Zip(p)) && env.open(Zip(p), Openpyxl) == PartAbsent(true)
    requires RepairBytes(env, Zip(p)) == Repaired(z) && Prepared(env, Zip(z)) == Some(d)
    ensures Turns(env, content, fileType, s, n + 1) == Turns(env, content, fileType, State(d, s.converted), n)
  {
    FirstTurn(env, content, fileType, s, n);
    hide Turns, Prepared, Detect, Converted, Normalized, RepairBytes;
  }

  /** From one state the loop reaches another in the given number of turns. */
  ghost predicate Follows(env: Env, content: Bytes, fileType: Option<string>, s: State, t: State, done: nat) {
    forall n: nat :: Turns(env, content, fileType, s, done + n) == Turns(env, content, fileType, t, n)
  }

  lemma {:induction false} FollowsNext(env: Env, content: Bytes, fileType: Option<string>, s: State, t: State, done: nat)
    requires Follows(env, content, fileType, s, t, done)
    ensures match Turned(env, content, fileType, t)
      case Next(u) => Follows(env, content, fileType, s, u, done + 1)
      case Done(o) => Turns(env, content, fileType, s, done + 1) == Some(o)
  {
    hide Turned, Turns;
    match Turned(env, content, fileType, t)
    case Done(o) =>
      FirstTurn(env, content, fileType, t, 0);
    case Next(u) =>
      forall n: nat
        ensures Turns(env, content, fileType, s, done + 1 + n) == Turns(env, content, fileType, u, n)
      {
        FirstTurn(env, content, fileType, t, n);
        assert Turns(env, content, fileType, s, done + (n + 1)) == Turns(env, content, fileType, t, n + 1);
      }
  }

  method PrepareXlsxBytes(env: Env, data: Bytes) returns (r: Option<Bytes>)
    ensures r == Prepared(env, data)
  {
    var repaired := Kept;
    if data.Zip? {
      repaired := RepairXlsxBytes(data.archive, env.order(Names(data.archive)));
    }
    if repaired.Failed? {
      return None;
    }
    return env.fill(if repaired.Repaired? then Zip(repaired.archive) else data);
  }

  /** The loop that tries formats and repairs until a book opens; it returns on every content, within eight turns. */
  method OpenExcelFile(env: Env, content: Bytes, fileType: Option<string>) returns (r: Outcome)
    requires WellBehaved(env)
    ensures Turns(env, content, fileType, State(content, false), 8) == Some(r)
    ensures r.Book? ==> OpenedWell(env, r.data, r.engine)
  {
    hide Turns, WellBehaved, Rank, OpenedWell, RepairArchive, Normalized, Follows;
    var data, converted := content, false;
    ghost var start := State(content, false);
    ghost var turns := 0;
    FollowsStart(env, content, fileType, start);
    while true
      invariant Follows(env, content, fileType, start, State(data, converted), turns)
      invariant turns + Rank(env, State(data, converted)) < 8
      decreases Rank(env, State(data, converted))
    {
      ghost var s := State(data, converted);
      ghost var turn := Turned(env, content, fileType, s);
      FollowsNext(env, content, fileType, start, s, turns);
      if turn.Next? {
        TurnLowers(env, content, fileType, s);
      } else {
        Concludes(env, content, fileType, turns + 1);
        SameOutcome(env, content, fileType, start, turns + 1, 8);
      }
      turns := turns + 1;
      var ext := Detect(env, data);
      if ext.None? {
        if converted {
          return Undetermined;
        }
        var normal := NormalizeExcelBytes(env, data, fileType);
        if normal.None? {
          return Undetermined;
        }
        data, converted := normal.value, true;
        continue;
      }
      if ext.value == Ods {
        var xlsx := Converted(env, data, ".ods");
        if xlsx.Some? {
          data := xlsx.value;
          continue;
        }
      }
      var engine := EngineFor(ext.value);
      if ext.value == Xlsx {
        var prepared := PrepareXlsxBytes(env, data);
        if prepared.None? {
          return Raised;
        }
        data := prepared.value;
      }
      var answer := env.open(data, engine);
      if answer.Opened? {
        return Book(data, engine);
      } else if answer.EngineAbsent? {
        return NoEngine;
      } else if answer.PartAbsent? {
        if !answer.sharedStrings || engine != Openpyxl || !data.Zip? {
          return Raised;
        }
        var repaired := RepairXlsxBytes(data.archive, env.order(Names(data.archive)));
        if !repaired.Repaired? {
          return Raised;
        }
        var prepared := PrepareXlsxBytes(env, Zip(repaired.archive));
        if prepared.None? {
          return Raised;
        }
        data := prepared.value;
      } else if answer.BadValue? {
        if converted || !answer.undetermined {
          return Raised;
        }
        var normal := NormalizeExcelBytes(env, content, fileType);
        if normal.None? {
          return Raised;
        }
        data, converted := normal.value, true;
      } else {
        return Raised;
      }
    }
  }

  lemma {:induction false} FollowsStart(env: Env, content: Bytes, fileType: Option<string>, s: State)
    ensures Follows(env, content, fileType, s, s, 0)
  {
    hide Turns;
  }

  lemma {:induction false} Concludes(env: Env, content: Bytes, fileType: Option<string>, n: nat)
    ensures var o := Turns(env, content, fileType, State(content, false), n);
      o.Some? && o.value.Book? ==> OpenedWell(env, o.value.data, o.value.engine)
  {
    hide Turns, OpenedWell;
    var o := Turns(env, content, fileType, State(content, false), n);
    if o.Some? && o.value.Book? {
      BooksOpenWell(env, content, fileType, State(content, false), n);
    }
  }
}
