/** Stream interpretation in the WHATWG HTML Standard. */
module EventStandard {
  import opened Options
  import opened Seqs
  import opened Text
  import opened EventStreams

  // ----- section 9.2.6, "Interpreting an event stream"

  datatype StdEvent = StdEvent(kind: string, data: string)

  /** The data buffer, the event type buffer, and the events dispatched so far. */
  datatype StdState = StdState(data: string, kind: string, events: seq<StdEvent>)

  /** A field is named by what stands before the first colon, or by the whole line when there is none. */
  predicate DataField(line: string) { IsData(line) || line == "data" }

  predicate EventField(line: string) { IsEvent(line) || line == "event" }

  /** One space after the colon is dropped. */
  function DropSpace(s: string): string {
    if s != "" && s[0] == ' ' then s[1..] else s
  }

  function DataValue(line: string): string {
    if IsData(line) then DropSpace(line[5..]) else ""
  }

  function TypeValue(line: string): string {
    if IsEvent(line) then DropSpace(line[6..]) else ""
  }

  /** A blank line dispatches and resets both buffers; a data field adds its value and a line feed. */
  function StdStep(s: StdState, line: string): StdState {
    if line == "" then
      if s.data == "" then StdState("", "", s.events)
      else
        var kind := if s.kind == "" then "message" else s.kind;
        StdState("", "", s.events + [StdEvent(kind, s.data[..|s.data| - 1])])
    else
      StdState(if DataField(line) then s.data + DataValue(line) + "\n" else s.data,
               if EventField(line) then TypeValue(line) else s.kind, s.events)
  }

  function Interpret(s: StdState, lines: seq<string>): StdState
    decreases |lines|
  {
    if lines == [] then s else Interpret(StdStep(s, lines[0]), lines[1..])
  }

  // ----- the same, block by block

  /** The lines of one event: none is empty, none holds a line feed. */
  ghost predicate Lined(block: seq<string>) {
    "" !in block && forall l :: l in block ==> '\n' !in l
  }

  ghost predicate AllLined(blocks: seq<seq<string>>) {
    forall k :: 0 <= k < |blocks| ==> Lined(blocks[k])
  }

  // ----- fields by name

  lemma {:induction false} SplitHead(s: string, c: char)
    ensures var head := Split(s, c)[0];
      head <= s && c !in head && (|head| < |s| ==> s[|head|] == c)
  {
    if s != "" && s[0] != c {
      SplitHead(s[1..], c);
      var head := Split(s[1..], c)[0];
      assert Split(s, c)[0] == [s[0]] + head;
      assert s == [s[0]] + s[1..];
    }
  }

  /** What stands before the first colon of a line, and what after it. */
  function FieldName(line: string): string { Split(line, ':')[0] }

  function FieldRest(line: string): string {
    if |FieldName(line)| < |line| then line[|FieldName(line)| + 1..] else ""
  }

  /** The two kinds of field are told by their names, and one space before the value is dropped. */
  lemma {:induction false} FieldsByName(line: string)
    ensures DataField(line) <==> FieldName(line) == "data"
    ensures EventField(line) <==> FieldName(line) == "event"
    ensures DataField(line) ==> DataValue(line) == DropSpace(FieldRest(line))
    ensures EventField(line) ==> TypeValue(line) == DropSpace(FieldRest(line))
  {
    SplitHead(line, ':');
    NamedField(line, "data");
    NamedField(line, "event");
    assert "data" + ":" == "data:" && "event" + ":" == "event:";
    hide Split, DropSpace;
  }

  lemma NamedField(line: string, name: string)
    requires ':' !in name
    ensures FieldName(line) == name <==> line == name || name + ":" <= line
    ensures name + ":" <= line ==> FieldRest(line) == line[|name| + 1..]
    ensures line == name ==> FieldRest(line) == ""
  {
    SplitHead(line, ':');
    if line == name {
      SplitLast(name, ':');
    } else if name + ":" <= line {
      assert line == name + [':'] + line[|name| + 1..];
      SplitPiece(name, line[|name| + 1..], ':');
    }
    hide Split;
  }

  function DataFields(block: seq<string>): seq<string> { Filter(block, DataField) }

  function EventFields(block: seq<string>): seq<string> { Filter(block, EventField) }

  function Values(fields: seq<string>): seq<string> {
    if fields == [] then [] else [DataValue(fields[0])] + Values(fields[1..])
  }

  /** Every value followed by a line feed. */
  function Ended(values: seq<string>): string {
    if values == [] then "" else values[0] + "\n" + Ended(values[1..])
  }

  /** The last event field decides; an empty type means `message`. */
  function TypeOf(block: seq<string>): string {
    var es := EventFields(block);
    if es == [] || TypeValue(es[|es| - 1]) == "" then "message" else TypeValue(es[|es| - 1])
  }

  /** What the standard dispatches at the blank line that closes a block. */
  function StdGives(block: seq<string>): Option<StdEvent> {
    if DataFields(block) == [] then None
    else Some(StdEvent(TypeOf(block), Join("\n", Values(DataFields(block)))))
  }

  function Events(blocks: seq<seq<string>>): seq<StdEvent> {
    if blocks == [] then []
    else (if StdGives(blocks[0]).Some? then [StdGives(blocks[0]).value] else []) + Events(blocks[1..])
  }

  lemma ValuesSnoc(fields: seq<string>, line: string)
    ensures Values(fields + [line]) == Values(fields) + [DataValue(line)]
  {
    if fields == [] {
      assert [] + [line] == [line] && [line][1..] == [];
    } else {
      hide DataValue;
      ValuesSnoc(fields[1..], line);
      assert (fields + [line])[1..] == fields[1..] + [line];
    }
  }

  lemma {:induction false} EndedSnoc(values: seq<string>, v: string)
    ensures Ended(values + [v]) == Ended(values) + v + "\n"
  {
    if values == [] {
      assert [] + [v] == [v] && [v][1..] == [];
      assert Ended([v]) == v + "\n" + "" == "" + v + "\n";
    } else {
      EndedSnoc(values[1..], v);
      assert (values + [v])[1..] == values[1..] + [v];
      var a, b := values[0] + "\n", Ended(values[1..]);
      assert a + (b + v + "\n") == (a + b) + v + "\n";
    }
  }

  lemma {:induction false} EndedJoined(values: seq<string>)
    requires values != []
    ensures Ended(values) == Join("\n", values) + "\n"
  {
    if |values| == 1 {
      assert values[1..] == [];
      assert values[0] + "\n" + "" == values[0] + "\n";
    } else {
      EndedJoined(values[1..]);
      Regroup(values[0] + "\n", Join("\n", values[1..]), "\n");
    }
  }

  lemma {:induction false} FilterSnoc(block: seq<string>, line: string, p: string -> bool)
    ensures Filter(block + [line], p) == Filter(block, p) + (if p(line) then [line] else [])
  {
    FilterAppend(block, [line], p);
    assert [line][1..] == [];
  }

  lemma {:induction false} InterpretSnoc(s: StdState, lines: seq<string>, line: string)
    ensures Interpret(s, lines + [line]) == StdStep(Interpret(s, lines), line)
    decreases |lines|
  {
    hide StdStep;
    if lines == [] {
      assert [] + [line] == [line] && [line][1..] == [];
    } else {
      InterpretSnoc(StdStep(s, lines[0]), lines[1..], line);
      assert (lines + [line])[1..] == lines[1..] + [line];
    }
  }

  lemma {:induction false} InterpretAppend(s: StdState, a: seq<string>, b: seq<string>)
    ensures Interpret(s, a + b) == Interpret(Interpret(s, a), b)
    decreases |a|
  {
    hide StdStep;
    if a == [] {
      assert a + b == b;
    } else {
      InterpretAppend(StdStep(s, a[0]), a[1..], b);
      assert (a + b)[1..] == a[1..] + b;
    }
  }

  /** The type buffer after some event fields. */
  function LastType(fields: seq<string>): string {
    if fields == [] then "" else TypeValue(fields[|fields| - 1])
  }

  lemma {:induction false} InterpretBlock(events: seq<StdEvent>, block: seq<string>)
    requires "" !in block
    ensures Interpret(StdState("", "", events), block) ==
      StdState(Ended(Values(DataFields(block))), LastType(EventFields(block)), events)
    decreases |block|
  {
    assert Filter([], DataField) == [] && Filter([], EventField) == [];
    if block != [] {
      var n := |block| - 1;
      var line, before := block[n], block[..n];
      hide Interpret, Ended, Values, Filter, DataField, EventField, TypeValue, DataValue;
      assert block == before + [line] && line in block;
      InterpretBlock(events, before);
      InterpretSnoc(StdState("", "", events), before, line);
      FilterSnoc(before, line, DataField);
      FilterSnoc(before, line, EventField);
      ValuesSnoc(DataFields(before), line);
      EndedSnoc(Values(DataFields(before)), DataValue(line));
      assert DataFields(block) == if DataField(line) then DataFields(before) + [line] else DataFields(before);
      assert EventFields(block) == if EventField(line) then EventFields(before) + [line] else EventFields(before);
    } else {
      EndedNone();
    }
  }

  lemma {:induction false} InterpretClosed(events: seq<StdEvent>, block: seq<string>)
    requires "" !in block
    ensures Interpret(StdState("", "", events), block + [""]) ==
      StdState("", "", events + (if StdGives(block).Some? then [StdGives(block).value] else []))
  {
    hide Interpret, Ended, Filter, TypeValue, DataValue;
    InterpretSnoc(StdState("", "", events), block, "");
    InterpretBlock(events, block);
    var values := Values(DataFields(block));
    if values != [] {
      EndedJoined(values);
    }
    EndedNone();
  }

  lemma EndedNone()
    ensures Ended([]) == ""
  {
  }

  /** The standard's machine, run over closed blocks, dispatches exactly what each block gives. */
  lemma {:induction false} InterpretStream(events: seq<StdEvent>, blocks: seq<seq<string>>)
    requires AllLined(blocks)
    ensures Interpret(StdState("", "", events), Stream(blocks)) == StdState("", "", events + Events(blocks))
    decreases |blocks|
  {
    if blocks != [] {
      hide Interpret, StdGives;
      var b, rest := blocks[0], blocks[1..];
      assert Lined(b);
      var given := if StdGives(b).Some? then [StdGives(b).value] else [];
      StreamStep(blocks);
      InterpretAppend(StdState("", "", events), b + [""], Stream(rest));
      InterpretClosed(events, b);
      InterpretStream(events + given, rest);
      Regroup(events, given, Events(rest));
    } else {
      assert events + [] == events;
    }
  }

  // ----- what a reader hands out, block by block

  /** The buffers after a block, and what is dispatched at its blank line. */
  ghost function Gives(r: Reader, buffer: string, kind: string, block: seq<string>): Option<string> {
    var b := BufferAfter(r, buffer, Filter(block, IsData));
    var t := KindAfter(kind, Filter(block, IsEvent));
    if b != "" && (r == Continue ==> t == "message") then Some(b) else None
  }

  ghost function Trace(r: Reader, buffer: string, kind: string, blocks: seq<seq<string>>): seq<Option<string>>
    decreases |blocks|
  {
    if blocks == [] then []
    else
      var given := Gives(r, buffer, kind, blocks[0]);
      if given.Some? then [given] + Trace(r, "", "", blocks[1..])
      else [given] + Trace(r, BufferAfter(r, buffer, Filter(blocks[0], IsData)),
                           KindAfter(kind, Filter(blocks[0], IsEvent)), blocks[1..])
  }

  function Somes(trace: seq<Option<string>>): seq<string> {
    if trace == [] then []
    else (if trace[0].Some? then [trace[0].value] else []) + Somes(trace[1..])
  }

  lemma {:induction false} ReadClosed(env: Env, r: Reader, s: State, block: seq<string>)
    requires "" !in block && s.out.failure.None?
    ensures var given := Gives(r, s.buffer, s.kind, block);
      Read(env, r, s, block + [""]) ==
        if given.Some? then State("", "", Emit(env, s.out, given.value))
        else State(BufferAfter(r, s.buffer, Filter(block, IsData)), KindAfter(s.kind, Filter(block, IsEvent)), s.out)
  {
    hide Read, BufferAfter, KindAfter, Filter, Emit;
    ReadSnoc(env, r, s, block, "");
    ReadBlock(env, r, s, block);
  }

  lemma {:induction false} DeliverStopped(env: Env, out: Progress, payloads: seq<string>)
    requires out.failure.Some?
    ensures Deliver(env, out, payloads) == out
  {
    if payloads != [] {
      DeliverStopped(env, out, payloads[1..]);
    }
  }

  lemma DeliverCons(env: Env, out: Progress, p: string, rest: seq<string>)
    ensures Deliver(env, out, [p] + rest) == Deliver(env, Emit(env, out, p), rest)
  {
    assert ([p] + rest)[1..] == rest;
  }

  /** On closed blocks of any lines a reader decodes and hands out exactly its trace, until a payload fails. */
  lemma {:induction false} TraceDelivered(env: Env, r: Reader, s: State, blocks: seq<seq<string>>)
    requires AllLined(blocks)
    ensures Read(env, r, s, Stream(blocks)).out == Deliver(env, s.out, Somes(Trace(r, s.buffer, s.kind, blocks)))
    decreases |blocks|
  {
    if s.out.failure.Some? {
      ReadStopped(env, r, s, Stream(blocks));
      DeliverStopped(env, s.out, Somes(Trace(r, s.buffer, s.kind, blocks)));
    } else if blocks != [] {
      TraceStep(r, s.buffer, s.kind, blocks);
      hide Read, Trace, Gives, BufferAfter, KindAfter, Filter, Emit, Deliver, Stream, Somes;
      var b, rest := blocks[0], blocks[1..];
      assert Lined(b);
      var given := Gives(r, s.buffer, s.kind, b);
      var t := Read(env, r, s, b + [""]);
      StreamStep(blocks);
      ReadAppend(env, r, s, b + [""], Stream(rest));
      ReadClosed(env, r, s, b);
      TraceDelivered(env, r, t, rest);
      if given.Some? {
        DeliverCons(env, s.out, given.value, Somes(Trace(r, "", "", rest)));
      } else {
        assert [] + Somes(Trace(r, t.buffer, t.kind, rest)) == Somes(Trace(r, t.buffer, t.kind, rest));
      }
    }
  }

  lemma TraceStep(r: Reader, buffer: string, kind: string, blocks: seq<seq<string>>)
    requires blocks != []
    ensures var given := Gives(r, buffer, kind, blocks[0]);
      var rest := if given.Some? then Trace(r, "", "", blocks[1..])
        else Trace(r, BufferAfter(r, buffer, Filter(blocks[0], IsData)),
                   KindAfter(kind, Filter(blocks[0], IsEvent)), blocks[1..]);
      && Trace(r, buffer, kind, blocks) == [given] + rest
      && Somes(Trace(r, buffer, kind, blocks)) == (if given.Some? then [given.value] else []) + Somes(rest)
  {
    hide Gives, BufferAfter, KindAfter, Filter;
    var t := Trace(r, buffer, kind, blocks);
    assert t[1..] == (if Gives(r, buffer, kind, blocks[0]).Some? then Trace(r, "", "", blocks[1..])
      else Trace(r, BufferAfter(r, buffer, Filter(blocks[0], IsData)), KindAfter(kind, Filter(blocks[0], IsEvent)), blocks[1..]));
  }

  /** The standard's payload of a block, for `ContinueStream` only when the type is `message`. */
  function StdPayload(r: Reader, block: seq<string>): Option<string> {
    match StdGives(block)
    case None => None
    case Some(e) => if r == Continue && e.kind != "message" then None else Some(e.data)
  }

  function StdTrace(r: Reader, blocks: seq<seq<string>>): seq<Option<string>> {
    if blocks == [] then [] else [StdPayload(r, blocks[0])] + StdTrace(r, blocks[1..])
  }

  // ----- when a payload is the standard's

  /** The value survives the reader's trimming and the standard's dropped space alike, and is not empty. */
  predicate Clean(r: Reader, line: string) {
    && IsData(line)
    && var v := if r == Agent then DropSpace(line[5..]) else line[5..];
    && v != ""
    && if r == Agent then !GoSpace(v[0]) && !GoSpace(v[|v| - 1]) else v[0] != ' '
  }

  lemma {:induction false} TrimFixed(v: string)
    requires v != "" && !GoSpace(v[0]) && !GoSpace(v[|v| - 1])
    ensures StripBy(v, GoSpace) == v
  {
  }

  lemma {:induction false} CleanIff(r: Reader, line: string)
    requires IsData(line)
    ensures Clean(r, line) <==> Payload(r, line) != "" && Payload(r, line) == DataValue(line)
  {
    var raw := line[5..];
    if r == Agent {
      var v := DropSpace(raw);
      StripEnds(raw, GoSpace);
      if v != "" && !GoSpace(v[0]) && !GoSpace(v[|v| - 1]) {
        TrimFixed(v);
        if raw != v {
          assert LStripBy(raw, GoSpace) == LStripBy(v, GoSpace) == v;
        }
      }
    }
  }

  lemma {:induction false} JoinHasBreak(values: seq<string>)
    requires |values| >= 2
    ensures '\n' in Join("\n", values)
  {
    assert Join("\n", values)[|values[0]|] == '\n';
  }

  lemma {:induction false} PayloadOneLine(r: Reader, line: string)
    requires '\n' !in line
    ensures '\n' !in Payload(r, line)
  {
    if IsData(line) {
      var raw := line[5..];
      assert forall c :: c in raw ==> c in line;
      var k := LStripCut(raw, GoSpace);
      var m := RStripCut(LStripBy(raw, GoSpace), GoSpace);
    }
  }

  lemma {:induction false} ValuesCount(fields: seq<string>)
    ensures |Values(fields)| == |fields|
  {
    if fields != [] {
      ValuesCount(fields[1..]);
    }
  }

  /** The payload of one data line is the standard's data exactly when that line is the block's one data field and is clean. */
  lemma {:induction false} OneCleanField(r: Reader, block: seq<string>, line: string)
    requires Lined(block) && line in block && IsData(line)
    requires var datas := Filter(block, IsData); datas != [] && datas[|datas| - 1] == line
    ensures var ds := DataFields(block);
      && ds != []
      && (Payload(r, line) != "" && Payload(r, line) == Join("\n", Values(ds)) <==> |ds| == 1 && Clean(r, ds[0]))
  {
    var ds := DataFields(block);
    FilterIn(block, DataField);
    hide Filter, Payload, Clean, DataValue;
    assert line in ds;
    ValuesCount(ds);
    PayloadOneLine(r, line);
    CleanIff(r, line);
    if |ds| >= 2 {
      JoinHasBreak(Values(ds));
    } else {
      assert ds == [line] && Values(ds) == [DataValue(line)];
    }
  }

  // ----- the two readers without a type filter

  /** No data field, or one clean one. */
  ghost predicate BlockAgrees(r: Reader, block: seq<string>) {
    var ds := DataFields(block);
    ds == [] || (|ds| == 1 && Clean(r, ds[0]))
  }

  lemma {:induction false} BlockAgreesIff(r: Reader, kind: string, block: seq<string>)
    requires r != Continue && Lined(block)
    ensures Gives(r, "", kind, block) == StdPayload(r, block) <==> BlockAgrees(r, block)
    ensures Gives(r, "", kind, block).None? ==> BufferAfter(r, "", Filter(block, IsData)) == ""
  {
    var datas, ds := Filter(block, IsData), DataFields(block);
    FilterIn(block, IsData);
    FilterIn(block, DataField);
    hide Filter, Payload, DataValue, Values, Join;
    if datas != [] {
      var line := datas[|datas| - 1];
      assert line in datas;
      OneCleanField(r, block, line);
    } else {
      assert ds != [] ==> ds[0] in ds;
    }
  }

  /** A reader without a type filter dispatches at every blank line what the standard does exactly when each block has
      no data field, or one clean one. */
  lemma {:induction false} ReaderAgreesIff(r: Reader, kind: string, blocks: seq<seq<string>>)
    requires r != Continue && AllLined(blocks)
    ensures Trace(r, "", kind, blocks) == StdTrace(r, blocks)
       <==> forall k :: 0 <= k < |blocks| ==> BlockAgrees(r, blocks[k])
    decreases |blocks|
  {
    if blocks != [] {
      hide Trace, Gives, BufferAfter, KindAfter, Filter, StdPayload, BlockAgrees;
      var b, rest := blocks[0], blocks[1..];
      assert Lined(b);
      TraceStep(r, "", kind, blocks);
      BlockAgreesIff(r, kind, b);
      var given := Gives(r, "", kind, b);
      var next := if given.Some? then "" else KindAfter(kind, Filter(b, IsEvent));
      ReaderAgreesIff(r, next, rest);
      SameHead(given, Trace(r, "", next, rest), StdPayload(r, b), StdTrace(r, rest));
      assert forall k :: 0 < k < |blocks| ==> blocks[k] == rest[k - 1];
      assert forall k :: 0 <= k < |rest| ==> rest[k] == blocks[k + 1];
    } else {
      TraceNone(r, kind);
    }
  }

  lemma TraceNone(r: Reader, kind: string)
    ensures Trace(r, "", kind, []) == []
  {
  }

  lemma SameHead<T>(x: T, a: seq<T>, y: T, b: seq<T>)
    ensures [x] + a == [y] + b <==> x == y && a == b
  {
    if [x] + a == [y] + b {
      assert ([x] + a)[0] == ([y] + b)[0];
      assert a == ([x] + a)[1..];
      assert b == ([y] + b)[1..];
    }
  }

  // ----- the reader with the type filter

  ghost predicate LastIs(lines: seq<string>, line: string) {
    lines != [] && lines[|lines| - 1] == line
  }

  /** `carried` are the lines since the last dispatch, other than those of the block. */
  ghost predicate HeadAgrees(carried: seq<string>, block: seq<string>) {
    var typed := LastIs(Filter(carried + block, IsEvent), "event:message");
    var datas := Filter(carried + block, IsData);
    if StdPayload(Continue, block).Some? then
      typed && |DataFields(block)| == 1 && Clean(Continue, DataFields(block)[0])
    else
      !typed || datas == [] || LastIs(datas, "data:")
  }

  /** Where the standard dispatches a `message`, the block has one clean data field and the last type since the last
      dispatch is written `event:message`; elsewhere that type is another, or no data has come since. */
  ghost predicate Faithful(carried: seq<string>, blocks: seq<seq<string>>)
    decreases |blocks|
  {
    blocks == [] || (
      && HeadAgrees(carried, blocks[0])
      && Faithful(if StdPayload(Continue, blocks[0]).Some? then [] else carried + blocks[0], blocks[1..]))
  }

  ghost function CarriedData(lines: seq<string>): string {
    BufferAfter(Continue, "", Filter(lines, IsData))
  }

  ghost function CarriedKind(lines: seq<string>): string {
    KindAfter("", Filter(lines, IsEvent))
  }

  lemma {:induction false} CarriedAppend(carried: seq<string>, block: seq<string>)
    ensures BufferAfter(Continue, CarriedData(carried), Filter(block, IsData)) == CarriedData(carried + block)
    ensures KindAfter(CarriedKind(carried), Filter(block, IsEvent)) == CarriedKind(carried + block)
  {
    hide BufferAfter, KindAfter, Filter;
    FilterAppend(carried, block, IsData);
    FilterAppend(carried, block, IsEvent);
    AfterAppend(Continue, "", Filter(carried, IsData), Filter(block, IsData));
    AfterAppend(Continue, "", Filter(carried, IsEvent), Filter(block, IsEvent));
  }

  lemma {:induction false} CarriedFacts(lines: seq<string>)
    requires Lined(lines)
    ensures '\n' !in CarriedData(lines)
    ensures CarriedData(lines) != "" <==> Filter(lines, IsData) != [] && !LastIs(Filter(lines, IsData), "data:")
    ensures CarriedKind(lines) == "message" <==> LastIs(Filter(lines, IsEvent), "event:message")
  {
    var datas, events := Filter(lines, IsData), Filter(lines, IsEvent);
    FilterIn(lines, IsData);
    FilterIn(lines, IsEvent);
    hide Filter;
    if datas != [] {
      var line := datas[|datas| - 1];
      assert line in datas;
      PayloadOneLine(Continue, line);
      assert line == "data:" + line[5..];
    }
    if events != [] {
      assert events[|events| - 1] in events;
      KindIsMessage(events[|events| - 1]);
    }
  }

  lemma {:induction false} NoDataValues(fields: seq<string>)
    requires forall l :: l in fields ==> !IsData(l)
    ensures |fields| == 1 ==> Join("\n", Values(fields)) == ""
  {
    if |fields| == 1 {
      assert fields[0] in fields && fields[1..] == [];
    }
  }

  lemma {:induction false} HeadAgreesIff(carried: seq<string>, block: seq<string>)
    requires Lined(carried) && Lined(block)
    ensures Gives(Continue, CarriedData(carried), CarriedKind(carried), block) == StdPayload(Continue, block)
       <==> HeadAgrees(carried, block)
  {
    CarriedAppend(carried, block);
    CarriedFacts(carried + block);
    if StdPayload(Continue, block).Some? {
      CarriedIsPayload(carried, block);
    }
    hide Filter, KindAfter, BufferAfter, CarriedKind, CarriedData, StdPayload, Clean, DataFields;
  }

  /** The carried data is the standard's payload exactly when the block has one clean data field. */
  lemma {:induction false} CarriedIsPayload(carried: seq<string>, block: seq<string>)
    requires Lined(carried) && Lined(block) && StdPayload(Continue, block).Some?
    ensures var b, ds := CarriedData(carried + block), DataFields(block);
      (b != "" && b == StdPayload(Continue, block).value) <==> (|ds| == 1 && Clean(Continue, ds[0]))
  {
    var datas, ds := Filter(block, IsData), DataFields(block);
    FilterIn(block, IsData);
    FilterIn(block, DataField);
    FilterAppend(carried, block, IsData);
    hide Filter, DataValue, KindAfter, Join, Values, TypeOf;
    if datas != [] {
      var line := datas[|datas| - 1];
      assert line in datas;
      OneCleanField(Continue, block, line);
      LastOfAppend(Filter(carried, IsData), datas);
      assert CarriedData(carried + block) == Payload(Continue, line);
    } else {
      CarriedFacts(carried + block);
      assert forall l :: l in ds ==> !IsData(l);
      assert ds[0] in ds;
      ValuesCount(ds);
      NoDataValues(ds);
      if |ds| >= 2 {
        JoinHasBreak(Values(ds));
      }
    }
  }

  lemma LastOfAppend(a: seq<string>, b: seq<string>)
    requires b != []
    ensures (a + b)[|a + b| - 1] == b[|b| - 1]
  {
  }

  lemma {:induction false} FaithfulFrom(carried: seq<string>, blocks: seq<seq<string>>)
    requires Lined(carried) && AllLined(blocks)
    ensures Trace(Continue, CarriedData(carried), CarriedKind(carried), blocks) == StdTrace(Continue, blocks)
       <==> Faithful(carried, blocks)
    decreases |blocks|
  {
    if blocks != [] {
      var b, rest := blocks[0], blocks[1..];
      assert Lined(b) && Lined(carried + b);
      CarriedNone();
      hide Trace, Gives, BufferAfter, KindAfter, Filter, StdPayload, HeadAgrees, CarriedData, CarriedKind, Lined;
      TraceStep(Continue, CarriedData(carried), CarriedKind(carried), blocks);
      HeadAgreesIff(carried, b);
      CarriedAppend(carried, b);
      var given := Gives(Continue, CarriedData(carried), CarriedKind(carried), b);
      var next := if given.Some? then [] else carried + b;
      assert AllLined(rest);
      FaithfulFrom(next, rest);
      SameHead(given, Trace(Continue, CarriedData(next), CarriedKind(next), rest), StdPayload(Continue, b), StdTrace(Continue, rest));
    }
  }

  lemma CarriedNone()
    ensures CarriedData([]) == "" && CarriedKind([]) == "" && Lined([])
  {
  }

  /** `ContinueStream` dispatches at every blank line what the standard does exactly when the blocks are faithful. */
  lemma {:induction false} ContinueAgreesIff(blocks: seq<seq<string>>)
    requires AllLined(blocks)
    ensures Trace(Continue, "", "", blocks) == StdTrace(Continue, blocks) <==> Faithful([], blocks)
  {
    CarriedNone();
    FaithfulFrom([], blocks);
  }

  // ----- from traces to deliveries

  /** The data of the events a reader is meant to hand out. */
  function WantedData(r: Reader, events: seq<StdEvent>): seq<string> {
    if events == [] then []
    else (if r == Continue && events[0].kind != "message" then [] else [events[0].data]) + WantedData(r, events[1..])
  }

  lemma {:induction false} StdTraceIs(r: Reader, blocks: seq<seq<string>>)
    ensures Somes(StdTrace(r, blocks)) == WantedData(r, Events(blocks))
  {
    if blocks != [] {
      var b, rest := blocks[0], blocks[1..];
      StdTraceIs(r, rest);
      hide StdGives;
      assert StdTrace(r, blocks)[1..] == StdTrace(r, rest);
      match StdGives(b)
      case None =>
        assert Events(blocks) == Events(rest);
      case Some(e) =>
        assert Events(blocks) == [e] + Events(rest);
        assert Events(blocks)[1..] == Events(rest);
    }
  }

  /** A reader that agrees at every blank line delivers the events that the standard's machine dispatches. */
  lemma {:induction false} AgreeingReader(env: Env, r: Reader, blocks: seq<seq<string>>)
    requires AllLined(blocks) && Trace(r, "", "", blocks) == StdTrace(r, blocks)
    ensures Outcome(env, r, Stream(blocks), false)
         == Deliver(env, NOTHING, WantedData(r, Interpret(StdState("", "", []), Stream(blocks)).events))
  {
    hide Read, Trace, StdTrace, Interpret, Deliver, Somes;
    TraceDelivered(env, r, START, blocks);
    StdTraceIs(r, blocks);
    InterpretStream([], blocks);
    assert [] + Events(blocks) == Events(blocks);
  }

  // ----- the Python reader

  function PyPayloads(lines: seq<string>): seq<string> {
    if lines == [] then [] else (if IsData(lines[0]) then [PyPayload(lines[0])] else []) + PyPayloads(lines[1..])
  }

  /** The Python reader decodes the payload of every data line, whatever block it stands in. */
  lemma {:induction false} PyMessagesAre(env: Env, lines: seq<string>)
    ensures PyMessages(env, lines) == Decoded(env, PyPayloads(lines))
  {
    if lines != [] {
      hide PyPayload, IsData;
      PyMessagesAre(env, lines[1..]);
      var rest := PyPayloads(lines[1..]);
      assert ([PyPayload(lines[0])] + rest)[1..] == rest;
      assert [] + rest == rest;
    }
  }

  function StdList(block: seq<string>): seq<string> {
    if StdGives(block).None? then [] else [StdGives(block).value.data]
  }

  predicate TwoSpaces(s: string) { |s| >= 2 && s[0] == ' ' && s[1] == ' ' }

  /** No data field, or one written with a colon and at most one space after it. */
  ghost predicate PyAgrees(block: seq<string>) {
    var ds := DataFields(block);
    ds == [] || (|ds| == 1 && IsData(ds[0]) && !TwoSpaces(ds[0][5..]))
  }

  lemma {:induction false} PyPayloadsCount(block: seq<string>)
    ensures |PyPayloads(block)| == |Filter(block, IsData)|
    ensures |Filter(block, IsData)| == 1 ==> PyPayloads(block) == [PyPayload(Filter(block, IsData)[0])]
  {
    if block != [] {
      assert block == [block[0]] + block[1..];
      FilterCons(block[0], block[1..], IsData);
      PyPayloadsCount(block[1..]);
    }
  }

  lemma {:induction false} DropIff(raw: string)
    ensures LStripBy(raw, IsBlankChar) == DropSpace(raw) <==> !TwoSpaces(raw)
  {
    if raw != "" && raw[0] == ' ' {
      var k := LStripCut(raw[1..], IsBlankChar);
      assert LStripBy(raw, IsBlankChar) == raw[1..][k..];
      if |raw| >= 2 {
        assert raw[1..][0] == raw[1];
      }
    }
  }

  lemma {:induction false} PyPayloadIff(line: string)
    requires IsData(line)
    ensures PyPayload(line) == DataValue(line) <==> !TwoSpaces(line[5..])
    ensures '\n' !in line ==> '\n' !in PyPayload(line)
  {
    hide LStripBy, DropSpace, TwoSpaces;
    DropIff(line[5..]);
    var k := LStripCut(line[5..], IsBlankChar);
    assert forall c :: c in line[5..][k..] ==> c in line;
  }

  /** On one closed block the Python reader sees the standard's data exactly when the block agrees. */
  lemma {:induction false} PyAgreesIff(block: seq<string>)
    requires Lined(block)
    ensures PyPayloads(block) == StdList(block) <==> PyAgrees(block)
  {
    var datas, ds := Filter(block, IsData), DataFields(block);
    PyPayloadsCount(block);
    FilterIn(block, IsData);
    FilterIn(block, DataField);
    FilterFilter(block, DataField, IsData, IsData);
    FilterIn(ds, IsData);
    hide Filter, PyPayload, DataValue, PyPayloads;
    ValuesCount(ds);
    if |datas| == 1 {
      var line := datas[0];
      assert line in datas;
      PyPayloadIff(line);
      hide TwoSpaces;
      if |ds| >= 2 {
        JoinHasBreak(Values(ds));
      } else {
        assert line in ds;
        assert ds == [line] && Values(ds) == [DataValue(line)];
      }
    } else {
      assert ds != [] ==> ds[0] in ds;
    }
  }

  // ----- inputs on which the readers differ

  lemma FilterOne(a: string, p: string -> bool)
    ensures Filter([a], p) == if p(a) then [a] else []
  {
    assert [a][1..] == [];
  }

  lemma FilterTwo(a: string, b: string, p: string -> bool)
    ensures Filter([a, b], p) == (if p(a) then [a] else []) + (if p(b) then [b] else [])
  {
    assert [a, b] == [a] + [b];
    FilterCons(a, [b], p);
    FilterOne(b, p);
  }

  lemma {:induction false} UntypedDiffers(d: string)
    ensures !HeadAgrees([], ["data:" + d])
  {
    var data := "data:" + d;
    assert IsData(data);
    FieldMarks(data);
    hide Clean, IsData, IsEvent, DataField, EventField, TypeValue, DataValue, Filter, Join;
    FilterOne(data, IsEvent);
    FilterOne(data, DataField);
    FilterOne(data, EventField);
    assert [] + [data] == [data];
  }

  lemma {:induction false} SpacedTypeDiffers(d: string)
    ensures !HeadAgrees([], ["event: message", "data:" + d])
  {
    var data := "data:" + d;
    var block := ["event: message", data];
    assert IsData(data);
    FieldMarks(data);
    FieldMarks("event: message");
    assert "event: message"[6] == ' ' && "event:message"[6] == 'm';
    hide Clean, IsData, IsEvent, DataField, EventField, TypeValue, DataValue, Filter, Join;
    FilterTwo("event: message", data, IsEvent);
    FilterTwo("event: message", data, DataField);
    FilterTwo("event: message", data, EventField);
    assert [] + block == block;
  }

  lemma {:induction false} TwoDataDiffer(d: string)
    ensures !HeadAgrees([], ["event:message", "data:" + d, "data:" + d])
  {
    var data := "data:" + d;
    assert IsData(data);
    FieldMarks(data);
    FieldMarks("event:message");
    TwoDataFields("event:message", data);
  }

  lemma {:induction false} TwoDataFields(message: string, data: string)
    requires EventField(message) && !DataField(message) && TypeValue(message) == "message"
    requires DataField(data) && !EventField(data)
    ensures !HeadAgrees([], [message, data, data])
  {
    hide Clean, IsData, IsEvent, DataField, EventField, TypeValue, DataValue, Filter, Join;
    var block := [message, data, data];
    assert block == [message] + [data, data];
    FilterCons(message, [data, data], DataField);
    FilterCons(message, [data, data], EventField);
    FilterTwo(data, data, DataField);
    FilterTwo(data, data, EventField);
    assert EventFields(block) == [message];
    assert [] + block == block;
  }

  /** No type, a type after a space, and two data lines: the standard dispatches a `message`, `ContinueStream` nothing,
      or only the second line. */
  lemma {:induction false} ContinueDiffers(d: string)
    ensures !Faithful([], [["data:" + d]])
    ensures !Faithful([], [["event: message", "data:" + d]])
    ensures !Faithful([], [["event:message", "data:" + d, "data:" + d]])
  {
    hide HeadAgrees;
    UntypedDiffers(d);
    SpacedTypeDiffers(d);
    TwoDataDiffer(d);
  }

  /** A type left over from a block without data stands in for the default type; the payload is the standard's. */
  lemma {:induction false} StaleTypeAgrees(d: string)
    requires d != "" && d[0] != ' '
    ensures Faithful([], [["event:message"], ["data:" + d]])
  {
    var data := "data:" + d;
    var first, second, both := ["event:message"], [data], ["event:message", data];
    assert IsData(data) && data[5..] == d;
    FieldMarks(data);
    FieldMarks("event:message");
    assert Clean(Continue, data);
    hide Clean, IsData, IsEvent, DataField, EventField, TypeValue, DataValue, Filter, Join;
    FilterOne("event:message", IsEvent);
    FilterOne("event:message", IsData);
    FilterOne("event:message", DataField);
    FilterOne(data, DataField);
    FilterOne(data, EventField);
    FilterTwo("event:message", data, IsEvent);
    assert [] + first == first && first + second == both;
    assert HeadAgrees([], first);
    assert HeadAgrees(first, second);
    assert [first, second][1..] == [second] && [second][1..] == [];
    assert Faithful(first, [second]);
  }

  /** Data left over from a block that was not dispatched is delivered by a later block that has none. */
  lemma {:induction false} StaleDataDiffers(d: string)
    requires d != ""
    ensures !Faithful([], [["event:ping", "data:" + d], ["event:message"]])
  {
    var first, second := ["event:ping", "data:" + d], ["event:message"];
    PingNotWanted(d);
    StaleHead(d);
    hide HeadAgrees, StdPayload;
    assert [] + first == first && [first, second][1..] == [second];
    assert !Faithful(first, [second]);
  }

  lemma {:induction false} PingNotWanted(d: string)
    ensures StdPayload(Continue, ["event:ping", "data:" + d]).None?
  {
    var data := "data:" + d;
    assert IsData(data);
    FieldMarks(data);
    PingMarks();
    hide IsData, IsEvent, DataField, EventField, TypeValue, DataValue, Filter, Join;
    FilterTwo("event:ping", data, EventField);
  }

  lemma {:induction false} StaleHead(d: string)
    requires d != ""
    ensures !HeadAgrees(["event:ping", "data:" + d], ["event:message"])
  {
    var data := "data:" + d;
    assert IsData(data) && data != "data:";
    FieldMarks(data);
    FieldMarks("event:message");
    PingMarks();
    StaleAfter("event:ping", data, "event:message");
  }

  lemma {:induction false} StaleAfter(ping: string, data: string, message: string)
    requires message == "event:message" && !IsData(ping) && IsData(data) && !IsEvent(data) && data != "data:"
    requires IsEvent(message) && !IsData(message) && !DataField(message)
    ensures !HeadAgrees([ping, data], [message])
  {
    hide Clean, IsData, IsEvent, DataField, EventField, TypeValue, DataValue, Filter, Join;
    assert [ping, data] + [message] == [ping] + [data, message];
    FilterOne(message, DataField);
    FilterCons(ping, [data, message], IsEvent);
    FilterCons(ping, [data, message], IsData);
    FilterTwo(data, message, IsEvent);
    FilterTwo(data, message, IsData);
  }

  lemma PingMarks()
    ensures IsEvent("event:ping") && !IsData("event:ping") && EventField("event:ping") && TypeValue("event:ping") == "ping"
  {
    NotBoth("event:ping");
    assert "event:ping"[6..] == "ping" && "ping"[0] != "message"[0];
  }

  lemma FieldMarks(line: string)
    ensures line == "event: message" || line == "event:message" ==>
      IsEvent(line) && EventField(line) && !IsData(line) && !DataField(line) && TypeValue(line) == "message"
    ensures IsData(line) ==> !IsEvent(line) && !EventField(line) && DataField(line)
  {
    NotBoth(line);
    assert "event: message"[6..] == " message" && " message"[1..] == "message" && "event:message"[6..] == "message";
    if IsData(line) {
      assert line[0] == 'd' && "event"[0] == 'e';
    }
    if line == "event: message" || line == "event:message" {
      assert line[0] == 'e';
    }
  }
}
