/** Three Go readers and a Python one of one wire format. */
module EventStreams {
  import opened Options
  import opened Seqs
  import opened Text

  /** A decoded payload. */
  datatype Message = Message(kind: string, content: string, references: seq<string>)

  datatype Failure = BadJson | CallbackFailed | ReadFailed

  /** The messages handed to the callback so far, and why the reader stopped if it did. */
  datatype Progress = Progress(delivered: seq<Message>, failure: Option<Failure>)

  /** JSON decoding, and a callback that may refuse depending on everything it was given. */
  datatype Env = Env(parse: string -> Option<Message>, accepts: seq<Message> -> bool)

  /** The three Go readers. */
  datatype Reader = KnowledgeQa | Continue | Agent

  datatype State = State(buffer: string, kind: string, out: Progress)

  const NOTHING: Progress := Progress([], None)

  const START: State := State("", "", NOTHING)

  // ----- lines

  predicate IsEvent(line: string) { "event:" <= line }

  predicate IsData(line: string) { "data:" <= line }

  lemma NotBoth(line: string)
    ensures !(IsEvent(line) && IsData(line))
  {
    if IsEvent(line) {
      assert line[0] == 'e';
    }
  }

  /** Characters that Go's `strings.TrimSpace` removes. */
  predicate GoSpace(c: char) {
    IsSpace(c) && !('\U{1c}' <= c <= '\U{1f}')
  }

  /** One by one. */
  lemma GoSpacesAre(c: char)
    ensures var all := "\U{9}\U{a}\U{b}\U{c}\U{d}\U{20}\U{85}\U{a0}\U{1680}"
        + "\U{2000}\U{2001}\U{2002}\U{2003}\U{2004}\U{2005}\U{2006}\U{2007}\U{2008}\U{2009}\U{200a}"
        + "\U{2028}\U{2029}\U{202f}\U{205f}\U{3000}";
      GoSpace(c) <==> c in all
  {
  }

  function Payload(r: Reader, line: string): string {
    if !IsData(line) then "" else if r == Agent then StripBy(line[5..], GoSpace) else line[5..]
  }

  function Kind(line: string): string {
    if IsEvent(line) then line[6..] else ""
  }

  /** The field lines are those that begin with the field's name and a colon; the value is what follows, blanks and all. */
  lemma {:induction false} FieldLines(line: string, value: string)
    ensures IsEvent("event:" + value) && Kind("event:" + value) == value
    ensures IsData("data:" + value)
    ensures Payload(KnowledgeQa, "data:" + value) == Payload(Continue, "data:" + value) == value
    ensures Payload(Agent, "data:" + value) == StripBy(value, GoSpace)
    ensures IsEvent(line) ==> line == "event:" + Kind(line)
    ensures IsData(line) ==> line == "data:" + Payload(KnowledgeQa, line)
  {
    hide StripBy;
    assert ("event:" + value)[6..] == value && ("data:" + value)[5..] == value;
  }

  // ----- one reader, line by line

  function Emit(env: Env, out: Progress, payload: string): Progress {
    if out.failure.Some? then out
    else match env.parse(payload)
      case None => Progress(out.delivered, Some(BadJson))
      case Some(m) =>
        var more := out.delivered + [m];
        Progress(more, if env.accepts(more) then None else Some(CallbackFailed))
  }

  predicate Dispatches(r: Reader, s: State) {
    s.buffer != "" && (r == Continue ==> s.kind == "message")
  }

  function Step(env: Env, r: Reader, s: State, line: string): State {
    if s.out.failure.Some? then s
    else if line == "" then
      if Dispatches(r, s) then State("", "", Emit(env, s.out, s.buffer)) else s
    else State(if IsData(line) then Payload(r, line) else s.buffer, if IsEvent(line) then Kind(line) else s.kind, s.out)
  }

  function Read(env: Env, r: Reader, s: State, lines: seq<string>): State
    decreases |lines|
  {
    if lines == [] then s else Read(env, r, Step(env, r, s, lines[0]), lines[1..])
  }

  /** What a whole stream delivers; the stream may break off with a read error. */
  function Outcome(env: Env, r: Reader, lines: seq<string>, broken: bool): Progress {
    var out := Read(env, r, START, lines).out;
    if out.failure.None? && broken then Progress(out.delivered, Some(ReadFailed)) else out
  }

  lemma {:induction false} ReadSnoc(env: Env, r: Reader, s: State, lines: seq<string>, line: string)
    ensures Read(env, r, s, lines + [line]) == Step(env, r, Read(env, r, s, lines), line)
    decreases |lines|
  {
    if lines == [] {
      assert [] + [line] == [line] && [line][1..] == [];
    } else {
      ReadSnoc(env, r, Step(env, r, s, lines[0]), lines[1..], line);
      assert (lines + [line])[1..] == lines[1..] + [line];
    }
  }

  lemma {:induction false} ReadStopped(env: Env, r: Reader, s: State, lines: seq<string>)
    requires s.out.failure.Some?
    ensures Read(env, r, s, lines) == s
    decreases |lines|
  {
    if lines != [] {
      ReadStopped(env, r, s, lines[1..]);
    }
  }

  lemma {:induction false} ReadAppend(env: Env, r: Reader, s: State, a: seq<string>, b: seq<string>)
    ensures Read(env, r, s, a + b) == Read(env, r, Read(env, r, s, a), b)
    decreases |a|
  {
    if a == [] {
      assert [] + b == b;
    } else {
      hide Step;
      ReadAppend(env, r, Step(env, r, s, a[0]), a[1..], b);
      assert (a + b)[1..] == a[1..] + b;
    }
  }

  // ----- the Go loops

  /** `KnowledgeQAStream`. */
  method KnowledgeQaStream(env: Env, lines: seq<string>, broken: bool) returns (delivered: seq<Message>, failure: Option<Failure>)
    ensures Progress(delivered, failure) == Outcome(env, KnowledgeQa, lines, broken)
  {
    hide Read;
    var dataBuffer, eventType := "", "";
    delivered, failure := [], None;
    ReadNone(env, KnowledgeQa);
    for k := 0 to |lines|
      invariant Read(env, KnowledgeQa, START, lines[..k]) == State(dataBuffer, eventType, Progress(delivered, None))
    {
      var line := lines[k];
      LineRead(env, KnowledgeQa, lines, k);
      if line == "" {
        if dataBuffer != "" {
          var message := env.parse(dataBuffer);
          if message.None? {
            failure := Some(BadJson);
            return;
          }
          delivered := delivered + [message.value];
          if !env.accepts(delivered) {
            failure := Some(CallbackFailed);
            return;
          }
          dataBuffer, eventType := "", "";
        }
        continue;
      }
      if IsEvent(line) {
        eventType := line[6..];
      }
      if IsData(line) {
        dataBuffer := line[5..];
      }
    }
    assert lines[..|lines|] == lines;
    if broken {
      failure := Some(ReadFailed);
    }
  }

  /** `ContinueStream`: only events typed `message` are dispatched. */
  method ContinueStream(env: Env, lines: seq<string>, broken: bool) returns (delivered: seq<Message>, failure: Option<Failure>)
    ensures Progress(delivered, failure) == Outcome(env, Continue, lines, broken)
  {
    hide Read;
    var dataBuffer, eventType := "", "";
    delivered, failure := [], None;
    ReadNone(env, Continue);
    for k := 0 to |lines|
      invariant Read(env, Continue, START, lines[..k]) == State(dataBuffer, eventType, Progress(delivered, None))
    {
      var line := lines[k];
      LineRead(env, Continue, lines, k);
      if line == "" {
        if dataBuffer != "" && eventType == "message" {
          var message := env.parse(dataBuffer);
          if message.None? {
            failure := Some(BadJson);
            return;
          }
          delivered := delivered + [message.value];
          if !env.accepts(delivered) {
            failure := Some(CallbackFailed);
            return;
          }
          dataBuffer, eventType := "", "";
        }
        continue;
      }
      if IsEvent(line) {
        eventType := line[6..];
      }
      if IsData(line) {
        dataBuffer := line[5..];
      }
    }
    assert lines[..|lines|] == lines;
    if broken {
      failure := Some(ReadFailed);
    }
  }

  /** `processAgentSSEStream`: event lines are skipped and payloads trimmed. */
  method ProcessAgentSseStream(env: Env, lines: seq<string>, broken: bool) returns (delivered: seq<Message>, failure: Option<Failure>)
    ensures Progress(delivered, failure) == Outcome(env, Agent, lines, broken)
  {
    hide Read, StripBy;
    var dataBuffer := "";
    delivered, failure := [], None;
    ReadNone(env, Agent);
    for k := 0 to |lines|
      invariant var s := Read(env, Agent, START, lines[..k]); s.buffer == dataBuffer && s.out == Progress(delivered, None)
    {
      var line := lines[k];
      LineRead(env, Agent, lines, k);
      if line == "" {
        if dataBuffer != "" {
          var message := env.parse(dataBuffer);
          if message.None? {
            failure := Some(BadJson);
            return;
          }
          delivered := delivered + [message.value];
          if !env.accepts(delivered) {
            failure := Some(CallbackFailed);
            return;
          }
          dataBuffer := "";
        }
        continue;
      }
      NotBoth(line);
      if IsEvent(line) {
        continue;
      }
      if IsData(line) {
        dataBuffer := StripBy(line[5..], GoSpace);
      }
    }
    assert lines[..|lines|] == lines;
    if broken {
      failure := Some(ReadFailed);
    }
  }

  lemma ReadNone(env: Env, r: Reader)
    ensures Read(env, r, START, []) == START
  {
  }

  /** One more line read; once stopped, the rest of the stream makes no difference. */
  lemma {:induction false} LineRead(env: Env, r: Reader, lines: seq<string>, k: nat)
    requires k < |lines|
    ensures var s := Step(env, r, Read(env, r, START, lines[..k]), lines[k]);
      && Read(env, r, START, lines[..k + 1]) == s
      && (s.out.failure.Some? ==> Read(env, r, START, lines) == s)
  {
    hide Step, Read;
    assert lines[..k + 1] == lines[..k] + [lines[k]];
    ReadSnoc(env, r, START, lines[..k], lines[k]);
    var s := Step(env, r, Read(env, r, START, lines[..k]), lines[k]);
    assert lines == lines[..k + 1] + lines[k + 1..];
    ReadAppend(env, r, START, lines[..k + 1], lines[k + 1..]);
    if s.out.failure.Some? {
      ReadStopped(env, r, s, lines[k + 1..]);
    }
  }

  // ----- well-formed streams

  /** The lines of one event: one `event:` line and one `data:` line in any order, perhaps others, none empty. */
  ghost predicate WellFormed(r: Reader, block: seq<string>) {
    && "" !in block
    && |Filter(block, IsEvent)| == 1
    && |Filter(block, IsData)| == 1
    && Payload(r, Filter(block, IsData)[0]) != ""
  }

  ghost predicate AllWellFormed(r: Reader, blocks: seq<seq<string>>) {
    forall k :: 0 <= k < |blocks| ==> WellFormed(r, blocks[k])
  }

  /** Every event closed by an empty line. */
  function Stream(blocks: seq<seq<string>>): seq<string> {
    if blocks == [] then [] else blocks[0] + [""] + Stream(blocks[1..])
  }

  ghost predicate Wanted(r: Reader, block: seq<string>)
    requires WellFormed(r, block)
  {
    r == Continue ==> Filter(block, IsEvent)[0] == "event:message"
  }

  /** The payloads a reader should hand out. */
  ghost function Payloads(r: Reader, blocks: seq<seq<string>>): seq<string>
    requires AllWellFormed(r, blocks)
  {
    if blocks == [] then []
    else (if Wanted(r, blocks[0]) then [Payload(r, Filter(blocks[0], IsData)[0])] else []) + Payloads(r, blocks[1..])
  }

  /** Payloads decoded and handed out one after the other. */
  function Deliver(env: Env, out: Progress, payloads: seq<string>): Progress
    decreases |payloads|
  {
    if payloads == [] then out else Deliver(env, Emit(env, out, payloads[0]), payloads[1..])
  }

  /** What the buffer and the type hold after the given data and event lines. */
  ghost function BufferAfter(r: Reader, before: string, datas: seq<string>): string {
    if datas == [] then before else Payload(r, datas[|datas| - 1])
  }

  ghost function KindAfter(before: string, events: seq<string>): string {
    if events == [] then before else Kind(events[|events| - 1])
  }

  lemma ReadCons(env: Env, r: Reader, s: State, line: string, rest: seq<string>)
    requires line != "" && s.out.failure.None?
    ensures var t := State(BufferAfter(r, s.buffer, if IsData(line) then [line] else []),
                           KindAfter(s.kind, if IsEvent(line) then [line] else []), s.out);
      Read(env, r, s, [line] + rest) == Read(env, r, t, rest)
  {
    hide Payload, Kind, IsData, IsEvent;
    assert ([line] + rest)[1..] == rest;
    assert [line][|[line]| - 1] == line;
  }

  lemma AfterAppend(r: Reader, before: string, a: seq<string>, b: seq<string>)
    ensures BufferAfter(r, BufferAfter(r, before, a), b) == BufferAfter(r, before, a + b)
    ensures KindAfter(KindAfter(before, a), b) == KindAfter(before, a + b)
  {
    hide Payload, Kind;
    assert b == [] ==> a + b == a;
  }

  /** Non-empty lines only fill the buffers, and the last line of each kind wins. */
  lemma {:induction false} ReadBlock(env: Env, r: Reader, s: State, block: seq<string>)
    requires "" !in block && s.out.failure.None?
    ensures Read(env, r, s, block) ==
      State(BufferAfter(r, s.buffer, Filter(block, IsData)), KindAfter(s.kind, Filter(block, IsEvent)), s.out)
    decreases |block|
  {
    if block != [] {
      hide *;
      var line, rest := block[0], block[1..];
      assert block == [line] + rest;
      ReadCons(env, r, s, line, rest);
      var d := if IsData(line) then [line] else [];
      var e := if IsEvent(line) then [line] else [];
      FilterCons(line, rest, IsData);
      FilterCons(line, rest, IsEvent);
      assert Filter(block, IsData) == d + Filter(rest, IsData);
      assert Filter(block, IsEvent) == e + Filter(rest, IsEvent);
      AfterAppend(r, s.buffer, d, Filter(rest, IsData));
      AfterAppend(r, s.kind, e, Filter(rest, IsEvent));
      ReadBlock(env, r, State(BufferAfter(r, s.buffer, d), KindAfter(s.kind, e), s.out), rest);
    }
  }

  lemma KindIsMessage(line: string)
    requires IsEvent(line)
    ensures Kind(line) == "message" <==> line == "event:message"
  {
    assert line == "event:" + line[6..];
  }

  lemma {:induction false} ReadEvent(env: Env, r: Reader, s: State, block: seq<string>)
    requires WellFormed(r, block)
    ensures var data := Payload(r, Filter(block, IsData)[0]);
      Read(env, r, s, block + [""]).out == if Wanted(r, block) then Emit(env, s.out, data) else s.out
  {
    hide Filter, Payload, Kind, IsEvent, IsData, Read;
    FilterIn(block, IsEvent);
    assert Filter(block, IsEvent)[0] in Filter(block, IsEvent);
    KindIsMessage(Filter(block, IsEvent)[0]);
    if s.out.failure.Some? {
      ReadStopped(env, r, s, block + [""]);
    } else {
      ReadBlock(env, r, s, block);
      ReadSnoc(env, r, s, block, "");
    }
  }

  lemma StreamStep(blocks: seq<seq<string>>)
    requires blocks != []
    ensures Stream(blocks) == (blocks[0] + [""]) + Stream(blocks[1..])
  {
  }

  lemma {:induction false} StreamFrom(env: Env, r: Reader, s: State, blocks: seq<seq<string>>)
    requires AllWellFormed(r, blocks)
    ensures Read(env, r, s, Stream(blocks)).out == Deliver(env, s.out, Payloads(r, blocks))
    decreases |blocks|
  {
    if blocks != [] {
      var b := blocks[0];
      var next := Read(env, r, s, b + [""]);
      var data := Payload(r, Filter(b, IsData)[0]);
      StreamFrom(env, r, next, blocks[1..]);
      hide Filter, Payload, Kind, IsEvent, IsData, Read, Wanted, Stream, WellFormed, Emit;
      StreamStep(blocks);
      ReadEvent(env, r, s, b);
      ReadAppend(env, r, s, b + [""], Stream(blocks[1..]));
      if Wanted(r, b) {
        assert Payloads(r, blocks) == [data] + Payloads(r, blocks[1..]);
        assert Payloads(r, blocks)[1..] == Payloads(r, blocks[1..]);
      } else {
        assert Payloads(r, blocks) == Payloads(r, blocks[1..]);
      }
    }
  }

  /** On a well-formed stream a reader delivers exactly the wanted payloads, in order, until one fails. */
  lemma {:induction false} StreamDelivers(env: Env, r: Reader, blocks: seq<seq<string>>)
    requires AllWellFormed(r, blocks)
    ensures Outcome(env, r, Stream(blocks), false) == Deliver(env, NOTHING, Payloads(r, blocks))
  {
    StreamFrom(env, r, START, blocks);
  }

  ghost predicate AllParse(env: Env, payloads: seq<string>) {
    forall k :: 0 <= k < |payloads| ==> env.parse(payloads[k]).Some?
  }

  function Decoded(env: Env, payloads: seq<string>): seq<Message> {
    if payloads == [] then []
    else (match env.parse(payloads[0]) case Some(m) => [m] case None => []) + Decoded(env, payloads[1..])
  }

  /** With valid payloads and a callback that never refuses, every payload arrives and the reader ends well. */
  lemma {:induction false} DeliverAll(env: Env, out: Progress, payloads: seq<string>)
    requires AllParse(env, payloads) && out.failure.None? && forall ms :: env.accepts(ms)
    ensures Deliver(env, out, payloads) == Progress(out.delivered + Decoded(env, payloads), None)
    decreases |payloads|
  {
    if payloads != [] {
      var rest := payloads[1..];
      assert forall k :: 0 <= k < |rest| ==> rest[k] == payloads[k + 1];
      var m := env.parse(payloads[0]).value;
      DeliverAll(env, Emit(env, out, payloads[0]), rest);
      assert out.delivered + ([m] + Decoded(env, rest)) == (out.delivered + [m]) + Decoded(env, rest);
    }
  }

  lemma {:induction false} AllPayloadsArrive(env: Env, r: Reader, blocks: seq<seq<string>>)
    requires AllWellFormed(r, blocks) && AllParse(env, Payloads(r, blocks)) && forall ms :: env.accepts(ms)
    ensures Outcome(env, r, Stream(blocks), false) == Progress(Decoded(env, Payloads(r, blocks)), None)
  {
    hide Outcome;
    StreamDelivers(env, r, blocks);
    DeliverAll(env, NOTHING, Payloads(r, blocks));
  }

  /** Every payload decodes, and the callback is content with what it has been given each time. */
  ghost predicate Smooth(env: Env, payloads: seq<string>) {
    && AllParse(env, payloads)
    && forall n :: 0 < n <= |payloads| ==> env.accepts(Decoded(env, payloads[..n]))
  }

  lemma {:induction false} DecodedSnoc(env: Env, payloads: seq<string>, last: string)
    requires env.parse(last).Some?
    ensures Decoded(env, payloads + [last]) == Decoded(env, payloads) + [env.parse(last).value]
  {
    if payloads == [] {
      assert [] + [last] == [last] && [last][1..] == [];
    } else {
      assert (payloads + [last])[1..] == payloads[1..] + [last];
      DecodedSnoc(env, payloads[1..], last);
    }
  }

  lemma {:induction false} DeliverSnoc(env: Env, out: Progress, payloads: seq<string>, last: string)
    ensures Deliver(env, out, payloads + [last]) == Emit(env, Deliver(env, out, payloads), last)
    decreases |payloads|
  {
    hide Emit;
    if payloads == [] {
      assert [] + [last] == [last] && [last][1..] == [];
    } else {
      assert (payloads + [last])[1..] == payloads[1..] + [last];
      DeliverSnoc(env, Emit(env, out, payloads[0]), payloads[1..], last);
    }
  }

  lemma {:induction false} DeliverSmooth(env: Env, payloads: seq<string>)
    requires Smooth(env, payloads)
    ensures Deliver(env, NOTHING, payloads) == Progress(Decoded(env, payloads), None)
    decreases |payloads|
  {
    if payloads != [] {
      var n := |payloads| - 1;
      var init := payloads[..n];
      assert payloads == init + [payloads[n]] && payloads[..n + 1] == payloads;
      assert forall k :: 0 < k <= n ==> init[..k] == payloads[..k];
      DeliverSmooth(env, init);
      DeliverSnoc(env, NOTHING, init, payloads[n]);
      DecodedSnoc(env, init, payloads[n]);
    }
  }

  lemma {:induction false} DeliverStopped(env: Env, out: Progress, payloads: seq<string>)
    requires out.failure.Some?
    ensures Deliver(env, out, payloads) == out
    decreases |payloads|
  {
    if payloads != [] {
      DeliverStopped(env, out, payloads[1..]);
    }
  }

  lemma {:induction false} DeliverAppend(env: Env, out: Progress, a: seq<string>, b: seq<string>)
    ensures Deliver(env, out, a + b) == Deliver(env, Deliver(env, out, a), b)
    decreases |a|
  {
    hide Emit;
    if a == [] {
      assert a + b == b;
    } else {
      assert (a + b)[1..] == a[1..] + b;
      DeliverAppend(env, Emit(env, out, a[0]), a[1..], b);
    }
  }

  /**
   * The first payload that does not decode ends the reading with a decoding error after the earlier ones were handed
   * out; the first that the callback refuses ends it after it was handed out.
   */
  lemma {:induction false} StreamStops(env: Env, r: Reader, blocks: seq<seq<string>>, n: nat)
    requires AllWellFormed(r, blocks) && n < |Payloads(r, blocks)| && Smooth(env, Payloads(r, blocks)[..n])
    ensures var ps := Payloads(r, blocks);
      && (env.parse(ps[n]).None? ==>
            Outcome(env, r, Stream(blocks), false) == Progress(Decoded(env, ps[..n]), Some(BadJson)))
      && (env.parse(ps[n]).Some? && !env.accepts(Decoded(env, ps[..n + 1])) ==>
            Outcome(env, r, Stream(blocks), false) == Progress(Decoded(env, ps[..n + 1]), Some(CallbackFailed)))
  {
    hide *;
    StreamDelivers(env, r, blocks);
    DeliverStops(env, Payloads(r, blocks), n);
  }

  lemma DeliverStops(env: Env, ps: seq<string>, n: nat)
    requires n < |ps| && Smooth(env, ps[..n])
    ensures env.parse(ps[n]).None? ==> Deliver(env, NOTHING, ps) == Progress(Decoded(env, ps[..n]), Some(BadJson))
    ensures env.parse(ps[n]).Some? && !env.accepts(Decoded(env, ps[..n + 1])) ==>
      Deliver(env, NOTHING, ps) == Progress(Decoded(env, ps[..n + 1]), Some(CallbackFailed))
  {
    DeliverSmooth(env, ps[..n]);
    hide Deliver, Smooth, Decoded;
    DeliverSnoc(env, NOTHING, ps[..n], ps[n]);
    assert ps[..n] + [ps[n]] == ps[..n + 1] && ps[..n + 1] + ps[n + 1..] == ps;
    DeliverAppend(env, NOTHING, ps[..n + 1], ps[n + 1..]);
    if env.parse(ps[n]).Some? {
      DecodedSnoc(env, ps[..n], ps[n]);
    }
    var out := Emit(env, Progress(Decoded(env, ps[..n]), None), ps[n]);
    if out.failure.Some? {
      DeliverStopped(env, out, ps[n + 1..]);
    }
  }

  /** A stream that breaks off is reported, unless the reader had stopped before. */
  lemma {:induction false} BrokenIsReported(env: Env, r: Reader, lines: seq<string>)
    ensures var whole := Outcome(env, r, lines, false);
      Outcome(env, r, lines, true) == if whole.failure.Some? then whole else Progress(whole.delivered, Some(ReadFailed))
  {
    hide Read;
  }

  // ----- arbitrary streams

  /** Lines after the last empty one are never delivered. */
  lemma {:induction false} UnterminatedDiscarded(env: Env, r: Reader, lines: seq<string>, tail: seq<string>)
    requires "" !in tail
    ensures Outcome(env, r, lines + tail, false) == Outcome(env, r, lines, false)
  {
    hide Read;
    ReadAppend(env, r, START, lines, tail);
    var s := Read(env, r, START, lines);
    if s.out.failure.Some? {
      ReadStopped(env, r, s, tail);
    } else {
      ReadBlock(env, r, s, tail);
    }
  }

  lemma {:induction false} ReadGrows(env: Env, r: Reader, s: State, lines: seq<string>)
    ensures s.out.delivered <= Read(env, r, s, lines).out.delivered
    decreases |lines|
  {
    if lines != [] {
      ReadGrows(env, r, Step(env, r, s, lines[0]), lines[1..]);
    }
  }

  /** A connection that breaks after any line has delivered a prefix of what the whole stream delivers. */
  lemma {:induction false} PrefixOfCallbacks(env: Env, r: Reader, lines: seq<string>, whole: seq<string>, broken: bool)
    requires lines <= whole
    ensures Outcome(env, r, lines, broken).delivered <= Outcome(env, r, whole, false).delivered
  {
    hide Read;
    assert whole == lines + whole[|lines|..];
    ReadAppend(env, r, START, lines, whole[|lines|..]);
    ReadGrows(env, r, Read(env, r, START, lines), whole[|lines|..]);
  }

  /** The type is compared with its leading space, so `event: message` is never dispatched. */
  lemma {:induction false} SpacedTypesIgnored(env: Env, s: State, lines: seq<string>)
    requires forall k :: 0 <= k < |lines| && IsEvent(lines[k]) ==> "event: " <= lines[k]
    requires s.kind != "message"
    ensures Read(env, Continue, s, lines).out == s.out
    decreases |lines|
  {
    if lines != [] {
      var line := lines[0];
      assert IsEvent(line) ==> line[6] == ' ' && Kind(line)[0] == ' ';
      SpacedTypesIgnored(env, Step(env, Continue, s, line), lines[1..]);
    }
  }

  /** Data of an event that is not dispatched stays in the buffer and is delivered with a later one. */
  lemma {:induction false} StaleDataDelivered(env: Env, data: string, m: Message)
    requires data != "" && env.parse(data) == Some(m) && env.accepts([m])
    ensures Outcome(env, Continue, ["event:ping", "data:" + data, "", "event:message", ""], false) == Progress([m], None)
  {
    hide Read, Step;
    var lines := ["event:ping", "data:" + data, "", "event:message", ""];
    assert lines == ((["event:ping", "data:" + data] + [""]) + ["event:message"]) + [""];
    ReadSnoc(env, Continue, START, (["event:ping", "data:" + data] + [""]) + ["event:message"], "");
    ReadSnoc(env, Continue, START, ["event:ping", "data:" + data] + [""], "event:message");
    ReadSnoc(env, Continue, START, ["event:ping", "data:" + data], "");
    ReadTwo(env, START, "event:ping", "data:" + data);
    StaleSteps(env, data, m);
  }

  lemma StaleSteps(env: Env, data: string, m: Message)
    requires data != "" && env.parse(data) == Some(m) && env.accepts([m])
    ensures var a := Step(env, Continue, START, "event:ping");
      var b := Step(env, Continue, a, "data:" + data);
      var c := Step(env, Continue, b, "");
      var d := Step(env, Continue, c, "event:message");
      Step(env, Continue, d, "").out == Progress([m], None)
  {
    NotBoth("event:ping");
    NotBoth("event:message");
    NotBoth("data:" + data);
    assert IsEvent("event:ping") && Kind("event:ping") == "ping";
    assert IsData("data:" + data) && ("data:" + data)[5..] == data;
    assert IsEvent("event:message") && Kind("event:message") == "message";
    assert "ping"[0] != "message"[0];
    assert [] + [m] == [m];
  }

  lemma ReadOne(env: Env, s: State, line: string)
    ensures Read(env, Continue, s, [line]) == Step(env, Continue, s, line)
  {
    assert [line][1..] == [];
  }

  lemma ReadTwo(env: Env, s: State, a: string, b: string)
    ensures Read(env, Continue, s, [a, b]) == Step(env, Continue, Step(env, Continue, s, a), b)
  {
    assert [a, b][1..] == [b];
    ReadOne(env, Step(env, Continue, s, a), b);
  }

  // ----- the Python reader

  datatype Summary = Summary(answer: string, references: seq<string>, seen: seq<Message>) | ServerError(content: string)

  function PyPayload(line: string): string {
    if IsData(line) then LStripBy(line[5..], IsBlankChar) else ""
  }

  function PyLine(env: Env, line: string): seq<Message> {
    if IsData(line) && env.parse(PyPayload(line)).Some? then [env.parse(PyPayload(line)).value] else []
  }

  /** The messages on the data lines; lines that do not decode are passed over. */
  function PyMessages(env: Env, lines: seq<string>): seq<Message> {
    if lines == [] then []
    else PyLine(env, lines[0]) + PyMessages(env, lines[1..])
  }

  predicate Ends(m: Message) { m.kind == "complete" || m.kind == "error" }

  /** Everything up to and including the first message that ends the reading. */
  function UpToEnd(ms: seq<Message>): seq<Message> {
    if ms == [] then [] else if Ends(ms[0]) then [ms[0]] else [ms[0]] + UpToEnd(ms[1..])
  }

  function AnswerText(ms: seq<Message>): string {
    if ms == [] then "" else
      var n := |ms| - 1;
      AnswerText(ms[..n]) + (if ms[n].kind == "answer" then ms[n].content else "")
  }

  function LastReferences(ms: seq<Message>): seq<string> {
    if ms == [] then [] else
      var n := |ms| - 1;
      if ms[n].kind == "references" then ms[n].references else LastReferences(ms[..n])
  }

  /** The answer chunks joined, the references of the last message that carries them, or the server's error. */
  function Summarised(ms: seq<Message>): Summary {
    var seen := UpToEnd(ms);
    if seen != [] && seen[|seen| - 1].kind == "error" then ServerError(seen[|seen| - 1].content)
    else Summary(AnswerText(seen), LastReferences(seen), seen)
  }

  /** `_consume_sse_stream`. */
  method ConsumeSseStream(env: Env, lines: seq<string>) returns (r: Summary)
    ensures r == Summarised(PyMessages(env, lines))
  {
    hide PyMessages, UpToEnd, AnswerText, LastReferences, PyPayload;
    var chunks: string, references: seq<string>, seen: seq<Message> := "", [], [];
    SumNone(env);
    for k := 0 to |lines|
      invariant seen == PyMessages(env, lines[..k])
      invariant forall m :: m in seen ==> !Ends(m)
      invariant chunks == AnswerText(seen) && references == LastReferences(seen)
    {
      var line := lines[k];
      PySnoc(env, lines[..k], line);
      assert lines[..k + 1] == lines[..k] + [line];
      if line == "" {
        continue;
      }
      if !IsData(line) {
        continue;
      }
      var message := env.parse(PyPayload(line));
      if message.None? {
        continue;
      }
      var m := message.value;
      SumSnoc(seen, m);
      PyAppend(env, lines[..k + 1], lines[k + 1..]);
      assert lines == lines[..k + 1] + lines[k + 1..];
      seen := seen + [m];
      if m.kind == "answer" {
        if m.content != "" {
          chunks := chunks + m.content;
        }
      } else if m.kind == "references" {
        references := m.references;
      } else if m.kind == "error" {
        EndsAt(seen, PyMessages(env, lines[k + 1..]));
        return ServerError(m.content);
      } else if m.kind == "complete" {
        EndsAt(seen, PyMessages(env, lines[k + 1..]));
        return Summary(chunks, references, seen);
      }
    }
    assert lines[..|lines|] == lines;
    NoEnd(seen);
    assert seen != [] ==> seen[|seen| - 1] in seen;
    return Summary(chunks, references, seen);
  }

  lemma SumNone(env: Env)
    ensures PyMessages(env, []) == [] && AnswerText([]) == "" && LastReferences([]) == []
  {
  }

  lemma {:induction false} SumSnoc(ms: seq<Message>, m: Message)
    ensures AnswerText(ms + [m]) == AnswerText(ms) + (if m.kind == "answer" then m.content else "")
    ensures LastReferences(ms + [m]) == if m.kind == "references" then m.references else LastReferences(ms)
  {
    assert (ms + [m])[..|ms|] == ms;
  }

  lemma PyStep(env: Env, lines: seq<string>)
    requires lines != []
    ensures PyMessages(env, lines) == PyLine(env, lines[0]) + PyMessages(env, lines[1..])
  {
  }

  lemma {:induction false} PyAppend(env: Env, a: seq<string>, b: seq<string>)
    ensures PyMessages(env, a + b) == PyMessages(env, a) + PyMessages(env, b)
  {
    hide *;
    if a == [] {
      PyNone(env);
      assert a + b == b;
    } else {
      PyStep(env, a);
      PyStep(env, a + b);
      PyAppend(env, a[1..], b);
      assert (a + b)[1..] == a[1..] + b;
      var x, y, z := PyLine(env, a[0]), PyMessages(env, a[1..]), PyMessages(env, b);
      assert (x + y) + z == x + (y + z);
    }
  }

  lemma PyNone(env: Env)
    ensures PyMessages(env, []) == []
  {
  }

  lemma {:induction false} PySnoc(env: Env, lines: seq<string>, line: string)
    ensures PyMessages(env, lines + [line]) == PyMessages(env, lines) + PyLine(env, line)
  {
    PyAppend(env, lines, [line]);
    assert [line][1..] == [];
  }

  lemma {:induction false} NoEnd(ms: seq<Message>)
    requires forall m :: m in ms ==> !Ends(m)
    ensures UpToEnd(ms) == ms
  {
    if ms != [] {
      NoEnd(ms[1..]);
    }
  }

  lemma {:induction false} EndsAt(ms: seq<Message>, more: seq<Message>)
    requires ms != [] && Ends(ms[|ms| - 1]) && forall k :: 0 <= k < |ms| - 1 ==> !Ends(ms[k])
    ensures UpToEnd(ms + more) == ms
  {
    if |ms| > 1 {
      EndsAt(ms[1..], more);
      assert (ms + more)[1..] == ms[1..] + more;
    }
  }

  predicate IsAnswer(m: Message) { m.kind == "answer" }

  /** The answer is the contents of the answer messages, in order. */
  lemma {:induction false} AnswerTextIs(ms: seq<Message>)
    ensures AnswerText(ms) == FlatMap(Filter(ms, IsAnswer), (m: Message) => m.content)
  {
    var f := (m: Message) => m.content;
    if ms != [] {
      var n := |ms| - 1;
      AnswerTextIs(ms[..n]);
      assert ms == ms[..n] + [ms[n]] && [ms[n]][1..] == [];
      FilterAppend(ms[..n], [ms[n]], IsAnswer);
      FlatMapAppend(Filter(ms[..n], IsAnswer), Filter([ms[n]], IsAnswer), f);
      assert FlatMap([ms[n]], f) == f(ms[n]) + FlatMap([ms[n]][1..], f) == ms[n].content;
    }
  }

  /** The references are those of the last message that carries them. */
  lemma {:induction false} LastReferencesAre(ms: seq<Message>, k: nat)
    requires k < |ms| && ms[k].kind == "references"
    requires forall j :: k < j < |ms| ==> ms[j].kind != "references"
    ensures LastReferences(ms) == ms[k].references
  {
    if k < |ms| - 1 {
      LastReferencesAre(ms[..|ms| - 1], k);
    }
  }

  /** Without such a message there are none. */
  lemma {:induction false} NoReferences(ms: seq<Message>)
    requires forall j :: 0 <= j < |ms| ==> ms[j].kind != "references"
    ensures LastReferences(ms) == []
  {
    if ms != [] {
      NoReferences(ms[..|ms| - 1]);
    }
  }

  /**
   * The reading stops at the first `complete` or `error` message, if there is one: an error is raised with its content,
   * otherwise what came up to there is summed up.
   */
  lemma {:induction false} SummaryIs(ms: seq<Message>, n: nat)
    requires n <= |ms| && forall j :: 0 <= j < n ==> ms[j].kind != "complete" && ms[j].kind != "error"
    ensures n == |ms| ==> Summarised(ms) == Summary(AnswerText(ms), LastReferences(ms), ms)
    ensures n < |ms| && ms[n].kind == "error" ==> Summarised(ms) == ServerError(ms[n].content)
    ensures n < |ms| && ms[n].kind == "complete" ==>
      Summarised(ms) == Summary(AnswerText(ms[..n]), LastReferences(ms[..n]), ms[..n + 1])
  {
    hide *;
    NoneEnds(ms, n);
    if n == |ms| {
      SummaryWhole(ms);
    } else if ms[n].kind == "complete" || ms[n].kind == "error" {
      SummaryAt(ms, n);
    }
  }

  lemma NoneEnds(ms: seq<Message>, n: nat)
    requires n <= |ms| && forall j :: 0 <= j < n ==> ms[j].kind != "complete" && ms[j].kind != "error"
    ensures forall j :: 0 <= j < n ==> !Ends(ms[j])
    ensures n < |ms| ==> (Ends(ms[n]) <==> ms[n].kind == "complete" || ms[n].kind == "error")
  {
  }

  lemma SummaryWhole(ms: seq<Message>)
    requires forall j :: 0 <= j < |ms| ==> !Ends(ms[j])
    ensures Summarised(ms) == Summary(AnswerText(ms), LastReferences(ms), ms)
  {
    hide AnswerText, LastReferences, UpToEnd;
    NoEnd(ms);
  }

  lemma SummaryAt(ms: seq<Message>, n: nat)
    requires n < |ms| && Ends(ms[n]) && forall j :: 0 <= j < n ==> !Ends(ms[j])
    ensures Summarised(ms) ==
      if ms[n].kind == "error" then ServerError(ms[n].content)
      else Summary(AnswerText(ms[..n]), LastReferences(ms[..n]), ms[..n + 1])
  {
    var seen := ms[..n + 1];
    assert ms == seen + ms[n + 1..] && seen == ms[..n] + [ms[n]];
    assert seen[|seen| - 1] == ms[n];
    EndsAt(seen, ms[n + 1..]);
    SumSnoc(ms[..n], ms[n]);
    hide AnswerText, LastReferences, UpToEnd;
  }

  // ----- the readers agree

  /** Blanks around a payload make no difference to the decoder. */
  ghost predicate SameJson(env: Env, line: string) {
    && env.parse(PyPayload(line)) == env.parse(Payload(KnowledgeQa, line))
    && env.parse(Payload(Agent, line)) == env.parse(Payload(KnowledgeQa, line))
  }

  ghost predicate Comparable(env: Env, blocks: seq<seq<string>>) {
    && AllWellFormed(KnowledgeQa, blocks) && AllWellFormed(Agent, blocks)
    && forall k :: 0 <= k < |blocks| ==> SameJson(env, Filter(blocks[k], IsData)[0])
  }

  lemma {:induction false} PyOneData(env: Env, block: seq<string>)
    requires |Filter(block, IsData)| <= 1
    ensures PyMessages(env, block) ==
      if Filter(block, IsData) == [] then [] else Decoded(env, [PyPayload(Filter(block, IsData)[0])])
  {
    if block != [] {
      var line, rest := block[0], block[1..];
      assert block == [line] + rest;
      hide PyPayload, IsData, Filter;
      FilterCons(line, rest, IsData);
      PyOneData(env, rest);
      assert IsData(line) ==> [PyPayload(line)][1..] == [];
    }
  }

  /** The one wanted payload of a block, decoded. */
  ghost function BlockMessage(env: Env, block: seq<string>): seq<Message>
    requires |Filter(block, IsData)| == 1
  {
    Decoded(env, [Payload(KnowledgeQa, Filter(block, IsData)[0])])
  }

  lemma DecodedOne(env: Env, a: string, b: string)
    requires env.parse(a) == env.parse(b)
    ensures Decoded(env, [a]) == Decoded(env, [b])
  {
    assert [a][1..] == [] && [b][1..] == [];
  }

  lemma DecodedCons(env: Env, a: string, rest: seq<string>)
    ensures Decoded(env, [a] + rest) == Decoded(env, [a]) + Decoded(env, rest)
  {
    assert ([a] + rest)[1..] == rest && [a][1..] == [];
  }

  lemma PayloadsCons(r: Reader, blocks: seq<seq<string>>)
    requires AllWellFormed(r, blocks) && blocks != [] && r != Continue
    ensures Payloads(r, blocks) == [Payload(r, Filter(blocks[0], IsData)[0])] + Payloads(r, blocks[1..])
  {
  }

  lemma BlockMessages(env: Env, block: seq<string>)
    requires |Filter(block, IsData)| == 1 && SameJson(env, Filter(block, IsData)[0])
    ensures PyMessages(env, block + [""]) == BlockMessage(env, block)
    ensures Decoded(env, [Payload(Agent, Filter(block, IsData)[0])]) == BlockMessage(env, block)
  {
    hide Filter, PyMessages, Decoded, PyPayload, Payload;
    var line := Filter(block, IsData)[0];
    PySnoc(env, block, "");
    PyOneData(env, block);
    DecodedOne(env, PyPayload(line), Payload(KnowledgeQa, line));
    DecodedOne(env, Payload(Agent, line), Payload(KnowledgeQa, line));
  }

  lemma {:induction false} PayloadsMatch(env: Env, blocks: seq<seq<string>>)
    requires Comparable(env, blocks)
    ensures PyMessages(env, Stream(blocks)) == Decoded(env, Payloads(KnowledgeQa, blocks))
    ensures Decoded(env, Payloads(Agent, blocks)) == Decoded(env, Payloads(KnowledgeQa, blocks))
  {
    if blocks != [] {
      hide Filter, PyMessages, Decoded, PyPayload, Payload, Payloads, Stream, BlockMessage, SameJson;
      var b, rest := blocks[0], blocks[1..];
      PayloadsMatch(env, rest);
      StreamStep(blocks);
      PyAppend(env, b + [""], Stream(rest));
      assert WellFormed(KnowledgeQa, b) && SameJson(env, Filter(b, IsData)[0]);
      BlockMessages(env, b);
      PayloadsCons(KnowledgeQa, blocks);
      PayloadsCons(Agent, blocks);
      DecodedCons(env, Payload(KnowledgeQa, Filter(b, IsData)[0]), Payloads(KnowledgeQa, rest));
      DecodedCons(env, Payload(Agent, Filter(b, IsData)[0]), Payloads(Agent, rest));
      BlockMessageIs(env, b);
    }
  }

  lemma BlockMessageIs(env: Env, block: seq<string>)
    requires |Filter(block, IsData)| == 1
    ensures BlockMessage(env, block) == Decoded(env, [Payload(KnowledgeQa, Filter(block, IsData)[0])])
  {
  }

  /** On a well-formed stream of valid payloads all readers without a type filter see the same messages,
      the Python one up to the first that ends its reading. */
  lemma {:induction false} ReadersAgree(env: Env, blocks: seq<seq<string>>)
    requires Comparable(env, blocks)
    requires AllParse(env, Payloads(KnowledgeQa, blocks)) && AllParse(env, Payloads(Agent, blocks))
    requires forall ms :: env.accepts(ms)
    ensures var qa := Outcome(env, KnowledgeQa, Stream(blocks), false).delivered;
      && Outcome(env, Agent, Stream(blocks), false).delivered == qa
      && Summarised(PyMessages(env, Stream(blocks))) == Summarised(qa)
      && (Summarised(qa).Summary? ==> Summarised(qa).seen == UpToEnd(qa))
  {
    hide Outcome, Stream, PyMessages;
    AllPayloadsArrive(env, KnowledgeQa, blocks);
    AllPayloadsArrive(env, Agent, blocks);
    PayloadsMatch(env, blocks);
  }
}
