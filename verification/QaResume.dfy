/** Answer generation with crash and resume. */
module QaResume {
  import opened Options

  datatype Answer = Answer(id: int, text: string)

  datatype Pair = Pair(qid: string, aid: int)

  /** The two parquet files of the output directory. */
  datatype Disk = Disk(answers: Option<seq<Answer>>, pairs: Option<seq<Pair>>)

  /** One call of the language model. */
  datatype Reply = Answered(text: string) | ApiError | OtherError

  /** What asking one query, with its retries, comes to. */
  datatype Outcome = Success(text: string) | GaveUp | Raised | NotAsked

  /** A run: its queries, the model's replies by query and attempt, and the number of file writes it completes before dying, if it dies. */
  datatype RunInput = RunInput(queries: seq<string>, replies: (string, nat) -> Reply, maxRetries: int, diesAfter: Option<nat>)

  /** The lists `answers` and `qa_pairs` held in memory. */
  datatype Memory = Memory(answers: seq<Answer>, pairs: seq<Pair>)

  datatype Write = SaveAnswers(rows: seq<Answer>) | SavePairs(links: seq<Pair>)

  function AnswersOn(d: Disk): seq<Answer> {
    if d.answers.Some? then d.answers.value else []
  }

  function PairsOn(d: Disk): seq<Pair> {
    if d.pairs.Some? then d.pairs.value else []
  }

  // ----- a run as the list of its file writes

  /** A missing file, or a pair file written from an empty list (it has no columns), means starting from nothing. */
  function Load(d: Disk): Memory {
    if d.answers.Some? && d.pairs.Some? && d.pairs.value != [] then Memory(d.answers.value, d.pairs.value)
    else Memory([], [])
  }

  function Ask(replies: (string, nat) -> Reply, qid: string, attempt: nat, maxRetries: int): Outcome
    decreases maxRetries - attempt
  {
    if attempt > maxRetries then (if attempt == 0 then NotAsked else GaveUp) else
      match replies(qid, attempt)
      case Answered(text) => Success(text)
      case OtherError => Raised
      case ApiError => Ask(replies, qid, attempt + 1, maxRetries)
  }

  function Grow(m: Memory, qid: string, text: string): Memory {
    var aid := |m.answers| + 1;
    Memory(m.answers + [Answer(aid, text)], m.pairs + [Pair(qid, aid)])
  }

  function SaveBoth(m: Memory): seq<Write> {
    [SaveAnswers(m.answers), SavePairs(m.pairs)]
  }

  function Qids(pairs: seq<Pair>): set<string> {
    set p | p in pairs :: p.qid
  }

  /** The writes of the remaining queries. `skip` is the set of query ids found processed when the run started. */
  function Writes(r: RunInput, i: nat, skip: set<string>, m: Memory): seq<Write>
    requires i <= |r.queries|
    decreases |r.queries| - i
  {
    if i == |r.queries| then []
    else if r.queries[i] in skip then Writes(r, i + 1, skip, m)
    else
      match Ask(r.replies, r.queries[i], 0, r.maxRetries)
      case Success(text) =>
        var m' := Grow(m, r.queries[i], text);
        SaveBoth(m') + Writes(r, i + 1, skip, m')
      case GaveUp => SaveBoth(m) + Writes(r, i + 1, skip, m)
      case NotAsked => Writes(r, i + 1, skip, m)
      case Raised => []
  }

  function Perform(d: Disk, w: Write): Disk {
    match w
    case SaveAnswers(rows) => d.(answers := Some(rows))
    case SavePairs(links) => d.(pairs := Some(links))
  }

  function PerformAll(d: Disk, ws: seq<Write>): Disk
    decreases ws
  {
    if ws == [] then d else PerformAll(Perform(d, ws[0]), ws[1..])
  }

  function Planned(d: Disk, r: RunInput): seq<Write> {
    Writes(r, 0, Qids(Load(d).pairs), Load(d))
  }

  predicate Dies(d: Disk, r: RunInput) {
    r.diesAfter.Some? && r.diesAfter.value < |Planned(d, r)|
  }

  /** The files after a run: all its writes, or those before its death. */
  function Run(d: Disk, r: RunInput): Disk {
    var ws := Planned(d, r);
    PerformAll(d, if Dies(d, r) then ws[..r.diesAfter.value] else ws)
  }

  lemma {:induction false} PerformSnoc(d: Disk, ws: seq<Write>, w: Write)
    ensures PerformAll(d, ws + [w]) == Perform(PerformAll(d, ws), w)
    decreases ws
  {
    if ws == [] {
      assert ws + [w] == [w] && [w][1..] == [];
    } else {
      assert (ws + [w])[1..] == ws[1..] + [w];
      PerformSnoc(Perform(d, ws[0]), ws[1..], w);
    }
  }

  // ----- the program

  class Store {
    var answersFile: Option<seq<Answer>>
    var pairsFile: Option<seq<Pair>>

    constructor ()
      ensures Files() == Disk(None, None)
    {
      answersFile, pairsFile := None, None;
    }

    function Files(): Disk
      reads this
    {
      Disk(answersFile, pairsFile)
    }

    /** One answer-generation run; `died` tells whether it was cut short by `r.diesAfter`. */
    method GenerateAnswers(r: RunInput) returns (died: bool)
      modifies this
      ensures Files() == Run(old(Files()), r)
      ensures died == Dies(old(Files()), r)
    {
      ghost var disk := Files();
      ghost var plan := Planned(disk, r);
      var mem := Load(Files());
      var answers, qaPairs := mem.answers, mem.pairs;
      var processed := Qids(qaPairs);
      var answerIdCounter := |answers| + 1;
      var saves := 0;
      hide PerformAll, Qids, Load, Ask;
      assert plan[..0] == [] && PerformAll(disk, []) == disk by { NoWrites(disk); }
      for i := 0 to |r.queries|
        invariant answerIdCounter == |answers| + 1
        invariant saves <= |plan|
        invariant r.diesAfter.Some? ==> saves <= r.diesAfter.value
        invariant Files() == PerformAll(disk, plan[..saves])
        invariant plan == plan[..saves] + Writes(r, i, processed, Memory(answers, qaPairs))
      {
        var qid := r.queries[i];
        if qid in processed {
          continue;
        }
        var retryCount := 0;
        var done := false;
        while retryCount <= r.maxRetries && !done
          invariant saves <= |plan|
          invariant !done ==> Ask(r.replies, qid, retryCount, r.maxRetries) == Ask(r.replies, qid, 0, r.maxRetries)
          invariant !done ==> retryCount <= r.maxRetries || (retryCount == 0 && r.maxRetries < 0)
          invariant !done ==> plan == plan[..saves] + Writes(r, i, processed, Memory(answers, qaPairs))
          invariant done ==> plan == plan[..saves] + Writes(r, i + 1, processed, Memory(answers, qaPairs))
          invariant answerIdCounter == |answers| + 1
          invariant r.diesAfter.Some? ==> saves <= r.diesAfter.value
          invariant Files() == PerformAll(disk, plan[..saves])
          decreases !done, r.maxRetries - retryCount
        {
          AskUnfolds(r.replies, qid, retryCount, r.maxRetries);
          match r.replies(qid, retryCount)
          case Answered(text) =>
            answers := answers + [Answer(answerIdCounter, text)];
            qaPairs := qaPairs + [Pair(qid, answerIdCounter)];
            answerIdCounter := answerIdCounter + 1;
            assert plan == plan[..saves] + (SaveBoth(Memory(answers, qaPairs))
              + Writes(r, i + 1, processed, Memory(answers, qaPairs)));
            TwoMore(disk, plan, saves, Memory(answers, qaPairs), Writes(r, i + 1, processed, Memory(answers, qaPairs)));
            if r.diesAfter == Some(saves) {
              return true;
            }
            answersFile := Some(answers);
            if r.diesAfter == Some(saves + 1) {
              return true;
            }
            pairsFile := Some(qaPairs);
            saves := saves + 2;
            done := true;
          case ApiError =>
            retryCount := retryCount + 1;
            if retryCount > r.maxRetries {
              assert plan == plan[..saves] + (SaveBoth(Memory(answers, qaPairs))
                + Writes(r, i + 1, processed, Memory(answers, qaPairs)));
              TwoMore(disk, plan, saves, Memory(answers, qaPairs), Writes(r, i + 1, processed, Memory(answers, qaPairs)));
              if r.diesAfter == Some(saves) {
                return true;
              }
              answersFile := Some(answers);
              if r.diesAfter == Some(saves + 1) {
                return true;
              }
              pairsFile := Some(qaPairs);
              saves := saves + 2;
              done := true;
            }
          case OtherError =>
            assert plan == plan[..saves] + [] == plan[..saves];
            return false;
        }
        if !done {
          AskNever(r.replies, qid, r.maxRetries);
        }
      }
      assert plan == plan[..saves] + [] == plan[..saves];
      died := false;
    }
  }

  lemma {:induction false} NoWrites(d: Disk)
    ensures PerformAll(d, []) == d
  {
  }

  lemma {:induction false} AskUnfolds(replies: (string, nat) -> Reply, qid: string, attempt: nat, maxRetries: int)
    requires attempt <= maxRetries
    ensures Ask(replies, qid, attempt, maxRetries) ==
      match replies(qid, attempt)
      case Answered(text) => Success(text)
      case OtherError => Raised
      case ApiError => if attempt + 1 > maxRetries then GaveUp else Ask(replies, qid, attempt + 1, maxRetries)
  {
  }

  lemma {:induction false} AskNever(replies: (string, nat) -> Reply, qid: string, maxRetries: int)
    requires maxRetries < 0
    ensures Ask(replies, qid, 0, maxRetries) == NotAsked
  {
  }

  lemma {:induction false} TwoMore(disk: Disk, plan: seq<Write>, saves: nat, m: Memory, rest: seq<Write>)
    requires saves <= |plan| && plan == plan[..saves] + (SaveBoth(m) + rest)
    ensures saves + 2 <= |plan| && plan == plan[..saves + 2] + rest
    ensures PerformAll(disk, plan[..saves + 1]) == Perform(PerformAll(disk, plan[..saves]), SaveAnswers(m.answers))
    ensures PerformAll(disk, plan[..saves + 2])
         == Perform(PerformAll(disk, plan[..saves + 1]), SavePairs(m.pairs))
  {
    assert plan[saves] == SaveAnswers(m.answers) && plan[saves + 1] == SavePairs(m.pairs);
    assert plan[..saves + 1] == plan[..saves] + [plan[saves]];
    assert plan[..saves + 2] == plan[..saves + 1] + [plan[saves + 1]];
    PerformSnoc(disk, plan[..saves], plan[saves]);
    PerformSnoc(disk, plan[..saves + 1], plan[saves + 1]);
  }

  // ----- what every run keeps

  ghost predicate Numbered(answers: seq<Answer>) {
    forall i :: 0 <= i < |answers| ==> answers[i].id == i + 1
  }

  /** Pairs name existing answers, no two share an answer or a query. */
  ghost predicate Linked(answers: seq<Answer>, pairs: seq<Pair>) {
    && (forall i :: 0 <= i < |pairs| ==> 1 <= pairs[i].aid <= |answers|)
    && (forall i, j :: 0 <= i < j < |pairs| ==> pairs[i].aid < pairs[j].aid && pairs[i].qid != pairs[j].qid)
  }

  ghost predicate Good(answers: seq<Answer>, pairs: seq<Pair>) {
    Numbered(answers) && Linked(answers, pairs)
  }

  ghost predicate Consistent(d: Disk) {
    Good(AnswersOn(d), PairsOn(d))
  }

  /** Answers on disk that no pair refers to. */
  function Orphans(d: Disk): int {
    |AnswersOn(d)| - |PairsOn(d)|
  }

  /** The answer a saved pair refers to. */
  function AnswerOf(d: Disk, k: nat): Answer
    requires Consistent(d) && k < |PairsOn(d)|
  {
    assert Linked(AnswersOn(d), PairsOn(d));
    AnswersOn(d)[PairsOn(d)[k].aid - 1]
  }

  /** Every pair saved in `d` is still there in `e`, at the same place, with the same answer. */
  ghost predicate Preserves(d: Disk, e: Disk)
    requires Consistent(d) && Consistent(e)
  {
    && PairsOn(d) <= PairsOn(e)
    && forall k :: 0 <= k < |PairsOn(d)| ==> AnswerOf(e, k) == AnswerOf(d, k)
  }

  /** Memory agrees with the files, except that a run that starts from nothing may find unpaired answers on disk. */
  ghost predicate Synced(d: Disk, m: Memory) {
    && Good(m.answers, m.pairs)
    && PairsOn(d) == m.pairs
    && (AnswersOn(d) == m.answers || (m == Memory([], []) && Numbered(AnswersOn(d))))
  }

  lemma {:induction false} LoadSynced(d: Disk)
    requires Consistent(d)
    ensures Synced(d, Load(d))
  {
    PairsFit(AnswersOn(d), PairsOn(d));
  }

  /** New queries are not yet paired in memory. */
  ghost predicate Fresh(r: RunInput, i: nat, skip: set<string>, m: Memory) {
    forall k, p :: i <= k < |r.queries| && p in m.pairs && r.queries[k] !in skip ==> p.qid != r.queries[k]
  }

  ghost predicate Distinct(queries: seq<string>) {
    forall i, j :: 0 <= i < j < |queries| ==> queries[i] != queries[j]
  }

  lemma {:induction false} GrowGood(r: RunInput, i: nat, skip: set<string>, m: Memory, text: string)
    requires i < |r.queries| && Distinct(r.queries) && r.queries[i] !in skip
    requires Good(m.answers, m.pairs) && Fresh(r, i, skip, m)
    ensures var m' := Grow(m, r.queries[i], text);
      Good(m'.answers, m'.pairs) && Fresh(r, i + 1, skip, m')
  {
    var m' := Grow(m, r.queries[i], text);
    var n := |m.pairs|;
    forall a | 0 <= a < n ensures m'.pairs[a].qid != m'.pairs[n].qid {
      assert m'.pairs[a] == m.pairs[a] && m.pairs[a] in m.pairs;
    }
    forall k, p | i + 1 <= k < |r.queries| && p in m'.pairs && r.queries[k] !in skip
      ensures p.qid != r.queries[k]
    {
      if p !in m.pairs {
        assert p == m'.pairs[n];
      }
    }
  }

  /** `m'` is `m` or `m` with one more answer and its pair. */
  ghost predicate Extends(m: Memory, m': Memory) {
    && Good(m'.answers, m'.pairs)
    && (m' == m || (|m'.answers| == |m.answers| + 1 && |m'.pairs| == |m.pairs| + 1))
    && m.answers <= m'.answers && m.pairs <= m'.pairs
  }

  /** Saving grown or unchanged lists: the state between the two writes ... */
  lemma {:induction false} HalfSaved(d: Disk, m: Memory, m': Memory)
    requires Consistent(d) && Synced(d, m) && Extends(m, m')
    ensures var half := Perform(d, SaveAnswers(m'.answers));
      Consistent(half) && Preserves(d, half) && Orphans(half) <= Orphans(d) + 1
  {
  }

  /** ... and the state after them. */
  lemma {:induction false} SaveKeeps(d: Disk, m: Memory, m': Memory)
    requires Consistent(d) && Synced(d, m) && Extends(m, m')
    ensures var full := Perform(Perform(d, SaveAnswers(m'.answers)), SavePairs(m'.pairs));
      Consistent(full) && Preserves(d, full) && Orphans(full) <= Orphans(d) && Synced(full, m')
  {
    var full := Perform(Perform(d, SaveAnswers(m'.answers)), SavePairs(m'.pairs));
    assert Consistent(full);
    hide Numbered;
  }

  /** Every prefix of a run's writes leaves consistent files, and costs at most one orphan, none if it is the whole run. */
  lemma {:induction false} WritesKeep(d: Disk, r: RunInput, i: nat, skip: set<string>, m: Memory, n: nat)
    requires i <= |r.queries| && Distinct(r.queries)
    requires Consistent(d) && Synced(d, m) && Fresh(r, i, skip, m)
    requires n <= |Writes(r, i, skip, m)|
    ensures var ws := Writes(r, i, skip, m);
      var e := PerformAll(d, ws[..n]);
      && Consistent(e) && Preserves(d, e)
      && Orphans(e) <= Orphans(d) + (if n < |ws| then 1 else 0)
    decreases |r.queries| - i
  {
    hide Consistent, Preserves, Orphans, Synced, PerformAll, Perform, SaveBoth, Ask, Grow;
    var ws := Writes(r, i, skip, m);
    if i == |r.queries| || (AskOf(r, i) == Raised && r.queries[i] !in skip) {
      NothingWritten(d);
    } else if r.queries[i] in skip || AskOf(r, i) == NotAsked {
      WritesKeep(d, r, i + 1, skip, m, n);
    } else {
      var m' := if AskOf(r, i).Success? then Grow(m, r.queries[i], AskOf(r, i).text) else m;
      NextMemory(d, r, i, skip, m, m');
      SaveKeeps(d, m, m');
      var rest := Writes(r, i + 1, skip, m');
      SaveBothTwo(m');
      if n >= 2 {
        WritesKeep(Perform(Perform(d, SaveAnswers(m'.answers)), SavePairs(m'.pairs)), r, i + 1, skip, m', n - 2);
      }
      KeptSoFar(d, m, m', rest, n);
    }
  }

  /** The same promise after one pair of writes, given that it holds for the writes that follow them. */
  lemma {:induction false} KeptSoFar(d: Disk, m: Memory, m': Memory, rest: seq<Write>, n: nat)
    requires Consistent(d) && Synced(d, m) && Extends(m, m') && n <= |rest| + 2
    requires n >= 2 ==>
      var full := Perform(Perform(d, SaveAnswers(m'.answers)), SavePairs(m'.pairs));
      var e := PerformAll(full, rest[..n - 2]);
      Consistent(e) && Preserves(full, e) && Orphans(e) <= Orphans(full) + (if n - 2 < |rest| then 1 else 0)
    ensures var ws := SaveBoth(m') + rest;
      && n <= |ws|
      && var e := PerformAll(d, ws[..n]);
      && Consistent(e) && Preserves(d, e)
      && Orphans(e) <= Orphans(d) + (if n < |ws| then 1 else 0)
  {
    HalfSaved(d, m, m');
    SaveKeeps(d, m, m');
    TwoWrites(d, m', rest, n);
    SaveBothTwo(m');
    if n == 0 {
      NothingWritten(d);
    }
    hide Consistent, Preserves, Orphans, Synced, PerformAll, Perform, SaveBoth, Extends;
    if n >= 2 {
      var full := Perform(Perform(d, SaveAnswers(m'.answers)), SavePairs(m'.pairs));
    }
  }

  lemma SaveBothTwo(m: Memory)
    ensures |SaveBoth(m)| == 2
  {
  }

  lemma NothingWritten(d: Disk)
    requires Consistent(d)
    ensures PerformAll(d, []) == d && Preserves(d, d)
  {
  }

  lemma {:induction false} NextMemory(d: Disk, r: RunInput, i: nat, skip: set<string>, m: Memory, m': Memory)
    requires i < |r.queries| && Distinct(r.queries) && r.queries[i] !in skip
    requires Synced(d, m) && Fresh(r, i, skip, m)
    requires m' == m || exists text :: m' == Grow(m, r.queries[i], text)
    ensures Extends(m, m') && Fresh(r, i + 1, skip, m')
  {
    if m' != m {
      var text :| m' == Grow(m, r.queries[i], text);
      GrowGood(r, i, skip, m, text);
    }
  }

  lemma {:induction false} TwoWrites(d: Disk, m: Memory, rest: seq<Write>, n: nat)
    requires n <= |rest| + 2
    ensures var ws := SaveBoth(m) + rest;
      var half := Perform(d, SaveAnswers(m.answers));
      var full := Perform(half, SavePairs(m.pairs));
      PerformAll(d, ws[..n]) == if n == 0 then d else if n == 1 then half else PerformAll(full, rest[..n - 2])
  {
    var ws := SaveBoth(m) + rest;
    var half := Perform(d, SaveAnswers(m.answers));
    if n == 1 {
      assert ws[..1] == [ws[0]] && [ws[0]][1..] == [];
    } else if n >= 2 {
      assert ws[..n][1..][1..] == rest[..n - 2];
      assert ws[..n][1..][0] == ws[1];
      assert PerformAll(d, ws[..n]) == PerformAll(half, ws[..n][1..]);
    }
  }

  /** One run, cut short or not. */
  lemma {:induction false} RunKeeps(d: Disk, r: RunInput)
    requires Consistent(d) && Distinct(r.queries)
    ensures Consistent(Run(d, r)) && Preserves(d, Run(d, r))
    ensures Orphans(Run(d, r)) <= Orphans(d) + (if Dies(d, r) then 1 else 0)
  {
    LoadSynced(d);
    var ws := Planned(d, r);
    assert ws[..|ws|] == ws;
    forall k, p | 0 <= k < |r.queries| && p in Load(d).pairs && r.queries[k] !in Qids(Load(d).pairs)
      ensures p.qid != r.queries[k]
    {
      assert p.qid in Qids(Load(d).pairs);
    }
    WritesKeep(d, r, 0, Qids(Load(d).pairs), Load(d), if Dies(d, r) then r.diesAfter.value else |ws|);
  }

  // ----- a run that is not cut short answers what can be answered

  /** Some saved pair links `qid` to an answer with this text. */
  ghost predicate Holds(d: Disk, qid: string, text: string)
    requires Consistent(d)
  {
    exists k :: 0 <= k < |PairsOn(d)| && PairsOn(d)[k].qid == qid && AnswerOf(d, k).text == text
  }

  function AskOf(r: RunInput, k: nat): Outcome
    requires k < |r.queries|
  {
    Ask(r.replies, r.queries[k], 0, r.maxRetries)
  }

  /** No remaining query fails with an unexpected error. */
  ghost predicate NoRaise(r: RunInput, i: nat, skip: set<string>) {
    forall k :: i <= k < |r.queries| && r.queries[k] !in skip ==> AskOf(r, k) != Raised
  }

  /** Memory after query `i`. */
  function After(r: RunInput, i: nat, skip: set<string>, m: Memory): Memory
    requires i < |r.queries|
  {
    if r.queries[i] !in skip && AskOf(r, i).Success? then Grow(m, r.queries[i], AskOf(r, i).text) else m
  }

  /** ... and the files. */
  function FilesAfter(d: Disk, r: RunInput, i: nat, skip: set<string>, m: Memory): Disk
    requires i < |r.queries|
  {
    var m' := After(r, i, skip, m);
    if r.queries[i] in skip || AskOf(r, i) == NotAsked then d
    else Perform(Perform(d, SaveAnswers(m'.answers)), SavePairs(m'.pairs))
  }

  lemma {:induction false} AfterQuery(d: Disk, r: RunInput, i: nat, skip: set<string>, m: Memory)
    requires i < |r.queries| && Distinct(r.queries) && NoRaise(r, i, skip)
    requires Consistent(d) && Synced(d, m) && Fresh(r, i, skip, m)
    ensures var m', d' := After(r, i, skip, m), FilesAfter(d, r, i, skip, m);
      && Consistent(d') && Synced(d', m') && Fresh(r, i + 1, skip, m') && NoRaise(r, i + 1, skip)
      && PerformAll(d, Writes(r, i, skip, m)) == PerformAll(d', Writes(r, i + 1, skip, m'))
      && Preserves(d, d')
  {
    hide Ask;
    if r.queries[i] !in skip && AskOf(r, i) != NotAsked {
      var m' := After(r, i, skip, m);
      if AskOf(r, i).Success? {
        GrowGood(r, i, skip, m, AskOf(r, i).text);
      }
      SaveKeeps(d, m, m');
    }
  }

  lemma {:induction false} WritesPreserve(d: Disk, r: RunInput, i: nat, skip: set<string>, m: Memory)
    requires i <= |r.queries| && Distinct(r.queries)
    requires Consistent(d) && Synced(d, m) && Fresh(r, i, skip, m)
    ensures var e := PerformAll(d, Writes(r, i, skip, m)); Consistent(e) && Preserves(d, e)
  {
    var ws := Writes(r, i, skip, m);
    assert ws[..|ws|] == ws;
    WritesKeep(d, r, i, skip, m, |ws|);
  }

  lemma {:induction false} WritesAnswer(d: Disk, r: RunInput, i: nat, skip: set<string>, m: Memory, k: nat)
    requires i <= k < |r.queries| && Distinct(r.queries) && NoRaise(r, i, skip)
    requires Consistent(d) && Synced(d, m) && Fresh(r, i, skip, m)
    requires r.queries[k] !in skip && AskOf(r, k).Success?
    ensures var e := PerformAll(d, Writes(r, i, skip, m));
      Consistent(e) && Holds(e, r.queries[k], AskOf(r, k).text)
    decreases |r.queries| - i
  {
    hide Writes, PerformAll, AskOf, Consistent, Synced, Fresh, NoRaise;
    var m', d' := After(r, i, skip, m), FilesAfter(d, r, i, skip, m);
    AfterQuery(d, r, i, skip, m);
    if k == i {
      AnswerStored(d, r, i, skip, m);
      WritesPreserve(d', r, i + 1, skip, m');
    } else {
      WritesAnswer(d', r, i + 1, skip, m', k);
    }
  }

  lemma {:induction false} AnswerStored(d: Disk, r: RunInput, i: nat, skip: set<string>, m: Memory)
    requires i < |r.queries| && r.queries[i] !in skip && AskOf(r, i).Success?
    requires Consistent(FilesAfter(d, r, i, skip, m))
    ensures Holds(FilesAfter(d, r, i, skip, m), r.queries[i], AskOf(r, i).text)
  {
    hide Ask;
    var e := FilesAfter(d, r, i, skip, m);
    var n := |m.pairs|;
    assert PairsOn(e)[n].qid == r.queries[i] && AnswerOf(e, n).text == AskOf(r, i).text;
  }

  lemma {:induction false} WritesOnly(d: Disk, r: RunInput, i: nat, skip: set<string>, m: Memory, p: Pair)
    requires i <= |r.queries| && Distinct(r.queries) && NoRaise(r, i, skip)
    requires Consistent(d) && Synced(d, m) && Fresh(r, i, skip, m)
    requires p in PairsOn(PerformAll(d, Writes(r, i, skip, m)))
    ensures p in m.pairs || exists k :: i <= k < |r.queries| && r.queries[k] == p.qid && AskOf(r, k).Success?
    decreases |r.queries| - i
  {
    hide AskOf, Consistent, Fresh, NoRaise;
    if i < |r.queries| {
      hide Writes, PerformAll;
      var m', d' := After(r, i, skip, m), FilesAfter(d, r, i, skip, m);
      AfterQuery(d, r, i, skip, m);
      WritesOnly(d', r, i + 1, skip, m', p);
      hide Synced;
      if p in m'.pairs && p !in m.pairs {
        assert r.queries[i] == p.qid && AskOf(r, i).Success?;
      }
    }
  }

  /**
   * A run that does not die and meets no unexpected error pairs exactly the answerable queries that were not paired
   * before, each with the model's reply.
   */
  lemma {:induction false} RunCompletes(d: Disk, r: RunInput, k: nat)
    requires Consistent(d) && Distinct(r.queries) && !Dies(d, r)
    requires NoRaise(r, 0, Qids(PairsOn(d))) && k < |r.queries|
    ensures var e := Run(d, r);
      && Consistent(e)
      && (r.queries[k] !in Qids(PairsOn(d)) && AskOf(r, k).Success? ==> Holds(e, r.queries[k], AskOf(r, k).text))
      && (r.queries[k] in Qids(PairsOn(e)) <==> r.queries[k] in Qids(PairsOn(d)) || AskOf(r, k).Success?)
  {
    LoadSynced(d);
    var m, e, q := Load(d), Run(d, r), r.queries[k];
    forall n, p | 0 <= n < |r.queries| && p in m.pairs && r.queries[n] !in Qids(m.pairs) ensures p.qid != r.queries[n] {
      assert p.qid in Qids(m.pairs);
    }
    hide Writes, PerformAll, Load, AskOf;
    WritesPreserve(d, r, 0, Qids(m.pairs), m);
    if q in Qids(m.pairs) {
      var p :| p in PairsOn(d) && p.qid == q;
      assert p in PairsOn(e);
    } else if AskOf(r, k).Success? {
      WritesAnswer(d, r, 0, Qids(m.pairs), m, k);
      var n :| 0 <= n < |PairsOn(e)| && PairsOn(e)[n].qid == q;
      assert PairsOn(e)[n] in PairsOn(e);
    } else if q in Qids(PairsOn(e)) {
      var p :| p in PairsOn(e) && p.qid == q;
      WritesOnly(d, r, 0, Qids(m.pairs), m, p);
    }
  }

  // ----- an unexpected error

  /** The same run over the first `n` queries only. */
  function FirstQueries(r: RunInput, n: nat): RunInput
    requires n <= |r.queries|
  {
    r.(queries := r.queries[..n])
  }

  /** Query `n` is the first of the unpaired ones that fails unexpectedly. */
  ghost predicate FirstFailure(r: RunInput, skip: set<string>, n: nat) {
    && n < |r.queries| && r.queries[n] !in skip && AskOf(r, n) == Raised
    && NoRaise(FirstQueries(r, n), 0, skip)
  }

  lemma {:induction false} WritesStop(r: RunInput, i: nat, skip: set<string>, m: Memory, n: nat)
    requires i <= n && FirstFailure(r, skip, n)
    ensures Writes(r, i, skip, m) == Writes(FirstQueries(r, n), i, skip, m)
    decreases n - i
  {
    hide Ask, SaveBoth, Grow;
    if i < n {
      assert FirstQueries(r, n).queries[i] == r.queries[i] && AskOf(FirstQueries(r, n), i) == AskOf(r, i);
      WritesStop(r, i + 1, skip, After(r, i, skip, m), n);
    }
  }

  /**
   * The first unpaired query that fails unexpectedly ends the run: the files, cut short or not, are those of the run
   * over the queries before it.
   */
  lemma {:induction false} FailureStopsRun(d: Disk, r: RunInput, n: nat)
    requires FirstFailure(r, Qids(Load(d).pairs), n)
    ensures Run(d, r) == Run(d, FirstQueries(r, n)) && Dies(d, r) == Dies(d, FirstQueries(r, n))
  {
    WritesStop(r, 0, Qids(Load(d).pairs), Load(d), n);
    hide Writes, PerformAll, Load;
  }

  /** Such a run, when it does not die, has paired the answerable queries before that one and none of the others. */
  lemma {:induction false} FailedRunCompletes(d: Disk, r: RunInput, n: nat, k: nat)
    requires Consistent(d) && Distinct(r.queries) && !Dies(d, r)
    requires FirstFailure(r, Qids(PairsOn(d)), n) && k < |r.queries|
    ensures var e := Run(d, r);
      && Consistent(e)
      && (k < n && r.queries[k] !in Qids(PairsOn(d)) && AskOf(r, k).Success? ==> Holds(e, r.queries[k], AskOf(r, k).text))
      && (r.queries[k] in Qids(PairsOn(e)) <==> r.queries[k] in Qids(PairsOn(d)) || (k < n && AskOf(r, k).Success?))
  {
    var r', q := FirstQueries(r, n), r.queries[k];
    LoadSynced(d);
    FailureStopsRun(d, r, n);
    RunKeeps(d, r');
    if k < n {
      assert r'.queries[k] == q && AskOf(r', k) == AskOf(r, k);
      RunCompletes(d, r', k);
    } else {
      LaterUnpaired(d, r', q);
    }
  }

  /** A query that is not among a run's own is paired by it only if it was before. */
  lemma LaterUnpaired(d: Disk, r: RunInput, q: string)
    requires Consistent(d) && Distinct(r.queries) && !Dies(d, r) && NoRaise(r, 0, Qids(PairsOn(d)))
    requires q !in r.queries
    ensures q in Qids(PairsOn(Run(d, r))) <==> q in Qids(PairsOn(d))
  {
    LoadSynced(d);
    var m, e := Load(d), Run(d, r);
    forall n, p | 0 <= n < |r.queries| && p in m.pairs && r.queries[n] !in Qids(m.pairs) ensures p.qid != r.queries[n] {
      assert p.qid in Qids(m.pairs);
    }
    hide Writes, PerformAll, Load, AskOf;
    WritesPreserve(d, r, 0, Qids(m.pairs), m);
    if q in Qids(PairsOn(d)) {
      var p :| p in PairsOn(d) && p.qid == q;
      assert p in PairsOn(e);
    } else if q in Qids(PairsOn(e)) {
      var p :| p in PairsOn(e) && p.qid == q;
      WritesOnly(d, r, 0, Qids(m.pairs), m, p);
    }
  }

  // ----- what asking comes to

  /** The replies before attempt `a` are service errors. */
  predicate OnlyErrors(replies: (string, nat) -> Reply, qid: string, a: nat) {
    forall b: nat :: b < a ==> replies(qid, b) == ApiError
  }

  /** The first reply that is no service error decides, if it comes within the attempts allowed. */
  lemma {:induction false} AskDecided(replies: (string, nat) -> Reply, qid: string, a: nat, maxRetries: int)
    requires a <= maxRetries && OnlyErrors(replies, qid, a) && replies(qid, a) != ApiError
    ensures Ask(replies, qid, 0, maxRetries)
         == match replies(qid, a) case Answered(text) => Success(text) case _ => Raised
  {
    AskSkips(replies, qid, a, maxRetries);
  }

  /** With service errors alone the query is given up; with no attempt allowed it is not asked. */
  lemma {:induction false} AskExhausted(replies: (string, nat) -> Reply, qid: string, maxRetries: int)
    requires maxRetries >= 0 ==> OnlyErrors(replies, qid, maxRetries + 1)
    ensures Ask(replies, qid, 0, maxRetries) == if maxRetries >= 0 then GaveUp else NotAsked
  {
    if maxRetries >= 0 {
      AskSkips(replies, qid, maxRetries, maxRetries);
      assert replies(qid, maxRetries) == ApiError;
    }
  }

  lemma {:induction false} AskSkips(replies: (string, nat) -> Reply, qid: string, a: nat, maxRetries: int)
    requires a <= maxRetries && OnlyErrors(replies, qid, a)
    ensures Ask(replies, qid, 0, maxRetries) == Ask(replies, qid, a, maxRetries)
  {
    if a > 0 {
      AskSkips(replies, qid, a - 1, maxRetries);
      assert replies(qid, a - 1) == ApiError;
    }
  }

  // ----- any number of runs

  function RunAll(d: Disk, runs: seq<RunInput>): Disk
    decreases runs
  {
    if runs == [] then d else RunAll(Run(d, runs[0]), runs[1..])
  }

  function Deaths(d: Disk, runs: seq<RunInput>): nat
    decreases runs
  {
    if runs == [] then 0 else (if Dies(d, runs[0]) then 1 else 0) + Deaths(Run(d, runs[0]), runs[1..])
  }

  /** Deaths are counted run by run, each in view of the files it started from. */
  lemma {:induction false} DeathsSnoc(d: Disk, runs: seq<RunInput>, r: RunInput)
    ensures Deaths(d, []) == 0
    ensures Deaths(d, runs + [r]) == Deaths(d, runs) + if Dies(RunAll(d, runs), r) then 1 else 0
    decreases runs
  {
    hide Run, Dies;
    if runs == [] {
      assert runs + [r] == [r] && [r][1..] == [];
    } else {
      assert (runs + [r])[1..] == runs[1..] + [r];
      DeathsSnoc(Run(d, runs[0]), runs[1..], r);
    }
  }

  /** Whatever the runs and wherever they die: files stay consistent, saved pairs stay, orphans are bounded by the deaths. */
  lemma {:induction false} RunsKeep(d: Disk, runs: seq<RunInput>)
    requires Consistent(d)
    requires forall r :: r in runs ==> Distinct(r.queries)
    ensures var e := RunAll(d, runs);
      Consistent(e) && Preserves(d, e) && Orphans(e) <= Orphans(d) + Deaths(d, runs)
    decreases runs
  {
    if runs != [] {
      hide Run, Dies;
      assert runs[0] in runs;
      RunKeeps(d, runs[0]);
      RunsKeep(Run(d, runs[0]), runs[1..]);
    }
  }

  lemma {:induction false} RunAllSplits(d: Disk, runs: seq<RunInput>, k: nat)
    requires k <= |runs|
    ensures RunAll(d, runs) == RunAll(RunAll(d, runs[..k]), runs[k..])
    decreases runs
  {
    hide Run;
    if k > 0 {
      RunAllSplits(Run(d, runs[0]), runs[1..], k - 1);
      assert runs[..k][1..] == runs[1..][..k - 1] && runs[1..][k - 1..] == runs[k..];
    } else {
      assert runs[0..] == runs;
    }
  }

  /** From an empty directory: what holds after any history, and what was saved after its first `k` runs survives. */
  lemma {:induction false} AnyHistoryIsSafe(runs: seq<RunInput>, k: nat)
    requires forall r :: r in runs ==> Distinct(r.queries)
    requires k <= |runs|
    ensures var empty := Disk(None, None);
      var mid, end := RunAll(empty, runs[..k]), RunAll(empty, runs);
      && Consistent(mid) && Consistent(end) && Preserves(mid, end)
      && 0 <= Orphans(end) <= Deaths(empty, runs)
  {
    var empty := Disk(None, None);
    RunsKeep(empty, runs);
    RunsKeep(empty, runs[..k]);
    RunsKeep(RunAll(empty, runs[..k]), runs[k..]);
    RunAllSplits(empty, runs, k);
    PairsFit(AnswersOn(RunAll(empty, runs)), PairsOn(RunAll(empty, runs)));
  }

  /** Distinct answer numbers: there are at least as many answers as pairs. */
  lemma {:induction false} PairsFit(answers: seq<Answer>, pairs: seq<Pair>)
    requires Linked(answers, pairs)
    ensures |pairs| <= |answers|
  {
    for i := 0 to |pairs|
      invariant i > 0 ==> pairs[i - 1].aid >= i
    {
    }
  }

  // ----- answers no pair refers to

  /** Every list of answers a run writes begins with the answers it started from. */
  lemma {:induction false} WritesExtend(r: RunInput, i: nat, skip: set<string>, m: Memory)
    requires i <= |r.queries|
    ensures forall w :: w in Writes(r, i, skip, m) && w.SaveAnswers? ==> m.answers <= w.rows
    decreases |r.queries| - i
  {
    if i < |r.queries| && r.queries[i] !in skip {
      hide Ask;
      match AskOf(r, i)
      case Success(text) => WritesExtend(r, i + 1, skip, Grow(m, r.queries[i], text));
      case Raised =>
      case _ => WritesExtend(r, i + 1, skip, m);
    } else if i < |r.queries| {
      WritesExtend(r, i + 1, skip, m);
    }
  }

  lemma {:induction false} PerformExtends(d: Disk, ws: seq<Write>, base: seq<Answer>)
    requires base <= AnswersOn(d)
    requires forall w :: w in ws && w.SaveAnswers? ==> base <= w.rows
    ensures base <= AnswersOn(PerformAll(d, ws))
    decreases ws
  {
    if ws != [] {
      assert ws[0] in ws;
      PerformExtends(Perform(d, ws[0]), ws[1..], base);
    }
  }

  /** Once a pair is saved, no saved answer is lost, paired or not. */
  lemma {:induction false} PairedKeepsAnswers(d: Disk, r: RunInput)
    requires Consistent(d) && PairsOn(d) != []
    ensures AnswersOn(d) <= AnswersOn(Run(d, r))
  {
    var ws := Planned(d, r);
    WritesExtend(r, 0, Qids(Load(d).pairs), Load(d));
    assert 1 <= PairsOn(d)[0].aid <= |AnswersOn(d)|;
    PerformExtends(d, if Dies(d, r) then ws[..r.diesAfter.value] else ws, AnswersOn(d));
  }

  /** A run whose one query is never answered. */
  function Unanswered(qid: string): RunInput {
    RunInput([qid], (q: string, attempt: nat) => ApiError, 0, None)
  }

  /** Starting from nothing, such a run still writes its empty lists. */
  lemma {:induction false} GivingUpWritesNothing(d: Disk, qid: string)
    requires PairsOn(d) == []
    ensures Run(d, Unanswered(qid)) == Disk(Some([]), Some([]))
  {
    var r := Unanswered(qid);
    assert Load(d) == Memory([], []) && Qids([]) == {};
    assert Ask(r.replies, qid, 1, 0) == GaveUp;
    assert Ask(r.replies, qid, 0, 0) == GaveUp;
    assert Writes(r, 1, {}, Memory([], [])) == [];
    assert Writes(r, 0, {}, Memory([], [])) == [SaveAnswers([]), SavePairs([])];
    assert [SaveAnswers([]), SavePairs([])][1..] == [SavePairs([])] && [SavePairs([])][1..] == [];
    assert PerformAll(Perform(d, SaveAnswers([])), [SavePairs([])]) == Disk(Some([]), Some([]));
  }

  /** No run loses an answer from these files exactly when there is none or some pair is saved. */
  lemma {:induction false} AnswersSurviveIff(d: Disk)
    requires Consistent(d)
    ensures (forall r: RunInput | Distinct(r.queries) :: AnswersOn(d) <= AnswersOn(Run(d, r)))
       <==> AnswersOn(d) == [] || PairsOn(d) != []
  {
    hide Run;
    if PairsOn(d) != [] {
      forall r: RunInput | Distinct(r.queries) ensures AnswersOn(d) <= AnswersOn(Run(d, r)) {
        PairedKeepsAnswers(d, r);
      }
    } else if AnswersOn(d) != [] {
      GivingUpWritesNothing(d, "q");
      assert Distinct(Unanswered("q").queries);
      assert AnswersOn(Run(d, Unanswered("q"))) == [];
    }
  }

  /** A run that dies between its first two writes, and one that gives up: the first run's answer is gone. */
  lemma {:induction false} AnswerCanBeErased(qid: string, text: string)
    ensures var first := RunInput([qid], (q: string, attempt: nat) => Answered(text), 0, Some(1));
      && Run(Disk(None, None), first) == Disk(Some([Answer(1, text)]), None)
      && Run(Run(Disk(None, None), first), Unanswered(qid)) == Disk(Some([]), Some([]))
  {
    var first := RunInput([qid], (q: string, attempt: nat) => Answered(text), 0, Some(1));
    var m := Memory([Answer(1, text)], [Pair(qid, 1)]);
    assert Ask(first.replies, qid, 0, 0) == Success(text);
    assert Grow(Memory([], []), qid, text) == m;
    assert Writes(first, 1, {}, m) == [];
    assert Writes(first, 0, {}, Memory([], [])) == [SaveAnswers(m.answers), SavePairs(m.pairs)];
    assert Load(Disk(None, None)) == Memory([], []) && Qids([]) == {};
    assert Planned(Disk(None, None), first) == [SaveAnswers(m.answers), SavePairs(m.pairs)];
    assert [SaveAnswers(m.answers), SavePairs(m.pairs)][..1] == [SaveAnswers(m.answers)];
    assert [SaveAnswers(m.answers)][1..] == [];
    assert PerformAll(Disk(None, None), [SaveAnswers(m.answers)]) == Disk(Some([Answer(1, text)]), None);
    GivingUpWritesNothing(Run(Disk(None, None), first), qid);
  }
}
