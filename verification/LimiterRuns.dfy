/** Threads over whole runs. */
module LimiterRuns {
  import opened Options
  import opened Limiter

  // ----- exceptions

  function ThreadOf(s: State, i: nat): Thread {
    if i < |s.threads| then s.threads[i] else Thread([], false)
  }

  /** How many frames lie above the innermost `Catch`; all of them when there is none. */
  function Above(stack: seq<Frame>): (n: nat)
    ensures n <= |stack|
    ensures forall k :: 0 <= k < n ==> !stack[k].Catch?
    ensures n < |stack| ==> stack[n].Catch?
  {
    if stack == [] || stack[0].Catch? then 0 else 1 + Above(stack[1..])
  }

  predicate OneMore(s: State, s': State, name: string) {
    name in s.limiters && name in s'.limiters && s'.limiters[name].free == s.limiters[name].free + 1
  }

  ghost predicate NoneMore(s: State, s': State) {
    !exists name :: OneMore(s, s', name)
  }

  /** How often thread `i`, moving, put a permit of `name` back, from state `j` of the run to state `k`. */
  function GivenBack(run: seq<State>, i: nat, name: string, j: nat, k: nat): nat
    requires k < |run|
  {
    if k <= j then 0
    else
      var moved := ThreadOf(run[k], i) != ThreadOf(run[k - 1], i);
      GivenBack(run, i, name, j, k - 1) + if moved && OneMore(run[k - 1], run[k], name) then 1 else 0
  }

  /**
   * At `k` the thread that raised at `j` is still raising; it has lost frames from the front of its stack, none of
   * them a `Catch`, and has given back the permits of the lost `Release` frames and no other.
   */
  ghost predicate Unwound(run: seq<State>, i: nat, j: nat, k: nat)
    requires j <= k < |run|
  {
    var was, now := ThreadOf(run[j], i).stack, ThreadOf(run[k], i).stack;
    var gone := |was| - |now|;
    && 0 <= gone <= Above(was)
    && ThreadOf(run[k], i) == Thread(was[gone..], true)
    && forall name :: GivenBack(run, i, name, j, k) == HeldBy(was[..gone], name)
  }

  /** One step of a raising thread. */
  lemma RaisingStep(s: State, i: nat, choice: bool)
    requires Inv(s) && Enabled(s, i) && s.threads[i].raising
    ensures var f, rest, s' := s.threads[i].stack[0], s.threads[i].stack[1..], Step(s, i, choice);
      && ThreadOf(s', i) == (if f.Catch? then Thread([Exec(f.handler)] + rest, false) else Thread(rest, true))
      && forall name :: OneMore(s, s', name) <==> f == Release(name)
  {
    var f := s.threads[i].stack[0];
    assert WellFormed(s.threads[i]) && ThreadKnown(s.threads[i], s.limiters) && FrameKnown(f, s.limiters);
    if f.Release? {
      ReleaseFits(s, i, f.name);
    }
    hide Inv, Balanced, LockHeld, Holders, HeldBy;
  }

  /** A raising thread waits for nothing. */
  lemma RaisingMoves(s: State, i: nat)
    requires Inv(s) && i < |s.threads| && s.threads[i].raising && s.threads[i].stack != []
    ensures Enabled(s, i)
  {
    assert WellFormed(s.threads[i]) && ThreadKnown(s.threads[i], s.limiters);
    assert FrameKnown(s.threads[i].stack[0], s.limiters);
  }

  lemma OthersStay(s: State, m: nat, choice: bool, i: nat)
    requires Enabled(s, m) && m != i
    ensures ThreadOf(Step(s, m, choice), i) == ThreadOf(s, i)
  {
    StepPushes(s, m, choice);
    hide Step, Pushed;
  }

  /** The thread has come to its innermost `Catch` and goes on with that handler, with what stood below. */
  ghost predicate Caught(run: seq<State>, i: nat, j: nat, k: nat)
    requires j < k < |run|
  {
    var was := ThreadOf(run[j], i).stack;
    var n := Above(was);
    && n < |was|
    && Unwound(run, i, j, k - 1) && ThreadOf(run[k - 1], i).stack == was[n..]
    && ThreadOf(run[k], i) == Thread([Exec(was[n].handler)] + was[n + 1..], false)
    && forall name :: GivenBack(run, i, name, j, k) == HeldBy(was[..n], name)
  }

  lemma UnwoundStart(run: seq<State>, i: nat, j: nat)
    requires j < |run| && ThreadOf(run[j], i).raising
    ensures Unwound(run, i, j, j)
  {
    var was := ThreadOf(run[j], i).stack;
    assert was[0..] == was && was[..0] == [];
  }

  lemma UnwoundIdle(run: seq<State>, i: nat, j: nat, k: nat)
    requires j < k < |run| && Unwound(run, i, j, k - 1)
    requires ThreadOf(run[k], i) == ThreadOf(run[k - 1], i)
    ensures Unwound(run, i, j, k)
  {
    hide ThreadOf, OneMore, HeldBy;
  }

  lemma HeldByOneMore(stack: seq<Frame>, k: nat, name: string)
    requires k < |stack|
    ensures HeldBy(stack[..k + 1], name) == HeldBy(stack[..k], name) + if stack[k] == Release(name) then 1 else 0
  {
    assert stack[..k + 1] == stack[..k] + [stack[k]];
    HeldByAppend(stack[..k], [stack[k]], name);
    HeldByFront([stack[k]], name);
  }

  /** The frame taken off is the next one of the stack the thread raised with. */
  lemma UnwoundFront(run: seq<State>, i: nat, j: nat, k: nat) returns (gone: nat)
    requires j <= k < |run| && Unwound(run, i, j, k) && ThreadOf(run[k], i).stack != []
    ensures var was, now := ThreadOf(run[j], i).stack, ThreadOf(run[k], i).stack;
      && gone <= Above(was) && gone < |was| && now == was[gone..]
      && now[0] == was[gone] && now[1..] == was[gone + 1..]
      && (gone == Above(was) <==> was[gone].Catch?)
      && forall name :: GivenBack(run, i, name, j, k) == HeldBy(was[..gone], name)
  {
    hide ThreadOf, GivenBack, HeldBy;
    var was, now := ThreadOf(run[j], i).stack, ThreadOf(run[k], i).stack;
    gone := |was| - |now|;
    assert now == was[gone..];
  }

  lemma UnwoundPop(run: seq<State>, i: nat, j: nat, k: nat)
    requires j < k < |run| && Unwound(run, i, j, k - 1) && ThreadOf(run[k - 1], i).stack != []
    requires var now := ThreadOf(run[k - 1], i).stack;
      && !now[0].Catch? && ThreadOf(run[k], i) == Thread(now[1..], true)
      && forall name :: OneMore(run[k - 1], run[k], name) <==> now[0] == Release(name)
    ensures Unwound(run, i, j, k)
  {
    var gone := UnwoundFront(run, i, j, k - 1);
    hide ThreadOf, HeldBy, OneMore, Above;
    var was := ThreadOf(run[j], i).stack;
    forall name ensures GivenBack(run, i, name, j, k) == HeldBy(was[..gone + 1], name) {
      HeldByOneMore(was, gone, name);
    }
  }

  lemma UnwoundCatch(run: seq<State>, i: nat, j: nat, k: nat)
    requires j < k < |run| && Unwound(run, i, j, k - 1) && ThreadOf(run[k - 1], i).stack != []
    requires var now := ThreadOf(run[k - 1], i).stack;
      && now[0].Catch? && ThreadOf(run[k], i) == Thread([Exec(now[0].handler)] + now[1..], false)
      && NoneMore(run[k - 1], run[k])
    ensures Caught(run, i, j, k)
  {
    var gone := UnwoundFront(run, i, j, k - 1);
    hide ThreadOf, HeldBy, OneMore, Above, Unwound;
  }

  lemma {:induction false} UnwoundStep(progs: seq<Prog>, run: seq<State>, i: nat, j: nat, k: nat)
    requires IsRun(progs, run) && j < k < |run| && Unwound(run, i, j, k - 1)
    ensures Unwound(run, i, j, k) || Caught(run, i, j, k)
  {
    RunMoves(progs, run, k);
    var s, s' := run[k - 1], run[k];
    var m, choice :| Enabled(s, m) && s' == Step(s, m, choice);
    HasFrame(s, m);
    assert ThreadOf(s, i).raising;
    hide Inv, Step, Enabled, IsRun, Unwound, Caught;
    if m != i {
      OthersStay(s, m, choice, i);
      UnwoundIdle(run, i, j, k);
    } else {
      RaisingStep(s, i, choice);
      if s.threads[i].stack[0].Catch? {
        UnwoundCatch(run, i, j, k);
      } else {
        UnwoundPop(run, i, j, k);
      }
    }
  }

  /**
   * A thread that raises goes on raising until it reaches its innermost `Catch`, giving back on the way the permits it
   * holds above it and starting none of the pending work; then it runs that handler. Without a `Catch` it ends raising.
   */
  lemma {:induction false} ExceptionsPropagate(progs: seq<Prog>, run: seq<State>, i: nat, j: nat, k: nat) returns (l: nat)
    requires IsRun(progs, run) && j <= k < |run| && ThreadOf(run[j], i).raising
    ensures j <= l <= k && forall q :: j <= q <= l ==> Unwound(run, i, j, q)
    ensures l < k ==> Caught(run, i, j, l + 1)
    decreases k
  {
    hide *;
    if k == j {
      l := j;
      UnwoundStart(run, i, j);
    } else {
      l := ExceptionsPropagate(progs, run, i, j, k - 1);
      if l == k - 1 {
        UnwoundStep(progs, run, i, j, k);
        if Unwound(run, i, j, k) {
          l := k;
        }
      }
    }
  }

  /** On its way it is never held up, so a run that cannot be extended has it caught or at its end. */
  lemma {:induction false} UnwindingMoves(progs: seq<Prog>, run: seq<State>, i: nat, j: nat, k: nat)
    requires IsRun(progs, run) && j <= k < |run| && i < |progs| && Unwound(run, i, j, k)
    ensures ThreadOf(run[k], i).stack != [] ==> Enabled(run[k], i)
    ensures ThreadOf(run[k], i).stack == [] ==> Above(ThreadOf(run[j], i).stack) == |ThreadOf(run[j], i).stack|
  {
    RunInv(progs, run, k);
    hide Inv, IsRun, Enabled;
    if ThreadOf(run[k], i).stack != [] {
      RaisingMoves(run[k], i);
    }
  }

  // ----- what a program does

  /**
   * The program, left alone, ends by raising or not when its choices turn out as listed: each `Work` says whether it
   * raises and each `Either` which way it goes. A limiter is of no consequence.
   */
  ghost predicate Does(p: Prog, choices: seq<bool>, raised: bool) {
    match p
    case Work => choices == [raised]
    case Then(a, b) =>
      || (raised && Does(a, choices, true))
      || exists m: nat :: m <= |choices| && Does(a, choices[..m], false) && Does(b, choices[m..], raised)
    case Either(a, b) => choices != [] && Does(if choices[0] then a else b, choices[1..], raised)
    case Try(b, h) =>
      || (!raised && Does(b, choices, false))
      || exists m: nat :: m <= |choices| && Does(b, choices[..m], true) && Does(h, choices[m..], raised)
    case Limit(_, _, b) => Does(b, choices, raised)
  }

  /** The first program's part of the choices, and what it leaves. */
  lemma ThenSplits(a: Prog, b: Prog, choices: seq<bool>, raised: bool, first: bool) returns (m: nat, r: bool)
    requires first ==> Does(Then(a, b), choices, raised)
    requires !first ==> Does(Try(a, b), choices, raised)
    ensures m <= |choices| && Does(a, choices[..m], r)
    ensures r == first ==> m == |choices| && raised == first
    ensures r != first ==> Does(b, choices[m..], raised)
  {
    assert choices[..|choices|] == choices;
    if (first && raised && Does(a, choices, true)) || (!first && !raised && Does(a, choices, false)) {
      m, r := |choices|, first;
    } else {
      r := !first;
      if first {
        m :| m <= |choices| && Does(a, choices[..m], false) && Does(b, choices[m..], raised);
      } else {
        m :| m <= |choices| && Does(a, choices[..m], true) && Does(b, choices[m..], raised);
      }
    }
  }

  lemma Prefixes(choices: seq<bool>, m: nat, a: nat)
    requires a <= m <= |choices|
    ensures choices[..m][..a] == choices[..a] && choices[..m][a..] == choices[a..][..m - a]
  {
  }

  /** The choices determine the outcome, and no program is content with fewer of them or asks for more. */
  lemma {:induction false} DoesOnce(p: Prog, choices: seq<bool>, m: nat, n: nat, r: bool, r': bool)
    requires m <= |choices| && n <= |choices| && Does(p, choices[..m], r) && Does(p, choices[..n], r')
    ensures m == n && r == r'
    decreases p, 1
  {
    match p
    case Work =>
    case Then(a, b) => TwoOnce(a, b, choices, m, n, r, r', true);
    case Either(a, b) =>
      assert choices[..m][1..] == choices[1..][..m - 1] && choices[..n][1..] == choices[1..][..n - 1];
      DoesOnce(if choices[0] then a else b, choices[1..], m - 1, n - 1, r, r');
    case Try(b, h) => TwoOnce(b, h, choices, m, n, r, r', false);
    case Limit(_, _, b) => DoesOnce(b, choices, m, n, r, r');
  }

  lemma {:induction false} TwoOnce(a: Prog, b: Prog, choices: seq<bool>, m: nat, n: nat, r: bool, r': bool, first: bool)
    requires m <= |choices| && n <= |choices|
    requires first ==> Does(Then(a, b), choices[..m], r) && Does(Then(a, b), choices[..n], r')
    requires !first ==> Does(Try(a, b), choices[..m], r) && Does(Try(a, b), choices[..n], r')
    ensures m == n && r == r'
    decreases if first then Then(a, b) else Try(a, b), 0
  {
    var k, q := ThenSplits(a, b, choices[..m], r, first);
    var k', q' := ThenSplits(a, b, choices[..n], r', first);
    hide Does;
    Prefixes(choices, m, k);
    Prefixes(choices, n, k');
    DoesOnce(a, choices, k, k', q, q');
    if q != first {
      DoesOnce(b, choices[k..], m - k, n - k, r, r');
    }
  }

  /** What is left to do for a frame. */
  function ToDo(f: Frame): Option<Prog> {
    match f
    case Exec(p) => Some(p)
    case Catch(_) => None
    case WantLock(_, _, b) => Some(b)
    case Lookup(_, _, b) => Some(b)
    case Store(_, _, b) => Some(b)
    case Wait(_, b) => Some(b)
    case Release(_) => None
  }

  /** The frames, entered raising or not, end so. */
  ghost predicate FramesDo(stack: seq<Frame>, raising: bool, choices: seq<bool>, raised: bool)
    decreases |stack|, 0
  {
    if stack == [] then choices == [] && raised == raising
    else
      var f, rest := stack[0], stack[1..];
      if (ToDo(f).Some? && !raising) || (f.Catch? && raising) then
        FrameThenRest(if f.Catch? then f.handler else ToDo(f).value, rest, choices, raised)
      else FramesDo(rest, raising, choices, raised)
  }

  ghost predicate FrameThenRest(p: Prog, rest: seq<Frame>, choices: seq<bool>, raised: bool)
    decreases |rest|, 1
  {
    exists m: nat, r: bool :: m <= |choices| && Does(p, choices[..m], r) && FramesDo(rest, r, choices[m..], raised)
  }

  /** The choice a thread's step uses up. */
  function Used(t: Thread, choice: bool): seq<bool>
    requires t.stack != []
  {
    var f := t.stack[0];
    if !t.raising && f.Exec? && (f.p.Work? || f.p.Either?) then [choice] else []
  }

  lemma FrontDoes(f: Frame, rest: seq<Frame>, choices: seq<bool>, raised: bool)
    requires ToDo(f).Some?
    ensures FramesDo([f] + rest, false, choices, raised) <==> FrameThenRest(ToDo(f).value, rest, choices, raised)
    ensures FramesDo([f] + rest, true, choices, raised) <==> FramesDo(rest, true, choices, raised)
  {
    var stack := [f] + rest;
    assert stack[0] == f && stack[1..] == rest;
    hide FramesDo, FrameThenRest;
    FramesSplit(stack, true, choices, raised);
    FramesSplit(stack, false, choices, raised);
  }

  lemma FramesSplit(stack: seq<Frame>, raising: bool, choices: seq<bool>, raised: bool)
    requires stack != []
    ensures var f, rest := stack[0], stack[1..];
      FramesDo(stack, raising, choices, raised) <==>
        if (ToDo(f).Some? && !raising) || (f.Catch? && raising) then
          FrameThenRest(if f.Catch? then f.handler else ToDo(f).value, rest, choices, raised)
        else FramesDo(rest, raising, choices, raised)
  {
  }

  lemma WorkDoes(rest: seq<Frame>, choice: bool, choices: seq<bool>, raised: bool)
    requires FramesDo(rest, choice, choices, raised)
    ensures FrameThenRest(Work, rest, [choice] + choices, raised)
  {
    var all := [choice] + choices;
    assert all[..1] == [choice] && all[1..] == choices;
    assert Does(Work, all[..1], choice);
  }

  lemma EitherDoes(a: Prog, b: Prog, rest: seq<Frame>, choice: bool, choices: seq<bool>, raised: bool)
    requires FrameThenRest(if choice then a else b, rest, choices, raised)
    ensures FrameThenRest(Either(a, b), rest, [choice] + choices, raised)
  {
    var m: nat, r: bool :| m <= |choices| && Does(if choice then a else b, choices[..m], r) && FramesDo(rest, r, choices[m..], raised);
    var all := [choice] + choices;
    hide FramesDo;
    assert all[..m + 1][1..] == choices[..m] && all[m + 1..] == choices[m..] && all[..m + 1][0] == choice;
    assert Does(Either(a, b), all[..m + 1], r);
  }

  lemma LimitDoes(name: string, maxWorkers: int, b: Prog, rest: seq<Frame>, choices: seq<bool>, raised: bool)
    requires FrameThenRest(b, rest, choices, raised)
    ensures FrameThenRest(Limit(name, maxWorkers, b), rest, choices, raised)
  {
    var m: nat, r: bool :| m <= |choices| && Does(b, choices[..m], r) && FramesDo(rest, r, choices[m..], raised);
    hide FramesDo;
    assert Does(Limit(name, maxWorkers, b), choices[..m], r);
  }

  /** One program after another, each in its part of the choices. */
  lemma Parts(choices: seq<bool>, m: nat, n: nat)
    requires m <= |choices| && n <= |choices[m..]|
    ensures choices[..m + n][..m] == choices[..m] && choices[..m + n][m..] == choices[m..][..n]
    ensures choices[m + n..] == choices[m..][n..]
  {
  }

  lemma ThenDoes(a: Prog, b: Prog, rest: seq<Frame>, choices: seq<bool>, raised: bool)
    requires FrameThenRest(a, [Exec(b)] + rest, choices, raised)
    ensures FrameThenRest(Then(a, b), rest, choices, raised)
  {
    var m: nat, r: bool :| m <= |choices| && Does(a, choices[..m], r) && FramesDo([Exec(b)] + rest, r, choices[m..], raised);
    hide FramesDo, FrameThenRest;
    FrontDoes(Exec(b), rest, choices[m..], raised);
    if r {
      assert Does(Then(a, b), choices[..m], true);
      OneThenRest(Then(a, b), rest, choices, raised, m, true);
    } else {
      var n, r' := InParts(b, rest, choices[m..], raised);
      Parts(choices, m, n);
      assert Does(Then(a, b), choices[..m + n], r');
      OneThenRest(Then(a, b), rest, choices, raised, m + n, r');
    }
  }

  lemma OneThenRest(p: Prog, rest: seq<Frame>, choices: seq<bool>, raised: bool, m: nat, r: bool)
    requires m <= |choices| && Does(p, choices[..m], r) && FramesDo(rest, r, choices[m..], raised)
    ensures FrameThenRest(p, rest, choices, raised)
  {
    hide Does, FramesDo;
  }

  lemma InParts(p: Prog, rest: seq<Frame>, choices: seq<bool>, raised: bool) returns (m: nat, r: bool)
    requires FrameThenRest(p, rest, choices, raised)
    ensures m <= |choices| && Does(p, choices[..m], r) && FramesDo(rest, r, choices[m..], raised)
  {
    hide Does, FramesDo;
    m, r :| m <= |choices| && Does(p, choices[..m], r) && FramesDo(rest, r, choices[m..], raised);
  }

  lemma TryDoes(b: Prog, h: Prog, rest: seq<Frame>, choices: seq<bool>, raised: bool)
    requires FrameThenRest(b, [Catch(h)] + rest, choices, raised)
    ensures FrameThenRest(Try(b, h), rest, choices, raised)
  {
    hide FramesDo, FrameThenRest;
    var m, r := InParts(b, [Catch(h)] + rest, choices, raised);
    var under := [Catch(h)] + rest;
    assert under[0] == Catch(h) && under[1..] == rest;
    FramesSplit(under, r, choices[m..], raised);
    if !r {
      assert Does(Try(b, h), choices[..m], false);
      OneThenRest(Try(b, h), rest, choices, raised, m, false);
    } else {
      var n, r' := InParts(h, rest, choices[m..], raised);
      Parts(choices, m, n);
      assert Does(Try(b, h), choices[..m + n], r');
      OneThenRest(Try(b, h), rest, choices, raised, m + n, r');
    }
  }

  /** The release after the guarded work is passed over. */
  lemma WaitDoes(name: string, b: Prog, rest: seq<Frame>, choices: seq<bool>, raised: bool)
    requires FramesDo([Exec(b), Release(name)] + rest, false, choices, raised)
    ensures FrameThenRest(b, rest, choices, raised)
  {
    var under := [Release(name)] + rest;
    assert [Exec(b), Release(name)] + rest == [Exec(b)] + under;
    assert under[0] == Release(name) && under[1..] == rest;
    hide FramesDo, FrameThenRest;
    FrontDoes(Exec(b), under, choices, raised);
    var m, r := InParts(b, under, choices, raised);
    FramesSplit(under, r, choices[m..], raised);
    OneThenRest(b, rest, choices, raised, m, r);
  }

  /** What a thread has on its stack in place of a program it starts. */
  predicate Started(p: Prog, rest: seq<Frame>, choice: bool, t: Thread) {
    match p
    case Work => t == Thread(rest, choice)
    case Then(a, b) => t == Thread([Exec(a), Exec(b)] + rest, false)
    case Either(a, b) => t == Thread([Exec(if choice then a else b)] + rest, false)
    case Try(b, h) => t == Thread([Exec(b), Catch(h)] + rest, false)
    case Limit(name, m, b) => t == Thread([if m <= 0 then Exec(b) else WantLock(name, m, b)] + rest, false)
  }

  lemma ExecDoes(p: Prog, rest: seq<Frame>, choice: bool, stack: seq<Frame>, raising: bool, choices: seq<bool>, raised: bool)
    requires Started(p, rest, choice, Thread(stack, raising))
    requires FramesDo(stack, raising, choices, raised)
    ensures FrameThenRest(p, rest, (if p.Work? || p.Either? then [choice] else []) + choices, raised)
  {
    hide FramesDo, FrameThenRest, Does;
    assert [] + choices == choices;
    match p
    case Work => WorkDoes(rest, choice, choices, raised);
    case Then(a, b) =>
      assert stack == [Exec(a)] + ([Exec(b)] + rest);
      FrontDoes(Exec(a), [Exec(b)] + rest, choices, raised);
      ThenDoes(a, b, rest, choices, raised);
    case Either(a, b) =>
      FrontDoes(Exec(if choice then a else b), rest, choices, raised);
      EitherDoes(a, b, rest, choice, choices, raised);
    case Try(b, h) =>
      assert stack == [Exec(b)] + ([Catch(h)] + rest);
      FrontDoes(Exec(b), [Catch(h)] + rest, choices, raised);
      TryDoes(b, h, rest, choices, raised);
    case Limit(name, m, b) =>
      FrontDoes(if m <= 0 then Exec(b) else WantLock(name, m, b), rest, choices, raised);
      LimitDoes(name, m, b, rest, choices, raised);
  }

  /** What the frames do after a step, the frames before it do with the choice the step used up. */
  lemma StepDoes(s: State, i: nat, choice: bool, choices: seq<bool>, raised: bool)
    requires Inv(s) && Enabled(s, i)
    requires var t := ThreadOf(Step(s, i, choice), i); FramesDo(t.stack, t.raising, choices, raised)
    ensures var t := s.threads[i]; FramesDo(t.stack, t.raising, Used(t, choice) + choices, raised)
  {
    var t, t' := s.threads[i], ThreadOf(Step(s, i, choice), i);
    var f, rest := t.stack[0], t.stack[1..];
    assert WellFormed(t);
    FramesSplit(t.stack, t.raising, Used(t, choice) + choices, raised);
    assert [] + choices == choices;
    if f.Release? {
      ReleaseFits(s, i, f.name);
    }
    hide Inv, FramesDo, FrameThenRest, Does, Balanced, LockHeld, WellFormed, Holders, HeldBy;
    if f.Exec? && !t.raising {
      ExecDoes(f.p, rest, choice, t'.stack, t'.raising, choices, raised);
    } else if f.Catch? && t.raising {
      FrontDoes(Exec(f.handler), rest, choices, raised);
    } else if f.WantLock? {
      FrontDoes(Lookup(f.name, f.maxWorkers, f.guarded), rest, choices, raised);
    } else if f.Lookup? || f.Store? {
      FrontDoes(Wait(f.name, f.guarded), rest, choices, raised);
      FrontDoes(Store(f.name, if f.Lookup? then f.maxWorkers else 0, f.guarded), rest, choices, raised);
    } else if f.Wait? {
      WaitDoes(f.name, f.guarded, rest, choices, raised);
    }
  }

  /** A run together with who moved and how each choice fell. */
  ghost predicate IsPlay(progs: seq<Prog>, moves: seq<(nat, bool)>, run: seq<State>) {
    && |run| == |moves| + 1 && run[0] == Start(progs)
    && forall k :: 0 <= k < |moves| ==> Plays(run[k], moves[k], run[k + 1])
  }

  ghost predicate Plays(s: State, move: (nat, bool), s': State) {
    Enabled(s, move.0) && s' == Step(s, move.0, move.1)
  }

  /** Every run is one, so what holds of plays holds of all runs. */
  lemma {:induction false} RunIsPlay(progs: seq<Prog>, run: seq<State>) returns (moves: seq<(nat, bool)>)
    requires IsRun(progs, run)
    ensures IsPlay(progs, moves, run)
  {
    hide Step, Enabled, Start;
    moves := [];
    for k := 1 to |run|
      invariant |moves| == k - 1
      invariant forall q :: 0 <= q < |moves| ==> Plays(run[q], moves[q], run[q + 1])
    {
      assert Next(run[k - 1], run[k]);
      var i, choice :| Enabled(run[k - 1], i) && run[k] == Step(run[k - 1], i, choice);
      moves := moves + [(i, choice)];
    }
  }

  lemma PlayIsRun(progs: seq<Prog>, moves: seq<(nat, bool)>, run: seq<State>)
    requires IsPlay(progs, moves, run)
    ensures IsRun(progs, run)
  {
    hide Step, Enabled, Start;
    forall k | 0 < k < |run| ensures Next(run[k - 1], run[k]) {
      assert Plays(run[k - 1], moves[k - 1], run[k - 1 + 1]);
    }
  }

  /** The choices that thread `i` uses up from state `k` on. */
  function Choices(run: seq<State>, moves: seq<(nat, bool)>, i: nat, k: nat): seq<bool>
    requires |run| == |moves| + 1
    decreases |moves| - k
  {
    if k >= |moves| then []
    else
      var t := ThreadOf(run[k], i);
      (if moves[k].0 == i && t.stack != [] then Used(t, moves[k].1) else []) + Choices(run, moves, i, k + 1)
  }

  lemma {:induction false} FinishedFrom(progs: seq<Prog>, moves: seq<(nat, bool)>, run: seq<State>, i: nat, k: nat)
    requires IsPlay(progs, moves, run) && k < |run| && i < |progs|
    requires ThreadOf(run[|moves|], i).stack == []
    ensures var t := ThreadOf(run[k], i);
      FramesDo(t.stack, t.raising, Choices(run, moves, i, k), ThreadOf(run[|moves|], i).raising)
    decreases |moves| - k
  {
    if k < |moves| {
      PlayIsRun(progs, moves, run);
      RunInv(progs, run, k);
      assert Plays(run[k], moves[k], run[k + 1]);
      hide Step, Enabled, FramesDo, Inv, IsRun, TotalWeight;
      FinishedFrom(progs, moves, run, i, k + 1);
      var c := Choices(run, moves, i, k + 1);
      assert [] + c == c;
      if moves[k].0 == i {
        HasFrame(run[k], i);
        StepDoes(run[k], i, moves[k].1, c, ThreadOf(run[|moves|], i).raising);
      } else {
        OthersStay(run[k], moves[k].0, moves[k].1, i);
      }
    }
  }

  /**
   * Whatever the other threads do: a thread that has finished did its program, as the program reads without limiters,
   * and it ended raising exactly when the program did with the choices the thread met.
   */
  lemma {:induction false} FinishedDidProgram(progs: seq<Prog>, moves: seq<(nat, bool)>, run: seq<State>, i: nat)
    requires IsPlay(progs, moves, run) && i < |progs|
    requires ThreadOf(run[|moves|], i).stack == []
    ensures Does(progs[i], Choices(run, moves, i, 0), ThreadOf(run[|moves|], i).raising)
  {
    FinishedFrom(progs, moves, run, i, 0);
    assert run[0].threads[i] == Thread([Exec(progs[i])] + [], false);
    hide FramesDo, Does;
    var c, r := Choices(run, moves, i, 0), ThreadOf(run[|moves|], i).raising;
    FrontDoes(Exec(progs[i]), [], c, r);
    var m, r' := InParts(progs[i], [], c, r);
    assert c[..m] == c && r' == r;
  }

  // ----- the PDF call site

  /** A PDF whose page render fails inside the limiter ends as the rendering of all its pages does. */
  lemma {:induction false} FailedRenderFallsBack(pdfMax: int, choices: seq<bool>, raised: bool)
    ensures Does(Pdf(pdfMax), [false, false, true, true] + choices, raised) <==> Does(PdfScanned(pdfMax), choices, raised)
  {
    var route, scanned, all := PdfRoute(pdfMax), PdfScanned(pdfMax), [false, true, true] + choices;
    RenderFails(pdfMax);
    assert all[..3] == [false, true, true] && all[3..] == choices && all[..|all|] == all;
    assert ([false, false, true, true] + choices)[1..] == all;
    hide PdfRoute, PdfScanned;
    if Does(Try(route, scanned), all, raised) {
      var m, r := ThenSplits(route, scanned, all, raised, false);
      DoesOnce(route, all, m, 3, r, true);
    }
  }

  lemma RenderFails(pdfMax: int)
    ensures Does(PdfRoute(pdfMax), [false, true, true], true)
  {
    var render := Limit("pdf_render", pdfMax, Work);
    var all := [false, true, true];
    assert all[..1] == [false] && all[1..] == [true, true] && all[1..][1..] == [true];
    assert Does(Either(render, Work), [true, true], true);
    assert Does(Then(Either(render, Work), Work), [true, true], true);
    assert Does(Work, all[..1], false);
  }

  /** A PDF fails only when the rendering of all its pages fails. */
  lemma {:induction false} PdfFailsLast(pdfMax: int, choices: seq<bool>)
    requires Does(Pdf(pdfMax), choices, true)
    ensures exists m: nat :: m <= |choices| && Does(PdfScanned(pdfMax), choices[m..], true)
  {
    hide PdfRoute, PdfScanned;
    if choices[0] {
      assert Does(PdfScanned(pdfMax), choices[1..], true);
    } else {
      var n, r := ThenSplits(PdfRoute(pdfMax), PdfScanned(pdfMax), choices[1..], true, false);
      assert choices[1..][n..] == choices[1 + n..];
    }
  }
}
