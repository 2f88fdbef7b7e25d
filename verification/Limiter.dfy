/** The process-wide limiter, in every interleaving. */
module Limiter {
  import opened Options

  /** What a parser thread does, as far as the limiter can tell. `Work` may finish or raise. */
  datatype Prog =
    | Work
    | Then(first: Prog, second: Prog)
    | Either(left: Prog, right: Prog)
    | Try(body: Prog, handler: Prog)
    | Limit(name: string, maxWorkers: int, guarded: Prog)

  /** Pending work of a thread; the steps of entering a limiter are separate frames. */
  datatype Frame =
    | Exec(p: Prog)
    | Catch(handler: Prog)
    | WantLock(name: string, maxWorkers: int, guarded: Prog)
    | Lookup(name: string, maxWorkers: int, guarded: Prog)
    | Store(name: string, maxWorkers: int, guarded: Prog)
    | Wait(name: string, guarded: Prog)
    | Release(name: string)

  /** `stack[0]` is the current frame. */
  datatype Thread = Thread(stack: seq<Frame>, raising: bool)

  datatype Semaphore = Semaphore(bound: int, free: int)

  type Limiters = map<string, Semaphore>

  datatype State = State(lock: Option<nat>, limiters: Limiters, threads: seq<Thread>)

  // ----- what an operation makes of the dictionary

  function Stored(ls: Limiters, name: string, maxWorkers: int): Limiters {
    ls[name := Semaphore(maxWorkers, maxWorkers)]
  }

  function Taken(ls: Limiters, name: string): Limiters
    requires name in ls
  {
    ls[name := ls[name].(free := ls[name].free - 1)]
  }

  function Returned(ls: Limiters, name: string): Limiters
    requires name in ls
  {
    ls[name := ls[name].(free := ls[name].free + 1)]
  }

  // ----- one step of one thread

  predicate Finished(t: Thread) {
    t.stack == []
  }

  /** Whether thread `i` can move now. */
  predicate Enabled(s: State, i: nat) {
    && i < |s.threads| && !Finished(s.threads[i])
    && match s.threads[i].stack[0]
       case WantLock(_, _, _) => s.lock == None
       case Wait(name, _) => name in s.limiters && s.limiters[name].free > 0
       case Release(name) => name in s.limiters
       case _ => true
  }

  function With(s: State, i: nat, stack: seq<Frame>, raising: bool): State
    requires i < |s.threads|
  {
    s.(threads := s.threads[i := Thread(stack, raising)])
  }

  /** The step; `choice` resolves whether work raises and which alternative is taken. */
  function Step(s: State, i: nat, choice: bool): State
    requires Enabled(s, i)
  {
    var t := s.threads[i];
    var rest := t.stack[1..];
    match t.stack[0]
    case Exec(p) =>
      if t.raising then With(s, i, rest, true) else (
        match p
        case Work => With(s, i, rest, choice)
        case Then(a, b) => With(s, i, [Exec(a), Exec(b)] + rest, false)
        case Either(a, b) => With(s, i, [Exec(if choice then a else b)] + rest, false)
        case Try(b, h) => With(s, i, [Exec(b), Catch(h)] + rest, false)
        case Limit(name, m, b) =>
          With(s, i, [if m <= 0 then Exec(b) else WantLock(name, m, b)] + rest, false))
    case Catch(h) => With(s, i, if t.raising then [Exec(h)] + rest else rest, false)
    case WantLock(name, m, b) => With(s, i, [Lookup(name, m, b)] + rest, t.raising).(lock := Some(i))
    case Lookup(name, m, b) =>
      if name in s.limiters then With(s, i, [Wait(name, b)] + rest, t.raising).(lock := None)
      else With(s, i, [Store(name, m, b)] + rest, t.raising)
    case Store(name, m, b) =>
      With(s, i, [Wait(name, b)] + rest, t.raising).(lock := None, limiters := Stored(s.limiters, name, m))
    case Wait(name, b) =>
      With(s, i, [Exec(b), Release(name)] + rest, t.raising).(limiters := Taken(s.limiters, name))
    case Release(name) =>
      var over := s.limiters[name].free >= s.limiters[name].bound;
      With(s, i, rest, t.raising || over).(limiters := if over then s.limiters else Returned(s.limiters, name))
  }

  function Start(progs: seq<Prog>): State {
    State(None, map[], seq(|progs|, k requires 0 <= k < |progs| => Thread([Exec(progs[k])], false)))
  }

  // ----- the invariant

  /** Permits of `name` held by a stack. */
  function HeldBy(stack: seq<Frame>, name: string): nat {
    if stack == [] then 0
    else (if stack[0] == Release(name) then 1 else 0) + HeldBy(stack[1..], name)
  }

  function Holders(threads: seq<Thread>, name: string): nat {
    if threads == [] then 0 else HeldBy(threads[0].stack, name) + Holders(threads[1..], name)
  }

  predicate Settled(f: Frame) {
    f.Exec? || f.Catch? || f.Release?
  }

  predicate Locking(f: Frame) {
    f.Lookup? || f.Store?
  }

  /** Only the current frame can be in the middle of entering a limiter, and not while an exception propagates. */
  predicate WellFormed(t: Thread) {
    && (forall k :: 1 <= k < |t.stack| ==> Settled(t.stack[k]))
    && (t.raising && t.stack != [] ==> Settled(t.stack[0]))
  }

  predicate FrameKnown(f: Frame, ls: Limiters) {
    && (f.Wait? || f.Release? ==> f.name in ls)
    && (f.Store? ==> f.name !in ls && f.maxWorkers > 0)
    && (f.WantLock? || f.Lookup? ==> f.maxWorkers > 0)
  }

  predicate ThreadKnown(t: Thread, ls: Limiters) {
    forall k :: 0 <= k < |t.stack| ==> FrameKnown(t.stack[k], ls)
  }

  /** The lock's holder is the one thread inside the registry's critical section. */
  predicate LockHeld(s: State) {
    forall i :: 0 <= i < |s.threads| ==>
      (s.lock == Some(i) <==> s.threads[i].stack != [] && Locking(s.threads[i].stack[0]))
  }

  predicate LockValid(s: State) {
    s.lock.Some? ==> s.lock.value < |s.threads|
  }

  ghost predicate Balanced(s: State) {
    forall name :: name in s.limiters ==>
      && s.limiters[name].bound > 0 && s.limiters[name].free >= 0
      && s.limiters[name].free + Holders(s.threads, name) == s.limiters[name].bound
  }

  ghost predicate Inv(s: State) {
    && (forall i :: 0 <= i < |s.threads| ==> WellFormed(s.threads[i]) && ThreadKnown(s.threads[i], s.limiters))
    && LockHeld(s) && LockValid(s)
    && Balanced(s)
  }

  // ----- counting permits

  lemma {:induction false} HeldByAppend(a: seq<Frame>, b: seq<Frame>, name: string)
    ensures HeldBy(a + b, name) == HeldBy(a, name) + HeldBy(b, name)
  {
    if a == [] {
      assert a + b == b;
    } else {
      assert (a + b)[1..] == a[1..] + b;
      HeldByAppend(a[1..], b, name);
    }
  }

  lemma {:induction false} HoldersUpdate(threads: seq<Thread>, i: nat, t: Thread, name: string)
    requires i < |threads|
    ensures Holders(threads[i := t], name)
         == Holders(threads, name) - HeldBy(threads[i].stack, name) + HeldBy(t.stack, name)
  {
    hide HeldBy;
    var after := threads[i := t];
    if i == 0 {
      assert after[1..] == threads[1..];
    } else {
      assert after[1..] == threads[1..][i - 1 := t];
      HoldersUpdate(threads[1..], i - 1, t, name);
    }
  }

  /** Frames that thread `i` puts in place of its current one. */
  function Pushed(s: State, i: nat, choice: bool): seq<Frame>
    requires Enabled(s, i)
  {
    var t := s.threads[i];
    match t.stack[0]
    case Exec(p) =>
      if t.raising then [] else (
        match p
        case Work => []
        case Then(a, b) => [Exec(a), Exec(b)]
        case Either(a, b) => [Exec(if choice then a else b)]
        case Try(b, h) => [Exec(b), Catch(h)]
        case Limit(name, m, b) => [if m <= 0 then Exec(b) else WantLock(name, m, b)])
    case Catch(h) => if t.raising then [Exec(h)] else []
    case WantLock(name, m, b) => [Lookup(name, m, b)]
    case Lookup(name, m, b) => if name in s.limiters then [Wait(name, b)] else [Store(name, m, b)]
    case Store(name, _, b) => [Wait(name, b)]
    case Wait(name, b) => [Exec(b), Release(name)]
    case Release(_) => []
  }

  lemma {:induction false} StepPushes(s: State, i: nat, choice: bool)
    requires Enabled(s, i)
    ensures var s' := Step(s, i, choice);
      && |s'.threads| == |s.threads|
      && s'.threads == s.threads[i := s'.threads[i]]
      && s'.threads[i].stack == Pushed(s, i, choice) + s.threads[i].stack[1..]
  {
    var rest := s.threads[i].stack[1..];
    assert [] + rest == rest;
  }

  lemma {:induction false} HeldByFront(stack: seq<Frame>, name: string)
    requires stack != []
    ensures HeldBy(stack, name) == (if stack[0] == Release(name) then 1 else 0) + HeldBy(stack[1..], name)
  {
  }

  lemma {:induction false} PushedHolds(s: State, i: nat, choice: bool, name: string)
    requires Enabled(s, i)
    ensures HeldBy(Pushed(s, i, choice), name)
         == if s.threads[i].stack[0].Wait? && s.threads[i].stack[0].name == name then 1 else 0
  {
    var f := Pushed(s, i, choice);
    if f != [] {
      HeldByFront(f, name);
      if |f| == 2 {
        HeldByFront(f[1..], name);
      }
    }
  }

  /** How a step changes the number of permits in threads' hands. */
  lemma {:induction false} StepHolders(s: State, i: nat, choice: bool, name: string)
    requires Enabled(s, i)
    ensures var f := s.threads[i].stack[0];
      Holders(Step(s, i, choice).threads, name) == Holders(s.threads, name)
        + (if f.Wait? && f.name == name then 1 else 0) - (if f == Release(name) then 1 else 0)
  {
    var s' := Step(s, i, choice);
    StepPushes(s, i, choice);
    HoldersUpdate(s.threads, i, s'.threads[i], name);
    HeldByAppend(Pushed(s, i, choice), s.threads[i].stack[1..], name);
    PushedHolds(s, i, choice, name);
    HeldByFront(s.threads[i].stack, name);
    hide Step, Holders, HeldBy, Pushed;
  }

  /** A thread holding a permit is among the holders. */
  lemma {:induction false} HolderCounted(threads: seq<Thread>, i: nat, name: string)
    requires i < |threads|
    ensures HeldBy(threads[i].stack, name) <= Holders(threads, name)
  {
    if i > 0 {
      HolderCounted(threads[1..], i - 1, name);
    }
  }

  lemma {:induction false} SomeHolder(threads: seq<Thread>, name: string) returns (i: nat)
    requires Holders(threads, name) > 0
    ensures i < |threads| && HeldBy(threads[i].stack, name) > 0
  {
    if HeldBy(threads[0].stack, name) > 0 {
      i := 0;
    } else {
      i := SomeHolder(threads[1..], name);
      i := i + 1;
    }
  }

  // ----- every step keeps the invariant

  lemma {:induction false} StepKeepsThreads(s: State, i: nat, choice: bool)
    requires Inv(s) && Enabled(s, i)
    ensures var s' := Step(s, i, choice);
      forall j :: 0 <= j < |s'.threads| ==> WellFormed(s'.threads[j]) && ThreadKnown(s'.threads[j], s'.limiters)
  {
    StepPushes(s, i, choice);
    hide Balanced, Holders, Step, Enabled, WellFormed, ThreadKnown, LockHeld, LockValid;
    var s' := Step(s, i, choice);
    forall j | 0 <= j < |s'.threads|
      ensures WellFormed(s'.threads[j]) && ThreadKnown(s'.threads[j], s'.limiters)
    {
      if j == i {
        MovedThread(s, i, choice);
      } else {
        OtherThread(s, i, choice, j);
      }
    }
  }

  /** The new frames are known, and only the first can be in the middle of entering a limiter. */
  lemma {:induction false} PushedFits(s: State, i: nat, choice: bool)
    requires Enabled(s, i) && WellFormed(s.threads[i]) && ThreadKnown(s.threads[i], s.limiters)
    ensures var f, s' := Pushed(s, i, choice), Step(s, i, choice);
      && |s'.threads| == |s.threads|
      && (forall k :: 0 <= k < |f| ==> FrameKnown(f[k], s'.limiters) && (k >= 1 ==> Settled(f[k])))
      && (s'.threads[i].raising && f != [] ==> Settled(f[0]))
  {
    assert FrameKnown(s.threads[i].stack[0], s.limiters);
  }

  lemma {:induction false} SettledStaysKnown(s: State, i: nat, choice: bool, f: Frame)
    requires Enabled(s, i) && Settled(f) && FrameKnown(f, s.limiters)
    ensures FrameKnown(f, Step(s, i, choice).limiters)
  {
  }

  predicate AllSettled(frames: seq<Frame>, ls: Limiters) {
    forall k :: 0 <= k < |frames| ==> Settled(frames[k]) && FrameKnown(frames[k], ls)
  }

  lemma RestSettled(t: Thread, ls: Limiters)
    requires WellFormed(t) && ThreadKnown(t, ls) && t.stack != []
    ensures AllSettled(t.stack[1..], ls)
  {
    hide Settled, FrameKnown;
  }

  lemma RestStays(s: State, i: nat, choice: bool, frames: seq<Frame>)
    requires Enabled(s, i) && AllSettled(frames, s.limiters)
    ensures AllSettled(frames, Step(s, i, choice).limiters)
  {
    hide Step, FrameKnown, Settled, Enabled;
    forall k | 0 <= k < |frames| ensures FrameKnown(frames[k], Step(s, i, choice).limiters) {
      SettledStaysKnown(s, i, choice, frames[k]);
    }
  }

  lemma StackFits(pushed: seq<Frame>, rest: seq<Frame>, raising: bool, ls: Limiters)
    requires forall k :: 0 <= k < |pushed| ==> FrameKnown(pushed[k], ls) && (k >= 1 ==> Settled(pushed[k]))
    requires raising && pushed != [] ==> Settled(pushed[0])
    requires AllSettled(rest, ls)
    ensures WellFormed(Thread(pushed + rest, raising)) && ThreadKnown(Thread(pushed + rest, raising), ls)
  {
    hide FrameKnown, Settled;
    var stack := pushed + rest;
    forall k | 0 <= k < |stack|
      ensures FrameKnown(stack[k], ls) && (k >= 1 || raising ==> Settled(stack[k]))
    {
      if k < |pushed| {
        assert stack[k] == pushed[k];
      } else {
        assert stack[k] == rest[k - |pushed|];
      }
    }
  }

  lemma {:induction false} MovedThread(s: State, i: nat, choice: bool)
    requires Enabled(s, i) && WellFormed(s.threads[i]) && ThreadKnown(s.threads[i], s.limiters)
    ensures var s' := Step(s, i, choice);
      && |s'.threads| == |s.threads|
      && WellFormed(s'.threads[i]) && ThreadKnown(s'.threads[i], s'.limiters)
  {
    HasFrame(s, i);
    hide *;
    StepPushes(s, i, choice);
    PushedFits(s, i, choice);
    RestSettled(s.threads[i], s.limiters);
    var rest, s' := s.threads[i].stack[1..], Step(s, i, choice);
    RestStays(s, i, choice, rest);
    StackFits(Pushed(s, i, choice), rest, s'.threads[i].raising, s'.limiters);
    assert s'.threads[i] == Thread(Pushed(s, i, choice) + rest, s'.threads[i].raising);
  }

  lemma HasFrame(s: State, i: nat)
    requires Enabled(s, i)
    ensures i < |s.threads| && s.threads[i].stack != []
  {
  }

  /** Another thread keeps its stack; a name it is about to store cannot be stored by thread `i`, as only one holds the lock. */
  lemma {:induction false} OtherThread(s: State, i: nat, choice: bool, j: nat)
    requires Inv(s) && Enabled(s, i) && j < |s.threads| && j != i
    ensures var s' := Step(s, i, choice);
      && |s'.threads| == |s.threads| && s'.threads[j] == s.threads[j]
      && WellFormed(s'.threads[j]) && ThreadKnown(s'.threads[j], s'.limiters)
  {
    hide Balanced, Holders;
    var s' := Step(s, i, choice);
    var t := s.threads[j];
    if s.threads[i].stack[0].Store? {
      OneStores(s, i, j);
    }
    assert WellFormed(t) && ThreadKnown(t, s.limiters);
    forall k | 0 <= k < |t.stack| ensures FrameKnown(t.stack[k], s'.limiters) {
      assert FrameKnown(t.stack[k], s.limiters);
      assert k >= 1 ==> Settled(t.stack[k]);
    }
  }

  lemma {:induction false} OneStores(s: State, i: nat, j: nat)
    requires LockHeld(s) && i < |s.threads| && j < |s.threads| && i != j
    requires s.threads[i].stack != [] && s.threads[i].stack[0].Store?
    ensures s.threads[j].stack != [] ==> !Locking(s.threads[j].stack[0])
  {
  }

  lemma {:induction false} StepKeepsLock(s: State, i: nat, choice: bool)
    requires Inv(s) && Enabled(s, i)
    ensures LockHeld(Step(s, i, choice)) && LockValid(Step(s, i, choice))
  {
    var s' := Step(s, i, choice);
    StepPushes(s, i, choice);
    var was, now := s.threads[i].stack, s'.threads[i].stack;
    assert WellFormed(s.threads[i]);
    assert s.lock == Some(i) <==> Locking(was[0]);
    hide Balanced, ThreadKnown, WellFormed, HeldBy, Holders;
    if |Pushed(s, i, choice)| == 0 && now != [] {
      assert now[0] == was[1] && Settled(now[0]);
    }
    forall j | 0 <= j < |s'.threads|
      ensures s'.lock == Some(j) <==> s'.threads[j].stack != [] && Locking(s'.threads[j].stack[0])
    {
      if j != i {
        assert s'.threads[j] == s.threads[j];
        assert s.lock == Some(j) <==> s.threads[j].stack != [] && Locking(s.threads[j].stack[0]);
      }
    }
  }

  /** Unregistered limiters have no holders, because holding implies being known. */
  lemma {:induction false} UnknownUnheld(threads: seq<Thread>, ls: Limiters, name: string)
    requires name !in ls
    requires forall j :: 0 <= j < |threads| ==> ThreadKnown(threads[j], ls)
    ensures Holders(threads, name) == 0
  {
    if threads != [] {
      assert ThreadKnown(threads[0], ls);
      UnknownStack(threads[0].stack, ls, name);
      forall j | 0 <= j < |threads[1..]| ensures ThreadKnown(threads[1..][j], ls) {
        assert ThreadKnown(threads[j + 1], ls);
      }
      UnknownUnheld(threads[1..], ls, name);
    }
  }

  lemma {:induction false} UnknownStack(stack: seq<Frame>, ls: Limiters, name: string)
    requires name !in ls
    requires forall k :: 0 <= k < |stack| ==> FrameKnown(stack[k], ls)
    ensures HeldBy(stack, name) == 0
  {
    if stack != [] {
      assert FrameKnown(stack[0], ls);
      forall k | 0 <= k < |stack[1..]| ensures FrameKnown(stack[1..][k], ls) {
        assert FrameKnown(stack[k + 1], ls);
      }
      UnknownStack(stack[1..], ls, name);
    }
  }

  lemma {:induction false} StepKeepsBalance(s: State, i: nat, choice: bool)
    requires Inv(s) && Enabled(s, i)
    ensures Balanced(Step(s, i, choice))
  {
    var s' := Step(s, i, choice);
    var f := s.threads[i].stack[0];
    assert ThreadKnown(s.threads[i], s.limiters) && FrameKnown(f, s.limiters);
    forall name | name in s'.limiters
      ensures s'.limiters[name].bound > 0 && s'.limiters[name].free >= 0
      ensures s'.limiters[name].free + Holders(s'.threads, name) == s'.limiters[name].bound
    {
      StepHolders(s, i, choice, name);
      if name !in s.limiters {
        UnknownUnheld(s.threads, s.limiters, name);
      }
      if f == Release(name) {
        HeldByFront(s.threads[i].stack, name);
        HolderCounted(s.threads, i, name);
      }
      hide Holders, HeldBy, WellFormed, ThreadKnown, LockHeld;
    }
  }

  /** Every step of every thread keeps the invariant; in particular a release never finds its semaphore full. */
  lemma {:induction false} StepKeepsInv(s: State, i: nat, choice: bool)
    requires Inv(s) && Enabled(s, i)
    ensures Inv(Step(s, i, choice))
  {
    hide Step, Balanced, LockHeld, LockValid, WellFormed, ThreadKnown, Enabled;
    StepKeepsThreads(s, i, choice);
    StepKeepsLock(s, i, choice);
    StepKeepsBalance(s, i, choice);
  }

  /** A limiter, once created, keeps its bound; it is created with a positive bound asked for by the creating thread. */
  lemma {:induction false} StepKeepsBounds(s: State, i: nat, choice: bool, name: string)
    requires Inv(s) && Enabled(s, i)
    ensures var s' := Step(s, i, choice);
      && (name in s.limiters ==> name in s'.limiters && s'.limiters[name].bound == s.limiters[name].bound)
      && (name !in s.limiters && name in s'.limiters ==>
            var f := s.threads[i].stack[0];
            f.Store? && f.name == name && f.maxWorkers > 0 && s'.limiters[name].bound == f.maxWorkers)
  {
    hide Balanced, LockHeld, WellFormed;
    assert ThreadKnown(s.threads[i], s.limiters) && FrameKnown(s.threads[i].stack[0], s.limiters);
  }

  // ----- flat programs: no limiter is entered inside another

  predicate NoLimit(p: Prog) {
    match p
    case Work => true
    case Then(a, b) => NoLimit(a) && NoLimit(b)
    case Either(a, b) => NoLimit(a) && NoLimit(b)
    case Try(b, h) => NoLimit(b) && NoLimit(h)
    case Limit(_, m, b) => m <= 0 && NoLimit(b)
  }

  predicate Flat(p: Prog) {
    match p
    case Work => true
    case Then(a, b) => Flat(a) && Flat(b)
    case Either(a, b) => Flat(a) && Flat(b)
    case Try(b, h) => Flat(b) && Flat(h)
    case Limit(_, m, b) => if m <= 0 then Flat(b) else NoLimit(b)
  }

  predicate FlatFrame(f: Frame) {
    match f
    case Exec(p) => Flat(p)
    case Catch(h) => Flat(h)
    case WantLock(_, _, b) => NoLimit(b)
    case Lookup(_, _, b) => NoLimit(b)
    case Store(_, _, b) => NoLimit(b)
    case Wait(_, b) => NoLimit(b)
    case Release(_) => true
  }

  /** Frames allowed while a permit is held. */
  predicate QuietFrame(f: Frame) {
    match f
    case Exec(p) => NoLimit(p)
    case Catch(h) => NoLimit(h)
    case _ => false
  }

  predicate Holding(stack: seq<Frame>) {
    exists k :: 0 <= k < |stack| && stack[k].Release?
  }

  predicate FlatStack(stack: seq<Frame>) {
    stack != [] ==>
      && (if Holding(stack[1..]) then QuietFrame(stack[0]) else FlatFrame(stack[0]))
      && FlatStack(stack[1..])
  }

  predicate AllFlat(s: State) {
    forall i :: 0 <= i < |s.threads| ==> FlatStack(s.threads[i].stack)
  }

  lemma {:induction false} NoLimitFlat(p: Prog)
    requires NoLimit(p)
    ensures Flat(p)
  {
    match p
    case Work =>
    case Then(a, b) => NoLimitFlat(a); NoLimitFlat(b);
    case Either(a, b) => NoLimitFlat(a); NoLimitFlat(b);
    case Try(b, h) => NoLimitFlat(b); NoLimitFlat(h);
    case Limit(_, _, b) => NoLimitFlat(b);
  }

  lemma {:induction false} PushFlat(f: Frame, rest: seq<Frame>)
    requires FlatStack(rest)
    requires if Holding(rest) then QuietFrame(f) else FlatFrame(f)
    ensures FlatStack([f] + rest)
    ensures Holding([f] + rest) <==> f.Release? || Holding(rest)
  {
    assert ([f] + rest)[1..] == rest;
    if k :| 0 <= k < |rest| && rest[k].Release? {
      assert ([f] + rest)[k + 1].Release?;
    }
    if f.Release? {
      assert ([f] + rest)[0].Release?;
    }
  }

  lemma {:induction false} PushTwoFlat(f: Frame, g: Frame, rest: seq<Frame>)
    requires FlatStack(rest)
    requires if Holding(rest) then QuietFrame(g) else FlatFrame(g)
    requires if g.Release? || Holding(rest) then QuietFrame(f) else FlatFrame(f)
    ensures FlatStack([f, g] + rest)
  {
    PushFlat(g, rest);
    PushFlat(f, [g] + rest);
    assert [f, g] + rest == [f] + ([g] + rest);
  }

  lemma {:induction false} StepKeepsFlat(s: State, i: nat, choice: bool)
    requires AllFlat(s) && Enabled(s, i)
    ensures AllFlat(Step(s, i, choice))
  {
    var s' := Step(s, i, choice);
    StepPushes(s, i, choice);
    assert FlatStack(s.threads[i].stack);
    PushedFlat(s, i, choice);
    forall j | 0 <= j < |s'.threads| ensures FlatStack(s'.threads[j].stack) {
      if j != i {
        assert s'.threads[j] == s.threads[j];
        assert FlatStack(s.threads[j].stack);
      }
    }
  }

  lemma {:induction false} PushedFlat(s: State, i: nat, choice: bool)
    requires Enabled(s, i) && FlatStack(s.threads[i].stack)
    ensures FlatStack(Pushed(s, i, choice) + s.threads[i].stack[1..])
  {
    var f, rest := s.threads[i].stack[0], s.threads[i].stack[1..];
    var p := Pushed(s, i, choice);
    assert FlatStack(rest);
    hide Pushed, FlatStack, Enabled, FlatFrame, QuietFrame;
    if |p| == 0 {
      assert p + rest == rest;
    } else if |p| == 1 {
      PushFlat(p[0], rest);
      assert p == [p[0]];
    } else {
      assert p == [p[0], p[1]];
      PushTwoFlat(p[0], p[1], rest);
    }
  }

  // ----- no deadlock

  predicate AllFinished(s: State) {
    forall i :: 0 <= i < |s.threads| ==> Finished(s.threads[i])
  }

  ghost predicate Stuck(s: State) {
    !AllFinished(s) && forall i :: !Enabled(s, i)
  }

  lemma {:induction false} HeldMeansHolding(stack: seq<Frame>, name: string)
    requires HeldBy(stack, name) > 0
    ensures exists k :: 0 <= k < |stack| && stack[k] == Release(name)
  {
    if stack[0] != Release(name) {
      HeldMeansHolding(stack[1..], name);
      var k :| 0 <= k < |stack[1..]| && stack[1..][k] == Release(name);
      assert stack[k + 1] == Release(name);
    }
  }

  /** A thread that holds a permit is never itself waiting: it can move. */
  lemma {:induction false} HolderMoves(s: State, i: nat, name: string)
    requires Inv(s) && AllFlat(s) && i < |s.threads|
    requires HeldBy(s.threads[i].stack, name) > 0
    ensures Enabled(s, i)
  {
    var stack := s.threads[i].stack;
    HeldMeansHolding(stack, name);
    var k :| 0 <= k < |stack| && stack[k] == Release(name);
    assert FlatStack(stack);
    if k > 0 {
      assert stack[1..][k - 1].Release?;
      assert Holding(stack[1..]);
    }
    assert ThreadKnown(s.threads[i], s.limiters) && FrameKnown(stack[0], s.limiters);
  }

  /** With flat programs some thread can always move until all are finished. */
  lemma {:induction false} NeverStuck(s: State)
    requires Inv(s) && AllFlat(s)
    ensures !Stuck(s)
  {
    if !AllFinished(s) {
      var i :| 0 <= i < |s.threads| && !Finished(s.threads[i]);
      var j := SomeoneMoves(s, i);
      assert Enabled(s, j);
    }
  }

  lemma {:induction false} SomeoneMoves(s: State, i: nat) returns (j: nat)
    requires Inv(s) && AllFlat(s) && i < |s.threads| && !Finished(s.threads[i])
    ensures Enabled(s, j)
  {
    var f := s.threads[i].stack[0];
    assert ThreadKnown(s.threads[i], s.limiters) && FrameKnown(f, s.limiters);
    if s.lock.Some? && f.WantLock? {
      j := s.lock.value;
      assert s.lock == Some(j);
      assert Locking(s.threads[j].stack[0]);
    } else if f.Wait? && s.limiters[f.name].free <= 0 {
      assert Holders(s.threads, f.name) > 0;
      j := SomeHolder(s.threads, f.name);
      HolderMoves(s, j, f.name);
    } else {
      j := i;
    }
  }

  // ----- every run ends

  function Weight(p: Prog): nat {
    match p
    case Work => 1
    case Then(a, b) => 1 + Weight(a) + Weight(b)
    case Either(a, b) => 1 + Weight(a) + Weight(b)
    case Try(b, h) => 2 + Weight(b) + Weight(h)
    case Limit(_, _, b) => 6 + Weight(b)
  }

  function FrameWeight(f: Frame): nat {
    match f
    case Exec(p) => Weight(p)
    case Catch(h) => 1 + Weight(h)
    case WantLock(_, _, b) => 5 + Weight(b)
    case Lookup(_, _, b) => 4 + Weight(b)
    case Store(_, _, b) => 3 + Weight(b)
    case Wait(_, b) => 2 + Weight(b)
    case Release(_) => 1
  }

  function StackWeight(stack: seq<Frame>): nat {
    if stack == [] then 0 else FrameWeight(stack[0]) + StackWeight(stack[1..])
  }

  function TotalWeight(threads: seq<Thread>): nat {
    if threads == [] then 0 else StackWeight(threads[0].stack) + TotalWeight(threads[1..])
  }

  lemma {:induction false} StackWeightAppend(a: seq<Frame>, b: seq<Frame>)
    ensures StackWeight(a + b) == StackWeight(a) + StackWeight(b)
  {
    hide FrameWeight;
    if a == [] {
      assert a + b == b;
    } else {
      assert (a + b)[1..] == a[1..] + b;
      StackWeightAppend(a[1..], b);
    }
  }

  lemma {:induction false} TotalWeightUpdate(threads: seq<Thread>, i: nat, t: Thread)
    requires i < |threads|
    ensures TotalWeight(threads[i := t]) == TotalWeight(threads) - StackWeight(threads[i].stack) + StackWeight(t.stack)
  {
    hide StackWeight;
    var after := threads[i := t];
    if i == 0 {
      assert after[1..] == threads[1..];
    } else {
      assert after[1..] == threads[1..][i - 1 := t];
      TotalWeightUpdate(threads[1..], i - 1, t);
    }
  }

  lemma {:induction false} PushedLighter(s: State, i: nat, choice: bool)
    requires Enabled(s, i)
    ensures StackWeight(Pushed(s, i, choice)) < FrameWeight(s.threads[i].stack[0])
  {
    var p := Pushed(s, i, choice);
    FrontWeight(p);
    if |p| > 0 {
      FrontWeight(p[1..]);
    }
  }

  lemma {:induction false} FrontWeight(stack: seq<Frame>)
    ensures StackWeight(stack) == if stack == [] then 0 else FrameWeight(stack[0]) + StackWeight(stack[1..])
  {
  }

  lemma {:induction false} StepLighter(s: State, i: nat, choice: bool)
    requires Enabled(s, i)
    ensures TotalWeight(Step(s, i, choice).threads) < TotalWeight(s.threads)
  {
    var s' := Step(s, i, choice);
    StepPushes(s, i, choice);
    TotalWeightUpdate(s.threads, i, s'.threads[i]);
    StackWeightAppend(Pushed(s, i, choice), s.threads[i].stack[1..]);
    PushedLighter(s, i, choice);
    FrontWeight(s.threads[i].stack);
    hide Step, StackWeight, FrameWeight, Pushed;
  }

  // ----- whole runs

  ghost predicate Next(s: State, s': State) {
    exists i, choice :: Enabled(s, i) && s' == Step(s, i, choice)
  }

  /** A run: any interleaving of steps from the initial state. */
  ghost predicate IsRun(progs: seq<Prog>, run: seq<State>) {
    && run != [] && run[0] == Start(progs)
    && forall k :: 0 < k < |run| ==> Next(run[k - 1], run[k])
  }

  lemma {:induction false} StartGood(progs: seq<Prog>)
    ensures Inv(Start(progs))
    ensures (forall p :: p in progs ==> Flat(p)) ==> AllFlat(Start(progs))
  {
    var s := Start(progs);
    if forall p :: p in progs ==> Flat(p) {
      forall i | 0 <= i < |s.threads| ensures FlatStack(s.threads[i].stack) {
        assert progs[i] in progs;
        assert s.threads[i].stack == [Exec(progs[i])] + [];
        PushFlat(Exec(progs[i]), []);
      }
    }
  }

  lemma {:induction false} RunInv(progs: seq<Prog>, run: seq<State>, k: nat)
    requires IsRun(progs, run) && k < |run|
    ensures Inv(run[k])
    ensures (forall p :: p in progs ==> Flat(p)) ==> AllFlat(run[k])
    ensures TotalWeight(run[k].threads) + k <= TotalWeight(Start(progs).threads)
    ensures |run[k].threads| == |progs|
  {
    if k == 0 {
      StartGood(progs);
    } else {
      hide Step, Inv, AllFlat, TotalWeight;
      RunInv(progs, run, k - 1);
      assert Next(run[k - 1], run[k]);
      var i, choice :| Enabled(run[k - 1], i) && run[k] == Step(run[k - 1], i, choice);
      StepKeepsInv(run[k - 1], i, choice);
      StepLighter(run[k - 1], i, choice);
      StepPushes(run[k - 1], i, choice);
      if forall p :: p in progs ==> Flat(p) {
        StepKeepsFlat(run[k - 1], i, choice);
      }
    }
  }

  lemma RunMoves(progs: seq<Prog>, run: seq<State>, k: nat)
    requires IsRun(progs, run) && 0 < k < |run|
    ensures Inv(run[k - 1]) && Next(run[k - 1], run[k])
  {
    RunInv(progs, run, k - 1);
    hide Next, Inv;
  }

  lemma {:induction false} BoundKept(progs: seq<Prog>, run: seq<State>, j: nat, k: nat, name: string)
    requires IsRun(progs, run) && j <= k < |run| && name in run[j].limiters
    ensures name in run[k].limiters && run[k].limiters[name].bound == run[j].limiters[name].bound
    decreases k
  {
    if j < k {
      hide *;
      RunMoves(progs, run, k);
      BoundKept(progs, run, j, k - 1, name);
    }
  }

  /** In every interleaving: a limiter's bound never changes once set, and free permits plus holders equal it. */
  lemma {:induction false} BoundsForever(progs: seq<Prog>, run: seq<State>, j: nat, k: nat, name: string)
    requires IsRun(progs, run) && j <= k < |run| && name in run[j].limiters
    ensures name in run[k].limiters && run[k].limiters[name].bound == run[j].limiters[name].bound > 0
    ensures run[k].limiters[name].free + Holders(run[k].threads, name) == run[k].limiters[name].bound
    ensures Holders(run[k].threads, name) <= run[k].limiters[name].bound
  {
    BoundKept(progs, run, j, k, name);
    RunInv(progs, run, k);
    hide IsRun, TotalWeight, AllFlat, LockHeld, WellFormed, ThreadKnown;
  }

  /**
   * Flat programs: every run is finite, and a run that cannot be extended has finished every thread, with every
   * permit back and the lock free, whatever exceptions were raised on the way.
   */
  lemma {:induction false} FlatProgramsFinish(progs: seq<Prog>, run: seq<State>)
    requires IsRun(progs, run) && forall p :: p in progs ==> Flat(p)
    ensures |run| <= TotalWeight(Start(progs).threads) + 1
    ensures var s := run[|run| - 1];
      && !Stuck(s)
      && (AllFinished(s) ==> s.lock == None && forall name :: name in s.limiters ==> s.limiters[name].free == s.limiters[name].bound)
  {
    RunInv(progs, run, |run| - 1);
    hide TotalWeight;
    var s := run[|run| - 1];
    NeverStuck(s);
    if AllFinished(s) {
      forall name | name in s.limiters ensures s.limiters[name].free == s.limiters[name].bound {
        NobodyHolds(s.threads, name);
      }
    }
  }

  lemma {:induction false} NobodyHolds(threads: seq<Thread>, name: string)
    requires forall i :: 0 <= i < |threads| ==> Finished(threads[i])
    ensures Holders(threads, name) == 0
  {
    if threads != [] {
      assert Finished(threads[0]);
      NobodyHolds(threads[1..], name);
    }
  }

  // ----- the call sites

  function PdfScanned(pdfMax: int): Prog {
    Then(Limit("pdf_render", pdfMax, Work), Work)
  }

  function PdfRoute(pdfMax: int): Prog {
    Then(Work, Then(Either(Limit("pdf_render", pdfMax, Work), Work), Work))
  }

  function Pdf(pdfMax: int): Prog {
    Either(PdfScanned(pdfMax), Try(PdfRoute(pdfMax), PdfScanned(pdfMax)))
  }

  function OpenDataLoader(odlMax: int, pdfMax: int): Prog {
    Then(Work, Then(Limit("opendataloader", odlMax, Work), Either(PdfScanned(pdfMax), Work)))
  }

  /** The second conversion is the retry without data URIs. */
  function Markitdown(mdMax: int): Prog {
    Then(Work, Then(Limit("markitdown", mdMax, Then(Work, Either(Work, Work))), Work))
  }

  /** First-success and pipeline parsers wrap their members one after the other, the former catching failures. */
  function FirstOf(parsers: seq<Prog>): Prog {
    if parsers == [] then Work else Then(Try(parsers[0], Work), Either(Work, FirstOf(parsers[1..])))
  }

  function PipelineOf(parsers: seq<Prog>): Prog {
    if parsers == [] then Work else Then(parsers[0], PipelineOf(parsers[1..]))
  }

  /** Every parser of the repository enters its limiter flat, whatever the configured sizes, and chaining keeps that. */
  lemma {:induction false} CallSitesFlat(pdfMax: int, odlMax: int, mdMax: int, parsers: seq<Prog>)
    requires forall p :: p in parsers ==> Flat(p)
    ensures Flat(Pdf(pdfMax)) && Flat(PdfScanned(pdfMax))
    ensures Flat(OpenDataLoader(odlMax, pdfMax)) && Flat(Markitdown(mdMax))
    ensures Flat(FirstOf(parsers)) && Flat(PipelineOf(parsers))
  {
    var render := Limit("pdf_render", pdfMax, Work);
    assert Flat(render);
    assert Flat(PdfScanned(pdfMax));
    assert Flat(Either(render, Work));
    assert Flat(Then(Either(render, Work), Work));
    assert Flat(PdfRoute(pdfMax));
    assert Flat(Try(PdfRoute(pdfMax), PdfScanned(pdfMax)));
    var odl := Limit("opendataloader", odlMax, Work);
    assert Flat(odl);
    assert Flat(Then(odl, Either(PdfScanned(pdfMax), Work)));
    var twice := Then(Work, Either(Work, Work));
    assert NoLimit(twice);
    NoLimitFlat(twice);
    assert Flat(Then(Limit("markitdown", mdMax, twice), Work));
    ChainsFlat(parsers);
  }

  lemma {:induction false} ChainsFlat(parsers: seq<Prog>)
    requires forall p :: p in parsers ==> Flat(p)
    ensures Flat(FirstOf(parsers)) && Flat(PipelineOf(parsers))
  {
    if parsers != [] {
      assert parsers[0] in parsers;
      ChainsFlat(parsers[1..]);
      assert Flat(Try(parsers[0], Work));
      assert Flat(Either(Work, FirstOf(parsers[1..])));
    }
  }

  /** Without flatness the guarantee fails: one thread entering the same one-permit limiter twice blocks for ever. */
  lemma {:induction false} NestedCanDeadlock() returns (run: seq<State>)
    ensures IsRun([Limit("a", 1, Limit("a", 1, Work))], run)
    ensures Stuck(run[|run| - 1])
  {
    var progs := [Limit("a", 1, Limit("a", 1, Work))];
    run := [Start(progs)];
    while |run| < 9
      invariant 1 <= |run| <= 9 && IsRun(progs, run)
      invariant run[|run| - 1] == Nested(|run| - 1)
    {
      var s := run[|run| - 1];
      NestedStep(|run| - 1);
      assert Next(s, Step(s, 0, true));
      run := run + [Step(s, 0, true)];
    }
    assert !Finished(run[8].threads[0]);
  }

  /** The states of that run. */
  function Nested(k: nat): State
    requires k <= 8
  {
    var inner := Limit("a", 1, Work);
    var full, taken := map["a" := Semaphore(1, 1)], map["a" := Semaphore(1, 0)];
    if k == 0 then State(None, map[], [Thread([Exec(Limit("a", 1, inner))], false)])
    else if k == 1 then State(None, map[], [Thread([WantLock("a", 1, inner)], false)])
    else if k == 2 then State(Some(0), map[], [Thread([Lookup("a", 1, inner)], false)])
    else if k == 3 then State(Some(0), map[], [Thread([Store("a", 1, inner)], false)])
    else if k == 4 then State(None, full, [Thread([Wait("a", inner)], false)])
    else if k == 5 then State(None, taken, [Thread([Exec(inner), Release("a")], false)])
    else if k == 6 then State(None, taken, [Thread([WantLock("a", 1, Work), Release("a")], false)])
    else if k == 7 then State(Some(0), taken, [Thread([Lookup("a", 1, Work), Release("a")], false)])
    else State(None, taken, [Thread([Wait("a", Work), Release("a")], false)])
  }

  lemma {:induction false} NestedStep(k: nat)
    requires k < 8
    ensures Enabled(Nested(k), 0) && Step(Nested(k), 0, true) == Nested(k + 1)
  {
    var s, s' := Nested(k), Nested(k + 1);
    StepPushes(s, 0, true);
    var t := Step(s, 0, true);
    assert t.threads[0].stack == s'.threads[0].stack;
    assert t.threads == s'.threads;
    assert t.limiters == s'.limiters;
  }

  // ----- the program

  /** A thread that is about to give a permit back finds room for it: the bounded semaphore never refuses. */
  lemma {:induction false} ReleaseFits(s: State, i: nat, name: string)
    requires Inv(s) && Enabled(s, i) && s.threads[i].stack[0] == Release(name)
    ensures name in s.limiters && s.limiters[name].free < s.limiters[name].bound
  {
    HeldByFront(s.threads[i].stack, name);
    HolderCounted(s.threads, i, name);
    hide Holders, HeldBy;
  }

  /** The module-level dictionary of bounded semaphores. */
  class Registry {
    var limiters: Limiters

    constructor ()
      ensures limiters == map[]
    {
      limiters := map[];
    }

    method Create(name: string, maxWorkers: int)
      modifies this
      ensures limiters == Stored(old(limiters), name, maxWorkers)
    {
      limiters := limiters[name := Semaphore(maxWorkers, maxWorkers)];
    }

    /** One attempt to take a permit. */
    method TryAcquire(name: string) returns (ok: bool)
      requires name in limiters
      modifies this
      ensures ok == (old(limiters)[name].free > 0)
      ensures limiters == if ok then Taken(old(limiters), name) else old(limiters)
    {
      var s := limiters[name];
      ok := s.free > 0;
      if ok {
        limiters := limiters[name := s.(free := s.free - 1)];
      }
    }

    /** A bounded semaphore refuses to exceed its initial value. */
    method GiveBack(name: string) returns (ok: bool)
      requires name in limiters
      modifies this
      ensures ok == (old(limiters)[name].free < old(limiters)[name].bound)
      ensures limiters == if ok then Returned(old(limiters), name) else old(limiters)
    {
      var s := limiters[name];
      ok := s.free < s.bound;
      if ok {
        limiters := limiters[name := s.(free := s.free + 1)];
      }
    }
  }

  /** The lock, the dictionary and the threads of one process. */
  class Process {
    var lock: Option<nat>
    var threads: seq<Thread>
    const registry: Registry

    constructor (progs: seq<Prog>)
      ensures fresh(registry)
      ensures Snapshot() == Start(progs)
    {
      lock := None;
      threads := seq(|progs|, k requires 0 <= k < |progs| => Thread([Exec(progs[k])], false));
      registry := new Registry();
    }

    function Snapshot(): State
      reads this, registry
    {
      State(lock, registry.limiters, threads)
    }

    /** Thread `i` goes on with its first frame, through the dictionary's own operations; neither of them fails. */
    method Move(i: nat, choice: bool)
      requires Inv(Snapshot()) && Enabled(Snapshot(), i)
      modifies this, registry
      ensures Snapshot() == Step(old(Snapshot()), i, choice)
      ensures Inv(Snapshot())
    {
      hide Inv;
      StepKeepsInv(Snapshot(), i, choice);
      var t := threads[i];
      var stack, raising := t.stack[1..], t.raising;
      match t.stack[0] {
        case Exec(p) =>
          if !t.raising {
            match p
            case Work => raising := choice;
            case Then(a, b) => stack := [Exec(a), Exec(b)] + stack;
            case Either(a, b) => stack := [Exec(if choice then a else b)] + stack;
            case Try(b, h) => stack := [Exec(b), Catch(h)] + stack;
            case Limit(name, m, b) => stack := [if m <= 0 then Exec(b) else WantLock(name, m, b)] + stack;
          }
        case Catch(h) =>
          if t.raising {
            stack, raising := [Exec(h)] + stack, false;
          }
        case WantLock(name, m, b) =>
          lock, stack := Some(i), [Lookup(name, m, b)] + stack;
        case Lookup(name, m, b) =>
          if name in registry.limiters {
            lock, stack := None, [Wait(name, b)] + stack;
          } else {
            stack := [Store(name, m, b)] + stack;
          }
        case Store(name, m, b) =>
          registry.Create(name, m);
          lock, stack := None, [Wait(name, b)] + stack;
        case Wait(name, b) =>
          var ok := registry.TryAcquire(name);
          assert ok;
          stack := [Exec(b), Release(name)] + stack;
        case Release(name) =>
          ReleaseFits(Snapshot(), i, name);
          var ok := registry.GiveBack(name);
          assert ok;
      }
      threads := threads[i := Thread(stack, raising)];
    }
  }

  /** Whatever the programs and whatever the schedule: the process goes through a run, so all that holds of runs holds
      of it. Picks that cannot move are passed over. */
  method Execute(progs: seq<Prog>, schedule: seq<(nat, bool)>) returns (p: Process)
    ensures Inv(p.Snapshot())
    ensures exists run :: IsRun(progs, run) && run[|run| - 1] == p.Snapshot()
    ensures (forall q :: q in progs ==> Flat(q)) ==> !Stuck(p.Snapshot())
  {
    hide Inv, Step, Enabled, Stuck;
    p := new Process(progs);
    StartGood(progs);
    ghost var run := [p.Snapshot()];
    for k := 0 to |schedule|
      invariant fresh(p) && fresh(p.registry)
      invariant Inv(p.Snapshot())
      invariant IsRun(progs, run) && run[|run| - 1] == p.Snapshot()
    {
      var i, choice := schedule[k].0, schedule[k].1;
      if Enabled(p.Snapshot(), i) {
        ghost var before := p.Snapshot();
        p.Move(i, choice);
        RunGrows(progs, run, i, choice);
        run := run + [p.Snapshot()];
      }
    }
    RunInv(progs, run, |run| - 1);
    if forall q :: q in progs ==> Flat(q) {
      NeverStuck(p.Snapshot());
    }
  }

  lemma RunGrows(progs: seq<Prog>, run: seq<State>, i: nat, choice: bool)
    requires IsRun(progs, run) && Enabled(run[|run| - 1], i)
    ensures IsRun(progs, run + [Step(run[|run| - 1], i, choice)])
  {
    hide Step, Enabled;
    var more := run + [Step(run[|run| - 1], i, choice)];
    forall k | 0 < k < |more| ensures Next(more[k - 1], more[k]) {
      if k < |run| {
        assert more[k - 1] == run[k - 1] && more[k] == run[k];
      }
    }
  }
}
