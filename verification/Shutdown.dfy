/**
  Re-entry of a task's shutdown, over every interleaving of threads and signals.

  The flag is the field `_at_exit_called`: `False`, then the id of the thread that shuts down, then `True`.
  Testing and setting it at the entry is one step.
 */
module Shutdown {

  /** Thread ids are never zero. */
  type Thread = t: nat | t > 0 witness 1

  datatype Flag = No | By(thread: Thread) | Yes

  /** `flag == get_current_thread_id()`, where Python's `True` equals 1. */
  predicate SameAs(flag: Flag, t: Thread) {
    match flag
    case No => false
    case By(owner) => owner == t
    case Yes => t == 1
  }

  predicate Truthy(flag: Flag) {
    flag != No
  }

  /** A call in progress: past the test of `close` or `_at_exit`, or inside the body of `__shutdown`. */
  datatype Frame = Called | Body

  /** One process: whether it is a forked one, whether its task has a logger, and the state of the task. */
  datatype State = State(sub: bool, logger: bool, flag: Flag, stacks: map<Thread, seq<Frame>>, entries: seq<Thread>)

  function Stack(s: State, t: Thread): seq<Frame> {
    if t in s.stacks then s.stacks[t] else []
  }

  function Push(s: State, t: Thread, f: Frame): State {
    s.(stacks := s.stacks[t := Stack(s, t) + [f]])
  }

  function Pop(s: State, t: Thread): State
    requires Stack(s, t) != []
  {
    s.(stacks := s.stacks[t := Stack(s, t)[..|Stack(s, t)| - 1]])
  }

  predicate Top(s: State, t: Thread, f: Frame) {
    Stack(s, t) != [] && Stack(s, t)[|Stack(s, t)| - 1] == f
  }

  /**
    A thread's next step. A signal handler may start a call at any point, even inside the body; the body may also
    be left early by an interrupt.
   */
  datatype Event = Close(t: Thread) | AtExit(t: Thread) | Enter(t: Thread) | Leave(t: Thread) | Interrupt(t: Thread)

  /** The entry of `__shutdown`: the flag it leaves, and whether the body follows. */
  function Entry(sub: bool, logger: bool, flag: Flag, t: Thread): (Flag, bool) {
    if Truthy(flag) then
      if SameAs(flag, t) && !sub then (Yes, true)
      else if SameAs(flag, t) && logger && sub then (Yes, false)
      else (flag, false)
    else (By(t), true)
  }

  function Step(s: State, e: Event): State {
    match e
    case Close(t) => if Truthy(s.flag) then s else Push(s, t, Called)
    case AtExit(t) => if Truthy(s.flag) && !SameAs(s.flag, t) then s else Push(s, t, Called)
    case Enter(t) =>
      if !Top(s, t, Called) then s
      else
        var (flag, go) := Entry(s.sub, s.logger, s.flag, t);
        var popped := Pop(s, t).(flag := flag);
        if go then Push(popped, t, Body).(entries := s.entries + [t]) else popped
    case Leave(t) => if !Top(s, t, Body) then s else Pop(s, t).(flag := Yes)
    case Interrupt(t) => if Stack(s, t) == [] then s else Pop(s, t)
  }

  function Run(s: State, es: seq<Event>): State
    decreases |es|
  {
    if es == [] then s else Run(Step(s, es[0]), es[1..])
  }

  /** A new task in a process: no call yet. */
  function Start(sub: bool, logger: bool): State {
    State(sub, logger, No, map[], [])
  }

  /** The events are those of threads with ids above 1. */
  predicate ProperThreads(es: seq<Event>) {
    forall i :: 0 <= i < |es| ==> es[i].t > 1
  }

  predicate InBody(s: State, t: Thread) {
    Body in Stack(s, t)
  }

  predicate Bounded(s: State) {
    match s.flag
    case No => s.entries == []
    case By(owner) => owner > 1 && s.entries == [owner]
    case Yes =>
      && 1 <= |s.entries| <= (if s.sub then 1 else 2)
      && forall i :: 0 <= i < |s.entries| ==> s.entries[i] == s.entries[0]
  }

  /** What every step keeps: few entries, all by one thread, and only that thread inside the body. */
  predicate Inv(s: State) {
    && Bounded(s)
    && forall t :: t in s.stacks && InBody(s, t) ==> s.entries != [] && t == s.entries[0]
  }

  lemma EntryBounded(s: State, t: Thread)
    requires Bounded(s) && t > 1
    ensures var (flag, go) := Entry(s.sub, s.logger, s.flag, t);
            var entries := if go then s.entries + [t] else s.entries;
            && Bounded(s.(flag := flag, entries := entries))
            && (go ==> s.flag != Yes && entries[0] == t && forall i :: 0 <= i < |entries| ==> entries[i] == t)
            && (s.flag == Yes ==> flag == Yes)
            && (s.entries != [] ==> entries[0] == s.entries[0])
  {
  }

  /** A step changes only its own thread's calls, and only an entry adds a body. */
  lemma StepStacks(s: State, e: Event, u: Thread)
    requires u in Step(s, e).stacks && InBody(Step(s, e), u)
    ensures u != e.t || Step(s, e).entries == s.entries ==> u in s.stacks && InBody(s, u)
  {
    var n := Step(s, e);
    if u != e.t {
      assert Stack(n, u) == Stack(s, u);
    } else if n.entries == s.entries {
      assert forall f :: f in Stack(n, u) && f == Body ==> f in Stack(s, u);
    }
  }

  lemma StepBounded(s: State, e: Event)
    requires Inv(s) && e.t > 1
    ensures Bounded(Step(s, e))
    ensures s.flag == Yes ==> Step(s, e).flag == Yes && Step(s, e).entries == s.entries
    ensures s.entries != [] ==> Step(s, e).entries != [] && Step(s, e).entries[0] == s.entries[0]
    ensures Step(s, e).entries != s.entries ==> Step(s, e).entries != [] && Step(s, e).entries[0] == e.t
    ensures Step(s, e).sub == s.sub
  {
    if e.Enter? && Top(s, e.t, Called) {
      EntryBounded(s, e.t);
    }
    if e.Leave? && Top(s, e.t, Body) {
      assert InBody(s, e.t) && e.t in s.stacks;
    }
  }

  lemma StepInv(s: State, e: Event)
    requires Inv(s) && e.t > 1
    ensures Inv(Step(s, e))
  {
    var n := Step(s, e);
    StepBounded(s, e);
    forall u | u in n.stacks && InBody(n, u) ensures n.entries != [] && u == n.entries[0] {
      StepStacks(s, e, u);
    }
  }

  /**
    Over every run by threads with ids above 1, the body is entered at most twice in a main process and at most
    once in a forked one, always by the same thread, and only that thread is ever inside it.
   */
  lemma {:induction false} AtMostTwice(s: State, es: seq<Event>)
    requires Inv(s) && ProperThreads(es)
    ensures Inv(Run(s, es)) && Run(s, es).sub == s.sub
    ensures |Run(s, es).entries| <= (if s.sub then 1 else 2)
    decreases |es|
  {
    if es != [] {
      StepInv(s, es[0]);
      StepBounded(s, es[0]);
      AtMostTwice(Step(s, es[0]), es[1..]);
    }
  }

  /** `True` is permanent, and nothing enters the body after it. */
  lemma {:induction false} TrueIsFinal(s: State, es: seq<Event>)
    requires Inv(s) && s.flag == Yes && ProperThreads(es)
    ensures Run(s, es).flag == Yes && Run(s, es).entries == s.entries
    decreases |es|
  {
    if es != [] {
      StepInv(s, es[0]);
      StepBounded(s, es[0]);
      TrueIsFinal(Step(s, es[0]), es[1..]);
    }
  }

  // ---- The body is entered ----

  /** An unset flag goes with no entry; a set one, and a body in progress, with some entry. */
  predicate SomeEntry(s: State) {
    && (s.flag == No <==> s.entries == [])
    && forall t :: t in s.stacks && InBody(s, t) ==> s.entries != []
  }

  lemma StepSomeEntry(s: State, e: Event)
    requires SomeEntry(s)
    ensures SomeEntry(Step(s, e)) && s.entries <= Step(s, e).entries
    ensures e.Enter? && Top(s, e.t, Called) ==> Step(s, e).entries != []
  {
    var n := Step(s, e);
    forall u | u in n.stacks && InBody(n, u) ensures n.entries != [] {
      StepStacks(s, e, u);
    }
    if e.Leave? && Top(s, e.t, Body) {
      assert InBody(s, e.t) && e.t in s.stacks;
    }
  }

  lemma {:induction false} RunSomeEntry(s: State, es: seq<Event>)
    requires SomeEntry(s)
    ensures SomeEntry(Run(s, es)) && s.entries <= Run(s, es).entries
    decreases |es|
  {
    if es != [] {
      StepSomeEntry(s, es[0]);
      RunSomeEntry(Step(s, es[0]), es[1..]);
    }
  }

  /** In every run, forked process or not and by any threads: once a call in progress reaches the entry, the body has been entered. */
  lemma CalledEnters(s: State, es: seq<Event>, i: nat)
    requires SomeEntry(s) && i < |es| && es[i].Enter? && Top(Run(s, es[..i]), es[i].t, Called)
    ensures Run(s, es).entries != []
  {
    var before, rest := Run(s, es[..i]), es[i..];
    RunSomeEntry(s, es[..i]);
    StepSomeEntry(before, es[i]);
    RunSomeEntry(Step(before, es[i]), rest[1..]);
    assert es == es[..i] + rest && rest[0] == es[i];
    RunConcat(s, es[..i], rest);
  }

  /** The first call of `close` or `_at_exit` in a process goes through the entry, into the body, and sets the flag for good. */
  lemma FirstCallShutsDown(sub: bool, logger: bool, t: Thread, e: Event)
    requires e == Event.Close(t) || e == Event.AtExit(t)
    ensures var entered := Step(Step(Start(sub, logger), e), Enter(t));
            && entered.entries == [t] && entered.flag == By(t) && InBody(entered, t)
            && Step(entered, Leave(t)).flag == Yes && Stack(Step(entered, Leave(t)), t) == []
  {
    var called := Step(Start(sub, logger), e);
    assert Stack(called, t) == [Called] && Top(called, t, Called);
    assert Stack(Pop(called, t), t) == [];
    var entered := Step(called, Enter(t));
    assert Stack(entered, t) == [Body];
    assert Stack(Pop(entered, t), t) == [];
  }

  /** While a thread shuts down, no other thread's call gets as far as the entry. */
  lemma OthersAreTurnedAway(s: State, t: Thread, owner: Thread)
    requires s.flag == By(owner) && owner != t
    ensures Step(s, Event.Close(t)) == s && Step(s, Event.AtExit(t)) == s
    ensures Step(s, Event.Close(owner)) == s && Top(Step(s, Event.AtExit(owner)), owner, Called)
  {
    var n := Step(s, Event.AtExit(owner));
    assert Stack(n, owner) == Stack(s, owner) + [Called];
  }

  // ---- Thread id 1 ----

  /** One call of `_at_exit` all the way through. */
  function Through(t: Thread): seq<Event> {
    [AtExit(t), Enter(t), Leave(t)]
  }

  function Times(es: seq<Event>, n: nat): seq<Event> {
    if n == 0 then [] else es + Times(es, n - 1)
  }

  /** A main process in which thread 1 is between calls. */
  predicate IdleAtOne(s: State) {
    !s.sub && Stack(s, 1) == [] && (s.flag == No || s.flag == Yes)
  }

  /** Thread 1 comes in, whether the flag is still unset or already `True`. */
  lemma OneEnters(s: State)
    requires IdleAtOne(s)
    ensures var b := Step(Step(s, AtExit(1)), Enter(1));
            !b.sub && Stack(b, 1) == [Body] && b.entries == s.entries + [1]
  {
    var a := Step(s, AtExit(1));
    assert Stack(a, 1) == [Called] && Top(a, 1, Called);
    assert Stack(Pop(a, 1), 1) == [];
  }

  lemma OneLeaves(b: State)
    requires !b.sub && Stack(b, 1) == [Body]
    ensures IdleAtOne(Step(b, Leave(1))) && Step(b, Leave(1)).entries == b.entries
  {
    assert Stack(Pop(b, 1), 1) == [];
  }

  lemma RunThrough(s: State, t: Thread)
    ensures Run(s, Through(t)) == Step(Step(Step(s, AtExit(t)), Enter(t)), Leave(t))
  {
    var es := Through(t);
    var a, b := Step(s, AtExit(t)), Step(Step(s, AtExit(t)), Enter(t));
    assert es[1..] == [Enter(t), Leave(t)] && es[1..][1..] == [Leave(t)] && [Leave(t)][1..] == [];
    assert Run(b, [Leave(t)]) == Step(b, Leave(t));
    assert Run(a, es[1..]) == Run(b, [Leave(t)]);
  }

  lemma ThroughOne(s: State)
    requires IdleAtOne(s)
    ensures IdleAtOne(Run(s, Through(1))) && Run(s, Through(1)).entries == s.entries + [1]
  {
    RunThrough(s, 1);
    OneEnters(s);
    OneLeaves(Step(Step(s, AtExit(1)), Enter(1)));
  }

  lemma {:induction false} RunConcat(s: State, a: seq<Event>, b: seq<Event>)
    ensures Run(s, a + b) == Run(Run(s, a), b)
    decreases |a|
  {
    if a == [] {
      assert a + b == b;
    } else {
      assert (a + b)[1..] == a[1..] + b;
      RunConcat(Step(s, a[0]), a[1..], b);
    }
  }

  lemma RunTimes(s: State, es: seq<Event>, n: nat)
    requires n > 0
    ensures Run(s, Times(es, n)) == Run(Run(s, es), Times(es, n - 1))
  {
    RunConcat(s, es, Times(es, n - 1));
  }

  /** A thread with id 1 passes for `True`, so it enters again and again. */
  lemma {:induction false} ThreadOneReenters(s: State, es: seq<Event>, n: nat)
    requires IdleAtOne(s) && es == Through(1)
    ensures |Run(s, Times(es, n)).entries| == |s.entries| + n
    decreases n
  {
    if n > 0 {
      ThroughOne(s);
      RunTimes(s, es, n);
      ThreadOneReenters(Run(s, es), es, n - 1);
    }
  }

  ghost predicate AllBy(es: seq<Event>, threads: set<Thread>) {
    forall i :: 0 <= i < |es| ==> es[i].t in threads
  }

  lemma {:induction false} TimesBy(es: seq<Event>, n: nat, threads: set<Thread>)
    requires AllBy(es, threads)
    ensures AllBy(Times(es, n), threads)
  {
    if n > 0 {
      TimesBy(es, n - 1, threads);
    }
  }

  /** The limit of two holds over all runs of some threads exactly when 1 is not one of their ids. */
  lemma LimitHoldsIff(threads: set<Thread>, logger: bool)
    ensures (forall es :: AllBy(es, threads) ==> |Run(Start(false, logger), es).entries| <= 2) <==> 1 !in threads
  {
    var s := Start(false, logger);
    if 1 in threads {
      ThreadOneReenters(s, Through(1), 3);
      TimesBy(Through(1), 3, threads);
    } else {
      forall es: seq<Event> | AllBy(es, threads) ensures |Run(s, es).entries| <= 2 {
        assert forall i :: 0 <= i < |es| ==> es[i].t != 1;
        AtMostTwice(s, es);
      }
    }
  }

  // ---- The task ----

  /** The task's flag, with the calls its threads are in and the entries so far kept beside it. */
  class Task {
    const sub: bool
    const logger: bool
    var atExitCalled: Flag
    ghost var stacks: map<Thread, seq<Frame>>
    ghost var entries: seq<Thread>

    ghost function Now(): State
      reads this
    {
      State(sub, logger, atExitCalled, stacks, entries)
    }

    constructor (sub: bool, logger: bool)
      ensures Now() == Start(sub, logger)
    {
      this.sub := sub;
      this.logger := logger;
      this.atExitCalled := No;
      this.stacks := map[];
      this.entries := [];
    }

    /** The test of `close`: whether to go on and shut down. */
    method Close(t: Thread) returns (go: bool)
      modifies this`stacks
      ensures Now() == Step(old(Now()), Event.Close(t))
      ensures go <==> atExitCalled == No
    {
      if atExitCalled != No {
        return false;
      }
      stacks := Push(Now(), t, Called).stacks;
      go := true;
    }

    /** The test of `_at_exit`. */
    method AtExit(t: Thread) returns (go: bool)
      modifies this`stacks
      ensures Now() == Step(old(Now()), Event.AtExit(t))
      ensures go <==> atExitCalled == No || atExitCalled == By(t) || (atExitCalled == Yes && t == 1)
    {
      if atExitCalled != No && !SameAs(atExitCalled, t) {
        return false;
      }
      stacks := Push(Now(), t, Called).stacks;
      go := true;
    }

    /** The entry of `__shutdown`, as one step: whether the body follows. */
    method EnterShutdown(t: Thread) returns (go: bool)
      requires Top(Now(), t, Called)
      modifies this
      ensures Now() == Step(old(Now()), Enter(t))
      ensures go <==> entries == old(entries) + [t]
      ensures !go ==> entries == old(entries)
      ensures old(atExitCalled) == No ==> go && atExitCalled == By(t)
      ensures old(atExitCalled) == By(t) && !sub ==> go && atExitCalled == Yes
      ensures old(atExitCalled) == By(t) && sub && logger ==> !go && atExitCalled == Yes
      ensures old(atExitCalled) == By(t) && sub && !logger ==> !go && atExitCalled == By(t)
      ensures old(atExitCalled).By? && old(atExitCalled) != By(t) ==> !go && atExitCalled == old(atExitCalled)
      ensures old(atExitCalled) == Yes ==> atExitCalled == Yes && (go <==> t == 1 && !sub)
    {
      ghost var popped := Pop(Now(), t);
      if atExitCalled != No {
        var nested := SameAs(atExitCalled, t);
        if nested && !sub {
          atExitCalled := Yes;
        } else {
          if nested && logger && sub {
            atExitCalled := Yes;
          }
          stacks := popped.stacks;
          return false;
        }
      } else {
        atExitCalled := By(t);
      }
      stacks := Push(popped, t, Body).stacks;
      entries := entries + [t];
      go := true;
    }

    /** The end of the body: no one will re-enter. */
    method LeaveShutdown(t: Thread)
      requires Top(Now(), t, Body)
      modifies this
      ensures Now() == Step(old(Now()), Leave(t))
      ensures atExitCalled == Yes && entries == old(entries)
    {
      stacks := Pop(Now(), t).stacks;
      atExitCalled := Yes;
    }
  }
}
