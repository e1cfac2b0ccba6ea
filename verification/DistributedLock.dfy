/**
  The distributed lock: a Redis key with a time to live, set only if absent, deleted on exit.

  Processes interleave step by step; time passes in its own steps; a process may die anywhere. The key's
  `owner` is bookkeeping: Redis stores a process id that nobody checks before deleting.
 */
module DistributedLock {
  import opened Common

  type Proc = nat

  datatype Key = Key(owner: Proc, expires: int)

  datatype Phase =
    | Outside
    | Trying(start: int)
    | Sleeping(start: int)
    | Inside(entered: int)
    | Dead

  datatype State = State(now: int, key: Option<Key>, phases: map<Proc, Phase>)

  datatype Config = Config(timeout: int, maxWait: int)

  /** `max_wait or timeout * 2` */
  function EffectiveWait(cfg: Config): int {
    if cfg.maxWait == 0 then cfg.timeout * 2 else cfg.maxWait
  }

  predicate Held(s: State) {
    s.key.Some? && s.now < s.key.value.expires
  }

  datatype Step =
    | Begin(p: Proc)
    | Attempt(p: Proc)
    | Wake(p: Proc)
    | Leave(p: Proc)
    | Die(p: Proc)
    | Pass(time: nat)

  predicate Enabled(s: State, step: Step) {
    match step
    case Begin(p) => p in s.phases && s.phases[p].Outside?
    case Attempt(p) => p in s.phases && s.phases[p].Trying?
    case Wake(p) => p in s.phases && s.phases[p].Sleeping?
    case Leave(p) => p in s.phases && s.phases[p].Inside?
    case Die(p) => p in s.phases
    case Pass(_) => true
  }

  function Apply(cfg: Config, s: State, step: Step): State
    requires Enabled(s, step)
  {
    match step
    case Begin(p) => s.(phases := s.phases[p := Trying(s.now)])
    case Attempt(p) =>
      if Held(s) then s.(phases := s.phases[p := Sleeping(s.phases[p].start)])
      else s.(key := Some(Key(p, s.now + cfg.timeout)), phases := s.phases[p := Inside(s.now)])
    case Wake(p) =>
      if s.now - s.phases[p].start > EffectiveWait(cfg) then s.(phases := s.phases[p := Outside])
      else s.(phases := s.phases[p := Trying(s.phases[p].start)])
    case Leave(p) => s.(key := None, phases := s.phases[p := Outside])
    case Die(p) => s.(phases := s.phases[p := Dead])
    case Pass(time) => s.(now := s.now + time)
  }

  predicate Initial(s: State) {
    s.key.None? && forall p :: p in s.phases ==> s.phases[p].Outside?
  }

  /** A history: `states[i + 1]` follows from `states[i]` by `steps[i]`. */
  ghost predicate IsHistory(cfg: Config, states: seq<State>, steps: seq<Step>) {
    && |states| == |steps| + 1
    && Initial(states[0])
    && forall i :: 0 <= i < |steps| ==> Enabled(states[i], steps[i]) && states[i + 1] == Apply(cfg, states[i], steps[i])
  }

  /** No critical section has outlived its time to live. */
  ghost predicate OnTime(cfg: Config, s: State) {
    forall p :: p in s.phases && s.phases[p].Inside? ==> s.now < s.phases[p].entered + cfg.timeout
  }

  ghost predicate Exclusive(s: State) {
    forall p, q :: p in s.phases && q in s.phases && s.phases[p].Inside? && s.phases[q].Inside? ==> p == q
  }

  /** A release deletes the releaser's own key, never another one's. */
  predicate OwnRelease(s: State, step: Step) {
    step.Leave? ==> s.key.Some? && s.key.value.owner == step.p
  }

  // ---- Safety ----

  /** Whoever is inside set the key that is there now. */
  ghost predicate Inv(cfg: Config, s: State) {
    forall p :: p in s.phases && s.phases[p].Inside? ==>
      s.key == Some(Key(p, s.phases[p].entered + cfg.timeout))
  }

  lemma StepKeepsInv(cfg: Config, s: State, step: Step)
    requires Inv(cfg, s) && OnTime(cfg, s) && Enabled(s, step)
    ensures Inv(cfg, Apply(cfg, s, step))
    ensures OwnRelease(s, step)
  {
  }

  lemma {:induction false} HistoryInv(cfg: Config, states: seq<State>, steps: seq<Step>, n: nat)
    requires IsHistory(cfg, states, steps) && n < |states|
    requires forall i :: 0 <= i < n ==> OnTime(cfg, states[i])
    ensures Inv(cfg, states[n])
  {
    if n > 0 {
      HistoryInv(cfg, states, steps, n - 1);
      StepKeepsInv(cfg, states[n - 1], steps[n - 1]);
    }
  }

  /**
    Mutual exclusion. As long as every critical section ends within its time to live, no interleaving of
    any number of processes, no delay and no death brings two processes inside, and every release deletes
    the releaser's own key.
   */
  lemma MutualExclusion(cfg: Config, states: seq<State>, steps: seq<Step>)
    requires IsHistory(cfg, states, steps)
    requires forall i :: 0 <= i < |states| ==> OnTime(cfg, states[i])
    ensures forall i :: 0 <= i < |states| ==> Exclusive(states[i])
    ensures forall i :: 0 <= i < |steps| ==> OwnRelease(states[i], steps[i])
  {
    forall i | 0 <= i < |states|
      ensures Exclusive(states[i])
      ensures i < |steps| ==> OwnRelease(states[i], steps[i])
    {
      HistoryInv(cfg, states, steps, i);
    }
  }

  /**
    The condition is needed. From the first state in which a section has outlived its time to live, any
    process that is outside can join it in two steps, and the first one's release then deletes its key.
   */
  lemma OverrunBreaks(cfg: Config, states: seq<State>, steps: seq<Step>, p: Proc, q: Proc)
    requires IsHistory(cfg, states, steps)
    requires forall i :: 0 <= i < |states| - 1 ==> OnTime(cfg, states[i])
    requires var s := states[|states| - 1];
             && p in s.phases && s.phases[p].Inside? && s.now >= s.phases[p].entered + cfg.timeout
             && q in s.phases && s.phases[q].Outside?
    ensures exists s1, s2 ::
              && IsHistory(cfg, states + [s1, s2], steps + [Begin(q), Attempt(q)])
              && !Exclusive(s2)
              && Enabled(s2, Leave(p)) && !OwnRelease(s2, Leave(p))
              && Apply(cfg, s2, Leave(p)) == s2.(key := None, phases := s2.phases[p := Outside])
  {
    var s := states[|states| - 1];
    HistoryInv(cfg, states, steps, |states| - 1);
    var s1 := Apply(cfg, s, Begin(q));
    var s2 := Apply(cfg, s1, Attempt(q));
    assert s2.phases[p].Inside? && s2.phases[q].Inside? && p != q;
    var states', steps' := states + [s1, s2], steps + [Begin(q), Attempt(q)];
    forall i | 0 <= i < |steps'|
      ensures Enabled(states'[i], steps'[i]) && states'[i + 1] == Apply(cfg, states'[i], steps'[i])
    {
      if i < |steps| {
        assert states'[i] == states[i] && states'[i + 1] == states[i + 1];
      }
    }
    assert IsHistory(cfg, states', steps');
  }

  /** It does happen, for every timeout: one process enters, its time to live passes, and another one enters beside it. */
  lemma OverrunHappens(cfg: Config, start: int) returns (states: seq<State>, steps: seq<Step>)
    requires cfg.timeout > 0
    ensures IsHistory(cfg, states, steps)
    ensures states[0] == State(start, None, map[0 := Outside, 1 := Outside])
    ensures steps == [Begin(0), Attempt(0), Pass(cfg.timeout as nat), Begin(1), Attempt(1)]
    ensures !Exclusive(states[|states| - 1])
  {
    var s0 := State(start, None, map[0 := Outside, 1 := Outside]);
    var s1 := Apply(cfg, s0, Begin(0));
    var s2 := Apply(cfg, s1, Attempt(0));
    var s3 := Apply(cfg, s2, Pass(cfg.timeout as nat));
    var s4 := Apply(cfg, s3, Begin(1));
    var s5 := Apply(cfg, s4, Attempt(1));
    states := [s0, s1, s2, s3, s4, s5];
    steps := [Begin(0), Attempt(0), Pass(cfg.timeout as nat), Begin(1), Attempt(1)];
    assert s5.phases[0].Inside? && s5.phases[1].Inside?;
  }

  // ---- A lone waiter ----

  /** The moments at which a lone waiter looks, `pauses` apart. */
  function Moment(start: int, pauses: nat -> nat, n: nat): int {
    if n == 0 then start else Moment(start, pauses, n - 1) + pauses(n - 1)
  }

  /** Waking up at look `n`, the waiter finds its waiting time over. */
  predicate Overdue(cfg: Config, start: int, pauses: nat -> nat, n: nat) {
    n > 0 && Moment(start, pauses, n) - start > EffectiveWait(cfg)
  }

  /** The first look at which the key has expired or the waiting time is over. */
  ghost predicate Decisive(cfg: Config, start: int, expires: int, pauses: nat -> nat, n: nat) {
    && (Moment(start, pauses, n) >= expires || Overdue(cfg, start, pauses, n))
    && StillWaiting(cfg, start, expires, pauses, n)
  }

  class Waiter {
    var now: int
    var key: Option<Key>

    constructor (now: int, key: Option<Key>)
      ensures this.now == now && this.key == key
    {
      this.now := now;
      this.key := key;
    }

    /** `redis.set(name, value, ex=timeout, nx=True)`; false when the key is there. */
    method SetIfAbsent(owner: Proc, timeout: int) returns (set_: bool)
      modifies this`key
      ensures set_ <==> old(key).None? || now >= old(key).value.expires
      ensures key == if set_ then Some(Key(owner, now + timeout)) else old(key)
    {
      set_ := key.None? || now >= key.value.expires;
      if set_ {
        key := Some(Key(owner, now + timeout));
      }
    }

    method Sleep(pause: nat)
      modifies this`now
      ensures now == old(now) + pause
    {
      now := now + pause;
    }

    /** The acquiring loop when nobody else acts: true when the lock is taken, false when it raises. */
    method Acquire(cfg: Config, me: Proc, pauses: nat -> nat) returns (acquired: bool, looks: nat)
      requires forall n :: pauses(n) > 0
      requires key.Some?
      modifies this
      ensures now == Moment(old(now), pauses, looks)
      ensures Decisive(cfg, old(now), old(key).value.expires, pauses, looks)
      ensures acquired <==> !Overdue(cfg, old(now), pauses, looks)
      ensures key == if acquired then Some(Key(me, now + cfg.timeout)) else old(key)
    {
      var start := now;
      ghost var before := key;
      ghost var expires := key.value.expires;
      looks := 0;
      acquired := SetIfAbsent(me, cfg.timeout);
      while !acquired
        invariant now == Moment(start, pauses, looks)
        invariant acquired <==> now >= expires
        invariant key == if acquired then Some(Key(me, now + cfg.timeout)) else before
        invariant !Overdue(cfg, start, pauses, looks)
        invariant StillWaiting(cfg, start, expires, pauses, looks)
        decreases expires - now
      {
        WaitsOn(cfg, start, expires, pauses, looks);
        Sleep(pauses(looks));
        looks := looks + 1;
        if now - start > EffectiveWait(cfg) {
          return;
        }
        acquired := SetIfAbsent(me, cfg.timeout);
      }
    }
  }

  ghost predicate StillWaiting(cfg: Config, start: int, expires: int, pauses: nat -> nat, n: nat) {
    forall k :: 0 <= k < n ==> Moment(start, pauses, k) < expires && !Overdue(cfg, start, pauses, k)
  }

  lemma WaitsOn(cfg: Config, start: int, expires: int, pauses: nat -> nat, n: nat)
    requires StillWaiting(cfg, start, expires, pauses, n)
    requires Moment(start, pauses, n) < expires && !Overdue(cfg, start, pauses, n)
    ensures StillWaiting(cfg, start, expires, pauses, n + 1)
    ensures Moment(start, pauses, n + 1) == Moment(start, pauses, n) + pauses(n)
  {
  }

  /** Pauses of at most `b` that make time pass. */
  ghost predicate PausesUpTo(pauses: nat -> nat, b: nat) {
    forall k :: 0 < pauses(k) <= b
  }

  /** How long a waiter waits before it raises: what it was given, or twice the timeout. */
  function Patience(cfg: Config): int {
    if cfg.maxWait != 0 then cfg.maxWait else cfg.timeout + cfg.timeout
  }

  /** A waiter that wakes up raises exactly when it has waited longer than that; otherwise it tries again. */
  lemma WakeRaisesIff(cfg: Config, s: State, p: Proc)
    requires Enabled(s, Wake(p))
    ensures var after := Apply(cfg, s, Wake(p));
            && after == s.(phases := s.phases[p := after.phases[p]])
            && after.phases[p] == if s.now > s.phases[p].start + Patience(cfg) then Outside else Trying(s.phases[p].start)
  {
  }

  /**
    A lone waiter facing a holder that died gets the lock if its pauses leave it a look between the moment the key
    expires, at most one timeout after the wait began, and the end of its patience.
   */
  lemma ShortPausesSuffice(cfg: Config, start: int, expires: int, pauses: nat -> nat, n: nat)
    requires cfg.timeout > 0
    requires expires <= start + cfg.timeout
    requires forall k :: cfg.timeout - 1 + pauses(k) <= Patience(cfg)
    requires Decisive(cfg, start, expires, pauses, n)
    ensures Moment(start, pauses, n) >= expires && !Overdue(cfg, start, pauses, n)
  {
    if n > 0 {
      assert Moment(start, pauses, n - 1) < expires;
      assert cfg.timeout - 1 + pauses(n - 1) <= Patience(cfg);
    }
  }

  /** With the default waiting time that is when no pause is longer than the timeout and one clock tick. */
  lemma DefaultWaitSuffices(cfg: Config, start: int, expires: int, pauses: nat -> nat, n: nat)
    requires cfg.timeout > 0 && cfg.maxWait == 0
    requires expires <= start + cfg.timeout
    requires forall k :: pauses(k) <= cfg.timeout + 1
    requires Decisive(cfg, start, expires, pauses, n)
    ensures Moment(start, pauses, n) >= expires && !Overdue(cfg, start, pauses, n)
  {
    ShortPausesSuffice(cfg, start, expires, pauses, n);
  }

  /** Looks in every clock tick until just before the key expires, and then pauses for longer. */
  function LatePauses(timeout: int, last: nat): nat -> nat {
    k => if k < timeout - 1 then 1 else last
  }

  lemma {:induction false} EarlyMoments(start: int, timeout: int, last: nat, n: nat)
    requires n < timeout
    ensures Moment(start, LatePauses(timeout, last), n) == start + n
  {
    if n > 0 {
      EarlyMoments(start, timeout, last, n - 1);
    }
  }

  /** A last pause that uses up the patience: the waiter raises. */
  lemma LastPauseRaises(cfg: Config, start: int, last: nat) returns (n: nat)
    requires cfg.timeout > 0 && Patience(cfg) >= cfg.timeout && cfg.timeout - 1 + last > Patience(cfg)
    ensures var pauses, expires := LatePauses(cfg.timeout, last), start + cfg.timeout;
            && PausesUpTo(pauses, last)
            && Decisive(cfg, start, expires, pauses, n)
            && Moment(start, pauses, n) >= expires && Overdue(cfg, start, pauses, n)
  {
    n := cfg.timeout as nat;
    forall k: nat | k < n {
      EarlyMoments(start, cfg.timeout, last, k);
    }
  }

  /** With the default wait it raises although the key has expired. */
  lemma LongPauseRaises(cfg: Config, start: int) returns (n: nat)
    requires cfg.timeout > 0 && cfg.maxWait == 0
    ensures var pauses, expires := LatePauses(cfg.timeout, (cfg.timeout + 2) as nat), start + cfg.timeout;
            && PausesUpTo(pauses, (cfg.timeout + 2) as nat)
            && Decisive(cfg, start, expires, pauses, n)
            && Moment(start, pauses, n) >= expires && Overdue(cfg, start, pauses, n)
  {
    n := LastPauseRaises(cfg, start, (cfg.timeout + 2) as nat);
  }

  /** Every schedule of the pauses acquires against every dead holder's key. */
  ghost predicate AlwaysAcquires(cfg: Config, b: nat) {
    forall start: int, expires: int, pauses: nat -> nat, n: nat ::
      expires <= start + cfg.timeout && PausesUpTo(pauses, b) && Decisive(cfg, start, expires, pauses, n)
      ==> !Overdue(cfg, start, pauses, n)
  }

  /**
    Any waiting time of a timeout at least is enough exactly when no pause is longer than what it has left, and one
    clock tick, once the timeout has passed.
   */
  lemma WaitIff(cfg: Config, b: nat)
    requires cfg.timeout > 0 && Patience(cfg) >= cfg.timeout
    ensures AlwaysAcquires(cfg, b) <==> b <= Patience(cfg) - cfg.timeout + 1
  {
    if b <= Patience(cfg) - cfg.timeout + 1 {
      forall start: int, expires: int, pauses: nat -> nat, n: nat |
        expires <= start + cfg.timeout && PausesUpTo(pauses, b) && Decisive(cfg, start, expires, pauses, n)
        ensures !Overdue(cfg, start, pauses, n)
      {
        ShortPausesSuffice(cfg, start, expires, pauses, n);
      }
    } else {
      var n := LastPauseRaises(cfg, 0, b);
      assert PausesUpTo(LatePauses(cfg.timeout, b), b);
    }
  }

  /** The default waiting time is enough exactly when no pause is longer than the timeout and one clock tick. */
  lemma DefaultWaitIff(cfg: Config, b: nat)
    requires cfg.timeout > 0 && cfg.maxWait == 0
    ensures AlwaysAcquires(cfg, b) <==> b <= cfg.timeout + 1
  {
    WaitIff(cfg, b);
  }
}
