/** The sleep/wake primitive behind the blocking socket calls: three flags under a mutex and a
    condition variable.  Every step is one critical section; spurious wake-ups do not occur. */
module SynchWait {

  datatype Flags = Flags(notified: bool, dead: bool, sleep: bool)

  /** The critical section of sleep_on up to the wait: true when the caller has to block. */
  function Enter(f: Flags): (Flags, bool) {
    if f.dead then (f, false)
    else if f.notified then (f.(notified := false, sleep := false), false)
    else (f.(sleep := true), true)
  }

  /** The rest of sleep_on, after the wait returned. */
  function Resume(f: Flags): Flags { f.(notified := false, sleep := false) }

  /** wake_up: true when it signals the condition. */
  function Wake(f: Flags): (Flags, bool) {
    if f.dead || f.notified then (f, false) else (f.(notified := true), f.sleep)
  }

  /** wait_exit: true when it broadcasts. */
  function Exit(f: Flags): (Flags, bool) {
    if f.dead then (f, false) else (f.(dead := true), f.sleep)
  }

  class SynchWait {
    var notified: bool
    var dead: bool
    var sleep: bool

    ghost function Value(): Flags
      reads this
    {
      Flags(notified, dead, sleep)
    }

    constructor ()
      ensures Value() == Flags(false, false, false)
    {
      notified, dead, sleep := false, false, false;
    }

    method BeginSleep() returns (blocks: bool)
      modifies this
      ensures (Value(), blocks) == Enter(old(Value()))
    {
      if dead {
        return false;
      }
      sleep := true;
      if !notified {
        return true;
      }
      notified := false;
      sleep := false;
      blocks := false;
    }

    method EndSleep()
      modifies this
      ensures Value() == Resume(old(Value()))
    {
      notified := false;
      sleep := false;
    }

    method WakeUp() returns (signals: bool)
      modifies this
      ensures (Value(), signals) == Wake(old(Value()))
    {
      signals := false;
      if dead {
        return;
      }
      if !notified {
        notified := true;
        signals := sleep;
      }
    }

    method WaitExit() returns (broadcasts: bool)
      modifies this
      ensures (Value(), broadcasts) == Exit(old(Value()))
    {
      broadcasts := false;
      if dead {
        return;
      }
      dead := true;
      broadcasts := sleep;
    }
  }

  // ---- all interleavings of a number of waiters and any number of wakers

  /** Signalled: woken, but not yet holding the lock.  Leaving: about to read `dead` for its result. */
  datatype Pc = Idle | Blocked | Signalled | Leaving

  /** `wakes` counts wake_up calls, `successes` the sleep_on calls that returned 0. */
  datatype State = State(f: Flags, pcs: seq<Pc>, wakes: nat, successes: nat)

  ghost predicate Init(s: State, n: nat) {
    s == State(Flags(false, false, false), seq(n, i => Idle), 0, 0)
  }

  ghost predicate Sleeps(s: State, s': State, i: nat) {
    && i < |s.pcs| && s.pcs[i] == Idle
    && var (f, blocks) := Enter(s.f);
       s' == s.(f := f, pcs := s.pcs[i := if blocks then Blocked else Leaving])
  }

  ghost predicate Resumes(s: State, s': State, i: nat) {
    i < |s.pcs| && s.pcs[i] == Signalled && s' == s.(f := Resume(s.f), pcs := s.pcs[i := Leaving])
  }

  ghost predicate Returns(s: State, s': State, i: nat) {
    && i < |s.pcs| && s.pcs[i] == Leaving
    && s' == s.(pcs := s.pcs[i := Idle], successes := s.successes + if s.f.dead then 0 else 1)
  }

  /** The signal releases one blocked waiter, i, if there is any. */
  ghost predicate Wakes(s: State, s': State, i: nat) {
    var (f, signals) := Wake(s.f);
    && (signals && Blocked in s.pcs ==> i < |s.pcs| && s.pcs[i] == Blocked)
    && s' == s.(f := f, wakes := s.wakes + 1,
                pcs := if signals && Blocked in s.pcs then s.pcs[i := Signalled] else s.pcs)
  }

  function Released(pcs: seq<Pc>): (r: seq<Pc>) {
    seq(|pcs|, i requires 0 <= i < |pcs| => if pcs[i] == Blocked then Signalled else pcs[i])
  }

  ghost predicate Exits(s: State, s': State) {
    var (f, broadcasts) := Exit(s.f);
    s' == s.(f := f, pcs := if broadcasts then Released(s.pcs) else s.pcs)
  }

  ghost predicate Next(s: State, s': State) {
    || (exists i :: Sleeps(s, s', i))
    || (exists i :: Resumes(s, s', i))
    || (exists i :: Returns(s, s', i))
    || (exists i :: Wakes(s, s', i))
    || Exits(s, s')
  }

  ghost predicate Run(ss: seq<State>, n: nat) {
    |ss| > 0 && Init(ss[0], n) && forall i | 0 <= i < |ss| - 1 :: Next(ss[i], ss[i + 1])
  }

  // ---- one waiter

  /** What the flags say about the only waiter, and the balance of notifications. */
  ghost predicate Inv(s: State) {
    && |s.pcs| <= 1
    && (s.pcs == [Blocked] ==> s.f == Flags(false, false, true))
    && (s.pcs == [Signalled] ==> s.f.sleep && (s.f.notified || s.f.dead))
    && (s.f.sleep ==> s.pcs == [Blocked] || s.pcs == [Signalled])
    && s.successes + (if s.f.notified then 1 else 0) + (if s.pcs == [Leaving] && !s.f.dead then 1 else 0) <= s.wakes
  }

  lemma StepKeepsInv(s: State, s': State)
    requires Inv(s) && Next(s, s')
    ensures Inv(s') && |s'.pcs| == |s.pcs|
  {
    assert s.pcs == [] || s.pcs == [s.pcs[0]];
    assert s'.pcs == [] || s'.pcs == [s'.pcs[0]];
  }

  lemma {:induction false} RunKeepsInv(ss: seq<State>, n: nat)
    requires Run(ss, n) && n <= 1
    ensures Inv(ss[|ss| - 1])
  {
    if |ss| == 1 {
      assert n == 1 ==> ss[0].pcs == [Idle];
    } else {
      assert Next(ss[|ss| - 2], ss[|ss| - 1]);
      RunKeepsInv(ss[..|ss| - 1], n);
      StepKeepsInv(ss[|ss| - 2], ss[|ss| - 1]);
    }
  }

  /** With one waiter: while it is blocked nothing has been notified and nothing is dead, so no
      completed wake_up or wait_exit leaves it blocked; and successful returns never outnumber
      wake-ups. */
  lemma OneWaiterIsNeverForgotten(ss: seq<State>)
    requires Run(ss, 1)
    ensures var s := ss[|ss| - 1];
      (Blocked in s.pcs ==> s.f == Flags(false, false, true)) && s.successes <= s.wakes
  {
    RunKeepsInv(ss, 1);
    var s := ss[|ss| - 1];
    assert Blocked in s.pcs ==> s.pcs == [Blocked];
  }

  /** With one waiter, a wake-up or an exit leaves nobody blocked; the one is notified unless the structure is
      dead, the other is its end. */
  lemma WakingReleases(ss: seq<State>, s': State)
    requires Run(ss, 1)
    ensures var s := ss[|ss| - 1];
      && ((exists i :: Wakes(s, s', i)) ==> Blocked !in s'.pcs && (s'.f.notified || s'.f.dead))
      && (Exits(s, s') ==> Blocked !in s'.pcs && s'.f.dead)
  {
    RunKeepsInv(ss, 1);
    var s := ss[|ss| - 1];
    assert s.pcs == [] || s.pcs == [s.pcs[0]];
  }

  /** The end is final, for any number of waiters: nobody blocks any more, no call succeeds, and no
      notification is added. */
  ghost predicate Ended(s: State, s': State) {
    && s'.f.dead && s'.successes == s.successes && (s'.f.notified ==> s.f.notified) && |s'.pcs| == |s.pcs|
    && forall w | 0 <= w < |s.pcs| && s'.pcs[w] == Blocked :: s.pcs[w] == Blocked
  }

  lemma StepStaysEnded(s: State, s': State)
    requires s.f.dead && Next(s, s')
    ensures Ended(s, s')
  {
  }

  lemma {:induction false} DeadIsFinal(ss: seq<State>, n: nat, i: nat, j: nat)
    requires Run(ss, n) && i <= j < |ss| && ss[i].f.dead
    ensures Ended(ss[i], ss[j])
    decreases j
  {
    if i < j {
      DeadIsFinal(ss, n, i, j - 1);
      assert Next(ss[j - 1], ss[j]);
      StepStaysEnded(ss[j - 1], ss[j]);
    }
  }

  // ---- several waiters

  /** A notification is pending, someone is blocked, and nobody has been woken for it. */
  ghost predicate Stuck(s: State) { s.f.notified && Blocked in s.pcs && Signalled !in s.pcs }

  ghost predicate WakeUpIsNeverLost(n: nat) { forall ss: seq<State> | Run(ss, n) :: !Stuck(ss[|ss| - 1]) }

  /** The primitive serves exactly one waiter: with two, the first to resume clears `sleep` for both,
      and the next wake_up no longer signals. */
  lemma WakeUpIsNeverLostIff(n: nat)
    ensures WakeUpIsNeverLost(n) <==> n <= 1
  {
    if n <= 1 {
      forall ss: seq<State> | Run(ss, n) ensures !Stuck(ss[|ss| - 1]) {
        RunKeepsInv(ss, n);
        var s := ss[|ss| - 1];
        assert Blocked in s.pcs ==> s.pcs == [Blocked];
      }
    } else {
      var ss := LostWakeUp(n);
    }
  }

  lemma LostWakeUp(n: nat) returns (ss: seq<State>)
    requires n >= 2
    ensures Run(ss, n) && Stuck(ss[|ss| - 1])
  {
    var p0 := seq(n, i => Idle);
    var p1 := p0[0 := Blocked];
    var p2 := p1[1 := Blocked];
    var p3 := p2[0 := Signalled];
    var p4 := p3[0 := Leaving];
    var s0 := State(Flags(false, false, false), p0, 0, 0);
    var s1 := State(Flags(false, false, true), p1, 0, 0);
    var s2 := State(Flags(false, false, true), p2, 0, 0);
    var s3 := State(Flags(true, false, true), p3, 1, 0);
    var s4 := State(Flags(false, false, false), p4, 1, 0);
    var s5 := State(Flags(true, false, false), p4, 2, 0);
    assert Sleeps(s0, s1, 0) && Sleeps(s1, s2, 1);
    assert p2[0] == Blocked && Wakes(s2, s3, 0);
    assert Resumes(s3, s4, 0) && Wakes(s4, s5, 0);
    assert p4[1] == Blocked;
    ss := [s0, s1, s2, s3, s4, s5];
    assert forall i | 0 <= i < 5 :: Next(ss[i], ss[i + 1]);
  }
}
