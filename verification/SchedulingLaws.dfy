/** What every scheduling event does to the table, stated over slots and states, and what
    follows for a task that is woken. */
module SchedulingLaws {
  import opened Scheduling

  /** `n` is the first runnable slot going round from `from`, `from` itself last. */
  ghost predicate NextRunnable(slots: seq<Slot>, from: nat, n: int)
    requires |slots| == MAX_TASKS && from < MAX_TASKS
  {
    0 <= n < MAX_TASKS && Runnable(slots[n].state) &&
    forall i: nat | i < MAX_TASKS && Runnable(slots[i].state) :: Turn(from, n) <= Turn(from, i)
  }

  /** After how many slots it is slot `i`'s turn. */
  function Turn(from: nat, i: int): int
  {
    if i > from then i - from else i + MAX_TASKS - from
  }

  /** The first slot in this state. */
  ghost predicate FirstIn(slots: seq<Slot>, wanted: ProcessState, i: int)
  {
    0 <= i < |slots| && slots[i].state == wanted && forall k | 0 <= k < i :: slots[k].state != wanted
  }

  ghost predicate Somewhere(slots: seq<Slot>, wanted: ProcessState)
  {
    exists i :: 0 <= i < |slots| && slots[i].state == wanted
  }

  /** Slot `i` is where a new task goes: the first unused one, or without one the first dead. */
  ghost predicate TakesNew(slots: seq<Slot>, i: int)
  {
    if Somewhere(slots, Unused) then FirstIn(slots, Unused, i) else FirstIn(slots, Dead, i)
  }

  ghost predicate BlockedAt(slots: seq<Slot>, pid: nat, i: int)
  {
    0 <= i < |slots| && slots[i].pid == pid && slots[i].state == Blocked
  }

  /** Slot `i` changes its state to `p`, and nothing else changes. */
  ghost predicate OnlyBecomes(slots: seq<Slot>, slots': seq<Slot>, i: int, p: ProcessState)
  {
    |slots'| == |slots| && 0 <= i < |slots| && slots'[i] == Slot(slots[i].pid, p) &&
    forall k | 0 <= k < |slots| && k != i :: slots'[k] == slots[k]
  }

  /** The processor goes from the current task, whose state is now `p`, to the next runnable
      one; a task that stays runnable is Ready again unless it is the one picked. */
  ghost predicate HandsOver(s: Sched, p: ProcessState, t: Sched)
    requires WellFormed(s) && 0 <= s.current
  {
    var left := s.slots[s.current := Slot(s.slots[s.current].pid, p)];
    t.nextPid == s.nextPid && |t.slots| == MAX_TASKS && NextRunnable(left, s.current, t.current) &&
    t.slots[t.current] == Slot(s.slots[t.current].pid, Running) &&
    (t.current != s.current ==> t.slots[s.current] == Slot(s.slots[s.current].pid, if p == Running then Ready else p)) &&
    forall k | 0 <= k < MAX_TASKS && k != t.current && k != s.current :: t.slots[k] == s.slots[k]
  }

  ghost predicate SomeRunnable(slots: seq<Slot>)
  {
    exists i :: 0 <= i < |slots| && Runnable(slots[i].state)
  }

  /** The current task gives the processor up with state `p`.  Should no task be left that can
      run, it stays current. */
  ghost predicate Leaves(s: Sched, p: ProcessState, t: Sched)
    requires WellFormed(s) && 0 <= s.current
  {
    if SomeRunnable(s.slots[s.current := Slot(s.slots[s.current].pid, p)]) then HandsOver(s, p, t)
    else t.current == s.current && t.nextPid == s.nextPid && OnlyBecomes(s.slots, t.slots, s.current, p)
  }

  /** The first switch goes to the idle task. */
  ghost predicate Begins(s: Sched, t: Sched)
    requires WellFormed(s)
  {
    t.current == 0 && t.nextPid == s.nextPid && OnlyBecomes(s.slots, t.slots, 0, Running)
  }

  ghost predicate Effect(s: Sched, e: Event, t: Sched)
    requires WellFormed(s)
  {
    match e
    case Timer => if s.current < 0 then Begins(s, t) else HandsOver(s, Running, t)
    case Exit => if s.current < 0 then Begins(s, t) else Leaves(s, Dead, t)
    case Block => if s.current < 0 then Begins(s, t) else Leaves(s, Blocked, t)
    case Wake(pid) =>
      t.current == s.current && t.nextPid == s.nextPid &&
      (forall i | BlockedAt(s.slots, pid, i) :: OnlyBecomes(s.slots, t.slots, i, Ready)) &&
      ((forall i :: !BlockedAt(s.slots, pid, i)) ==> t.slots == s.slots)
    case New(granted) =>
      t.current == s.current &&
      if granted && (Somewhere(s.slots, Unused) || Somewhere(s.slots, Dead)) then
        t.nextPid == (s.nextPid + 1) % PIDS && exists i :: Fills(s, t, i)
      else t.slots == s.slots && t.nextPid == s.nextPid
  }

  ghost predicate Fills(s: Sched, t: Sched, i: int)
  {
    TakesNew(s.slots, i) && t.slots == s.slots[i := Slot(s.nextPid, Ready)]
  }

  // ---- the searches ----

  lemma {:induction false} FoundExactly(slots: seq<Slot>, wanted: ProcessState, i: nat)
    requires i <= |slots| && forall k | 0 <= k < i :: slots[k].state != wanted
    ensures var r := FindFrom(slots, wanted, i);
            if Somewhere(slots, wanted) then FirstIn(slots, wanted, r) else r == -1
    decreases |slots| - i
  {
    if i < |slots| && slots[i].state != wanted {
      FoundExactly(slots, wanted, i + 1);
    }
  }

  /** A creation finds a slot if and only if one is unused or dead, unused first. */
  lemma SlotForNewExactly(slots: seq<Slot>)
    ensures var r := SlotForNew(slots);
            (r < 0 <==> !Somewhere(slots, Unused) && !Somewhere(slots, Dead)) && (r >= 0 ==> TakesNew(slots, r))
  {
    FoundExactly(slots, Unused, 0);
    FoundExactly(slots, Dead, 0);
  }

  lemma TurnIs(from: nat, o: nat)
    requires from < MAX_TASKS && 1 <= o <= MAX_TASKS
    ensures Turn(from, After(from, o)) == o
  {
    assert After(from, o) == if from + o < MAX_TASKS then from + o else from + o - MAX_TASKS;
  }

  lemma TurnBack(from: nat, i: nat)
    requires from < MAX_TASKS && i < MAX_TASKS
    ensures 1 <= Turn(from, i) <= MAX_TASKS && After(from, Turn(from, i)) == i
  {
  }

  lemma PicksNext(slots: seq<Slot>, from: nat)
    requires |slots| == MAX_TASKS && from < MAX_TASKS
    ensures var n := PickNext(slots, from); if SomeRunnable(slots) then NextRunnable(slots, from, n) else n == -1
  {
    Picked(slots, from, 1);
    var n := PickNext(slots, from);
    hide PickFrom, After, Runnable, Turn;
    if n == -1 {
      forall i: nat | i < MAX_TASKS
        ensures !Runnable(slots[i].state)
      {
        TurnBack(from, i);
      }
    } else {
      var o :| 1 <= o <= MAX_TASKS && n == After(from, o) && Runnable(slots[n].state) &&
               forall q | 1 <= q < o :: !Runnable(slots[After(from, q)].state);
      TurnIs(from, o);
      forall i: nat | i < MAX_TASKS && Runnable(slots[i].state)
        ensures Turn(from, n) <= Turn(from, i)
      {
        TurnBack(from, i);
      }
    }
  }

  lemma TickLeaves(s: Sched, p: ProcessState)
    requires Inv(s) && 0 <= s.current && (p == Running || p == Dead || p == Blocked)
    ensures Leaves(s, p, Tick(s.(slots := SetState(s.slots, s.current, p))))
    ensures p == Running ==> HandsOver(s, p, Tick(s.(slots := SetState(s.slots, s.current, p))))
  {
    var left := SetState(s.slots, s.current, p);
    assert left == s.slots[s.current := Slot(s.slots[s.current].pid, p)];
    PicksNext(left, s.current);
    assert p == Running ==> Runnable(left[s.current].state);
    hide PickNext, Turn;
  }

  lemma WakeReadies(s: Sched, pid: nat)
    requires PidsFresh(s)
    ensures Effect(s, Wake(pid), Unblock(s, pid))
  {
    Indexed(s.slots, pid, 0);
    var r := IndexForPidFrom(s.slots, pid, 0);
    hide IndexForPidFrom;
    forall i | BlockedAt(s.slots, pid, i)
      ensures OnlyBecomes(s.slots, Unblock(s, pid).slots, i, Ready)
    {
      assert r == i;
    }
    assert BlockedAt(s.slots, pid, r) || Unblock(s, pid).slots == s.slots;
  }

  lemma NewFills(s: Sched, granted: bool)
    requires WellFormed(s)
    ensures Effect(s, New(granted), Create(s, granted))
  {
    SlotForNewExactly(s.slots);
    var r := SlotForNew(s.slots);
    hide SlotForNew, TakesNew;
    if r >= 0 && granted {
      TakesBelow(s.slots, r);
      assert Fills(s, Create(s, granted), r);
    }
  }

  lemma TakesBelow(slots: seq<Slot>, i: int)
    requires TakesNew(slots, i)
    ensures 0 <= i < |slots|
  {
  }

  /** Every event, in every state in which pids are distinct, does exactly this. */
  lemma StepExactly(s: Sched, e: Event)
    requires Inv(s) && PidsFresh(s)
    ensures Effect(s, e, Apply(s, e))
  {
    hide Unblock, Create, HandsOver, Leaves, Tick;
    match e
    case Timer =>
      if s.current < 0 {
        FirstTick(s);
      } else {
        assert SetState(s.slots, s.current, Running) == s.slots;
        TickLeaves(s, Running);
      }
    case Exit =>
      if s.current < 0 {
        FirstTick(s);
      } else {
        TickLeaves(s, Dead);
      }
    case Block =>
      if s.current < 0 {
        FirstTick(s);
      } else {
        TickLeaves(s, Blocked);
      }
    case Wake(pid) =>
      WakeReadies(s, pid);
    case New(granted) =>
      NewFills(s, granted);
  }

  lemma FirstTick(s: Sched)
    requires WellFormed(s) && s.current < 0
    ensures Begins(s, Tick(s))
  {
  }

  /** And over every run from the boot, since pids stay distinct. */
  lemma RunStepExactly(es: seq<Event>, e: Event)
    requires WellFormed(Boot()) && Legal(Boot(), es) && |es| + 2 < PIDS
    requires WellFormed(Run(Boot(), es))
    ensures Effect(Run(Boot(), es), e, Apply(Run(Boot(), es), e))
  {
    hide Boot, Run, Legal, Effect, Apply, Inv, PidsFresh;
    BootInv();
    BootPids();
    RunKeeps(Boot(), es);
    RunKeepsGone(Boot(), es, 0);
    StepExactly(Run(Boot(), es), e);
  }

  // ---- woken tasks ----

  ghost predicate StartedIfBlocked(s: Sched)
  {
    WellFormed(s) && (s.current < 0 ==> !Somewhere(s.slots, Blocked))
  }

  lemma StepStarted(s: Sched, e: Event)
    requires Inv(s) && StartedIfBlocked(s) && IdleStays(s, e)
    ensures StartedIfBlocked(Apply(s, e))
  {
    StepKeeps(s, e);
    if s.current < 0 && e.New? {
      NewSlot(s.slots);
      hide SlotForNew;
    } else if s.current < 0 && e.Wake? {
      Indexed(s.slots, e.pid, 0);
      hide IndexForPidFrom;
    } else {
      Onwards(s, e);
    }
  }

  lemma Onwards(s: Sched, e: Event)
    requires WellFormed(s) && (s.current >= 0 || Schedules(e))
    ensures Apply(s, e).current >= 0
  {
  }

  lemma {:induction false} RunStarted(s: Sched, es: seq<Event>)
    requires Inv(s) && StartedIfBlocked(s) && Legal(s, es)
    ensures StartedIfBlocked(Run(s, es))
    decreases |es|
  {
    if es != [] {
      StepKeeps(s, es[0]);
      StepStarted(s, es[0]);
      hide Apply, StartedIfBlocked, Inv;
      RunStarted(Apply(s, es[0]), es[1..]);
    }
  }

  /** A blocked task that is woken runs again: in any run, once its pid is unblocked it is
      current within fewer than MAX_TASKS picks, whatever the others do. */
  lemma WokenIsPicked(before: seq<Event>, j: nat, after: seq<Event>) returns (k: nat)
    requires WellFormed(Boot()) && Legal(Boot(), before) && |before| + 2 < PIDS && j < MAX_TASKS
    requires var s := Run(Boot(), before);
             WellFormed(s) && s.slots[j].state == Blocked &&
             var t := Apply(s, Wake(s.slots[j].pid));
             WellFormed(t) && Legal(t, after) && Picks(after) >= MAX_TASKS - 1
    ensures var s := Run(Boot(), before);
            var t := Apply(s, Wake(s.slots[j].pid));
            k <= |after| && Legal(t, after[..k]) && Run(t, after[..k]).current == j && Picks(after[..k]) < MAX_TASKS
  {
    hide Boot, Run, Legal, Inv, PidsFresh, Picks, Apply;
    BootInv();
    BootPids();
    var s := Run(Boot(), before);
    RunKeeps(Boot(), before);
    RunKeepsGone(Boot(), before, 0);
    BootStarted();
    RunStarted(Boot(), before);
    var e := Wake(s.slots[j].pid);
    StepExactly(s, e);
    StepKeeps(s, e);
    assert BlockedAt(s.slots, e.pid, j);
    assert Somewhere(s.slots, Blocked);
    k := ReadyIsPicked(Apply(s, e), after, j);
  }

  lemma BootStarted()
    ensures StartedIfBlocked(Boot())
  {
  }
}
