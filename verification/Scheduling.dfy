/** The task table as the round-robin scheduler sees it: who is in which state, who is
    current, which pid comes next; and what holds over every run of scheduling events. */
module Scheduling {

  const MAX_TASKS: nat := 10
  const PIDS: nat := 0x1_0000_0000

  datatype ProcessState = Unused | Ready | Running | Blocked | Dead

  datatype Slot = Slot(pid: nat, state: ProcessState)

  /** `current` is -1 until the first switch. */
  datatype Sched = Sched(slots: seq<Slot>, current: int, nextPid: nat)

  predicate WellFormed(s: Sched)
  {
    |s.slots| == MAX_TASKS && -1 <= s.current < MAX_TASKS
  }

  predicate Runnable(p: ProcessState)
  {
    p == Ready || p == Running
  }

  function Boot(): Sched
  {
    Sched([Slot(1, Ready)] + seq(MAX_TASKS - 1, i => Slot(0, Unused)), -1, 2)
  }

  /** The `offset`-th slot after `from`, wrapping around. */
  function After(from: nat, offset: nat): (r: nat)
    ensures r < MAX_TASKS
  {
    (from + offset) % MAX_TASKS
  }

  /** The first runnable slot at offset `offset` or later, or -1. */
  function PickFrom(slots: seq<Slot>, from: nat, offset: nat): int
    requires |slots| == MAX_TASKS
    decreases MAX_TASKS + 1 - offset
  {
    if offset > MAX_TASKS then -1
    else if Runnable(slots[After(from, offset)].state) then After(from, offset)
    else PickFrom(slots, from, offset + 1)
  }

  function PickNext(slots: seq<Slot>, from: int): int
    requires |slots| == MAX_TASKS
  {
    PickFrom(slots, if from < 0 then 0 else from, 1)
  }

  function SetState(slots: seq<Slot>, i: nat, p: ProcessState): seq<Slot>
    requires i < |slots|
  {
    slots[i := slots[i].(state := p)]
  }

  function SwitchTo(s: Sched, next: nat): Sched
    requires WellFormed(s) && next < MAX_TASKS
  {
    var slots := if s.current >= 0 && s.slots[s.current].state == Running then SetState(s.slots, s.current, Ready) else s.slots;
    s.(slots := SetState(slots, next, Running), current := next)
  }

  function Tick(s: Sched): Sched
    requires WellFormed(s)
  {
    if s.current < 0 then SwitchTo(s, 0)
    else
      var next := PickNext(s.slots, s.current);
      if next < 0 || next == s.current || next >= MAX_TASKS then s else SwitchTo(s, next)
  }

  /** The current task exits, blocks itself or is terminated, and gives up the processor. */
  function Leave(s: Sched, p: ProcessState): Sched
    requires WellFormed(s)
  {
    Tick(if s.current >= 0 then s.(slots := SetState(s.slots, s.current, p)) else s)
  }

  function IndexForPidFrom(slots: seq<Slot>, pid: nat, i: nat): int
    requires i <= |slots|
    decreases |slots| - i
  {
    if i == |slots| then -1
    else if slots[i].pid == pid && (Runnable(slots[i].state) || slots[i].state == Blocked) then i
    else IndexForPidFrom(slots, pid, i + 1)
  }

  function Unblock(s: Sched, pid: nat): Sched
  {
    var i := IndexForPidFrom(s.slots, pid, 0);
    if i < 0 || i >= |s.slots| then s
    else if s.slots[i].state == Blocked then s.(slots := SetState(s.slots, i, Ready))
    else s
  }

  function FindFrom(slots: seq<Slot>, wanted: ProcessState, i: nat): int
    requires i <= |slots|
    decreases |slots| - i
  {
    if i == |slots| then -1 else if slots[i].state == wanted then i else FindFrom(slots, wanted, i + 1)
  }

  /** The slot a new task goes to: an unused one, else a dead one, else none. */
  function SlotForNew(slots: seq<Slot>): int
  {
    var unused := FindFrom(slots, Unused, 0);
    if unused >= 0 then unused else FindFrom(slots, Dead, 0)
  }

  /** A creation takes a slot and a pid unless there is no slot or its resources were refused. */
  function Create(s: Sched, granted: bool): Sched
  {
    var slot := SlotForNew(s.slots);
    if slot < 0 || slot >= |s.slots| || !granted then s
    else s.(slots := s.slots[slot := Slot(s.nextPid, Ready)], nextPid := (s.nextPid + 1) % PIDS)
  }

  // ---- facts about the searches ----

  lemma {:induction false} Picked(slots: seq<Slot>, from: nat, offset: nat)
    requires |slots| == MAX_TASKS && 1 <= offset <= MAX_TASKS + 1
    ensures var r := PickFrom(slots, from, offset);
            (r == -1 && forall o | offset <= o <= MAX_TASKS :: !Runnable(slots[After(from, o)].state)) ||
            (exists o | offset <= o <= MAX_TASKS :: r == After(from, o) && Runnable(slots[r].state) &&
               forall q | offset <= q < o :: !Runnable(slots[After(from, q)].state))
    decreases MAX_TASKS + 1 - offset
  {
    hide After, Runnable;
    if offset <= MAX_TASKS {
      if Runnable(slots[After(from, offset)].state) {
        assert PickFrom(slots, from, offset) == After(from, offset);
      } else {
        Picked(slots, from, offset + 1);
      }
    }
  }

  lemma {:induction false} Found(slots: seq<Slot>, wanted: ProcessState, i: nat)
    requires i <= |slots|
    ensures var r := FindFrom(slots, wanted, i); -1 <= r < |slots| && (r >= 0 ==> slots[r].state == wanted)
    decreases |slots| - i
  {
    if i < |slots| {
      Found(slots, wanted, i + 1);
    }
  }

  lemma NewSlot(slots: seq<Slot>)
    ensures var r := SlotForNew(slots);
            -1 <= r < |slots| && (r >= 0 ==> slots[r].state == Unused || slots[r].state == Dead)
  {
    Found(slots, Unused, 0);
    Found(slots, Dead, 0);
  }

  lemma {:induction false} Indexed(slots: seq<Slot>, pid: nat, i: nat)
    requires i <= |slots|
    ensures var r := IndexForPidFrom(slots, pid, i);
            -1 <= r < |slots| &&
            (r >= 0 ==> slots[r].pid == pid && (Runnable(slots[r].state) || slots[r].state == Blocked)) &&
            (r < 0 ==> forall k | i <= k < |slots| :: slots[k].pid != pid || slots[k].state == Dead || slots[k].state == Unused)
    decreases |slots| - i
  {
    if i < |slots| {
      Indexed(slots, pid, i + 1);
    }
  }

  // ---- runs ----

  datatype Event = Timer | Exit | Block | Wake(pid: nat) | New(granted: bool)

  function Apply(s: Sched, e: Event): Sched
    requires WellFormed(s)
  {
    match e
    case Timer => Tick(s)
    case Exit => Leave(s, Dead)
    case Block => Leave(s, Blocked)
    case Wake(pid) => Unblock(s, pid)
    case New(granted) => Create(s, granted)
  }

  /** The events at which the scheduler picks a task. */
  predicate Schedules(e: Event)
  {
    e.Timer? || e.Exit? || e.Block?
  }

  /** The idle task, in slot 0, never exits or blocks. */
  predicate IdleStays(s: Sched, e: Event)
  {
    e.Exit? || e.Block? ==> s.current != 0
  }

  /** At most one task is Running, and it is the current one; idle can always run. */
  ghost predicate Inv(s: Sched)
  {
    WellFormed(s) && Runnable(s.slots[0].state) &&
    forall i | 0 <= i < MAX_TASKS :: s.slots[i].state == Running <==> i == s.current
  }

  /** Picking from a table in which idle can run finds the nearest runnable slot. */
  lemma NextIsNearest(slots: seq<Slot>, current: nat)
    requires |slots| == MAX_TASKS && current < MAX_TASKS && Runnable(slots[0].state)
    ensures var next := PickNext(slots, current);
            0 <= next < MAX_TASKS && Runnable(slots[next].state) &&
            exists o | 1 <= o <= MAX_TASKS :: next == After(current, o) &&
              forall q | 1 <= q < o :: !Runnable(slots[After(current, q)].state)
  {
    Picked(slots, current, 1);
    var q := MAX_TASKS - current;
    assert After(current, q) == 0;
  }

  lemma SwitchKeeps(s: Sched, next: nat)
    requires WellFormed(s) && next < MAX_TASKS && Runnable(s.slots[0].state) && Runnable(s.slots[next].state)
    requires forall i | 0 <= i < MAX_TASKS :: s.slots[i].state == Running ==> i == s.current
    ensures Inv(SwitchTo(s, next))
  {
  }

  /** A pick leaves the picked task running and nobody else. */
  lemma TickKeeps(s: Sched)
    requires WellFormed(s) && Runnable(s.slots[0].state)
    requires forall i | 0 <= i < MAX_TASKS :: s.slots[i].state == Running ==> i == s.current
    requires s.current >= 0 ==> s.slots[s.current].state != Ready
    ensures Inv(Tick(s))
  {
    if s.current < 0 {
      SwitchKeeps(s, 0);
    } else {
      NextIsNearest(s.slots, s.current);
      var next := PickNext(s.slots, s.current);
      hide PickNext;
      if next != s.current {
        SwitchKeeps(s, next);
      }
    }
  }

  lemma StepKeeps(s: Sched, e: Event)
    requires Inv(s) && IdleStays(s, e)
    ensures Inv(Apply(s, e))
  {
    match e
    case Timer =>
      TickKeeps(s);
    case Exit =>
      TickKeeps(if s.current >= 0 then s.(slots := SetState(s.slots, s.current, Dead)) else s);
    case Block =>
      TickKeeps(if s.current >= 0 then s.(slots := SetState(s.slots, s.current, Blocked)) else s);
    case Wake(pid) =>
      Indexed(s.slots, pid, 0);
    case New(granted) =>
      NewSlot(s.slots);
  }

  /** The state after the events; the run is legal while idle stays. */
  ghost predicate Legal(s: Sched, es: seq<Event>)
    requires WellFormed(s)
    decreases |es|
  {
    es == [] || (IdleStays(s, es[0]) && WellFormed(Apply(s, es[0])) && Legal(Apply(s, es[0]), es[1..]))
  }

  ghost function Run(s: Sched, es: seq<Event>): Sched
    requires WellFormed(s) && Legal(s, es)
    decreases |es|
  {
    if es == [] then s else Run(Apply(s, es[0]), es[1..])
  }

  lemma {:induction false} RunKeeps(s: Sched, es: seq<Event>)
    requires Inv(s) && Legal(s, es)
    ensures Inv(Run(s, es))
    decreases |es|
  {
    hide Apply, Inv, IdleStays;
    assert Inv(s) ==> WellFormed(s) by { InvWellFormed(s); }
    if es != [] {
      StepKeeps(s, es[0]);
      RunKeeps(Apply(s, es[0]), es[1..]);
    }
  }

  lemma InvWellFormed(s: Sched)
    ensures Inv(s) ==> WellFormed(s)
  {
  }

  lemma BootInv()
    ensures Inv(Boot())
  {
  }

  /** In every reachable state at most one task is Running and it is the current one. */
  lemma AtMostOneRunning(es: seq<Event>, i: nat)
    requires WellFormed(Boot()) && Legal(Boot(), es) && i < MAX_TASKS
    ensures WellFormed(Run(Boot(), es))
    ensures Run(Boot(), es).slots[i].state == Running <==> i == Run(Boot(), es).current
  {
    BootInv();
    RunKeeps(Boot(), es);
  }

  // ---- fairness ----

  /** How many slots after `from` the slot `to` comes, going round. */
  function Distance(from: nat, to: nat): (d: nat)
    requires from < MAX_TASKS && to < MAX_TASKS
    ensures d < MAX_TASKS && (d == 0 <==> from == to) && After(from, d) == to
  {
    (to + MAX_TASKS - from) % MAX_TASKS
  }

  lemma Nearer(from: nat, o: nat, to: nat)
    requires from < MAX_TASKS && to < MAX_TASKS && 1 <= o < Distance(from, to)
    ensures Distance(After(from, o), to) < Distance(from, to)
  {
    DistanceIs(from, to);
    DistanceIs(After(from, o), to);
    assert After(from, o) == if from + o < MAX_TASKS then from + o else from + o - MAX_TASKS;
    hide After, Distance;
  }

  lemma DistanceIs(from: nat, to: nat)
    requires from < MAX_TASKS && to < MAX_TASKS
    ensures Distance(from, to) == if from <= to then to - from else to + MAX_TASKS - from
  {
  }

  /** A pick goes to the Ready slot `j` or to one nearer to it. */
  lemma PickApproaches(s: Sched, j: nat)
    requires WellFormed(s) && Runnable(s.slots[0].state) && s.current >= 0
    requires forall i | 0 <= i < MAX_TASKS :: s.slots[i].state == Running ==> i == s.current
    requires j < MAX_TASKS && j != s.current && s.slots[j].state == Ready
    ensures var t := Tick(s);
            t.current == j ||
            (0 <= t.current < MAX_TASKS && |t.slots| == MAX_TASKS && t.slots[j].state == Ready &&
             Distance(t.current, j) < Distance(s.current, j))
  {
    NextIsNearest(s.slots, s.current);
    var next, d := PickNext(s.slots, s.current), Distance(s.current, j);
    var o :| 1 <= o <= MAX_TASKS && next == After(s.current, o) &&
             forall q | 1 <= q < o :: !Runnable(s.slots[After(s.current, q)].state);
    hide PickNext, After, Distance;
    assert After(s.current, d) == j;
    assert o <= d;
    assert next != s.current by { Onward(s.current, o); }
    if o < d {
      Nearer(s.current, o, j);
    }
  }

  lemma Onward(from: nat, o: nat)
    requires from < MAX_TASKS && 1 <= o < MAX_TASKS
    ensures After(from, o) != from
  {
  }

  lemma StepApproaches(s: Sched, e: Event, j: nat)
    requires Inv(s) && IdleStays(s, e) && s.current >= 0 && j < MAX_TASKS && s.slots[j].state == Ready
    ensures var t := Apply(s, e);
            (Schedules(e) && t.current == j) ||
            (WellFormed(t) && 0 <= t.current && t.slots[j].state == Ready &&
             if Schedules(e) then Distance(t.current, j) < Distance(s.current, j) else t.current == s.current)
  {
    hide Tick, Distance;
    match e
    case Timer =>
      StepKeeps(s, e);
      PickApproaches(s, j);
    case Exit =>
      StepKeeps(s, e);
      PickApproaches(s.(slots := SetState(s.slots, s.current, Dead)), j);
    case Block =>
      StepKeeps(s, e);
      PickApproaches(s.(slots := SetState(s.slots, s.current, Blocked)), j);
    case Wake(pid) =>
      Indexed(s.slots, pid, 0);
    case New(granted) =>
      NewSlot(s.slots);
  }

  function Picks(es: seq<Event>): nat
  {
    if es == [] then 0 else (if Schedules(es[0]) then 1 else 0) + Picks(es[1..])
  }

  lemma {:induction false} LegalPrefix(s: Sched, es: seq<Event>, k: nat)
    requires WellFormed(s) && Legal(s, es) && k <= |es|
    ensures Legal(s, es[..k])
    decreases k
  {
    hide Apply;
    if k > 0 {
      assert es[..k][1..] == es[1..][..k - 1];
      LegalPrefix(Apply(s, es[0]), es[1..], k - 1);
    }
  }

  /** No starvation: whatever the other tasks do, a Ready task becomes current within as many
      picks as it is slots away, which is always fewer than MAX_TASKS. */
  lemma {:induction false} ReadyIsPicked(s: Sched, es: seq<Event>, j: nat) returns (k: nat)
    requires Inv(s) && Legal(s, es) && s.current >= 0 && j < MAX_TASKS && s.slots[j].state == Ready
    requires Picks(es) >= Distance(s.current, j)
    ensures k <= |es| && Legal(s, es[..k]) && Run(s, es[..k]).current == j
    ensures Picks(es[..k]) <= Distance(s.current, j) < MAX_TASKS
    decreases |es|
  {
    var e, t := es[0], Apply(s, es[0]);
    StepKeeps(s, e);
    StepApproaches(s, e, j);
    if Schedules(e) && t.current == j {
      k := 1;
      assert es[..1] == [e] && [e][1..] == [];
      LegalPrefix(s, es, 1);
      assert Run(s, [e]) == Run(t, []);
      assert Picks([e]) == 1 + Picks([]);
    } else {
      hide Apply, Inv, Distance;
      var m := ReadyIsPicked(t, es[1..], j);
      k := m + 1;
      assert es[..k][1..] == es[1..][..m];
      LegalPrefix(s, es, k);
    }
  }

  // ---- the dead stay dead ----

  /** Pids are handed out once: every slot ever filled holds its own, below the next. */
  ghost predicate PidsFresh(s: Sched)
  {
    WellFormed(s) && 0 < s.nextPid &&
    (forall i | 0 <= i < MAX_TASKS :: s.slots[i].state != Unused ==> 0 < s.slots[i].pid < s.nextPid) &&
    (forall i, j | 0 <= i < j < MAX_TASKS ::
       s.slots[i].state != Unused && s.slots[j].state != Unused ==> s.slots[i].pid != s.slots[j].pid)
  }

  /** No live slot holds pid `p`, and it will not be handed out again. */
  ghost predicate Gone(s: Sched, p: nat)
  {
    WellFormed(s) && 0 < p < s.nextPid &&
    forall i | 0 <= i < MAX_TASKS :: s.slots[i].pid == p ==> s.slots[i].state == Dead || s.slots[i].state == Unused
  }

  /** What scheduling steps do to the table: pids stay where they are, unused and dead slots
      stay so. */
  ghost predicate KeepsPids(s: Sched, t: Sched)
  {
    WellFormed(t) && t.nextPid == s.nextPid && |s.slots| == MAX_TASKS &&
    forall i | 0 <= i < MAX_TASKS ::
      t.slots[i].pid == s.slots[i].pid &&
      (t.slots[i].state == Unused <==> s.slots[i].state == Unused) &&
      (s.slots[i].state == Dead ==> t.slots[i].state == Dead)
  }

  lemma TickKeepsPids(s: Sched)
    requires WellFormed(s) && s.slots[0].state != Unused && (s.current < 0 ==> s.slots[0].state != Dead)
    requires s.current >= 0 ==> Runnable(s.slots[0].state)
    ensures KeepsPids(s, Tick(s))
  {
    if s.current >= 0 {
      NextIsNearest(s.slots, s.current);
      var next := PickNext(s.slots, s.current);
      hide PickNext;
      if next != s.current {
        SwitchKeepsPids(s, next);
      }
    }
  }

  lemma SwitchKeepsPids(s: Sched, next: nat)
    requires WellFormed(s) && next < MAX_TASKS && Runnable(s.slots[next].state)
    ensures KeepsPids(s, SwitchTo(s, next))
  {
  }

  lemma OthersKeepPids(s: Sched, e: Event)
    requires Inv(s) && IdleStays(s, e) && !e.New?
    ensures KeepsPids(s, Apply(s, e))
  {
    match e
    case Timer =>
      TickKeepsPids(s);
    case Exit =>
      hide Tick;
      TickKeepsPids(if s.current >= 0 then s.(slots := SetState(s.slots, s.current, Dead)) else s);
    case Block =>
      hide Tick;
      TickKeepsPids(if s.current >= 0 then s.(slots := SetState(s.slots, s.current, Blocked)) else s);
    case Wake(pid) =>
      Indexed(s.slots, pid, 0);
  }

  lemma StepKeepsGone(s: Sched, e: Event, p: nat)
    requires Inv(s) && IdleStays(s, e) && s.nextPid + 1 < PIDS
    ensures PidsFresh(s) ==> PidsFresh(Apply(s, e))
    ensures Gone(s, p) ==> Gone(Apply(s, e), p)
    ensures s.nextPid <= Apply(s, e).nextPid <= s.nextPid + 1
  {
    if e.New? {
      NewSlot(s.slots);
      hide SlotForNew;
    } else {
      OthersKeepPids(s, e);
      hide Apply;
    }
  }

  lemma {:induction false} RunKeepsGone(s: Sched, es: seq<Event>, p: nat)
    requires Inv(s) && Legal(s, es) && s.nextPid + |es| < PIDS
    ensures PidsFresh(s) ==> PidsFresh(Run(s, es))
    ensures Gone(s, p) ==> Gone(Run(s, es), p)
    ensures Run(s, es).nextPid <= s.nextPid + |es|
    decreases |es|
  {
    if es != [] {
      StepKeeps(s, es[0]);
      StepKeepsGone(s, es[0], p);
      hide Apply, Gone, PidsFresh, Inv;
      RunKeepsGone(Apply(s, es[0]), es[1..], p);
    }
  }

  lemma BootPids()
    ensures PidsFresh(Boot()) && Boot().nextPid == 2
  {
  }

  lemma DeadIsGone(s: Sched, i: nat)
    requires PidsFresh(s) && i < MAX_TASKS && s.slots[i].state == Dead
    ensures Gone(s, s.slots[i].pid)
  {
  }

  lemma GoneMeans(t: Sched, p: nat)
    requires Inv(t) && Gone(t, p)
    ensures Unblock(t, p) == t && (t.current >= 0 ==> t.slots[t.current].pid != p)
    ensures forall k | 0 <= k < MAX_TASKS :: t.slots[k].pid == p ==> t.slots[k].state == Dead || t.slots[k].state == Unused
  {
    Indexed(t.slots, p, 0);
  }

  /** Once a task is dead its pid never runs again, is never current again and cannot be
      unblocked, even after its slot has been reused. */
  lemma DeadForever(before: seq<Event>, after: seq<Event>, i: nat)
    requires WellFormed(Boot()) && Legal(Boot(), before) && WellFormed(Run(Boot(), before))
    requires Legal(Run(Boot(), before), after) && |before| + |after| + 2 < PIDS
    requires i < MAX_TASKS && Run(Boot(), before).slots[i].state == Dead
    ensures var p := Run(Boot(), before).slots[i].pid;
            var t := Run(Run(Boot(), before), after);
            WellFormed(t) && Unblock(t, p) == t && (t.current >= 0 ==> t.slots[t.current].pid != p) &&
            forall k | 0 <= k < MAX_TASKS :: t.slots[k].pid == p ==> t.slots[k].state == Dead || t.slots[k].state == Unused
  {
    hide Boot, Run, Legal, Inv, PidsFresh, Gone, Unblock;
    BootInv();
    BootPids();
    var s := Run(Boot(), before);
    var p := s.slots[i].pid;
    RunKeeps(Boot(), before);
    RunKeepsGone(Boot(), before, p);
    DeadIsGone(s, i);
    RunKeeps(s, after);
    RunKeepsGone(s, after, p);
    InvWellFormed(Run(s, after));
    GoneMeans(Run(s, after), p);
  }
}
