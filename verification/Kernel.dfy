/** The task table with everything its tasks own.  Every frame taken from the allocator belongs
    to exactly one owner: the heap, a task's page, a task's directory or one of its tables. */
module Ownership {
  import opened Codec
  import opened Frames
  import opened PageTables
  import opened AddressSpaces
  import opened Loading
  import opened Scheduling

  datatype Task = Task(pid: nat, state: ProcessState, isUser: bool, code: nat, stack: nat, elfPages: seq<nat>, space: nat)

  /** The pages a task holds; 0 stands for none. */
  function PagesOf(t: Task): seq<nat>
  {
    (if t.code != 0 then [t.code] else []) + (if t.stack != 0 then [t.stack] else []) + t.elfPages
  }

  function ClaimsOf(mem: Memory, t: Task): multiset<nat>
  {
    multiset(PagesOf(t)) + if t.isUser then Space(mem, t.space) else multiset{}
  }

  function Claims(mem: Memory, ts: seq<Task>): multiset<nat>
  {
    if ts == [] then multiset{} else ClaimsOf(mem, ts[0]) + Claims(mem, ts[1..])
  }

  /** A kernel task owns nothing and runs in the kernel's space; a user task's space maps only
      its own pages. */
  ghost predicate GoodTask(mem: Memory, t: Task, kernelSpace: nat, kernelTables: seq<nat>)
  {
    if t.isUser then t.space != 0 && t.space != kernelSpace && GoodSpace(mem, t.space, kernelTables, SetOf(PagesOf(t)))
    else PagesOf(t) == [] && t.space == kernelSpace
  }

  ghost predicate AllGood(mem: Memory, ts: seq<Task>, kernelSpace: nat, kernelTables: seq<nat>)
  {
    forall i | 0 <= i < |ts| :: GoodTask(mem, ts[i], kernelSpace, kernelTables)
  }

  // ---- claims add up ----

  lemma {:induction false} ClaimsSplit(mem: Memory, ts: seq<Task>, i: nat)
    requires i < |ts|
    ensures Claims(mem, ts) == Claims(mem, ts[..i]) + ClaimsOf(mem, ts[i]) + Claims(mem, ts[i + 1..])
  {
    hide ClaimsOf;
    if i > 0 {
      assert ts[..i][0] == ts[0] && ts[..i][1..] == ts[1..][..i - 1];
      ClaimsSplit(mem, ts[1..], i - 1);
      assert ts[1..][i..] == ts[i + 1..];
    }
  }

  lemma {:induction false} ClaimsReplaced(mem: Memory, ts: seq<Task>, i: nat, t: Task)
    requires i < |ts|
    ensures Claims(mem, ts[i := t]) + ClaimsOf(mem, ts[i]) == Claims(mem, ts) + ClaimsOf(mem, t)
  {
    hide ClaimsOf, Claims;
    ClaimsSplit(mem, ts, i);
    ClaimsSplit(mem, ts[i := t], i);
    assert ts[i := t][..i] == ts[..i] && ts[i := t][i + 1..] == ts[i + 1..];
  }

  /** Tasks whose frames are untouched own what they owned. */
  lemma {:induction false} ClaimsSame(m: Memory, m': Memory, ts: seq<Task>, kernelSpace: nat, kernelTables: seq<nat>)
    requires AllGood(m, ts, kernelSpace, kernelTables) && Untouched(m, m', Claims(m, ts))
    ensures Claims(m', ts) == Claims(m, ts) && AllGood(m', ts, kernelSpace, kernelTables)
  {
    hide Claims, ClaimsOf, Untouched, GoodTask;
    forall i | 0 <= i < |ts|
      ensures ClaimsOf(m', ts[i]) == ClaimsOf(m, ts[i]) && GoodTask(m', ts[i], kernelSpace, kernelTables)
    {
      ClaimsSplit(m, ts, i);
      UntouchedLess(m, m', Claims(m, ts), ClaimsOf(m, ts[i]));
      TaskSame(m, m', ts[i], kernelSpace, kernelTables);
    }
    ClaimsEqual(m, m', ts);
  }

  lemma {:induction false} ClaimsEqual(m: Memory, m': Memory, ts: seq<Task>)
    requires forall i | 0 <= i < |ts| :: ClaimsOf(m', ts[i]) == ClaimsOf(m, ts[i])
    ensures Claims(m', ts) == Claims(m, ts)
  {
    hide ClaimsOf;
    if ts != [] {
      ClaimsEqual(m, m', ts[1..]);
    }
  }

  lemma {:induction false} TaskSame(m: Memory, m': Memory, t: Task, kernelSpace: nat, kernelTables: seq<nat>)
    requires GoodTask(m, t, kernelSpace, kernelTables) && Untouched(m, m', ClaimsOf(m, t))
    ensures ClaimsOf(m', t) == ClaimsOf(m, t) && GoodTask(m', t, kernelSpace, kernelTables)
  {
    hide Space, GoodSpace, Untouched, PagesOf;
    if t.isUser {
      UntouchedLess(m, m', ClaimsOf(m, t), Space(m, t.space));
      SpaceSame(m, m', t.space, kernelTables, SetOf(PagesOf(t)));
    }
  }

  // ---- isolation ----

  lemma {:induction false} ClaimedTwice(mem: Memory, ts: seq<Task>, i: nat, j: nat, f: nat)
    requires i < j < |ts| && f in ClaimsOf(mem, ts[i]) && f in ClaimsOf(mem, ts[j])
    ensures Claims(mem, ts)[f] >= 2
  {
    hide ClaimsOf, Claims;
    ClaimsSplit(mem, ts, i);
    ClaimsSplit(mem, ts[i + 1..], j - i - 1);
    assert ts[i + 1..][j - i - 1] == ts[j];
  }

  /** What a user task's private addresses reach are its own pages. */
  lemma {:induction false} ReachesOwnPages(mem: Memory, t: Task, kernelSpace: nat, kernelTables: seq<nat>, v: nat)
    requires GoodTask(mem, t, kernelSpace, kernelTables) && t.isUser
    requires PdeIndex(v) >= KERNEL_TABLES && Translate(mem, t.space, v).Some?
    ensures Translate(mem, t.space, v).value.frame in PagesOf(t)
    ensures Translate(mem, t.space, v).value.frame in ClaimsOf(mem, t)
  {
    hide PdeIndex, PteIndex, PagesOf, Space;
    var f := Translate(mem, t.space, v).value.frame;
    assert GoodTable(mem, mem[t.space].tables[PdeIndex(v)], SetOf(PagesOf(t)));
    assert f in SetOf(PagesOf(t));
    assert f in multiset(PagesOf(t));
  }

  /** Isolation: no frame is reachable from the private addresses of two tasks. */
  lemma {:induction false} NoSharedFrame(mem: Memory, ts: seq<Task>, taken: multiset<nat>, heap: multiset<nat>,
                                         kernelSpace: nat, kernelTables: seq<nat>, i: nat, j: nat, v: nat, w: nat)
    requires AllGood(mem, ts, kernelSpace, kernelTables) && taken == Claims(mem, ts) + heap && forall f :: taken[f] <= 1
    requires i < |ts| && j < |ts| && i != j && ts[i].isUser && ts[j].isUser
    requires PdeIndex(v) >= KERNEL_TABLES && Translate(mem, ts[i].space, v).Some?
    requires PdeIndex(w) >= KERNEL_TABLES && Translate(mem, ts[j].space, w).Some?
    ensures Translate(mem, ts[i].space, v).value.frame != Translate(mem, ts[j].space, w).value.frame
    ensures Translate(mem, ts[i].space, v).value.frame !in heap
  {
    hide PdeIndex, Translate, ClaimsOf, Claims, GoodTask;
    var f, g := Translate(mem, ts[i].space, v).value.frame, Translate(mem, ts[j].space, w).value.frame;
    assert GoodTask(mem, ts[i], kernelSpace, kernelTables) && GoodTask(mem, ts[j], kernelSpace, kernelTables);
    ReachesOwnPages(mem, ts[i], kernelSpace, kernelTables, v);
    ReachesOwnPages(mem, ts[j], kernelSpace, kernelTables, w);
    ClaimsSplit(mem, ts, i);
    assert taken[f] <= 1;
    if f == g {
      ClaimedTwice(mem, ts, if i < j then i else j, if i < j then j else i, f);
    }
  }
}

module KernelTasks {
  import opened Codec
  import opened Frames
  import opened PageTables
  import opened AddressSpaces
  import opened Loading
  import opened Scheduling
  import opened Ownership
  import Elf
  import ElfLoading

  ghost function SlotsOf(ts: seq<Task>): (slots: seq<Slot>)
    ensures |slots| == |ts| && forall i | 0 <= i < |ts| :: slots[i] == Slot(ts[i].pid, ts[i].state)
  {
    seq(|ts|, i requires 0 <= i < |ts| => Slot(ts[i].pid, ts[i].state))
  }

  /** A slot with nothing in it but its pid and state. */
  function Blank(t: Task, kernelSpace: nat): Task
  {
    t.(isUser := false, code := 0, stack := 0, elfPages := [], space := kernelSpace)
  }

  /** Pid and state own nothing. */
  lemma {:induction false} Relabelled(mem: Memory, ts: seq<Task>, i: nat, t: Task, kernelSpace: nat, kernelTables: seq<nat>)
    requires i < |ts| && AllGood(mem, ts, kernelSpace, kernelTables) && t == ts[i].(pid := t.pid, state := t.state)
    ensures Claims(mem, ts[i := t]) == Claims(mem, ts) && AllGood(mem, ts[i := t], kernelSpace, kernelTables)
  {
    hide Claims, ClaimsOf, GoodTask;
    SameOwner(mem, ts[i], t, kernelSpace, kernelTables);
    ClaimsReplaced(mem, ts, i, t);
    Cancel(Claims(mem, ts[i := t]), Claims(mem, ts), ClaimsOf(mem, t));
  }

  lemma {:induction false} SameOwner(mem: Memory, t: Task, t': Task, kernelSpace: nat, kernelTables: seq<nat>)
    requires GoodTask(mem, t, kernelSpace, kernelTables) && t' == t.(pid := t'.pid, state := t'.state)
    ensures ClaimsOf(mem, t') == ClaimsOf(mem, t) && GoodTask(mem, t', kernelSpace, kernelTables)
  {
    hide Space, GoodSpace;
  }

  lemma {:induction false} Cancel(a: multiset<nat>, b: multiset<nat>, c: multiset<nat>)
    requires a + c == b + c
    ensures a == b
  {
    assert a == a + c - c && b == b + c - c;
  }

  lemma {:induction false} Relabels(ts: seq<Task>, i: nat, t: Task)
    requires i < |ts|
    ensures SlotsOf(ts[i := t]) == SlotsOf(ts)[i := Slot(t.pid, t.state)]
  {
  }

  class Kernel {
    const paging: Paging
    const tasks: array<Task>
    var currentTaskIndex: int
    var nextPid: nat
    /** The frames the heap holds. */
    ghost var heap: multiset<nat>

    /** Every taken frame has exactly one owner and every space maps only its owner's pages. */
    ghost predicate Valid()
      reads this, paging, paging.frames, paging.frames.bitmap, tasks
    {
      paging.Valid() && tasks.Length == MAX_TASKS && -1 <= currentTaskIndex < MAX_TASKS &&
      AllGood(paging.mem, tasks[..], paging.kernelSpace, paging.kernelTables) &&
      paging.frames.Taken() == Claims(paging.mem, tasks[..]) + heap
    }

    ghost function View(): Sched
      reads this, tasks
    {
      Sched(SlotsOf(tasks[..]), currentTaskIndex, nextPid)
    }

    /** Only the idle task, ready to run; what the heap already took stays the heap's. */
    constructor (paging: Paging)
      requires paging.Valid()
      ensures Valid() && fresh(tasks) && this.paging == paging && heap == paging.frames.Taken() && View() == Boot()
    {
      var empty := Task(0, Unused, false, 0, 0, [], paging.kernelSpace);
      this.paging := paging;
      tasks := new Task[MAX_TASKS](i => empty);
      currentTaskIndex, nextPid := -1, 2;
      heap := paging.frames.Taken();
      new;
      hide FrameAllocator.Taken, FrameAllocator.Valid, GoodTask, Claims, Boot, SlotsOf;
      tasks[0] := empty.(pid := 1, state := Ready);
      BootTable(paging.mem, tasks[..], empty, paging.kernelSpace, paging.kernelTables);
    }

    /** Changes one task's state. */
    method SetTaskState(i: nat, p: ProcessState)
      requires Valid() && i < MAX_TASKS
      modifies tasks
      ensures Valid() && View() == old(View()).(slots := SetState(old(View()).slots, i, p))
    {
      hide Claims, AllGood, FrameAllocator.Taken;
      ghost var t := tasks[i].(state := p);
      Relabelled(paging.mem, tasks[..], i, t, paging.kernelSpace, paging.kernelTables);
      Relabels(tasks[..], i, t);
      ghost var was := tasks[..];
      tasks[i] := tasks[i].(state := p);
      assert tasks[..] == was[i := t];
    }

    method PickNextTask(from: int) returns (next: int)
      requires Valid() && -1 <= from < MAX_TASKS
      ensures next == PickNext(View().slots, from)
    {
      var start := if from < 0 then 0 else from;
      var offset := 1;
      hide Claims, AllGood, After, FrameAllocator.Taken;
      while offset <= MAX_TASKS
        invariant 1 <= offset <= MAX_TASKS + 1
        invariant PickFrom(View().slots, start, offset) == PickNext(View().slots, from)
      {
        var idx := After(start, offset);
        if tasks[idx].state == Ready || tasks[idx].state == Running {
          return idx;
        }
        offset := offset + 1;
      }
      next := -1;
    }

    method SwitchToTask(next: nat)
      requires Valid() && next < MAX_TASKS
      modifies this`currentTaskIndex, tasks
      ensures Valid() && View() == SwitchTo(old(View()), next)
    {
      hide Claims, AllGood, FrameAllocator.Taken;
      if currentTaskIndex >= 0 && tasks[currentTaskIndex].state == Running {
        SetTaskState(currentTaskIndex, Ready);
      }
      SetTaskState(next, Running);
      currentTaskIndex := next;
    }

    /** The timer tick, and a yield. */
    method OnTick()
      requires Valid()
      modifies this`currentTaskIndex, tasks
      ensures Valid() && View() == Tick(old(View()))
    {
      hide Claims, AllGood, FrameAllocator.Taken, SwitchTo, PickNext;
      if currentTaskIndex < 0 {
        SwitchToTask(0);
        return;
      }
      var next := PickNextTask(currentTaskIndex);
      Bounded(View().slots, currentTaskIndex);
      if next < 0 || next == currentTaskIndex {
        return;
      }
      SwitchToTask(next);
    }

    /** Exit, termination after a fault, and blocking. */
    method LeaveProcessor(p: ProcessState)
      requires Valid() && (p == Dead || p == Blocked)
      modifies this`currentTaskIndex, tasks
      ensures Valid() && View() == Leave(old(View()), p)
    {
      hide Claims, AllGood, FrameAllocator.Taken, Tick;
      if currentTaskIndex >= 0 {
        SetTaskState(currentTaskIndex, p);
      }
      OnTick();
    }

    method UnblockTask(pid: nat)
      requires Valid()
      modifies tasks
      ensures Valid() && View() == Unblock(old(View()), pid)
    {
      hide Claims, AllGood, FrameAllocator.Taken;
      var i := 0;
      while i < MAX_TASKS
        invariant 0 <= i <= MAX_TASKS
        invariant IndexForPidFrom(View().slots, pid, i) == IndexForPidFrom(View().slots, pid, 0)
      {
        if tasks[i].pid == pid && (tasks[i].state == Ready || tasks[i].state == Running || tasks[i].state == Blocked) {
          if tasks[i].state == Blocked {
            SetTaskState(i, Ready);
          }
          return;
        }
        i := i + 1;
      }
    }

    method FindSlot(wanted: ProcessState) returns (slot: int)
      requires Valid()
      ensures slot == FindFrom(View().slots, wanted, 0)
    {
      hide Claims, AllGood, FrameAllocator.Taken;
      var i := 0;
      while i < MAX_TASKS
        invariant 0 <= i <= MAX_TASKS
        invariant FindFrom(View().slots, wanted, i) == FindFrom(View().slots, wanted, 0)
      {
        if tasks[i].state == wanted {
          return i;
        }
        i := i + 1;
      }
      slot := -1;
    }

    /** Where a new task goes. */
    method SlotForNewTask() returns (slot: int)
      requires Valid()
      ensures slot == SlotForNew(View().slots) && -1 <= slot < MAX_TASKS
    {
      hide Claims, AllGood, FrameAllocator.Taken, FindFrom;
      NewSlot(View().slots);
      slot := FindSlot(Unused);
      if slot < 0 {
        slot := FindSlot(Dead);
      }
    }

    /** Gives back everything the slot's last task owned. */
    method ReclaimSlot(slot: nat)
      requires Valid() && slot < MAX_TASKS
      modifies paging, paging.frames, paging.frames.bitmap, tasks
      ensures Valid()
      ensures tasks[..] == old(tasks[..])[slot := Blank(old(tasks[..])[slot], paging.kernelSpace)]
      ensures paging.frames.Taken() == old(paging.frames.Taken()) - ClaimsOf(old(paging.mem), old(tasks[..])[slot])
      ensures Untouched(old(paging.mem), paging.mem, paging.frames.Taken())
    {
      hide Claims, ClaimsOf, AllGood, GoodTask, Untouched, Space, GoodSpace, PagesOf, FrameAllocator.Taken, FrameAllocator.Valid;
      ghost var mem0, ts := paging.mem, tasks[..];
      var t := tasks[slot];
      ghost var rest := paging.frames.Taken() - ClaimsOf(mem0, t);
      WithoutTask(mem0, ts, slot, paging.kernelSpace, paging.kernelTables, heap, paging.frames.Taken());
      FreeTask(t, rest);
      tasks[slot] := Blank(t, paging.kernelSpace);
      ghost var ts' := ts[slot := Blank(t, paging.kernelSpace)];
      assert tasks[..] == ts';
      UntouchedLess(mem0, paging.mem, rest, Claims(mem0, ts'));
      ClaimsSame(mem0, paging.mem, ts', paging.kernelSpace, paging.kernelTables);
    }

    method FreeTask(t: Task, ghost rest: multiset<nat>)
      requires paging.Valid() && GoodTask(paging.mem, t, paging.kernelSpace, paging.kernelTables)
      requires paging.frames.Taken() == rest + ClaimsOf(paging.mem, t)
      modifies paging, paging.frames, paging.frames.bitmap
      ensures paging.Valid() && paging.frames.Taken() == rest && Untouched(old(paging.mem), paging.mem, rest)
    {
      hide Untouched, Space, GoodSpace, PagesOf, FrameAllocator.Taken, FrameAllocator.Valid;
      UntouchedSame(paging.mem, rest);
      if t.isUser && t.space != 0 {
        ghost var space := Space(paging.mem, t.space);
        assert rest + space + multiset(PagesOf(t)) == paging.frames.Taken();
        FreeAll(paging, PagesOf(t), rest + space);
        assert rest + space - space == rest;
        paging.DestroySpace(t.space, SetOf(PagesOf(t)));
      } else {
        FreeAll(paging, PagesOf(t), rest);
      }
    }

    /** Puts a finished task, whose frames are so far counted with the heap, in the slot. */
    method Commit(slot: nat, t: Task, ghost kept: multiset<nat>)
      requires Valid() && slot < MAX_TASKS && t.isUser
      requires GoodTask(paging.mem, t, paging.kernelSpace, paging.kernelTables) && heap == kept + ClaimsOf(paging.mem, t)
      modifies this`heap, paging, paging.frames, paging.frames.bitmap, tasks
      ensures Valid() && heap == kept
      ensures tasks[..] == old(tasks[..])[slot := t]
      ensures Untouched(old(paging.mem), paging.mem, ClaimsOf(old(paging.mem), t))
      ensures ClaimsOf(paging.mem, t) == ClaimsOf(old(paging.mem), t)
    {
      hide Claims, ClaimsOf, AllGood, GoodTask, Untouched, FrameAllocator.Taken, FrameAllocator.Valid;
      ghost var mem0 := paging.mem;
      ReclaimSlot(slot);
      ghost var ts := tasks[..];
      assert ClaimsOf(mem0, t) <= paging.frames.Taken();
      UntouchedLess(mem0, paging.mem, paging.frames.Taken(), ClaimsOf(mem0, t));
      TaskSame(mem0, paging.mem, t, paging.kernelSpace, paging.kernelTables);
      InSlot(paging.mem, ts, slot, t, paging.kernelSpace, paging.kernelTables, kept);
      tasks[slot] := t;
      assert tasks[..] == ts[slot := t];
      heap := kept;
    }

    /** A kernel task: needs a slot and nothing else. */
    method CreateTask() returns (pid: Option<nat>)
      requires Valid()
      modifies this`nextPid, paging, paging.frames, paging.frames.bitmap, tasks
      ensures Valid()
      ensures pid.None? <==> SlotForNew(old(View()).slots) < 0
      ensures pid.None? ==> unchanged(this) && unchanged(tasks) && unchanged(paging.frames.bitmap)
      ensures View() == Create(old(View()), true)
      ensures pid.Some? ==> pid.value == old(nextPid)
    {
      hide Claims, ClaimsOf, AllGood, GoodTask, Untouched, FrameAllocator.Taken, FrameAllocator.Valid, SlotForNew, SlotsOf;
      var slot := SlotForNewTask();
      if slot < 0 {
        return None;
      }
      ReclaimSlot(slot);
      pid := Some(nextPid);
      Start(slot, tasks[slot].(pid := nextPid, state := Ready));
      SlotsReplaced(old(tasks[..]), slot, Blank(old(tasks[..])[slot], paging.kernelSpace), tasks[slot]);
    }

    /** Relabels a slot and moves on to the next pid. */
    method Start(slot: nat, t: Task)
      requires Valid() && slot < MAX_TASKS && t == tasks[slot].(pid := nextPid, state := Ready)
      modifies this`nextPid, tasks
      ensures Valid() && tasks[..] == old(tasks[..])[slot := t] && nextPid == (old(nextPid) + 1) % PIDS
    {
      hide Claims, AllGood, FrameAllocator.Taken, FrameAllocator.Valid;
      Relabelled(paging.mem, tasks[..], slot, t, paging.kernelSpace, paging.kernelTables);
      ghost var was := tasks[..];
      tasks[slot] := t;
      assert tasks[..] == was[slot := t];
      nextPid := (nextPid + 1) % PIDS;
    }

    /** A build that failed left everything as it was. */
    lemma NothingLost(bits: seq<bool>, mem0: Memory, taken0: multiset<nat>)
      requires paging.Valid() && tasks.Length == MAX_TASKS && -1 <= currentTaskIndex < MAX_TASKS
      requires AllGood(mem0, tasks[..], paging.kernelSpace, paging.kernelTables) && taken0 == Claims(mem0, tasks[..]) + heap
      requires Untouched(mem0, paging.mem, taken0) && paging.frames.Taken() == taken0
      requires |bits| == PAGE_COUNT && taken0 == multiset(TakenIn(bits, paging.frames.reservedPages))
      requires forall f | 0 <= f < paging.frames.reservedPages :: bits[f]
      ensures Valid() && paging.frames.bitmap[..] == bits
    {
      SameTaken(bits, paging.frames.bitmap[..], paging.frames.reservedPages);
      hide Claims, AllGood, Untouched;
      UntouchedLess(mem0, paging.mem, taken0, Claims(mem0, tasks[..]));
      ClaimsSame(mem0, paging.mem, tasks[..], paging.kernelSpace, paging.kernelTables);
    }

    /** A build that succeeded, put in its slot. */
    method Install(slot: nat, t: Task, ghost mem0: Memory, ghost taken0: multiset<nat>)
      requires paging.Valid() && tasks.Length == MAX_TASKS && -1 <= currentTaskIndex < MAX_TASKS && slot < MAX_TASKS
      requires AllGood(mem0, tasks[..], paging.kernelSpace, paging.kernelTables) && taken0 == Claims(mem0, tasks[..]) + heap
      requires Untouched(mem0, paging.mem, taken0) && paging.frames.Taken() == taken0 + ClaimsOf(paging.mem, t)
      requires t.isUser && GoodTask(paging.mem, t, paging.kernelSpace, paging.kernelTables) && t.pid == nextPid && t.state == Ready
      modifies this`nextPid, this`heap, paging, paging.frames, paging.frames.bitmap, tasks
      ensures Valid() && heap == old(heap)
      ensures tasks[..] == old(tasks[..])[slot := t] && nextPid == (old(nextPid) + 1) % PIDS
      ensures Untouched(old(paging.mem), paging.mem, ClaimsOf(old(paging.mem), t))
    {
      hide Claims, ClaimsOf, AllGood, GoodTask, Untouched, FrameAllocator.Taken, FrameAllocator.Valid;
      UntouchedLess(mem0, paging.mem, taken0, Claims(mem0, tasks[..]));
      ClaimsSame(mem0, paging.mem, tasks[..], paging.kernelSpace, paging.kernelTables);
      ghost var kept, extra := heap, ClaimsOf(paging.mem, t);
      heap := kept + extra;
      assert Claims(paging.mem, tasks[..]) + (kept + extra) == taken0 + extra;
      nextPid := (nextPid + 1) % PIDS;
      Commit(slot, t, kept);
    }

    /** A user task from a flat binary.  Refused, with every frame as it was, for code larger
        than a page, without a slot, or with fewer than four frames free. */
    method CreateUserTask(code: Bytes) returns (pid: Option<nat>)
      requires Valid()
      modifies this`nextPid, this`heap, paging, paging.frames, paging.frames.bitmap, tasks
      ensures Valid() && heap == old(heap)
      ensures pid.None? <==> |code| > PAGE_SIZE || SlotForNew(old(View()).slots) < 0 || old(paging.frames.FreePages()) < 4
      ensures pid.None? ==> View() == old(View()) && tasks[..] == old(tasks[..]) &&
                            paging.frames.bitmap[..] == old(paging.frames.bitmap[..])
      ensures pid.Some? ==> pid.value == old(nextPid) && View() == Create(old(View()), true)
      ensures pid.Some? ==> var slot := SlotForNew(old(View()).slots);
                            0 <= slot < MAX_TASKS && tasks[slot].isUser && |code| <= PAGE_SIZE &&
                            Loaded(paging.mem, tasks[slot].space, FlatJobs(code), [tasks[slot].code, tasks[slot].stack])
    {
      hide Claims, ClaimsOf, AllGood, GoodTask, Untouched, Loaded, FlatJobs, Building, SlotForNew, SlotsOf, TakenIn, PagesOf,
           FrameAllocator.Taken, FrameAllocator.Valid;
      if |code| > PAGE_SIZE {
        return None;
      }
      var slot := SlotForNewTask();
      if slot < 0 {
        return None;
      }
      ghost var mem0, taken0, bits := paging.mem, paging.frames.Taken(), paging.frames.bitmap[..];
      paging.frames.Bits();
      var b := BuildFlat(paging, code);
      if b.None? {
        NothingLost(bits, mem0, taken0);
        return None;
      }
      var t := Task(nextPid, Ready, true, b.value.code, b.value.stack, [], b.value.space);
      FlatPages(t);
      BuiltTask(paging, mem0, taken0, t, [t.code, t.stack]);
      pid := Some(nextPid);
      ghost var built := paging.mem;
      Install(slot, t, mem0, taken0);
      InstalledLoaded(built, paging.mem, t, [t.code, t.stack], FlatJobs(code), paging.kernelSpace, paging.kernelTables);
      Relabels(old(tasks[..]), slot, t);
    }

    /** A user task from an ELF image.  Refused, with every frame as it was, for an image that
        does not validate, without a slot, or with too few frames free for its pages, a
        directory, a table and a stack. */
    method CreateElfTask(image: Bytes) returns (pid: Option<nat>)
      requires Valid()
      modifies this`nextPid, this`heap, paging, paging.frames, paging.frames.bitmap, tasks
      ensures Valid() && heap == old(heap)
      ensures pid.None? <==> !ElfAccepted(image) || SlotForNew(old(View()).slots) < 0 ||
                             old(paging.frames.FreePages()) < Elf.TotalPages(ElfPlan(image).segments) + 3
      ensures pid.None? ==> View() == old(View()) && tasks[..] == old(tasks[..]) &&
                            paging.frames.bitmap[..] == old(paging.frames.bitmap[..])
      ensures pid.Some? ==> pid.value == old(nextPid) && View() == Create(old(View()), true)
      ensures pid.Some? ==> var slot := SlotForNew(old(View()).slots);
                            0 <= slot < MAX_TASKS && tasks[slot].isUser && ElfAccepted(image) &&
                            Loaded(paging.mem, tasks[slot].space, ElfJobs(image), tasks[slot].elfPages + [tasks[slot].stack])
    {
      hide Claims, ClaimsOf, AllGood, GoodTask, Untouched, Loaded, Building, SlotForNew, SlotsOf, TakenIn, Elf.TotalPages,
           FrameAllocator.Taken, FrameAllocator.Valid, ElfLoading.PlanJobs, Elf.GoodPlan, Elf.HeaderOk, ElfLoading.AllInFile;
      var validation := Elf.ValidateAndPlan(image);
      if validation.Rejected? {
        return None;
      }
      var plan := validation.plan;
      PlanInFile(plan, image);
      var slot := SlotForNewTask();
      if slot < 0 {
        return None;
      }
      ghost var mem0, taken0, bits := paging.mem, paging.frames.Taken(), paging.frames.bitmap[..];
      paging.frames.Bits();
      var b := ElfLoading.BuildElf(paging, image, plan);
      if b.None? {
        NothingLost(bits, mem0, taken0);
        return None;
      }
      var t := Task(nextPid, Ready, true, 0, b.value.stack, b.value.pages, b.value.space);
      ghost var pages := t.elfPages + [t.stack];
      ElfPages(t);
      BuiltTask(paging, mem0, taken0, t, pages);
      pid := Some(nextPid);
      ghost var built := paging.mem;
      Install(slot, t, mem0, taken0);
      InstalledLoaded(built, paging.mem, t, pages, ElfJobs(image), paging.kernelSpace, paging.kernelTables);
      Relabels(old(tasks[..]), slot, t);
    }

    /** The heap takes a page of its own. */
    method HeapPage() returns (frame: nat)
      requires Valid()
      modifies this`heap, paging.frames, paging.frames.bitmap
      ensures Valid() && heap == old(heap) + if frame == 0 then multiset{} else multiset{frame}
      ensures frame == 0 <==> old(paging.frames.FreePages()) == 0
      ensures frame != 0 ==> old(heap)[frame] == 0
    {
      hide Claims, AllGood, FrameAllocator.Taken, FrameAllocator.Valid;
      frame := paging.frames.AllocPage();
      if frame != 0 {
        heap := heap + multiset{frame};
      }
    }

    /** No frame is reachable from the private addresses of two tasks, nor is a heap page from
        any. */
    lemma Isolation(i: nat, j: nat, v: nat, w: nat)
      requires Valid() && i < MAX_TASKS && j < MAX_TASKS && i != j && tasks[i].isUser && tasks[j].isUser
      requires PdeIndex(v) >= KERNEL_TABLES && Translate(paging.mem, tasks[i].space, v).Some?
      requires PdeIndex(w) >= KERNEL_TABLES && Translate(paging.mem, tasks[j].space, w).Some?
      ensures Translate(paging.mem, tasks[i].space, v).value.frame != Translate(paging.mem, tasks[j].space, w).value.frame
      ensures Translate(paging.mem, tasks[i].space, v).value.frame !in heap
    {
      hide AllGood, Claims, Translate, PdeIndex, FrameAllocator.Taken, FrameAllocator.Valid;
      forall f ensures paging.frames.Taken()[f] <= 1 { paging.frames.TakenOnce(f); }
      NoSharedFrame(paging.mem, tasks[..], paging.frames.Taken(), heap, paging.kernelSpace, paging.kernelTables, i, j, v, w);
    }
  }

  /** The plan the program headers describe. */
  function ElfPlan(image: Bytes): Elf.Plan
  {
    if Elf.HeaderOk(image) then Elf.Plan(Elf.U32At(image, 24), Elf.Loads(image, Elf.U16(image, 44))) else Elf.Plan(0, [])
  }

  ghost predicate ElfAccepted(image: Bytes)
  {
    Elf.HeaderOk(image) && Elf.GoodPlan(ElfPlan(image), |image|)
  }

  /** Its pages, in the order they are loaded, and the stack. */
  ghost function ElfJobs(image: Bytes): seq<Job>
    requires ElfAccepted(image)
  {
    PlanInFile(ElfPlan(image), image);
    ElfLoading.PlanJobs(image, ElfPlan(image).segments) + [ElfLoading.StackJob()]
  }

  lemma {:induction false} PlanInFile(plan: Elf.Plan, image: Bytes)
    requires Elf.GoodPlan(plan, |image|)
    ensures ElfLoading.AllInFile(plan.segments, image)
  {
    forall i | 0 <= i < |plan.segments|
      ensures ElfLoading.InFile(plan.segments[i], image)
    {
      assert Elf.Fits(plan.segments[i], |image|);
    }
  }

  lemma {:induction false} FlatPages(t: Task)
    requires t.code != 0 && t.stack != 0 && t.elfPages == []
    ensures multiset(PagesOf(t)) == multiset([t.code, t.stack])
  {
    assert PagesOf(t) == [t.code, t.stack];
  }

  lemma {:induction false} ElfPages(t: Task)
    requires t.code == 0 && t.stack != 0
    ensures multiset(PagesOf(t)) == multiset(t.elfPages + [t.stack])
  {
    assert PagesOf(t) == [t.stack] + t.elfPages;
  }

  lemma {:induction false} SlotsReplaced(ts: seq<Task>, slot: nat, once: Task, twice: Task)
    requires slot < |ts|
    ensures ts[slot := once][slot := twice] == ts[slot := twice]
    ensures SlotsOf(ts[slot := twice]) == SlotsOf(ts)[slot := Slot(twice.pid, twice.state)]
  {
  }

  lemma {:induction false} SameTaken(a: seq<bool>, b: seq<bool>, reserved: nat)
    requires |a| == |b| && reserved <= |a| && multiset(TakenIn(a, reserved)) == multiset(TakenIn(b, reserved))
    requires forall f | 0 <= f < reserved :: a[f] == b[f]
    ensures a == b
  {
    forall f
      ensures f in TakenIn(a, reserved) <==> f in TakenIn(b, reserved)
    {
      assert multiset(TakenIn(a, reserved))[f] == multiset(TakenIn(b, reserved))[f];
    }
    BitmapDetermined(a, b, reserved);
  }

  /** A finished build makes a good task that claims exactly what was taken. */
  lemma {:induction false} BuiltTask(paging: Paging, mem0: Memory, base: multiset<nat>, t: Task, pages: seq<nat>)
    requires paging.Valid() && t.isUser && multiset(PagesOf(t)) == multiset(pages)
    requires Building(mem0, paging.mem, base, paging.frames.Taken(), paging.kernelTables, t.space, pages)
    ensures GoodTask(paging.mem, t, paging.kernelSpace, paging.kernelTables)
    ensures paging.frames.Taken() == base + ClaimsOf(paging.mem, t) && Untouched(mem0, paging.mem, base)
  {
    hide FrameAllocator.Taken, FrameAllocator.Valid, Space, GoodSpace, Untouched, PagesOf;
    ElfLoading.SpaceIsDirectory(paging.mem, t.space, paging.kernelTables, SetOf(pages));
    paging.frames.TakenOnce(t.space);
    SameSet(PagesOf(t), pages);
  }

  lemma {:induction false} SameSet(a: seq<nat>, b: seq<nat>)
    requires multiset(a) == multiset(b)
    ensures SetOf(a) == SetOf(b)
  {
    forall x
      ensures x in SetOf(a) <==> x in SetOf(b)
    {
      assert x in a <==> x in multiset(a);
      assert x in b <==> x in multiset(b);
    }
  }

  lemma {:induction false} InstalledLoaded(m: Memory, m': Memory, t: Task, pages: seq<nat>, jobs: seq<Job>,
                                           kernelSpace: nat, kernelTables: seq<nat>)
    requires t.isUser && multiset(PagesOf(t)) == multiset(pages) && GoodTask(m, t, kernelSpace, kernelTables)
    requires Loaded(m, t.space, jobs, pages) && Untouched(m, m', ClaimsOf(m, t))
    ensures Loaded(m', t.space, jobs, pages)
  {
    hide Loaded, Untouched, Space, GoodSpace, PagesOf;
    UntouchedLess(m, m', ClaimsOf(m, t), Space(m, t.space));
    UntouchedLess(m, m', ClaimsOf(m, t), multiset(pages));
    SameSet(PagesOf(t), pages);
    ElfLoading.LoadedStill(m, m', t.space, kernelTables, pages, jobs);
  }

  /** The claims without those of one task. */
  lemma {:induction false} WithoutTask(mem: Memory, ts: seq<Task>, slot: nat, kernelSpace: nat, kernelTables: seq<nat>,
                                       heap: multiset<nat>, taken: multiset<nat>)
    requires slot < |ts| && AllGood(mem, ts, kernelSpace, kernelTables) && taken == Claims(mem, ts) + heap
    ensures var ts' := ts[slot := Blank(ts[slot], kernelSpace)];
            AllGood(mem, ts', kernelSpace, kernelTables) &&
            taken - ClaimsOf(mem, ts[slot]) == Claims(mem, ts') + heap &&
            taken == taken - ClaimsOf(mem, ts[slot]) + ClaimsOf(mem, ts[slot]) &&
            GoodTask(mem, ts[slot], kernelSpace, kernelTables)
  {
    hide Claims, ClaimsOf, GoodTask, Blank;
    assert GoodTask(mem, ts[slot], kernelSpace, kernelTables);
    BlankOwnsNothing(mem, ts[slot], kernelSpace, kernelTables);
    var blank := Blank(ts[slot], kernelSpace);
    ClaimsReplaced(mem, ts, slot, blank);
    Removed(Claims(mem, ts), Claims(mem, ts[slot := blank]), ClaimsOf(mem, ts[slot]), heap);
  }

  lemma {:induction false} BlankOwnsNothing(mem: Memory, t: Task, kernelSpace: nat, kernelTables: seq<nat>)
    ensures GoodTask(mem, Blank(t, kernelSpace), kernelSpace, kernelTables) && ClaimsOf(mem, Blank(t, kernelSpace)) == multiset{}
    ensures !t.isUser && GoodTask(mem, t, kernelSpace, kernelTables) ==> ClaimsOf(mem, t) == multiset{}
  {
    hide Space, GoodSpace;
  }

  lemma {:induction false} Removed(x: multiset<nat>, x': multiset<nat>, a: multiset<nat>, heap: multiset<nat>)
    requires x' + a == x
    ensures x + heap - a == x' + heap && x + heap - a + a == x + heap
  {
  }

  lemma {:induction false} Regroup(x: multiset<nat>, a: multiset<nat>, kept: multiset<nat>)
    ensures x + (kept + a) == (x + a) + kept
  {
  }

  lemma {:induction false} InSlot(mem: Memory, ts: seq<Task>, slot: nat, t: Task, kernelSpace: nat, kernelTables: seq<nat>,
                                   kept: multiset<nat>)
    requires slot < |ts| && AllGood(mem, ts, kernelSpace, kernelTables) && !ts[slot].isUser
    requires GoodTask(mem, t, kernelSpace, kernelTables)
    ensures AllGood(mem, ts[slot := t], kernelSpace, kernelTables)
    ensures Claims(mem, ts) + (kept + ClaimsOf(mem, t)) == Claims(mem, ts[slot := t]) + kept
  {
    hide Claims, ClaimsOf, GoodTask;
    assert GoodTask(mem, ts[slot], kernelSpace, kernelTables);
    BlankOwnsNothing(mem, ts[slot], kernelSpace, kernelTables);
    ClaimsReplaced(mem, ts, slot, t);
    assert Claims(mem, ts[slot := t]) + multiset{} == Claims(mem, ts[slot := t]);
    Regroup(Claims(mem, ts), ClaimsOf(mem, t), kept);
  }

  lemma {:induction false} NobodyClaims(mem: Memory, ts: seq<Task>)
    requires forall i | 0 <= i < |ts| :: !ts[i].isUser && PagesOf(ts[i]) == []
    ensures Claims(mem, ts) == multiset{}
  {
    hide PagesOf;
    if ts != [] {
      NobodyClaims(mem, ts[1..]);
    }
  }

  lemma {:induction false} BootTable(mem: Memory, ts: seq<Task>, empty: Task, kernelSpace: nat, kernelTables: seq<nat>)
    requires |ts| == MAX_TASKS && empty == Task(0, Unused, false, 0, 0, [], kernelSpace)
    requires ts[0] == empty.(pid := 1, state := Ready) && forall i | 0 < i < |ts| :: ts[i] == empty
    ensures Claims(mem, ts) == multiset{} && AllGood(mem, ts, kernelSpace, kernelTables)
    ensures Sched(SlotsOf(ts), -1, 2) == Boot()
  {
    hide GoodSpace, Claims;
    NobodyClaims(mem, ts);
  }

  lemma {:induction false} Bounded(slots: seq<Slot>, from: nat)
    requires |slots| == MAX_TASKS
    ensures -1 <= PickNext(slots, from) < MAX_TASKS
  {
    Picked(slots, from, 1);
  }
}
