/**
  The kernel's own data structures: one table per field of task_t and scheduler_cpu_t that
  the scheduler and the process calls rewrite, with run queues and child lists threaded
  through the link fields. The ghost sequences queues and kids are the lists the links spell.
  Every method is proved against the corresponding function of TaskSystem.System.
 */
module KernelTables {
  import opened IntrusiveLists
  import opened TaskSystem
  import opened TaskInvariants
  import opened TaskCalls
  import opened TaskRuns
  import opened KernelLinks
  import opened TaskBoot

  class Kernel {
    var procs: seq<Proc>
    var onRq: seq<bool>
    var rqPrev: seq<int>
    var rqNext: seq<int>
    var firstChild: seq<int>
    var sibPrev: seq<int>
    var sibNext: seq<int>
    var rqHead: seq<int>
    var rqTail: seq<int>
    var current: seq<int>
    var local: int
    var nextPid: int
    const userSlots: nat

    ghost var kids: seq<seq<int>>
    ghost var queues: seq<seq<int>>

    ghost function Abs(): System
      reads this
    {
      System(procs, kids, queues, current, local, nextPid, userSlots)
    }

    /** The tables have one entry per task or CPU, and the links spell the lists. */
    ghost predicate Linked()
      reads this
    {
      && |onRq| == |rqPrev| == |rqNext| == |firstChild| == |sibPrev| == |sibNext| == |procs|
      && |rqHead| == |rqTail| == |queues|
      && Abs().Sized() && Abs().Shape()
      && RqSpelled(Abs(), onRq, rqPrev, rqNext, rqHead, rqTail)
      && KidsSpelled(Abs(), firstChild, sibPrev, sibNext)
    }

    ghost predicate Valid()
      reads this
    {
      Linked() && Inv(Abs())
    }

    // ----- scheduler.c -----

    /** Stores rewritten run-queue links, which spell the queues of s. */
    method StoreRq(on: seq<bool>, prev: seq<int>, next: seq<int>, head: seq<int>, tail: seq<int>, ghost s: System)
      requires Linked() && s == Abs().(queues := s.queues) && |s.queues| == |queues|
      requires |on| == |prev| == |next| == |procs| && |head| == |tail| == |queues|
      requires s.Sized() && s.Shape() && RqSpelled(s, on, prev, next, head, tail)
      requires KidsSpelled(s, firstChild, sibPrev, sibNext)
      modifies `onRq, `rqPrev, `rqNext, `rqHead, `rqTail, `queues
      ensures Linked() && Abs() == s && onRq == on
    {
      hide RqSpelled, KidsSpelled, System.Shape;
      onRq, rqPrev, rqNext, rqHead, rqTail, queues := on, prev, next, head, tail, s.queues;
    }

    method RqRemove(c: int, t: int)
      requires Linked() && Abs().Slot(t) && Abs().Cpu(c) && (onRq[t] ==> procs[t].cpu == c)
      modifies `onRq, `rqPrev, `rqNext, `rqHead, `rqTail, `queues
      ensures Linked() && !onRq[t] && Abs() == old(Abs()).Dequeue(t)
    {
      hide RqSpelled, KidsSpelled, System.Shape, Without;
      QueuedIff(Abs(), onRq, rqPrev, rqNext, rqHead, rqTail, t);
      if !onRq[t] { return; }
      RemoveRq(Abs(), onRq, rqPrev, rqNext, rqHead, rqTail, t);
      DequeueShape(Abs(), t);
      KidsFrame(Abs(), Abs().Dequeue(t), firstChild, sibPrev, sibNext);
      var p, n := rqPrev[t], rqNext[t];
      StoreRq(onRq[t := false],
              (if n != NULL then rqPrev[n := p] else rqPrev)[t := NULL],
              (if p != NULL then rqNext[p := n] else rqNext)[t := NULL],
              if p != NULL then rqHead else rqHead[c := n],
              if n != NULL then rqTail else rqTail[c := p],
              Abs().Dequeue(t));
    }

    method RqPushTail(c: int, t: int)
      requires Linked() && Abs().Slot(t) && Abs().Cpu(c) && procs[t].cpu == c
      modifies `onRq, `rqPrev, `rqNext, `rqHead, `rqTail, `queues
      ensures Linked() && Abs() == old(Abs()).PushTail(c, t)
    {
      hide RqSpelled, KidsSpelled, System.Shape;
      QueuedIff(Abs(), onRq, rqPrev, rqNext, rqHead, rqTail, t);
      if onRq[t] { return; }
      PushRq(Abs(), onRq, rqPrev, rqNext, rqHead, rqTail, c, t);
      PushTailShape(Abs(), c, t);
      KidsFrame(Abs(), Abs().PushTail(c, t), firstChild, sibPrev, sibNext);
      var last := rqTail[c];
      StoreRq(onRq[t := true],
              rqPrev[t := last],
              if last != NULL then rqNext[t := NULL][last := t] else rqNext[t := NULL],
              if last != NULL then rqHead else rqHead[c := t],
              rqTail[c := t],
              Abs().PushTail(c, t));
    }

    method RqPopHead(c: int) returns (t: int)
      requires Linked() && Abs().Cpu(c)
      modifies `onRq, `rqPrev, `rqNext, `rqHead, `rqTail, `queues
      ensures Linked() && (t == NULL || Abs().Slot(t))
      ensures t == At(old(queues)[c], 0) && (t == NULL <==> old(queues)[c] == [])
      ensures Abs() == old(Abs()).(queues := old(queues)[c := if old(queues)[c] == [] then [] else old(queues)[c][1..]])
    {
      hide RqSpelled, KidsSpelled, System.Shape, Without;
      t := rqHead[c];
      TailInTable(Abs(), onRq, rqPrev, rqNext, rqHead, rqTail, c);
      if t == NULL {
        assert queues[c := []] == queues;
        return;
      }
      HeadFacts(Abs(), onRq, rqPrev, rqNext, rqHead, rqTail, c);
      RemoveRq(Abs(), onRq, rqPrev, rqNext, rqHead, rqTail, t);
      DequeueShape(Abs(), t);
      KidsFrame(Abs(), Abs().Dequeue(t), firstChild, sibPrev, sibNext);
      var n := rqNext[t];
      StoreRq(onRq[t := false],
              (if n != NULL then rqPrev[n := NULL] else rqPrev)[t := NULL],
              rqNext[t := NULL],
              rqHead[c := n],
              if n != NULL then rqTail else rqTail[c := NULL],
              Abs().Dequeue(t));
    }

    /** pick_next_runnable_locked; NULL stands for the CPU's idle task. */
    method PickNext(c: int) returns (t: int)
      requires Linked() && Abs().Cpu(c)
      modifies `onRq, `rqPrev, `rqNext, `rqHead, `rqTail, `queues
      ensures Linked()
      ensures var q := old(Abs()).FromRunnable(old(queues)[c]);
              && t == At(q, 0) && (t == NULL || Abs().Slot(t)) && (t == NULL <==> q == [])
              && Abs() == old(Abs()).(queues := old(queues)[c := if q == [] then [] else q[1..]])
    {
      hide RqSpelled, KidsSpelled, System.Shape;
      t := RqPopHead(c);
      while t != NULL && procs[t].state != Runnable
        invariant Linked() && (t == NULL || Abs().Slot(t))
        invariant |old(queues)[c]| > 0 || t == NULL
        invariant t == NULL ==> old(Abs()).FromRunnable(old(queues)[c]) == [] && queues[c] == []
        invariant t != NULL ==> old(Abs()).FromRunnable(old(queues)[c]) == old(Abs()).FromRunnable([t] + queues[c])
        invariant Abs() == old(Abs()).(queues := old(queues)[c := queues[c]])
        decreases if t == NULL then 0 else 1 + |queues[c]|
      {
        assert ([t] + queues[c])[1..] == queues[c];
        t := RqPopHead(c);
      }
    }

    method MakeRunnable(t: int, cpuId: int)
      requires Linked() && (t == NULL || Abs().Slot(t))
      modifies `procs, `onRq, `rqPrev, `rqNext, `rqHead, `rqTail, `queues
      ensures Linked()
      ensures Abs() == if t == NULL then old(Abs()) else old(Abs()).MakeRunnable(t, cpuId)
    {
      hide RqSpelled, KidsSpelled, System.Shape, System.MakeRunnable, System.Dequeue, System.PushTail;
      if t == NULL { return; }
      var c := if 0 <= cpuId < |rqHead| then cpuId else 0;
      MakeRunnableSteps(Abs(), t, cpuId);
      QueuedIff(Abs(), onRq, rqPrev, rqNext, rqHead, rqTail, t);
      var oldCpu := if procs[t].cpu >= 0 then procs[t].cpu else c;
      if !onRq[t] { NotQueuedDequeue(Abs(), t); }
      if onRq[t] && oldCpu != c {
        RqRemove(oldCpu, t);
      } else if onRq[t] {
        RqRemove(c, t);
      }
      SetProc(t, procs[t].(cpu := c, state := Runnable));
      QueuedIff(Abs(), onRq, rqPrev, rqNext, rqHead, rqTail, t);
      RqPushTail(c, t);
    }

    /** Assign a task's fields, none of which is its parent. */
    method SetProc(t: int, p: Proc)
      requires Linked() && Abs().Slot(t) && p.parent == procs[t].parent && p.cpu < |queues|
      requires p.cpu == procs[t].cpu || forall c :: 0 <= c < |queues| ==> t !in queues[c]
      modifies `procs
      ensures Linked() && Abs() == old(Abs()).Put(t, p)
    {
      hide RqSpelled, KidsSpelled, System.Shape;
      PutShape(Abs(), t, p);
      PutRq(Abs(), onRq, rqPrev, rqNext, rqHead, rqTail, t, p);
      KidsFrame(Abs(), Abs().Put(t, p), firstChild, sibPrev, sibNext);
      procs := procs[t := p];
    }

    /** scheduler_task_set_blocked and scheduler_task_set_zombie. */
    method Park(t: int, st: State)
      requires Linked() && (t == NULL || Abs().Slot(t))
      modifies `procs, `onRq, `rqPrev, `rqNext, `rqHead, `rqTail, `queues
      ensures Linked() && Abs() == if t == NULL then old(Abs()) else old(Abs()).Park(t, st)
    {
      hide RqSpelled, KidsSpelled, System.Shape;
      if t == NULL { return; }
      QueuedIff(Abs(), onRq, rqPrev, rqNext, rqHead, rqTail, t);
      var c := if procs[t].cpu >= 0 then procs[t].cpu else local;
      DequeueShape(Abs(), t);
      RqRemove(c, t);
      SetProc(t, procs[t].(cpu := c, state := st));
    }

    method SetUnused(t: int)
      requires Linked() && (t == NULL || Abs().Slot(t))
      modifies `procs, `onRq, `rqPrev, `rqNext, `rqHead, `rqTail, `queues
      ensures Linked() && Abs() == if t == NULL then old(Abs()) else old(Abs()).SetUnused(t)
      ensures t != NULL ==> forall c :: 0 <= c < |queues| ==> t !in queues[c]
    {
      hide RqSpelled, KidsSpelled, System.Shape;
      if t == NULL { return; }
      QueuedIff(Abs(), onRq, rqPrev, rqNext, rqHead, rqTail, t);
      var c := if procs[t].cpu >= 0 then procs[t].cpu else local;
      DequeueShape(Abs(), t);
      RqRemove(c, t);
      SetProc(t, procs[t].(cpu := -1, state := Unused));
    }

    /** schedule_common, first half: the previous task goes back to the queue. */
    method Preempt(tick: bool)
      requires Linked() && NULL <= current[local] < |procs|
      requires current[local] != NULL ==> procs[current[local]].cpu == local
      modifies `procs, `onRq, `rqPrev, `rqNext, `rqHead, `rqTail, `queues
      ensures Linked() && Abs() == old(Abs()).Preempt(tick)
    {
      hide RqSpelled, KidsSpelled, System.Shape, System.PushTail;
      var prev := current[local];
      if prev != NULL && (procs[prev].state == Running || (tick && procs[prev].state == Runnable)) {
        SetProc(prev, procs[prev].(state := Runnable));
        RqPushTail(local, prev);
      }
    }

    /** schedule_common, second half: pick the next task and make it current. */
    method Dispatch()
      requires Linked()
      modifies `procs, `onRq, `rqPrev, `rqNext, `rqHead, `rqTail, `queues, `current
      ensures Linked() && Abs() == old(Abs()).Dispatch()
    {
      hide RqSpelled, KidsSpelled, System.Shape, System.FromRunnable, System.Dispatch;
      DispatchSteps(Abs());
      var next := PickNext(local);
      if next != NULL {
        SetProc(next, procs[next].(cpu := local, state := Running));
      }
      RqFrame(Abs(), Abs().(current := current[local := next]), onRq, rqPrev, rqNext, rqHead, rqTail);
      KidsFrame(Abs(), Abs().(current := current[local := next]), firstChild, sibPrev, sibNext);
      CurrentShape(Abs(), current[local := next], local, nextPid);
      current := current[local := next];
    }

    /** schedule_common. */
    method Schedule(tick: bool)
      requires Valid()
      modifies `procs, `onRq, `rqPrev, `rqNext, `rqHead, `rqTail, `queues, `current
      ensures Valid() && NULL <= old(current)[old(local)] < |old(procs)|
      ensures Abs() == old(Abs()).Yield(tick)
    {
      hide RqSpelled, KidsSpelled, System.Shape, System.Preempt, System.Dispatch, Inv;
      YieldInv(Abs(), tick);
      CurrentFacts(Abs(), local);
      Preempt(tick);
      Dispatch();
    }

    method SetCpuId(c: int)
      requires Valid()
      modifies `local
      ensures Valid() && Abs() == old(Abs()).SetCpuId(c)
    {
      hide RqSpelled, KidsSpelled, System.Shape, Forest, RunQueues;
      var c' := if 0 <= c < |rqHead| then c else 0;
      SwitchInv(Abs(), c);
      RqFrame(Abs(), Abs().(local := c'), onRq, rqPrev, rqNext, rqHead, rqTail);
      KidsFrame(Abs(), Abs().(local := c'), firstChild, sibPrev, sibNext);
      CurrentShape(Abs(), current, c', nextPid);
      local := c';
    }

    // ----- process.c -----

    /** Stores the rewritten parent of t and child-list links, which spell the child lists of s. */
    method StoreKids(t: int, p: Proc, first: seq<int>, prev: seq<int>, next: seq<int>, ghost s: System)
      requires Linked() && Abs().Slot(t) && s == Abs().(procs := procs[t := p], kids := s.kids)
      requires |first| == |prev| == |next| == |procs|
      requires s.Sized() && s.Shape() && KidsSpelled(s, first, prev, next)
      requires RqSpelled(s, onRq, rqPrev, rqNext, rqHead, rqTail)
      modifies `procs, `firstChild, `sibPrev, `sibNext, `kids
      ensures Linked() && Abs() == s
    {
      hide RqSpelled, KidsSpelled, System.Shape;
      procs, firstChild, sibPrev, sibNext, kids := procs[t := p], first, prev, next, s.kids;
    }

    method ChildUnlink(t: int)
      requires Linked() && (t == NULL || Abs().Slot(t))
      modifies `procs, `firstChild, `sibPrev, `sibNext, `kids
      ensures Linked() && Abs() == if t == NULL then old(Abs()) else old(Abs()).Unlink(t)
    {
      hide RqSpelled, KidsSpelled, System.Shape, System.Unlink;
      if t == NULL { return; }
      AfterUnlink(Abs(), onRq, rqPrev, rqNext, rqHead, rqTail, firstChild, sibPrev, sibNext, t);
      var parent := procs[t].parent;
      var p, n := sibPrev[t], sibNext[t];
      StoreKids(t, procs[t].(parent := NULL),
                if p == NULL && parent != NULL then firstChild[parent := n] else firstChild,
                (if n != NULL then sibPrev[n := p] else sibPrev)[t := NULL],
                (if p != NULL then sibNext[p := n] else sibNext)[t := NULL],
                Abs().Unlink(t));
    }

    method ChildLink(p: int, t: int)
      requires Linked() && (t == NULL || Abs().Slot(t)) && (p == NULL || Abs().Slot(p))
      modifies `procs, `firstChild, `sibPrev, `sibNext, `kids
      ensures Linked() && Abs() == if t == NULL then old(Abs()) else old(Abs()).Link(p, t)
    {
      hide RqSpelled, KidsSpelled, System.Shape, System.Unlink, System.Link;
      if t == NULL { return; }
      LinkAfterUnlink(Abs(), p, t);
      ChildUnlink(t);
      if p != NULL {
        ChildPush(p, t);
      } else {
        ShapeCpu(Abs(), t);
        SetProc(t, procs[t].(ppid := 0));
      }
    }

    /** The second half of task_child_link: t, on no list, becomes p's first child. */
    method ChildPush(p: int, t: int)
      requires Linked() && Abs().Slot(t) && Abs().Slot(p) && procs[t].parent == NULL
      modifies `procs, `firstChild, `sibPrev, `sibNext, `kids
      ensures Linked() && Abs() == old(Abs()).Link(p, t)
    {
      hide RqSpelled, KidsSpelled, System.Shape, System.Link;
      AfterLink(Abs(), onRq, rqPrev, rqNext, rqHead, rqTail, firstChild, sibPrev, sibNext, p, t);
      var f := firstChild[p];
      StoreKids(t, procs[t].(parent := p, ppid := procs[p].pid),
                firstChild[p := t],
                if f != NULL then sibPrev[f := t] else sibPrev,
                sibNext[t := f],
                Abs().Link(p, t));
    }

    method FindByPid(pid: int) returns (t: int)
      ensures t == Abs().Find(pid)
    {
      var i := 0;
      while i < |procs|
        invariant 0 <= i <= |procs|
        invariant Abs().FindFrom(0, pid) == Abs().FindFrom(i, pid)
      {
        if procs[i].state != Unused && procs[i].pid == pid { return i; }
        i := i + 1;
      }
      return NULL;
    }

    method TaskAlloc() returns (t: int)
      requires userSlots <= |procs|
      ensures t == Abs().AllocFrom(0)
    {
      var i := 0;
      while i < userSlots
        invariant 0 <= i <= userSlots
        invariant Abs().AllocFrom(0) == Abs().AllocFrom(i)
      {
        if procs[i].state == Unused { return i; }
        i := i + 1;
      }
      return NULL;
    }

    /** The walk over a child list: the next sibling is read before the child is moved. */
    method AdoptList(from: int, to: int) returns (moved: nat)
      requires Linked() && Abs().Slot(from) && (to == NULL || Abs().Slot(to))
      modifies `procs, `firstChild, `sibPrev, `sibNext, `kids
      ensures Linked() && Within(old(kids)[from], |old(procs)|)
      ensures Abs() == old(Abs()).LinkAll(to, old(kids)[from]) && moved == |old(kids)[from]|
    {
      hide RqSpelled, KidsSpelled, System.Shape, System.Link;
      Abs().ShapeWithin();
      FirstInTable(Abs(), firstChild, sibPrev, sibNext, from);
      FirstIs(Abs(), firstChild, sibPrev, sibNext, from);
      moved := 0;
      var c := firstChild[from];
      ghost var pre: seq<int>, rest := [], kids[from];
      while c != NULL
        invariant Linked() && |procs| == |old(procs)|
        invariant kids[from] == pre + rest && Within(rest, |procs|) && c == At(rest, 0) && (c == NULL <==> rest == [])
        invariant old(Abs()).LinkAll(to, old(kids)[from]) == Abs().LinkAll(to, rest)
        invariant moved + |rest| == |old(kids)[from]|
        decreases |rest|
      {
        NextOfRest(Abs(), firstChild, sibPrev, sibNext, from, pre, rest);
        var next := sibNext[c];
        LinkMiddle(Abs(), from, to, pre, rest);
        ChildLink(to, c);
        pre := if to == from then [c] + pre else pre;
        rest := rest[1..];
        moved := moved + 1;
        c := next;
      }
    }

    method AdoptOrphans(fromPid: int, toPid: int) returns (moved: nat)
      requires Linked()
      modifies `procs, `firstChild, `sibPrev, `sibNext, `kids
      ensures Linked() && (Abs(), moved) == old(Abs()).Adopt(fromPid, toPid)
    {
      hide RqSpelled, KidsSpelled, System.Shape, System.Link;
      var from := FindByPid(fromPid);
      var to := FindByPid(toPid);
      if from != NULL {
        moved := AdoptList(from, to);
        return;
      }
      moved := 0;
      var i := 0;
      while i < |procs|
        invariant Linked() && 0 <= i <= |procs| == |old(procs)|
        invariant old(Abs()).LinkByPpid(0, fromPid, to).0 == Abs().LinkByPpid(i, fromPid, to).0
        invariant old(Abs()).LinkByPpid(0, fromPid, to).1 == moved + Abs().LinkByPpid(i, fromPid, to).1
      {
        if procs[i].state != Unused && procs[i].ppid == fromPid {
          LinkSized(Abs(), to, i);
          ChildLink(to, i);
          moved := moved + 1;
        }
        i := i + 1;
      }
    }

    method NotifyParent(p: int)
      requires Linked() && (p == NULL || Abs().Slot(p))
      modifies `procs, `onRq, `rqPrev, `rqNext, `rqHead, `rqTail, `queues
      ensures Linked() && Abs() == old(Abs()).Notify(p)
    {
      hide RqSpelled, KidsSpelled, System.Shape, System.MakeRunnable;
      if p == NULL || procs[p].state == Unused || procs[p].state == Zombie { return; }
      ShapeCpu(Abs(), p);
      if procs[p].sigchld != Ignore { SetProc(p, procs[p].(chldPending := true)); }
      if procs[p].state == Blocked {
        MakeRunnable(p, if procs[p].cpu >= 0 then procs[p].cpu else local);
      }
    }

    /** The shared tail of process_exit_current and process_kill_pid. */
    method Bury(t: int)
      requires Linked() && Abs().Slot(t)
      modifies this
      ensures Linked() && Abs() == old(Abs()).Bury(t)
    {
      hide RqSpelled, KidsSpelled, System.Shape, System.Link, System.Unlink, System.Park, System.Notify;
      ParentLists(Abs(), t);
      var parent := procs[t].parent;
      var init := FindByPid(1);
      UnlinkSized(Abs(), t);
      if parent != NULL && procs[parent].sigchld == Ignore && init != NULL {
        LinkSized(Abs().Unlink(t), init, t);
        ParkSized(Abs().Unlink(t).Link(init, t), t, Zombie);
        ChildUnlink(t);
        ChildLink(init, t);
        parent := init;
      } else {
        ParkSized(Abs(), t, Zombie);
      }
      Park(t, Zombie);
      NotifyParent(parent);
    }

    method KillPid(pid: int, code: int) returns (r: int)
      requires Valid()
      modifies this
      ensures Valid() && (Abs(), r) == old(Abs()).Kill(pid, code)
    {
      hide RqSpelled, KidsSpelled, System.Shape, System.Bury, System.Adopt, Inv;
      KillInv(Abs(), pid, code);
      var t := FindByPid(pid);
      if t == NULL { return -1; }
      if pid == 1 { return -1; }
      ShapeCpu(Abs(), t);
      SetProc(t, procs[t].(exitCode := code));
      var moved := AdoptOrphans(procs[t].pid, 1);
      Bury(t);
      return 0;
    }

    /** process_exit_current; for init the source halts the machine instead of returning. */
    method ExitCurrent(code: int)
      requires Valid() && Abs().Slot(current[local])
      modifies this
      ensures Valid() && Abs() == old(Abs()).Exit(code)
    {
      hide RqSpelled, KidsSpelled, System.Shape, System.Bury, System.Adopt, Inv;
      ExitInv(Abs(), code);
      var cur := current[local];
      if procs[cur].pid == 1 { return; }
      ShapeCpu(Abs(), cur);
      SetProc(cur, procs[cur].(exitCode := code));
      var moved := AdoptOrphans(procs[cur].pid, 1);
      Bury(cur);
    }

    /** process_fork, then the wake-up of the child in do_sys_fork_compat. */
    method Fork() returns (r: int)
      requires Valid() && Actor(Abs())
      modifies this
      ensures Valid() && (Abs(), r) == old(Abs()).Fork()
    {
      hide RqSpelled, KidsSpelled, System.Shape, System.Link, System.Park, System.MakeRunnable, Inv;
      InvSizes(Abs());
      ForkInv(Abs());
      var cur := current[local];
      var p := procs[cur];
      var t := TaskAlloc();
      if t == NULL { return -1; }
      if t >= userSlots || cur >= userSlots { return -1; }
      FreeSlot(Abs(), t);
      var pid := TakePid();
      SetProc(t, procs[t].(pid := pid, ppid := p.pid, state := Unused, exitCode := 0, pgid := p.pgid,
                           sigint := p.sigint, sigterm := p.sigterm, sigchld := p.sigchld,
                           intPending := false, termPending := false));
      LinkSized(Abs(), cur, t);
      ParkSized(Abs().Link(cur, t), t, Blocked);
      ChildLink(cur, t);
      Park(t, Blocked);
      MakeRunnable(t, if procs[t].cpu >= 0 then procs[t].cpu else local);
      return pid;
    }

    method TakePid() returns (pid: int)
      requires Linked()
      modifies `nextPid
      ensures Linked() && pid == old(nextPid) && Abs() == old(Abs()).(nextPid := old(nextPid) + 1)
    {
      hide RqSpelled, KidsSpelled, System.Shape;
      CurrentShape(Abs(), current, local, nextPid + 1);
      RqFrame(Abs(), Abs().(nextPid := nextPid + 1), onRq, rqPrev, rqNext, rqHead, rqTail);
      KidsFrame(Abs(), Abs().(nextPid := nextPid + 1), firstChild, sibPrev, sibNext);
      pid, nextPid := nextPid, nextPid + 1;
    }

    /** process_spawn_exec; loaded is what the ELF loader answers. */
    method SpawnExec(loaded: bool) returns (r: int)
      requires Valid() && Actor(Abs())
      modifies this
      ensures Valid() && (Abs(), r) == old(Abs()).Spawn(loaded)
    {
      hide RqSpelled, KidsSpelled, System.Shape, System.Link, System.Unlink, System.Park, System.MakeRunnable,
           System.SetUnused, Inv;
      InvSizes(Abs());
      SpawnInv(Abs(), loaded);
      var cur := current[local];
      var p := procs[cur];
      var t := TaskAlloc();
      if t == NULL { return -1; }
      FreeSlot(Abs(), t);
      var pid := TakePid();
      SetProc(t, ZERO_PROC.(pid := pid, ppid := p.pid, state := Blocked, pgid := p.pgid,
                           sigint := p.sigint, sigterm := p.sigterm, sigchld := p.sigchld, cpu := -1));
      LinkSized(Abs(), cur, t);
      ghost var s := Abs().Link(cur, t);
      ParkSized(s, t, Blocked);
      UnlinkSized(s, t);
      ChildLink(cur, t);
      if !loaded {
        Release(t);
        return -1;
      }
      Park(t, Blocked);
      MakeRunnable(t, local);
      return pid;
    }

    /** task_child_unlink, scheduler_task_set_unused and memset: the slot is free again. */
    method Release(t: int)
      requires Linked() && Abs().Slot(t)
      modifies this
      ensures Linked() && Abs() == old(Abs()).Reap(t)
    {
      hide RqSpelled, KidsSpelled, System.Shape, System.Unlink, System.SetUnused;
      UnlinkParent(Abs(), t);
      SetUnusedFields(Abs().Unlink(t), t);
      ChildUnlink(t);
      SetUnused(t);
      SetProc(t, ZERO_PROC);
    }

    /** One turn of process_wait_pid's loop, including the block-and-yield that ends it. */
    method WaitPid(pid: int, nohang: bool) returns (r: WaitResult)
      requires Valid() && Actor(Abs())
      modifies this
      ensures Linked() && (Abs(), r) == old(Abs()).Wait(pid, nohang)
      ensures Valid() <==> ReapsSafely(old(Abs()), pid)
    {
      hide RqSpelled, KidsSpelled, System.Shape, System.Park, System.Yield, System.Reap, Inv, ReapsSafely;
      InvSizes(Abs());
      WaitKeepsInvIff(Abs(), pid, nohang);
      Abs().ShapeWithin();
      var cur := current[local];
      var t, hasMatch := SearchChildren(cur, pid);
      if t != NULL {
        r := Reaped(procs[t].pid, procs[t].exitCode % 256 * 256);
        Release(t);
        return;
      }
      if !hasMatch { return NoChild; }
      if nohang { return NoneYet; }
      BlockInv(Abs(), cur);
      Park(cur, Blocked);
      Schedule(false);
      r := Waits;
    }

    /** The walk over the child list: the first selected zombie, or NULL and whether any child is selected. */
    method SearchChildren(cur: int, pid: int) returns (t: int, hasMatch: bool)
      requires Linked() && Abs().Slot(cur)
      ensures Within(kids[cur], |procs|) && t == Abs().Reapable(pid, cur, kids[cur])
      ensures t == NULL ==> (hasMatch <==> exists c :: c in kids[cur] && Abs().Selects(pid, cur, c))
    {
      hide RqSpelled, KidsSpelled, System.Shape;
      Abs().ShapeWithin();
      FirstInTable(Abs(), firstChild, sibPrev, sibNext, cur);
      FirstIs(Abs(), firstChild, sibPrev, sibNext, cur);
      t, hasMatch := firstChild[cur], false;
      ghost var k := 0;
      while t != NULL
        invariant 0 <= k <= |kids[cur]| && t == At(kids[cur], k) && (t == NULL <==> k == |kids[cur]|)
        invariant forall i :: 0 <= i < k ==>
                    !(Abs().Selects(pid, cur, kids[cur][i]) && procs[kids[cur][i]].state == Zombie)
        invariant hasMatch <==> exists i :: 0 <= i < k && Abs().Selects(pid, cur, kids[cur][i])
        decreases |kids[cur]| - k
      {
        NextIs(Abs(), firstChild, sibPrev, sibNext, cur, k);
        if (if pid > 0 then procs[t].pid == pid
            else if pid == 0 then procs[t].pgid == procs[cur].pgid
            else if pid < -1 then procs[t].pgid == -pid
            else true)
        {
          hasMatch := true;
          if procs[t].state == Zombie {
            ReapableAt(Abs(), pid, cur, kids[cur], k);
            return;
          }
        }
        t := sibNext[t];
        k := k + 1;
      }
      ReapableNone(Abs(), pid, cur, kids[cur]);
      SelectsIndex(Abs(), pid, cur, kids[cur]);
    }

    /** process_wait_any: the same loop, selecting every child. */
    method WaitAny() returns (r: WaitResult)
      requires Valid() && Actor(Abs())
      modifies this
      ensures Linked() && (Abs(), r) == old(Abs()).Wait(-1, false)
      ensures Valid() <==> ReapsSafely(old(Abs()), -1)
    {
      hide RqSpelled, KidsSpelled, System.Shape, System.Park, System.Yield, System.Reap, Inv;
      InvSizes(Abs());
      WaitKeepsInvIff(Abs(), -1, false);
      Abs().ShapeWithin();
      var cur := current[local];
      FirstInTable(Abs(), firstChild, sibPrev, sibNext, cur);
      FirstIs(Abs(), firstChild, sibPrev, sibNext, cur);
      var t := firstChild[cur];
      var hasChildren := false;
      ghost var k := 0;
      while t != NULL
        invariant Abs() == old(Abs()) && Linked() && Inv(Abs())
        invariant 0 <= k <= |kids[cur]| && t == At(kids[cur], k) && (t == NULL <==> k == |kids[cur]|)
        invariant forall i :: 0 <= i < k ==> procs[kids[cur][i]].state != Zombie
        invariant hasChildren <==> k > 0
        decreases |kids[cur]| - k
      {
        NextIs(Abs(), firstChild, sibPrev, sibNext, cur, k);
        hasChildren := true;
        if procs[t].state == Zombie {
          ReapableAt(Abs(), -1, cur, kids[cur], k);
          r := Reaped(procs[t].pid, procs[t].exitCode % 256 * 256);
          Release(t);
          return;
        }
        t := sibNext[t];
        k := k + 1;
      }
      ReapableNone(Abs(), -1, cur, kids[cur]);
      SelectsIndex(Abs(), -1, cur, kids[cur]);
      if !hasChildren { return NoChild; }
      assert Abs().Selects(-1, cur, kids[cur][0]);
      BlockInv(Abs(), cur);
      Park(cur, Blocked);
      Schedule(false);
      r := Waits;
    }

    method SignalOne(t: int, sig: int) returns (r: int)
      requires Valid() && Abs().Slot(t)
      modifies this
      ensures Valid() && (Abs(), r) == old(Abs()).SignalOne(t, sig)
    {
      hide RqSpelled, KidsSpelled, System.Shape, System.Kill, System.MakeRunnable, Inv;
      InvSizes(Abs());
      SignalOneInv(Abs(), t, sig);
      if procs[t].state == Unused || procs[t].state == Zombie { return -1; }
      if sig == SIGKILL {
        if procs[t].pid == 1 { return -1; }
        r := KillPid(procs[t].pid, 128 + sig);
        return;
      }
      var handler;
      if sig == SIGINT { handler := procs[t].sigint; }
      else if sig == SIGTERM { handler := procs[t].sigterm; }
      else { return -1; }
      if handler == Ignore { return 0; }
      if handler == Default {
        if procs[t].pid == 1 { return -1; }
        r := KillPid(procs[t].pid, 128 + sig);
        return;
      }
      ShapeCpu(Abs(), t);
      SetProc(t, if sig == SIGINT then procs[t].(intPending := true) else procs[t].(termPending := true));
      if procs[t].state == Blocked {
        MakeRunnable(t, if procs[t].cpu >= 0 then procs[t].cpu else local);
      }
      return 0;
    }

    method SendSignal(pid: int, sig: int) returns (r: int)
      requires Valid()
      modifies this
      ensures Valid() && (Abs(), r) == TaskRuns.SendSignal(old(Abs()), pid, sig)
    {
      if pid <= 0 { return -1; }
      var t := FindByPid(pid);
      if t == NULL { return -1; }
      r := SignalOne(t, sig);
    }

    method SendSignalPgid(pgid: int, sig: int) returns (r: int)
      requires Valid()
      modifies this
      ensures Valid() && (Abs(), r) == SendSignalGroup(old(Abs()), pgid, sig)
    {
      hide Linked, System.SignalOne, Inv, SignalGroupFrom;
      if pgid <= 0 { return -1; }
      ghost var goal := SignalGroupFrom(Abs(), 0, pgid, sig);
      var delivered := 0;
      var i := 0;
      while i < |procs|
        invariant Valid() && 0 <= i && delivered >= 0
        invariant goal == (SignalGroupFrom(Abs(), i, pgid, sig).0, delivered + SignalGroupFrom(Abs(), i, pgid, sig).1)
        decreases |procs| - i
      {
        SignalGroupStep(Abs(), i, pgid, sig);
        if procs[i].state != Unused && procs[i].state != Zombie && procs[i].pgid == pgid {
          var q := SignalOne(i, sig);
          if q == 0 { delivered := delivered + 1; }
        }
        i := i + 1;
      }
      SignalGroupStep(Abs(), i, pgid, sig);
      return if delivered > 0 then 0 else -1;
    }

    /** process_init and scheduler_init: init runs on CPU 0, every other slot is zeroed. */
    constructor (slots: nat, cpus: nat, users: nat)
      requires cpus > 0 && 0 < users <= slots
      ensures Valid()
      ensures Abs() == Booted(slots, cpus, users)
    {
      hide Repeat, Inv, RqSpelled, KidsSpelled, System.Shape;
      var init := ZERO_PROC.(pid := 1, pgid := 1, state := Running);
      procs := [init] + Repeat(slots - 1, ZERO_PROC);
      onRq := Repeat(slots, false);
      rqPrev, rqNext := Repeat(slots, NULL), Repeat(slots, NULL);
      firstChild, sibPrev, sibNext := Repeat(slots, NULL), Repeat(slots, NULL), Repeat(slots, NULL);
      rqHead, rqTail := Repeat(cpus, NULL), Repeat(cpus, NULL);
      current := [0] + Repeat(cpus - 1, NULL);
      local, nextPid, userSlots := 0, 2, users;
      kids := Repeat(slots, []);
      queues := Repeat(cpus, []);
      new;
      BootedInv(slots, cpus, users);
      InvSizes(Booted(slots, cpus, users));
    }

    /** Carry out one event of a run. */
    method Perform(e: Event)
      requires Valid() && Enabled(Abs(), e)
      modifies this
      ensures Valid() && Abs() == Step(old(Abs()), e)
    {
      hide Linked, Inv;
      InvSizes(Abs());
      StepInv(Abs(), e);
      match e {
        case Fork => var r := Fork();
        case Spawn(loaded) => var r := SpawnExec(loaded);
        case Exit(code) => ExitCurrent(code);
        case Kill(pid, code) => var r := KillPid(pid, code);
        case Signal(pid, sig) => var r := SendSignal(pid, sig);
        case SignalGroup(pgid, sig) => var r := SendSignalPgid(pgid, sig);
        case Wait(pid, nohang) => var r := WaitPid(pid, nohang);
        case Yield(tick) => Schedule(tick);
        case Wake(t) => Wake(t);
        case SwitchCpu(c) => SetCpuId(c);
        case SetProc(t, pgid, i, m, h) => Configure(t, pgid, i, m, h);
      }
    }

    /** A wake-up: make_runnable on the task's assigned CPU. */
    method Wake(t: int)
      requires Valid() && Abs().Slot(t) && procs[t].state == Blocked
      modifies this
      ensures Valid() && Abs() == old(Abs()).MakeRunnable(t, old(Abs()).EffectiveCpu(t))
    {
      hide RqSpelled, KidsSpelled, System.Shape, System.MakeRunnable, Inv;
      WakeInv(Abs(), t);
      MakeRunnable(t, if procs[t].cpu >= 0 then procs[t].cpu else local);
    }

    /** setpgid, setsid and the signal-handler calls. */
    method Configure(t: int, pgid: int, sigint: Handler, sigterm: Handler, sigchld: Handler)
      requires Valid() && Abs().Slot(t)
      modifies this
      ensures Valid()
      ensures var p := old(procs)[t].(pgid := pgid, sigint := sigint, sigterm := sigterm, sigchld := sigchld);
              Abs() == old(Abs()).Put(t, p)
    {
      hide RqSpelled, KidsSpelled, System.Shape, Inv;
      ShapeCpu(Abs(), t);
      PutInv(Abs(), t, procs[t].(pgid := pgid, sigint := sigint, sigterm := sigterm, sigchld := sigchld));
      SetProc(t, procs[t].(pgid := pgid, sigint := sigint, sigterm := sigterm, sigchld := sigchld));
    }

    /** Carry out a whole run: the linked tables end in the state the run theorems speak of. */
    method PerformAll(es: seq<Event>)
      requires Valid() && IsRun(Abs(), es)
      modifies this
      ensures Valid() && Abs() == Run(old(Abs()), es)
    {
      hide Linked, Inv, Step, Callable, ReapsSafely;
      var i := 0;
      assert es[0..] == es;
      while i < |es|
        invariant 0 <= i <= |es| && Valid() && IsRun(Abs(), es[i..])
        invariant Run(old(Abs()), es) == Run(Abs(), es[i..])
      {
        assert es[i..][0] == es[i] && es[i..][1..] == es[i + 1..];
        Perform(es[i]);
        i := i + 1;
      }
    }
  }

  /** Boots and makes any calls: nothing is asked of them but that running tasks make them. */
  method RunFromBoot(slots: nat, cpus: nat, users: nat, es: seq<Event>) returns (k: Kernel)
    requires cpus > 0 && 0 < users <= slots
    requires (BootedOneCpu(slots, cpus, users); IsCallRun(Booted(slots, cpus, users), es))
    ensures k.Valid() && FromBoot(slots, cpus, users, es, k.Abs())
  {
    hide Inv, OneCpu, IsCallRun, Booted;
    BootedOneCpu(slots, cpus, users);
    CallRunIsRun(Booted(slots, cpus, users), es);
    k := new Kernel(slots, cpus, users);
    k.PerformAll(es);
  }
}
