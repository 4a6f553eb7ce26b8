/**
  The process table and the run queues as values: child lists and run queues are sequences,
  every kernel operation is a function on the whole system. The Kernel class of
  KernelTables.dfy, which threads both structures through the tasks, is proved against these
  functions; the invariants and the run theorems are proved about them here.
 */
module TaskSystem {
  import opened IntrusiveLists

  datatype State = Unused | Runnable | Running | Blocked | Zombie

  /** SIG_DFL, SIG_IGN or the address of a user handler. */
  datatype Handler = Default | Ignore | Caught(address: int)

  datatype Proc = Proc(pid: int, ppid: int, state: State, exitCode: int, pgid: int,
                       parent: int, cpu: int,
                       sigint: Handler, sigterm: Handler, sigchld: Handler,
                       intPending: bool, termPending: bool, chldPending: bool)
  {
    predicate Used() { state != Unused }
    predicate Live() { state != Unused && state != Zombie }
  }

  /** A task structure after memset(t, 0). */
  const ZERO_PROC := Proc(0, 0, Unused, 0, 0, NULL, 0, Default, Default, Default, false, false, false)

  /**
    procs: the task table; kids[t]: the child list of task t; queues[c], current[c]: the run
    queue and the current task of CPU c (NULL when the idle task is current); local: the CPU
    executing the call; userSlots: how many table slots task_alloc may hand out.
   */
  datatype System = System(procs: seq<Proc>, kids: seq<seq<int>>, queues: seq<seq<int>>,
                           current: seq<int>, local: int, nextPid: int, userSlots: nat)
  {
    predicate Slot(t: int) { 0 <= t < |procs| }
    predicate Cpu(c: int) { 0 <= c < |queues| }

    predicate Sized() {
      && |kids| == |procs|
      && |current| == |queues|
      && Cpu(local)
      && userSlots <= |procs|
    }

    /** The lists agree with the parent and assigned_cpu fields. */
    ghost predicate Shape() {
      && Sized()
      && (forall p :: 0 <= p < |kids| ==> NoDup(kids[p]))
      && (forall p, t {:trigger t in kids[p]} :: 0 <= p < |kids| && t in kids[p] ==>
            0 <= t < |procs| && procs[t].parent == p)
      && (forall t :: 0 <= t < |procs| && procs[t].parent != NULL ==>
            0 <= procs[t].parent < |procs| && t in kids[procs[t].parent])
      && (forall c :: 0 <= c < |queues| ==> NoDup(queues[c]))
      && (forall c, t {:trigger t in queues[c]} :: 0 <= c < |queues| && t in queues[c] ==>
            0 <= t < |procs| && procs[t].cpu == c)
      && (forall t :: 0 <= t < |procs| ==> procs[t].cpu < |queues|)
    }

    lemma ShapeWithin()
      requires Shape()
      ensures forall p :: 0 <= p < |kids| ==> Within(kids[p], |procs|)
      ensures forall c :: 0 <= c < |queues| ==> Within(queues[c], |procs|)
    {
      forall p, i | 0 <= p < |kids| && 0 <= i < |kids[p]| ensures 0 <= kids[p][i] < |procs| {
        assert kids[p][i] in kids[p];
      }
      forall c, i | 0 <= c < |queues| && 0 <= i < |queues[c]| ensures 0 <= queues[c][i] < |procs| {
        assert queues[c][i] in queues[c];
      }
    }

    predicate Queued(t: int)
      requires Slot(t)
    {
      Cpu(procs[t].cpu) && t in queues[procs[t].cpu]
    }

    function Put(t: int, p: Proc): System
      requires Slot(t)
    {
      this.(procs := procs[t := p])
    }

    // ----- scheduler.c -----

    /** rq_remove_locked, if the task is on a queue. */
    function Dequeue(t: int): System
      requires Slot(t)
    {
      if Queued(t) then this.(queues := queues[procs[t].cpu := Without(queues[procs[t].cpu], t)]) else this
    }

    /** rq_push_tail_locked: refuses a task that is already queued. */
    function PushTail(c: int, t: int): System
      requires Slot(t) && Cpu(c)
    {
      if Queued(t) then this else this.(queues := queues[c := queues[c] + [t]])
    }

    /** The CPU a scheduler call locks: the assigned one, or the local one if unassigned. */
    function EffectiveCpu(t: int): int
      requires Slot(t)
    {
      if procs[t].cpu >= 0 then procs[t].cpu else local
    }

    function MakeRunnable(t: int, c: int): System
      requires Slot(t) && Sized()
    {
      var c := if Cpu(c) then c else 0;
      var s := Dequeue(t);
      s.Put(t, procs[t].(cpu := c, state := Runnable)).(queues := s.queues[c := s.queues[c] + [t]])
    }

    /** set_blocked and set_zombie: off the queue, into the state. */
    function Park(t: int, st: State): System
      requires Slot(t)
    {
      Dequeue(t).Put(t, procs[t].(cpu := EffectiveCpu(t), state := st))
    }

    function SetUnused(t: int): System
      requires Slot(t)
    {
      Dequeue(t).Put(t, procs[t].(cpu := -1, state := Unused))
    }

    /** What is left of a queue once stale entries before the first runnable task are popped. */
    function FromRunnable(q: seq<int>): seq<int> {
      if q == [] || (Slot(q[0]) && procs[q[0]].state == Runnable) then q else FromRunnable(q[1..])
    }

    /** schedule_common up to the choice of the next task: the previous task goes to the tail. */
    function Preempt(tick: bool): System
      requires Sized() && NULL <= current[local] < |procs|
    {
      var prev := current[local];
      if prev != NULL && (procs[prev].state == Running || (tick && procs[prev].state == Runnable)) then
        Put(prev, procs[prev].(state := Runnable)).PushTail(local, prev)
      else
        this
    }

    /** Pop the next runnable task, or select the idle task. */
    function Dispatch(): System
      requires Sized()
    {
      var q := FromRunnable(queues[local]);
      if q == [] || !Slot(q[0]) then
        this.(queues := queues[local := []], current := current[local := NULL])
      else
        Put(q[0], procs[q[0]].(cpu := local, state := Running))
          .(queues := queues[local := q[1..]], current := current[local := q[0]])
    }

    function Yield(tick: bool): System
      requires Sized() && NULL <= current[local] < |procs|
    {
      Preempt(tick).Dispatch()
    }

    function SetCpuId(c: int): System {
      this.(local := if Cpu(c) then c else 0)
    }

    // ----- process.c -----

    /** task_find_by_pid, from slot i upwards. */
    function FindFrom(i: nat, pid: int): int
      decreases |procs| - i
    {
      if i >= |procs| then NULL
      else if procs[i].Used() && procs[i].pid == pid then i
      else FindFrom(i + 1, pid)
    }

    function Find(pid: int): (t: int)
      ensures t == NULL || Slot(t)
      ensures t != NULL ==> procs[t].Used() && procs[t].pid == pid
      ensures t == NULL ==> forall i :: 0 <= i < |procs| && procs[i].Used() ==> procs[i].pid != pid
    {
      FindProps(0, pid);
      FindFrom(0, pid)
    }

    lemma FindProps(i: nat, pid: int)
      ensures var t := FindFrom(i, pid);
              && (t == NULL || (i <= t < |procs| && procs[t].Used() && procs[t].pid == pid))
              && (t == NULL ==> forall j :: i <= j < |procs| && procs[j].Used() ==> procs[j].pid != pid)
      decreases |procs| - i
    {
    }

    /** task_alloc, from slot i upwards. */
    function AllocFrom(i: nat): (t: int)
      requires userSlots <= |procs|
      ensures t == NULL || (i <= t < userSlots && !procs[t].Used() && forall j :: i <= j < t ==> procs[j].Used())
      decreases userSlots - i
    {
      if i >= userSlots then NULL else if !procs[i].Used() then i else AllocFrom(i + 1)
    }

    function Unlink(t: int): System
      requires Slot(t) && Sized()
    {
      var p := procs[t].parent;
      var s := if Slot(p) then this.(kids := kids[p := Without(kids[p], t)]) else this;
      s.Put(t, procs[t].(parent := NULL))
    }

    /** task_child_link: off the old list, onto the head of the new one. */
    function Link(p: int, t: int): System
      requires Slot(t) && Sized() && (p == NULL || Slot(p))
    {
      var s := Unlink(t);
      if p == NULL then
        s.Put(t, s.procs[t].(ppid := 0))
      else
        s.Put(t, s.procs[t].(parent := p, ppid := s.procs[p].pid)).(kids := s.kids[p := [t] + s.kids[p]])
    }

    /** Link the tasks of cs, first to last, to p. */
    function LinkAll(p: int, cs: seq<int>): (s: System)
      requires Sized() && (p == NULL || Slot(p))
      requires Within(cs, |procs|)
      ensures s.Sized() && |s.procs| == |procs| && |s.queues| == |queues|
      decreases |cs|
    {
      if cs == [] then this else Link(p, cs[0]).LinkAll(p, cs[1..])
    }

    /** The table walk taken when no task has the pid fromPid. */
    function LinkByPpid(i: nat, fromPid: int, p: int): (r: (System, nat))
      requires Sized() && (p == NULL || Slot(p))
      ensures r.0.Sized() && |r.0.procs| == |procs| && |r.0.queues| == |queues|
      decreases |procs| - i
    {
      if i >= |procs| then (this, 0)
      else if procs[i].Used() && procs[i].ppid == fromPid then
        var r := Link(p, i).LinkByPpid(i + 1, fromPid, p); (r.0, r.1 + 1)
      else LinkByPpid(i + 1, fromPid, p)
    }

    /** process_adopt_orphans: the new system and the number of tasks moved. */
    function Adopt(fromPid: int, toPid: int): (r: (System, nat))
      requires Shape()
      ensures r.0.Sized() && |r.0.procs| == |procs| && |r.0.queues| == |queues|
    {
      var from := Find(fromPid);
      var to := Find(toPid);
      ShapeWithin();
      if from != NULL then (LinkAll(to, kids[from]), |kids[from]|) else LinkByPpid(0, fromPid, to)
    }

    /** process_notify_parent_sigchld. */
    function Notify(p: int): System
      requires Sized() && (p == NULL || Slot(p))
    {
      if p == NULL || !procs[p].Live() then this
      else
        var s := if procs[p].sigchld != Ignore then Put(p, procs[p].(chldPending := true)) else this;
        if procs[p].state == Blocked then s.MakeRunnable(p, EffectiveCpu(p)) else s
    }

    /** The parent pointer; a pointer outside the table is never followed. */
    function Parent(t: int): int
      requires Slot(t)
    {
      if Slot(procs[t].parent) then procs[t].parent else NULL
    }

    /** The common part of process_exit_current and process_kill_pid, after orphans are adopted. */
    function Bury(t: int): System
      requires Sized() && Slot(t)
    {
      var p := Parent(t);
      var init := Find(1);
      if p != NULL && procs[p].sigchld == Ignore && init != NULL then
        Unlink(t).Link(init, t).Park(t, Zombie).Notify(init)
      else
        Park(t, Zombie).Notify(p)
    }

    function Die(t: int, code: int): System
      requires Shape() && Slot(t)
    {
      Put(t, procs[t].(exitCode := code)).Adopt(procs[t].pid, 1).0.Bury(t)
    }

    /** process_kill_pid. */
    function Kill(pid: int, code: int): (r: (System, int))
      requires Shape()
    {
      var t := Find(pid);
      if t == NULL || pid == 1 then (this, -1) else (Die(t, code), 0)
    }

    /** process_exit_current; exiting init halts the machine, which is left as it is. */
    function Exit(code: int): System
      requires Shape() && Slot(current[local])
    {
      var cur := current[local];
      if procs[cur].pid == 1 then this else Die(cur, code)
    }

    /** process_fork and the wake-up of the child in do_sys_fork_compat. */
    function Fork(): (r: (System, int))
      requires Sized() && Slot(current[local])
    {
      var cur := current[local];
      var p := procs[cur];
      var t := AllocFrom(0);
      if t == NULL || cur >= userSlots then (this, -1)
      else
        var child := procs[t].(pid := nextPid, ppid := p.pid, state := Unused, exitCode := 0, pgid := p.pgid,
                               sigint := p.sigint, sigterm := p.sigterm, sigchld := p.sigchld,
                               intPending := false, termPending := false);
        var s := this.(nextPid := nextPid + 1).Put(t, child).Link(cur, t).Park(t, Blocked);
        (s.MakeRunnable(t, s.EffectiveCpu(t)), nextPid)
    }

    /** process_spawn_exec; loaded says whether the ELF loader accepted the image. */
    function Spawn(loaded: bool): (r: (System, int))
      requires Sized() && Slot(current[local])
    {
      var cur := current[local];
      var p := procs[cur];
      var t := AllocFrom(0);
      if t == NULL then (this, -1)
      else
        var child := ZERO_PROC.(pid := nextPid, ppid := p.pid, state := Blocked, pgid := p.pgid,
                               sigint := p.sigint, sigterm := p.sigterm, sigchld := p.sigchld, cpu := -1);
        var s := this.(nextPid := nextPid + 1).Put(t, child).Link(cur, t);
        if loaded then (s.Park(t, Blocked).MakeRunnable(t, local), nextPid)
        else (s.Unlink(t).SetUnused(t).Put(t, ZERO_PROC), -1)
    }

    /** The four forms of waitpid's pid argument. */
    predicate Selects(pid: int, parent: int, t: int)
      requires Slot(parent) && Slot(t)
    {
      if pid > 0 then procs[t].pid == pid
      else if pid == 0 then procs[t].pgid == procs[parent].pgid
      else if pid < -1 then procs[t].pgid == -pid
      else true
    }

    /** The first selected zombie on the child list, or NULL. */
    function Reapable(pid: int, parent: int, cs: seq<int>): (t: int)
      requires Slot(parent) && Within(cs, |procs|)
      ensures t == NULL || (t in cs && Selects(pid, parent, t) && procs[t].state == Zombie)
      ensures t == NULL ==> forall c :: c in cs && Selects(pid, parent, c) ==> procs[c].state != Zombie
    {
      if cs == [] then NULL
      else if Selects(pid, parent, cs[0]) && procs[cs[0]].state == Zombie then cs[0]
      else Reapable(pid, parent, cs[1..])
    }

    /** Free a zombie's slot: off the child list, unused, zeroed. */
    function Reap(t: int): System
      requires Sized() && Slot(t)
    {
      Unlink(t).SetUnused(t).Put(t, ZERO_PROC)
    }

    /** One turn of process_wait_pid's loop: reap, fail, report none yet, or block and yield. */
    function Wait(pid: int, nohang: bool): (r: (System, WaitResult))
      requires Shape() && Slot(current[local])
    {
      var cur := current[local];
      var cs := kids[cur];
      ShapeWithin();
      var t := Reapable(pid, cur, cs);
      if t != NULL then (Reap(t), Reaped(procs[t].pid, procs[t].exitCode % 256 * 256))
      else if forall c | c in cs :: !Selects(pid, cur, c) then (this, NoChild)
      else if nohang then (this, NoneYet)
      else (Park(cur, Blocked).Yield(false), Waits)
    }

    /** process_signal_one. */
    function SignalOne(t: int, sig: int): (r: (System, int))
      requires Shape() && Slot(t)
    {
      var p := procs[t];
      if !p.Live() then (this, -1)
      else if sig != SIGKILL && sig != SIGINT && sig != SIGTERM then (this, -1)
      else
        var handler := if sig == SIGINT then p.sigint else if sig == SIGTERM then p.sigterm else Default;
        if handler == Ignore then (this, 0)
        else if handler == Default then
          if p.pid == 1 then (this, -1) else Kill(p.pid, 128 + sig)
        else
          (Deliver(t, sig), 0)
    }

    /** Mark a caught signal pending and wake the task if it sleeps. */
    function Deliver(t: int, sig: int): System
      requires Sized() && Slot(t)
    {
      var p := procs[t];
      var s := Put(t, if sig == SIGINT then p.(intPending := true) else p.(termPending := true));
      if p.state == Blocked then s.MakeRunnable(t, EffectiveCpu(t)) else s
    }
  }

  /** What one turn of waitpid reports. */
  datatype WaitResult = Reaped(pid: int, status: int) | NoChild | NoneYet | Waits

  const SIGINT := 2
  const SIGKILL := 9
  const SIGTERM := 15
}
