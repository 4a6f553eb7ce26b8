/**
  A death is reported exactly once: the dead task stays a zombie on one living task's child
  list until a wait returns its pid, and no later wait returns that pid.
 */
module TaskDeaths {
  import opened IntrusiveLists
  import opened TaskSystem
  import opened TaskInvariants
  import opened TaskCalls
  import opened TaskRuns

  /** The exit code an event gives to the tasks it kills, if it can kill any. */
  datatype Death = NoDeath | Code(code: int)

  /**
    The same slots hold the same tasks; the dead, but for x, stay dead with their exit codes;
    those that die get the code of d.
   */
  ghost predicate SameTasksBut(s: System, s': System, x: int, d: Death) {
    && |s'.procs| == |s.procs| && s'.nextPid == s.nextPid
    && (forall u :: 0 <= u < |s.procs| ==>
          && s'.procs[u].Used() == s.procs[u].Used()
          && (s.procs[u].Used() ==> s'.procs[u].pid == s.procs[u].pid)
          && (s.procs[u].state == Zombie ==>
                s'.procs[u].state == Zombie && (u != x ==> s'.procs[u].exitCode == s.procs[u].exitCode))
          && (s.procs[u].state != Zombie && s'.procs[u].state == Zombie ==> d == Code(s'.procs[u].exitCode)))
  }

  /** Nobody dies, appears or disappears. */
  ghost predicate SameTasks(s: System, s': System) {
    SameTasksBut(s, s', NULL, NoDeath)
  }

  lemma SameTasksTrans(a: System, b: System, c: System)
    requires SameTasks(a, b) && SameTasks(b, c)
    ensures SameTasks(a, c)
  {
  }

  lemma SameIsWeaker(s: System, s': System, d: Death)
    requires SameTasks(s, s')
    ensures SameTasksBut(s, s', NULL, d)
  {
  }

  lemma WakeSame(s: System, t: int, c: int)
    requires Inv(s) && s.Slot(t) && s.procs[t].Live()
    ensures SameTasks(s, s.MakeRunnable(t, c))
  {
  }

  lemma DieSame(s: System, t: int, code: int)
    requires Inv(s) && 0 < t < |s.procs| && s.procs[t].Used()
    ensures SameTasksBut(s, s.Die(t, code), if s.procs[t].state == Zombie then t else NULL, Code(code))
  {
    hide Forest, RunQueues;
    DieInv(s, t, code);
    DieNextPid(s, t, code);
  }

  lemma {:induction false} LinkAllNextPid(s: System, p: int, cs: seq<int>)
    requires s.Sized() && (p == NULL || s.Slot(p)) && Within(cs, |s.procs|)
    ensures s.LinkAll(p, cs).nextPid == s.nextPid && s.LinkAll(p, cs).queues == s.queues
    decreases |cs|
  {
    if cs != [] {
      LinkAllNextPid(s.Link(p, cs[0]), p, cs[1..]);
    }
  }

  lemma DieNextPid(s: System, t: int, code: int)
    requires Inv(s) && 0 < t < |s.procs| && s.procs[t].Used()
    ensures s.Die(t, code).nextPid == s.nextPid
  {
    hide Forest, RunQueues, System.Bury, System.Adopt;
    var s0 := s.Put(t, s.procs[t].(exitCode := code));
    PutInv(s, t, s0.procs[t]);
    AdoptInv(s0, t);
    BuryNextPid(s0.Adopt(s0.procs[t].pid, 1).0, t);
  }

  lemma BuryNextPid(s: System, t: int)
    requires s.Sized() && s.Slot(t)
    ensures s.Bury(t).nextPid == s.nextPid
  {
  }

  lemma DeliverSame(s: System, t: int, sig: int)
    requires s.Sized() && s.Slot(t) && s.procs[t].Live()
    ensures SameTasks(s, s.Deliver(t, sig))
  {
  }

  lemma SignalOneSame(s: System, t: int, sig: int)
    requires Inv(s) && s.Slot(t)
    ensures SameTasksBut(s, s.SignalOne(t, sig).0, NULL, Code(128 + sig))
  {
    hide Forest, RunQueues, System.Kill, System.Deliver, System.SignalOne;
    SignalCases(s, t, sig);
    if s.procs[t].Live() {
      FindUsed(s, t);
      KillSame(s, s.procs[t].pid, 128 + sig);
      DeliverSame(s, t, sig);
    }
  }

  lemma InitSlot(s: System, u: int)
    requires Inv(s) && s.Slot(u) && s.procs[u].Used()
    ensures u == 0 <==> s.procs[u].pid == 1
  {
  }

  lemma {:induction false} SignalGroupSame(s: System, i: nat, pgid: int, sig: int)
    requires Inv(s)
    ensures SameTasksBut(s, SignalGroupFrom(s, i, pgid, sig).0, NULL, Code(128 + sig))
    decreases |s.procs| - i
  {
    hide Forest, RunQueues, System.SignalOne, System.Shape;
    if i < |s.procs| {
      if !s.procs[i].Live() || s.procs[i].pgid != pgid {
        SignalGroupSame(s, i + 1, pgid, sig);
      } else {
        SignalOneInv(s, i, sig);
        SignalOneSame(s, i, sig);
        SignalGroupSame(s.SignalOne(i, sig).0, i + 1, pgid, sig);
      }
    }
  }

  lemma PreemptSame(s: System, tick: bool)
    requires s.Sized() && NULL <= s.current[s.local] < |s.procs|
    requires s.current[s.local] != NULL ==> s.procs[s.current[s.local]].Used()
    ensures SameTasks(s, s.Preempt(tick))
  {
  }

  lemma DispatchSame(s: System)
    requires Inv(s)
    ensures SameTasks(s, s.Dispatch())
  {
    hide Forest, RunQueues, System.FromRunnable;
    NothingStale(s, s.local);
  }

  lemma YieldSame(s: System, tick: bool)
    requires Inv(s)
    ensures NULL <= s.current[s.local] < |s.procs| && SameTasks(s, s.Yield(tick))
  {
    hide Forest, RunQueues, SameTasksBut, System.Preempt, System.Dispatch;
    CurrentFacts(s, s.local);
    PreemptInv(s, tick);
    PreemptSame(s, tick);
    DispatchSame(s.Preempt(tick));
    SameTasksTrans(s, s.Preempt(tick), s.Preempt(tick).Dispatch());
  }

  lemma KillSame(s: System, pid: int, code: int)
    requires Inv(s)
    ensures var t := s.Find(pid);
            var x := if t != NULL && s.procs[t].state == Zombie then t else NULL;
            SameTasksBut(s, s.Kill(pid, code).0, x, Code(code))
  {
    hide Forest, RunQueues, System.Die;
    var t := s.Find(pid);
    if t != NULL && pid != 1 {
      InitSlot(s, t);
      DieSame(s, t, code);
    }
  }

  /** A kill that names this pid, which gives even a dead task a new exit code. */
  predicate Recodes(e: Event, pid: int) { e.Kill? && e.pid == pid }

  /** The exit code of whoever dies in an event. */
  function DeathOf(e: Event): Death {
    match e
    case Exit(code) => Code(code)
    case Kill(_, code) => Code(code)
    case Signal(_, sig) => Code(128 + sig)
    case SignalGroup(_, sig) => Code(128 + sig)
    case _ => NoDeath
  }

  /** How one step changes which tasks exist. */
  ghost predicate TasksStep(s: System, e: Event, s': System)
    requires Inv(s) && Enabled(s, e)
  {
    && |s'.procs| == |s.procs| && s'.nextPid >= s.nextPid
    && (forall u :: 0 <= u < |s.procs| ==>
          if s.procs[u].Used() && !(Report(s, e) != 0 && s.procs[u].pid == Report(s, e)) then
            && s'.procs[u].Used() && s'.procs[u].pid == s.procs[u].pid
            && (s.procs[u].state == Zombie ==>
                  && s'.procs[u].state == Zombie
                  && (Recodes(e, s.procs[u].pid) || s'.procs[u].exitCode == s.procs[u].exitCode))
            && (s.procs[u].state != Zombie && s'.procs[u].state == Zombie ==> DeathOf(e) == Code(s'.procs[u].exitCode))
          else
            s'.procs[u].Used() ==> s'.procs[u].pid >= s.nextPid)
  }

  lemma ChildTasks(s: System, p: int, t: int, child: Proc)
    requires Inv(s) && s.Slot(p) && s.Slot(t) && !s.procs[t].Used() && s.procs[p].Live()
    requires child.pid == s.nextPid && child.parent == NULL && child.cpu < |s.queues|
    ensures var s1 := s.(nextPid := s.nextPid + 1).Put(t, child).Link(p, t).Park(t, Blocked);
            && s1.Sized() && s1.Slot(t) && s1.EffectiveCpu(t) == (if child.cpu >= 0 then child.cpu else s.local)
            && var s' := s1.MakeRunnable(t, s1.EffectiveCpu(t));
            && |s'.procs| == |s.procs| && s'.nextPid == s.nextPid + 1
            && s'.procs[t].Used() && s'.procs[t].pid == s.nextPid
            && (forall u :: 0 <= u < |s.procs| && u != t ==> s'.procs[u] == s.procs[u])
  {
    hide Forest, RunQueues;
    ChildInv(s, p, t, child);
  }

  lemma ForkTasks(s: System)
    requires Inv(s) && Actor(s)
    ensures TasksStep(s, Fork, s.Fork().0)
  {
    hide Forest, RunQueues, System.Link, System.Park, System.MakeRunnable;
    var cur := s.current[s.local];
    var p := s.procs[cur];
    var t := s.AllocFrom(0);
    if t != NULL && cur < s.userSlots {
      var child := s.procs[t].(pid := s.nextPid, ppid := p.pid, state := Unused, exitCode := 0, pgid := p.pgid,
                               sigint := p.sigint, sigterm := p.sigterm, sigchld := p.sigchld,
                               intPending := false, termPending := false);
      FreeSlot(s, t);
      ChildTasks(s, cur, t, child);
    }
  }

  lemma SpawnTasks(s: System, loaded: bool)
    requires Inv(s) && Actor(s)
    ensures TasksStep(s, Spawn(loaded), s.Spawn(loaded).0)
  {
    hide Forest, RunQueues, System.Link, System.Park, System.MakeRunnable, System.Unlink, System.SetUnused;
    var cur := s.current[s.local];
    var p := s.procs[cur];
    var t := s.AllocFrom(0);
    if t != NULL {
      var child := ZERO_PROC.(pid := s.nextPid, ppid := p.pid, state := Blocked, pgid := p.pgid,
                             sigint := p.sigint, sigterm := p.sigterm, sigchld := p.sigchld, cpu := -1);
      if loaded {
        ChildTasks(s, cur, t, child);
      } else {
        SpawnFails(s, cur, t, child);
      }
    }
  }

  lemma ReapTasks(s: System, t: int, s': System)
    requires Forest(s) && s.Slot(t) && s.procs[t].Used() && s'.nextPid == s.nextPid
    requires s'.procs == s.procs[t := ZERO_PROC]
    ensures s.procs[t].pid != 0
    ensures forall u :: 0 <= u < |s.procs| ==>
              if s.procs[u].Used() && s.procs[u].pid != s.procs[t].pid then s'.procs[u] == s.procs[u]
              else !s'.procs[u].Used()
  {
  }

  lemma BlockSame(s: System)
    requires Inv(s) && Actor(s)
    ensures var s' := s.Park(s.current[s.local], Blocked);
            s'.Sized() && NULL <= s'.current[s'.local] < |s'.procs| && SameTasks(s, s'.Yield(false))
  {
    hide Forest, RunQueues, System.Yield;
    var cur := s.current[s.local];
    UsedHasCpu(s, cur);
    ParkInv(s, cur, Blocked);
    ParkShape(s, cur, Blocked);
    var s1 := s.Park(cur, Blocked);
    YieldSame(s1, false);
    SameTasksTrans(s, s1, s1.Yield(false));
  }

  lemma WaitTasks(s: System, pid: int, nohang: bool)
    requires Inv(s) && Actor(s) && ReapsSafely(s, pid)
    ensures TasksStep(s, Wait(pid, nohang), s.Wait(pid, nohang).0)
    ensures s.Wait(pid, nohang).1.Reaped? ==>
              var t := s.Find(s.Wait(pid, nohang).1.pid);
              t != NULL && s.procs[t].state == Zombie && s.procs[t].pid > 0
  {
    hide Forest, RunQueues, System.Yield, System.Park, System.Reap;
    var cur := s.current[s.local];
    s.ShapeWithin();
    var t := s.Reapable(pid, cur, s.kids[cur]);
    if t != NULL {
      FindUsed(s, t);
      ReapInv(s, t);
      PidsUnique(s, t);
      ReapTasks(s, t, s.Reap(t));
    } else if s.Wait(pid, nohang).1 == Waits {
      BlockSame(s);
    }
  }

  lemma PidsUnique(s: System, t: int)
    requires Inv(s) && s.Slot(t) && s.procs[t].Used()
    ensures s.procs[t].pid > 0
    ensures forall u :: 0 <= u < |s.procs| && s.procs[u].Used() && s.procs[u].pid == s.procs[t].pid ==> u == t
  {
  }

  lemma SameTasksStep(s: System, e: Event, s': System, x: int)
    requires Inv(s) && Enabled(s, e) && SameTasksBut(s, s', x, DeathOf(e)) && Report(s, e) == 0
    requires x == NULL || (e.Kill? && s.Slot(x) && s.procs[x].pid == e.pid)
    ensures TasksStep(s, e, s')
  {
  }

  lemma StepTasks(s: System, e: Event)
    requires Inv(s) && Enabled(s, e)
    ensures TasksStep(s, e, Step(s, e))
  {
    hide Forest, RunQueues, System.Shape, TasksStep, SameTasksBut;
    match e {
      case Fork => ForkTasks(s);
      case Spawn(loaded) => SpawnTasks(s, loaded);
      case Exit(code) => ExitSame(s, code); SameTasksStep(s, e, Step(s, e), NULL);
      case Kill(pid, code) =>
        var t := s.Find(pid);
        KillSame(s, pid, code);
        SameTasksStep(s, e, Step(s, e), if t != NULL && s.procs[t].state == Zombie then t else NULL);
      case Signal(pid, sig) =>
        SameRefl(s);
        SameIsWeaker(s, s, DeathOf(e));
        if pid > 0 && s.Find(pid) != NULL { SignalOneSame(s, s.Find(pid), sig); }
        SameTasksStep(s, e, Step(s, e), NULL);
      case SignalGroup(pgid, sig) =>
        if pgid > 0 { SignalGroupSame(s, 0, pgid, sig); } else { SameRefl(s); SameIsWeaker(s, s, DeathOf(e)); }
        SameTasksStep(s, e, Step(s, e), NULL);
      case Wait(pid, nohang) => WaitTasks(s, pid, nohang);
      case Yield(tick) => YieldSame(s, tick); SameTasksStep(s, e, Step(s, e), NULL);
      case Wake(t) => WakeSame(s, t, s.EffectiveCpu(t)); SameTasksStep(s, e, Step(s, e), NULL);
      case SwitchCpu(c) => FieldsSame(s, Step(s, e)); SameTasksStep(s, e, Step(s, e), NULL);
      case SetProc(t, pgid, i, m, c) => FieldsSame(s, Step(s, e)); SameTasksStep(s, e, Step(s, e), NULL);
    }
  }

  lemma SameRefl(s: System)
    ensures SameTasks(s, s)
  {
  }

  lemma FieldsSame(s: System, s': System)
    requires |s'.procs| == |s.procs| && s'.nextPid == s.nextPid
    requires forall u :: 0 <= u < |s.procs| ==>
               && s'.procs[u].state == s.procs[u].state && s'.procs[u].pid == s.procs[u].pid
               && s'.procs[u].exitCode == s.procs[u].exitCode
    ensures SameTasks(s, s')
  {
  }

  lemma ExitSame(s: System, code: int)
    requires Inv(s) && Actor(s)
    ensures SameTasksBut(s, s.Exit(code), NULL, Code(code))
  {
    var cur := s.current[s.local];
    InitSlot(s, cur);
    if cur != 0 {
      DieSame(s, cur, code);
    }
  }

  // ----- runs -----

  /** How often the waits of a run return pid. */
  ghost function Reports(s: System, es: seq<Event>, pid: int): nat
    requires Inv(s) && IsRun(s, es)
    decreases |es|
  {
    if es == [] then 0
    else
      StepInv(s, es[0]);
      (if Report(s, es[0]) == pid then 1 else 0) + Reports(Step(s, es[0]), es[1..], pid)
  }

  lemma StepFind(s: System, e: Event, pid: int)
    requires Inv(s) && Enabled(s, e) && 0 < pid < s.nextPid
    ensures var s' := Step(s, e);
            && (s'.Find(pid) != NULL <==> s.Find(pid) != NULL && Report(s, e) != pid)
            && (Report(s, e) == pid ==> s.Find(pid) != NULL && s.procs[s.Find(pid)].state == Zombie)
            && (s'.Find(pid) != NULL && s.procs[s.Find(pid)].state == Zombie ==> s'.procs[s'.Find(pid)].state == Zombie)
            && s'.nextPid >= s.nextPid
  {
    StepTasks(s, e);
    StepInv(s, e);
    var s' := Step(s, e);
    if e.Wait? { WaitTasks(s, e.pid, e.nohang); }
    var t := s.Find(pid);
    if t != NULL && Report(s, e) != pid {
      FindUsed(s', t);
    }
  }

  /** A pid that has been reaped is never reported, and never found, again. */
  lemma {:induction false} NeverAgain(s: System, es: seq<Event>, pid: int)
    requires Inv(s) && IsRun(s, es) && 0 < pid < s.nextPid && s.Find(pid) == NULL
    ensures Reports(s, es, pid) == 0 && Run(s, es).Find(pid) == NULL
    decreases |es|
  {
    if es != [] {
      hide Forest, RunQueues, System.Shape, Step;
      StepInv(s, es[0]);
      StepFind(s, es[0], pid);
      NeverAgain(Step(s, es[0]), es[1..], pid);
    }
  }

  /**
    In every run, a task that existed at the start is reported exactly once if it is gone at
    the end and never if it is still there; if it was dead at the start and is still there, it
    is still dead, on the child list of exactly one task, and that task is alive.
   */
  lemma {:induction false} DeathReportedOnce(s: System, es: seq<Event>, pid: int)
    requires Inv(s) && IsRun(s, es) && s.Find(pid) != NULL
    ensures var s' := Run(s, es);
            && Reports(s, es, pid) == (if s'.Find(pid) == NULL then 1 else 0)
            && (s.procs[s.Find(pid)].state == Zombie && s'.Find(pid) != NULL ==>
                  && s'.procs[s'.Find(pid)].state == Zombie
                  && OnOneLiveList(s', s'.Find(pid)))
    decreases |es|
  {
    hide Forest, RunQueues, System.Shape, Step, OnOneLiveList, Callable, ReapsSafely, Report;
    PidKnown(s, pid);
    if es == [] {
      if s.procs[s.Find(pid)].state == Zombie { ZombieListed(s, s.Find(pid)); }
    } else {
      StepInv(s, es[0]);
      StepFind(s, es[0], pid);
      if Report(s, es[0]) == pid {
        NeverAgain(Step(s, es[0]), es[1..], pid);
      } else {
        DeathReportedOnce(Step(s, es[0]), es[1..], pid);
      }
    }
  }

  /** In every run from a well-formed state, no wait reports any pid twice, whenever its task was born. */
  lemma {:induction false} ReportedAtMostOnce(s: System, es: seq<Event>, pid: int)
    requires Inv(s) && IsRun(s, es) && pid > 0
    ensures Reports(s, es, pid) <= 1
    decreases |es|
  {
    hide Forest, RunQueues, System.Shape, Step, Callable, ReapsSafely, Report;
    if pid < s.nextPid {
      if s.Find(pid) == NULL { NeverAgain(s, es, pid); } else { DeathReportedOnce(s, es, pid); }
    } else if es != [] {
      StepInv(s, es[0]);
      ReportIsKnown(s, es[0]);
      ReportedAtMostOnce(Step(s, es[0]), es[1..], pid);
    }
  }

  lemma ReportIsKnown(s: System, e: Event)
    requires Inv(s) && Enabled(s, e)
    ensures Report(s, e) != 0 ==> 0 < Report(s, e) < s.nextPid
  {
    hide Forest, RunQueues, System.Shape, System.Wait;
    if e.Wait? {
      WaitTasks(s, e.pid, e.nohang);
      if s.Wait(e.pid, e.nohang).1.Reaped? { PidKnown(s, s.Wait(e.pid, e.nohang).1.pid); }
    }
  }

  // ----- the status -----

  /** The exit code of a dead task after an event: a kill that names it gives it a new one. */
  function CodeAfter(code: int, e: Event, pid: int): int {
    if Recodes(e, pid) then e.code else code
  }

  /** If the step's wait returned pid, it told this exit code. */
  ghost predicate Tells(s: System, e: Event, pid: int, code: int)
    requires Inv(s) && Enabled(s, e)
  {
    Report(s, e) == pid && pid != 0 ==> s.Wait(e.pid, e.nohang).1.status == code % 256 * 256
  }

  /** Every wait of the run that returns pid tells the exit code of the time, starting from code. */
  ghost predicate TellsAlong(s: System, es: seq<Event>, pid: int, code: int)
    requires Inv(s) && IsRun(s, es)
    decreases |es|
  {
    es == []
    || (Tells(s, es[0], pid, code)
        && (StepInv(s, es[0]); TellsAlong(Step(s, es[0]), es[1..], pid, CodeAfter(code, es[0], pid))))
  }

  lemma ReapedStatus(s: System, pid: int, nohang: bool)
    requires Inv(s) && Actor(s) && s.Wait(pid, nohang).1.Reaped?
    ensures var r := s.Wait(pid, nohang).1;
            var t := s.Find(r.pid);
            t != NULL && r.status == s.procs[t].exitCode % 256 * 256
  {
    hide Forest, RunQueues, System.Reap;
    var cur := s.current[s.local];
    s.ShapeWithin();
    FindUsed(s, s.Reapable(pid, cur, s.kids[cur]));
  }

  lemma StepCode(s: System, e: Event, pid: int)
    requires Inv(s) && Enabled(s, e) && s.Find(pid) != NULL && s.procs[s.Find(pid)].state == Zombie
    ensures var s', code := Step(s, e), s.procs[s.Find(pid)].exitCode;
            && Tells(s, e, pid, code)
            && (Report(s, e) != pid ==>
                  && s'.Find(pid) != NULL && s'.procs[s'.Find(pid)].state == Zombie
                  && s'.procs[s'.Find(pid)].exitCode == CodeAfter(code, e, pid))
  {
    hide Forest, RunQueues, System.Shape, System.Kill, System.Wait;
    StepTasks(s, e);
    StepInv(s, e);
    PidKnown(s, pid);
    StepFind(s, e, pid);
    var s', t := Step(s, e), s.Find(pid);
    if Report(s, e) == pid {
      ReapedStatus(s, e.pid, e.nohang);
    } else {
      FindUsed(s', t);
      if Recodes(e, pid) {
        InitSlot(s, t);
        InitLives(s);
        KillInv(s, pid, e.code);
      }
    }
  }

  lemma InitLives(s: System)
    requires Inv(s)
    ensures s.procs[0].state != Zombie
  {
  }

  lemma {:induction false} NothingTold(s: System, es: seq<Event>, pid: int, code: int)
    requires Inv(s) && IsRun(s, es) && 0 < pid < s.nextPid && s.Find(pid) == NULL
    ensures TellsAlong(s, es, pid, code)
    decreases |es|
  {
    hide Forest, RunQueues, System.Shape, Step, Callable, ReapsSafely, Report;
    if es != [] {
      StepInv(s, es[0]);
      StepFind(s, es[0], pid);
      NothingTold(Step(s, es[0]), es[1..], pid, CodeAfter(code, es[0], pid));
    }
  }

  /** In every run a wait that returns a dead task's pid tells the exit code it has at that time. */
  lemma {:induction false} StatusIsTheCode(s: System, es: seq<Event>, pid: int)
    requires Inv(s) && IsRun(s, es) && s.Find(pid) != NULL && s.procs[s.Find(pid)].state == Zombie
    ensures TellsAlong(s, es, pid, s.procs[s.Find(pid)].exitCode)
    decreases |es|
  {
    hide Forest, RunQueues, System.Shape, Step, Callable, ReapsSafely, Report, Tells;
    if es != [] {
      var code := s.procs[s.Find(pid)].exitCode;
      PidKnown(s, pid);
      StepInv(s, es[0]);
      StepFind(s, es[0], pid);
      StepCode(s, es[0], pid);
      if Report(s, es[0]) == pid {
        NothingTold(Step(s, es[0]), es[1..], pid, CodeAfter(code, es[0], pid));
      } else {
        StatusIsTheCode(Step(s, es[0]), es[1..], pid);
      }
    }
  }

  /**
    A task that dies in a step does so by an exit, a kill or a signal, and the status later
    told is the code of that event, unless a kill names the dead task in between.
   */
  lemma DeathStatus(s: System, e: Event, es: seq<Event>, pid: int)
    requires Inv(s) && Enabled(s, e) && Inv(Step(s, e)) && IsRun(Step(s, e), es)
    requires s.Find(pid) != NULL && s.procs[s.Find(pid)].Live()
    requires Step(s, e).Find(pid) != NULL && Step(s, e).procs[Step(s, e).Find(pid)].state == Zombie
    ensures DeathOf(e).Code? && TellsAlong(Step(s, e), es, pid, DeathOf(e).code)
  {
    hide Forest, RunQueues, System.Shape, Step, Callable, ReapsSafely;
    StepTasks(s, e);
    PidKnown(s, pid);
    StepFind(s, e, pid);
    FindUsed(Step(s, e), s.Find(pid));
    StatusIsTheCode(Step(s, e), es, pid);
  }

  ghost predicate OnOneLiveList(s: System, t: int) {
    && s.Slot(t) && |s.kids| == |s.procs| && s.Slot(s.procs[t].parent)
    && s.procs[s.procs[t].parent].Live()
    && (forall p :: 0 <= p < |s.kids| ==> (t in s.kids[p] <==> p == s.procs[t].parent))
  }

  lemma ZombieListed(s: System, t: int)
    requires Inv(s) && s.Slot(t) && s.procs[t].state == Zombie
    ensures OnOneLiveList(s, t)
  {
  }

  lemma PidKnown(s: System, pid: int)
    requires Inv(s) && s.Find(pid) != NULL
    ensures 0 < pid < s.nextPid
  {
  }
}
