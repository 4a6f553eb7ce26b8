/**
  Runs from boot. The kernel starts one CPU, and no call ever moves a task to another one, so
  in every run from boot a wait never frees a task that is still current.
 */
module TaskBoot {
  import opened IntrusiveLists
  import opened TaskSystem
  import opened TaskInvariants
  import opened TaskCalls
  import opened TaskRuns
  import opened TaskDeaths
  import opened TaskFairness
  import opened KernelLinks

  /** No task is assigned to a CPU but the first, and the others idle with empty queues. */
  ghost predicate OneCpu(s: System) {
    && (forall t :: 0 <= t < |s.procs| ==> s.procs[t].cpu <= 0)
    && (forall c :: 0 < c < |s.queues| ==> s.queues[c] == [])
    && (forall c :: 0 < c < |s.current| ==> s.current[c] == NULL)
  }

  lemma ActorIsFirst(s: System)
    requires Inv(s) && OneCpu(s) && Actor(s)
    ensures s.local == 0
  {
  }

  lemma UsedOnFirst(s: System, t: int)
    requires Inv(s) && OneCpu(s) && s.Slot(t) && s.procs[t].Used()
    ensures s.procs[t].cpu == 0 && s.EffectiveCpu(t) == 0
  {
  }

  lemma OneMakeRunnable(s: System, t: int)
    requires s.Sized() && OneCpu(s) && s.Slot(t)
    ensures OneCpu(s.MakeRunnable(t, 0))
  {
  }

  lemma OnePark(s: System, t: int, st: State)
    requires s.Sized() && OneCpu(s) && s.Slot(t) && (s.procs[t].cpu == 0 || s.local == 0)
    ensures OneCpu(s.Park(t, st))
  {
  }

  lemma OneLink(s: System, p: int, t: int)
    requires s.Sized() && OneCpu(s) && s.Slot(t) && (p == NULL || s.Slot(p))
    ensures OneCpu(s.Link(p, t)) && OneCpu(s.Unlink(t)) && s.Unlink(t).Sized()
  {
  }

  lemma OneNotify(s: System, p: int)
    requires s.Sized() && OneCpu(s) && (p == NULL || s.Slot(p))
    requires p != NULL && s.procs[p].Used() ==> s.procs[p].cpu == 0
    ensures OneCpu(s.Notify(p))
  {
    hide System.MakeRunnable;
    if p != NULL && s.procs[p].Live() {
      var s1 := if s.procs[p].sigchld != Ignore then s.Put(p, s.procs[p].(chldPending := true)) else s;
      OneMakeRunnable(s1, p);
    }
  }

  lemma OneBury(s: System, t: int)
    requires Inv(s) && OneCpu(s) && 0 < t < |s.procs| && s.procs[t].Used() && s.kids[t] == []
    ensures OneCpu(s.Bury(t))
  {
    hide Forest, RunQueues, System.Park, System.Notify, System.Link, System.Unlink, System.Find, OneCpu;
    FindInit(s);
    ParentFacts(s, t);
    UsedOnFirst(s, t);
    var p := s.Parent(t);
    if s.procs[p].sigchld == Ignore {
      UnlinkLink(s, 0, t);
      LinkInv(s, 0, t);
      LinkFields(s, 0, t);
      OneLink(s, 0, t);
      LinkKidsOf(s, 0, t);
      OneBuryAt(s.Link(0, t), t, 0);
    } else {
      OneBuryAt(s, t, p);
    }
  }

  lemma OneBuryAt(s: System, t: int, p: int)
    requires Inv(s) && OneCpu(s) && 0 < t < |s.procs| && s.procs[t].Used() && s.kids[t] == [] && s.Slot(p) && p != t
    ensures s.Park(t, Zombie).Sized() && OneCpu(s.Park(t, Zombie).Notify(p))
  {
    hide Forest, RunQueues, System.Notify;
    UsedOnFirst(s, t);
    OnePark(s, t, Zombie);
    ParkInv(s, t, Zombie);
    var s1 := s.Park(t, Zombie);
    if s1.procs[p].Used() { UsedOnFirst(s1, p); }
    OneNotify(s1, p);
  }

  lemma OneDie(s: System, t: int, code: int)
    requires Inv(s) && OneCpu(s) && 0 < t < |s.procs| && s.procs[t].Used()
    ensures OneCpu(s.Die(t, code))
  {
    hide Forest, RunQueues, System.Bury, System.Adopt;
    var s0 := s.Put(t, s.procs[t].(exitCode := code));
    PutInv(s, t, s0.procs[t]);
    AdoptInv(s0, t);
    var s1 := s0.Adopt(s0.procs[t].pid, 1).0;
    OneAdopted(s0, s1, t);
    OneBury(s1, t);
  }

  lemma OneAdopted(s: System, s': System, t: int)
    requires s.Sized() && s.Slot(t) && s.Slot(0) && OneCpu(s) && Adopted(s, s', t, 0, s.kids[t])
    ensures OneCpu(s')
  {
  }

  lemma OneKill(s: System, pid: int, code: int)
    requires Inv(s) && OneCpu(s)
    ensures OneCpu(s.Kill(pid, code).0)
  {
    hide Forest, RunQueues, System.Die, OneCpu;
    var t := s.Find(pid);
    if t != NULL && pid != 1 {
      InitSlot(s, t);
      OneDie(s, t, code);
    }
  }

  lemma OneSignal(s: System, t: int, sig: int)
    requires Inv(s) && OneCpu(s) && s.Slot(t)
    ensures OneCpu(s.SignalOne(t, sig).0)
  {
    hide Forest, RunQueues, System.Kill, System.SignalOne, System.MakeRunnable;
    SignalCases(s, t, sig);
    OneKill(s, s.procs[t].pid, 128 + sig);
    if s.procs[t].Live() {
      UsedOnFirst(s, t);
      var p := s.procs[t];
      var s1 := s.Put(t, if sig == SIGINT then p.(intPending := true) else p.(termPending := true));
      OneMakeRunnable(s1, t);
    }
  }

  lemma {:induction false} OneGroup(s: System, i: nat, pgid: int, sig: int)
    requires Inv(s) && OneCpu(s)
    ensures OneCpu(SignalGroupFrom(s, i, pgid, sig).0)
    decreases |s.procs| - i
  {
    hide Forest, RunQueues, System.SignalOne, System.Shape, OneCpu;
    if i < |s.procs| {
      if !s.procs[i].Live() || s.procs[i].pgid != pgid {
        OneGroup(s, i + 1, pgid, sig);
      } else {
        SignalOneInv(s, i, sig);
        OneSignal(s, i, sig);
        OneGroup(s.SignalOne(i, sig).0, i + 1, pgid, sig);
      }
    }
  }

  lemma OneBorn(s: System, s': System, p: int, t: int)
    requires s.Sized() && s.Slot(p) && s.Slot(t) && OneCpu(s) && Born(s, s', p, t, 0)
    ensures OneCpu(s')
  {
  }

  lemma OneFork(s: System)
    requires Inv(s) && OneCpu(s) && Actor(s)
    ensures OneCpu(s.Fork().0)
  {
    hide Forest, RunQueues, Born, System.Fork;
    ActorIsFirst(s);
    ForkMakes(s);
    var t := s.AllocFrom(0);
    if s.Fork().1 != -1 { OneBorn(s, s.Fork().0, s.current[s.local], t); }
  }

  lemma OneSpawn(s: System, loaded: bool)
    requires Inv(s) && OneCpu(s) && Actor(s)
    ensures OneCpu(s.Spawn(loaded).0)
  {
    hide Forest, RunQueues, Born, System.Spawn;
    ActorIsFirst(s);
    SpawnMakes(s, loaded);
    if s.Spawn(loaded).1 != -1 { OneBorn(s, s.Spawn(loaded).0, s.current[s.local], s.AllocFrom(0)); }
  }

  lemma OneYield(s: System, tick: bool)
    requires Inv(s) && OneCpu(s)
    ensures NULL <= s.current[s.local] < |s.procs| && OneCpu(s.Yield(tick))
  {
    hide Forest, RunQueues, System.FromRunnable;
    CurrentFacts(s, s.local);
    PreemptInv(s, tick);
    NothingStale(s.Preempt(tick), s.local);
  }

  /** On one CPU the caller is the only current task, so a wait can free only others. */
  lemma OneReapsSafely(s: System, pid: int)
    requires Inv(s) && OneCpu(s) && Actor(s)
    ensures ReapsSafely(s, pid)
  {
    hide Forest;
    ActorIsFirst(s);
  }

  lemma OneWait(s: System, pid: int, nohang: bool)
    requires Inv(s) && OneCpu(s) && Actor(s)
    ensures OneCpu(s.Wait(pid, nohang).0)
  {
    hide Forest, RunQueues, System.Yield, System.Park, System.Reap;
    OneReapsSafely(s, pid);
    var cur := s.current[s.local];
    s.ShapeWithin();
    var t := s.Reapable(pid, cur, s.kids[cur]);
    if t != NULL {
      ReapInv(s, t);
    } else if s.Wait(pid, nohang).1 == Waits {
      UsedOnFirst(s, cur);
      OnePark(s, cur, Blocked);
      ParkInv(s, cur, Blocked);
      OneYield(s.Park(cur, Blocked), false);
    }
  }

  /** Every call the source can make is enabled and keeps to the first CPU. */
  lemma OneStep(s: System, e: Event)
    requires Inv(s) && OneCpu(s) && Callable(s, e)
    ensures Enabled(s, e) && OneCpu(Step(s, e))
  {
    hide Forest, RunQueues, System.Shape, ReapsSafely;
    InvSizes(s);
    match e {
      case Fork => OneFork(s);
      case Spawn(loaded) => OneSpawn(s, loaded);
      case Exit(code) =>
        InitSlot(s, s.current[s.local]);
        if s.current[s.local] != 0 { OneDie(s, s.current[s.local], code); }
      case Kill(pid, code) => OneKill(s, pid, code);
      case Signal(pid, sig) => if pid > 0 && s.Find(pid) != NULL { OneSignal(s, s.Find(pid), sig); }
      case SignalGroup(pgid, sig) => if pgid > 0 { OneGroup(s, 0, pgid, sig); }
      case Wait(pid, nohang) =>
        OneReapsSafely(s, pid);
        OneWait(s, pid, nohang);
      case Yield(tick) => OneYield(s, tick);
      case Wake(t) =>
        UsedOnFirst(s, t);
        OneMakeRunnable(s, t);
      case SwitchCpu(c) =>
      case SetProc(t, pgid, i, m, c) =>
    }
  }

  // ----- runs from boot -----

  /** es is a sequence of calls the source can make from s on; nothing is asked of waits but a running caller. */
  ghost predicate IsCallRun(s: System, es: seq<Event>)
    requires Inv(s) && OneCpu(s)
    decreases |es|
  {
    es == []
    || (Callable(s, es[0])
        && (OneStep(s, es[0]); StepInv(s, es[0]); IsCallRun(Step(s, es[0]), es[1..])))
  }

  lemma {:induction false} CallRunIsRun(s: System, es: seq<Event>)
    requires Inv(s) && OneCpu(s) && IsCallRun(s, es)
    ensures IsRun(s, es) && OneCpu(Run(s, es))
    decreases |es|
  {
    hide Forest, RunQueues, System.Shape, OneCpu, Step, Callable, ReapsSafely;
    if es != [] {
      OneStep(s, es[0]);
      StepInv(s, es[0]);
      CallRunIsRun(Step(s, es[0]), es[1..]);
    }
  }

  lemma BootedOneCpu(slots: nat, cpus: nat, users: nat)
    requires cpus > 0 && 0 < users <= slots
    ensures Inv(Booted(slots, cpus, users)) && OneCpu(Booted(slots, cpus, users))
  {
    BootedInv(slots, cpus, users);
    hide Booted, Inv;
    BootedFacts(slots, cpus, users);
  }

  /** The state after calls made from boot. */
  ghost predicate FromBoot(slots: nat, cpus: nat, users: nat, es: seq<Event>, s: System) {
    && cpus > 0 && 0 < users <= slots
    && (BootedOneCpu(slots, cpus, users);
        var b := Booted(slots, cpus, users);
        IsCallRun(b, es) && (CallRunIsRun(b, es); s == Run(b, es)))
  }

  /**
    In every run from boot, whatever is called: the state is well formed, every wait frees only
    tasks that no CPU runs, and only the first CPU is ever used.
   */
  lemma BootedRuns(slots: nat, cpus: nat, users: nat, es: seq<Event>, s: System)
    requires FromBoot(slots, cpus, users, es, s)
    ensures Inv(s) && OneCpu(s) && (Actor(s) ==> forall pid :: ReapsSafely(s, pid))
  {
    hide Forest, RunQueues, System.Shape, OneCpu, ReapsSafely, Booted, IsCallRun;
    BootedOneCpu(slots, cpus, users);
    CallRunIsRun(Booted(slots, cpus, users), es);
    InvSizes(s);
    if Actor(s) {
      forall pid ensures ReapsSafely(s, pid) { OneReapsSafely(s, pid); }
    }
  }

  /** A state reached from boot, and calls the source can make from there. */
  ghost predicate GoesOn(slots: nat, cpus: nat, users: nat, before: seq<Event>, s: System, after: seq<Event>) {
    && FromBoot(slots, cpus, users, before, s)
    && (BootedRuns(slots, cpus, users, before, s); IsCallRun(s, after))
  }

  lemma GoesOnIsRun(slots: nat, cpus: nat, users: nat, before: seq<Event>, s: System, after: seq<Event>)
    requires GoesOn(slots, cpus, users, before, s, after)
    ensures Inv(s) && OneCpu(s) && IsRun(s, after)
  {
    hide Inv, OneCpu, FromBoot, IsCallRun;
    BootedRuns(slots, cpus, users, before, s);
    CallRunIsRun(s, after);
  }

  /**
    The pid is reported at most once; exactly once if its task, there at first, is gone at the
    end; and if the task was dead at first, then with its exit code.
   */
  ghost predicate ToldOnce(s: System, es: seq<Event>, pid: int)
    requires Inv(s) && IsRun(s, es)
  {
    && Reports(s, es, pid) <= 1
    && (s.Find(pid) != NULL ==> Reports(s, es, pid) == if Run(s, es).Find(pid) == NULL then 1 else 0)
    && (s.Find(pid) != NULL && s.procs[s.Find(pid)].state == Zombie ==>
          TellsAlong(s, es, pid, s.procs[s.Find(pid)].exitCode))
  }

  lemma RunsToldOnce(s: System, es: seq<Event>, pid: int)
    requires Inv(s) && IsRun(s, es) && pid > 0
    ensures ToldOnce(s, es, pid)
  {
    hide Inv, IsRun, Reports, TellsAlong, Run;
    ReportedAtMostOnce(s, es, pid);
    if s.Find(pid) != NULL {
      DeathReportedOnce(s, es, pid);
      if s.procs[s.Find(pid)].state == Zombie { StatusIsTheCode(s, es, pid); }
    }
  }

  /** From boot no wait reports a pid twice, and once a task exists its death is reported exactly once. */
  lemma BootedDeaths(slots: nat, cpus: nat, users: nat, before: seq<Event>, s: System, after: seq<Event>, pid: int)
    requires GoesOn(slots, cpus, users, before, s, after) && pid > 0
    ensures Inv(s) && IsRun(s, after) && ToldOnce(s, after, pid)
  {
    hide Inv, OneCpu, GoesOn, IsRun, ToldOnce;
    GoesOnIsRun(slots, cpus, users, before, s, after);
    RunsToldOnce(s, after, pid);
  }

  /** The first CPU chooses its next task more often than there are tasks ahead of t. */
  ghost predicate EnoughDispatches(s: System, es: seq<Event>, t: int)
    requires Inv(s) && IsRun(s, es)
  {
    |s.queues| > 0 && t in s.queues[0] && DispatchCount(s, es, 0) > Ahead(s.queues[0], t)
  }

  /** From boot, a task with k tasks ahead of it runs or dies within k + 1 dispatches. */
  lemma BootedFairness(slots: nat, cpus: nat, users: nat, before: seq<Event>, s: System, after: seq<Event>, t: int)
    requires GoesOn(slots, cpus, users, before, s, after)
    ensures Inv(s) && IsRun(s, after) && (EnoughDispatches(s, after, t) ==> RunsOrDies(s, after, 0, t))
  {
    hide Inv, OneCpu, GoesOn, IsRun, RunsOrDies, DispatchCount;
    GoesOnIsRun(slots, cpus, users, before, s, after);
    if EnoughDispatches(s, after, t) { BoundedWaiting(s, after, 0, t); }
  }
}
