/**
  Bounded waiting: a queued task with k tasks ahead of it runs within k + 1 dispatches of its
  CPU, whatever the rest of the system does, unless it is killed first.
 */
module TaskFairness {
  import opened IntrusiveLists
  import opened TaskSystem
  import opened TaskInvariants
  import opened TaskCalls
  import opened TaskRuns
  import opened TaskDeaths

  /** How many tasks are ahead of t. */
  function Ahead(q: seq<int>, t: int): (k: nat)
    requires t in q
    ensures k < |q| && q[k] == t
  {
    if q[0] == t then 0 else 1 + Ahead(q[1..], t)
  }

  lemma {:induction false} AheadWithout(q: seq<int>, u: int, t: int)
    requires t in q && t != u
    ensures t in Without(q, u) && Ahead(Without(q, u), t) <= Ahead(q, t)
  {
    if q[0] == u {
      assert t in q[1..];
    } else if q[0] != t {
      AheadWithout(q[1..], u, t);
      assert Without(q, u)[1..] == Without(q[1..], u);
    } else {
      assert Without(q, u)[0] == t;
    }
  }

  lemma {:induction false} AheadAppend(q: seq<int>, u: int, t: int)
    requires t in q
    ensures Ahead(q + [u], t) == Ahead(q, t)
  {
    assert (q + [u])[0] == q[0];
    if q[0] != t {
      AheadAppend(q[1..], u, t);
      assert (q + [u])[1..] == q[1..] + [u];
    }
  }

  /** t still waits on CPU c, with no more tasks ahead of it than before. */
  ghost predicate NoWorse(s: System, s': System, c: int, t: int) {
    && |s'.queues| == |s.queues| && s.Cpu(c)
    && t in s.queues[c] && t in s'.queues[c]
    && Ahead(s'.queues[c], t) <= Ahead(s.queues[c], t)
  }

  lemma DequeueNoWorse(s: System, u: int, c: int, t: int)
    requires s.Sized() && s.Slot(u) && u != t && s.Cpu(c) && t in s.queues[c]
    ensures NoWorse(s, s.Dequeue(u), c, t)
  {
    AheadWithout(s.queues[c], u, t);
  }

  lemma MakeRunnableNoWorse(s: System, u: int, d: int, c: int, t: int)
    requires s.Sized() && s.Slot(u) && u != t && s.Cpu(c) && t in s.queues[c]
    ensures NoWorse(s, s.MakeRunnable(u, d), c, t)
  {
    DequeueNoWorse(s, u, c, t);
    AheadAppend(s.Dequeue(u).queues[c], u, t);
  }

  /** The queued task t is not disturbed by the death of another task. */
  lemma BuryNoWorse(s: System, u: int, c: int, t: int)
    requires Inv(s) && 0 < u < |s.procs| && s.procs[u].Used() && s.kids[u] == []
    requires s.Cpu(c) && t in s.queues[c] && u != t
    ensures NoWorse(s, s.Bury(u), c, t)
  {
    hide Forest, RunQueues, System.Park, System.Notify, System.Link, System.Unlink, System.Find, NoWorse;
    QueuedRunnable(s, c, t);
    FindInit(s);
    ParentFacts(s, u);
    var p := s.Parent(u);
    if s.procs[p].sigchld == Ignore {
      UnlinkLink(s, 0, u);
      LinkInv(s, 0, u);
      LinkFields(s, 0, u);
      BuryAtNoWorse(s.Link(0, u), u, 0, c, t);
      SameQueues(s, s.Link(0, u), s.Link(0, u).Park(u, Zombie).Notify(0), c, t);
    } else {
      BuryAtNoWorse(s, u, p, c, t);
    }
  }

  lemma SameQueues(s: System, s1: System, s2: System, c: int, t: int)
    requires s1.queues == s.queues && NoWorse(s1, s2, c, t)
    ensures NoWorse(s, s2, c, t)
  {
  }

  lemma QueuedRunnable(s: System, c: int, t: int)
    requires Inv(s) && s.Cpu(c) && t in s.queues[c]
    ensures s.Slot(t) && s.procs[t].state == Runnable && s.procs[t].cpu == c
  {
  }

  lemma BuryAtNoWorse(s: System, u: int, p: int, c: int, t: int)
    requires Inv(s) && s.Slot(u) && s.Slot(p) && s.Cpu(c) && t in s.queues[c] && u != t
    ensures s.Park(u, Zombie).Sized() && s.Park(u, Zombie).Slot(p)
    ensures NoWorse(s, s.Park(u, Zombie).Notify(p), c, t)
  {
    QueuedRunnable(s, c, t);
    hide Inv;
    DequeueNoWorse(s, u, c, t);
    var s1 := s.Park(u, Zombie);
    assert s1.Sized();
    NotifyNoWorse(s1, p, c, t);
  }

  lemma NotifyNoWorse(s: System, p: int, c: int, t: int)
    requires s.Sized() && s.Slot(p) && s.Slot(t) && s.procs[t].state == Runnable && s.Cpu(c) && t in s.queues[c]
    ensures NoWorse(s, s.Notify(p), c, t)
  {
    if s.procs[p].Live() && s.procs[p].state == Blocked {
      var s1 := if s.procs[p].sigchld != Ignore then s.Put(p, s.procs[p].(chldPending := true)) else s;
      MakeRunnableNoWorse(s1, p, s.EffectiveCpu(p), c, t);
    }
  }

  lemma DieNoWorse(s: System, u: int, code: int, c: int, t: int)
    requires Inv(s) && 0 < u < |s.procs| && s.procs[u].Used() && s.Cpu(c) && t in s.queues[c] && u != t
    ensures NoWorse(s, s.Die(u, code), c, t)
  {
    hide Forest, RunQueues, System.Bury, System.Adopt, NoWorse;
    var s0 := s.Put(u, s.procs[u].(exitCode := code));
    PutInv(s, u, s0.procs[u]);
    AdoptInv(s0, u);
    var s1 := s0.Adopt(s0.procs[u].pid, 1).0;
    BuryNoWorse(s1, u, c, t);
    SameQueues(s, s1, s1.Bury(u), c, t);
  }

  /** t has died, or waits no worse than before. */
  ghost predicate DiedOrNoWorse(s: System, s': System, c: int, t: int) {
    NoWorse(s, s', c, t) || (s'.Slot(t) && s'.procs[t].state == Zombie)
  }

  lemma KillNoWorse(s: System, pid: int, code: int, c: int, t: int)
    requires Inv(s) && s.Cpu(c) && t in s.queues[c]
    ensures DiedOrNoWorse(s, s.Kill(pid, code).0, c, t)
  {
    hide Forest, RunQueues, System.Die;
    var u := s.Find(pid);
    if u != NULL && pid != 1 {
      InitSlot(s, u);
      if u == t { DieInv(s, u, code); } else { DieNoWorse(s, u, code, c, t); }
    }
  }

  lemma DeliverNoWorse(s: System, u: int, sig: int, c: int, t: int)
    requires Inv(s) && s.Slot(u) && s.Cpu(c) && t in s.queues[c]
    ensures DiedOrNoWorse(s, s.Deliver(u, sig), c, t)
  {
    hide Forest, RunQueues;
    QueuedRunnable(s, c, t);
    var p := s.procs[u];
    if p.state == Blocked {
      var s1 := s.Put(u, if sig == SIGINT then p.(intPending := true) else p.(termPending := true));
      MakeRunnableNoWorse(s1, u, s.EffectiveCpu(u), c, t);
    }
  }

  lemma SignalOneNoWorse(s: System, u: int, sig: int, c: int, t: int)
    requires Inv(s) && s.Slot(u) && s.Cpu(c) && t in s.queues[c]
    ensures DiedOrNoWorse(s, s.SignalOne(u, sig).0, c, t)
  {
    hide Forest, RunQueues, System.Kill, System.Deliver, System.SignalOne;
    SignalCases(s, u, sig);
    KillNoWorse(s, s.procs[u].pid, 128 + sig, c, t);
    DeliverNoWorse(s, u, sig, c, t);
  }

  lemma {:induction false} SignalGroupNoWorse(s: System, i: nat, pgid: int, sig: int, c: int, t: int)
    requires Inv(s) && s.Cpu(c) && t in s.queues[c]
    ensures DiedOrNoWorse(s, SignalGroupFrom(s, i, pgid, sig).0, c, t)
    decreases |s.procs| - i
  {
    hide Forest, RunQueues, System.SignalOne, System.Shape;
    if i < |s.procs| {
      if !s.procs[i].Live() || s.procs[i].pgid != pgid {
        SignalGroupNoWorse(s, i + 1, pgid, sig, c, t);
      } else {
        SignalOneInv(s, i, sig);
        SignalOneNoWorse(s, i, sig, c, t);
        var s1 := s.SignalOne(i, sig).0;
        if s1.Slot(t) && s1.procs[t].state == Zombie {
          SignalGroupSame(s1, i + 1, pgid, sig);
        } else {
          SignalGroupNoWorse(s1, i + 1, pgid, sig, c, t);
        }
      }
    }
  }

  // ----- dispatching -----

  lemma PreemptNoWorse(s: System, tick: bool, c: int, t: int)
    requires Inv(s) && s.Cpu(c) && t in s.queues[c]
    ensures NULL <= s.current[s.local] < |s.procs| && NoWorse(s, s.Preempt(tick), c, t)
  {
    hide Forest, RunQueues;
    CurrentFacts(s, s.local);
    if s.current[s.local] != NULL {
      AheadAppend(s.queues[c], s.current[s.local], t);
    }
  }

  /** A dispatch of CPU c runs t or moves it one place up; other dispatches leave it alone. */
  ghost predicate Advances(s: System, s': System, c: int, t: int, dispatched: bool) {
    && |s'.queues| == |s.queues| == |s'.current| && s.Cpu(c) && t in s.queues[c]
    && (|| (dispatched && s'.current[c] == t && s'.Slot(t) && s'.procs[t].state == Running)
        || (t in s'.queues[c] && Ahead(s'.queues[c], t) + (if dispatched then 1 else 0) <= Ahead(s.queues[c], t)))
  }

  lemma DispatchAdvances(s: System, c: int, t: int)
    requires Inv(s) && s.Cpu(c) && t in s.queues[c]
    ensures Advances(s, s.Dispatch(), c, t, s.local == c)
  {
    hide Forest, RunQueues;
    NothingStale(s, s.local);
    if s.local == c {
      var q := s.queues[c];
      assert q[0] != t ==> t in q[1..];
    }
  }

  lemma YieldAdvances(s: System, tick: bool, c: int, t: int)
    requires Inv(s) && s.Cpu(c) && t in s.queues[c]
    ensures NULL <= s.current[s.local] < |s.procs| && Advances(s, s.Yield(tick), c, t, s.local == c)
  {
    hide Forest, RunQueues, System.Preempt, System.Dispatch;
    PreemptNoWorse(s, tick, c, t);
    PreemptInv(s, tick);
    DispatchAdvances(s.Preempt(tick), c, t);
  }

  /** The idle task is chosen only when nothing can run: the queue is empty and the caller stopped. */
  lemma IdleOnlyWhenEmpty(s: System, tick: bool)
    requires Inv(s)
    ensures NULL <= s.current[s.local] < |s.procs|
    ensures s.Yield(tick).current[s.local] == NULL <==>
            && s.queues[s.local] == []
            && (s.current[s.local] == NULL || s.procs[s.current[s.local]].state != Running)
  {
    hide Forest, RunQueues, System.FromRunnable;
    CurrentFacts(s, s.local);
    PreemptInv(s, tick);
    NothingStale(s.Preempt(tick), s.local);
    var cur := s.current[s.local];
    if cur != NULL && s.procs[cur].state == Running { RunningNotQueued(s, cur); }
    if cur != NULL && s.procs[cur].state == Runnable { RunnableQueued(s, cur); }
  }

  /** Whether the step makes CPU c choose its next task. */
  ghost predicate Dispatches(s: System, e: Event, c: int)
    requires Inv(s) && Enabled(s, e)
  {
    s.local == c && (e.Yield? || (e.Wait? && s.Wait(e.pid, e.nohang).1 == Waits))
  }

  ghost predicate DiedOrAdvances(s: System, s': System, c: int, t: int, dispatched: bool) {
    Advances(s, s', c, t, dispatched) || (s'.Slot(t) && s'.procs[t].state == Zombie)
  }

  lemma NoWorseAdvances(s: System, s': System, c: int, t: int)
    requires DiedOrNoWorse(s, s', c, t) && s'.Sized()
    ensures DiedOrAdvances(s, s', c, t, false)
  {
  }

  lemma WaitAdvances(s: System, pid: int, nohang: bool, c: int, t: int)
    requires Inv(s) && Actor(s) && ReapsSafely(s, pid) && s.Cpu(c) && t in s.queues[c]
    ensures Advances(s, s.Wait(pid, nohang).0, c, t, Dispatches(s, Wait(pid, nohang), c))
  {
    QueuedRunnable(s, c, t);
    hide Forest, RunQueues, System.Yield, System.Park, System.Reap;
    var cur := s.current[s.local];
    s.ShapeWithin();
    var u := s.Reapable(pid, cur, s.kids[cur]);
    if u != NULL {
      ReapInv(s, u);
    } else if s.Wait(pid, nohang).1 == Waits {
      BlockAdvances(s, c, t);
    }
  }

  lemma BlockAdvances(s: System, c: int, t: int)
    requires Inv(s) && Actor(s) && s.Cpu(c) && t in s.queues[c]
    ensures var s' := s.Park(s.current[s.local], Blocked);
            && s'.Sized() && NULL <= s'.current[s'.local] < |s'.procs|
            && Advances(s, s'.Yield(false), c, t, s.local == c)
  {
    var cur := s.current[s.local];
    QueuedRunnable(s, c, t);
    RunningNotQueued(s, cur);
    UsedHasCpu(s, cur);
    hide Forest, RunQueues, System.Yield;
    ParkInv(s, cur, Blocked);
    var s1 := s.Park(cur, Blocked);
    YieldAdvances(s1, false, c, t);
  }

  lemma ForkNoWorse(s: System, c: int, t: int)
    requires Inv(s) && Actor(s) && s.Cpu(c) && t in s.queues[c]
    ensures NoWorse(s, s.Fork().0, c, t)
  {
    hide Forest, RunQueues, System.Link, System.Park, System.MakeRunnable;
    var cur := s.current[s.local];
    var p := s.procs[cur];
    var u := s.AllocFrom(0);
    if u != NULL && cur < s.userSlots {
      FreeSlot(s, u);
      var child := s.procs[u].(pid := s.nextPid, ppid := p.pid, state := Unused, exitCode := 0, pgid := p.pgid,
                               sigint := p.sigint, sigterm := p.sigterm, sigchld := p.sigchld,
                               intPending := false, termPending := false);
      ChildNoWorse(s, cur, u, child, c, t);
    }
  }

  lemma ChildNoWorse(s: System, p: int, u: int, child: Proc, c: int, t: int)
    requires Inv(s) && s.Slot(p) && s.Slot(u) && !s.procs[u].Used() && s.procs[p].Live()
    requires child.pid == s.nextPid && child.parent == NULL && child.cpu < |s.queues|
    requires s.Cpu(c) && t in s.queues[c]
    ensures var s1 := s.(nextPid := s.nextPid + 1).Put(u, child).Link(p, u).Park(u, Blocked);
            s1.Sized() && s1.Slot(u) && NoWorse(s, s1.MakeRunnable(u, s1.EffectiveCpu(u)), c, t)
            && s1.EffectiveCpu(u) == (if child.cpu >= 0 then child.cpu else s.local)
  {
    QueuedRunnable(s, c, t);
    ChildInv(s, p, u, child);
    var s1 := s.(nextPid := s.nextPid + 1).Put(u, child).Link(p, u).Park(u, Blocked);
    hide Inv;
    MakeRunnableNoWorse(s1, u, s1.EffectiveCpu(u), c, t);
  }

  lemma SpawnNoWorse(s: System, loaded: bool, c: int, t: int)
    requires Inv(s) && Actor(s) && s.Cpu(c) && t in s.queues[c]
    ensures NoWorse(s, s.Spawn(loaded).0, c, t)
  {
    var cur := s.current[s.local];
    var p := s.procs[cur];
    var u := s.AllocFrom(0);
    if u != NULL {
      var child := ZERO_PROC.(pid := s.nextPid, ppid := p.pid, state := Blocked, pgid := p.pgid,
                             sigint := p.sigint, sigterm := p.sigterm, sigchld := p.sigchld, cpu := -1);
      if loaded {
        ChildNoWorse(s, cur, u, child, c, t);
      } else {
        SpawnFails(s, cur, u, child);
      }
    }
  }

  /** One step: t dies, runs, or waits no worse — and strictly better if its CPU dispatched. */
  lemma StepAdvances(s: System, e: Event, c: int, t: int)
    requires Inv(s) && Enabled(s, e) && s.Cpu(c) && t in s.queues[c]
    ensures DiedOrAdvances(s, Step(s, e), c, t, Dispatches(s, e, c))
  {
    hide Forest, RunQueues, DiedOrAdvances, DiedOrNoWorse, NoWorse, Advances, System.Shape;
    StepInv(s, e);
    match e {
      case Fork => ForkNoWorse(s, c, t); NotWorse(s, Step(s, e), c, t);
      case Spawn(loaded) => SpawnNoWorse(s, loaded, c, t); NotWorse(s, Step(s, e), c, t);
      case Exit(code) => ExitNoWorse(s, code, c, t); NoWorseStep(s, e, c, t);
      case Kill(pid, code) => KillNoWorse(s, pid, code, c, t); NoWorseStep(s, e, c, t);
      case Signal(pid, sig) =>
        Unchanged(s, s, c, t);
        if pid > 0 && s.Find(pid) != NULL { SignalOneNoWorse(s, s.Find(pid), sig, c, t); }
        NoWorseStep(s, e, c, t);
      case SignalGroup(pgid, sig) =>
        if pgid > 0 { SignalGroupNoWorse(s, 0, pgid, sig, c, t); } else { Unchanged(s, s, c, t); }
        NoWorseStep(s, e, c, t);
      case Wait(pid, nohang) => WaitAdvances(s, pid, nohang, c, t); Advanced(s, Step(s, e), c, t, Dispatches(s, e, c));
      case Yield(tick) => YieldAdvances(s, tick, c, t); Advanced(s, Step(s, e), c, t, Dispatches(s, e, c));
      case Wake(u) => WakeNoWorse(s, u, c, t); NotWorse(s, Step(s, e), c, t);
      case SwitchCpu(d) => Unchanged(s, Step(s, e), c, t); NoWorseStep(s, e, c, t);
      case SetProc(u, pgid, i, m, h) => Unchanged(s, Step(s, e), c, t); NoWorseStep(s, e, c, t);
    }
  }

  lemma Unchanged(s: System, s': System, c: int, t: int)
    requires s.Cpu(c) && t in s.queues[c] && s'.queues == s.queues
    ensures DiedOrNoWorse(s, s', c, t)
  {
  }

  lemma NotWorse(s: System, s': System, c: int, t: int)
    requires NoWorse(s, s', c, t) && Inv(s')
    ensures DiedOrAdvances(s, s', c, t, false)
  {
  }

  lemma NoWorseStep(s: System, e: Event, c: int, t: int)
    requires Inv(s) && Enabled(s, e) && DiedOrNoWorse(s, Step(s, e), c, t) && Inv(Step(s, e)) && !e.Wait? && !e.Yield?
    ensures DiedOrAdvances(s, Step(s, e), c, t, Dispatches(s, e, c))
  {
    hide Forest, RunQueues, Step;
    NoWorseAdvances(s, Step(s, e), c, t);
  }

  lemma Advanced(s: System, s': System, c: int, t: int, d: bool)
    requires Advances(s, s', c, t, d)
    ensures DiedOrAdvances(s, s', c, t, d)
  {
  }

  lemma WakeNoWorse(s: System, u: int, c: int, t: int)
    requires Inv(s) && s.Slot(u) && s.procs[u].state == Blocked && s.Cpu(c) && t in s.queues[c]
    ensures NoWorse(s, s.MakeRunnable(u, s.EffectiveCpu(u)), c, t)
  {
    QueuedRunnable(s, c, t);
    hide Forest, RunQueues;
    MakeRunnableNoWorse(s, u, s.EffectiveCpu(u), c, t);
  }

  lemma ExitNoWorse(s: System, code: int, c: int, t: int)
    requires Inv(s) && Actor(s) && s.Cpu(c) && t in s.queues[c]
    ensures DiedOrNoWorse(s, s.Exit(code), c, t)
  {
    QueuedRunnable(s, c, t);
    var cur := s.current[s.local];
    InitSlot(s, cur);
    if cur != 0 {
      hide Forest, RunQueues, System.Die;
      DieNoWorse(s, cur, code, c, t);
    }
  }

  // ----- runs -----

  /** How often CPU c chooses its next task in a run. */
  ghost function DispatchCount(s: System, es: seq<Event>, c: int): nat
    requires Inv(s) && IsRun(s, es)
    decreases |es|
  {
    if es == [] then 0
    else
      StepInv(s, es[0]);
      (if Dispatches(s, es[0], c) then 1 else 0) + DispatchCount(Step(s, es[0]), es[1..], c)
  }

  /** Somewhere along the run t runs on c or is dead. */
  ghost predicate RunsOrDies(s: System, es: seq<Event>, c: int, t: int)
    requires Inv(s) && IsRun(s, es)
    decreases |es|
  {
    || (s.Cpu(c) && |s.current| == |s.queues| && s.current[c] == t && s.Slot(t) && s.procs[t].state == Running)
    || (s.Slot(t) && s.procs[t].state == Zombie)
    || (es != [] && (StepInv(s, es[0]); RunsOrDies(Step(s, es[0]), es[1..], c, t)))
  }

  lemma AlreadyThere(s: System, es: seq<Event>, c: int, t: int)
    requires Inv(s) && IsRun(s, es)
    requires || (s.Cpu(c) && |s.current| == |s.queues| && s.current[c] == t && s.Slot(t) && s.procs[t].state == Running)
             || (s.Slot(t) && s.procs[t].state == Zombie)
    ensures RunsOrDies(s, es, c, t)
  {
  }

  lemma Later(s: System, es: seq<Event>, c: int, t: int)
    requires Inv(s) && IsRun(s, es) && es != []
    requires Inv(Step(s, es[0])) && IsRun(Step(s, es[0]), es[1..]) && RunsOrDies(Step(s, es[0]), es[1..], c, t)
    ensures RunsOrDies(s, es, c, t)
  {
  }

  /** In every run with more than k dispatches of c, a task k places back in c's queue runs or is killed. */
  lemma {:induction false} BoundedWaiting(s: System, es: seq<Event>, c: int, t: int)
    requires Inv(s) && IsRun(s, es) && s.Cpu(c) && t in s.queues[c]
    requires DispatchCount(s, es, c) > Ahead(s.queues[c], t)
    ensures RunsOrDies(s, es, c, t)
    decreases |es|
  {
    hide Forest, RunQueues, System.Shape, Step, Callable, ReapsSafely, Dispatches, RunsOrDies, Ahead, Inv;
    if es != [] {
      StepInv(s, es[0]);
      StepAdvances(s, es[0], c, t);
      var s1 := Step(s, es[0]);
      var gain := if Dispatches(s, es[0], c) then 1 else 0;
      if s1.Slot(t) && s1.procs[t].state == Zombie {
        AlreadyThere(s1, es[1..], c, t);
      } else if t in s1.queues[c] && Ahead(s1.queues[c], t) + gain <= Ahead(s.queues[c], t) {
        BoundedWaiting(s1, es[1..], c, t);
      } else {
        AlreadyThere(s1, es[1..], c, t);
      }
      Later(s, es, c, t);
    }
  }
}
