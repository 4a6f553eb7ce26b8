/**
  The scheduler's own debug check (sched_invariant_check): which of its complaints can be
  printed in a reachable state.
 */
module SchedulerCheck {
  import opened IntrusiveLists
  import opened TaskSystem
  import opened TaskInvariants
  import opened TaskCalls
  import opened KernelLinks

  /** How often the walk over all run queues, from CPU c on, meets task t. */
  function Occurrences(queues: seq<seq<int>>, t: int, c: nat): nat
    decreases |queues| - c
  {
    if c >= |queues| then 0 else multiset(queues[c])[t] + Occurrences(queues, t, c + 1)
  }

  ghost predicate CurrentSomewhere(s: System, t: int) {
    exists c :: 0 <= c < |s.current| && s.current[c] == t
  }

  /** No per-task complaint is printed for t; on is its on_runqueue flag. */
  ghost predicate TaskQuiet(s: System, t: int, on: bool)
    requires s.Slot(t)
  {
    var p := s.procs[t];
    var n := Occurrences(s.queues, t, 0);
    && (on ==> p.state == Runnable)
    && (p.state == Runnable || p.state == Running ==> on || CurrentSomewhere(s, t))
    && n <= 1
    && (on <==> n > 0)
    && (forall c :: 0 <= c < |s.queues| && n == 1 && t in s.queues[c] ==> p.cpu == c)
  }

  lemma {:induction false} CountNoDup(q: seq<int>, t: int)
    requires NoDup(q)
    ensures multiset(q)[t] == if t in q then 1 else 0
  {
    if q != [] {
      assert q == [q[0]] + q[1..];
      CountNoDup(q[1..], t);
    }
  }

  lemma {:induction false} OccurrencesOwner(s: System, t: int, c: nat)
    requires s.Shape() && s.Slot(t)
    ensures Occurrences(s.queues, t, c) == if s.Queued(t) && s.procs[t].cpu >= c then 1 else 0
    decreases |s.queues| - c
  {
    if c < |s.queues| {
      CountNoDup(s.queues[c], t);
      OccurrencesOwner(s, t, c + 1);
    }
  }

  /** In a well-formed state the debug check has nothing to say about any used task. */
  lemma CheckIsQuiet(s: System, t: int)
    requires Inv(s) && s.Slot(t) && s.procs[t].Used()
    ensures TaskQuiet(s, t, s.Queued(t))
  {
    OccurrencesOwner(s, t, 0);
    if s.procs[t].state == Running {
      assert s.current[s.procs[t].cpu] == t;
    }
  }

  /** The check's per-CPU complaints: a busy CPU with an empty queue, and a current task that is not running. */
  ghost predicate CpuQuiet(s: System, c: int)
    requires s.Sized() && s.Cpu(c)
  {
    && !(s.queues[c] == [] && s.current[c] != NULL)
    && !(s.Slot(s.current[c]) && s.procs[s.current[c]].state != Running)
  }

  /** Whether the current task of CPU c, if any, is running. */
  ghost predicate Busy(s: System, c: int)
    requires s.Sized() && s.Cpu(c)
  {
    s.Slot(s.current[c]) && s.procs[s.current[c]].state == Running
  }

  /** After a dispatch the check complains about the CPU exactly when one task wants to run there. */
  lemma YieldQuietIff(s: System, tick: bool)
    requires Inv(s)
    ensures NULL <= s.current[s.local] < |s.procs| && s.Yield(tick).Sized()
    ensures CpuQuiet(s.Yield(tick), s.local) <==> |s.queues[s.local]| + (if Busy(s, s.local) then 1 else 0) != 1
  {
    hide Forest, RunQueues, System.FromRunnable;
    CurrentFacts(s, s.local);
    PreemptInv(s, tick);
    YieldInv(s, tick);
    NothingStale(s.Preempt(tick), s.local);
    var cur := s.current[s.local];
    if cur != NULL && s.procs[cur].state == Running { RunningNotQueued(s, cur); }
    if cur != NULL && s.procs[cur].state == Runnable { RunnableQueued(s, cur); }
  }

  /** The check complains when init, alone after boot, yields; and of the state it then finds again. */
  lemma BootedComplains(slots: nat, cpus: nat, users: nat, tick: bool)
    requires cpus > 0 && 0 < users <= slots
    ensures var s := Booted(slots, cpus, users);
            && Inv(s) && s.Cpu(0) && !CpuQuiet(s, 0)
            && NULL <= s.current[s.local] < |s.procs| && s.local == 0
            && s.Yield(tick).Sized() && !CpuQuiet(s.Yield(tick), 0)
  {
    hide Booted, Inv;
    BootedInv(slots, cpus, users);
    BootedFacts(slots, cpus, users);
    BootedConstants(slots, cpus, users);
    YieldQuietIff(Booted(slots, cpus, users), tick);
  }

  /** The current task of CPU c is a table entry or idle. */
  ghost predicate Sound(s: System, c: int) {
    s.Shape() && s.Cpu(c) && NULL <= s.current[c] < |s.procs|
  }

  /**
    After make_runnable, also of a child fork has just linked, the check complains exactly
    when the current task of that CPU has stopped, or is the one made runnable.
   */
  lemma WakeQuietIff(s: System, t: int, c: int)
    requires Sound(s, c) && s.Slot(t)
    ensures s.MakeRunnable(t, c).Sized()
    ensures CpuQuiet(s.MakeRunnable(t, c), c) <==> s.current[c] == NULL || (s.current[c] != t && Busy(s, c))
  {
  }

  /**
    After set_blocked or set_zombie, also of a child fork has just linked, the check is quiet
    about the CPU exactly when that CPU idles, or runs another task while a third one waits:
    it complains whenever a task stops itself.
   */
  lemma ParkQuietIff(s: System, t: int, st: State)
    requires s.Slot(t) && Sound(s, s.EffectiveCpu(t)) && st != Running
    ensures var c := s.EffectiveCpu(t);
            && s.Park(t, st).Sized()
            && (CpuQuiet(s.Park(t, st), c) <==>
                  || s.current[c] == NULL
                  || (s.current[c] != t && Busy(s, c) && exists u :: u in s.queues[c] && u != t))
  {
    var c := s.EffectiveCpu(t);
    DequeueShape(s, t);
    var q, q' := s.queues[c], s.Park(t, st).queues[c];
    assert q' == [] <==> !(exists u :: u in q && u != t) by {
      if q' != [] { assert q'[0] in q' && q'[0] in q && q'[0] != t; }
      assert forall u :: u in q && u != t ==> u in q';
    }
    hide System.Shape;
  }

  /** Those two cover the calls fork makes on its child, which is linked but not yet in use. */
  lemma ForkedIsSound(s: System, p: int, t: int, child: Proc)
    requires Inv(s) && s.Slot(p) && s.Slot(t) && !s.procs[t].Used() && s.procs[p].Live()
    requires child.pid == s.nextPid && child.parent == NULL && child.cpu < |s.queues|
    ensures var s1 := s.(nextPid := s.nextPid + 1).Put(t, child).Link(p, t);
            && s1.Sized() && s1.Slot(t) && Sound(s1, s1.EffectiveCpu(t))
            && var s2 := s1.Park(t, Blocked); Sound(s2, s2.EffectiveCpu(t))
  {
    hide Inv, System.Shape, System.Link, System.Park;
    FreeSlot(s, t);
    InvShape(s);
    CurrentFacts(s, if child.cpu >= 0 then child.cpu else s.local);
    FilledShape(s, t, child);
    var s0 := s.(nextPid := s.nextPid + 1).Put(t, child);
    LinkShape(s0, p, t);
    LinkFields(s0, p, t);
    ParkedSound(s0.Link(p, t), t);
  }

  lemma InvShape(s: System)
    requires Inv(s)
    ensures s.Shape() && s.Sized() && s.Cpu(s.local)
  {
  }

  lemma FilledShape(s: System, t: int, child: Proc)
    requires s.Shape() && s.Slot(t) && child.parent == NULL && child.cpu < |s.queues|
    requires forall p :: 0 <= p < |s.kids| ==> t !in s.kids[p]
    requires forall c :: 0 <= c < |s.queues| ==> t !in s.queues[c]
    ensures s.(nextPid := s.nextPid + 1).Put(t, child).Shape()
  {
  }

  lemma ParkedSound(s: System, t: int)
    requires s.Slot(t) && Sound(s, s.EffectiveCpu(t))
    ensures var s2 := s.Park(t, Blocked); s2.Slot(t) && Sound(s2, s2.EffectiveCpu(t))
  {
    DequeueShape(s, t);
  }
}
