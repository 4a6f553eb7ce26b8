/**
  Whole runs of the kernel: interleavings, on any CPUs, of process calls, wake-ups and
  scheduling steps, each one atomic.
 */
module TaskRuns {
  import opened IntrusiveLists
  import opened TaskSystem
  import opened TaskInvariants
  import opened TaskCalls

  datatype Event =
    | Fork
    | Spawn(loaded: bool)
    | Exit(code: int)
    | Kill(pid: int, code: int)
    | Signal(pid: int, sig: int)
    | SignalGroup(pgid: int, sig: int)
    | Wait(pid: int, nohang: bool)
    | Yield(tick: bool)
    | Wake(task: int)
    | SwitchCpu(cpu: int)
    | SetProc(task: int, pgid: int, sigint: Handler, sigterm: Handler, sigchld: Handler)

  /** The task making the call is running on the local CPU. */
  ghost predicate Actor(s: System)
    requires s.Sized()
  {
    s.Slot(s.current[s.local]) && s.procs[s.current[s.local]].state == Running
  }

  /**
    What the callers in the source guarantee: fork, spawn, exit and wait are called by a
    running task and only blocked tasks are woken; kills and signals may come from anywhere,
    also from an interrupt while the CPU idles.
   */
  ghost predicate Callable(s: System, e: Event)
    requires Inv(s)
  {
    match e
    case Fork | Spawn(_) | Exit(_) | Wait(_, _) => Actor(s)
    case Kill(_, _) | Signal(_, _) | SignalGroup(_, _) => true
    case Yield(_) | SwitchCpu(_) => true
    case Wake(t) => s.Slot(t) && s.procs[t].state == Blocked
    case SetProc(t, _, _, _, _) => s.Slot(t) && s.procs[t].Used()
  }

  /** Moreover a wait does not free a task that some CPU still runs; WaitKeepsInvIff says why. */
  ghost predicate Enabled(s: System, e: Event)
    requires Inv(s)
  {
    Callable(s, e) && (e.Wait? ==> ReapsSafely(s, e.pid))
  }

  /** process_send_signal. */
  ghost function SendSignal(s: System, pid: int, sig: int): (System, int)
    requires Inv(s)
  {
    if pid <= 0 || s.Find(pid) == NULL then (s, -1) else s.SignalOne(s.Find(pid), sig)
  }

  /** process_send_signal_pgid. */
  ghost function SendSignalGroup(s: System, pgid: int, sig: int): (System, int)
    requires Inv(s)
  {
    if pgid <= 0 then (s, -1)
    else
      var r := SignalGroupFrom(s, 0, pgid, sig);
      (r.0, if r.1 > 0 then 0 else -1)
  }

  ghost function Step(s: System, e: Event): System
    requires Inv(s) && Callable(s, e)
  {
    match e
    case Fork => s.Fork().0
    case Spawn(loaded) => s.Spawn(loaded).0
    case Exit(code) => s.Exit(code)
    case Kill(pid, code) => s.Kill(pid, code).0
    case Signal(pid, sig) => SendSignal(s, pid, sig).0
    case SignalGroup(pgid, sig) => SendSignalGroup(s, pgid, sig).0
    case Wait(pid, nohang) => s.Wait(pid, nohang).0
    case Yield(tick) => YieldInv(s, tick); s.Yield(tick)
    case Wake(t) => s.MakeRunnable(t, s.EffectiveCpu(t))
    case SwitchCpu(c) => s.SetCpuId(c)
    case SetProc(t, pgid, i, m, c) => s.Put(t, s.procs[t].(pgid := pgid, sigint := i, sigterm := m, sigchld := c))
  }

  /** The pid a step's wait returned, or 0. */
  ghost function Report(s: System, e: Event): int
    requires Inv(s) && Enabled(s, e)
  {
    if e.Wait? && s.Wait(e.pid, e.nohang).1.Reaped? then s.Wait(e.pid, e.nohang).1.pid else 0
  }

  /** Every step keeps the forest and the run queues well formed. */
  lemma StepInv(s: System, e: Event)
    requires Inv(s) && Enabled(s, e)
    ensures Inv(Step(s, e))
  {
    hide Forest, RunQueues;
    match e
    case Fork => ForkInv(s);
    case Spawn(loaded) => SpawnInv(s, loaded);
    case Exit(code) => ExitInv(s, code);
    case Kill(pid, code) => KillInv(s, pid, code);
    case Signal(pid, sig) => if pid > 0 && s.Find(pid) != NULL { SignalOneInv(s, s.Find(pid), sig); }
    case SignalGroup(pgid, sig) =>
    case Wait(pid, nohang) => WaitInv(s, pid, nohang);
    case Yield(tick) => YieldInv(s, tick);
    case Wake(t) => WakeInv(s, t);
    case SwitchCpu(c) => SwitchInv(s, c);
    case SetProc(t, pgid, i, m, c) => PutInv(s, t, s.procs[t].(pgid := pgid, sigint := i, sigterm := m, sigchld := c));
  }

  /** A task's own settings take effect, and nothing else changes. */
  lemma SetTakesEffect(s: System, t: int, pgid: int, i: Handler, m: Handler, c: Handler)
    requires Inv(s) && Callable(s, SetProc(t, pgid, i, m, c))
    ensures var s' := Step(s, SetProc(t, pgid, i, m, c));
            && s' == s.(procs := s'.procs) && |s'.procs| == |s.procs|
            && (forall u :: 0 <= u < |s.procs| && u != t ==> s'.procs[u] == s.procs[u])
            && var p, p' := s.procs[t], s'.procs[t];
            && p'.pgid == pgid && p'.sigint == i && p'.sigterm == m && p'.sigchld == c
            && p == p'.(pgid := p.pgid, sigint := p.sigint, sigterm := p.sigterm, sigchld := p.sigchld)
  {
    hide Inv;
  }

  /** Selecting a CPU that exists selects it; any other number selects the first one. */
  lemma SwitchTakesEffect(s: System, c: int)
    requires Inv(s)
    ensures var s' := Step(s, SwitchCpu(c));
            s' == s.(local := s'.local) && s'.local == if 0 <= c < |s.queues| then c else 0
  {
    hide Inv;
  }

  /** A woken task is runnable, last on the queue of its CPU, and nothing else changes. */
  lemma WakeTakesEffect(s: System, t: int)
    requires Inv(s) && Callable(s, Wake(t))
    ensures var s', c := Step(s, Wake(t)), s.procs[t].cpu;
            && s.Cpu(c)
            && s' == s.(procs := s.procs[t := s.procs[t].(state := Runnable)],
                        queues := s.queues[c := s.queues[c] + [t]])
  {
    hide Forest;
    UsedHasCpu(s, t);
    assert !s.Queued(t);
    hide RunQueues, System.Shape;
  }

  lemma SwitchInv(s: System, c: int)
    requires Inv(s)
    ensures Inv(s.SetCpuId(c))
  {
    hide Forest, RunQueues;
    ForestFrame(s, s.SetCpuId(c));
    RunQueuesFrame(s, s.SetCpuId(c));
  }

  /** es is a run from s: every event is enabled where it happens. */
  ghost predicate IsRun(s: System, es: seq<Event>)
    requires Inv(s)
    decreases |es|
  {
    es == [] || (Enabled(s, es[0]) && (StepInv(s, es[0]); IsRun(Step(s, es[0]), es[1..])))
  }

  /** The state after a run; well formed for every run. */
  ghost function Run(s: System, es: seq<Event>): (s': System)
    requires Inv(s) && IsRun(s, es)
    ensures Inv(s')
    decreases |es|
  {
    if es == [] then s else StepInv(s, es[0]); Run(Step(s, es[0]), es[1..])
  }

  // ----- wait -----

  /** Task t is selected by the wait and dead. */
  ghost predicate Dead(s: System, pid: int, parent: int, t: int)
    requires s.Slot(parent)
  {
    s.Slot(t) && s.Selects(pid, parent, t) && s.procs[t].state == Zombie
  }

  /**
    What waitpid answers: the first selected zombie on the caller's child list, with its
    status; no such child at all; or none dead yet.
   */
  lemma WaitAnswers(s: System, pid: int, nohang: bool)
    requires Inv(s) && Actor(s)
    ensures var cur := s.current[s.local];
            var r := s.Wait(pid, nohang).1;
            && (r.Reaped? <==> exists t :: t in s.kids[cur] && Dead(s, pid, cur, t))
            && (r.NoChild? <==> forall t :: t in s.kids[cur] && s.Slot(t) ==> !s.Selects(pid, cur, t))
            && (r.Reaped? ==> exists k :: 0 <= k < |s.kids[cur]| && var t := s.kids[cur][k];
                  && Dead(s, pid, cur, t)
                  && r == Reaped(s.procs[t].pid, s.procs[t].exitCode % 256 * 256)
                  && (forall i :: 0 <= i < k ==> s.Slot(s.kids[cur][i]) && !Dead(s, pid, cur, s.kids[cur][i])))
            && (r.NoneYet? ==> nohang) && (r.Waits? ==> !nohang)
  {
    hide Forest, RunQueues;
    var cur := s.current[s.local];
    s.ShapeWithin();
    var t := s.Reapable(pid, cur, s.kids[cur]);
    if t != NULL {
      var k := FirstReapable(s, pid, cur, s.kids[cur]);
      assert s.kids[cur][k] in s.kids[cur];
    }
  }

  /** r tells of the first zombie of group g on the caller's list, and s' has freed it. */
  ghost predicate FirstOfGroup(s: System, cs: seq<int>, g: int, s': System, r: WaitResult)
    requires s.Sized() && Within(cs, |s.procs|)
  {
    exists k :: 0 <= k < |cs| && DeadIn(s, cs[k], g) && ReapedAs(s, cs[k], s', r)
                && forall i :: 0 <= i < k ==> !DeadIn(s, cs[i], g)
  }

  ghost predicate DeadIn(s: System, t: int, g: int)
    requires s.Slot(t)
  {
    s.procs[t].state == Zombie && s.procs[t].pgid == g
  }

  /** Task t was freed, and its pid and status told. */
  ghost predicate ReapedAs(s: System, t: int, s': System, r: WaitResult)
    requires s.Sized() && s.Slot(t)
  {
    s' == s.Reap(t) && r == Reaped(s.procs[t].pid, s.procs[t].exitCode % 256 * 256)
  }

  /** Nothing to tell: leave the state alone, or block the caller and go on with the first queued task. */
  ghost predicate NoneDead(s: System, nohang: bool, s': System, r: WaitResult)
    requires s.Sized()
  {
    if nohang then (s', r) == (s, NoneYet) else r == Waits && Switched(s, s', s.queues[s.local], Blocked)
  }

  /** What a wait for one pid does: everything depends on the task with that pid. */
  lemma WaitForPid(s: System, pid: int, nohang: bool)
    requires Inv(s) && Actor(s) && pid > 0
    ensures var t, (s', r) := s.Find(pid), s.Wait(pid, nohang);
            if t == NULL || s.procs[t].parent != s.current[s.local] then (s', r) == (s, NoChild)
            else if s.procs[t].state == Zombie then ReapedAs(s, t, s', r) && r.pid == pid
            else NoneDead(s, nohang, s', r)
  {
    hide Forest, RunQueues, System.Reap, System.Park, System.Yield;
    var cur, t := s.current[s.local], s.Find(pid);
    var cs := s.kids[cur];
    s.ShapeWithin();
    OnlyWithPid(s, cur, pid);
    BlockSwitches(s);
    hide System.Shape, Switched;
  }

  /** A child with that pid is the task the table finds. */
  lemma OnlyWithPid(s: System, p: int, pid: int)
    requires Inv(s) && s.Slot(p)
    ensures forall c :: c in s.kids[p] ==> s.Slot(c) && (s.procs[c].pid == pid <==> c == s.Find(pid))
    ensures var t := s.Find(pid); t != NULL ==> (t in s.kids[p] <==> s.procs[t].parent == p)
  {
  }

  /** What a wait for a group does: pid 0 means the caller's own group, a pid below -1 the group -pid. */
  lemma WaitForGroup(s: System, pid: int, nohang: bool)
    requires Inv(s) && Actor(s) && (pid == 0 || pid < -1)
    ensures var cur, (s', r) := s.current[s.local], s.Wait(pid, nohang);
            var cs, g := s.kids[cur], if pid == 0 then s.procs[cur].pgid else -pid;
            && Within(cs, |s.procs|)
            && if forall i :: 0 <= i < |cs| ==> s.procs[cs[i]].pgid != g then (s', r) == (s, NoChild)
               else if exists i :: 0 <= i < |cs| && DeadIn(s, cs[i], g) then FirstOfGroup(s, cs, g, s', r)
               else NoneDead(s, nohang, s', r)
  {
    hide Forest, RunQueues, System.Wait, System.Selects, System.Reapable, NoneDead, ReapedAs, DeadIn;
    WaitIs(s, pid, nohang);
    var cur := s.current[s.local];
    SelectsGroup(s, pid, cur, s.kids[cur], if pid == 0 then s.procs[cur].pgid else -pid);
    hide System.Shape;
  }

  /** The three outcomes of a wait. */
  lemma WaitIs(s: System, pid: int, nohang: bool)
    requires Inv(s) && Actor(s)
    ensures var cur, (s', r) := s.current[s.local], s.Wait(pid, nohang);
            && Within(s.kids[cur], |s.procs|)
            && var t := s.Reapable(pid, cur, s.kids[cur]);
            if t != NULL then ReapedAs(s, t, s', r)
            else if forall c :: c in s.kids[cur] ==> !s.Selects(pid, cur, c) then (s', r) == (s, NoChild)
            else NoneDead(s, nohang, s', r)
  {
    hide Forest, RunQueues, System.Reap, System.Park, System.Yield, System.Selects;
    s.ShapeWithin();
    BlockSwitches(s);
    hide System.Shape, Switched;
  }

  lemma SelectsGroup(s: System, pid: int, p: int, cs: seq<int>, g: int)
    requires s.Slot(p) && Within(cs, |s.procs|)
    requires (pid == 0 || pid < -1) && g == if pid == 0 then s.procs[p].pgid else -pid
    ensures (forall c :: c in cs ==> !s.Selects(pid, p, c)) <==> forall i :: 0 <= i < |cs| ==> s.procs[cs[i]].pgid != g
    ensures var t := s.Reapable(pid, p, cs);
            if t == NULL then forall i :: 0 <= i < |cs| ==> !DeadIn(s, cs[i], g)
            else exists k :: 0 <= k < |cs| && cs[k] == t && DeadIn(s, cs[k], g)
                             && forall i :: 0 <= i < k ==> !DeadIn(s, cs[i], g)
  {
    assert forall c :: s.Slot(c) ==> (s.Selects(pid, p, c) <==> s.procs[c].pgid == g);
    assert forall i :: 0 <= i < |cs| ==> cs[i] in cs;
    hide System.Selects;
    if s.Reapable(pid, p, cs) != NULL { var k := FirstReapable(s, pid, p, cs); }
  }

  /** What a wait for any child does. */
  lemma WaitForAny(s: System, nohang: bool)
    requires Inv(s) && Actor(s)
    ensures var cs, (s', r) := s.kids[s.current[s.local]], s.Wait(-1, nohang);
            && Within(cs, |s.procs|)
            && if cs == [] then (s', r) == (s, NoChild)
               else if exists i :: 0 <= i < |cs| && s.procs[cs[i]].state == Zombie then
                 exists k :: 0 <= k < |cs| && s.procs[cs[k]].state == Zombie && ReapedAs(s, cs[k], s', r)
                             && forall i :: 0 <= i < k ==> s.procs[cs[i]].state != Zombie
               else NoneDead(s, nohang, s', r)
  {
    hide Forest, RunQueues, System.Reap, System.Park, System.Yield;
    var cur := s.current[s.local];
    var cs := s.kids[cur];
    s.ShapeWithin();
    BlockSwitches(s);
    hide System.Shape, Switched;
    if s.Reapable(-1, cur, cs) != NULL { var k := FirstReapable(s, -1, cur, cs); }
    assert forall i :: 0 <= i < |cs| ==> cs[i] in cs;
  }

  lemma {:induction false} FirstReapable(s: System, pid: int, parent: int, cs: seq<int>) returns (k: nat)
    requires s.Slot(parent) && Within(cs, |s.procs|) && s.Reapable(pid, parent, cs) != NULL
    ensures k < |cs| && cs[k] == s.Reapable(pid, parent, cs)
    ensures forall i :: 0 <= i < k ==> !(s.Selects(pid, parent, cs[i]) && s.procs[cs[i]].state == Zombie)
  {
    if s.Selects(pid, parent, cs[0]) && s.procs[cs[0]].state == Zombie {
      k := 0;
    } else {
      var j := FirstReapable(s, pid, parent, cs[1..]);
      k := j + 1;
    }
  }

  /** Freeing a zombie keeps the invariant exactly when the zombie is current on no CPU. */
  lemma ReapKeepsInvIff(s: System, t: int)
    requires Inv(s) && s.Slot(t) && s.procs[t].state == Zombie
    ensures Inv(s.Reap(t)) <==> forall c :: 0 <= c < |s.current| ==> s.current[c] != t
  {
    if forall c :: 0 <= c < |s.current| ==> s.current[c] != t {
      ReapInv(s, t);
    } else {
      var c :| 0 <= c < |s.current| && s.current[c] == t;
      ReapStale(s, t, c);
    }
  }

  lemma ReapStale(s: System, t: int, c: int)
    requires Inv(s) && s.Slot(t) && s.procs[t].state == Zombie && 0 <= c < |s.current| && s.current[c] == t
    ensures !Inv(s.Reap(t))
  {
    hide Forest;
    var s' := s.Reap(t);
    assert s'.current == s.current && s'.procs[t] == ZERO_PROC;
  }

  /** A wait keeps the invariant exactly when the child it would reap is current on no CPU. */
  lemma WaitKeepsInvIff(s: System, pid: int, nohang: bool)
    requires Inv(s) && Actor(s)
    ensures Inv(s.Wait(pid, nohang).0) <==> ReapsSafely(s, pid)
  {
    hide Forest, RunQueues;
    var cur := s.current[s.local];
    s.ShapeWithin();
    var t := s.Reapable(pid, cur, s.kids[cur]);
    if ReapsSafely(s, pid) {
      WaitInv(s, pid, nohang);
    } else {
      ReapKeepsInvIff(s, t);
    }
  }
}
