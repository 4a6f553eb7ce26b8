/**
  Every process call and every scheduling step keeps the invariant of TaskInvariants.
 */
module TaskCalls {
  import opened IntrusiveLists
  import opened TaskSystem
  import opened TaskInvariants

  /** Init is found in slot 0. */
  lemma FindInit(s: System)
    requires Inv(s)
    ensures s.Find(1) == 0 && |s.procs| > 0 && s.procs[0].Live() && s.procs[0].pid == 1
  {
    FindUsed(s, 0);
  }

  lemma ParentFacts(s: System, t: int)
    requires Inv(s) && 0 < t < |s.procs| && s.procs[t].Used()
    ensures s.Parent(t) == s.procs[t].parent && s.Slot(s.Parent(t)) && s.procs[s.Parent(t)].Live()
    ensures s.Parent(t) != t && t in s.kids[s.Parent(t)]
    ensures 1 <= s.procs[s.Parent(t)].pid < s.procs[t].pid
  {
  }

  /** task_child_link unlinks again what is already unlinked. */
  lemma UnlinkLink(s: System, p: int, t: int)
    requires s.Sized() && s.Slot(t) && s.Slot(p)
    ensures s.Unlink(t).Link(p, t) == s.Link(p, t)
  {
    var s1 := s.Unlink(t);
    assert s1.procs[t := s1.procs[t].(parent := NULL)] == s1.procs;
  }

  /** Relinking t leaves t's own child list alone. */
  lemma LinkKidsOf(s: System, p: int, t: int)
    requires s.Shape() && s.Slot(t) && s.Slot(p) && p != t && s.kids[t] == []
    ensures s.Link(p, t).kids[t] == []
  {
    ChildlessIsNoParent(s, t);
  }

  /** u's state once p is notified: a blocked p is woken. */
  function Woken(u: int, p: int, st: State): State {
    if u == p && st == Blocked then Runnable else st
  }

  /** Whether u has SIGCHLD pending once p is notified. */
  predicate Told(u: int, p: int, q: Proc) {
    q.chldPending || (u == p && q.sigchld != Ignore)
  }

  /** No CPU switched tasks, and no pid was used up. */
  ghost predicate SameCpus(s: System, s': System) {
    s'.current == s.current && s'.local == s.local && s'.nextPid == s.nextPid && s'.userSlots == s.userSlots
  }

  lemma BuryAt(s: System, t: int, p: int)
    requires Inv(s) && 0 < t < |s.procs| && s.procs[t].Used() && s.kids[t] == [] && s.Slot(p) && p != t
    requires s.procs[p].Live()
    ensures var s' := s.Park(t, Zombie).Notify(p);
            && Inv(s') && |s'.procs| == |s.procs| && s'.kids == s.kids && SameCpus(s, s')
            && s'.procs[t] == s.procs[t].(state := Zombie) && s'.procs[p].state != Blocked
            && (forall u :: 0 <= u < |s.procs| && u != t ==>
                  s'.procs[u] == s.procs[u].(state := Woken(u, p, s.procs[u].state),
                                             chldPending := Told(u, p, s.procs[u])))
  {
    hide Forest, RunQueues, System.Shape, System.Notify, System.Park;
    UsedHasCpu(s, t);
    ParkInv(s, t, Zombie);
    ParkShape(s, t, Zombie);
    ParkSameCpus(s, t, Zombie);
    var s1 := s.Park(t, Zombie);
    UsedHasCpu(s1, p);
    NotifyInv(s1, p);
    NotifyFields(s1, p);
  }

  lemma ParkSameCpus(s: System, t: int, st: State)
    requires s.Slot(t)
    ensures SameCpus(s, s.Park(t, st))
  {
  }

  lemma NotifyFields(s: System, p: int)
    requires s.Sized() && s.Slot(p) && s.procs[p].Live() && s.Cpu(s.procs[p].cpu)
    ensures var s' := s.Notify(p);
            && |s'.procs| == |s.procs| && SameCpus(s, s')
            && s'.procs[p] == s.procs[p].(state := Woken(p, p, s.procs[p].state),
                                          chldPending := Told(p, p, s.procs[p]))
  {
  }

  /** Who gets a dead task to wait for: its parent, or init if the parent ignores SIGCHLD. */
  function Undertaker(s: System, t: int): int
    requires s.Slot(t)
  {
    var p := s.procs[t].parent;
    if s.Slot(p) && s.procs[p].sigchld == Ignore then 0 else p
  }

  /**
    t died with this code: a zombie of its undertaker, which is woken if it was blocked; t's
    children are init's now; the undertaker has SIGCHLD pending unless it ignores it; nothing
    else changed.
   */
  ghost predicate Died(s: System, s': System, t: int, code: int) {
    && |s'.procs| == |s.procs| && s.Slot(t) && SameCpus(s, s')
    && var p := Undertaker(s, t);
    && s.Slot(p) && p != t && s'.procs[p].state != Blocked
    && s'.procs[t] == s.procs[t].(state := Zombie, exitCode := code, parent := p, ppid := s'.procs[t].ppid)
    && (forall u :: 0 <= u < |s.procs| && u != t ==>
          s'.procs[u] == s.procs[u].(state := Woken(u, p, s.procs[u].state), chldPending := Told(u, p, s.procs[u]),
                                     parent := Heir(s, t, u), ppid := s'.procs[u].ppid))
  }

  /** u's parent once t is dead. */
  function Heir(s: System, t: int, u: int): int
    requires s.Slot(u)
  {
    if s.procs[u].parent == t then 0 else s.procs[u].parent
  }

  lemma BuryInv(s: System, t: int)
    requires Inv(s) && 0 < t < |s.procs| && s.procs[t].Used() && s.kids[t] == []
    ensures Inv(s.Bury(t)) && Died(s, s.Bury(t), t, s.procs[t].exitCode)
  {
    hide Forest, RunQueues, System.Park, System.Notify, System.Link, System.Unlink, System.Find;
    FindInit(s);
    ParentFacts(s, t);
    ChildlessIsNoParent(s, t);
    hide System.Shape;
    var p := s.Parent(t);
    if s.procs[p].sigchld == Ignore {
      UnlinkLink(s, 0, t);
      LinkInv(s, 0, t);
      LinkFields(s, 0, t);
      LinkKidsOf(s, 0, t);
      BuryAt(s.Link(0, t), t, 0);
    } else {
      BuryAt(s, t, p);
    }
  }

  lemma DieInv(s: System, t: int, code: int)
    requires Inv(s) && 0 < t < |s.procs| && s.procs[t].Used()
    ensures Inv(s.Die(t, code)) && Died(s, s.Die(t, code), t, code)
  {
    hide Forest, RunQueues, System.Bury, System.Adopt;
    var s0 := s.Put(t, s.procs[t].(exitCode := code));
    PutInv(s, t, s0.procs[t]);
    AdoptInv(s0, t);
    KidsOf(s0, t);
    ParentFacts(s0, t);
    var s1 := s0.Adopt(s0.procs[t].pid, 1).0;
    BuryInv(s1, t);
    hide System.Shape;
    DiedAfterAdoption(s, s1, s1.Bury(t), t, code);
  }

  lemma KidsOf(s: System, t: int)
    requires Inv(s) && s.Slot(t)
    ensures forall u :: 0 <= u < |s.procs| ==> (u in s.kids[t] <==> s.procs[u].parent == t)
  {
  }

  lemma DiedAfterAdoption(s: System, s1: System, s': System, t: int, code: int)
    requires s.Sized() && 0 < t < |s.procs| && s.Slot(s.procs[t].parent) && s.procs[t].parent != t
    requires var s0 := s.Put(t, s.procs[t].(exitCode := code));
             && Adopted(s0, s1, t, 0, s.kids[t])
             && (forall u :: 0 <= u < |s.procs| ==> (u in s.kids[t] <==> s.procs[u].parent == t))
    requires s1.procs[t].exitCode == code && Died(s1, s', t, code)
    requires forall u :: 0 <= u < |s1.procs| ==> s1.procs[u].parent != t
    ensures Died(s, s', t, code)
  {
    assert Undertaker(s1, t) == Undertaker(s, t);
  }

  lemma KillInv(s: System, pid: int, code: int)
    requires Inv(s)
    ensures Inv(s.Kill(pid, code).0)
    ensures var t := s.Find(pid);
            if t == NULL || pid == 1 then s.Kill(pid, code) == (s, -1)
            else s.Kill(pid, code).1 == 0 && Died(s, s.Kill(pid, code).0, t, code)
  {
    var t := s.Find(pid);
    if t != NULL && pid != 1 {
      DieInv(s, t, code);
    }
  }

  lemma ExitInv(s: System, code: int)
    requires Inv(s) && s.Slot(s.current[s.local])
    ensures Inv(s.Exit(code))
    ensures var cur := s.current[s.local];
            if cur == 0 then s.Exit(code) == s else Died(s, s.Exit(code), cur, code)
  {
    var cur := s.current[s.local];
    if s.procs[cur].pid == 1 {
      assert cur == 0;
    } else {
      DieInv(s, cur, code);
    }
  }

  // ----- new tasks -----

  /** A free slot is on no list. */
  lemma FreeSlot(s: System, t: int)
    requires Inv(s) && s.Slot(t) && !s.procs[t].Used()
    ensures t != 0 && s.procs[t].parent == NULL && !s.Queued(t) && s.kids[t] == []
    ensures forall p :: 0 <= p < |s.kids| ==> t !in s.kids[p]
    ensures forall c :: 0 <= c < |s.queues| ==> t !in s.queues[c]
    ensures forall c :: 0 <= c < |s.current| ==> s.current[c] != t
  {
    if s.kids[t] != [] {
      var c := s.kids[t][0];
      assert c in s.kids[t];
      ChildFacts(s, c);
    }
  }

  /** s' is s with the free slot t turned into a blocked child of p. */
  ghost predicate Spawned(s: System, s': System, p: int, t: int)
    requires s.Sized() && s.Slot(p) && s.Slot(t)
  {
    && s'.queues == s.queues && s'.current == s.current && s'.local == s.local && s'.userSlots == s.userSlots
    && s'.nextPid == s.nextPid + 1
    && s'.kids == s.kids[p := [t] + s.kids[p]]
    && |s'.procs| == |s.procs| && s'.procs == s.procs[t := s'.procs[t]]
    && s'.procs[t].pid == s.nextPid && s'.procs[t].ppid == s.procs[p].pid && s'.procs[t].parent == p
    && s'.procs[t].state == Blocked && s.Cpu(s'.procs[t].cpu)
  }

  lemma SpawnedInv(s: System, s': System, p: int, t: int)
    requires Inv(s) && s.Slot(p) && s.Slot(t) && s.procs[p].Live() && !s.procs[t].Used()
    requires Spawned(s, s', p, t)
    ensures Inv(s')
  {
    FreeSlot(s, t);
    SpawnedShape(s, s', p, t);
    SpawnedForest(s, s', p, t);
    SpawnedQueues(s, s', p, t);
  }

  lemma SpawnedShape(s: System, s': System, p: int, t: int)
    requires s.Shape() && s.Slot(p) && s.Slot(t) && Spawned(s, s', p, t) && s.procs[t].parent == NULL
    requires forall q :: 0 <= q < |s.kids| ==> t !in s.kids[q]
    requires forall c :: 0 <= c < |s.queues| ==> t !in s.queues[c]
    ensures s'.Shape()
  {
    assert NoDup([t] + s.kids[p]);
    assert forall u :: u in [t] + s.kids[p] <==> u == t || u in s.kids[p];
  }

  lemma SpawnedForest(s: System, s': System, p: int, t: int)
    requires s.Sized() && Forest(s) && s.Slot(p) && s.Slot(t) && s.procs[p].Live() && !s.procs[t].Used()
    requires Spawned(s, s', p, t)
    ensures Forest(s')
  {
  }

  lemma SpawnedQueues(s: System, s': System, p: int, t: int)
    requires s.Sized() && s'.Sized() && RunQueues(s) && s.Slot(p) && s.Slot(t) && !s.procs[t].Used()
    requires Spawned(s, s', p, t)
    requires forall c :: 0 <= c < |s.queues| ==> t !in s.queues[c]
    ensures RunQueues(s')
  {
    forall u | 0 <= u < |s'.procs| && s'.procs[u].state == Runnable ensures s'.Queued(u) {
      assert s.Queued(u);
    }
  }

  /** Linking and blocking a prepared free slot, in closed form. */
  lemma PrepareChild(s: System, p: int, t: int, child: Proc)
    requires Inv(s) && s.Slot(p) && s.Slot(t) && !s.procs[t].Used() && p != t
    requires child.pid == s.nextPid && child.parent == NULL && child.cpu < |s.queues|
    ensures Spawned(s, s.(nextPid := s.nextPid + 1).Put(t, child).Link(p, t).Park(t, Blocked), p, t)
  {
    FreeSlot(s, t);
    hide Inv;
    var s1 := s.(nextPid := s.nextPid + 1).Put(t, child);
    assert s1.Unlink(t).procs == s1.procs;
    var s2 := s1.Link(p, t);
    assert !s2.Queued(t);
  }

  /** A new child is blocked on its CPU and can then be woken there. */
  lemma ChildInv(s: System, p: int, t: int, child: Proc)
    requires Inv(s) && s.Slot(p) && s.Slot(t) && !s.procs[t].Used() && s.procs[p].Live()
    requires child.pid == s.nextPid && child.parent == NULL && child.cpu < |s.queues|
    ensures var s1 := s.(nextPid := s.nextPid + 1).Put(t, child).Link(p, t).Park(t, Blocked);
            && s1.Sized() && s1.Slot(t) && Spawned(s, s1, p, t)
            && s1.EffectiveCpu(t) == (if child.cpu >= 0 then child.cpu else s.local)
            && Inv(s1.MakeRunnable(t, s1.EffectiveCpu(t)))
  {
    hide Forest, RunQueues;
    PrepareChild(s, p, t, child);
    var s1 := s.(nextPid := s.nextPid + 1).Put(t, child).Link(p, t).Park(t, Blocked);
    SpawnedInv(s, s1, p, t);
    WakeInv(s1, t);
  }

  lemma ForkInv(s: System)
    requires Inv(s) && s.Slot(s.current[s.local]) && s.procs[s.current[s.local]].Live()
    ensures Inv(s.Fork().0)
    ensures s.Fork().1 == -1 || s.Fork().1 == s.nextPid
  {
    hide Forest, RunQueues;
    var cur := s.current[s.local];
    var p := s.procs[cur];
    var t := s.AllocFrom(0);
    if t != NULL && cur < s.userSlots {
      var child := s.procs[t].(pid := s.nextPid, ppid := p.pid, state := Unused, exitCode := 0, pgid := p.pgid,
                               sigint := p.sigint, sigterm := p.sigterm, sigchld := p.sigchld,
                               intPending := false, termPending := false);
      FreeSlot(s, t);
      ChildInv(s, cur, t, child);
    }
  }

  /** s' is s with the free slot t turned into a runnable copy of p: first child of p, last on the queue of CPU c. */
  ghost predicate Born(s: System, s': System, p: int, t: int, c: int)
    requires s.Sized() && s.Slot(p) && s.Slot(t) && s.Cpu(c)
  {
    && s'.nextPid == s.nextPid + 1 && s'.current == s.current && s'.local == s.local
    && s'.kids == s.kids[p := [t] + s.kids[p]]
    && s'.queues == s.queues[c := s.queues[c] + [t]]
    && |s'.procs| == |s.procs| && s'.procs == s.procs[t := s'.procs[t]]
    && var child, parent := s'.procs[t], s.procs[p];
    && child.pid == s.nextPid && child.ppid == parent.pid && child.parent == p
    && child.state == Runnable && child.cpu == c && child.exitCode == 0 && child.pgid == parent.pgid
    && child.sigint == parent.sigint && child.sigterm == parent.sigterm && child.sigchld == parent.sigchld
    && !child.intPending && !child.termPending
  }

  lemma BornChild(s: System, p: int, t: int, child: Proc)
    requires Inv(s) && s.Slot(p) && s.Slot(t) && !s.procs[t].Used() && s.procs[p].Live()
    requires child == s.procs[p].(pid := s.nextPid, ppid := child.ppid, parent := NULL, exitCode := 0,
                                  state := child.state, cpu := child.cpu,
                                  intPending := false, termPending := false, chldPending := child.chldPending)
    requires child.cpu < |s.queues|
    ensures var c := if child.cpu >= 0 then child.cpu else s.local;
            var s1 := s.(nextPid := s.nextPid + 1).Put(t, child).Link(p, t).Park(t, Blocked);
            s1.Sized() && s1.Slot(t) && s1.EffectiveCpu(t) == c && Born(s, s1.MakeRunnable(t, c), p, t, c)
            && s1.MakeRunnable(t, c).procs[t].chldPending == child.chldPending
  {
    FreeSlot(s, t);
    assert s.Sized() && s.Cpu(s.local);
    hide Inv;
    var s0 := s.(nextPid := s.nextPid + 1).Put(t, child);
    LinkFree(s0, p, t);
    hide System.Link, System.Park;
    var s1 := s0.Link(p, t).Park(t, Blocked);
    WakeFree(s1, t, if child.cpu >= 0 then child.cpu else s.local);
    hide System.MakeRunnable;
  }

  lemma WakeFree(s: System, t: int, c: int)
    requires s.Sized() && s.Slot(t) && s.Cpu(c)
    requires forall c :: 0 <= c < |s.queues| ==> t !in s.queues[c]
    ensures s.MakeRunnable(t, c) == s.Put(t, s.procs[t].(cpu := c, state := Runnable))
                                    .(queues := s.queues[c := s.queues[c] + [t]])
  {
  }

  /** A new task hangs on no list and no queue yet. */
  lemma LinkFree(s: System, p: int, t: int)
    requires s.Sized() && s.Slot(p) && s.Slot(t) && p != t && s.procs[t].parent == NULL
    requires forall c :: 0 <= c < |s.queues| ==> t !in s.queues[c]
    ensures s.Link(p, t).Park(t, Blocked)
            == s.Put(t, s.procs[t].(parent := p, ppid := s.procs[p].pid, cpu := s.EffectiveCpu(t), state := Blocked))
               .(kids := s.kids[p := [t] + s.kids[p]])
  {
    assert s.Unlink(t).procs == s.procs;
    assert !s.Link(p, t).Queued(t);
  }

  lemma {:induction false} AllocNone(s: System, i: nat)
    requires s.userSlots <= |s.procs|
    ensures s.AllocFrom(i) == NULL <==> forall j :: i <= j < s.userSlots ==> s.procs[j].Used()
    decreases s.userSlots - i
  {
    if i < s.userSlots { AllocNone(s, i + 1); }
  }

  /** Fork fails without effect iff no user slot is free or the caller has no address space to copy. */
  lemma ForkMakes(s: System)
    requires Inv(s) && s.Slot(s.current[s.local]) && s.procs[s.current[s.local]].Live()
    ensures var cur, t, (s', r) := s.current[s.local], s.AllocFrom(0), s.Fork();
            && (r == -1 <==> cur >= s.userSlots || forall j :: 0 <= j < s.userSlots ==> s.procs[j].Used())
            && (r == -1 ==> s' == s)
            && (r != -1 ==> r == s.nextPid && s.Slot(t) && Born(s, s', cur, t, s.EffectiveCpu(t))
                            && s'.procs[t].chldPending == s.procs[t].chldPending)
  {
    hide Forest, RunQueues, System.Link, System.Park, System.MakeRunnable, Born;
    var cur := s.current[s.local];
    var p := s.procs[cur];
    var t := s.AllocFrom(0);
    AllocNone(s, 0);
    NextPidPositive(s);
    if t != NULL && cur < s.userSlots {
      var child := s.procs[t].(pid := s.nextPid, ppid := p.pid, state := Unused, exitCode := 0, pgid := p.pgid,
                               sigint := p.sigint, sigterm := p.sigterm, sigchld := p.sigchld,
                               intPending := false, termPending := false);
      FreeSlot(s, t);
      BornChild(s, cur, t, child);
    }
  }

  lemma NextPidPositive(s: System)
    requires Inv(s)
    ensures s.nextPid > 0
  {
  }

  /** Spawn fails iff no slot is free or the loader refuses; then only a pid and a clean slot are used up. */
  lemma SpawnMakes(s: System, loaded: bool)
    requires Inv(s) && s.Slot(s.current[s.local]) && s.procs[s.current[s.local]].Live()
    ensures var cur, t, (s', r) := s.current[s.local], s.AllocFrom(0), s.Spawn(loaded);
            && (r == -1 <==> !loaded || forall j :: 0 <= j < s.userSlots ==> s.procs[j].Used())
            && (r == -1 && s' != s ==>
                  s.Slot(t) && !s.procs[t].Used() && s' == s.(nextPid := s.nextPid + 1).Put(t, ZERO_PROC))
            && (r != -1 ==> r == s.nextPid && s.Slot(t) && Born(s, s', cur, t, s.local)
                            && !s'.procs[t].chldPending)
  {
    hide Forest, RunQueues, System.Link, System.Park, System.MakeRunnable, System.Unlink, System.SetUnused, Born;
    var cur := s.current[s.local];
    var p := s.procs[cur];
    var t := s.AllocFrom(0);
    AllocNone(s, 0);
    NextPidPositive(s);
    if t != NULL {
      var child := ZERO_PROC.(pid := s.nextPid, ppid := p.pid, state := Blocked, pgid := p.pgid,
                             sigint := p.sigint, sigterm := p.sigterm, sigchld := p.sigchld, cpu := -1);
      if loaded {
        BornChild(s, cur, t, child);
      } else {
        SpawnFails(s, cur, t, child);
      }
    }
  }

  /** A failed spawn gives the slot back as it was, but the pid is spent. */
  lemma SpawnFails(s: System, p: int, t: int, child: Proc)
    requires Inv(s) && s.Slot(p) && s.Slot(t) && !s.procs[t].Used() && p != t
    requires child.parent == NULL && child.cpu == -1
    ensures s.(nextPid := s.nextPid + 1).Put(t, child).Link(p, t).Unlink(t).SetUnused(t).Put(t, ZERO_PROC)
            == s.(nextPid := s.nextPid + 1).Put(t, ZERO_PROC)
  {
    FreeSlot(s, t);
    hide Inv;
    var s1 := s.(nextPid := s.nextPid + 1).Put(t, child);
    var s2 := s1.Link(p, t);
    assert s1.Unlink(t).procs == s1.procs;
    assert s2.kids == s.kids[p := [t] + s.kids[p]];
    assert Without([t] + s.kids[p], t) == s.kids[p];
    var s3 := s2.Unlink(t);
    assert s3.kids == s.kids;
    assert !s3.Queued(t);
    assert s3.SetUnused(t).Put(t, ZERO_PROC).procs == s.procs[t := ZERO_PROC];
  }

  lemma ClearedInv(s: System, t: int, n: int)
    requires Inv(s) && s.Slot(t) && !s.procs[t].Used() && n >= s.nextPid
    ensures Inv(s.(nextPid := n).Put(t, ZERO_PROC))
  {
    FreeSlot(s, t);
    var s' := s.(nextPid := n).Put(t, ZERO_PROC);
    assert s'.Shape();
    ClearedForest(s, s', t);
    ClearedQueues(s, s', t);
  }

  lemma ClearedForest(s: System, s': System, t: int)
    requires Forest(s) && 0 < t < |s.procs| && !s.procs[t].Used() && s'.nextPid >= s.nextPid
    requires s'.procs == s.procs[t := ZERO_PROC]
    ensures Forest(s')
  {
  }

  lemma ClearedQueues(s: System, s': System, t: int)
    requires s.Sized() && s'.Sized() && RunQueues(s) && s.Slot(t)
    requires forall c :: 0 <= c < |s.queues| ==> t !in s.queues[c]
    requires forall c :: 0 <= c < |s.current| ==> s.current[c] != t
    requires s'.procs == s.procs[t := ZERO_PROC] && s'.queues == s.queues && s'.current == s.current
    ensures RunQueues(s')
  {
    forall u | 0 <= u < |s'.procs| && s'.procs[u].state == Runnable ensures s'.Queued(u) {
      assert s.Queued(u);
    }
  }

  lemma SpawnInv(s: System, loaded: bool)
    requires Inv(s) && s.Slot(s.current[s.local]) && s.procs[s.current[s.local]].Live()
    ensures Inv(s.Spawn(loaded).0)
  {
    hide Forest, RunQueues, System.Dequeue, System.SetUnused, System.MakeRunnable, System.Unlink;
    var cur := s.current[s.local];
    var p := s.procs[cur];
    var t := s.AllocFrom(0);
    if t != NULL {
      var child := ZERO_PROC.(pid := s.nextPid, ppid := p.pid, state := Blocked, pgid := p.pgid,
                             sigint := p.sigint, sigterm := p.sigterm, sigchld := p.sigchld, cpu := -1);
      if loaded {
        ChildInv(s, cur, t, child);
      } else {
        SpawnFails(s, cur, t, child);
        ClearedInv(s, t, s.nextPid + 1);
      }
    }
  }

  // ----- wait -----

  /** Freeing a zombie that is current on no CPU. */
  lemma ReapInv(s: System, t: int)
    requires Inv(s) && s.Slot(t) && s.procs[t].state == Zombie
    requires forall c :: 0 <= c < |s.current| ==> s.current[c] != t
    ensures Inv(s.Reap(t))
    ensures s.Reap(t).procs == s.procs[t := ZERO_PROC] && s.Reap(t).nextPid == s.nextPid
    ensures s.Reap(t).queues == s.queues && s.Reap(t).current == s.current
  {
    ZombieOffQueue(s, t);
    ZombieNoParent(s, t);
    hide Forest, RunQueues;
    var s' := s.Reap(t);
    ReapShape(s, t);
    hide System.Shape, System.Reap;
    ClearedQueues(s, s', t);
    ReapForest(s, s', t);
  }

  lemma ReapShape(s: System, t: int)
    requires s.Shape() && s.Slot(t) && s.kids[t] == []
    requires forall c :: 0 <= c < |s.queues| ==> t !in s.queues[c]
    ensures s.Reap(t).Shape() && s.Reap(t) == s.Unlink(t).Put(t, ZERO_PROC)
    ensures s.Reap(t).procs == s.procs[t := ZERO_PROC]
  {
    UnlinkShape(s, t);
    var s1 := s.Unlink(t);
    assert !s1.Queued(t);
  }

  lemma ZombieOffQueue(s: System, t: int)
    requires Inv(s) && s.Slot(t) && s.procs[t].state == Zombie
    ensures t != 0 && forall c :: 0 <= c < |s.queues| ==> t !in s.queues[c]
  {
  }

  /** Zombies have no children. */
  lemma ZombieNoParent(s: System, t: int)
    requires Inv(s) && s.Slot(t) && s.procs[t].state == Zombie
    ensures s.kids[t] == []
    ensures forall u :: 0 <= u < |s.procs| ==> s.procs[u].parent != t
  {
    if s.kids[t] != [] {
      var c := s.kids[t][0];
      assert c in s.kids[t];
      ChildFacts(s, c);
    }
  }

  lemma ReapForest(s: System, s': System, t: int)
    requires Forest(s) && 0 < t < |s.procs| && s'.nextPid == s.nextPid
    requires forall u :: 0 <= u < |s.procs| ==> s.procs[u].parent != t
    requires s'.procs == s.procs[t := ZERO_PROC]
    ensures Forest(s')
  {
  }

  /** The child a wait by the current task would reap, if any, is current on no CPU. */
  ghost predicate ReapsSafely(s: System, pid: int)
    requires s.Shape() && s.Slot(s.current[s.local])
  {
    s.ShapeWithin();
    var t := s.Reapable(pid, s.current[s.local], s.kids[s.current[s.local]]);
    t != NULL ==> forall c :: 0 <= c < |s.current| ==> s.current[c] != t
  }

  lemma WaitInv(s: System, pid: int, nohang: bool)
    requires Inv(s) && s.Slot(s.current[s.local]) && s.procs[s.current[s.local]].state == Running
    requires ReapsSafely(s, pid)
    ensures Inv(s.Wait(pid, nohang).0)
  {
    hide Forest, RunQueues;
    var cur := s.current[s.local];
    s.ShapeWithin();
    var t := s.Reapable(pid, cur, s.kids[cur]);
    if t != NULL {
      ReapInv(s, t);
    } else if s.Wait(pid, nohang).1 == Waits {
      ParkInv(s, cur, Blocked);
      UsedHasCpu(s, cur);
      YieldInv(s.Park(cur, Blocked), false);
    }
  }

  // ----- yield -----

  lemma CurrentFacts(s: System, c: int)
    requires Inv(s) && s.Cpu(c)
    ensures NULL <= s.current[c] < |s.procs|
    ensures s.current[c] != NULL ==> s.procs[s.current[c]].Used() && s.procs[s.current[c]].cpu == c
  {
  }

  lemma PushShape(s: System, t: int)
    requires s.Shape() && s.Slot(t) && s.procs[t].cpu == s.local && t !in s.queues[s.local]
    ensures var s' := s.Put(t, s.procs[t].(state := Runnable)).(queues := s.queues[s.local := s.queues[s.local] + [t]]);
            && s'.Shape()
            && (forall d, u :: 0 <= d < |s.queues| && u != t ==> (u in s'.queues[d] <==> u in s.queues[d]))
            && (forall d :: 0 <= d < |s.queues| ==> (t in s'.queues[d] <==> d == s.local))
  {
    var q := s.queues[s.local] + [t];
    assert NoDup(q);
    assert forall u :: u in q <==> u == t || u in s.queues[s.local];
  }

  lemma PreemptInv(s: System, tick: bool)
    requires Inv(s)
    ensures NULL <= s.current[s.local] < |s.procs|
    ensures var s' := s.Preempt(tick);
            && Inv(s') && s'.current == s.current && s'.local == s.local
            && (s.current[s.local] != NULL ==> s'.procs[s.current[s.local]].state != Running)
  {
    hide Forest, RunQueues;
    CurrentFacts(s, s.local);
    var prev := s.current[s.local];
    if prev != NULL && s.procs[prev].state == Running {
      RunningNotQueued(s, prev);
      PushShape(s, prev);
      var s' := s.Preempt(tick);
      ForestFrame(s, s');
      WakeQueues(s, s', prev);
    } else if prev != NULL && tick && s.procs[prev].state == Runnable {
      RunnableQueued(s, prev);
      assert s.procs[prev := s.procs[prev].(state := Runnable)] == s.procs;
    }
  }

  lemma RunnableQueued(s: System, t: int)
    requires Inv(s) && s.Slot(t) && s.procs[t].state == Runnable
    ensures s.Queued(t)
  {
  }

  lemma RunningNotQueued(s: System, t: int)
    requires Inv(s) && s.Slot(t) && s.procs[t].state != Runnable
    ensures !s.Queued(t) && forall c :: 0 <= c < |s.queues| ==> t !in s.queues[c]
  {
  }

  /** In a well-formed system nothing stale is popped. */
  lemma NothingStale(s: System, c: int)
    requires Inv(s) && s.Cpu(c)
    ensures s.FromRunnable(s.queues[c]) == s.queues[c]
    ensures s.queues[c] != [] ==> s.Slot(s.queues[c][0]) && s.procs[s.queues[c][0]].state == Runnable
  {
    if s.queues[c] != [] {
      assert s.queues[c][0] in s.queues[c];
    }
  }

  lemma DispatchInv(s: System)
    requires Inv(s) && (s.current[s.local] != NULL ==>
               s.Slot(s.current[s.local]) && s.procs[s.current[s.local]].state != Running)
    ensures Inv(s.Dispatch())
    ensures s.Dispatch().kids == s.kids
  {
    hide Forest, RunQueues;
    NothingStale(s, s.local);
    var s' := s.Dispatch();
    var q := s.queues[s.local];
    if q == [] {
      assert s'.queues == s.queues;
      ForestFrame(s, s');
      IdleQueues(s, s');
    } else {
      assert q[0] in q && forall u :: u in q <==> u == q[0] || u in q[1..];
      assert NoDup(q[1..]) && q[0] !in q[1..];
      DispatchShape(s, s');
      ForestFrame(s, s');
      DispatchQueues(s, s');
    }
  }

  lemma IdleQueues(s: System, s': System)
    requires s.Sized() && s'.Sized() && RunQueues(s)
    requires s.current[s.local] != NULL ==> s.Slot(s.current[s.local]) && s.procs[s.current[s.local]].state != Running
    requires s' == s.(current := s.current[s.local := NULL])
    ensures RunQueues(s')
  {
    forall t | 0 <= t < |s'.procs| && s'.procs[t].state == Runnable ensures s'.Queued(t) {
      assert s.Queued(t);
    }
  }

  /** s' runs the head of the local queue of s. */
  ghost predicate Dispatched(s: System, s': System)
    requires s.Sized() && s.queues[s.local] != []
  {
    var q := s.queues[s.local];
    && s.Slot(q[0]) && s.procs[q[0]].cpu == s.local
    && (forall u :: u in q <==> u == q[0] || u in q[1..]) && NoDup(q[1..]) && q[0] !in q[1..]
    && s'.procs == s.procs[q[0] := s.procs[q[0]].(state := Running)]
    && s' == s.(procs := s'.procs, queues := s.queues[s.local := q[1..]], current := s.current[s.local := q[0]])
  }

  lemma DispatchShape(s: System, s': System)
    requires s.Shape() && s.queues[s.local] != [] && Dispatched(s, s')
    ensures s'.Shape()
  {
  }

  lemma DispatchQueues(s: System, s': System)
    requires s.Shape() && s'.Sized() && RunQueues(s) && s.queues[s.local] != [] && Dispatched(s, s')
    requires s.procs[s.queues[s.local][0]].state == Runnable
    requires s.current[s.local] != NULL ==> s.Slot(s.current[s.local]) && s.procs[s.current[s.local]].state != Running
    ensures RunQueues(s')
  {
    var h := s.queues[s.local][0];
    forall t | 0 <= t < |s'.procs| && s'.procs[t].state == Runnable ensures s'.Queued(t) {
      assert s.Queued(t) && t != h;
    }
    assert forall c :: 0 <= c < |s.queues| && c != s.local ==> h !in s.queues[c];
  }

  lemma YieldInv(s: System, tick: bool)
    requires Inv(s)
    ensures NULL <= s.current[s.local] < |s.procs|
    ensures Inv(s.Yield(tick))
  {
    hide Forest, RunQueues;
    PreemptInv(s, tick);
    DispatchInv(s.Preempt(tick));
  }

  /**
    The local CPU goes on with the first task of q, or idles if there is none; the task it ran
    before is in state st now; nothing else changed.
   */
  ghost predicate Switched(s: System, s': System, q: seq<int>, st: State)
    requires s.Sized()
  {
    && s'.kids == s.kids && s'.local == s.local && s'.nextPid == s.nextPid && s'.userSlots == s.userSlots
    && s'.queues == s.queues[s.local := if q == [] then [] else q[1..]]
    && s'.current == s.current[s.local := At(q, 0)]
    && |s'.procs| == |s.procs|
    && forall u :: 0 <= u < |s.procs| ==>
         s'.procs[u] == s.procs[u].(state := if u == At(q, 0) then Running
                                             else if u == s.current[s.local] then st
                                             else s.procs[u].state)
  }

  /** A dispatch is round robin: the running task goes to the end of its queue, the first one runs. */
  lemma RoundRobin(s: System, tick: bool)
    requires Inv(s)
    ensures NULL <= s.current[s.local] < |s.procs|
    ensures var prev := s.current[s.local];
            var runs := prev != NULL && s.procs[prev].state == Running;
            Switched(s, s.Yield(tick), s.queues[s.local] + if runs then [prev] else [],
                     if runs then Runnable else if prev != NULL then s.procs[prev].state else Unused)
  {
    hide Forest, RunQueues, System.Preempt, System.Dispatch, Switched;
    CurrentFacts(s, s.local);
    PreemptIs(s, tick);
    PreemptInv(s, tick);
    hide System.Shape;
    var prev, s1 := s.current[s.local], s.Preempt(tick);
    DispatchIs(s1);
    assert s.queues[s.local] + [] == s.queues[s.local];
    var runs := prev != NULL && s.procs[prev].state == Running;
    SwitchedBy(s, s1, s1.Dispatch(), s1.queues[s.local],
               if runs then Runnable else if prev != NULL then s.procs[prev].state else Unused);
  }

  lemma SwitchedBy(s: System, s1: System, s': System, q: seq<int>, st: State)
    requires s.Sized() && s1.Sized() && |s1.procs| == |s.procs| && NULL <= s.current[s.local] < |s.procs|
    requires s1 == s.(procs := s1.procs, queues := s.queues[s.local := q])
    requires forall u :: 0 <= u < |s.procs| ==>
               s1.procs[u] == s.procs[u].(state := if u == s.current[s.local] then st else s.procs[u].state)
    requires s' == if q == [] then s1.(current := s1.current[s1.local := NULL])
                   else s1.(procs := s'.procs, queues := s1.queues[s1.local := q[1..]],
                            current := s1.current[s1.local := q[0]])
    requires q != [] ==> s1.Slot(q[0]) && s'.procs == s1.procs[q[0] := s1.procs[q[0]].(state := Running)]
    ensures Switched(s, s', q, st)
  {
  }

  lemma PreemptIs(s: System, tick: bool)
    requires Inv(s) && NULL <= s.current[s.local] < |s.procs|
    ensures var prev, q := s.current[s.local], s.queues[s.local];
            s.Preempt(tick)
            == if prev == NULL || s.procs[prev].state != Running then s
               else s.Put(prev, s.procs[prev].(state := Runnable)).(queues := s.queues[s.local := q + [prev]])
  {
    hide Forest;
    var prev := s.current[s.local];
    if prev != NULL {
      if s.procs[prev].state == Running { RunningNotQueued(s, prev); }
      if s.procs[prev].state == Runnable {
        RunnableQueued(s, prev);
        assert s.procs[prev := s.procs[prev].(state := Runnable)] == s.procs;
      }
    }
  }

  lemma DispatchIs(s: System)
    requires Inv(s)
    ensures var q := s.queues[s.local];
            s.Dispatch() == if q == [] then s.(current := s.current[s.local := NULL])
                            else s.(procs := s.Dispatch().procs, queues := s.queues[s.local := q[1..]],
                                    current := s.current[s.local := q[0]])
    ensures var q := s.queues[s.local];
            q != [] ==> s.Slot(q[0]) && s.Dispatch().procs == s.procs[q[0] := s.procs[q[0]].(state := Running)]
  {
    hide Forest, RunQueues, System.FromRunnable;
    NothingStale(s, s.local);
    if s.queues[s.local] != [] { assert s.queues[s.local][0] in s.queues[s.local]; }
    hide System.Shape;
    assert s.queues[s.local] == [] ==> s.queues[s.local := []] == s.queues;
  }

  /** Blocking the running task and yielding hands the CPU to the first task of its queue. */
  lemma BlockSwitches(s: System)
    requires Inv(s) && s.Slot(s.current[s.local]) && s.procs[s.current[s.local]].state == Running
    ensures var s1 := s.Park(s.current[s.local], Blocked);
            && s1.Sized() && s1.Slot(s1.current[s1.local])
            && Switched(s, s1.Yield(false), s.queues[s.local], Blocked)
  {
    hide Forest, RunQueues, System.Yield;
    var cur := s.current[s.local];
    CurrentFacts(s, s.local);
    RunningNotQueued(s, cur);
    ParkInv(s, cur, Blocked);
    RoundRobin(s.Park(cur, Blocked), false);
    hide System.Shape;
    assert s.queues[s.local] + [] == s.queues[s.local];
  }

  // ----- signals -----

  lemma DeliverInv(s: System, t: int, sig: int)
    requires Inv(s) && s.Slot(t)
    ensures Inv(s.Deliver(t, sig)) && |s.Deliver(t, sig).procs| == |s.procs|
  {
    hide Forest, RunQueues;
    var p := s.procs[t];
    var p' := if sig == SIGINT then p.(intPending := true) else p.(termPending := true);
    PutInv(s, t, p');
    if p.state == Blocked {
      WakeInv(s.Put(t, p'), t);
    }
  }

  /** A signal is dropped, kills, or is delivered to a live task. */
  lemma SignalCases(s: System, t: int, sig: int)
    requires s.Shape() && s.Slot(t)
    ensures var r := s.SignalOne(t, sig);
            || r.0 == s
            || (s.procs[t].Live() && r == s.Kill(s.procs[t].pid, 128 + sig))
            || (s.procs[t].Live() && r == (s.Deliver(t, sig), 0))
  {
    hide System.Kill, System.Deliver;
  }

  lemma SignalOneInv(s: System, t: int, sig: int)
    requires Inv(s) && s.Slot(t)
    ensures Inv(s.SignalOne(t, sig).0) && |s.SignalOne(t, sig).0.procs| == |s.procs|
  {
    hide Forest, RunQueues, System.Kill, System.Deliver, System.SignalOne;
    SignalCases(s, t, sig);
    KillInv(s, s.procs[t].pid, 128 + sig);
    DeliverInv(s, t, sig);
  }

  /** process_send_signal_pgid's walk over the table: the new system and the deliveries. */
  ghost function SignalGroupFrom(s: System, i: nat, pgid: int, sig: int): (r: (System, nat))
    requires Inv(s)
    ensures Inv(r.0)
    decreases |s.procs| - i
  {
    if i >= |s.procs| then (s, 0)
    else if !s.procs[i].Live() || s.procs[i].pgid != pgid then SignalGroupFrom(s, i + 1, pgid, sig)
    else
      SignalOneInv(s, i, sig);
      var r := SignalGroupFrom(s.SignalOne(i, sig).0, i + 1, pgid, sig);
      (r.0, r.1 + if s.SignalOne(i, sig).1 == 0 then 1 else 0)
  }

  /** One turn of the walk. */
  lemma SignalGroupStep(s: System, i: nat, pgid: int, sig: int)
    requires Inv(s)
    ensures if i >= |s.procs| then SignalGroupFrom(s, i, pgid, sig) == (s, 0)
            else if !s.procs[i].Live() || s.procs[i].pgid != pgid then
              SignalGroupFrom(s, i, pgid, sig) == SignalGroupFrom(s, i + 1, pgid, sig)
            else
              && Inv(s.SignalOne(i, sig).0) && |s.SignalOne(i, sig).0.procs| == |s.procs|
              && var r := SignalGroupFrom(s.SignalOne(i, sig).0, i + 1, pgid, sig);
              && SignalGroupFrom(s, i, pgid, sig).0 == r.0
              && SignalGroupFrom(s, i, pgid, sig).1 == r.1 + if s.SignalOne(i, sig).1 == 0 then 1 else 0
  {
    hide Forest, RunQueues, System.Shape, System.SignalOne;
    if i < |s.procs| && s.procs[i].Live() { SignalOneInv(s, i, sig); }
  }
}
