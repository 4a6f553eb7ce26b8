/**
  Signals to a process group: whom the walk over the table kills and wakes, who gets the dead
  to wait for, and when a death in the walk leaves a blocked parent unaware of it.
 */
module TaskGroups {
  import opened IntrusiveLists
  import opened TaskSystem
  import opened TaskInvariants
  import opened TaskCalls
  import opened TaskRuns
  import opened TaskDeaths

  /** What a task has set for a signal; SIGKILL cannot be set. */
  function HandlerOf(p: Proc, sig: int): Handler {
    if sig == SIGINT then p.sigint else if sig == SIGTERM then p.sigterm else Default
  }

  predicate Member(s: System, pgid: int, t: int) {
    s.Slot(t) && s.procs[t].Live() && s.procs[t].pgid == pgid
  }

  predicate Known(sig: int) { sig == SIGKILL || sig == SIGINT || sig == SIGTERM }

  /** The walk from slot i on kills t. */
  predicate Doomed(s: System, i: int, pgid: int, sig: int, t: int) {
    i <= t && Member(s, pgid, t) && Known(sig) && HandlerOf(s.procs[t], sig) == Default && s.procs[t].pid != 1
  }

  /** The walk from slot i on delivers the signal to t's handler. */
  predicate Catches(s: System, i: int, pgid: int, sig: int, t: int) {
    i <= t && Member(s, pgid, t) && Known(sig) && HandlerOf(s.procs[t], sig).Caught?
  }

  /** Whom the death of k, when the walk reaches it, notifies: init if k's parent died before it or ignores SIGCHLD. */
  function Target(s: System, i: int, pgid: int, sig: int, k: int): int
    requires s.Slot(k)
  {
    var p := s.procs[k].parent;
    if Doomed(s, i, pgid, sig, p) && p < k then 0 else Undertaker(s, k)
  }

  /** The walk from slot i on wakes u, if it is blocked. */
  ghost predicate Roused(s: System, i: int, pgid: int, sig: int, u: int) {
    Catches(s, i, pgid, sig, u) || Notified(s, i, pgid, sig, u)
  }

  /** The walk from slot i on tells u of a death. */
  ghost predicate Notified(s: System, i: int, pgid: int, sig: int, u: int) {
    exists k :: Notifies(s, i, pgid, sig, k, u)
  }

  /** k dies in the walk from slot i on, and u is told. */
  predicate Notifies(s: System, i: int, pgid: int, sig: int, k: int, u: int) {
    Doomed(s, i, pgid, sig, k) && Target(s, i, pgid, sig, k) == u
  }

  /** u's parent after the walk. */
  function LastParent(s: System, i: int, pgid: int, sig: int, u: int): int
    requires s.Slot(u)
  {
    if Doomed(s, i, pgid, sig, s.procs[u].parent) then 0
    else if Doomed(s, i, pgid, sig, u) then Undertaker(s, u)
    else s.procs[u].parent
  }

  /** u's state after the walk. */
  ghost function LastState(s: System, i: int, pgid: int, sig: int, u: int): State
    requires s.Slot(u)
  {
    if Doomed(s, i, pgid, sig, u) then Zombie
    else if s.procs[u].state == Blocked && Roused(s, i, pgid, sig, u) then Runnable
    else s.procs[u].state
  }

  /** u after the walk, but for the ppid, which is the pid of the parent. */
  ghost function Last(s: System, i: int, pgid: int, sig: int, u: int): Proc
    requires s.Slot(u)
  {
    var p := s.procs[u];
    p.(state := LastState(s, i, pgid, sig, u), parent := LastParent(s, i, pgid, sig, u),
       exitCode := if Doomed(s, i, pgid, sig, u) then 128 + sig else p.exitCode,
       intPending := p.intPending || (sig == SIGINT && Catches(s, i, pgid, sig, u)),
       termPending := p.termPending || (sig == SIGTERM && Catches(s, i, pgid, sig, u)),
       chldPending := p.chldPending || (p.sigchld != Ignore && Notified(s, i, pgid, sig, u)))
  }

  /** What the walk does to every task. */
  ghost predicate Swept(s: System, i: int, pgid: int, sig: int, s': System) {
    && |s'.procs| == |s.procs| && SameCpus(s, s')
    && forall u :: 0 <= u < |s.procs| ==> s'.procs[u] == Last(s, i, pgid, sig, u).(ppid := s'.procs[u].ppid)
  }

  /** What one turn of the walk does. */
  lemma Turn(s: System, i: nat, sig: int)
    requires Inv(s) && i < |s.procs|
    ensures var s1, pgid := s.SignalOne(i, sig).0, s.procs[i].pgid;
            if Doomed(s, i, pgid, sig, i) then Died(s, s1, i, 128 + sig)
            else if Catches(s, i, pgid, sig, i) then Woke(s, s1, i, sig)
            else s1 == s
    ensures s.SignalOne(i, sig).1 == if Takes(s, sig, i) then 0 else -1
  {
    hide Forest, RunQueues, System.Kill, System.MakeRunnable, Died;
    if s.procs[i].Live() {
      FindUsed(s, i);
      KillInv(s, s.procs[i].pid, 128 + sig);
      UsedHasCpu(s, i);
      if sig == SIGINT || sig == SIGTERM { MadeRunnable(s, i, sig); }
    }
  }

  /** A signal to t counts as delivered, also one that is ignored: t lives, and it would not kill init. */
  predicate Takes(s: System, sig: int, t: int) {
    s.Slot(t) && s.procs[t].Live() && Known(sig) && (HandlerOf(s.procs[t], sig) != Default || s.procs[t].pid != 1)
  }

  /** Only i changed: it has the signal pending and is no longer blocked. */
  ghost predicate Woke(s: System, s1: System, i: int, sig: int) {
    && |s1.procs| == |s.procs| && s.Slot(i) && s1.kids == s.kids && SameCpus(s, s1)
    && s1.procs[i] == Struck(s.procs[i], sig)
    && forall u :: 0 <= u < |s.procs| && u != i ==> s1.procs[u] == s.procs[u]
  }

  /** A task that caught the signal: it is pending, and the task is not blocked. */
  function Struck(p: Proc, sig: int): Proc {
    p.(state := if p.state == Blocked then Runnable else p.state,
       intPending := p.intPending || sig == SIGINT, termPending := p.termPending || sig == SIGTERM)
  }

  lemma MadeRunnable(s: System, i: int, sig: int)
    requires s.Sized() && s.Slot(i) && s.Cpu(s.procs[i].cpu) && (sig == SIGINT || sig == SIGTERM)
    ensures Woke(s, s.Deliver(i, sig), i, sig)
  {
  }

  /** What an outsider keeps when i dies. */
  lemma DoomedAfterDeath(s: System, s1: System, i: nat, pgid: int, sig: int, u: int)
    requires s.Slot(i) && Doomed(s, i, pgid, sig, i) && Died(s, s1, i, 128 + sig)
    ensures Doomed(s1, i + 1, pgid, sig, u) <==> Doomed(s, i, pgid, sig, u) && u != i
    ensures Catches(s1, i + 1, pgid, sig, u) <==> Catches(s, i, pgid, sig, u)
  {
  }

  lemma TargetAfterDeath(s: System, s1: System, i: nat, pgid: int, sig: int, k: int)
    requires s.Slot(i) && Doomed(s, i, pgid, sig, i) && Died(s, s1, i, 128 + sig)
    requires |s.procs| > 0 && s.procs[0].pid == 1
    requires Doomed(s, i, pgid, sig, k) && k != i && s.Slot(s.procs[k].parent)
    ensures s1.Slot(k) && Target(s1, i + 1, pgid, sig, k) == Target(s, i, pgid, sig, k)
  {
    var p := s.procs[k].parent;
    DoomedAfterDeath(s, s1, i, pgid, sig, p);
    if p != i { SigchldKept(s, s1, i, 128 + sig, p); }
    ParentAfterDeath(s, s1, i, 128 + sig, k);
  }

  lemma SigchldKept(s: System, s1: System, i: nat, code: int, u: int)
    requires s.Slot(i) && Died(s, s1, i, code) && s.Slot(u) && u != i
    ensures s1.Slot(u) && s1.procs[u].sigchld == s.procs[u].sigchld && s1.procs[u].pid == s.procs[u].pid
  {
  }

  lemma ParentAfterDeath(s: System, s1: System, i: nat, code: int, u: int)
    requires s.Slot(i) && Died(s, s1, i, code) && s.Slot(u)
    ensures s1.Slot(u) && s1.procs[u].parent == if u == i then Undertaker(s, i) else Heir(s, i, u)
  {
  }

  lemma StateAfterDeath(s: System, s1: System, i: nat, code: int, u: int)
    requires s.Slot(i) && Died(s, s1, i, code) && s.Slot(u)
    ensures s1.Slot(u)
    ensures s1.procs[u].state == if u == i then Zombie else Woken(u, Undertaker(s, i), s.procs[u].state)
  {
  }

  /** A turn that kills i leaves for the rest of the walk what the whole walk had to do. */
  lemma AfterDeath(s: System, s1: System, i: nat, pgid: int, sig: int, s': System)
    requires Inv(s) && i < |s.procs| && Doomed(s, i, pgid, sig, i) && Died(s, s1, i, 128 + sig)
    requires Swept(s1, i + 1, pgid, sig, s')
    ensures Swept(s, i, pgid, sig, s')
  {
    InitFacts(s);
    ParentsLive(s);
    assert |s1.procs| == |s.procs|;
    hide Inv, Died, Last;
    forall u | 0 <= u < |s.procs|
      ensures s'.procs[u] == Last(s, i, pgid, sig, u).(ppid := s'.procs[u].ppid)
    {
      LastAfterDeath(s, s1, i, pgid, sig, u);
    }
  }

  lemma LastAfterDeath(s: System, s1: System, i: nat, pgid: int, sig: int, u: int)
    requires s.Slot(i) && Doomed(s, i, pgid, sig, i) && Died(s, s1, i, 128 + sig)
    requires |s.procs| > 0 && s.procs[0].pid == 1
    requires forall t {:trigger s.procs[t].parent} :: 0 < t < |s.procs| && s.procs[t].Used() ==>
               s.Slot(s.procs[t].parent) && s.procs[t].parent != t
    requires s.Slot(u)
    ensures s1.Slot(u)
    ensures Last(s1, i + 1, pgid, sig, u) == Last(s, i, pgid, sig, u).(ppid := s1.procs[u].ppid)
  {
    hide Died, Notified, LastState, LastParent, Catches, Undertaker;
    LinksAfterDeath(s, s1, i, pgid, sig, u);
    OthersAfterDeath(s, s1, i, 128 + sig, u);
    DoomedAfterDeath(s, s1, i, pgid, sig, u);
    NotifiedAfterDeath(s, s1, i, pgid, sig, u);
  }

  /** The state and the parent the rest of the walk leaves are those the whole walk leaves. */
  lemma LinksAfterDeath(s: System, s1: System, i: nat, pgid: int, sig: int, u: int)
    requires s.Slot(i) && Doomed(s, i, pgid, sig, i) && Died(s, s1, i, 128 + sig)
    requires |s.procs| > 0 && s.procs[0].pid == 1
    requires forall t {:trigger s.procs[t].parent} :: 0 < t < |s.procs| && s.procs[t].Used() ==>
               s.Slot(s.procs[t].parent) && s.procs[t].parent != t
    requires s.Slot(u)
    ensures s1.Slot(u)
    ensures LastState(s1, i + 1, pgid, sig, u) == LastState(s, i, pgid, sig, u)
    ensures LastParent(s1, i + 1, pgid, sig, u) == LastParent(s, i, pgid, sig, u)
  {
    hide Died, Notified;
    StateAfterDeath(s, s1, i, 128 + sig, u);
    ParentAfterDeath(s, s1, i, 128 + sig, u);
    DoomedAfterDeath(s, s1, i, pgid, sig, u);
    DoomedAfterDeath(s, s1, i, pgid, sig, s.procs[u].parent);
    DoomedAfterDeath(s, s1, i, pgid, sig, s1.procs[u].parent);
    NotifiedAfterDeath(s, s1, i, pgid, sig, u);
    var p := s.procs[u].parent;
    if s.Slot(p) && p != i { SigchldKept(s, s1, i, 128 + sig, p); }
  }

  lemma OthersAfterDeath(s: System, s1: System, i: nat, code: int, u: int)
    requires s.Slot(i) && Died(s, s1, i, code) && s.Slot(u)
    ensures s1.Slot(u)
    ensures s1.procs[u] == s.procs[u].(state := s1.procs[u].state, parent := s1.procs[u].parent,
                                       ppid := s1.procs[u].ppid,
                                       exitCode := if u == i then code else s.procs[u].exitCode,
                                       chldPending := Told(u, Undertaker(s, i), s.procs[u]))
    ensures Undertaker(s, i) != i
  {
  }

  lemma NotifiedAfterDeath(s: System, s1: System, i: nat, pgid: int, sig: int, u: int)
    requires s.Slot(i) && Doomed(s, i, pgid, sig, i) && Died(s, s1, i, 128 + sig)
    requires |s.procs| > 0 && s.procs[0].pid == 1
    requires forall t {:trigger s.procs[t].parent} :: 0 < t < |s.procs| && s.procs[t].Used() ==>
               s.Slot(s.procs[t].parent) && s.procs[t].parent != t
    ensures Notified(s, i, pgid, sig, u) <==> Notified(s1, i + 1, pgid, sig, u) || Undertaker(s, i) == u
  {
    hide Died, Target;
    DoomedAfterDeath(s, s1, i, pgid, sig, u);
    OwnTarget(s, i, pgid, sig);
    var j := i + 1;
    if k :| Notifies(s, i, pgid, sig, k, u) && k != i {
      DoomedAfterDeath(s, s1, i, pgid, sig, k);
      TargetAfterDeath(s, s1, i, pgid, sig, k);
      assert Notifies(s1, j, pgid, sig, k, u);
    }
    if k :| Notifies(s1, j, pgid, sig, k, u) {
      DoomedAfterDeath(s, s1, i, pgid, sig, k);
      TargetAfterDeath(s, s1, i, pgid, sig, k);
      assert Notifies(s, i, pgid, sig, k, u);
    }
    assert Undertaker(s, i) == u ==> Notifies(s, i, pgid, sig, i, u);
  }

  lemma OwnTarget(s: System, i: nat, pgid: int, sig: int)
    requires s.Slot(i)
    ensures Target(s, i, pgid, sig, i) == Undertaker(s, i)
  {
  }

  lemma InitFacts(s: System)
    requires Inv(s)
    ensures |s.procs| > 0 && s.procs[0].pid == 1 && s.procs[0].Live()
  {
  }

  lemma ParentsLive(s: System)
    requires Inv(s)
    ensures forall t {:trigger s.procs[t].parent} :: 0 < t < |s.procs| && s.procs[t].Used() ==>
              s.Slot(s.procs[t].parent) && s.procs[t].parent != t
  {
  }

  /** A turn that changes no parent and wakes at most i. */
  lemma AfterOther(s: System, s1: System, i: nat, pgid: int, sig: int, s': System)
    requires i < |s.procs| && !Doomed(s, i, pgid, sig, i)
    requires if Catches(s, i, pgid, sig, i) then Woke(s, s1, i, sig) else s1 == s
    requires Swept(s1, i + 1, pgid, sig, s')
    ensures Swept(s, i, pgid, sig, s')
  {
    assert |s1.procs| == |s.procs|;
    hide Last;
    forall u | 0 <= u < |s.procs|
      ensures s'.procs[u] == Last(s, i, pgid, sig, u).(ppid := s'.procs[u].ppid)
    {
      LastAfterOther(s, s1, i, pgid, sig, u);
    }
  }

  /** Only pending signals, and the state of i, may have changed. */
  lemma OtherKeeps(s: System, s1: System, i: nat, pgid: int, sig: int, u: int)
    requires i < |s.procs| && !Doomed(s, i, pgid, sig, i)
    requires if Catches(s, i, pgid, sig, i) then Woke(s, s1, i, sig) else s1 == s
    ensures Doomed(s1, i + 1, pgid, sig, u) <==> Doomed(s, i, pgid, sig, u)
    ensures Catches(s1, i + 1, pgid, sig, u) <==> Catches(s, i, pgid, sig, u) && u != i
    ensures s.Slot(u) ==> s1.Slot(u) && s1.procs[u].parent == s.procs[u].parent && Undertaker(s1, u) == Undertaker(s, u)
    ensures s.Slot(u) ==>
              s1.procs[u] == if u == i && Catches(s, i, pgid, sig, i) then Struck(s.procs[i], sig) else s.procs[u]
  {
    if Catches(s, i, pgid, sig, i) && s.Slot(u) {
      var p := s.procs[u].parent;
      assert s.Slot(p) ==> s1.procs[p].sigchld == s.procs[p].sigchld;
    }
  }

  lemma LastAfterOther(s: System, s1: System, i: nat, pgid: int, sig: int, u: int)
    requires i < |s.procs| && !Doomed(s, i, pgid, sig, i) && s.Slot(u)
    requires if Catches(s, i, pgid, sig, i) then Woke(s, s1, i, sig) else s1 == s
    ensures s1.Slot(u) && Last(s1, i + 1, pgid, sig, u) == Last(s, i, pgid, sig, u)
  {
    hide Doomed, Catches, Woke, Undertaker, Notifies;
    OtherKeeps(s, s1, i, pgid, sig, u);
    OtherKeeps(s, s1, i, pgid, sig, s.procs[u].parent);
    var j := i + 1;
    if k :| Notifies(s, i, pgid, sig, k, u) { OtherNotifies(s, s1, i, pgid, sig, k, u); }
    if k :| Notifies(s1, j, pgid, sig, k, u) { OtherNotifies(s, s1, i, pgid, sig, k, u); }
  }

  lemma OtherNotifies(s: System, s1: System, i: nat, pgid: int, sig: int, k: int, u: int)
    requires i < |s.procs| && !Doomed(s, i, pgid, sig, i)
    requires if Catches(s, i, pgid, sig, i) then Woke(s, s1, i, sig) else s1 == s
    ensures Notifies(s1, i + 1, pgid, sig, k, u) <==> Notifies(s, i, pgid, sig, k, u)
  {
    OtherKeeps(s, s1, i, pgid, sig, k);
    if Doomed(s, i, pgid, sig, k) {
      hide Woke;
      OtherKeeps(s, s1, i, pgid, sig, s.procs[k].parent);
    }
  }

  /** The whole walk, in closed form: every field of every task. */
  lemma {:induction false} Sweep(s: System, i: nat, pgid: int, sig: int)
    requires Inv(s)
    ensures Swept(s, i, pgid, sig, SignalGroupFrom(s, i, pgid, sig).0)
    decreases |s.procs| - i
  {
    hide Forest, RunQueues, System.SignalOne, System.Shape, Swept, Died, Woke;
    if i >= |s.procs| {
      SweptNothing(s, i, pgid, sig);
    } else {
      var s' := SignalGroupFrom(s, i, pgid, sig).0;
      if !s.procs[i].Live() || s.procs[i].pgid != pgid {
        Sweep(s, i + 1, pgid, sig);
        AfterOther(s, s, i, pgid, sig, s');
      } else {
        SignalOneInv(s, i, sig);
        Turn(s, i, sig);
        var s1 := s.SignalOne(i, sig).0;
        Sweep(s1, i + 1, pgid, sig);
        if Doomed(s, i, pgid, sig, i) {
          AfterDeath(s, s1, i, pgid, sig, s');
        } else {
          AfterOther(s, s1, i, pgid, sig, s');
        }
      }
    }
  }

  lemma SweptNothing(s: System, i: nat, pgid: int, sig: int)
    requires i >= |s.procs|
    ensures Swept(s, i, pgid, sig, s)
  {
  }

  /** From slot i on the signal counts as delivered to t. */
  predicate Delivers(s: System, i: int, pgid: int, sig: int, t: int) {
    i <= t && Member(s, pgid, t) && Takes(s, sig, t)
  }

  lemma DeliversLater(s: System, s1: System, i: nat, pgid: int, sig: int, t: int)
    requires i < |s.procs|
    requires if Doomed(s, i, pgid, sig, i) then Died(s, s1, i, 128 + sig)
             else if Catches(s, i, pgid, sig, i) then Woke(s, s1, i, sig) else s1 == s
    ensures Delivers(s1, i + 1, pgid, sig, t) <==> Delivers(s, i, pgid, sig, t) && t != i
  {
  }

  /** The walk counts a delivery exactly when there is a member to deliver to. */
  lemma {:induction false} GroupCounts(s: System, i: nat, pgid: int, sig: int)
    requires Inv(s)
    ensures SignalGroupFrom(s, i, pgid, sig).1 > 0 <==> exists t :: Delivers(s, i, pgid, sig, t)
    decreases |s.procs| - i
  {
    hide Forest, RunQueues, System.SignalOne, System.Shape, Died, Woke, Delivers;
    SignalGroupStep(s, i, pgid, sig);
    if i < |s.procs| {
      var s1 := s;
      if s.procs[i].Live() && s.procs[i].pgid == pgid {
        SignalOneInv(s, i, sig);
        Turn(s, i, sig);
        s1 := s.SignalOne(i, sig).0;
      }
      GroupCounts(s1, i + 1, pgid, sig);
      var j := i + 1;
      if t :| Delivers(s, i, pgid, sig, t) && t != i { DeliversLater(s, s1, i, pgid, sig, t); }
      if t :| Delivers(s1, j, pgid, sig, t) { DeliversLater(s, s1, i, pgid, sig, t); }
      DeliversHere(s, i, pgid, sig);
    } else {
      forall t ensures !Delivers(s, i, pgid, sig, t) { NoneLeft(s, i, pgid, sig, t); }
    }
  }

  lemma DeliversHere(s: System, i: nat, pgid: int, sig: int)
    requires i < |s.procs|
    ensures Delivers(s, i, pgid, sig, i) <==> s.procs[i].Live() && s.procs[i].pgid == pgid && Takes(s, sig, i)
  {
  }

  lemma NoneLeft(s: System, i: nat, pgid: int, sig: int, t: int)
    requires i >= |s.procs|
    ensures !Delivers(s, i, pgid, sig, t)
  {
  }

  /**
    Signalling a group answers success exactly when it has a live member that does not keep
    the signal from init; then it does to every task what Last says, else nothing changes.
   */
  lemma GroupSignalled(s: System, pgid: int, sig: int)
    requires Inv(s)
    ensures var (s', r) := SendSignalGroup(s, pgid, sig);
            && r == (if pgid > 0 && exists t :: Delivers(s, 0, pgid, sig, t) then 0 else -1)
            && if pgid > 0 then Swept(s, 0, pgid, sig, s') else s' == s
  {
    hide Inv, Swept, Delivers;
    Sweep(s, 0, pgid, sig);
    GroupCounts(s, 0, pgid, sig);
  }

  /**
    Signalling one task answers success exactly when the signal counts as delivered; it kills
    the task, or makes the signal pending and wakes the task, or changes nothing.
   */
  lemma OneSignalled(s: System, pid: int, sig: int)
    requires Inv(s)
    ensures var t, (s', r) := s.Find(pid), SendSignal(s, pid, sig);
            && r == (if pid > 0 && Takes(s, sig, t) then 0 else -1)
            && if pid <= 0 || t == NULL || !s.procs[t].Live() || !Known(sig) then s' == s
               else match HandlerOf(s.procs[t], sig)
                    case Ignore => s' == s
                    case Default => if pid == 1 then s' == s else Died(s, s', t, 128 + sig)
                    case Caught(_) => Woke(s, s', t, sig)
  {
    hide Forest, RunQueues, System.Shape, System.SignalOne, Died, Woke;
    if pid > 0 && s.Find(pid) != NULL {
      SignalOneInv(s, s.Find(pid), sig);
      Turn(s, s.Find(pid), sig);
    }
  }

  lemma ToldParent(s: System, pgid: int, sig: int, t: int)
    requires Doomed(s, 0, pgid, sig, t) && !Doomed(s, 0, pgid, sig, s.procs[t].parent) && s.Slot(s.procs[t].parent)
    requires |s.procs| > 0
    ensures Roused(s, 0, pgid, sig, Undertaker(s, t)) && s.Slot(Undertaker(s, t))
  {
    assert Target(s, 0, pgid, sig, t) == Undertaker(s, t);
    assert Notifies(s, 0, pgid, sig, t, Undertaker(s, t));
  }

  /**
    A task killed by a group signal has a blocked parent afterwards exactly when its parent is
    killed too, init is blocked, and nothing in the walk wakes init: then init has adopted a
    dead task without being told.
   */
  lemma UnawareIff(s: System, pgid: int, sig: int, t: int)
    requires Inv(s) && pgid > 0 && Doomed(s, 0, pgid, sig, t)
    ensures var s' := SendSignalGroup(s, pgid, sig).0;
            && s'.Slot(t) && s'.procs[t].state == Zombie && s'.Slot(s'.procs[t].parent)
            && (s'.procs[s'.procs[t].parent].state == Blocked <==>
                  && Doomed(s, 0, pgid, sig, s.procs[t].parent)
                  && s.procs[0].state == Blocked && !Roused(s, 0, pgid, sig, 0))
  {
    Sweep(s, 0, pgid, sig);
    InitFacts(s);
    ParentsLive(s);
    hide Inv;
    var p := s.procs[t].parent;
    assert Doomed(s, 0, pgid, sig, t) && t != 0;
    if !Doomed(s, 0, pgid, sig, p) { ToldParent(s, pgid, sig, t); }
    assert !Doomed(s, 0, pgid, sig, 0);
    hide Doomed, Roused, Undertaker;
  }

  /**
    Init, its child in slot 3, that one's child in slot 2 and grandchild in slot 1: all blocked,
    the last two a group.
   */
  ghost function Family(): System {
    var init := ZERO_PROC.(pid := 1, pgid := 1, state := Blocked);
    System([init,
            init.(pid := 4, ppid := 3, pgid := 9, parent := 2),
            init.(pid := 3, ppid := 2, pgid := 9, parent := 3),
            init.(pid := 2, ppid := 1, pgid := 2, parent := 0)],
           [[3], [], [1], [2]], [[]], [NULL], 0, 5, 4)
  }

  /** One task of the family. */
  predicate Is(q: Proc, pid: int, ppid: int, pgid: int, parent: int) {
    && q.pid == pid && q.ppid == ppid && q.pgid == pgid && q.parent == parent && q.state == Blocked && q.cpu == 0
    && q.sigchld == Default
  }

  lemma FamilyFacts()
    ensures var s := Family();
            && |s.procs| == |s.kids| == 4 && |s.queues| == |s.current| == 1
            && Is(s.procs[0], 1, 0, 1, NULL) && Is(s.procs[1], 4, 3, 9, 2)
            && Is(s.procs[2], 3, 2, 9, 3) && Is(s.procs[3], 2, 1, 2, 0)
            && s.kids[0] == [3] && s.kids[1] == [] && s.kids[2] == [1] && s.kids[3] == [2]
            && s.queues[0] == [] && s.current[0] == NULL && s.local == 0 && s.nextPid == 5 && s.userSlots == 4
  {
  }

  lemma FamilyShape()
    ensures Family().Shape()
  {
    hide Family;
    FamilyFacts();
    var s := Family();
    forall t | 0 <= t < |s.procs| && s.procs[t].parent != NULL
      ensures 0 <= s.procs[t].parent < |s.procs| && t in s.kids[s.procs[t].parent]
    {
      assert t == 1 || t == 2 || t == 3;
    }
  }

  lemma FamilyForest()
    ensures Forest(Family())
  {
    hide Family;
    FamilyFacts();
  }

  lemma FamilyInv()
    ensures Inv(Family())
  {
    hide Family, System.Shape, Forest;
    FamilyShape();
    FamilyForest();
    FamilyFacts();
  }

  lemma FamilyDoom(k: int)
    ensures Doomed(Family(), 0, 9, SIGKILL, k) <==> k == 1 || k == 2
    ensures !Notifies(Family(), 0, 9, SIGKILL, k, 0) && !Catches(Family(), 0, 9, SIGKILL, k)
  {
    hide Family;
    FamilyFacts();
    var s := Family();
    assert Doomed(s, 0, 9, SIGKILL, k) ==> k == 1 || k == 2;
  }

  /** It happens: killing that group leaves its dead grandchild to a blocked init. */
  lemma InitUnaware()
    ensures Inv(Family())
    ensures var s' := SendSignalGroup(Family(), 9, SIGKILL).0;
            s'.Slot(1) && s'.procs[1].state == Zombie && s'.procs[1].parent == 0 && s'.procs[0].state == Blocked
  {
    hide Family, Inv, Doomed, Notifies, Catches;
    FamilyInv();
    FamilyFacts();
    var s := Family();
    Sweep(s, 0, 9, SIGKILL);
    FamilyDoom(0);
    FamilyDoom(1);
    FamilyDoom(2);
    forall k ensures !Notifies(s, 0, 9, SIGKILL, k, 0) { FamilyDoom(k); }
  }
}
