/**
  What every kernel operation keeps: the task forest and the run-queue invariant.
 */
module TaskInvariants {
  import opened IntrusiveLists
  import opened TaskSystem

  /** Every used task but init hangs below a live parent with a smaller pid; pids are unique. */
  ghost predicate Forest(s: System) {
    && |s.procs| > 0
    && s.procs[0].pid == 1 && s.procs[0].Live() && s.procs[0].parent == NULL
    && (forall t {:trigger s.procs[t].parent} :: 0 < t < |s.procs| && s.procs[t].Used() ==>
          var p := s.procs[t].parent;
          && 0 <= p < |s.procs| && s.procs[p].Live()
          && s.procs[t].ppid == s.procs[p].pid < s.procs[t].pid)
    && (forall t :: 0 <= t < |s.procs| && !s.procs[t].Used() ==> s.procs[t].parent == NULL)
    && (forall t :: 0 <= t < |s.procs| && s.procs[t].Used() ==> 0 < s.procs[t].pid < s.nextPid)
    && (forall t, u :: 0 <= t < u < |s.procs| && s.procs[t].Used() && s.procs[u].Used() ==>
          s.procs[t].pid != s.procs[u].pid)
  }

  /** A task is queued iff it is runnable; a running task is current on its CPU. */
  ghost predicate RunQueues(s: System)
    requires s.Sized()
  {
    && (forall t :: 0 <= t < |s.procs| && s.procs[t].state == Runnable ==> s.Queued(t))
    && (forall c, t {:trigger t in s.queues[c]} ::
          0 <= c < |s.queues| && t in s.queues[c] ==> s.Slot(t) && s.procs[t].state == Runnable)
    && (forall t :: 0 <= t < |s.procs| && s.procs[t].state == Running ==>
          s.Cpu(s.procs[t].cpu) && s.current[s.procs[t].cpu] == t)
    && (forall c :: 0 <= c < |s.current| && s.current[c] != NULL ==>
          s.Slot(s.current[c]) && s.procs[s.current[c]].Used() && s.procs[s.current[c]].cpu == c)
    && (forall t :: 0 <= t < |s.procs| && s.procs[t].Used() ==> s.procs[t].cpu >= 0)
  }

  ghost predicate Inv(s: System) {
    s.Shape() && Forest(s) && RunQueues(s)
  }

  /** Everything but the parent and ppid fields and the child lists is the same. */
  ghost predicate SameButLinks(s: System, s': System) {
    && |s'.procs| == |s.procs| && s'.queues == s.queues && s'.current == s.current
    && s'.local == s.local && s'.nextPid == s.nextPid && s'.userSlots == s.userSlots
    && (forall t :: 0 <= t < |s.procs| ==>
          s'.procs[t] == s.procs[t].(parent := s'.procs[t].parent, ppid := s'.procs[t].ppid))
  }

  /** Forest looks only at pids, parents and whether a task is used or live. */
  lemma ForestFrame(s: System, s': System)
    requires Forest(s) && |s'.procs| == |s.procs| && s'.nextPid == s.nextPid
    requires forall t :: 0 <= t < |s.procs| ==>
               && s'.procs[t].pid == s.procs[t].pid && s'.procs[t].ppid == s.procs[t].ppid
               && s'.procs[t].parent == s.procs[t].parent
               && s'.procs[t].Used() == s.procs[t].Used() && s'.procs[t].Live() == s.procs[t].Live()
    ensures Forest(s')
  {
  }

  /** RunQueues looks only at states, assigned CPUs, queues and current tasks. */
  lemma RunQueuesFrame(s: System, s': System)
    requires s.Sized() && s'.Sized() && RunQueues(s)
    requires |s'.procs| == |s.procs| && s'.queues == s.queues && s'.current == s.current
    requires forall t :: 0 <= t < |s.procs| ==>
               s'.procs[t].state == s.procs[t].state && s'.procs[t].cpu == s.procs[t].cpu
    ensures RunQueues(s')
  {
    forall t | 0 <= t < |s'.procs| && s'.procs[t].state == Runnable ensures s'.Queued(t) {
      assert s.Queued(t);
    }
  }

  // ----- single operations -----

  lemma UnlinkShape(s: System, t: int)
    requires s.Shape() && s.Slot(t)
    ensures s.Unlink(t).Shape()
    ensures forall p :: 0 <= p < |s.kids| ==> t !in s.Unlink(t).kids[p]
    ensures forall p, u :: 0 <= p < |s.kids| && u != t ==> (u in s.Unlink(t).kids[p] <==> u in s.kids[p])
  {
    var p := s.procs[t].parent;
    if p != NULL {
      WithoutElements(s.kids[p], t);
    }
  }

  lemma LinkShape(s: System, p: int, t: int)
    requires s.Shape() && s.Slot(t) && s.Slot(p)
    ensures s.Link(p, t).Shape()
  {
    UnlinkShape(s, t);
    var s1 := s.Unlink(t);
    var q := [t] + s1.kids[p];
    assert NoDup(q);
    assert forall u :: u in q <==> u == t || u in s1.kids[p];
  }

  /** Relinking t below p changes only t's parent and ppid. */
  lemma LinkFields(s: System, p: int, t: int)
    requires s.Sized() && s.Slot(t) && s.Slot(p)
    ensures var s' := s.Link(p, t);
            SameButLinks(s, s') && s'.Sized()
            && s'.procs == s.procs[t := s.procs[t].(parent := p, ppid := s.procs[p].pid)]
  {
  }

  lemma ForestRelink(s: System, s': System, p: int, t: int)
    requires Forest(s) && 0 < t < |s.procs| && 0 <= p < |s.procs|
    requires s.procs[t].Used() && s.procs[p].Live() && s.procs[p].pid < s.procs[t].pid
    requires s'.nextPid == s.nextPid
    requires s'.procs == s.procs[t := s.procs[t].(parent := p, ppid := s.procs[p].pid)]
    ensures Forest(s')
  {
  }

  lemma LinkInv(s: System, p: int, t: int)
    requires Inv(s) && s.Slot(t) && s.Slot(p) && t != 0
    requires s.procs[t].Used() && s.procs[p].Live() && s.procs[p].pid < s.procs[t].pid
    ensures Inv(s.Link(p, t))
    ensures SameButLinks(s, s.Link(p, t))
  {
    LinkShape(s, p, t);
    LinkFields(s, p, t);
    ForestRelink(s, s.Link(p, t), p, t);
    RunQueuesFrame(s, s.Link(p, t));
  }

  function Reverse(q: seq<int>): (r: seq<int>)
    ensures |r| == |q|
  {
    if q == [] then [] else Reverse(q[1..]) + [q[0]]
  }

  lemma ChildFacts(s: System, c: int)
    requires Inv(s) && s.Slot(c) && s.procs[c].parent != NULL
    ensures c != 0 && s.procs[c].Used()
    ensures s.Slot(s.procs[c].parent) && s.procs[s.procs[c].parent].Live()
    ensures s.procs[c].ppid == s.procs[s.procs[c].parent].pid < s.procs[c].pid
  {
  }

  /** Moving the head of one child list to the head of another. */
  lemma LinkHead(s: System, from: int, p: int)
    requires s.Shape() && s.Slot(from) && s.Slot(p) && from != p && s.kids[from] != []
    ensures var c := s.kids[from][0];
            s.Slot(c) && s.procs[c].parent == from
            && s.Link(p, c).kids == s.kids[from := s.kids[from][1..]][p := [c] + s.kids[p]]
  {
    var c := s.kids[from][0];
    assert c in s.kids[from];
  }

  lemma ReverseStep(kids: seq<seq<int>>, from: int, p: int)
    requires 0 <= from < |kids| && 0 <= p < |kids| && from != p && kids[from] != []
    ensures var cs := kids[from];
            var kids1 := kids[from := cs[1..]][p := [cs[0]] + kids[p]];
            kids1[from := []][p := Reverse(kids1[from]) + kids1[p]] == kids[from := []][p := Reverse(cs) + kids[p]]
  {
    var cs := kids[from];
    assert Reverse(cs[1..]) + ([cs[0]] + kids[p]) == Reverse(cs) + kids[p];
  }

  /** s' is s after p adopted the child list cs of from. */
  ghost predicate Adopted(s: System, s': System, from: int, p: int, cs: seq<int>)
    requires s.Sized() && s.Slot(from) && s.Slot(p)
  {
    && SameButLinks(s, s')
    && s'.kids == s.kids[from := []][p := Reverse(cs) + s.kids[p]]
    && (forall t :: 0 <= t < |s.procs| && t !in cs ==> s'.procs[t] == s.procs[t])
    && (forall t :: 0 <= t < |s.procs| && t in cs ==> s'.procs[t].parent == p)
  }

  lemma AdoptedStep(s: System, s1: System, s': System, from: int, p: int)
    requires s.Sized() && s.Slot(from) && s.Slot(p) && from != p && s.kids[from] != []
    requires var c := s.kids[from][0];
             && s.Slot(c) && s1 == s.Link(p, c) && s.procs[c].parent == from
             && s1.kids == s.kids[from := s.kids[from][1..]][p := [c] + s.kids[p]]
    requires Adopted(s1, s', from, p, s1.kids[from])
    ensures Adopted(s, s', from, p, s.kids[from])
  {
    var cs := s.kids[from];
    var c := cs[0];
    LinkFields(s, p, c);
    ReverseStep(s.kids, from, p);
    assert forall t :: t in cs <==> t == c || t in cs[1..];
  }

  /** One adoption keeps the invariant and leaves the rest of the list to adopt. */
  lemma AdoptHead(s: System, from: int, p: int)
    requires Inv(s) && s.Slot(from) && s.Slot(p) && from != p && s.kids[from] != []
    requires s.procs[from].Used() && s.procs[p].Live() && s.procs[p].pid <= s.procs[from].pid
    ensures var c := s.kids[from][0];
            && s.Slot(c) && s.procs[c].parent == from && c != from && c != p
            && Inv(s.Link(p, c)) && SameButLinks(s, s.Link(p, c))
            && s.Link(p, c).kids == s.kids[from := s.kids[from][1..]][p := [c] + s.kids[p]]
  {
    var c := s.kids[from][0];
    LinkHead(s, from, p);
    ChildFacts(s, c);
    LinkInv(s, p, c);
  }

  /**
    Adopting the whole child list of `from` empties it and puts the children, in reverse
    order, before the adopter's own.
   */
  lemma {:induction false} LinkAllInv(s: System, from: int, p: int, cs: seq<int>)
    requires Inv(s) && s.Slot(from) && s.Slot(p) && from != p && cs == s.kids[from]
    requires s.procs[from].Used() && s.procs[p].Live() && s.procs[p].pid <= s.procs[from].pid
    requires Within(cs, |s.procs|)
    ensures Inv(s.LinkAll(p, cs)) && Adopted(s, s.LinkAll(p, cs), from, p, cs)
    decreases |cs|
  {
    hide Forest, RunQueues;
    if cs == [] {
      assert Reverse(cs) + s.kids[p] == s.kids[p];
      assert s.kids == s.kids[from := []][p := Reverse(cs) + s.kids[p]];
    } else {
      AdoptHead(s, from, p);
      var s1 := s.Link(p, cs[0]);
      LinkFields(s, p, cs[0]);
      LinkAllInv(s1, from, p, cs[1..]);
      AdoptedStep(s, s1, s1.LinkAll(p, cs[1..]), from, p);
    }
  }

  /** With unique pids, looking up a used task's pid finds that task. */
  lemma FindUsed(s: System, t: int)
    requires Inv(s) && s.Slot(t) && s.procs[t].Used()
    ensures s.Find(s.procs[t].pid) == t
  {
  }

  /** Adoption from a live task by init, in closed form. */
  lemma AdoptInv(s: System, t: int)
    requires Inv(s) && 0 < t < |s.procs| && s.procs[t].Used()
    ensures var s' := s.Adopt(s.procs[t].pid, 1).0;
            Inv(s') && Adopted(s, s', t, 0, s.kids[t]) && t !in s.kids[t] && 0 !in s.kids[t]
  {
    FindUsed(s, t);
    FindUsed(s, 0);
    s.ShapeWithin();
    LinkAllInv(s, t, 0, s.kids[t]);
  }

  /** The table walk of process_adopt_orphans never finds anything: no task has a dead parent's ppid. */
  lemma {:induction false} AdoptWalkIdle(s: System, i: nat, fromPid: int, p: int)
    requires Inv(s) && fromPid != s.procs[0].ppid && s.Find(fromPid) == NULL && (p == NULL || s.Slot(p))
    ensures s.LinkByPpid(i, fromPid, p) == (s, 0)
    decreases |s.procs| - i
  {
    if i < |s.procs| {
      AdoptWalkIdle(s, i + 1, fromPid, p);
    }
  }

  /** It moves nothing exactly when the pid is not init's own ppid, which no task's pid is. */
  lemma AdoptWalkIdleIff(s: System, fromPid: int, p: int)
    requires Inv(s) && s.Find(fromPid) == NULL && (p == NULL || s.Slot(p))
    ensures s.LinkByPpid(0, fromPid, p).1 == 0 <==> fromPid != s.procs[0].ppid
  {
    if fromPid != s.procs[0].ppid { AdoptWalkIdle(s, 0, fromPid, p); }
  }

  lemma DequeueShape(s: System, t: int)
    requires s.Shape() && s.Slot(t)
    ensures s.Dequeue(t).Shape() && !s.Dequeue(t).Queued(t)
    ensures forall c :: 0 <= c < |s.queues| ==> t !in s.Dequeue(t).queues[c]
    ensures forall c, u :: 0 <= c < |s.queues| && u != t ==> (u in s.Dequeue(t).queues[c] <==> u in s.queues[c])
  {
    if s.Queued(t) {
      WithoutElements(s.queues[s.procs[t].cpu], t);
    }
  }

  lemma MakeRunnableShape(s: System, t: int, c: int)
    requires s.Shape() && s.Slot(t) && s.Cpu(c)
    ensures s.MakeRunnable(t, c).Shape()
    ensures var s' := s.MakeRunnable(t, c);
            forall d, u :: 0 <= d < |s.queues| && u != t ==> (u in s'.queues[d] <==> u in s.queues[d])
    ensures var s' := s.MakeRunnable(t, c);
            forall d :: 0 <= d < |s.queues| ==> (t in s'.queues[d] <==> d == c)
  {
    DequeueShape(s, t);
    var s1 := s.Dequeue(t);
    var q := s1.queues[c] + [t];
    assert NoDup(q);
    assert forall u :: u in q <==> u == t || u in s1.queues[c];
  }

  /** Waking a blocked task on its assigned CPU. */
  lemma WakeInv(s: System, t: int)
    requires Inv(s) && s.Slot(t) && s.procs[t].state == Blocked
    ensures Inv(s.MakeRunnable(t, s.EffectiveCpu(t)))
    ensures s.MakeRunnable(t, s.EffectiveCpu(t)).kids == s.kids
  {
    hide Forest, RunQueues;
    UsedHasCpu(s, t);
    var c := s.EffectiveCpu(t);
    var s' := s.MakeRunnable(t, c);
    MakeRunnableShape(s, t, c);
    ForestFrame(s, s');
    WakeQueues(s, s', t);
  }

  /** One task becomes runnable; the membership of all others in the queues is as before. */
  lemma WakeQueues(s: System, s': System, t: int)
    requires s.Sized() && s'.Sized() && RunQueues(s) && s.Slot(t) && s.Cpu(s.procs[t].cpu)
    requires s'.current == s.current && |s'.queues| == |s.queues|
    requires s'.procs == s.procs[t := s.procs[t].(state := Runnable)] && s.procs[t].Used()
    requires forall d, u :: 0 <= d < |s.queues| && u != t ==> (u in s'.queues[d] <==> u in s.queues[d])
    requires forall d :: 0 <= d < |s.queues| ==> (t in s'.queues[d] <==> d == s.procs[t].cpu)
    ensures RunQueues(s')
  {
    forall u | 0 <= u < |s'.procs| && s'.procs[u].state == Runnable ensures s'.Queued(u) {
      if u != t { assert s.Queued(u); }
    }
  }

  lemma UsedHasCpu(s: System, t: int)
    requires Inv(s) && s.Slot(t) && s.procs[t].Used()
    ensures s.Cpu(s.procs[t].cpu) && s.EffectiveCpu(t) == s.procs[t].cpu
  {
  }

  lemma ParkShape(s: System, t: int, st: State)
    requires s.Shape() && s.Slot(t) && s.Cpu(s.procs[t].cpu)
    ensures var s' := s.Park(t, st);
            && s'.Shape() && s'.kids == s.kids && s'.current == s.current && s'.nextPid == s.nextPid
            && |s'.queues| == |s.queues| && s'.procs == s.procs[t := s.procs[t].(state := st)]
            && (forall d :: 0 <= d < |s.queues| ==> t !in s'.queues[d])
            && (forall d, u :: 0 <= d < |s.queues| && u != t ==> (u in s'.queues[d] <==> u in s.queues[d]))
  {
    DequeueShape(s, t);
  }

  lemma ParkQueues(s: System, s': System, t: int, st: State)
    requires s.Sized() && s'.Sized() && RunQueues(s) && s.Slot(t) && s.procs[t].Used()
    requires st == Blocked || st == Zombie
    requires s'.current == s.current && |s'.queues| == |s.queues|
    requires s'.procs == s.procs[t := s.procs[t].(state := st)]
    requires forall d, u :: 0 <= d < |s.queues| && u != t ==> (u in s'.queues[d] <==> u in s.queues[d])
    requires forall d :: 0 <= d < |s.queues| ==> t !in s'.queues[d]
    ensures RunQueues(s')
  {
    forall u | 0 <= u < |s'.procs| && s'.procs[u].state == Runnable ensures s'.Queued(u) {
      assert s.Queued(u);
    }
  }

  /** Blocking a live task, or burying one that is not init and has no children. */
  lemma ParkInv(s: System, t: int, st: State)
    requires Inv(s) && s.Slot(t) && s.procs[t].Used() && (st == Blocked || st == Zombie)
    requires st == Blocked ==> s.procs[t].Live()
    requires st == Zombie ==> t != 0 && s.kids[t] == []
    ensures Inv(s.Park(t, st))
    ensures s.Park(t, st).kids == s.kids
  {
    UsedHasCpu(s, t);
    hide Forest, RunQueues;
    ParkShape(s, t, st);
    var s' := s.Park(t, st);
    ParkQueues(s, s', t, st);
    if st == Blocked { ForestFrame(s, s'); } else { ChildlessIsNoParent(s, t); ForestBury(s, s', t); }
  }

  lemma ForestBury(s: System, s': System, t: int)
    requires Forest(s) && 0 < t < |s.procs| && s.procs[t].Used()
    requires forall u :: 0 < u < |s.procs| && s.procs[u].Used() ==> s.procs[u].parent != t
    requires s'.procs == s.procs[t := s.procs[t].(state := Zombie)] && s'.nextPid == s.nextPid
    ensures Forest(s')
  {
  }

  /** A task with an empty child list is nobody's parent. */
  lemma ChildlessIsNoParent(s: System, t: int)
    requires s.Shape() && s.Slot(t) && s.kids[t] == []
    ensures forall u :: 0 <= u < |s.procs| ==> s.procs[u].parent != t
  {
  }

  lemma NotifyInv(s: System, p: int)
    requires Inv(s) && (p == NULL || s.Slot(p))
    ensures Inv(s.Notify(p))
    ensures s.Notify(p).kids == s.kids
    ensures p != NULL ==> s.Notify(p).procs[p].state != Blocked
    ensures forall u :: 0 <= u < |s.procs| && u != p ==> s.Notify(p).procs[u] == s.procs[u]
  {
    hide Forest, RunQueues;
    if p != NULL && s.procs[p].Live() {
      UsedHasCpu(s, p);
      var s1 := if s.procs[p].sigchld != Ignore then s.Put(p, s.procs[p].(chldPending := true)) else s;
      PutInv(s, p, s1.procs[p]);
      if s.procs[p].state == Blocked {
        WakeInv(s1, p);
      }
    }
  }

  /** Fields that no invariant mentions may change freely. */
  lemma PutInv(s: System, t: int, p: Proc)
    requires Inv(s) && s.Slot(t)
    requires p == s.procs[t].(exitCode := p.exitCode, pgid := p.pgid, sigint := p.sigint, sigterm := p.sigterm,
                              sigchld := p.sigchld, intPending := p.intPending, termPending := p.termPending,
                              chldPending := p.chldPending)
    ensures Inv(s.Put(t, p))
  {
    hide Forest, RunQueues;
    var s' := s.Put(t, p);
    ForestFrame(s, s');
    RunQueuesFrame(s, s');
  }
}
