/**
  How the link fields of the task table spell the run queues and the child lists, and what
  each pointer update does to them.
 */
module KernelLinks {
  import opened IntrusiveLists
  import opened TaskSystem
  import opened TaskInvariants

  /** rq_prev, rq_next, head, tail and on_runqueue spell the run queues. */
  ghost predicate RqSpelled(s: System, on: seq<bool>, prev: seq<int>, next: seq<int>, head: seq<int>, tail: seq<int>) {
    && |on| == |prev| == |s.procs| && |head| == |tail| == |s.queues|
    && Family(s.queues, prev, next)
    && (forall c :: 0 <= c < |s.queues| ==>
          head[c] == At(s.queues[c], 0) && tail[c] == At(s.queues[c], |s.queues[c]| - 1))
    && (forall t :: 0 <= t < |s.procs| ==> (on[t] <==> s.Queued(t)))
  }

  /** first_child, sibling_prev and sibling_next spell the child lists. */
  ghost predicate KidsSpelled(s: System, first: seq<int>, prev: seq<int>, next: seq<int>) {
    && |first| == |prev| == |s.procs| && |s.kids| == |s.procs|
    && Family(s.kids, prev, next)
    && (forall p :: 0 <= p < |s.kids| ==> first[p] == At(s.kids[p], 0))
    && (forall t :: 0 <= t < |s.procs| && s.procs[t].parent == NULL ==> prev[t] == NULL && next[t] == NULL)
  }

  /** Changing a task's fields keeps the lists in agreement with them. */
  lemma PutShape(s: System, t: int, p: Proc)
    requires s.Shape() && s.Slot(t) && p.parent == s.procs[t].parent && p.cpu < |s.queues|
    requires p.cpu == s.procs[t].cpu || forall c :: 0 <= c < |s.queues| ==> t !in s.queues[c]
    ensures s.Put(t, p).Shape()
  {
  }

  lemma PutRq(s: System, on: seq<bool>, prev: seq<int>, next: seq<int>, head: seq<int>, tail: seq<int>, t: int, p: Proc)
    requires RqSpelled(s, on, prev, next, head, tail) && s.Slot(t)
    requires p.cpu == s.procs[t].cpu || forall c :: 0 <= c < |s.queues| ==> t !in s.queues[c]
    ensures RqSpelled(s.Put(t, p), on, prev, next, head, tail)
  {
    var s' := s.Put(t, p);
    forall u | 0 <= u < |s.procs| ensures on[u] <==> s'.Queued(u) {
      assert on[u] <==> s.Queued(u);
    }
  }

  /** The run queues do not depend on who is current, local or next. */
  lemma RqFrame(s: System, s': System, on: seq<bool>, prev: seq<int>, next: seq<int>, head: seq<int>, tail: seq<int>)
    requires RqSpelled(s, on, prev, next, head, tail) && s'.queues == s.queues && |s'.procs| == |s.procs|
    requires forall u :: 0 <= u < |s.procs| ==> s'.procs[u].cpu == s.procs[u].cpu
    ensures RqSpelled(s', on, prev, next, head, tail)
  {
    forall u | 0 <= u < |s.procs| ensures on[u] <==> s'.Queued(u) {
      assert on[u] <==> s.Queued(u);
    }
  }

  lemma KidsFrame(s: System, s': System, first: seq<int>, prev: seq<int>, next: seq<int>)
    requires KidsSpelled(s, first, prev, next) && s'.kids == s.kids && |s'.procs| == |s.procs|
    requires forall u :: 0 <= u < |s.procs| ==> s'.procs[u].parent == s.procs[u].parent
    ensures KidsSpelled(s', first, prev, next)
  {
  }

  // ----- run queues -----

  lemma QueuedEnds(s: System, on: seq<bool>, prev: seq<int>, next: seq<int>, head: seq<int>, tail: seq<int>,
                   c: int, t: int)
    requires RqSpelled(s, on, prev, next, head, tail) && s.Cpu(c) && t in s.queues[c]
    ensures 0 <= t < |prev| && |next| == |prev| && NULL <= prev[t] < |prev| && NULL <= next[t] < |prev|
    ensures |Without(s.queues[c], t)| == |s.queues[c]| - 1
    ensures At(Without(s.queues[c], t), 0) == if prev[t] == NULL then next[t] else head[c]
    ensures At(Without(s.queues[c], t), |s.queues[c]| - 2) == if next[t] == NULL then prev[t] else tail[c]
  {
    FamilyRemove(s.queues, prev, next, c, t);
    RemoveEnds(s.queues[c], prev, next, t);
  }

  lemma RemoveRq(s: System, on: seq<bool>, prev: seq<int>, next: seq<int>, head: seq<int>, tail: seq<int>, t: int)
    requires s.Shape() && RqSpelled(s, on, prev, next, head, tail) && s.Slot(t) && on[t]
    ensures s.Queued(t) && |next| == |prev| && NULL <= prev[t] < |prev| && NULL <= next[t] < |prev|
    ensures var c := s.procs[t].cpu;
            RqSpelled(s.Dequeue(t), on[t := false], UnlinkedPrev(prev, next, t), UnlinkedNext(prev, next, t),
                      if prev[t] == NULL then head[c := next[t]] else head,
                      if next[t] == NULL then tail[c := prev[t]] else tail)
  {
    hide System.Shape, Family, Without, At;
    assert s.Queued(t);
    var c := s.procs[t].cpu;
    QueuedEnds(s, on, prev, next, head, tail, c, t);
    EndsAfterRemove(s, on, prev, next, head, tail, c, t);
    assert |UnlinkedPrev(prev, next, t)| == |prev|;
    FamilyRemove(s.queues, prev, next, c, t);
    RemoveOn(s, on, t);
    hide UnlinkedPrev, UnlinkedNext, System.Queued;
  }

  lemma EndsAfterRemove(s: System, on: seq<bool>, prev: seq<int>, next: seq<int>, head: seq<int>, tail: seq<int>,
                        c: int, t: int)
    requires RqSpelled(s, on, prev, next, head, tail) && s.Cpu(c) && t in s.queues[c]
    requires 0 <= t < |prev| && |next| == |prev|
    ensures var qs := s.queues[c := Without(s.queues[c], t)];
            forall d :: 0 <= d < |qs| ==>
              (if prev[t] == NULL then head[c := next[t]] else head)[d] == At(qs[d], 0)
              && (if next[t] == NULL then tail[c := prev[t]] else tail)[d] == At(qs[d], |qs[d]| - 1)
  {
    hide Family, Without, At, System.Queued;
    QueuedEnds(s, on, prev, next, head, tail, c, t);
  }

  lemma RemoveOn(s: System, on: seq<bool>, t: int)
    requires s.Shape() && |on| == |s.procs| && s.Slot(t)
    requires forall u :: 0 <= u < |s.procs| ==> (on[u] <==> s.Queued(u))
    ensures forall u :: 0 <= u < |s.procs| ==> (on[t := false][u] <==> s.Dequeue(t).Queued(u))
  {
    DequeueShape(s, t);
  }

  lemma PushTailShape(s: System, c: int, t: int)
    requires s.Shape() && s.Slot(t) && s.Cpu(c) && s.procs[t].cpu == c
    ensures s.PushTail(c, t).Shape()
    ensures !s.Queued(t) ==> forall d :: 0 <= d < |s.queues| ==> t !in s.queues[d]
  {
    if !s.Queued(t) {
      var q := s.queues[c] + [t];
      assert NoDup(q);
      assert forall u :: u in q <==> u == t || u in s.queues[c];
    }
  }

  lemma TailInTable(s: System, on: seq<bool>, prev: seq<int>, next: seq<int>, head: seq<int>, tail: seq<int>, c: int)
    requires RqSpelled(s, on, prev, next, head, tail) && s.Cpu(c)
    ensures |next| == |prev| == |on| && NULL <= tail[c] < |prev| && NULL <= head[c] < |prev|
    ensures tail[c] == NULL <==> s.queues[c] == []
    ensures head[c] == NULL <==> s.queues[c] == []
  {
    assert Chain(s.queues[c], prev, next);
  }

  lemma PushRq(s: System, on: seq<bool>, prev: seq<int>, next: seq<int>, head: seq<int>, tail: seq<int>, c: int, t: int)
    requires s.Shape() && RqSpelled(s, on, prev, next, head, tail) && s.Slot(t) && !on[t]
    requires s.Cpu(c) && s.procs[t].cpu == c
    ensures |next| == |prev| && NULL <= tail[c] < |prev|
    ensures var next1 := next[t := NULL];
            RqSpelled(s.PushTail(c, t), on[t := true], prev[t := tail[c]],
                      if tail[c] != NULL then next1[tail[c] := t] else next1,
                      if tail[c] != NULL then head else head[c := t], tail[c := t])
  {
    hide Family, System.Shape;
    TailInTable(s, on, prev, next, head, tail, c);
    PushTailShape(s, c, t);
    FamilyPushTail(s.queues, prev, next, c, t);
    PushOn(s, on, c, t);
  }

  lemma PushOn(s: System, on: seq<bool>, c: int, t: int)
    requires s.Shape() && |on| == |s.procs| && s.Slot(t)
    requires forall u :: 0 <= u < |s.procs| ==> (on[u] <==> s.Queued(u))
    requires s.Cpu(c) && s.procs[t].cpu == c && !on[t]
    ensures forall u :: 0 <= u < |s.procs| ==> (on[t := true][u] <==> s.PushTail(c, t).Queued(u))
  {
    var q := s.queues[c] + [t];
    assert forall u :: u in q <==> u == t || u in s.queues[c];
    forall u | 0 <= u < |s.procs| ensures on[t := true][u] <==> s.PushTail(c, t).Queued(u) {
      assert on[u] <==> s.Queued(u);
    }
  }

  // ----- child lists -----

  lemma ParentLists(s: System, t: int)
    requires s.Shape() && s.Slot(t)
    ensures s.Sized()
    ensures s.procs[t].parent != NULL ==> s.Slot(s.procs[t].parent) && t in s.kids[s.procs[t].parent]
    ensures s.procs[t].parent == NULL ==> forall q :: 0 <= q < |s.kids| ==> t !in s.kids[q]
  {
  }

  lemma KidEnds(s: System, first: seq<int>, prev: seq<int>, next: seq<int>, p: int, t: int)
    requires KidsSpelled(s, first, prev, next) && s.Slot(p) && t in s.kids[p]
    ensures 0 <= t < |prev| && |next| == |prev| && NULL <= prev[t] < |prev| && NULL <= next[t] < |prev|
    ensures At(Without(s.kids[p], t), 0) == if prev[t] == NULL then next[t] else first[p]
  {
    FamilyRemove(s.kids, prev, next, p, t);
    RemoveEnds(s.kids[p], prev, next, t);
  }

  lemma FirstInTable(s: System, first: seq<int>, prev: seq<int>, next: seq<int>, p: int)
    requires KidsSpelled(s, first, prev, next) && s.Slot(p)
    ensures |next| == |prev| && NULL <= first[p] < |prev|
    ensures first[p] == NULL <==> s.kids[p] == []
  {
    assert Chain(s.kids[p], prev, next);
  }

  /** The slots an unlink or a link writes to are on the list, so they have a parent. */
  lemma NeighbourParents(s: System, first: seq<int>, prev: seq<int>, next: seq<int>, p: int)
    requires s.Shape() && KidsSpelled(s, first, prev, next) && s.Slot(p)
    ensures |next| == |prev|
    ensures s.Slot(first[p]) ==> s.procs[first[p]].parent == p
    ensures forall t :: t in s.kids[p] ==>
              && s.Slot(t) && (s.Slot(prev[t]) ==> s.procs[prev[t]].parent == p)
              && (s.Slot(next[t]) ==> s.procs[next[t]].parent == p)
  {
    var q := s.kids[p];
    assert Chain(q, prev, next);
    assert q != [] ==> q[0] in q;
    forall t | t in q
      ensures s.Slot(t) && (s.Slot(prev[t]) ==> s.procs[prev[t]].parent == p)
      ensures s.Slot(next[t]) ==> s.procs[next[t]].parent == p
    {
      var k :| 0 <= k < |q| && q[k] == t;
      ChainNeighbours(q, prev, next, k);
      assert k > 0 ==> q[k - 1] in q;
      assert k + 1 < |q| ==> q[k + 1] in q;
    }
  }

  lemma UnlinkKids(s: System, first: seq<int>, prev: seq<int>, next: seq<int>, t: int)
    requires s.Shape() && KidsSpelled(s, first, prev, next) && s.Slot(t)
    ensures |next| == |prev| && NULL <= prev[t] < |prev| && NULL <= next[t] < |prev|
    ensures var p := s.procs[t].parent;
            && (p == NULL ==> prev[t] == NULL && next[t] == NULL) && (p == NULL || s.Slot(p))
            && KidsSpelled(s.Unlink(t), if prev[t] == NULL && p != NULL then first[p := next[t]] else first,
                           UnlinkedPrev(prev, next, t), UnlinkedNext(prev, next, t))
  {
    hide System.Shape, Family, Without;
    var p := s.procs[t].parent;
    ParentLists(s, t);
    FirstInTable(s, first, prev, next, t);
    if p != NULL {
      KidEnds(s, first, prev, next, p, t);
      NeighbourParents(s, first, prev, next, p);
      FamilyRemove(s.kids, prev, next, p, t);
    } else {
      assert UnlinkedPrev(prev, next, t) == prev && UnlinkedNext(prev, next, t) == next;
    }
  }

  lemma LinkKids(s: System, first: seq<int>, prev: seq<int>, next: seq<int>, p: int, t: int)
    requires s.Shape() && KidsSpelled(s, first, prev, next) && s.Slot(t) && s.Slot(p) && s.procs[t].parent == NULL
    ensures |next| == |prev| && NULL <= first[p] < |prev|
    ensures KidsSpelled(s.Link(p, t), first[p := t], if first[p] != NULL then prev[first[p] := t] else prev,
                        next[t := first[p]])
  {
    hide System.Shape, Family;
    ParentLists(s, t);
    FirstInTable(s, first, prev, next, p);
    NeighbourParents(s, first, prev, next, p);
    assert s.Unlink(t).procs == s.procs;
    FamilyPushHead(s.kids, prev, next, p, t);
    assert prev[t := NULL] == prev;
  }

  // ----- facts the kernel's methods read off the links -----

  lemma QueuedIff(s: System, on: seq<bool>, prev: seq<int>, next: seq<int>, head: seq<int>, tail: seq<int>, t: int)
    requires s.Shape() && RqSpelled(s, on, prev, next, head, tail) && s.Slot(t)
    ensures on[t] <==> s.Queued(t)
    ensures !on[t] ==> forall c :: 0 <= c < |s.queues| ==> t !in s.queues[c]
    ensures s.procs[t].cpu < |s.queues|
  {
  }

  lemma HeadFacts(s: System, on: seq<bool>, prev: seq<int>, next: seq<int>, head: seq<int>, tail: seq<int>, c: int)
    requires s.Shape() && RqSpelled(s, on, prev, next, head, tail) && s.Cpu(c) && s.queues[c] != []
    ensures var t := head[c];
            && s.Slot(t) && t == s.queues[c][0] && on[t] && s.procs[t].cpu == c && |prev| == |next| == |on|
            && prev[t] == NULL && (next[t] == NULL ==> Without(s.queues[c], t) == [])
            && Without(s.queues[c], t) == s.queues[c][1..] && NULL <= next[t] < |prev| && next[t] != t
  {
    var q := s.queues[c];
    var t := q[0];
    assert t in q;
    assert Chain(q, prev, next);
    ChainNeighbours(q, prev, next, 0);
    assert s.Queued(t);
  }

  /** current, local and nextPid are free of the lists. */
  lemma CurrentShape(s: System, current: seq<int>, local: int, nextPid: int)
    requires s.Shape() && |current| == |s.queues| && s.Cpu(local)
    ensures s.(current := current, local := local, nextPid := nextPid).Shape()
  {
  }

  /** Once popped, the picked task is on no queue. */
  lemma {:induction false} StaleSuffix(s: System, q: seq<int>)
    ensures exists k :: 0 <= k <= |q| && s.FromRunnable(q) == q[k..]
  {
    if q == [] || (s.Slot(q[0]) && s.procs[q[0]].state == Runnable) {
      assert q[0..] == q;
    } else {
      StaleSuffix(s, q[1..]);
      var k :| 0 <= k <= |q[1..]| && s.FromRunnable(q[1..]) == q[1..][k..];
      assert q[1..][k..] == q[k + 1..];
    }
  }

  lemma PickedIsFree(s: System, c: int)
    requires s.Shape() && s.Cpu(c)
    ensures var q := s.FromRunnable(s.queues[c]);
            q != [] ==> s.Slot(q[0]) && s.procs[q[0]].cpu == c
                        && (forall d :: 0 <= d < |s.queues| && d != c ==> q[0] !in s.queues[d]) && q[0] !in q[1..]
  {
    hide System.FromRunnable;
    StaleSuffix(s, s.queues[c]);
    var k :| 0 <= k <= |s.queues[c]| && s.FromRunnable(s.queues[c]) == s.queues[c][k..];
    if k < |s.queues[c]| { SlotOfQueue(s, c, k); }
  }

  lemma SlotOfQueue(s: System, c: int, k: nat)
    requires s.Shape() && s.Cpu(c) && k < |s.queues[c]|
    ensures var t := s.queues[c][k];
            && s.Slot(t) && s.procs[t].cpu == c && t !in s.queues[c][k + 1..]
            && (forall d :: 0 <= d < |s.queues| && d != c ==> t !in s.queues[d])
  {
    assert s.queues[c][k] in s.queues[c];
  }

  /** make_runnable as its three steps. */
  lemma MakeRunnableSteps(s: System, t: int, cpuId: int)
    requires s.Shape() && s.Slot(t)
    ensures var c := if s.Cpu(cpuId) then cpuId else 0;
            var s1 := s.Dequeue(t);
            && s1.procs == s.procs && |s1.queues| == |s.queues| && s1.Slot(t)
            && (forall d :: 0 <= d < |s.queues| ==> t !in s1.queues[d])
            && s.MakeRunnable(t, cpuId) == s1.Put(t, s.procs[t].(cpu := c, state := Runnable)).PushTail(c, t)
  {
    DequeueShape(s, t);
  }

  /** The choice of the next task: pop it, then make it the running, current one. */
  lemma DispatchSteps(s: System)
    requires s.Shape()
    ensures var q := s.FromRunnable(s.queues[s.local]);
            var s1 := s.(queues := s.queues[s.local := if q == [] then [] else q[1..]]);
            if q == [] then s.Dispatch() == s1.(current := s.current[s.local := NULL])
            else
              && s.Slot(q[0]) && (forall d :: 0 <= d < |s.queues| ==> q[0] !in s1.queues[d])
              && s.Dispatch() == s1.Put(q[0], s.procs[q[0]].(cpu := s.local, state := Running))
                                   .(current := s.current[s.local := q[0]])
  {
    PickedIsFree(s, s.local);
  }

  lemma NotQueuedDequeue(s: System, t: int)
    requires s.Slot(t) && !s.Queued(t)
    ensures s.Dequeue(t) == s
  {
  }

  lemma ShapeCpu(s: System, t: int)
    requires s.Shape() && s.Slot(t)
    ensures s.procs[t].cpu < |s.queues|
  {
  }

  lemma UnlinkParent(s: System, t: int)
    requires s.Sized() && s.Slot(t)
    ensures s.Unlink(t).Sized() && |s.Unlink(t).procs| == |s.procs| && s.Unlink(t).procs[t].parent == NULL
  {
  }

  lemma UnlinkFields(s: System, t: int)
    requires s.Shape() && s.Slot(t)
    ensures var p := s.procs[t].parent;
            && (p == NULL || s.Slot(p))
            && s.Unlink(t) == s.(procs := s.procs[t := s.procs[t].(parent := NULL)],
                                 kids := if p != NULL then s.kids[p := Without(s.kids[p], t)] else s.kids)
  {
  }

  /** Linking is unlinking, then a push that touches only t's parent and ppid. */
  lemma LinkIsPush(s: System, p: int, t: int)
    requires s.Sized() && s.Slot(t) && (p == NULL || s.Slot(p))
    ensures var s1 := s.Unlink(t);
            && |s1.procs| == |s.procs| && |s1.kids| == |s.kids|
            && s.Link(p, t) ==
               (if p == NULL then s1.Put(t, s1.procs[t].(ppid := 0))
                else s1.(procs := s1.procs[t := s1.procs[t].(parent := p, ppid := s1.procs[p].pid)],
                         kids := s1.kids[p := [t] + s1.kids[p]]))
  {
  }

  lemma ParentOfUnlinked(s: System, t: int)
    requires s.Sized() && s.Slot(t) && s.procs[t].parent == NULL
    ensures s.Unlink(t) == s
  {
    assert s.procs[t := s.procs[t].(parent := NULL)] == s.procs;
  }

  lemma UnlinkSized(s: System, t: int)
    requires s.Sized() && s.Slot(t)
    ensures s.Unlink(t).Sized() && |s.Unlink(t).procs| == |s.procs|
  {
  }

  lemma LinkSized(s: System, p: int, t: int)
    requires s.Sized() && s.Slot(t) && (p == NULL || s.Slot(p))
    ensures s.Link(p, t).Sized() && |s.Link(p, t).procs| == |s.procs| && |s.Link(p, t).queues| == |s.queues|
  {
  }

  lemma ParkSized(s: System, t: int, st: State)
    requires s.Sized() && s.Slot(t)
    ensures s.Park(t, st).Sized() && |s.Park(t, st).procs| == |s.procs|
  {
  }

  lemma FirstIs(s: System, first: seq<int>, prev: seq<int>, next: seq<int>, p: int)
    requires KidsSpelled(s, first, prev, next) && s.Slot(p)
    ensures first[p] == At(s.kids[p], 0)
  {
  }

  /** The sibling pointer of the k-th child is the next child. */
  lemma NextIs(s: System, first: seq<int>, prev: seq<int>, next: seq<int>, p: int, k: nat)
    requires KidsSpelled(s, first, prev, next) && s.Slot(p) && k < |s.kids[p]|
    ensures |next| == |prev| == |s.procs| && s.Slot(s.kids[p][k]) && next[s.kids[p][k]] == At(s.kids[p], k + 1)
  {
    assert Chain(s.kids[p], prev, next);
    ChainNeighbours(s.kids[p], prev, next, k);
  }

  /** The first child of the part still to be visited leads to the part behind it. */
  lemma NextOfRest(s: System, first: seq<int>, prev: seq<int>, next: seq<int>, p: int, pre: seq<int>, rest: seq<int>)
    requires KidsSpelled(s, first, prev, next) && s.Slot(p) && s.kids[p] == pre + rest && rest != []
    requires Within(rest, |s.procs|)
    ensures |next| == |s.procs| && s.Slot(rest[0]) && next[rest[0]] == At(rest[1..], 0) && At(rest, 0) == rest[0]
    ensures Within(rest[1..], |s.procs|) && (next[rest[0]] == NULL <==> rest[1..] == [])
  {
    hide KidsSpelled;
    NextIs(s, first, prev, next, p, |pre|);
  }

  /** Moving one child out of the middle of a list. */
  lemma LinkMiddle(s: System, from: int, to: int, pre: seq<int>, rest: seq<int>)
    requires s.Shape() && s.Slot(from) && (to == NULL || s.Slot(to)) && s.kids[from] == pre + rest && rest != []
    ensures var c := rest[0];
            s.Slot(c) && s.Link(to, c).kids[from] == (if to == from then [c] + pre else pre) + rest[1..]
  {
    var c := rest[0];
    assert s.kids[from][|pre|] == c && c in s.kids[from];
    WithoutAt(s.kids[from], |pre|);
    assert s.kids[from][..|pre|] == pre && s.kids[from][|pre| + 1..] == rest[1..];
    hide System.Shape;
  }

  // ----- what task_child_unlink and task_child_link leave behind -----

  lemma AfterUnlink(s: System, on: seq<bool>, rp: seq<int>, rn: seq<int>, head: seq<int>, tail: seq<int>,
                    first: seq<int>, prev: seq<int>, next: seq<int>, t: int)
    requires s.Shape() && RqSpelled(s, on, rp, rn, head, tail) && KidsSpelled(s, first, prev, next) && s.Slot(t)
    ensures |next| == |prev| && NULL <= prev[t] < |prev| && NULL <= next[t] < |prev|
    ensures var p := s.procs[t].parent;
            && (p == NULL || s.Slot(p)) && s.Unlink(t).Sized()
            && s.Unlink(t) == s.(procs := s.procs[t := s.procs[t].(parent := NULL)], kids := s.Unlink(t).kids)
            && s.Unlink(t).Shape() && RqSpelled(s.Unlink(t), on, rp, rn, head, tail)
            && KidsSpelled(s.Unlink(t), if prev[t] == NULL && p != NULL then first[p := next[t]] else first,
                           UnlinkedPrev(prev, next, t), UnlinkedNext(prev, next, t))
  {
    hide RqSpelled, KidsSpelled;
    UnlinkFields(s, t);
    UnlinkKids(s, first, prev, next, t);
    UnlinkShape(s, t);
    RqFrame(s, s.Unlink(t), on, rp, rn, head, tail);
  }

  lemma AfterLink(s: System, on: seq<bool>, rp: seq<int>, rn: seq<int>, head: seq<int>, tail: seq<int>,
                  first: seq<int>, prev: seq<int>, next: seq<int>, p: int, t: int)
    requires s.Shape() && RqSpelled(s, on, rp, rn, head, tail) && KidsSpelled(s, first, prev, next)
    requires s.Slot(t) && s.Slot(p) && s.procs[t].parent == NULL
    ensures |next| == |prev| && NULL <= first[p] < |prev|
    ensures var s' := s.Link(p, t);
            && s'.Sized() && s'.Shape()
            && s' == s.(procs := s.procs[t := s.procs[t].(parent := p, ppid := s.procs[p].pid)],
                        kids := s.kids[p := [t] + s.kids[p]])
            && RqSpelled(s', on, rp, rn, head, tail)
            && KidsSpelled(s', first[p := t], if first[p] != NULL then prev[first[p] := t] else prev,
                           next[t := first[p]])
  {
    hide RqSpelled, KidsSpelled;
    ParentOfUnlinked(s, t);
    LinkIsPush(s, p, t);
    LinkKids(s, first, prev, next, p, t);
    LinkShape(s, p, t);
    RqFrame(s, s.Link(p, t), on, rp, rn, head, tail);
  }

  lemma LinkAfterUnlink(s: System, p: int, t: int)
    requires s.Sized() && s.Slot(t) && (p == NULL || s.Slot(p))
    ensures var s1 := s.Unlink(t);
            && s1.Sized() && |s1.procs| == |s.procs| && s1.procs[t].parent == NULL
            && s.Link(p, t) == (if p == NULL then s1.Put(t, s1.procs[t].(ppid := 0)) else s1.Link(p, t))
  {
    ParentOfUnlinked(s.Unlink(t), t);
  }

  // ----- calls that walk a child list -----

  lemma InvSizes(s: System)
    requires Inv(s)
    ensures s.Sized() && s.Shape() && NULL <= s.current[s.local] < |s.procs|
  {
  }

  lemma SetUnusedFields(s: System, t: int)
    requires s.Sized() && s.Slot(t)
    ensures s.SetUnused(t).Sized() && |s.SetUnused(t).procs| == |s.procs|
    ensures s.SetUnused(t).procs == s.procs[t := s.procs[t].(cpu := -1, state := Unused)]
  {
  }

  lemma {:induction false} ReapableAt(s: System, pid: int, parent: int, cs: seq<int>, k: nat)
    requires s.Slot(parent) && Within(cs, |s.procs|) && k < |cs|
    requires s.Selects(pid, parent, cs[k]) && s.procs[cs[k]].state == Zombie
    requires forall i :: 0 <= i < k ==> !(s.Selects(pid, parent, cs[i]) && s.procs[cs[i]].state == Zombie)
    ensures s.Reapable(pid, parent, cs) == cs[k]
  {
    if k > 0 {
      ReapableAt(s, pid, parent, cs[1..], k - 1);
    }
  }

  lemma {:induction false} ReapableNone(s: System, pid: int, parent: int, cs: seq<int>)
    requires s.Slot(parent) && Within(cs, |s.procs|)
    requires forall i :: 0 <= i < |cs| ==> !(s.Selects(pid, parent, cs[i]) && s.procs[cs[i]].state == Zombie)
    ensures s.Reapable(pid, parent, cs) == NULL
  {
    if cs != [] {
      ReapableNone(s, pid, parent, cs[1..]);
    }
  }

  lemma SelectsIndex(s: System, pid: int, parent: int, cs: seq<int>)
    requires s.Slot(parent) && Within(cs, |s.procs|)
    ensures (forall c | c in cs :: !s.Selects(pid, parent, c)) <==>
            !exists i :: 0 <= i < |cs| && s.Selects(pid, parent, cs[i])
  {
    if i :| 0 <= i < |cs| && s.Selects(pid, parent, cs[i]) {
      assert cs[i] in cs;
    }
  }

  lemma BlockInv(s: System, t: int)
    requires Inv(s) && s.Slot(t) && s.procs[t].Live()
    ensures Inv(s.Park(t, Blocked)) && s.Park(t, Blocked).Sized()
    ensures s.Park(t, Blocked).current == s.current && s.Park(t, Blocked).local == s.local
    ensures |s.Park(t, Blocked).procs| == |s.procs|
  {
    ParkInv(s, t, Blocked);
    hide Inv;
  }

  // ----- boot -----

  /** The system process_init leaves: init running on CPU 0, nothing else used. */
  ghost function Booted(slots: nat, cpus: nat, users: nat): System
    requires cpus > 0 && 0 < users <= slots
  {
    System([ZERO_PROC.(pid := 1, pgid := 1, state := Running)] + Repeat(slots - 1, ZERO_PROC),
           Repeat(slots, []), Repeat(cpus, []), [0] + Repeat(cpus - 1, NULL), 0, 2, users)
  }

  lemma BootedFacts(slots: nat, cpus: nat, users: nat)
    requires cpus > 0 && 0 < users <= slots
    ensures var s := Booted(slots, cpus, users);
            && |s.procs| == |s.kids| == slots && |s.queues| == |s.current| == cpus
            && s.procs[0] == ZERO_PROC.(pid := 1, pgid := 1, state := Running) && s.current[0] == 0
            && (forall t :: 0 < t < slots ==> s.procs[t] == ZERO_PROC)
            && (forall t :: 0 <= t < slots ==> s.kids[t] == [])
            && (forall c :: 0 <= c < cpus ==> s.queues[c] == [])
            && (forall c :: 0 < c < cpus ==> s.current[c] == NULL)
  {
  }

  lemma BootedInv(slots: nat, cpus: nat, users: nat)
    requires cpus > 0 && 0 < users <= slots
    ensures Inv(Booted(slots, cpus, users))
    ensures RqSpelled(Booted(slots, cpus, users), Repeat(slots, false), Repeat(slots, NULL), Repeat(slots, NULL),
                      Repeat(cpus, NULL), Repeat(cpus, NULL))
    ensures KidsSpelled(Booted(slots, cpus, users), Repeat(slots, NULL), Repeat(slots, NULL), Repeat(slots, NULL))
  {
    hide Booted, System.Shape, Forest, RunQueues, RqSpelled, KidsSpelled;
    BootedShape(slots, cpus, users);
    BootedForest(slots, cpus, users);
    BootedQueues(slots, cpus, users);
    BootedSpelled(slots, cpus, users);
  }

  lemma BootedShape(slots: nat, cpus: nat, users: nat)
    requires cpus > 0 && 0 < users <= slots
    ensures Booted(slots, cpus, users).Shape()
  {
    hide Booted;
    BootedFacts(slots, cpus, users);
    BootedConstants(slots, cpus, users);
  }

  lemma BootedForest(slots: nat, cpus: nat, users: nat)
    requires cpus > 0 && 0 < users <= slots
    ensures Forest(Booted(slots, cpus, users))
  {
    hide Booted;
    BootedFacts(slots, cpus, users);
    BootedConstants(slots, cpus, users);
  }

  lemma BootedQueues(slots: nat, cpus: nat, users: nat)
    requires cpus > 0 && 0 < users <= slots
    ensures Booted(slots, cpus, users).Sized() && RunQueues(Booted(slots, cpus, users))
  {
    hide Booted;
    BootedFacts(slots, cpus, users);
    BootedConstants(slots, cpus, users);
  }

  lemma BootedSpelled(slots: nat, cpus: nat, users: nat)
    requires cpus > 0 && 0 < users <= slots
    ensures RqSpelled(Booted(slots, cpus, users), Repeat(slots, false), Repeat(slots, NULL), Repeat(slots, NULL),
                      Repeat(cpus, NULL), Repeat(cpus, NULL))
    ensures KidsSpelled(Booted(slots, cpus, users), Repeat(slots, NULL), Repeat(slots, NULL), Repeat(slots, NULL))
  {
    hide Booted;
    BootedFacts(slots, cpus, users);
    BootedConstants(slots, cpus, users);
  }

  lemma BootedConstants(slots: nat, cpus: nat, users: nat)
    requires cpus > 0 && 0 < users <= slots
    ensures var s := Booted(slots, cpus, users); s.local == 0 && s.nextPid == 2 && s.userSlots == users
  {
  }
}
