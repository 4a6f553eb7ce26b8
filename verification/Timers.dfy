/** Periodic timers: the timerfd counts by division, the interval timer catches up by a loop. */
module Timers {

  import opened Division

  /** How many of the deadlines next, next + interval, ... have come at a time. */
  function Fired(next: nat, interval: nat, now: nat): (n: nat)
    requires interval > 0
    decreases now + 1 - next
  {
    if now < next then 0 else 1 + Fired(next + interval, interval, now)
  }

  /** The n-th deadline from next on. */
  function Deadline(next: nat, interval: nat, n: nat): nat { next + interval * n }

  lemma DeadlineStep(next: nat, interval: nat, n: nat)
    ensures Deadline(next, interval, n + 1) == Deadline(next + interval, interval, n)
  {
    assert interval * (n + 1) == interval * n + interval;
  }

  /** After the deadlines that have come, the next one is the first after now. */
  lemma {:induction false} FirstAfter(next: nat, interval: nat, now: nat)
    requires interval > 0
    ensures var n := Fired(next, interval, now);
            now < Deadline(next, interval, n) && (n > 0 ==> Deadline(next, interval, n - 1) <= now)
    decreases now + 1 - next
  {
    hide Deadline;
    if now >= next {
      FirstAfter(next + interval, interval, now);
      var n := Fired(next + interval, interval, now);
      DeadlineStep(next, interval, n);
      if n > 0 { DeadlineStep(next, interval, n - 1); }
    }
    Deadline0(next, interval);
  }

  lemma Deadline0(next: nat, interval: nat)
    ensures Deadline(next, interval, 0) == next
  {
  }

  /** The division gives the same count. */
  lemma FiredIsQuotient(next: nat, interval: nat, now: nat)
    requires interval > 0 && next <= now
    ensures Fired(next, interval, now) == 1 + Quo(now - next, interval)
  {
    hide Quo, Rem;
    var n := Fired(next, interval, now);
    FirstAfter(next, interval, now);
    assert interval * n == interval * (n - 1) + interval;
    DivUnique(now - next, interval, n - 1, now - next - interval * (n - 1));
  }

  /** Counting up to an earlier time and going on from the deadline then reached is counting once. */
  lemma {:induction false} FiredAdds(next: nat, interval: nat, mid: nat, now: nat)
    requires interval > 0 && mid <= now
    ensures var n := Fired(next, interval, mid);
            Fired(next, interval, now) == n + Fired(Deadline(next, interval, n), interval, now)
    decreases mid + 1 - next
  {
    hide Deadline;
    Deadline0(next, interval);
    if mid >= next {
      FiredAdds(next + interval, interval, mid, now);
      DeadlineStep(next, interval, Fired(next + interval, interval, mid));
    }
  }

  /** A timerfd. */
  class TimerFd {
    var active: bool
    var next: nat
    var interval: nat

    constructor (active: bool, next: nat, interval: nat)
      ensures this.active == active && this.next == next && this.interval == interval
    {
      this.active, this.next, this.interval := active, next, interval;
    }

    ghost function Due(now: nat): nat
      reads this
    {
      if !active || now < next then 0 else if interval > 0 then Fired(next, interval, now) else 1
    }

    /** timerfd_expire_count: a peek tells what a read at the same time would count. */
    method Expire(now: nat, consume: bool) returns (count: nat)
      modifies this
      ensures count == old(Due(now)) && interval == old(interval)
      ensures (count > 0 <==> old(active) && old(next) <= now) && (interval == 0 ==> count <= 1)
      ensures !consume || count == 0 ==> active == old(active) && next == old(next)
      ensures consume && count > 0 && interval > 0 ==>
        active == old(active) && next == Deadline(old(next), interval, count) && now < next
      ensures consume && count > 0 && interval == 0 ==> !active && next == old(next)
    {
      hide Quo;
      count := 0;
      if !active || now < next { return; }
      count := 1;
      if interval > 0 {
        FiredIsQuotient(next, interval, now);
        FirstAfter(next, interval, now);
        if now > next { count := count + Quo(now - next, interval); } else { QuoZero(interval); }
        if consume { next := next + count * interval; }
      } else if consume {
        active := false;
      }
    }

    /** Reads at any non-decreasing times count every deadline exactly once. */
    method ReadAll(times: seq<nat>) returns (total: nat)
      requires active && interval > 0 && times != []
      requires forall i, j :: 0 <= i < j < |times| ==> times[i] <= times[j]
      modifies this
      ensures total == Fired(old(next), old(interval), times[|times| - 1])
      ensures old(next) <= times[|times| - 1] ==> total == 1 + Quo(times[|times| - 1] - old(next), old(interval))
      ensures active && interval == old(interval)
      ensures next == Deadline(old(next), interval, total) && times[|times| - 1] < next
    {
      hide Deadline, Quo;
      ghost var first, step := next, interval;
      total := 0;
      Deadline0(first, step);
      for k := 0 to |times|
        invariant active && interval == step && next == Deadline(first, step, total)
        invariant k == 0 ==> total == 0
        invariant k > 0 ==> total == Fired(first, step, times[k - 1]) && times[k - 1] < next
      {
        var n := Expire(times[k], true);
        if k > 0 { FiredAdds(first, step, times[k - 1], times[k]); }
        DeadlinesAdd(first, step, total, n);
        total := total + n;
      }
      if first <= times[|times| - 1] { FiredIsQuotient(first, step, times[|times| - 1]); }
    }
  }

  lemma QuoZero(a: nat)
    requires a > 0
    ensures Quo(0, a) == 0
  {
  }

  lemma DeadlinesAdd(next: nat, interval: nat, m: nat, n: nat)
    ensures Deadline(Deadline(next, interval, m), interval, n) == Deadline(next, interval, m + n)
  {
    assert interval * (m + n) == interval * m + interval * n;
  }

  /** The real-time interval timer of a task. */
  class IntervalTimer {
    var active: bool
    var next: nat
    var interval: nat
    var pending: bool

    /** task_timer_poll: the loop lands on the deadline the division gives. */
    method Poll(now: nat)
      modifies this
      ensures interval == old(interval)
      ensures !old(active) || now < old(next) ==>
        active == old(active) && next == old(next) && pending == old(pending)
      ensures old(active) && old(next) <= now ==> pending
      ensures old(active) && old(next) <= now && interval > 0 ==>
        active && next == Deadline(old(next), interval, 1 + Quo(now - old(next), interval)) && now < next
      ensures old(active) && old(next) <= now && interval == 0 ==> !active && next == 0
    {
      hide Deadline, Quo;
      if !active || now < next { return; }
      pending := true;
      if interval > 0 {
        ghost var first, n := next, 1;
        DeadlineStep(first, interval, 0);
        Deadline0(first + interval, interval);
        next := next + interval;
        while next <= now
          invariant active && pending && interval == old(interval) && first == old(next) <= now
          invariant next == Deadline(first, interval, n)
          invariant Fired(first, interval, now) == n + Fired(next, interval, now)
          decreases now + 1 - next
        {
          DeadlinesAdd(first, interval, n, 1);
          DeadlineStep(next, interval, 0);
          Deadline0(next + interval, interval);
          next := next + interval;
          n := n + 1;
        }
        FiredIsQuotient(first, interval, now);
      } else {
        active, next := false, 0;
      }
    }
  }
}
