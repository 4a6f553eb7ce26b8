/**
  The queue-head chain a UHCI controller walks, kept in a pool whose slots are handed out by
  a free list: what the controller visits after any sequence of allocations and appends.
 */
module UhciSchedule {

  import opened Machine
  import opened Division
  import opened UsbDma

  const QH_COUNT := 64
  const TD_COUNT := 256
  const FRAME_COUNT := 1024
  const SLOT := 16
  const NONE := 0xFFFF

  /** Link pointer bits of section 3.3 of the UHCI Design Guide 1.1: terminate, and queue head. */
  const TERMINATE := 1

  predicate Terminates(lp: nat) { lp % 2 == 1 }
  predicate ToQueueHead(lp: nat) { lp / 2 % 2 == 1 }

  // ----- indices and physical addresses -----

  function Phys(base: nat, i: nat): (p: nat) { (base + SLOT * i) % WORD32 }

  function LinkPtr(base: nat, i: nat): (lp: nat) {
    Phys(base, i) - Phys(base, i) % 16 + 2
  }

  /** The index a link pointer names, in 32-bit arithmetic cut to 16 bits. */
  function IndexOf(base: nat, lp: nat): (i: nat) {
    (lp - lp % 16 - base) % WORD32 / SLOT % 0x1_0000
  }

  ghost predicate PoolAt(base: nat) { base % 16 == 0 && base + SLOT * QH_COUNT <= WORD32 }

  lemma LinkIs(base: nat, i: nat)
    requires PoolAt(base) && i < QH_COUNT
    ensures LinkPtr(base, i) == base + 16 * i + 2
  {
    var b := base / 16;
    assert base == 16 * b;
    assert Phys(base, i) == base + 16 * i == 16 * (b + i);
  }

  lemma IndexIs(base: nat, b: nat, i: nat)
    requires base == 16 * b && i < QH_COUNT
    ensures IndexOf(base, base + 16 * i + 2) == i
  {
    var lp := 16 * (b + i) + 2;
    assert lp % 16 == 2;
    assert (16 * i) % WORD32 == 16 * i;
  }

  lemma LinkRoundTrip(base: nat, i: nat)
    requires PoolAt(base) && i < QH_COUNT
    ensures var lp := LinkPtr(base, i);
            lp == base + 16 * i + 2 && IndexOf(base, lp) == i && !Terminates(lp) && ToQueueHead(lp)
  {
    hide LinkPtr, IndexOf, Terminates, ToQueueHead;
    LinkIs(base, i);
    IndexIs(base, base / 16, i);
    LinkBits(base / 16, i);
  }

  lemma LinkBits(b: nat, i: nat)
    ensures !Terminates(16 * b + 16 * i + 2) && ToQueueHead(16 * b + 16 * i + 2)
  {
    var quarter := 4 * b + 4 * i;
    var half := 2 * quarter + 1;
    assert 16 * b + 16 * i + 2 == 2 * half;
    Halves(half);
    Halves(quarter);
  }

  lemma Halves(k: nat)
    ensures 2 * k % 2 == 0 && 2 * k / 2 == k && (2 * k + 1) % 2 == 1
  {
  }

  lemma Sixteenths(k: nat)
    ensures 16 * k % 16 == 0
  {
  }

  // ----- what the controller visits -----

  /** Following link pointers for at most fuel steps; None when it does not come to an end. */
  function Visits(link: seq<nat>, base: nat, lp: nat, fuel: nat): Option<seq<nat>>
    decreases fuel
  {
    if Terminates(lp) then Some([])
    else if fuel == 0 || !ToQueueHead(lp) || IndexOf(base, lp) >= |link| then None
    else
      var i := IndexOf(base, lp);
      var rest := Visits(link, base, link[i], fuel - 1);
      if rest.None? then None else Some([i] + rest.value)
  }

  ghost predicate Distinct(s: seq<nat>) {
    forall i, j :: 0 <= i < j < |s| ==> s[i] != s[j]
  }

  /** Each queue head of the path links to the next. */
  ghost predicate Path(link: seq<nat>, base: nat, path: seq<nat>) {
    && PoolAt(base) && |link| == QH_COUNT && path != []
    && (forall i :: 0 <= i < |path| ==> path[i] < QH_COUNT)
    && forall i :: 0 <= i < |path| - 1 ==> link[path[i]] == LinkPtr(base, path[i + 1])
  }

  /** A path without repetition that ends at a terminate pointer. */
  ghost predicate Chain(link: seq<nat>, base: nat, chain: seq<nat>) {
    Path(link, base, chain) && Distinct(chain) && link[chain[|chain| - 1]] == TERMINATE
  }

  /** The controller visits a terminated path from its start to its end. */
  lemma {:induction false} VisitsPath(link: seq<nat>, base: nat, path: seq<nat>, fuel: nat)
    requires Path(link, base, path) && Terminates(link[path[|path| - 1]]) && fuel >= |path|
    ensures Visits(link, base, LinkPtr(base, path[0]), fuel) == Some(path)
    decreases |path|
  {
    hide LinkPtr, IndexOf;
    LinkRoundTrip(base, path[0]);
    if |path| > 1 {
      VisitsPath(link, base, path[1..], fuel - 1);
      assert path == [path[0]] + path[1..];
    } else {
      assert path == [path[0]] + [];
    }
  }

  /** A walk that cannot leave the end of a path does not come to an end from its start either. */
  lemma {:induction false} VisitsTrap(link: seq<nat>, base: nat, path: seq<nat>, fuel: nat)
    requires Path(link, base, path) && link[path[|path| - 1]] == LinkPtr(base, path[|path| - 1])
    ensures Visits(link, base, LinkPtr(base, path[0]), fuel).None?
    decreases fuel
  {
    hide LinkPtr, IndexOf;
    LinkRoundTrip(base, path[0]);
    if fuel > 0 {
      VisitsTrap(link, base, if |path| > 1 then path[1..] else path, fuel - 1);
    }
  }

  /** The two stores of an append behind the last queue head of a chain. */
  function Appended(link: seq<nat>, base: nat, last: nat, qh: nat): seq<nat>
    requires last < |link| && qh < |link|
  {
    link[qh := TERMINATE][last := LinkPtr(base, qh)]
  }

  lemma AppendExtends(link: seq<nat>, base: nat, chain: seq<nat>, qh: nat)
    requires Chain(link, base, chain) && qh < QH_COUNT && qh !in chain
    ensures Chain(Appended(link, base, chain[|chain| - 1], qh), base, chain + [qh])
  {
    hide LinkPtr;
    var last, more := chain[|chain| - 1], chain + [qh];
    var after := Appended(link, base, last, qh);
    forall i | 0 <= i < |more| - 1
      ensures after[more[i]] == LinkPtr(base, more[i + 1])
    {
      if i < |chain| - 1 { assert chain[i] != last && chain[i] in chain; }
    }
    assert after[qh] == TERMINATE by { assert last in chain; }
  }

  /**
    Appending visits the old chain and then the new queue head exactly when that head was
    not on the chain. Appended a second time, it cuts the chain short, or, when it was the
    last one, traps the controller.
   */
  lemma AppendIff(link: seq<nat>, base: nat, chain: seq<nat>, qh: nat, fuel: nat)
    requires Chain(link, base, chain) && qh < QH_COUNT && fuel > |chain|
    ensures var seen := Visits(Appended(link, base, chain[|chain| - 1], qh), base, LinkPtr(base, chain[0]), fuel);
            && (seen == Some(chain + [qh]) <==> qh !in chain)
            && (qh == chain[|chain| - 1] ==> seen.None?)
            && (forall j :: 0 <= j < |chain| - 1 && chain[j] == qh ==> seen == Some(chain[..j + 1]))
  {
    hide LinkPtr, Visits;
    var n := |chain| - 1;
    var after := Appended(link, base, chain[n], qh);
    if qh !in chain {
      AppendExtends(link, base, chain, qh);
      VisitsPath(after, base, chain + [qh], fuel);
    } else {
      var j :| 0 <= j < |chain| && chain[j] == qh;
      var path := chain[..j + 1];
      forall i | 0 <= i < |path| - 1
        ensures after[path[i]] == LinkPtr(base, path[i + 1])
      {
        assert chain[i] != qh && chain[i] != chain[n];
      }
      if j == n {
        VisitsTrap(after, base, path, fuel);
      } else {
        VisitsPath(after, base, path, fuel);
        assert |path| < |chain + [qh]|;
      }
    }
  }

  // ----- the free list -----

  /** A list of the free slots of a pool, threaded through an array. Slots are never given back. */
  class FreeList {
    const next: array<nat>
    var head: nat
    /** The slots handed out, in order. */
    ghost var given: seq<nat>

    ghost predicate Valid()
      reads this, next
    {
      && next.Length < NONE && |given| <= next.Length
      && (forall i :: 0 <= i < |given| ==> given[i] == i)
      && head == After(|given|)
      && forall i :: |given| <= i < next.Length ==> next[i] == After(i + 1)
    }

    ghost function After(i: nat): nat
      reads this
    {
      if i < next.Length then i else NONE
    }

    constructor (count: nat)
      requires 0 < count < NONE
      ensures Valid() && given == [] && next.Length == count && fresh(next)
    {
      next := new nat[count](i => if 0 <= i && i + 1 < count then i + 1 else NONE);
      head, given := 0, [];
    }

    /** uhci_qh_alloc and uhci_td_alloc: a slot not handed out before, or none when all are. */
    method Pop() returns (slot: Option<nat>)
      requires Valid()
      modifies this, next
      ensures Valid()
      ensures slot.None? <==> |old(given)| == next.Length
      ensures slot.None? ==> given == old(given)
      ensures slot.Some? ==> slot.value < next.Length && slot.value !in old(given) && given == old(given) + [slot.value]
    {
      if head == NONE { return None; }
      var idx := head;
      head := next[idx];
      next[idx] := NONE;
      given := given + [idx];
      return Some(idx);
    }
  }

  // ----- the schedule -----

  datatype Call = Alloc | Append(qh: nat)

  class Schedule {
    const base: nat
    const qhs: FreeList
    const tds: FreeList
    const link: array<nat>
    const elem: array<nat>
    const frames: array<nat>
    var head: nat
    /** The queue heads appended, behind the root. */
    ghost var chain: seq<nat>

    ghost predicate Valid()
      reads this, qhs, qhs.next, link, frames
    {
      && qhs.next != link && qhs.next != frames && link != frames && qhs.next != elem && elem != link && elem != frames
      && qhs.Valid() && qhs.next.Length == QH_COUNT
      && Chain(link[..], base, chain) && chain[0] == head
      && (forall i :: 0 <= i < |chain| ==> chain[i] in qhs.given)
      && elem.Length == QH_COUNT && frames.Length == FRAME_COUNT
      && forall i :: 0 <= i < FRAME_COUNT ==> frames[i] == LinkPtr(base, head)
    }

    /** uhci_build_idle_schedule over fresh pools. */
    constructor (base: nat, tdBase: nat)
      requires PoolAt(base)
      ensures Valid() && this.base == base && chain == qhs.given == [head]
      ensures fresh(qhs) && fresh(qhs.next) && fresh(link) && fresh(frames) && fresh(elem)
    {
      hide LinkPtr, IndexOf;
      var q := new FreeList(QH_COUNT);
      var t := new FreeList(TD_COUNT);
      var first := q.Pop();
      var td := t.Pop();
      this.base, qhs, tds := base, q, t;
      link := new nat[QH_COUNT](_ => TERMINATE);
      var root := first.value;
      elem := new nat[QH_COUNT](_ => Phys(tdBase, td.value));
      frames := new nat[FRAME_COUNT](_ => LinkPtr(base, root));
      head, chain := root, [root];
    }

    /** A queue head that was not handed out before, cleared. */
    method AllocHead() returns (qh: Option<nat>)
      requires Valid()
      modifies qhs, qhs.next, link, elem
      ensures Valid() && chain == old(chain)
      ensures qh.None? <==> |old(qhs.given)| == QH_COUNT
      ensures qh.None? ==> qhs.given == old(qhs.given)
      ensures qh.Some? ==> qh.value !in old(qhs.given) && qhs.given == old(qhs.given) + [qh.value]
    {
      hide LinkPtr;
      qh := qhs.Pop();
      if qh.Some? {
        ghost var was := link[..];
        link[qh.value], elem[qh.value] := 0, 0;
        ChainElsewhere(was, link[..], base, chain, qh.value);
      }
    }

    /** uhci_append_async_qh: walks to the end of the chain and links the queue head there. */
    method Append(qh: nat) returns (ok: bool)
      requires Valid()
      modifies this`chain, link
      ensures ok <==> qh < QH_COUNT
      ensures !ok ==> link[..] == old(link[..]) && chain == old(chain)
      ensures ok ==> link[..] == Appended(old(link[..]), base, old(chain)[|old(chain)| - 1], qh)
      ensures ok && qh !in old(chain) && qh in qhs.given ==> Valid() && chain == old(chain) + [qh]
    {
      hide LinkPtr, IndexOf, Terminates, ToQueueHead;
      if qh >= QH_COUNT { return false; }
      var prev := head;
      ghost var k := 0;
      while true
        invariant chain == old(chain) && link[..] == old(link[..])
        invariant 0 <= k < |chain| && prev == chain[k] < QH_COUNT
        decreases |chain| - k
      {
        // Every index read from a chain lies inside the pool, so the range test on it is left out.
        ChainAt(link[..], base, chain, k);
        var lp := link[prev];
        if Terminates(lp) || !ToQueueHead(lp) { break; }
        prev := IndexOf(base, lp);
        k := k + 1;
      }
      ghost var was := link[..];
      assert k == |chain| - 1;
      link[qh] := TERMINATE;
      link[prev] := LinkPtr(base, qh);
      assert link[..] == Appended(was, base, prev, qh);
      if qh !in chain && qh in qhs.given {
        AppendExtends(was, base, chain, qh);
        chain := chain + [qh];
      }
      return true;
    }

    ghost function Seen(): View
      reads this, qhs
    {
      View(|qhs.given|, chain)
    }

    /** Any sequence of allocations and of appends of heads handed out and not appended before. */
    method Serve(calls: seq<Call>)
      requires Valid() && Seen().Allows(calls)
      modifies this`chain, qhs, qhs.next, link, elem
      ensures Valid() && Seen() == old(Seen()).All(calls)
      ensures forall frame, fuel: nat :: 0 <= frame < FRAME_COUNT && fuel >= |chain| ==>
        Visits(link[..], base, frames[frame], fuel) == Some(old(chain) + old(Seen()).Order(calls))
    {
      hide Visits, LinkPtr, Chain;
      ghost var was := Seen();
      for i := 0 to |calls|
        invariant Valid() && Seen() == was.All(calls[..i])
      {
        assert calls[..i + 1][..i] == calls[..i];
        was.AllowsAt(calls, i);
        assert calls[i].Append? ==> qhs.given[calls[i].qh] == calls[i].qh;
        Perform(calls[i]);
      }
      assert calls[..|calls|] == calls;
      was.ChainIsOrder(calls);
      forall fuel: nat | fuel >= |chain|
        ensures Visits(link[..], base, LinkPtr(base, head), fuel) == Some(chain)
      {
        ChainVisits(link[..], base, chain, fuel);
      }
    }

    /** One call; the callers append only heads they were handed and have not appended. */
    method Perform(call: Call)
      requires Valid() && (call.Append? ==> call.qh in qhs.given && call.qh !in chain)
      modifies this`chain, qhs, qhs.next, link, elem
      ensures Valid() && Seen() == old(Seen()).Do(call)
    {
      hide LinkPtr;
      match call
      case Alloc => var qh := AllocHead();
      case Append(q) => var ok := Append(q);
    }
  }

  /** What a run depends on: how many heads were handed out, and the chain. */
  datatype View = View(given: nat, chain: seq<nat>)
  {
    function Do(call: Call): View {
      match call
      case Alloc => if given < QH_COUNT then this.(given := given + 1) else this
      case Append(q) => if q < given && q !in chain then this.(chain := chain + [q]) else this
    }

    function All(calls: seq<Call>): View {
      if calls == [] then this else All(calls[..|calls| - 1]).Do(calls[|calls| - 1])
    }

    predicate Allowed(call: Call) {
      call.Append? ==> call.qh < given && call.qh !in chain
    }

    /** Every append is of a head handed out and not on the chain at that time. */
    ghost predicate Allows(calls: seq<Call>) {
      calls == [] || (Allows(calls[..|calls| - 1]) && All(calls[..|calls| - 1]).Allowed(calls[|calls| - 1]))
    }

    lemma {:induction false} AllowsAt(calls: seq<Call>, i: nat)
      requires Allows(calls) && i < |calls|
      ensures All(calls[..i]).Allowed(calls[i])
      decreases |calls|
    {
      var n := |calls| - 1;
      if i < n {
        AllowsAt(calls[..n], i);
        assert calls[..n][..i] == calls[..i];
      }
    }

    /** The appends of a run, in order. */
    function Order(calls: seq<Call>): seq<nat> {
      if calls == [] then []
      else
        var last := calls[|calls| - 1];
        Order(calls[..|calls| - 1]) + if last.Append? then [last.qh] else []
    }

    /** The chain grows by the appends of a run, each once, in the order they were made. */
    lemma {:induction false} ChainIsOrder(calls: seq<Call>)
      requires Allows(calls)
      ensures All(calls).chain == chain + Order(calls)
    {
      if calls != [] {
        ChainIsOrder(calls[..|calls| - 1]);
      }
    }
  }

  lemma ChainVisits(link: seq<nat>, base: nat, chain: seq<nat>, fuel: nat)
    requires Chain(link, base, chain) && fuel >= |chain|
    ensures Visits(link, base, LinkPtr(base, chain[0]), fuel) == Some(chain)
  {
    VisitsPath(link, base, chain, fuel);
  }

  /** Each link of a chain leads to the next queue head, the last one nowhere. */
  lemma ChainAt(link: seq<nat>, base: nat, chain: seq<nat>, k: nat)
    requires Chain(link, base, chain) && k < |chain|
    ensures var lp := link[chain[k]];
            if k == |chain| - 1 then Terminates(lp)
            else !Terminates(lp) && ToQueueHead(lp) && IndexOf(base, lp) == chain[k + 1]
  {
    hide LinkPtr, IndexOf;
    if k < |chain| - 1 { LinkRoundTrip(base, chain[k + 1]); }
  }

  lemma ChainElsewhere(was: seq<nat>, now: seq<nat>, base: nat, chain: seq<nat>, qh: nat)
    requires Chain(was, base, chain) && qh < QH_COUNT && qh !in chain && now == was[qh := 0]
    ensures Chain(now, base, chain)
  {
    hide LinkPtr;
    assert forall i :: 0 <= i < |chain| ==> chain[i] in chain && now[chain[i]] == was[chain[i]];
  }

  /**
    uhci_init_controller as far as memory goes: three blocks of the pool, which starts at a
    page boundary, and the idle schedule on the second. It succeeds exactly when the frame
    list, at the next page boundary, and the two pools behind it fit.
   */
  method CreateSchedule(pool: Pool, poolBase: nat) returns (s: Option<Schedule>)
    requires pool.Valid() && poolBase % 4096 == 0 && poolBase + POOL_SIZE <= WORD32
    modifies pool
    ensures pool.Valid()
    ensures s.Some? <==> AlignUp(old(pool.off), 4096) + FRAME_BYTES + QH_BYTES + TD_BYTES <= POOL_SIZE
    ensures s.Some? ==> s.value.Valid() && s.value.chain == s.value.qhs.given == [s.value.head]
    ensures s.Some? ==>
      var start := AlignUp(old(pool.off), 4096);
      && start >= 0 && s.value.base == poolBase + start + FRAME_BYTES
      && pool.blocks == old(pool.blocks) + [Block(start, FRAME_BYTES), Block(start + FRAME_BYTES, QH_BYTES),
                                            Block(start + FRAME_BYTES + QH_BYTES, TD_BYTES)]
  {
    hide Apart, Below, Rem, AlignUp, PowerOfTwo;
    PowersHere();
    var frameList := pool.Alloc(FRAME_BYTES, 4096);
    if frameList.None? { return None; }
    ghost var start := frameList.value.off;
    NextAligned(start, FRAME_BYTES);
    var qhPool := pool.Alloc(QH_BYTES, 16);
    if qhPool.None? { return None; }
    NextAligned(start, FRAME_BYTES + QH_BYTES);
    var tdPool := pool.Alloc(TD_BYTES, 16);
    if tdPool.None? { return None; }
    SixteenAligned(poolBase, qhPool.value.off);
    var schedule := new Schedule(poolBase + qhPool.value.off, poolBase + tdPool.value.off);
    return Some(schedule);
  }

  const FRAME_BYTES := FRAME_COUNT * 4
  const QH_BYTES := QH_COUNT * SLOT
  const TD_BYTES := TD_COUNT * SLOT

  lemma PowersHere()
    ensures PowerOfTwo(16) && PowerOfTwo(4096)
  {
    assert PowerOfTwo(16);
    assert PowerOfTwo(64) && PowerOfTwo(256) && PowerOfTwo(1024);
  }

  /** Behind a page boundary, a whole number of slots further, nothing has to be aligned. */
  lemma NextAligned(start: nat, bytes: nat)
    requires Rem(start, 4096) == 0 && bytes % 16 == 0 && start + bytes + 16 <= WORD32
    ensures AlignUp(start + bytes, 16) == start + bytes
  {
    hide AlignUp, PowerOfTwo;
    PowersHere();
    var q, r := start / 4096, bytes / 16;
    assert start == 4096 * q && bytes == 16 * r;
    assert start + bytes == 16 * (256 * q + r);
    Sixteenths(256 * q + r);
    assert Rem(start + bytes, 16) == 0;
    hide Rem;
    AlignUpIsLowest(start + bytes, 16, start + bytes);
  }

  lemma SixteenAligned(poolBase: nat, off: nat)
    requires poolBase % 4096 == 0 && Rem(off, 16) == 0
    ensures (poolBase + off) % 16 == 0
  {
    var q, r := poolBase / 4096, off / 16;
    assert poolBase == 4096 * q && off == 16 * r;
    assert poolBase + off == 16 * (256 * q + r);
    Sixteenths(256 * q + r);
  }
}
