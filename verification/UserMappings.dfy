/**
  The per-task table of user mappings: what it maps, what removing a range does to it, and
  which gap the top-down search finds.
 */
module UserMappings {

  import opened Machine

  const PAGE := 4096

  /** page_align_up on 64-bit words: the addition wraps around. */
  function PageAlignUp(v: int): int {
    (v + PAGE - 1) % WORD64 / PAGE * PAGE
  }

  predicate Aligned(v: int) { v % PAGE == 0 }

  /** The highest page boundary at or below v. */
  function PageDown(v: int): int { v / PAGE * PAGE }

  lemma HighestPage(v: int, floor: int)
    requires Aligned(floor) && floor <= v
    ensures Aligned(PageDown(v)) && floor <= PageDown(v) <= v
    ensures forall b :: Aligned(b) && b <= v ==> b <= PageDown(v)
  {
  }

  datatype Vma = Vma(start: int, end: int, prot: int, flags: int)
  {
    predicate Used() { start < end }
    predicate Covers(a: int) { start <= a < end }
    predicate Meets(lo: int, hi: int) { lo < end && start < hi }
    /** The range [lo, hi) lies strictly inside, so cutting it out leaves two pieces. */
    predicate SplitBy(lo: int, hi: int) { start < lo && hi < end }
  }

  const FREE_VMA := Vma(0, 0, 0, 0)

  // ----- what a table means -----

  /** Address a is mapped with the given protection and flags. */
  ghost predicate Maps(vs: seq<Vma>, a: int, prot: int, flags: int) {
    exists i :: 0 <= i < |vs| && vs[i].Covers(a) && vs[i].prot == prot && vs[i].flags == flags
  }

  ghost predicate Disjoint(vs: seq<Vma>) {
    forall i, j :: 0 <= i < j < |vs| && vs[i].Used() && vs[j].Used() ==>
      vs[i].end <= vs[j].start || vs[j].end <= vs[i].start
  }

  ghost predicate AllAligned(vs: seq<Vma>) {
    forall i :: 0 <= i < |vs| && vs[i].Used() ==> Aligned(vs[i].start) && Aligned(vs[i].end)
  }

  /** No mapping meets [lo, hi). */
  ghost predicate Free(vs: seq<Vma>, lo: int, hi: int) {
    forall i :: 0 <= i < |vs| && vs[i].Used() ==> !vs[i].Meets(lo, hi)
  }

  /** Every mapping lies inside [lo, hi). */
  ghost predicate InWindow(vs: seq<Vma>, lo: int, hi: int) {
    forall i :: 0 <= i < |vs| && vs[i].Used() ==> lo <= vs[i].start && vs[i].end <= hi
  }

  // ----- cached values -----

  function FirstFree(vs: seq<Vma>): (s: int)
    ensures -1 <= s < |vs|
    ensures s >= 0 ==> !vs[s].Used() && forall i :: 0 <= i < s ==> vs[i].Used()
    ensures s < 0 ==> forall i :: 0 <= i < |vs| ==> vs[i].Used()
  {
    if vs == [] then -1
    else if !vs[0].Used() then 0
    else var s := FirstFree(vs[1..]); if s < 0 then -1 else s + 1
  }

  /** The number of recorded mappings. */
  function Recount(vs: seq<Vma>): (n: nat)
    ensures n <= |vs|
  {
    if vs == [] then 0 else Recount(vs[..|vs| - 1]) + if vs[|vs| - 1].Used() then 1 else 0
  }

  /** The lowest start of a mapping inside the heap window, or the heap limit. */
  function Hint(vs: seq<Vma>, base: int, limit: int): (h: int)
    ensures h <= limit
    ensures forall i :: 0 <= i < |vs| && vs[i].Used() && base <= vs[i].start < limit ==> h <= vs[i].start
    ensures h == limit || exists i :: 0 <= i < |vs| && vs[i].Used() && vs[i].start == h && base <= h
  {
    if vs == [] then limit
    else
      var h := Hint(vs[..|vs| - 1], base, limit);
      var v := vs[|vs| - 1];
      if v.Used() && base <= v.start < limit && v.start < h then v.start else h
  }

  // ----- removing a range -----

  /** What is left of one mapping; of a split mapping, the lower piece. */
  function Cut(v: Vma, lo: int, hi: int): Vma {
    if !v.Used() || !v.Meets(lo, hi) then v
    else if lo <= v.start && v.end <= hi then FREE_VMA
    else if lo <= v.start then v.(start := hi)
    else v.(end := lo)
  }

  function Upper(v: Vma, hi: int): Vma { Vma(hi, v.end, v.prot, v.flags) }

  function SplitIndex(vs: seq<Vma>, lo: int, hi: int): (k: int)
    ensures -1 <= k < |vs|
    ensures k >= 0 ==> vs[k].SplitBy(lo, hi)
    ensures k < 0 ==> forall i :: 0 <= i < |vs| ==> !vs[i].SplitBy(lo, hi)
  {
    if vs == [] then -1
    else if vs[0].SplitBy(lo, hi) then 0
    else var k := SplitIndex(vs[1..], lo, hi); if k < 0 then -1 else k + 1
  }

  /** The table after removing [lo, hi): every mapping cut, the upper piece of a split one in the first free slot. */
  function Removed(vs: seq<Vma>, lo: int, hi: int): (r: seq<Vma>)
    ensures |r| == |vs|
  {
    var cut := seq(|vs|, i requires 0 <= i < |vs| => Cut(vs[i], lo, hi));
    var k := SplitIndex(vs, lo, hi);
    if k >= 0 && FirstFree(vs) >= 0 then cut[FirstFree(vs) := Upper(vs[k], hi)] else cut
  }

  /** If one mapping is split by the range, no other mapping meets it. */
  lemma SplitIsAlone(vs: seq<Vma>, lo: int, hi: int, k: int)
    requires Disjoint(vs) && lo < hi && 0 <= k < |vs| && vs[k].SplitBy(lo, hi)
    ensures forall i :: 0 <= i < |vs| && i != k && vs[i].Used() ==> !vs[i].Meets(lo, hi)
    ensures SplitIndex(vs, lo, hi) == k
  {
  }

  /** The part of the address space a removal loses for want of a slot. */
  ghost predicate Lost(vs: seq<Vma>, lo: int, hi: int, a: int) {
    && FirstFree(vs) < 0
    && SplitIndex(vs, lo, hi) >= 0
    && hi <= a < vs[SplitIndex(vs, lo, hi)].end
  }

  /** What slot i of the new table covers was covered before, and is neither removed nor lost. */
  lemma RemovedFrom(vs: seq<Vma>, lo: int, hi: int, i: int, a: int)
    requires Disjoint(vs) && lo < hi && 0 <= i < |vs| && Removed(vs, lo, hi)[i].Covers(a)
    ensures !(lo <= a < hi) && !Lost(vs, lo, hi, a)
    ensures exists k :: 0 <= k < |vs| && vs[k].Covers(a)
              && vs[k].prot == Removed(vs, lo, hi)[i].prot && vs[k].flags == Removed(vs, lo, hi)[i].flags
  {
    var k := SplitIndex(vs, lo, hi);
    if k >= 0 && FirstFree(vs) == i {
      assert vs[k].Covers(a);
    } else {
      assert Removed(vs, lo, hi)[i] == Cut(vs[i], lo, hi) && vs[i].Covers(a);
      hide Removed, SplitIndex, FirstFree, Disjoint;
      if k >= 0 && vs[k].Covers(a) { OneCovers(vs, i, k, a); }
    }
  }

  lemma OneCovers(vs: seq<Vma>, i: int, k: int, a: int)
    requires Disjoint(vs) && 0 <= i < |vs| && 0 <= k < |vs| && vs[i].Covers(a) && vs[k].Covers(a)
    ensures i == k
  {
  }

  /** What slot i of the old table covered is still covered, unless removed or lost. */
  lemma RemovedKeeps(vs: seq<Vma>, lo: int, hi: int, i: int, a: int)
    requires Disjoint(vs) && lo < hi && 0 <= i < |vs| && vs[i].Covers(a) && !(lo <= a < hi) && !Lost(vs, lo, hi, a)
    ensures exists k :: 0 <= k < |vs| && Removed(vs, lo, hi)[k].Covers(a)
              && Removed(vs, lo, hi)[k].prot == vs[i].prot && Removed(vs, lo, hi)[k].flags == vs[i].flags
  {
    var r := Removed(vs, lo, hi);
    if vs[i].SplitBy(lo, hi) && a >= hi {
      SplitIsAlone(vs, lo, hi, i);
      assert r[FirstFree(vs)].Covers(a);
    } else {
      assert r[i] == Cut(vs[i], lo, hi) && r[i].Covers(a);
    }
  }

  /**
    Removing a range leaves exactly the old address map minus the range, and minus the upper
    part of a split mapping when the table is full.
   */
  lemma RemovedMaps(vs: seq<Vma>, lo: int, hi: int, a: int, prot: int, flags: int)
    requires Disjoint(vs) && lo < hi
    ensures Maps(Removed(vs, lo, hi), a, prot, flags) <==>
            Maps(vs, a, prot, flags) && !(lo <= a < hi) && !Lost(vs, lo, hi, a)
  {
    hide Removed, Lost, Disjoint;
    var r := Removed(vs, lo, hi);
    if Maps(r, a, prot, flags) {
      var i :| 0 <= i < |r| && r[i].Covers(a) && r[i].prot == prot && r[i].flags == flags;
      RemovedFrom(vs, lo, hi, i, a);
    }
    if Maps(vs, a, prot, flags) && !(lo <= a < hi) && !Lost(vs, lo, hi, a) {
      var i :| 0 <= i < |vs| && vs[i].Covers(a) && vs[i].prot == prot && vs[i].flags == flags;
      RemovedKeeps(vs, lo, hi, i, a);
    }
  }

  predicate Apart(v: Vma, w: Vma) {
    v.Used() && w.Used() ==> v.end <= w.start || w.end <= v.start
  }

  lemma CutApart(v: Vma, w: Vma, lo: int, hi: int)
    requires Apart(v, w) && lo < hi
    ensures Apart(Cut(v, lo, hi), Cut(w, lo, hi))
    ensures v.SplitBy(lo, hi) ==> Apart(Upper(v, hi), Cut(w, lo, hi))
  {
  }

  /** A removal frees the range and keeps the table disjoint. */
  lemma RemovedDisjoint(vs: seq<Vma>, lo: int, hi: int)
    requires Disjoint(vs) && lo < hi
    ensures Disjoint(Removed(vs, lo, hi)) && Free(Removed(vs, lo, hi), lo, hi)
  {
    var r := Removed(vs, lo, hi);
    var k := SplitIndex(vs, lo, hi);
    var f := FirstFree(vs);
    forall i, j | 0 <= i < j < |r| && r[i].Used() && r[j].Used() ensures Apart(r[i], r[j]) {
      if k >= 0 && (i == f || j == f) {
        var o := if i == f then j else i;
        if o == k { assert r[o] == Cut(vs[k], lo, hi); } else { CutApart(vs[k], vs[o], lo, hi); }
      } else {
        CutApart(vs[i], vs[j], lo, hi);
      }
    }
  }

  /** Cutting never moves a mapping outside where it was, and cuts at the range's own ends. */
  lemma RemovedWithin(vs: seq<Vma>, lo: int, hi: int, i: int)
    requires lo < hi && 0 <= i < |vs| && Removed(vs, lo, hi)[i].Used()
    ensures exists k :: 0 <= k < |vs| && vs[k].Used() &&
              var r := Removed(vs, lo, hi)[i];
              && (r.start == vs[k].start || r.start == hi) && (r.end == vs[k].end || r.end == lo)
              && vs[k].start <= r.start && r.end <= vs[k].end
  {
    var k := SplitIndex(vs, lo, hi);
    if k >= 0 && FirstFree(vs) == i {
      assert vs[k].Used();
    } else {
      assert Removed(vs, lo, hi)[i] == Cut(vs[i], lo, hi);
      assert vs[i].Used();
    }
  }

  lemma RemovedAligned(vs: seq<Vma>, lo: int, hi: int)
    requires lo < hi && AllAligned(vs) && Aligned(lo) && Aligned(hi)
    ensures AllAligned(Removed(vs, lo, hi))
  {
    forall i | 0 <= i < |vs| && Removed(vs, lo, hi)[i].Used()
      ensures Aligned(Removed(vs, lo, hi)[i].start) && Aligned(Removed(vs, lo, hi)[i].end)
    {
      RemovedWithin(vs, lo, hi, i);
    }
  }

  /** The turn of the removal loop for slot i: cut it, the upper piece of a split into the first free slot. */
  function CutAt(ws: seq<Vma>, i: int, lo: int, hi: int): seq<Vma>
    requires 0 <= i < |ws|
  {
    if ws[i].SplitBy(lo, hi) && ws[i].Meets(lo, hi) && FirstFree(ws) >= 0 then
      ws[FirstFree(ws) := Upper(ws[i], hi)][i := Cut(ws[i], lo, hi)]
    else
      ws[i := Cut(ws[i], lo, hi)]
  }

  /** The table after the first i turns of the removal loop. */
  function Partly(vs: seq<Vma>, lo: int, hi: int, i: nat): (r: seq<Vma>)
    requires i <= |vs|
    ensures |r| == |vs|
  {
    var k := SplitIndex(vs, lo, hi);
    seq(|vs|, j requires 0 <= j < |vs| =>
      if 0 <= k < i && j == FirstFree(vs) then Upper(vs[k], hi) else if j < i then Cut(vs[j], lo, hi) else vs[j])
  }

  lemma PartlyStep(vs: seq<Vma>, lo: int, hi: int, i: nat)
    requires Disjoint(vs) && lo < hi && i < |vs|
    ensures CutAt(Partly(vs, lo, hi, i), i, lo, hi) == Partly(vs, lo, hi, i + 1)
    ensures var v := Partly(vs, lo, hi, i)[i];
            v.Used() && v.Meets(lo, hi) <==> vs[i].Used() && vs[i].Meets(lo, hi)
  {
    if vs[i].SplitBy(lo, hi) { PartlySplit(vs, lo, hi, i); } else { PartlyCut(vs, lo, hi, i); }
  }

  lemma PartlySplit(vs: seq<Vma>, lo: int, hi: int, i: nat)
    requires Disjoint(vs) && lo < hi && i < |vs| && vs[i].SplitBy(lo, hi)
    ensures Partly(vs, lo, hi, i) == vs && CutAt(vs, i, lo, hi) == Partly(vs, lo, hi, i + 1)
  {
    SplitIsAlone(vs, lo, hi, i);
    hide Disjoint, SplitIndex, FirstFree;
    var f := FirstFree(vs);
    var cut, part := CutAt(vs, i, lo, hi), Partly(vs, lo, hi, i + 1);
    forall j | 0 <= j < |vs| ensures cut[j] == part[j] && Partly(vs, lo, hi, i)[j] == vs[j] {
      if j != i && j != f { assert Cut(vs[j], lo, hi) == vs[j]; }
    }
  }

  lemma PartlyCut(vs: seq<Vma>, lo: int, hi: int, i: nat)
    requires lo < hi && i < |vs| && !vs[i].SplitBy(lo, hi)
    ensures CutAt(Partly(vs, lo, hi, i), i, lo, hi) == Partly(vs, lo, hi, i + 1)
    ensures var v := Partly(vs, lo, hi, i)[i];
            v.Used() && v.Meets(lo, hi) <==> vs[i].Used() && vs[i].Meets(lo, hi)
  {
    var k := SplitIndex(vs, lo, hi);
    var w := Partly(vs, lo, hi, i)[i];
    assert w == if 0 <= k < i && i == FirstFree(vs) then Upper(vs[k], hi) else vs[i];
    assert !w.SplitBy(lo, hi);
  }

  lemma PartlyEnds(vs: seq<Vma>, lo: int, hi: int)
    ensures Partly(vs, lo, hi, 0) == vs && Partly(vs, lo, hi, |vs|) == Removed(vs, lo, hi)
  {
  }

  /** A range that no mapping meets is already removed. */
  lemma RemovedNothing(vs: seq<Vma>, lo: int, hi: int)
    requires lo < hi && Free(vs, lo, hi)
    ensures Removed(vs, lo, hi) == vs
  {
  }

  /** ws maps what vs maps, minus [lo, hi) and what the removal loses. */
  ghost predicate Unmapped(vs: seq<Vma>, ws: seq<Vma>, lo: int, hi: int) {
    forall a, p, f :: Maps(ws, a, p, f) <==> Maps(vs, a, p, f) && !(lo <= a < hi) && !Lost(vs, lo, hi, a)
  }

  /** us maps [lo, hi) with the given rights, and elsewhere what vs maps, minus what the removal loses. */
  ghost predicate Remapped(vs: seq<Vma>, us: seq<Vma>, lo: int, hi: int, prot: int, flags: int) {
    forall a, p, f :: Maps(us, a, p, f) <==>
      if lo <= a < hi then p == prot && f == flags else Maps(vs, a, p, f) && !Lost(vs, lo, hi, a)
  }

  // ----- the gap search -----

  /** How many mappings start below the cursor. */
  function StartsBelow(vs: seq<Vma>, cursor: int): (n: nat)
    ensures n <= |vs|
  {
    if vs == [] then 0
    else
      var last := vs[|vs| - 1];
      StartsBelow(vs[..|vs| - 1], cursor) + if last.Used() && last.start < cursor then 1 else 0
  }

  lemma {:induction false} StartsBelowFalls(vs: seq<Vma>, cursor: int, i: int)
    requires 0 <= i < |vs| && vs[i].Used() && vs[i].start < cursor
    ensures StartsBelow(vs, vs[i].start) < StartsBelow(vs, cursor)
  {
    var n := |vs| - 1;
    StartsBelowMono(vs[..n], vs[i].start, cursor);
    if i < n {
      StartsBelowFalls(vs[..n], cursor, i);
    }
  }

  lemma {:induction false} StartsBelowMono(vs: seq<Vma>, c: int, d: int)
    requires c <= d
    ensures StartsBelow(vs, c) <= StartsBelow(vs, d)
  {
    if vs != [] {
      StartsBelowMono(vs[..|vs| - 1], c, d);
    }
  }

  /** A page-aligned window of the asked size inside [floor, top) that meets no mapping. */
  ghost predicate Window(vs: seq<Vma>, floor: int, top: int, need: int, b: int) {
    Aligned(b) && floor <= b && b + need <= top && Free(vs, b, b + need)
  }

  /**
    One turn of the search: base is the highest aligned place below the cursor; if a mapping
    is in the way, nothing above the lowest such mapping's start can hold the window.
   */
  lemma NothingAbove(vs: seq<Vma>, floor: int, top: int, need: int, cursor: int, base: int, i: int, b: int)
    requires need > 0 && base == PageDown(cursor - need)
    requires 0 <= i < |vs| && vs[i].Used() && vs[i].Meets(base, base + need)
    requires Window(vs, floor, top, need, b) && b + need <= cursor
    ensures b + need <= vs[i].start
  {
    assert b <= base;
    assert !vs[i].Meets(b, b + need);
  }

  // ----- the table and the system calls on it -----

  const USER_MIN_ADDR := 0x1000
  const USER_MAX_ADDR := 0x4000_0000
  const HEAP_BASE_ADDR := 0x2040_0000

  datatype Outcome = Mapped(base: int) | BadArgument | NoMemory | Failed

  class AddressSpace {
    const slots: array<Vma>
    var heapBase: int
    var brk: int
    var heapLimit: int
    var mmapNext: int
    var count: int

    /** The mappings are disjoint and page aligned, however they were made, and counted. */
    ghost predicate TableOk()
      reads this, slots
    {
      Disjoint(slots[..]) && AllAligned(slots[..]) && count == Recount(slots[..])
    }

    /** The cached hint is what a fresh look at the table gives; not so before the first mapping. */
    ghost predicate HintOk()
      reads this, slots
    {
      mmapNext == Hint(slots[..], HEAP_BASE_ADDR, heapLimit)
    }

    /** The table is in order and the break is inside the heap window. */
    ghost predicate Sane()
      reads this, slots
    {
      && TableOk()
      && HEAP_BASE_ADDR <= heapBase <= brk <= heapLimit <= USER_MAX_ADDR
      && Aligned(heapBase) && Aligned(brk)
    }

    /** Moreover the break and the mappings share the heap window without meeting. */
    ghost predicate Valid()
      reads this, slots
    {
      Sane() && InWindow(slots[..], brk, heapLimit)
    }

    constructor (n: nat, limit: int)
      requires HEAP_BASE_ADDR <= limit <= USER_MAX_ADDR
      ensures Valid() && fresh(slots) && slots.Length == n && heapLimit == limit && brk == HEAP_BASE_ADDR
      ensures forall a, p, f :: !Maps(slots[..], a, p, f)
    {
      slots := new Vma[n](_ => FREE_VMA);
      heapBase, brk, heapLimit := HEAP_BASE_ADDR, HEAP_BASE_ADDR, limit;
      mmapNext, count := 0x3000_0000, 0;
      new;
      NothingCounted(slots[..]);
    }

    method FindFreeSlot() returns (s: int)
      ensures s == FirstFree(slots[..])
    {
      for i := 0 to slots.Length
        invariant forall k :: 0 <= k < i ==> slots[k].Used()
      {
        if !slots[i].Used() { return i; }
      }
      return -1;
    }

    method RecountMappings()
      modifies `count
      ensures count == Recount(slots[..])
    {
      var n := 0;
      for i := 0 to slots.Length
        invariant n == Recount(slots[..i])
      {
        assert slots[..i + 1][..i] == slots[..i];
        if slots[i].Used() { n := n + 1; }
      }
      assert slots[..slots.Length] == slots[..];
      count := n;
    }

    method RefreshHint()
      modifies `mmapNext
      ensures mmapNext == Hint(slots[..], HEAP_BASE_ADDR, heapLimit)
    {
      var hint := heapLimit;
      for i := 0 to slots.Length
        invariant hint == Hint(slots[..i], HEAP_BASE_ADDR, heapLimit)
      {
        assert slots[..i + 1][..i] == slots[..i];
        var v := slots[i];
        if v.Used() && HEAP_BASE_ADDR <= v.start < heapLimit && v.start < hint { hint := v.start; }
      }
      assert slots[..slots.Length] == slots[..];
      mmapNext := hint;
    }

    /** user_vma_record: the caller's range goes into the first free slot. */
    method Record(start: int, end: int, prot: int, flags: int) returns (ok: bool)
      modifies slots, `count, `mmapNext
      ensures ok <==> start < end && FirstFree(old(slots[..])) >= 0
      ensures ok ==> slots[..] == old(slots[..])[FirstFree(old(slots[..])) := Vma(start, end, prot, flags)]
      ensures ok ==> count == Recount(slots[..]) && mmapNext == Hint(slots[..], HEAP_BASE_ADDR, heapLimit)
      ensures !ok ==> slots[..] == old(slots[..]) && count == old(count) && mmapNext == old(mmapNext)
    {
      if end <= start { return false; }
      var s := FindFreeSlot();
      if s < 0 { return false; }
      slots[s] := Vma(start, end, prot, flags);
      assert slots[..] == old(slots[..])[s := Vma(start, end, prot, flags)];
      RecountMappings();
      RefreshHint();
      return true;
    }

    /**
      user_vma_find_topdown_gap: the highest aligned free window, 0 only when there is none;
      the iteration cap is never what stops the search.
     */
    method FindTopDownGap(floor: int, top: int, need: int) returns (base: int)
      requires AllAligned(slots[..]) && 0 < floor && Aligned(floor)
      ensures need <= 0 ==> base == 0
      ensures need > 0 && base != 0 ==> Window(slots[..], floor, top, need, base)
      ensures need > 0 && base != 0 ==> forall b :: Window(slots[..], floor, top, need, b) ==> b <= base
      ensures need > 0 && base == 0 ==> forall b :: !Window(slots[..], floor, top, need, b)
    {
      hide PageDown, Aligned;
      if need <= 0 { return 0; }
      if top <= floor || need > top - floor { return 0; }
      var cursor := top;
      ghost var vs := slots[..];
      for iter := 0 to slots.Length + 4
        invariant cursor <= top && (cursor == top || Aligned(cursor))
        invariant iter + StartsBelow(vs, cursor) <= |vs|
        invariant forall b :: Window(vs, floor, top, need, b) ==> b + need <= cursor
      {
        if cursor <= floor || need > cursor - floor { return 0; }
        base := PageDown(cursor - need);
        HighestPage(cursor - need, floor);
        if base < floor { base := floor; }
        var blocker := LowestBlocker(floor, top, base, base + need, cursor);
        if blocker < 0 { return base; }
        forall b | Window(vs, floor, top, need, b) ensures b + need <= vs[blocker].start {
          NothingAbove(vs, floor, top, need, cursor, base, blocker, b);
        }
        StartsBelowFalls(vs, cursor, blocker);
        cursor := slots[blocker].start;
      }
      assert false;
    }

    /** The inner loop of the search: the lowest-starting mapping that meets [base, end), or -1. */
    method LowestBlocker(floor: int, top: int, base: int, end: int, cursor: int) returns (k: int)
      requires floor <= base < end <= cursor <= top
      ensures -1 <= k < slots.Length
      ensures k >= 0 ==> slots[k].Used() && slots[k].Meets(base, end) && slots[k].start < cursor
      ensures k >= 0 ==>
                forall i :: 0 <= i < slots.Length && slots[i].Used() && slots[i].Meets(base, end) ==>
                  slots[k].start <= slots[i].start
      ensures k < 0 ==> Free(slots[..], base, end)
    {
      k := -1;
      var nextCursor := cursor;
      for i := 0 to slots.Length
        invariant -1 <= k < i
        invariant k >= 0 ==> slots[k].Used() && slots[k].Meets(base, end) && nextCursor == slots[k].start < cursor
        invariant k < 0 ==> nextCursor == cursor
        invariant forall j :: 0 <= j < i && slots[j].Used() && slots[j].Meets(base, end) ==>
                    k >= 0 && nextCursor <= slots[j].start
      {
        var v := slots[i];
        if v.Used() && !(v.end <= floor || v.start >= top) && !(end <= v.start || base >= v.end) {
          if v.start < nextCursor { nextCursor, k := v.start, i; }
        }
      }
    }

    /** One turn of user_vma_remove_range's loop. */
    method CutSlot(i: int, lo: int, hi: int) returns (hit: bool)
      requires 0 <= i < slots.Length && lo < hi
      modifies slots
      ensures hit <==> old(slots[i]).Used() && old(slots[i]).Meets(lo, hi)
      ensures slots[..] == CutAt(old(slots[..]), i, lo, hi)
    {
      var v := slots[i];
      hit := v.Used() && !(hi <= v.start || lo >= v.end);
      if !hit { return; }
      if lo <= v.start && hi >= v.end {
        slots[i] := FREE_VMA;
      } else if lo <= v.start {
        slots[i] := v.(start := hi);
      } else if hi >= v.end {
        slots[i] := v.(end := lo);
      } else {
        var s := FindFreeSlot();
        if s >= 0 { slots[s] := Vma(hi, v.end, v.prot, v.flags); }
        slots[i] := v.(end := lo);
      }
    }

    /** user_vma_remove_range. */
    method RemoveRange(lo: int, hi: int) returns (changed: bool)
      requires Disjoint(slots[..])
      modifies slots, `count, `mmapNext
      ensures changed <==> lo < hi && !Free(old(slots[..]), lo, hi)
      ensures slots[..] == if changed then Removed(old(slots[..]), lo, hi) else old(slots[..])
      ensures changed ==> count == Recount(slots[..]) && mmapNext == Hint(slots[..], HEAP_BASE_ADDR, heapLimit)
      ensures !changed ==> count == old(count) && mmapNext == old(mmapNext)
    {
      hide Removed, Partly, CutAt, Disjoint, Recount, Hint;
      changed := false;
      if hi <= lo { return; }
      ghost var vs := slots[..];
      PartlyEnds(vs, lo, hi);
      for i := 0 to slots.Length
        invariant changed <==> exists j :: 0 <= j < i && vs[j].Used() && vs[j].Meets(lo, hi)
        invariant slots[..] == Partly(vs, lo, hi, i)
        invariant count == old(count) && mmapNext == old(mmapNext)
      {
        PartlyStep(vs, lo, hi, i);
        var hit := CutSlot(i, lo, hi);
        if hit { changed := true; }
      }
      if changed {
        RecountMappings();
        RefreshHint();
      } else {
        RemovedNothing(vs, lo, hi);
      }
    }

    /** do_sys_brk; writable is the page-table check of the last page below the new break. */
    method Brk(addr: int, writable: bool) returns (r: int)
      requires Sane() && 0 <= addr < WORD64
      modifies `brk
      ensures Sane() && r == brk && (old(Valid()) ==> Valid())
      ensures brk == BreakAfter(slots[..], heapBase, old(brk), heapLimit, addr, writable)
    {
      if addr == 0 { return brk; }
      var req := PageAlignUp(addr);
      if req < heapBase || req > heapLimit { return brk; }
      if req > brk {
        for i := 0 to slots.Length
          invariant brk == old(brk)
          invariant forall j :: 0 <= j < i && slots[j].Used() ==> !slots[j].Meets(brk, req)
        {
          if slots[i].Used() && !(slots[i].end <= brk || slots[i].start >= req) { return brk; }
        }
      }
      if req > heapBase && !writable { return brk; }
      brk := req;
      return brk;
    }

    /**
      do_sys_mmap. argsOk: the descriptor and offset checks pass; pagesOk: every page of the range
      is present with the asked rights; filled: the range was cleared and read in without error.
     */
    method Mmap(addr: int, len: int, prot: int, flags: int, fixed: bool, argsOk: bool, pagesOk: bool, filled: bool)
      returns (r: Outcome)
      requires Sane() && 0 <= addr < WORD64 && 0 <= len < WORD64
      modifies slots, `count, `mmapNext
      ensures Sane() && (old(Valid()) && !fixed ==> Valid())
      ensures HintOk() || (!old(HintOk()) && slots[..] == old(slots[..]))
      ensures var m := Map(addr, len, prot, flags, fixed, argsOk, pagesOk, filled);
              MapDone(old(slots[..]), slots[..], brk, heapLimit, m, r)
    {
      hide Removed, Disjoint, AllAligned, Window, InWindow, Remapped, Unmapped, FirstFree, Hint, Recount,
           PageAlignUp, Aligned, Free;
      AlignUpFacts(len);
      SaneFacts();
      if len == 0 || !argsOk { return BadArgument; }
      var need := PageAlignUp(len);
      if need == 0 { return BadArgument; }
      var base: int;
      if fixed {
        if !Aligned(addr) { return BadArgument; }
        base := addr;
      } else {
        base := Place(need);
        if base == 0 { return NoMemory; }
      }
      EndFacts(base, need);
      var end := (base + need) % WORD64;
      if base < USER_MIN_ADDR || end < base || end > USER_MAX_ADDR { return NoMemory; }
      r := Install(base, end, prot % WORD32, flags % WORD32, pagesOk, filled);
    }

    lemma SaneFacts()
      requires Sane()
      ensures 0 < brk <= heapLimit <= USER_MAX_ADDR < WORD64
    {
    }

    /** Where do_sys_mmap puts a mapping that is not fixed; 0 for nowhere. */
    method Place(need: int) returns (base: int)
      requires Sane() && need > 0
      ensures base == 0 ==> forall b :: !Window(slots[..], brk, heapLimit, need, b)
      ensures base != 0 ==> Window(slots[..], brk, heapLimit, need, base)
      ensures base != 0 ==> forall b :: Window(slots[..], brk, heapLimit, need, b) ==> b <= base
      ensures base != 0 ==> Aligned(base) && brk <= base && base + need <= heapLimit
      ensures base != 0 ==> Free(slots[..], base, base + need)
    {
      hide Disjoint, AllAligned, Window;
      var floor := PageAlignUp(brk);
      if floor < heapBase { floor := heapBase; }
      if floor < HEAP_BASE_ADDR { floor := HEAP_BASE_ADDR; }
      assert floor == brk;
      base := FindTopDownGap(floor, heapLimit, need);
      if base != 0 { WindowFacts(slots[..], brk, heapLimit, need, base); }
    }

    /** The second half of do_sys_mmap: clear the range, check and fill the pages, record the mapping. */
    method Install(base: int, end: int, prot: int, flags: int, pagesOk: bool, filled: bool) returns (r: Outcome)
      requires Sane() && Aligned(base) && Aligned(end) && base < end
      modifies slots, `count, `mmapNext
      ensures Sane() && r != BadArgument && (r.Mapped? ==> r.base == base && pagesOk && filled)
      ensures HintOk() || (!old(HintOk()) && slots[..] == old(slots[..]))
      ensures if r.Mapped? && HEAP_BASE_ADDR <= base < heapLimit
              then Remapped(old(slots[..]), slots[..], base, end, prot, flags)
              else Unmapped(old(slots[..]), slots[..], base, end)
      ensures Free(old(slots[..]), base, end) && !r.Mapped? ==> slots[..] == old(slots[..])
      ensures r == Failed ==> !filled
      ensures r == NoMemory ==> !pagesOk || FirstFree(slots[..]) < 0
      ensures old(Valid()) && brk <= base && end <= heapLimit ==> Valid()
    {
      hide Removed, Disjoint, AllAligned, InWindow, Remapped, Unmapped, Free, Recount, Hint;
      ghost var vs := slots[..];
      var _ := RemoveRange(base, end);
      AfterRemoval(vs, slots[..], base, end, brk, heapLimit);
      ghost var ws := slots[..];
      if !pagesOk { return NoMemory; }
      if !filled { return Failed; }
      if HEAP_BASE_ADDR <= base < heapLimit {
        var ok := Record(base, end, prot, flags);
        if !ok { return NoMemory; }
        AfterRecord(vs, ws, base, end, prot, flags, brk, heapLimit);
      }
      return Mapped(base);
    }

    /** do_sys_munmap: true for a zero return, false for EINVAL. */
    method Munmap(addr: int, len: int) returns (ok: bool)
      requires Sane() && 0 <= addr < WORD64 && 0 <= len < WORD64
      modifies slots, `count, `mmapNext
      ensures Sane() && (old(Valid()) ==> Valid())
      ensures HintOk() || (!old(HintOk()) && slots[..] == old(slots[..]))
      ensures UnmapDone(old(slots[..]), slots[..], heapLimit, addr, len, ok)
    {
      hide Removed, Disjoint, AllAligned, InWindow, Unmapped, Free, Recount, Hint;
      if len == 0 { return true; }
      if !Aligned(addr) { return false; }
      var need := PageAlignUp(len);
      if need == 0 { return false; }
      if HEAP_BASE_ADDR <= addr < heapLimit {
        var end := (addr + need) % WORD64;
        ghost var vs := slots[..];
        var _ := RemoveRange(addr, end);
        if addr < end { AfterRemoval(vs, slots[..], addr, end, brk, heapLimit); }
      }
      return true;
    }

    ghost function Now(): Space
      reads this, slots
    {
      Space(slots[..], heapBase, brk, heapLimit)
    }

    /**
      Any run of the three calls, with the states it passes through: each call does what it
      says; fixed mappings keep the table in order, the other calls all of Valid.
     */
    method Serve(requests: seq<Request>) returns (replies: seq<Reply>, ghost trace: seq<Space>)
      requires Sane() && forall i :: 0 <= i < |requests| ==> requests[i].InRange()
      modifies slots, this
      ensures Sane()
      ensures old(Valid()) && (forall i :: 0 <= i < |requests| ==> !(requests[i].Map? && requests[i].fixed)) ==> Valid()
      ensures HintOk() || (!old(HintOk()) && slots[..] == old(slots[..]))
      ensures |replies| == |requests| && |trace| == |requests| + 1
      ensures trace[0] == old(Now()) && trace[|requests|] == Now()
      ensures forall i :: 0 <= i < |requests| ==> Served(trace[i], requests[i], replies[i], trace[i + 1])
    {
      hide Served, Disjoint, AllAligned, InWindow, Hint, Recount;
      replies, trace := [], [Now()];
      for i := 0 to |requests|
        invariant Sane()
        invariant old(Valid()) && (forall j :: 0 <= j < i ==> !(requests[j].Map? && requests[j].fixed)) ==> Valid()
        invariant HintOk() || (!old(HintOk()) && slots[..] == old(slots[..]))
        invariant |replies| == i && |trace| == i + 1 && trace[0] == old(Now()) && trace[i] == Now()
        invariant forall j :: 0 <= j < i ==> Served(trace[j], requests[j], replies[j], trace[j + 1])
      {
        var a := Answer(requests[i]);
        replies, trace := replies + [a], trace + [Now()];
      }
    }

    method Answer(q: Request) returns (a: Reply)
      requires Sane() && q.InRange()
      modifies slots, `brk, `count, `mmapNext
      ensures Sane() && (old(Valid()) && !(q.Map? && q.fixed) ==> Valid())
      ensures HintOk() || (!old(HintOk()) && slots[..] == old(slots[..]))
      ensures Served(old(Now()), q, a, Now())
    {
      hide Disjoint, AllAligned, InWindow, MapDone, UnmapDone, Free, Hint, Recount;
      match q {
        case Break(addr, writable) =>
          var r := Brk(addr, writable);
          a := BreakAt(r);
        case Map(addr, len, prot, flags, fixed, argsOk, pagesOk, filled) =>
          var r := Mmap(addr, len, prot, flags, fixed, argsOk, pagesOk, filled);
          a := MapAnswer(r);
        case Unmap(addr, len) =>
          var ok := Munmap(addr, len);
          a := UnmapAnswer(ok);
      }
    }
  }

  // ----- what each call does -----

  datatype Space = Space(table: seq<Vma>, heapBase: int, brk: int, heapLimit: int)

  datatype Reply = BreakAt(brk: int) | MapAnswer(r: Outcome) | UnmapAnswer(ok: bool)

  /** Where the break ends up. */
  ghost function BreakAfter(vs: seq<Vma>, base: int, brk: int, limit: int, addr: int, writable: bool): int {
    var req := PageAlignUp(addr);
    var ok := addr != 0 && base <= req <= limit && (req > brk ==> Free(vs, brk, req)) && (req > base ==> writable);
    if ok then req else brk
  }

  /**
    A mapping call from table vs to us: where it maps and what it maps there, what a failure
    leaves, and why it fails.
   */
  ghost predicate MapDone(vs: seq<Vma>, us: seq<Vma>, brk: int, limit: int, m: Request, r: Outcome)
    requires m.Map?
  {
    var need := PageAlignUp(m.len);
    var prot, flags := m.prot % WORD32, m.flags % WORD32;
    && (r == BadArgument <==> m.len == 0 || !m.argsOk || need == 0 || (m.fixed && !Aligned(m.addr)))
    && (r.Mapped? ==> m.pagesOk && m.filled && Aligned(r.base) && (m.fixed ==> r.base == m.addr))
    && (r.Mapped? && !m.fixed ==>
          && Window(vs, brk, limit, need, r.base)
          && forall b :: Window(vs, brk, limit, need, b) ==> b <= r.base)
    && (r.Mapped? ==>
          if HEAP_BASE_ADDR <= r.base < limit then Remapped(vs, us, r.base, r.base + need, prot, flags)
          else Unmapped(vs, us, r.base, r.base + need))
    && (!r.Mapped? ==> us == vs || (m.fixed && Unmapped(vs, us, m.addr, m.addr + need)))
    && (r == Failed ==> !m.filled)
    && (r == NoMemory && m.pagesOk ==>
          || FirstFree(us) < 0
          || (if m.fixed then m.addr < USER_MIN_ADDR || m.addr + need > USER_MAX_ADDR
              else forall b :: !Window(vs, brk, limit, need, b)))
  }

  ghost predicate UnmapDone(vs: seq<Vma>, us: seq<Vma>, limit: int, addr: int, len: int, ok: bool) {
    var end := (addr + PageAlignUp(len)) % WORD64;
    && (ok <==> len == 0 || (Aligned(addr) && PageAlignUp(len) != 0))
    && if ok && len > 0 && HEAP_BASE_ADDR <= addr < limit && addr < end then Unmapped(vs, us, addr, end) else us == vs
  }

  ghost predicate Served(s: Space, q: Request, a: Reply, s': Space) {
    && s'.heapBase == s.heapBase && s'.heapLimit == s.heapLimit
    && match q
       case Break(addr, writable) =>
         && s'.table == s.table && a == BreakAt(s'.brk)
         && s'.brk == BreakAfter(s.table, s.heapBase, s.brk, s.heapLimit, addr, writable)
       case Map(_, _, _, _, _, _, _, _) =>
         s'.brk == s.brk && a.MapAnswer? && MapDone(s.table, s'.table, s.brk, s.heapLimit, q, a.r)
       case Unmap(addr, len) =>
         s'.brk == s.brk && a.UnmapAnswer? && UnmapDone(s.table, s'.table, s.heapLimit, addr, len, a.ok)
  }

  datatype Request =
    | Break(addr: int, writable: bool)
    | Map(addr: int, len: int, prot: int, flags: int, fixed: bool, argsOk: bool, pagesOk: bool, filled: bool)
    | Unmap(addr: int, len: int)
  {
    predicate InRange() { 0 <= addr < WORD64 && (!Break? ==> 0 <= len < WORD64) }
  }

  /** What a removal, whether or not it changed anything, does to the address map. */
  lemma AfterRemoval(vs: seq<Vma>, ws: seq<Vma>, lo: int, hi: int, b: int, c: int)
    requires Disjoint(vs) && AllAligned(vs) && Aligned(lo) && Aligned(hi) && lo < hi
    requires ws == if Free(vs, lo, hi) then vs else Removed(vs, lo, hi)
    ensures Disjoint(ws) && AllAligned(ws) && Free(ws, lo, hi) && |ws| == |vs|
    ensures Unmapped(vs, ws, lo, hi)
    ensures InWindow(vs, b, c) ==> InWindow(ws, b, c)
  {
    if Free(vs, lo, hi) { RemovedNothing(vs, lo, hi); }
    hide Removed;
    RemovedDisjoint(vs, lo, hi);
    RemovedAligned(vs, lo, hi);
    forall a, p, f
      ensures Maps(ws, a, p, f) <==> Maps(vs, a, p, f) && !(lo <= a < hi) && !Lost(vs, lo, hi, a)
    {
      RemovedMaps(vs, lo, hi, a, p, f);
    }
    forall i | 0 <= i < |ws| && ws[i].Used()
      ensures InWindow(vs, b, c) ==> b <= ws[i].start && ws[i].end <= c
    {
      RemovedWithin(vs, lo, hi, i);
    }
  }

  /** Recording a freed range maps exactly that range anew. */
  lemma AfterRecord(vs: seq<Vma>, ws: seq<Vma>, lo: int, hi: int, prot: int, flags: int, b: int, c: int)
    requires Disjoint(ws) && AllAligned(ws) && Aligned(lo) && Aligned(hi) && lo < hi
    requires Free(ws, lo, hi) && FirstFree(ws) >= 0 && Unmapped(vs, ws, lo, hi)
    ensures var us := ws[FirstFree(ws) := Vma(lo, hi, prot, flags)];
            && Disjoint(us) && AllAligned(us) && Remapped(vs, us, lo, hi, prot, flags)
            && (InWindow(ws, b, c) && b <= lo && hi <= c ==> InWindow(us, b, c))
  {
    var s := FirstFree(ws);
    var us := ws[s := Vma(lo, hi, prot, flags)];
    forall a, p, f
      ensures Maps(us, a, p, f) <==> if lo <= a < hi then p == prot && f == flags else Maps(ws, a, p, f)
    {
      if lo <= a < hi && p == prot && f == flags { assert us[s].Covers(a); }
      if !(lo <= a < hi) && Maps(ws, a, p, f) {
        var i :| 0 <= i < |ws| && ws[i].Covers(a) && ws[i].prot == p && ws[i].flags == f;
        assert us[i] == ws[i];
      }
    }
  }

  /** The cached count is the number of mappings. */
  lemma {:induction false} RecountIs(vs: seq<Vma>)
    ensures Recount(vs) == |set i | 0 <= i < |vs| && vs[i].Used()|
  {
    var them := set i | 0 <= i < |vs| && vs[i].Used();
    if vs == [] {
      assert them == {};
    } else {
      var init := vs[..|vs| - 1];
      RecountIs(init);
      var before := set i | 0 <= i < |init| && init[i].Used();
      assert them == before + if vs[|init|].Used() then {|init|} else {};
    }
  }

  lemma {:induction false} NothingCounted(vs: seq<Vma>)
    requires forall i :: 0 <= i < |vs| ==> !vs[i].Used()
    ensures Recount(vs) == 0
  {
    if vs != [] { NothingCounted(vs[..|vs| - 1]); }
  }

  lemma AlignUpFacts(len: int)
    requires 0 <= len < WORD64
    ensures 0 <= PageAlignUp(len) < WORD64 && Aligned(PageAlignUp(len))
  {
  }

  // ----- the calls in terms of the lengths and addresses asked for -----

  /** need is the whole pages that hold len bytes. */
  ghost predicate WholePages(len: int, need: int) {
    Aligned(need) && len <= need < len + PAGE
  }

  /** Rounding up gives whole pages, except that the last page of the 64-bit range wraps to nothing. */
  lemma AlignUpIs(v: int)
    requires 0 <= v < WORD64
    ensures if v <= WORD64 - PAGE then WholePages(v, PageAlignUp(v)) else PageAlignUp(v) == 0
  {
    if v <= WORD64 - PAGE {
      assert (v + PAGE - 1) % WORD64 == v + PAGE - 1;
    } else {
      assert (v + PAGE - 1) % WORD64 == v + PAGE - 1 - WORD64;
    }
  }

  lemma OneRounding(len: int, a: int, b: int)
    requires WholePages(len, a) && WholePages(len, b)
    ensures a == b
  {
    assert a == PAGE * (a / PAGE) && b == PAGE * (b / PAGE);
  }

  ghost predicate Mapped(vs: seq<Vma>, x: int) {
    exists p, f :: Maps(vs, x, p, f)
  }

  /** A request for len bytes is refused outright exactly for these reasons. */
  lemma MapRefused(s: Space, m: Request, a: Reply, s': Space)
    requires m.Map? && m.InRange() && Served(s, m, a, s')
    ensures a.r == BadArgument
            <==> m.len == 0 || m.len > WORD64 - PAGE || !m.argsOk || (m.fixed && !Aligned(m.addr))
  {
    hide PageAlignUp, Window, Remapped, Unmapped;
    AlignUpIs(m.len);
  }

  /**
    A mapping in the heap window covers every byte asked for with the rights asked for, and
    less than a page more. One that is not fixed takes no address away from any other mapping.
   */
  lemma MapCovers(s: Space, m: Request, a: Reply, s': Space)
    requires m.Map? && m.InRange() && Served(s, m, a, s')
    requires a.r.Mapped? && HEAP_BASE_ADDR <= a.r.base < s.heapLimit
    ensures var b := a.r.base;
            && (forall x :: b <= x < b + m.len ==> Maps(s'.table, x, m.prot % WORD32, m.flags % WORD32))
            && (forall x :: Mapped(s'.table, x) && !Mapped(s.table, x) ==> b <= x < b + m.len + PAGE - 1)
            && (!m.fixed ==> forall x :: b <= x < b + m.len ==> !Mapped(s.table, x))
            && (!m.fixed ==> forall x, p, f :: Maps(s.table, x, p, f) ==> Maps(s'.table, x, p, f))
  {
    hide PageAlignUp, Lost, Maps;
    MapRefused(s, m, a, s');
    AlignUpIs(m.len);
    var b, need := a.r.base, PageAlignUp(m.len);
    if !m.fixed {
      forall x, p, f | Maps(s.table, x, p, f) ensures !(b <= x < b + need) && !Lost(s.table, b, b + need, x) {
        FreeKeeps(s.table, b, b + need, x, p, f);
      }
    }
  }

  lemma FreeKeeps(vs: seq<Vma>, lo: int, hi: int, x: int, p: int, f: int)
    requires Free(vs, lo, hi) && lo < hi && Maps(vs, x, p, f)
    ensures !(lo <= x < hi) && !Lost(vs, lo, hi, x)
  {
    var i :| 0 <= i < |vs| && vs[i].Covers(x) && vs[i].prot == p && vs[i].flags == f;
    assert vs[i].Used() && !vs[i].Meets(lo, hi);
  }

  /**
    Exactly when a successful munmap leaves nothing of [addr, addr + len) mapped: it starts in
    the heap window and does not run past the end of the address range, or nothing was mapped.
   */
  lemma UnmapClearsIff(s: Space, addr: int, len: int, a: Reply, s': Space)
    requires Unmap(addr, len).InRange() && Served(s, Unmap(addr, len), a, s') && 0 <= s.heapLimit && a.ok
    ensures (forall x :: addr <= x < addr + len ==> !Mapped(s'.table, x))
            <==> || (HEAP_BASE_ADDR <= addr < s.heapLimit && addr + len <= WORD64 - PAGE)
                 || (forall x :: addr <= x < addr + len ==> !Mapped(s.table, x))
  {
    hide PageAlignUp, Lost, Maps, Mapped;
    if len > 0 {
      AlignUpIs(len);
      AlignUpFacts(len);
      UnmapEnd(addr, len, PageAlignUp(len));
      if HEAP_BASE_ADDR <= addr < s.heapLimit && addr + len <= WORD64 - PAGE {
        forall x | addr <= x < addr + len ensures !Mapped(s'.table, x) {
          if Mapped(s'.table, x) { StillMapped(s.table, s'.table, addr, addr + PageAlignUp(len), x); }
        }
      }
    }
  }

  /** It happens: unmapping two pages, the first of them just below the heap window, leaves the second mapped. */
  method UnmapMisses() returns (space: AddressSpace, ok: bool)
    ensures ok && Mapped(space.slots[..], HEAP_BASE_ADDR)
  {
    hide PageAlignUp, Maps, Removed, Window;
    space := new AddressSpace(1, USER_MAX_ADDR);
    ghost var clean := space.slots[..];
    var r := space.Mmap(HEAP_BASE_ADDR, PAGE, 3, 0, true, true, true, true);
    AlignUpIs(PAGE);
    OneRounding(PAGE, PageAlignUp(PAGE), PAGE);
    if !r.Mapped? { EmptyHasRoom(clean, space.slots[..], HEAP_BASE_ADDR, HEAP_BASE_ADDR + PAGE); }
    assert Maps(space.slots[..], HEAP_BASE_ADDR, 3, 0);
    AlignUpIs(2 * PAGE);
    ok := space.Munmap(HEAP_BASE_ADDR - PAGE, 2 * PAGE);
  }

  lemma EmptyHasRoom(vs: seq<Vma>, us: seq<Vma>, lo: int, hi: int)
    requires |us| > 0 && (us == vs || Unmapped(vs, us, lo, hi)) && forall a, p, f :: !Maps(vs, a, p, f)
    ensures FirstFree(us) >= 0
  {
    assert us[0].Used() ==> Maps(us, us[0].start, us[0].prot, us[0].flags);
  }

  lemma StillMapped(vs: seq<Vma>, us: seq<Vma>, lo: int, hi: int, x: int)
    requires Unmapped(vs, us, lo, hi) && Mapped(us, x)
    ensures Mapped(vs, x) && !(lo <= x < hi)
  {
  }

  lemma UnmapEnd(addr: int, len: int, need: int)
    requires 0 <= addr < WORD64 && Aligned(addr) && 0 < len && WholePages(len, need) && need < WORD64
    ensures addr < (addr + need) % WORD64 <==> addr + len <= WORD64 - PAGE
    ensures addr + len <= WORD64 - PAGE ==> (addr + need) % WORD64 == addr + need
  {
    assert addr == PAGE * (addr / PAGE) && need == PAGE * (need / PAGE);
    if addr + need < WORD64 {
      assert (addr + need) % WORD64 == addr + need;
    } else {
      assert (addr + need) % WORD64 == addr + need - WORD64;
    }
  }

  /** A break that can move there ends at the first page boundary at or above the address; else it stays. */
  lemma BreakMoves(s: Space, addr: int, writable: bool, a: Reply, s': Space)
    requires Break(addr, writable).InRange() && Served(s, Break(addr, writable), a, s')
    requires 0 < s.heapBase && s.heapLimit < WORD64
    ensures (s'.brk == s.brk && forall req :: !CanMove(s, addr, writable, req)) || CanMove(s, addr, writable, s'.brk)
  {
    hide PageAlignUp, WholePages;
    AlignUpIs(addr);
    forall req | CanMove(s, addr, writable, req) ensures req == PageAlignUp(addr) {
      assert addr <= WORD64 - PAGE by { BelowTop(addr, req); }
      OneRounding(addr, req, PageAlignUp(addr));
    }
  }

  lemma BelowTop(addr: int, req: int)
    requires WholePages(addr, req) && req < WORD64
    ensures addr <= WORD64 - PAGE
  {
    assert req == PAGE * (req / PAGE);
  }

  /** The break may go to req. */
  ghost predicate CanMove(s: Space, addr: int, writable: bool, req: int) {
    && addr > 0 && WholePages(addr, req) && s.heapBase <= req <= s.heapLimit
    && (req > s.brk ==> Free(s.table, s.brk, req)) && (req > s.heapBase ==> writable)
  }

  /** The end of a range, in 64-bit arithmetic: below its start exactly when it wrapped around. */
  lemma EndFacts(base: int, need: int)
    requires 0 <= base < WORD64 && 0 <= need < WORD64
    ensures var end := (base + need) % WORD64;
            && (end == base + need || (end < base && base + need >= WORD64))
            && (Aligned(base) && Aligned(need) ==> Aligned(base + need))
  {
  }

  lemma WindowFacts(vs: seq<Vma>, floor: int, top: int, need: int, b: int)
    requires Window(vs, floor, top, need, b)
    ensures Aligned(b) && floor <= b && b + need <= top && Free(vs, b, b + need)
  {
  }
}
