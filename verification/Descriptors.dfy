/**
  The per-process descriptor tables, updated in place by the descriptor system calls. A call
  that returns leaves exact object counts (Balanced) and held file references (FilesHeld).
 */
module Descriptors {
  import opened DescriptorCounts

  datatype Result = Ok(fd: int) | Pair(rfd: int, wfd: int) | BadFd | NoMem | Invalid | Fault | NoEntry | NoDevice

  /** The controlling terminal of a process. */
  datatype Tty = NoTty | ConsoleTty | PtyTty(id: int)
  {
    predicate Gone(objs: seq<seq<Obj>>) {
      NoTty? || (PtyTty? && (!InTable(objs, PtySlave, id) || !At(objs, PtySlave, id).used))
    }
    function Kind(): Kind { if PtyTty? then PtySlave else Console }
    function Object(): int { if PtyTty? then id else -1 }
  }

  /** The first unused entry from position i on, or -1. */
  function FirstUnused(row: seq<Fd>, i: nat): (n: int)
    ensures n == -1 || (i <= n < |row| && !row[n].used && forall j :: i <= j < n ==> row[j].used)
    ensures n == -1 ==> forall j :: i <= j < |row| ==> row[j].used
    decreases |row| - i
  {
    if i >= |row| then -1 else if !row[i].used then i else FirstUnused(row, i + 1)
  }

  /** The first unused object of a table, or -1. */
  function FirstIdle(os: seq<Obj>): (n: int)
    ensures n == -1 || (0 <= n < |os| && !os[n].used && forall j :: 0 <= j < n ==> os[j].used)
    ensures n == -1 ==> forall j :: 0 <= j < |os| ==> os[j].used
  {
    if os == [] then -1 else if !os[0].used then 0 else var n := FirstIdle(os[1..]); if n < 0 then -1 else n + 1
  }

  /** Every entry before the first unused one is used, so a second search starts after it. */
  lemma {:induction false} SkipUsed(row: seq<Fd>, n: int)
    requires n == FirstUnused(row, 0) && n >= 0
    ensures FirstUnused(row[n := TAKEN], 0) == FirstUnused(row, n + 1)
  {
    var row' := row[n := TAKEN];
    var m := FirstUnused(row, n + 1);
    var m' := FirstUnused(row', 0);
    assert m' >= 0 ==> m' > n && !row[m'].used;
    assert m >= 0 ==> !row'[m].used;
  }

  /** Clearing two entries of fds2, which differs from fds only there, gives fds back. */
  lemma PutBothBack(fds: seq<seq<Fd>>, p: int, i: int, j: int, fds2: seq<seq<Fd>>)
    requires 0 <= p < |fds| && 0 <= i < |fds[p]| && 0 <= j < |fds[p]| && i != j
    requires fds[p][i] == NO_FD && fds[p][j] == NO_FD
    requires exists e, w :: fds2 == Put(Put(fds, p, i, e), p, j, w)
    ensures |fds2| == |fds| && |fds2[p]| == |fds[p]|
    ensures Put(Put(fds2, p, i, NO_FD), p, j, NO_FD) == fds
  {
    assert fds2[p][i := NO_FD][j := NO_FD] == fds[p];
    assert Put(Put(fds2, p, i, NO_FD), p, j, NO_FD) == fds;
  }

  ghost predicate Rows(pids: seq<int>, fds: seq<seq<Fd>>, width: nat) {
    && |pids| == |fds|
    && (forall p :: 0 <= p < |fds| ==> |fds[p]| == width && pids[p] >= 0)
    && (forall p, i :: 0 <= p < |fds| && 0 <= i < width && pids[p] == 0 ==> !fds[p][i].used)
    && (forall p, i :: 0 <= p < |fds| && 0 <= i < width && !fds[p][i].used ==> fds[p][i] == NO_FD)
    && (forall p, q :: 0 <= p < q < |fds| && pids[p] == pids[q] ==> pids[p] == 0)
  }

  lemma RowsPut(pids: seq<int>, fds: seq<seq<Fd>>, width: nat, p: int, i: int, e: Fd)
    requires Rows(pids, fds, width) && 0 <= p < |fds| && 0 <= i < width && pids[p] > 0 && (e.used || e == NO_FD)
    ensures |fds[p]| == width && Rows(pids, Put(fds, p, i, e), width)
  {
  }

  lemma RowsFacts(pids: seq<int>, fds: seq<seq<Fd>>, width: nat, p: int, i: int)
    requires Rows(pids, fds, width) && 0 <= p < |fds| && 0 <= i < width
    ensures |pids| == |fds| && |fds[p]| == width && (!fds[p][i].used ==> fds[p][i] == NO_FD)
  {
  }

  /** Fewer than two entries of the row are free. */
  ghost predicate LacksTwo(row: seq<Fd>) {
    FirstUnused(row, 0) < 0 || FirstUnused(row, FirstUnused(row, 0) + 1) < 0
  }

  ghost predicate NoneFree(files: seq<FileRef>) {
    forall f :: 0 < f < |files| ==> files[f].used
  }

  ghost predicate AtMostOneFree(files: seq<FileRef>) {
    forall f, g :: 0 < f < |files| && 0 < g < |files| && !files[f].used && !files[g].used ==> f == g
  }

  // ----- the references standard descriptors take -----

  /** How many of the first n entries are free. */
  function Missing(row: seq<Fd>, n: nat): nat
    requires n <= |row|
  {
    if n == 0 then 0 else Missing(row, n - 1) + if row[n - 1].used then 0 else 1
  }

  lemma MissingStep(row: seq<Fd>, i: nat)
    requires i < 3 <= |row|
    ensures Missing(row, i) <= i && Missing(row, i + 1) == Missing(row, i) + (if row[i].used then 0 else 1)
    ensures !row[i].used ==> Missing(row, i) < Missing(row, 3)
    ensures Missing(row, 3) == 3 ==> Missing(row, i) == i && !row[0].used && !row[1].used && !row[2].used
  {
    assert Missing(row, 3) == Missing(row, 2) + if row[2].used then 0 else 1;
    assert Missing(row, 2) == Missing(row, 1) + if row[1].used then 0 else 1;
    assert Missing(row, 1) == Missing(row, 0) + if row[0].used then 0 else 1;
  }

  lemma NoneMissing(row: seq<Fd>)
    requires |row| >= 3
    ensures Missing(row, 0) == 0
    ensures !row[0].used && !row[1].used && !row[2].used ==> Missing(row, 3) == 3
  {
    assert Missing(row, 3) == Missing(row, 2) + if row[2].used then 0 else 1;
    assert Missing(row, 2) == Missing(row, 1) + if row[1].used then 0 else 1;
    assert Missing(row, 1) == Missing(row, 0) + if row[0].used then 0 else 1;
  }

  predicate Free(files: seq<FileRef>, f: int) { 0 < f < |files| && !files[f].used }

  /** The n lowest free references, or all of them if there are fewer. */
  ghost predicate TookLowest(files: seq<FileRef>, taken: seq<int>, n: nat) {
    && |taken| <= n
    && (forall i, j :: 0 <= i < j < |taken| ==> taken[i] < taken[j])
    && (forall i :: 0 <= i < |taken| ==> Free(files, taken[i]))
    && (forall f, i :: Free(files, f) && f !in taken && 0 <= i < |taken| ==> taken[i] < f)
    && (|taken| < n ==> forall f :: Free(files, f) ==> f in taken)
  }

  ghost function FreeRefs(files: seq<FileRef>): set<int> {
    set f | 0 < f < |files| && !files[f].used
  }

  lemma {:induction false} IncreasingCount(q: seq<int>)
    requires forall i, j :: 0 <= i < j < |q| ==> q[i] < q[j]
    ensures |set x | x in q| == |q|
  {
    if q != [] {
      var init, last := q[..|q| - 1], q[|q| - 1];
      IncreasingCount(init);
      assert (set x | x in q) == (set x | x in init) + {last};
      assert last !in init;
    }
  }

  /** How many references that is. */
  lemma TookCount(files: seq<FileRef>, taken: seq<int>, n: nat)
    requires TookLowest(files, taken, n)
    ensures |taken| == if |FreeRefs(files)| < n then |FreeRefs(files)| else n
  {
    IncreasingCount(taken);
    var them := set x | x in taken;
    if |taken| < n {
      assert them == FreeRefs(files) by {
        forall f ensures f in them <==> f in FreeRefs(files) {
          if f in taken { var i :| 0 <= i < |taken| && taken[i] == f; assert Free(files, taken[i]); }
          if f in FreeRefs(files) { assert Free(files, f); }
        }
      }
    } else {
      assert them <= FreeRefs(files) by {
        forall f | f in them ensures f in FreeRefs(files) {
          var i :| 0 <= i < |taken| && taken[i] == f;
          assert Free(files, taken[i]);
        }
      }
      Subsets(them, FreeRefs(files));
    }
  }

  lemma Subsets(a: set<int>, b: set<int>)
    requires a <= b
    ensures |a| <= |b|
  {
    assert b == a + (b - a);
  }

  /** files' is files with these references taken once. */
  ghost predicate Marked(files: seq<FileRef>, taken: seq<int>, files': seq<FileRef>) {
    && |files'| == |files|
    && forall f :: 0 <= f < |files| ==> files'[f] == if f in taken then FileRef(true, 1) else files[f]
  }

  lemma TookNothing(files: seq<FileRef>)
    ensures TookLowest(files, [], 0) && Marked(files, [], files)
  {
  }

  lemma TookMore(files: seq<FileRef>, taken: seq<int>, now: seq<FileRef>, f: int)
    requires TookLowest(files, taken, |taken|) && Marked(files, taken, now)
    requires Free(now, f) && forall g :: 0 < g < f ==> now[g].used
    ensures TookLowest(files, taken + [f], |taken| + 1)
    ensures Marked(files, taken + [f], now[f := FileRef(true, 1)])
  {
    assert Free(files, f) && f !in taken;
    assert forall g :: g in taken + [f] <==> g in taken || g == f;
    forall g | Free(files, g) && g !in taken + [f] ensures f < g {
      assert !now[g].used;
    }
  }

  lemma TookAll(files: seq<FileRef>, taken: seq<int>, now: seq<FileRef>, n: nat)
    requires TookLowest(files, taken, |taken|) && Marked(files, taken, now) && |taken| <= n
    requires forall g :: 0 < g < |now| ==> now[g].used
    ensures TookLowest(files, taken, n)
  {
    forall f | Free(files, f) ensures f in taken {
      assert now[f].used;
    }
  }

  /** The first entries of the row are consoles with these references, the rest of the first n are free. */
  ghost predicate Filled(row: seq<Fd>, taken: seq<int>, n: nat) {
    && n <= |row| && |taken| <= |row|
    && forall i :: 0 <= i < n ==>
         row[i] == if i < |taken| then Fd(true, Console, taken[i], -1, false) else NO_FD
  }

  lemma FilledNone(row: seq<Fd>)
    ensures Filled(row, [], 0)
  {
  }

  lemma FilledMore(row: seq<Fd>, taken: seq<int>, f: int)
    requires Filled(row, taken, |taken|) && |taken| < |row|
    ensures Filled(row[|taken| := Fd(true, Console, f, -1, false)], taken + [f], |taken| + 1)
  {
  }

  /** The entries behind those filled are free. */
  lemma FilledRest(row: seq<Fd>, taken: seq<int>, n: nat)
    requires Filled(row, taken, |taken|) && |taken| <= n <= |row|
    requires forall j :: |taken| <= j < n ==> row[j] == NO_FD
    ensures Filled(row, taken, n)
  {
  }

  lemma FilledFirst(row: seq<Fd>, taken: seq<int>)
    requires Filled(row, taken, 3) && |taken| <= 3
    requires forall j :: 3 <= j < |row| ==> row[j] == NO_FD
    ensures Filled(row, taken, |row|)
  {
  }

  lemma TookFew(files: seq<FileRef>, taken: seq<int>, n: nat)
    requires TookLowest(files, taken, n)
    ensures |taken| <= n
  {
  }

  /** The forgotten references after clearing the first n entries of a row. */
  function ForgettingRow(forgotten: seq<nat>, row: seq<Fd>, n: nat): seq<nat>
    requires n <= |row|
  {
    if n == 0 then forgotten else Forgetting(ForgettingRow(forgotten, row, n - 1), row[n - 1])
  }

  /** Exactly these references were forgotten once more. */
  ghost predicate Lost(forgotten: seq<nat>, taken: seq<int>, forgotten': seq<nat>) {
    && |forgotten'| == |forgotten|
    && forall f :: 0 <= f < |forgotten| ==> forgotten'[f] == forgotten[f] + One(f in taken)
  }

  /** The lowest free reference was taken and forgotten. */
  ghost predicate LostOne(files: seq<FileRef>, forgotten: seq<nat>, files': seq<FileRef>, forgotten': seq<nat>) {
    exists f :: TookLowest(files, [f], 1) && Marked(files, [f], files') && Lost(forgotten, [f], forgotten')
  }

  lemma {:induction false} ForgettingFilled(forgotten: seq<nat>, row: seq<Fd>, taken: seq<int>, n: nat)
    requires n <= |row| && Filled(row, taken, |row|)
    requires forall i, j :: 0 <= i < j < |taken| ==> taken[i] < taken[j]
    requires forall i :: 0 <= i < |taken| ==> 0 < taken[i] < |forgotten|
    ensures Lost(forgotten, taken[..if n < |taken| then n else |taken|], ForgettingRow(forgotten, row, n))
  {
    if n > 0 {
      ForgettingFilled(forgotten, row, taken, n - 1);
      if n <= |taken| {
        var before := taken[..n - 1];
        assert taken[..n] == before + [taken[n - 1]];
        assert taken[n - 1] !in before;
      }
    }
  }

  /** Clearing a freshly filled row forgets the references it took. */
  lemma FilledLost(forgotten: seq<nat>, row: seq<Fd>, taken: seq<int>, files: seq<FileRef>, files': seq<FileRef>)
    requires Filled(row, taken, |row|) && TookLowest(files, taken, 3) && Marked(files, taken, files')
    requires |forgotten| == |files'|
    ensures Lost(forgotten, taken, ForgettingRow(forgotten, row, |row|))
  {
    hide ForgettingRow;
    assert forall i :: 0 <= i < |taken| ==> Free(files, taken[i]);
    ForgettingFilled(forgotten, row, taken, |row|);
    assert taken[..|taken|] == taken;
  }

  lemma LoseLowest(files: seq<FileRef>, forgotten: seq<nat>, f: int)
    requires Free(files, f) && |forgotten| == |files| && forall g :: 0 < g < f ==> files[g].used
    ensures LostOne(files, forgotten, files[f := FileRef(true, 1)], forgotten[f := forgotten[f] + 1])
  {
    assert TookLowest(files, [f], 1);
  }

  lemma ConsoleHasNoObject()
    ensures Class(Console) < 0
  {
  }

  /** What fd_alloc leaves in the entry it found. */
  const TAKEN := Fd(true, NoKind, 0, 0, false)

  class FdTables {
    var pids: seq<int>
    var fds: seq<seq<Fd>>
    var files: seq<FileRef>
    var objs: seq<seq<Obj>>
    const width: nat
    /** How often each file reference was forgotten: its entry cleared without giving it back. */
    ghost var forgotten: seq<nat>

    ghost predicate Valid()
      reads this
    {
      && width >= 3
      && Rows(pids, fds, width)
      && Balanced(fds, objs)
      && FilesHeld(fds, files, forgotten)
    }

    ghost predicate Table(p: int)
      reads this
    {
      0 <= p < |fds| && |pids| == |fds| && pids[p] > 0 && |fds[p]| == width
    }

    constructor (procs: nat, w: nat, refs: nat, sizes: seq<nat>)
      requires w >= 3 && refs > 0 && |sizes| == CLASSES
      ensures Valid()
      ensures |pids| == procs && forall p :: 0 <= p < procs ==> pids[p] == 0
      ensures |files| == refs && forall f :: 0 <= f < refs ==> !files[f].used
      ensures |forgotten| == refs && forall f :: 0 <= f < refs ==> forgotten[f] == 0
    {
      width := w;
      pids := seq(procs, _ => 0);
      fds := seq(procs, _ => seq(w, _ => NO_FD));
      files := seq(refs, _ => FileRef(false, 0));
      objs := seq(CLASSES, c requires 0 <= c < |sizes| => seq(sizes[c], _ => NO_OBJ));
      forgotten := seq(refs, _ => 0);
      new;
      forall k, id | InTable(objs, k, id) ensures Count(fds, NamesObj(k, id)) == 0 {
        CountZero(fds, NamesObj(k, id));
      }
      forall f | 0 < f < |files| ensures Count(fds, NamesFile(f)) == 0 {
        CountZero(fds, NamesFile(f));
      }
    }

    // ----- allocation -----

    method FileRefAlloc() returns (f: int)
      requires |files| > 0
      modifies `files
      ensures f == 0 ==> files == old(files) && forall g :: 0 < g < |files| ==> files[g].used
      ensures f != 0 ==> 0 < f < |old(files)| && !old(files)[f].used && files == old(files)[f := FileRef(true, 1)]
      ensures f != 0 ==> forall g :: 0 < g < f ==> old(files)[g].used
    {
      for i := 1 to |files|
        invariant files == old(files) && forall g :: 0 < g < i ==> files[g].used
      {
        if !files[i].used {
          files := files[i := FileRef(true, 1)];
          return i;
        }
      }
      return 0;
    }

    /** fd_alloc: the entry found is marked used at once. */
    method FdAlloc(p: int, min: int) returns (i: int)
      requires Table(p)
      modifies `fds
      ensures i == FirstUnused(old(fds)[p], if min < 0 then 0 else min)
      ensures fds == if i < 0 then old(fds) else Put(old(fds), p, i, TAKEN)
    {
      i := if min < 0 then 0 else min;
      while i < width
        invariant 0 <= i
        invariant FirstUnused(fds[p], if min < 0 then 0 else min) == FirstUnused(fds[p], i)
        invariant fds == old(fds)
        decreases width - i
      {
        if !fds[p][i].used {
          fds := Put(fds, p, i, TAKEN);
          return;
        }
        i := i + 1;
      }
      return -1;
    }

    /** pipe_alloc, pty_alloc, eventfd_alloc_obj and their kin: the slot search. */
    method ObjSearch(c: int) returns (n: int)
      requires |objs| == CLASSES && 0 <= c < CLASSES
      ensures n == FirstIdle(objs[c])
    {
      assert objs[c][0..] == objs[c];
      for i := 0 to |objs[c]|
        invariant FirstIdle(objs[c]) == (if FirstIdle(objs[c][i..]) < 0 then -1 else i + FirstIdle(objs[c][i..]))
      {
        assert objs[c][i..][1..] == objs[c][i + 1..];
        if !objs[c][i].used { return i; }
      }
      return -1;
    }

    /** fd_proc_for_pid without creation. */
    method FindTable(pid: int) returns (p: int)
      requires Valid() && pid > 0
      ensures p == -1 ==> pid !in pids
      ensures p != -1 ==> Table(p) && pids[p] == pid
    {
      for i := 0 to |pids|
        invariant forall j :: 0 <= j < i ==> pids[j] != pid
      {
        if pids[i] == pid { return i; }
      }
      return -1;
    }

    /** fd_ensure_stdio: console entries for the unused ones of descriptors 0 to 2, with the lowest free references. */
    method EnsureStdio(p: int) returns (ghost taken: seq<int>)
      requires Valid() && Table(p)
      modifies `fds, `files
      ensures Valid() && Table(p)
      ensures forall q :: 0 <= q < |fds| && q != p ==> fds[q] == old(fds)[q]
      ensures |fds| == |old(fds)|
      ensures forall i :: 0 <= i < width && (i >= 3 || old(fds)[p][i].used) ==> fds[p][i] == old(fds)[p][i]
      ensures forall i :: 0 <= i < 3 && !old(fds)[p][i].used ==>
                || fds[p][i] == old(fds)[p][i]
                || (fds[p][i].used && fds[p][i].kind == Console && fds[p][i].obj == -1 && !fds[p][i].cloexec)
      ensures forall i :: 0 <= i < 3 && !fds[p][i].used ==> NoneFree(files)
      ensures TookLowest(old(files), taken, Missing(old(fds)[p], 3)) && Marked(old(files), taken, files)
      ensures Missing(old(fds)[p], 3) == 3 ==> Filled(fds[p], taken, 3)
    {
      hide Balanced, FilesHeld, TookLowest, Marked, Filled, Missing;
      taken := [];
      TookNothing(files);
      NoneMissing(fds[p]);
      FilledNone(fds[p]);
      for i := 0 to 3
        invariant Valid() && Table(p) && |fds| == |old(fds)|
        invariant forall q :: 0 <= q < |fds| && q != p ==> fds[q] == old(fds)[q]
        invariant forall j :: 0 <= j < width && (j >= i || old(fds)[p][j].used) ==> fds[p][j] == old(fds)[p][j]
        invariant forall j :: 0 <= j < i && !old(fds)[p][j].used ==>
                    fds[p][j].used && fds[p][j].kind == Console && fds[p][j].obj == -1 && !fds[p][j].cloexec
        invariant |taken| == Missing(old(fds)[p], i)
        invariant TookLowest(old(files), taken, |taken|) && Marked(old(files), taken, files)
        invariant |taken| == i ==> Filled(fds[p], taken, i)
      {
        MissingStep(old(fds)[p], i);
        ghost var before, row := files, fds[p];
        if !fds[p][i].used {
          var f := FillOne(p, i);
          if f == 0 {
            TookAll(old(files), taken, files, Missing(old(fds)[p], 3));
            if Missing(old(fds)[p], 3) == 3 {
              assert forall j :: i <= j < 3 ==> fds[p][j] == NO_FD;
              FilledRest(fds[p], taken, 3);
            }
            return;
          }
          TookMore(old(files), taken, before, f);
          if |taken| == i { FilledMore(row, taken, f); }
          taken := taken + [f];
        }
      }
    }

    /** One console entry, with the lowest free reference; 0 when there is none. */
    method FillOne(p: int, i: int) returns (f: int)
      requires Valid() && Table(p) && 0 <= i < width && !fds[p][i].used
      modifies `fds, `files
      ensures Valid() && Table(p)
      ensures f == 0 ==> fds == old(fds) && files == old(files) && NoneFree(files)
      ensures f != 0 ==> Free(old(files), f) && files == old(files)[f := FileRef(true, 1)]
      ensures f != 0 ==> forall g :: 0 < g < f ==> old(files)[g].used
      ensures f != 0 ==> fds == Put(old(fds), p, i, Fd(true, Console, f, -1, false))
    {
      hide Balanced, FilesHeld;
      UnusedFilesFree(fds, files, forgotten);
      ghost var before := files;
      f := FileRefAlloc();
      if f != 0 {
        assert files[f := FileRef(false, 0)] == before;
        StorePlain(p, i, Fd(true, Console, f, -1, false));
      }
    }

    /** Store an entry that names no object and whose file reference was just allocated. */
    method StorePlain(p: int, i: int, e: Fd)
      requires width >= 3 && Rows(pids, fds, width) && Balanced(fds, objs) && Table(p) && 0 <= i < width
      requires !fds[p][i].used && e.used && Class(e.kind) < 0
      requires 0 < e.fileRef < |files|
      requires FilesHeld(fds, files[e.fileRef := FileRef(false, 0)], forgotten) && files[e.fileRef] == FileRef(true, 1)
      modifies `fds
      ensures Valid() && Table(p) && fds == Put(old(fds), p, i, e)
    {
      hide Balanced, FilesHeld, Class;
      BalancedPlain(fds, objs, p, i, e);
      StoreFiles(fds, files[e.fileRef := FileRef(false, 0)], forgotten, p, i, e);
      assert Gotten(files[e.fileRef := FileRef(false, 0)], e.fileRef) == files;
      fds := Put(fds, p, i, e);
    }

    /** fd_proc_for_pid with creation, then fd_ensure_stdio: -1 when no table is free. */
    method WithStdio(pid: int) returns (p: int, ghost taken: seq<int>)
      requires Valid() && pid > 0
      modifies `pids, `fds, `files
      ensures Valid() && |pids| == |old(pids)| && |fds| == |old(fds)|
      ensures p == -1 ==> pids == old(pids) && fds == old(fds) && files == old(files) && pid !in pids && 0 !in pids
      ensures p != -1 ==> Table(p) && pids == old(pids)[p := pid]
      ensures p != -1 ==> old(pids)[p] == pid || (old(pids)[p] == 0 && pid !in old(pids))
      ensures p != -1 ==> forall q :: 0 <= q < |fds| && q != p ==> fds[q] == old(fds)[q]
      ensures p != -1 ==> forall i :: 0 <= i < width && (i >= 3 || old(fds)[p][i].used) ==> fds[p][i] == old(fds)[p][i]
      ensures p != -1 && old(pids)[p] == 0 ==>
                forall i :: 0 <= i < width && fds[p][i].used ==> fds[p][i].kind == Console
      ensures p != -1 ==> forall i :: 0 <= i < 3 && !fds[p][i].used ==> NoneFree(files)
      ensures p != -1 ==> forall i :: 0 <= i < 3 && fds[p][i].used && !old(fds)[p][i].used ==>
                fds[p][i].kind == Console && fds[p][i].obj == -1 && !fds[p][i].cloexec
      ensures p != -1 && old(pids)[p] == 0 ==>
                TookLowest(old(files), taken, 3) && Marked(old(files), taken, files) && Filled(fds[p], taken, width)
    {
      hide Balanced, FilesHeld, TookLowest, Marked;
      taken := [];
      p := FindTable(pid);
      if p < 0 {
        for i := 0 to |pids|
          invariant pids == old(pids) && fds == old(fds) && files == old(files)
          invariant forall j :: 0 <= j < i ==> pids[j] != 0
        {
          if pids[i] == 0 {
            p := i;
            break;
          }
        }
        if p < 0 { return; }
        pids := pids[p := pid];
      }
      NoneMissing(fds[p]);
      taken := EnsureStdio(p);
      if old(pids)[p] == 0 {
        assert forall i :: 0 <= i < width ==> old(fds)[p][i] == NO_FD;
        TookFew(old(files), taken, 3);
        FilledFirst(fds[p], taken);
      }
    }

    // ----- the calls -----

    /** do_sys_close on table p. */
    method Close(p: int, fd: int) returns (r: Result)
      requires Valid() && Table(p)
      modifies `fds, `files, `objs
      ensures Valid() && Table(p)
      ensures r == if 0 <= fd < width && old(fds)[p][fd].used then Ok(0) else BadFd
      ensures r == BadFd ==> fds == old(fds) && files == old(files) && objs == old(objs)
      ensures r == Ok(0) ==> fds == Put(old(fds), p, fd, NO_FD)
      ensures r == Ok(0) ==> var e := old(fds)[p][fd];
                             files == PutBack(old(files), e.fileRef) && objs == Dropped(old(objs), e.kind, e.obj)
    {
      hide Balanced, FilesHeld;
      if !(0 <= fd < width) || !fds[p][fd].used { return BadFd; }
      var e := fds[p][fd];
      ClearBalanced(fds, objs, p, fd);
      ClearFiles(fds, files, forgotten, p, fd);
      files := PutBack(files, e.fileRef);
      objs := Dropped(objs, e.kind, e.obj);
      fds := Put(fds, p, fd, NO_FD);
      return Ok(0);
    }

    /** Copy the used entry src of table q over the unused entry i of table p, with both counts raised. */
    method CopyEntry(p: int, i: int, q: int, src: int, cloexec: bool)
      requires Valid() && Table(p) && Table(q) && 0 <= i < width && 0 <= src < width
      requires !fds[p][i].used && fds[q][src].used
      modifies `fds, `files, `objs
      ensures Valid() && Table(p) && Table(q) && fds == Put(old(fds), p, i, old(fds)[q][src].(cloexec := cloexec))
    {
      hide FilesHeld, Balanced;
      var e := fds[q][src].(cloexec := cloexec);
      NamedFileIsUsed(fds, files, forgotten, q, src);
      if Class(e.kind) >= 0 { NamedIsUsed(fds, objs, q, src); }
      StoreFiles(fds, files, forgotten, p, i, e);
      StoreBalanced(fds, objs, p, i, e);
      files := Gotten(files, e.fileRef);
      objs := Added(objs, e.kind, e.obj);
      fds := Put(fds, p, i, e);
    }

    /** F_DUPFD and F_DUPFD_CLOEXEC: the lowest free descriptor from min on becomes a copy. */
    method Dup(p: int, fd: int, min: int, cloexec: bool) returns (r: Result)
      requires Valid() && Table(p)
      modifies `fds, `files, `objs
      ensures Valid() && Table(p)
      ensures r == if !(0 <= fd < width) || !old(fds)[p][fd].used then BadFd
                   else var n := FirstUnused(old(fds)[p], if min < 0 then 0 else min); if n < 0 then NoMem else Ok(n)
      ensures fds == if r.Ok? then Put(old(fds), p, r.fd, old(fds)[p][fd].(cloexec := cloexec)) else old(fds)
      ensures !r.Ok? ==> files == old(files) && objs == old(objs)
    {
      hide FilesHeld, Balanced;
      if !(0 <= fd < width) || !fds[p][fd].used { return BadFd; }
      var n := if min < 0 then 0 else min;
      while n < width && fds[p][n].used
        invariant 0 <= n
        invariant FirstUnused(fds[p], if min < 0 then 0 else min) == FirstUnused(fds[p], n)
        decreases width - n
      {
        n := n + 1;
      }
      if n >= width { return NoMem; }
      CopyEntry(p, n, p, fd, cloexec);
      return Ok(n);
    }

    /** do_sys_dup2: what newfd held is closed first. */
    method Dup2(p: int, oldfd: int, newfd: int) returns (r: Result)
      requires Valid() && Table(p)
      modifies `fds, `files, `objs
      ensures Valid() && Table(p)
      ensures r == if !(0 <= oldfd < width) || !old(fds)[p][oldfd].used || !(0 <= newfd < width) then BadFd
                   else Ok(newfd)
      ensures fds == if r.Ok? && oldfd != newfd then Put(old(fds), p, newfd, old(fds)[p][oldfd].(cloexec := false))
                     else old(fds)
    {
      hide FilesHeld, Balanced;
      if !(0 <= oldfd < width) || !fds[p][oldfd].used || !(0 <= newfd < width) { return BadFd; }
      if oldfd == newfd { return Ok(newfd); }
      PutTwice(fds, p, newfd, NO_FD, fds[p][oldfd].(cloexec := false));
      if fds[p][newfd].used { var _ := Close(p, newfd); }
      CopyEntry(p, newfd, p, oldfd, false);
      return Ok(newfd);
    }

    /** do_sys_dup3. */
    method Dup3(p: int, oldfd: int, newfd: int, cloexec: bool, otherFlags: bool) returns (r: Result)
      requires Valid() && Table(p)
      modifies `fds, `files, `objs
      ensures Valid() && Table(p)
      ensures r == if otherFlags || oldfd == newfd then Invalid
                   else if !(0 <= oldfd < width) || !old(fds)[p][oldfd].used || !(0 <= newfd < width) then BadFd
                   else Ok(newfd)
      ensures fds == if r.Ok? then Put(old(fds), p, newfd, old(fds)[p][oldfd].(cloexec := cloexec)) else old(fds)
    {
      hide FilesHeld, Balanced;
      if otherFlags || oldfd == newfd { return Invalid; }
      r := Dup2(p, oldfd, newfd);
      if r.Ok? && cloexec {
        PutTwice(old(fds), p, newfd, old(fds)[p][oldfd].(cloexec := false), old(fds)[p][oldfd].(cloexec := true));
        SetCloexec(p, newfd, true);
      }
    }

    /** F_SETFD and the flag updates of dup3 and exec. */
    method SetCloexec(p: int, fd: int, on: bool)
      requires Valid() && Table(p) && 0 <= fd < width && fds[p][fd].used
      modifies `fds
      ensures Valid() && Table(p) && fds == Put(old(fds), p, fd, old(fds)[p][fd].(cloexec := on))
    {
      hide Balanced, FilesHeld;
      var e := fds[p][fd].(cloexec := on);
      EntryInTables(fds, files, forgotten, objs, p, fd);
      BalancedPlain(fds, objs, p, fd, e);
      FilesSame(fds, files, forgotten, p, fd, e);
      fds := Put(fds, p, fd, e);
    }

    /** The close-on-exec pass of execve: descriptors 0 to 2 only lose the flag. */
    method CloseOnExec(p: int)
      requires Valid() && Table(p)
      modifies `fds, `files, `objs
      ensures Valid() && Table(p) && |fds| == |old(fds)|
      ensures forall q :: 0 <= q < |fds| && q != p ==> fds[q] == old(fds)[q]
      ensures forall i :: 0 <= i < width ==> fds[p][i] == AfterExec(old(fds)[p][i], i)
    {
      hide Balanced, FilesHeld;
      for i := 0 to width
        invariant Valid() && Table(p) && |fds| == |old(fds)|
        invariant forall q :: 0 <= q < |fds| && q != p ==> fds[q] == old(fds)[q]
        invariant forall j :: 0 <= j < width ==>
                    fds[p][j] == if j >= i then old(fds)[p][j] else AfterExec(old(fds)[p][j], j)
      {
        if fds[p][i].used && fds[p][i].cloexec {
          if i <= 2 { SetCloexec(p, i, false); } else { var _ := Close(p, i); }
        }
      }
    }

    /** fd_proc_release: every entry is dropped and the table is free again. */
    method Release(pid: int)
      requires Valid() && pid > 0
      modifies `pids, `fds, `files, `objs
      ensures Valid() && pid !in pids && |pids| == |old(pids)|
      ensures forall q :: 0 <= q < |pids| && old(pids)[q] != pid ==> pids[q] == old(pids)[q] && fds[q] == old(fds)[q]
      ensures forall q :: 0 <= q < |pids| && old(pids)[q] == pid ==> pids[q] == 0
    {
      hide Balanced, FilesHeld;
      var p := FindTable(pid);
      if p < 0 { return; }
      for i := 0 to width
        invariant Valid() && Table(p) && pids == old(pids) && |fds| == |old(fds)|
        invariant forall q :: 0 <= q < |fds| && q != p ==> fds[q] == old(fds)[q]
        invariant forall j :: 0 <= j < i ==> !fds[p][j].used
      {
        if fds[p][i].used { var _ := Close(p, i); }
      }
      pids := pids[p := 0];
    }

    /**
      fd_clone_after_fork: the child's table is a copy of the parent's; -1 when there is no
      table to copy or fill. The child's table is first filled with standard descriptors and
      then zeroed, so the references these took, the three lowest free ones, are lost.
     */
    method CloneAfterFork(parentPid: int, childPid: int) returns (c: int, ghost taken: seq<int>)
      requires Valid() && parentPid > 0 && childPid > 0 && childPid !in pids
      modifies `pids, `fds, `files, `objs, `forgotten
      ensures Valid() && |pids| == |old(pids)|
      ensures c == -1 ==> pids == old(pids) && fds == old(fds) && objs == old(objs)
      ensures c == -1 ==> files == old(files) && forgotten == old(forgotten)
      ensures c == -1 <==> parentPid !in old(pids) || 0 !in old(pids)
      ensures c != -1 ==> Table(c) && pids == old(pids)[c := childPid] && old(pids)[c] == 0
      ensures c != -1 ==> forall q :: 0 <= q < |fds| && q != c ==> fds[q] == old(fds)[q]
      ensures c != -1 ==> exists p :: 0 <= p < |fds| && old(pids)[p] == parentPid && fds[c] == old(fds)[p]
      ensures c != -1 ==> TookLowest(old(files), taken, 3) && Lost(old(forgotten), taken, forgotten)
    {
      hide Balanced, FilesHeld, TookLowest, Marked, Filled, Lost;
      taken := [];
      var p := FindTable(parentPid);
      if p < 0 { return -1, taken; }
      c, taken := WithStdio(childPid);
      if c < 0 { return -1, taken; }
      FilledLost(forgotten, fds[c], taken, old(files), files) by { UnusedFilesFree(fds, files, forgotten); }
      ForgetRow(c);
      for i := 0 to width
        invariant Valid() && Table(c) && Table(p) && |fds| == |old(fds)| && pids == old(pids)[c := childPid]
        invariant forall q :: 0 <= q < |fds| && q != c ==> fds[q] == old(fds)[q]
        invariant forall j :: 0 <= j < width ==> fds[c][j] == if j < i && fds[p][j].used then fds[p][j] else NO_FD
        invariant Lost(old(forgotten), taken, forgotten)
      {
        if fds[p][i].used { CopyEntry(c, i, p, i, fds[p][i].cloexec); }
      }
      assert fds[c] == old(fds)[p];
    }

    /** memset of a table whose entries name no object; their file references stay taken. */
    method ForgetRow(p: int)
      requires Valid() && Table(p) && forall i :: 0 <= i < width && fds[p][i].used ==> Class(fds[p][i].kind) < 0
      modifies `fds, `forgotten
      ensures Valid() && Table(p) && fds == old(fds)[p := seq(width, _ => NO_FD)]
      ensures forgotten == ForgettingRow(old(forgotten), old(fds)[p], width)
    {
      hide Balanced, FilesHeld, Forgetting;
      for i := 0 to width
        invariant Valid() && Table(p) && |fds| == |old(fds)|
        invariant forall q :: 0 <= q < |fds| && q != p ==> fds[q] == old(fds)[q]
        invariant forall j :: 0 <= j < width ==> fds[p][j] == if j < i then NO_FD else old(fds)[p][j]
        invariant forgotten == ForgettingRow(old(forgotten), old(fds)[p], i)
      {
        BalancedPlain(fds, objs, p, i, NO_FD);
        FilesForget(fds, files, forgotten, p, i);
        forgotten := Forgetting(forgotten, fds[p][i]);
        fds := Put(fds, p, i, NO_FD);
      }
      assert fds[p] == seq(width, _ => NO_FD);
    }

    /** fd_alloc and file_ref_alloc, as every open does them: both or neither. */
    method TakeEntry(p: int) returns (n: int, f: int)
      requires Rows(pids, fds, width) && Table(p) && |files| > 0
      modifies `fds, `files
      ensures n == -1 || n == FirstUnused(old(fds)[p], 0)
      ensures n == -1 ==> fds == old(fds) && files == old(files)
                          && (FirstUnused(old(fds)[p], 0) < 0 || forall g :: 0 < g < |files| ==> files[g].used)
      ensures n != -1 ==> 0 <= n < width && fds == Put(old(fds), p, n, TAKEN) && 0 < f < |old(files)|
                          && !old(files)[f].used && files == old(files)[f := FileRef(true, 1)]
      ensures n != -1 ==> forall g :: 0 < g < f ==> old(files)[g].used
    {
      hide Balanced;
      f := 0;
      n := FdAlloc(p, 0);
      if n < 0 { return; }
      RowsFacts(pids, old(fds), width, p, n);
      f := FileRefAlloc();
      if f == 0 {
        PutTwice(old(fds), p, n, TAKEN, NO_FD);
        PutSame(old(fds), p, n);
        fds, n := Put(fds, p, n, NO_FD), -1;
      }
    }

    /** open of a console, file or pidfd: an entry that names no counted object. */
    method OpenPlain(p: int, kind: Kind, cloexec: bool) returns (r: Result)
      requires Valid() && Table(p) && Class(kind) < 0
      modifies `fds, `files
      ensures Valid() && Table(p)
      ensures r == NoMem || r == Ok(FirstUnused(old(fds)[p], 0))
      ensures r == NoMem ==> fds == old(fds) && files == old(files)
      ensures r == NoMem ==> FirstUnused(old(fds)[p], 0) < 0 || forall f :: 0 < f < |files| ==> files[f].used
      ensures r.Ok? ==> 0 <= r.fd < width && exists f :: fds == Put(old(fds), p, r.fd, Fd(true, kind, f, -1, cloexec))
    {
      hide Balanced, FilesHeld, Class, Rows;
      UnusedFilesFree(fds, files, forgotten);
      var n, f := TakeEntry(p);
      if n < 0 { return NoMem; }
      var e := Fd(true, kind, f, -1, cloexec);
      PutTwice(old(fds), p, n, TAKEN, e);
      BalancedPlain(old(fds), objs, p, n, e);
      NewFile(old(fds), old(files), forgotten, p, n, e);
      RowsPut(pids, old(fds), width, p, n, e);
      fds := Put(fds, p, n, e);
      return Ok(n);
    }

    /**
      eventfd, timerfd, signalfd and epoll creation, and /dev/ptmx: a fresh object with one
      reference, then the entry that holds it; a failure on the way gives everything back.
     */
    method OpenFresh(p: int, kind: Kind, cloexec: bool) returns (r: Result)
      requires Valid() && Table(p) && Class(kind) >= 1 && !Second(kind)
      modifies `fds, `files, `objs
      ensures Valid() && Table(p) && |old(objs)| == CLASSES
      ensures r == NoMem || r == Ok(FirstUnused(old(fds)[p], 0))
      ensures r == NoMem ==> fds == old(fds) && files == old(files) && objs == old(objs)
      ensures r == NoMem ==> FirstIdle(old(objs)[Class(kind)]) < 0 || FirstUnused(old(fds)[p], 0) < 0
                             || forall f :: 0 < f < |files| ==> files[f].used
      ensures r.Ok? ==> 0 <= r.fd < width
      ensures r.Ok? ==> var id := FirstIdle(old(objs)[Class(kind)]);
                        exists f :: fds == Put(old(fds), p, r.fd, Fd(true, kind, f, id, cloexec))
    {
      hide Balanced, FilesHeld, Class, Rows, Dropped;
      BalancedSizes(fds, objs);
      var id := ObjSearch(Class(kind));
      if id < 0 { return NoMem; }
      IdleIsNoObj(fds, objs, kind, id);
      DropFresh(objs, kind, id);
      objs := Set(objs, kind, id, Obj(true, 1, 0));
      UnusedFilesFree(fds, files, forgotten);
      var n, f := TakeEntry(p);
      if n < 0 {
        objs := Dropped(objs, kind, id);
        return NoMem;
      }
      var e := Fd(true, kind, f, id, cloexec);
      PutTwice(old(fds), p, n, TAKEN, e);
      FreshBalanced(old(fds), old(objs), p, n, e);
      NewFile(old(fds), old(files), forgotten, p, n, e);
      RowsPut(pids, old(fds), width, p, n, e);
      fds := Put(fds, p, n, e);
      return Ok(n);
    }

    /** /dev/pts/N: one more slave reference. */
    method OpenPts(p: int, id: int, unlocked: bool, cloexec: bool) returns (r: Result)
      requires Valid() && Table(p)
      modifies `fds, `files, `objs
      ensures Valid() && Table(p)
      ensures r == NoEntry <==> !InTable(old(objs), PtySlave, id) || !At(old(objs), PtySlave, id).used || !unlocked
      ensures r == NoEntry || r == NoMem || r == Ok(FirstUnused(old(fds)[p], 0))
      ensures r == NoMem ==> FirstUnused(old(fds)[p], 0) < 0 || forall f :: 0 < f < |files| ==> files[f].used
      ensures !r.Ok? ==> fds == old(fds) && files == old(files) && objs == old(objs)
      ensures r.Ok? ==> 0 <= r.fd < width
      ensures r.Ok? ==> exists f :: fds == Put(old(fds), p, r.fd, Fd(true, PtySlave, f, id, cloexec))
    {
      hide Balanced, FilesHeld, Class, Rows, Added;
      if !InTable(objs, PtySlave, id) || !At(objs, PtySlave, id).used || !unlocked { return NoEntry; }
      UnusedFilesFree(fds, files, forgotten);
      var n, f := TakeEntry(p);
      if n < 0 { return NoMem; }
      var e := Fd(true, PtySlave, f, id, cloexec);
      PutTwice(old(fds), p, n, TAKEN, e);
      StoreBalanced(old(fds), objs, p, n, e);
      NewFile(old(fds), old(files), forgotten, p, n, e);
      RowsPut(pids, old(fds), width, p, n, e);
      objs := Added(objs, PtySlave, id);
      fds := Put(fds, p, n, e);
      return Ok(n);
    }

    /**
      /dev/tty: the caller's terminal. Without one, or when its pseudo terminal is gone, the
      entry is cleared again but the reference it took, the lowest free one, is lost.
     */
    method OpenTty(p: int, tty: Tty, cloexec: bool) returns (r: Result)
      requires Valid() && Table(p)
      modifies `fds, `files, `objs, `forgotten
      ensures Valid() && Table(p)
      ensures r == NoMem || r == NoDevice || r == Ok(FirstUnused(old(fds)[p], 0))
      ensures r == NoMem ==> FirstUnused(old(fds)[p], 0) < 0 || forall f :: 0 < f < |files| ==> files[f].used
      ensures r == NoMem ==> fds == old(fds) && files == old(files) && objs == old(objs)
      ensures r != NoMem ==> (r == NoDevice <==> tty.Gone(old(objs)))
      ensures r == NoDevice ==> fds == old(fds) && objs == old(objs)
      ensures if r == NoDevice then LostOne(old(files), old(forgotten), files, forgotten)
              else forgotten == old(forgotten)
      ensures r.Ok? ==> 0 <= r.fd < width
      ensures r.Ok? ==> exists f :: fds == Put(old(fds), p, r.fd, Fd(true, tty.Kind(), f, tty.Object(), cloexec))
    {
      hide Balanced, FilesHeld, Class, Rows, Added;
      UnusedFilesFree(fds, files, forgotten);
      var n, f := TakeEntry(p);
      if n < 0 { return NoMem; }
      var e := Fd(true, tty.Kind(), f, tty.Object(), cloexec);
      RowsFacts(pids, old(fds), width, p, n);
      if tty.Gone(objs) {
        PutTwice(old(fds), p, n, TAKEN, NO_FD);
        PutSame(old(fds), p, n);
        LoseFile(old(fds), old(files), forgotten, f);
        LoseLowest(old(files), forgotten, f);
        fds, forgotten := Put(fds, p, n, NO_FD), forgotten[f := forgotten[f] + 1];
        return NoDevice;
      }
      PutTwice(old(fds), p, n, TAKEN, e);
      NewFile(old(fds), old(files), forgotten, p, n, e);
      RowsPut(pids, old(fds), width, p, n, e);
      if tty.PtyTty? {
        StoreBalanced(old(fds), objs, p, n, e);
        objs := Added(objs, PtySlave, tty.id);
      } else {
        ConsoleHasNoObject();
        BalancedPlain(old(fds), objs, p, n, e);
      }
      fds := Put(fds, p, n, e);
      return Ok(n);
    }

    /** do_sys_pipe; copied says whether the two numbers reached user memory. */
    method Pipe(p: int, cloexec: bool, otherFlags: bool, copied: bool) returns (r: Result)
      requires Valid() && Table(p)
      modifies `fds, `files, `objs
      ensures Valid() && Table(p) && |old(objs)| == CLASSES
      ensures r == Invalid <==> otherFlags
      ensures r == Invalid || r == NoMem || (r == Fault && !copied) || (r.Pair? && copied)
      ensures !r.Pair? ==> fds == old(fds)
      ensures !r.Pair? ==> objs == old(objs) && files == old(files)
      ensures r == NoMem ==> FirstIdle(objs[0]) < 0 || LacksTwo(fds[p]) || AtMostOneFree(files)
      ensures r.Pair? ==> PipeMade(old(fds), old(objs), fds, p, r.rfd, r.wfd, cloexec)
    {
      hide Balanced, FilesHeld, Rows, PipeMade, Dropped, PutBack;
      BalancedSizes(fds, objs);
      UnusedFilesFree(fds, files, forgotten);
      if otherFlags { return Invalid; }
      r := PipeEnds(p, cloexec);
      if r == NoMem { return; }
      if !copied {
        PipeUnmade(pids, old(fds), old(objs), fds, width, p, r.rfd, r.wfd, cloexec);
        PipeGivenBack(old(files), files, old(objs), objs, fds[p][r.rfd], fds[p][r.wfd]);
        var _ := Close(p, r.rfd);
        var _ := Close(p, r.wfd);
        return Fault;
      }
    }

    /** fd_alloc twice: both descriptors or neither. */
    method TakePair(p: int) returns (rfd: int, wfd: int)
      requires Rows(pids, fds, width) && Table(p)
      modifies `fds
      ensures rfd == -1 ==> fds == old(fds) && LacksTwo(old(fds)[p])
      ensures rfd != -1 ==> rfd == FirstUnused(old(fds)[p], 0) >= 0 && wfd == FirstUnused(old(fds)[p], rfd + 1) > rfd
      ensures rfd != -1 ==> fds == Put(Put(old(fds), p, rfd, TAKEN), p, wfd, TAKEN)
    {
      hide Balanced, FilesHeld;
      wfd := -1;
      rfd := FdAlloc(p, 0);
      if rfd < 0 { return; }
      SkipUsed(old(fds)[p], rfd);
      wfd := FdAlloc(p, 0);
      if wfd < 0 {
        RowsFacts(pids, old(fds), width, p, rfd);
        PutTwice(old(fds), p, rfd, TAKEN, NO_FD);
        PutSame(old(fds), p, rfd);
        fds, rfd := Put(fds, p, rfd, NO_FD), -1;
      }
    }

    /** file_ref_alloc twice: both references or neither. */
    method TakeFiles() returns (f: int, g: int)
      requires |files| > 0
      requires forall h :: 0 < h < |files| && !files[h].used ==> files[h].refs == 0
      modifies `files
      ensures f == 0 ==> files == old(files) && AtMostOneFree(files)
      ensures f != 0 ==> 0 < f < |old(files)| && 0 < g < |old(files)| && f != g
      ensures f != 0 ==> !old(files)[f].used && !old(files)[g].used
                         && files == old(files)[f := FileRef(true, 1)][g := FileRef(true, 1)]
    {
      g := 0;
      f := FileRefAlloc();
      if f == 0 { return; }
      g := FileRefAlloc();
      if g == 0 {
        files := PutBack(files, f);
        assert files == old(files);
        f := 0;
      }
    }

    /** The part of do_sys_pipe that makes the pipe and its two descriptors. */
    method PipeEnds(p: int, cloexec: bool) returns (r: Result)
      requires Valid() && Table(p)
      modifies `fds, `files, `objs
      ensures Valid() && Table(p) && (r == NoMem || r.Pair?) && |old(objs)| == CLASSES
      ensures r == NoMem ==> fds == old(fds) && objs == old(objs) && files == old(files)
      ensures r == NoMem ==> FirstIdle(objs[0]) < 0 || LacksTwo(fds[p]) || AtMostOneFree(files)
      ensures r.Pair? ==> PipeMade(old(fds), old(objs), fds, p, r.rfd, r.wfd, cloexec)
      ensures r.Pair? ==> 0 <= r.rfd < width && 0 <= r.wfd < width
                          && PipeTaken(old(files), files, old(objs), objs, fds[p][r.rfd], fds[p][r.wfd])
    {
      hide Balanced, FilesHeld, Rows, Added;
      BalancedSizes(fds, objs);
      UnusedFilesFree(fds, files, forgotten);
      var id := ObjSearch(0);
      if id < 0 { return NoMem; }
      IdleIsNoObj(fds, objs, PipeR, id);
      SetBack(objs, PipeR, id, Obj(true, 0, 0));
      objs := Set(objs, PipeR, id, Obj(true, 0, 0));
      var rfd, wfd := TakePair(p);
      if rfd < 0 {
        objs := Set(objs, PipeR, id, NO_OBJ);
        return NoMem;
      }
      PairBack(pids, old(fds), width, p, rfd, wfd);
      var f, g := TakeFiles();
      if f == 0 {
        fds := Put(Put(fds, p, rfd, NO_FD), p, wfd, NO_FD);
        objs := Set(objs, PipeR, id, NO_OBJ);
        return NoMem;
      }
      var e, w := Fd(true, PipeR, f, id, cloexec), Fd(true, PipeW, g, id, cloexec);
      PairStored(old(fds), p, rfd, wfd, e, w);
      PipeBalanced(old(fds), old(objs), p, rfd, wfd, e, w);
      PipeFiles(old(fds), old(files), forgotten, p, rfd, wfd, e, w);
      RowsPut(pids, old(fds), width, p, rfd, e);
      RowsPut(pids, Put(old(fds), p, rfd, e), width, p, wfd, w);
      fds := Put(Put(fds, p, rfd, e), p, wfd, w);
      SetTwice(old(objs), PipeR, id, Obj(true, 0, 0), Obj(true, 1, 1));
      objs := Set(objs, PipeR, id, Obj(true, 1, 1));
      return Pair(rfd, wfd);
    }

    ghost function Now(): Tables
      reads this
    {
      Tables(pids, fds, files, objs, forgotten)
    }

    /**
      Any run of the calls, by any processes: every call does what it says, from one state of
      the trace to the next, and in every state the counts of objects and of file references
      are exact.
     */
    method Serve(calls: seq<(int, Call)>) returns (results: seq<Result>, ghost trace: seq<Tables>)
      requires Valid() && forall i :: 0 <= i < |calls| ==> calls[i].0 > 0
      modifies this
      ensures Valid() && |results| == |calls| && |trace| == |calls| + 1
      ensures trace[0] == old(Now()) && trace[|calls|] == Now()
      ensures forall i :: 0 <= i < |calls| ==> Did(trace[i], calls[i].0, calls[i].1, results[i], trace[i + 1], width)
      ensures Grown(old(forgotten), forgotten)
      ensures forall i :: 0 <= i < |trace| ==>
                Balanced(trace[i].fds, trace[i].objs) && FilesHeld(trace[i].fds, trace[i].files, trace[i].forgotten)
    {
      hide Balanced, FilesHeld, Rows, Did;
      results, trace := [], [Now()];
      for i := 0 to |calls|
        invariant Valid() && |results| == i && |trace| == i + 1 && trace[0] == old(Now()) && trace[i] == Now()
        invariant forall j :: 0 <= j < i ==> Did(trace[j], calls[j].0, calls[j].1, results[j], trace[j + 1], width)
        invariant Grown(old(forgotten), forgotten)
        invariant forall j :: 0 <= j < |trace| ==>
                    Balanced(trace[j].fds, trace[j].objs) && FilesHeld(trace[j].fds, trace[j].files, trace[j].forgotten)
      {
        var r := Perform(calls[i].0, calls[i].1);
        DidForgets(trace[i], calls[i].0, calls[i].1, r, Now(), width);
        results, trace := results + [r], trace + [Now()];
      }
    }

    /** One call by process pid. */
    method Perform(pid: int, call: Call) returns (r: Result)
      requires Valid() && pid > 0
      modifies this
      ensures Valid() && Did(old(Now()), pid, call, r, Now(), width)
    {
      hide Balanced, FilesHeld, Rows, Did;
      match call {
        case DoFork(child) => r := ForkBy(pid, child);
        case DoExit => r := ExitBy(pid);
        case DoExec => r := ExecBy(pid);
        case DoClose(fd) => r := CloseBy(pid, fd);
        case _ => r := RowCallBy(pid, call);
      }
    }

    method ForkBy(pid: int, child: int) returns (r: Result)
      requires Valid() && pid > 0
      modifies this
      ensures Valid() && Did(old(Now()), pid, DoFork(child), r, Now(), width)
    {
      hide Balanced, FilesHeld;
      r := NoMem;
      if child > 0 && child !in pids {
        ghost var was := fds;
        var c, taken := CloneAfterFork(pid, child);
        if c >= 0 {
          r := Ok(0);
          assert fds == was[c := fds[c]];
          ghost var p :| 0 <= p < |fds| && old(pids)[p] == pid && fds[c] == was[p];
          assert Copied(old(Now()), c, p, pid, child, Now());
          assert TookLowest(old(files), taken, 3) && Lost(old(forgotten), taken, forgotten);
        }
      }
    }

    method ExitBy(pid: int) returns (r: Result)
      requires Valid() && pid > 0
      modifies this
      ensures Valid() && Did(old(Now()), pid, DoExit, r, Now(), width)
    {
      hide Balanced, FilesHeld;
      Release(pid);
      return Ok(0);
    }

    method ExecBy(pid: int) returns (r: Result)
      requires Valid() && pid > 0
      modifies this
      ensures Valid() && Did(old(Now()), pid, DoExec, r, Now(), width)
    {
      hide Balanced, FilesHeld;
      var p := FindTable(pid);
      if p >= 0 { CloseOnExec(p); }
      return Ok(0);
    }

    method CloseBy(pid: int, fd: int) returns (r: Result)
      requires Valid() && pid > 0
      modifies this
      ensures Valid() && Did(old(Now()), pid, DoClose(fd), r, Now(), width)
    {
      hide Balanced, FilesHeld;
      var p := FindTable(pid);
      if p < 0 { return BadFd; }
      ghost var was := Now();
      r := Close(p, fd);
      if r == Ok(0) { assert was.Has(p, pid, fd) && OnlyRow(was, Now(), p, was.fds[p][fd := NO_FD]); }
    }

    /** Flags are looked at first, then fd_proc_with_stdio makes a row; without one nothing happens. */
    method RowCallBy(pid: int, call: Call) returns (r: Result)
      requires Valid() && pid > 0 && !call.DoFork? && !call.DoExit? && !call.DoExec? && !call.DoClose?
      modifies this
      ensures Valid() && Did(old(Now()), pid, call, r, Now(), width)
    {
      hide Balanced, FilesHeld, RowCall, Did;
      ghost var was := Now();
      BalancedSizes(fds, objs);
      if Refused(call) {
        NothingDone(was, pid, call, Invalid, width);
        return Invalid;
      }
      var p, taken := WithStdio(pid);
      if p < 0 {
        NothingDone(was, pid, call, NoRow(call), width);
        return NoRow(call);
      }
      ghost var mid := Now();
      assert Ready(was, pid, mid, p, width);
      r := OnTable(p, call);
      hide Ready;
      DoneOnRow(was, pid, call, r, mid, p, Now(), width);
    }

    method OnTable(p: int, call: Call) returns (r: Result)
      requires Valid() && Table(p)
      modifies `fds, `files, `objs, `forgotten
      ensures Valid() && RowCall(old(Now()), p, call, r, Now(), width) && |fds| == |old(fds)| && pids == old(pids)
    {
      hide Balanced, FilesHeld, Rows, RowCall;
      match call {
        case DoPipe(_, _, _) => r := PipeOn(p, call);
        case DoOpen(_, _) => r := OpenOn(p, call);
        case DoOpenPts(_, _, _) => r := PtsOn(p, call);
        case DoOpenTty(_, _) => r := TtyOn(p, call);
        case DoDup2(_, _) => r := DupOntoOn(p, call);
        case DoDup3(_, _, _, _) => r := DupOntoOn(p, call);
        case _ => r := DupOn(p, call);
      }
    }

    method PipeOn(p: int, call: Call) returns (r: Result)
      requires Valid() && Table(p) && call.DoPipe?
      modifies `fds, `files, `objs
      ensures Valid() && RowCall(old(Now()), p, call, r, Now(), width) && |fds| == |old(fds)| && pids == old(pids)
    {
      hide Balanced, FilesHeld, PipeMade, LacksTwo, AtMostOneFree;
      BalancedSizes(fds, objs);
      r := Pipe(p, call.cloexec, call.other, call.copied);
      BalancedSizes(fds, objs);
    }

    method DupOn(p: int, call: Call) returns (r: Result)
      requires Valid() && Table(p) && !call.DoPipe? && !call.DoOpen? && !call.DoOpenPts? && !call.DoOpenTty?
      requires !call.DoDup2? && !call.DoDup3?
      modifies `fds, `files, `objs
      ensures Valid() && RowCall(old(Now()), p, call, r, Now(), width) && |fds| == |old(fds)| && pids == old(pids)
    {
      hide Balanced, FilesHeld;
      BalancedSizes(fds, objs);
      r := Invalid;
      match call {
        case DoDup(fd, min, cloexec) => r := Dup(p, fd, min, cloexec);
        case _ =>
      }
      BalancedSizes(fds, objs);
    }

    method DupOntoOn(p: int, call: Call) returns (r: Result)
      requires Valid() && Table(p) && (call.DoDup2? || call.DoDup3?)
      modifies `fds, `files, `objs
      ensures Valid() && RowCall(old(Now()), p, call, r, Now(), width) && |fds| == |old(fds)| && pids == old(pids)
    {
      hide Balanced, FilesHeld;
      BalancedSizes(fds, objs);
      match call {
        case DoDup2(oldfd, newfd) => r := Dup2(p, oldfd, newfd);
        case DoDup3(oldfd, newfd, cloexec, other) => r := Dup3(p, oldfd, newfd, cloexec, other);
      }
      BalancedSizes(fds, objs);
    }

    method TtyOn(p: int, call: Call) returns (r: Result)
      requires Valid() && Table(p) && call.DoOpenTty?
      modifies `fds, `files, `objs, `forgotten
      ensures Valid() && RowCall(old(Now()), p, call, r, Now(), width) && |fds| == |old(fds)| && pids == old(pids)
    {
      hide Balanced, FilesHeld, LostOne;
      BalancedSizes(fds, objs);
      r := OpenTty(p, call.tty, call.cloexec);
      BalancedSizes(fds, objs);
    }

    method OpenOn(p: int, call: Call) returns (r: Result)
      requires Valid() && Table(p) && call.DoOpen?
      modifies `fds, `files, `objs
      ensures Valid() && RowCall(old(Now()), p, call, r, Now(), width) && |fds| == |old(fds)| && pids == old(pids)
    {
      hide Balanced, FilesHeld;
      BalancedSizes(fds, objs);
      r := Invalid;
      if Class(call.kind) < 0 { r := OpenPlain(p, call.kind, call.cloexec); }
      else if Class(call.kind) >= 1 && !Second(call.kind) { r := OpenFresh(p, call.kind, call.cloexec); }
      BalancedSizes(fds, objs);
    }

    method PtsOn(p: int, call: Call) returns (r: Result)
      requires Valid() && Table(p) && call.DoOpenPts?
      modifies `fds, `files, `objs
      ensures Valid() && RowCall(old(Now()), p, call, r, Now(), width) && |fds| == |old(fds)| && pids == old(pids)
    {
      hide Balanced, FilesHeld;
      BalancedSizes(fds, objs);
      r := OpenPts(p, call.id, call.unlocked, call.cloexec);
      BalancedSizes(fds, objs);
    }
  }

  // ----- what each call does to the tables -----

  /** All tables at one moment. The object counts follow from fds, being exact. */
  datatype Tables = Tables(pids: seq<int>, fds: seq<seq<Fd>>, files: seq<FileRef>, objs: seq<seq<Obj>>,
                           forgotten: seq<nat>)
  {
    ghost predicate Row(p: int, width: nat) {
      0 <= p < |fds| && |pids| == |fds| && |fds[p]| == width && |objs| == CLASSES
    }
    /** Row p belongs to process pid and holds descriptor fd. */
    predicate Has(p: int, pid: int, fd: int) { 0 <= p < |pids| && pids[p] == pid && Holds(p, fd) }
    predicate Holds(p: int, fd: int) { 0 <= p < |fds| && 0 <= fd < |fds[p]| && fds[p][fd].used }
  }

  /** s' differs from s only in row p, which is as given. */
  ghost predicate OnlyRow(s: Tables, s': Tables, p: int, row: seq<Fd>) {
    0 <= p < |s.fds| && s'.pids == s.pids && s'.fds == s.fds[p := row]
  }

  /** Process pid has table p, its standard descriptors filled in where they were free. */
  ghost predicate Ready(s: Tables, pid: int, s': Tables, p: int, width: nat) {
    && s.Row(p, width) && s'.Row(p, width) && |s'.fds| == |s.fds| && s'.objs == s.objs
    && s'.pids == s.pids[p := pid] && (s.pids[p] == pid || (s.pids[p] == 0 && pid !in s.pids))
    && (forall q :: 0 <= q < |s.fds| && q != p ==> s'.fds[q] == s.fds[q])
    && (forall i :: 0 <= i < width && (i >= 3 || s.fds[p][i].used) ==> s'.fds[p][i] == s.fds[p][i])
    && (forall i :: 0 <= i < 3 && i < width && !s'.fds[p][i].used ==> NoneFree(s'.files))
    && (forall i :: 0 <= i < 3 && i < width && s'.fds[p][i].used && !s.fds[p][i].used ==>
          s'.fds[p][i].kind == Console && s'.fds[p][i].obj == -1 && !s'.fds[p][i].cloexec)
    && s'.forgotten == s.forgotten
  }

  /** What the source refuses before it looks for the caller's row: unknown flags, a dup3 onto itself. */
  predicate Refused(call: Call) {
    match call
    case DoPipe(_, other, _) => other
    case DoDup3(oldfd, newfd, _, other) => other || oldfd == newfd
    case DoOpen(kind, _) => Class(kind) == 0 || Second(kind)   // no call opens these
    case _ => false
  }

  /** What a call answers when the caller has no row and none is free. */
  function NoRow(call: Call): Result {
    if call.DoPipe? || call.DoOpen? || call.DoOpenPts? || call.DoOpenTty? then NoMem else BadFd
  }

  /** Neither a free descriptor nor a free file reference is to be had. */
  ghost predicate Exhausted(s: Tables, p: int) {
    0 <= p < |s.fds| && (FirstUnused(s.fds[p], 0) < 0 || forall f :: 0 < f < |s.files| ==> s.files[f].used)
  }

  /** The lowest free descriptor of row p becomes an entry of this kind, naming this object. */
  ghost predicate Opened(s: Tables, s': Tables, p: int, r: Result, kind: Kind, obj: int, cloexec: bool) {
    && 0 <= p < |s.fds| && r == Ok(FirstUnused(s.fds[p], 0)) && 0 <= r.fd < |s.fds[p]|
    && exists f :: OnlyRow(s, s', p, s.fds[p][r.fd := Fd(true, kind, f, obj, cloexec)])
  }

  /** The calls that work on the caller's own row. */
  ghost predicate RowCall(s: Tables, p: int, call: Call, r: Result, s': Tables, width: nat) {
    && s.Row(p, width) && s'.Row(p, width)
    && (!r.Ok? && !r.Pair? ==> s'.pids == s.pids && s'.fds == s.fds)
    && (if r == NoDevice then LostOne(s.files, s.forgotten, s'.files, s'.forgotten) else s'.forgotten == s.forgotten)
    && match call
       case DoPipe(cloexec, other, copied) =>
         && (r == Invalid <==> other)
         && (r.Pair? ==> copied && s'.pids == s.pids && PipeMade(s.fds, s.objs, s'.fds, p, r.rfd, r.wfd, cloexec))
         && (r == Fault ==> !copied)
         && (r == NoMem ==> FirstIdle(s.objs[0]) < 0 || LacksTwo(s.fds[p]) || AtMostOneFree(s.files))
         && (r == Invalid || r == Fault || r == NoMem || r.Pair?)
       case DoDup(fd, min, cloexec) =>
         var n := FirstUnused(s.fds[p], if min < 0 then 0 else min);
         if !s.Holds(p, fd) then r == BadFd
         else if n < 0 then r == NoMem
         else r == Ok(n) && OnlyRow(s, s', p, s.fds[p][n := s.fds[p][fd].(cloexec := cloexec)])
       case DoDup2(oldfd, newfd) =>
         if !s.Holds(p, oldfd) || !(0 <= newfd < width) then r == BadFd
         else
           var row := if oldfd == newfd then s.fds[p] else s.fds[p][newfd := s.fds[p][oldfd].(cloexec := false)];
           r == Ok(newfd) && OnlyRow(s, s', p, row)
       case DoDup3(oldfd, newfd, cloexec, other) =>
         if other || oldfd == newfd then r == Invalid
         else if !s.Holds(p, oldfd) || !(0 <= newfd < width) then r == BadFd
         else r == Ok(newfd) && OnlyRow(s, s', p, s.fds[p][newfd := s.fds[p][oldfd].(cloexec := cloexec)])
       case DoOpen(kind, cloexec) =>
         if Class(kind) == 0 || Second(kind) then r == Invalid
         else
           var id := if Class(kind) < 0 then -1 else FirstIdle(s.objs[Class(kind)]);
           if r == NoMem then Exhausted(s, p) || (Class(kind) >= 0 && id < 0)
           else Opened(s, s', p, r, kind, id, cloexec)
       case DoOpenPts(id, unlocked, cloexec) =>
         if !InTable(s.objs, PtySlave, id) || !At(s.objs, PtySlave, id).used || !unlocked then r == NoEntry
         else if r == NoMem then Exhausted(s, p) else Opened(s, s', p, r, PtySlave, id, cloexec)
       case DoOpenTty(tty, cloexec) =>
         if r == NoMem then Exhausted(s, p)
         else if tty.ConsoleTty? then Opened(s, s', p, r, Console, -1, cloexec)
         else if tty.PtyTty? && InTable(s.objs, PtySlave, tty.id) && At(s.objs, PtySlave, tty.id).used then
           Opened(s, s', p, r, PtySlave, tty.id, cloexec)
         else r == NoDevice
       case _ => r == Invalid
  }

  /** The free row c becomes the child's, a copy of the parent's row p. */
  ghost predicate Copied(s: Tables, c: int, p: int, pid: int, child: int, s': Tables) {
    && 0 <= c < |s.fds| && 0 <= p < |s.fds| && |s.pids| == |s.fds| && s.pids[c] == 0 && s.pids[p] == pid
    && s'.pids == s.pids[c := child] && s'.fds == s.fds[c := s.fds[p]]
  }

  /** No forgotten reference is ever remembered. */
  ghost predicate Grown(forgotten: seq<nat>, forgotten': seq<nat>) {
    |forgotten'| == |forgotten| && forall f :: 0 <= f < |forgotten| ==> forgotten[f] <= forgotten'[f]
  }

  lemma DidForgets(s: Tables, pid: int, call: Call, r: Result, s': Tables, width: nat)
    requires Did(s, pid, call, r, s', width)
    ensures Grown(s.forgotten, s'.forgotten)
  {
    hide TookLowest, Marked, PipeMade, FirstIdle, FirstUnused;
    if call.DoOpenTty? && r == NoDevice {
      var s1, p :| Ready(s, pid, s1, p, width) && RowCall(s1, p, call, r, s', width);
    }
  }

  /** What one call by process pid does. */
  ghost predicate Did(s: Tables, pid: int, call: Call, r: Result, s': Tables, width: nat) {
    && |s.pids| == |s.fds| == |s'.fds| == |s'.pids|
    && (r == NoDevice || (call.DoFork? && r.Ok?) || s'.forgotten == s.forgotten)
    && match call
       case DoClose(fd) =>
         if exists p :: s.Has(p, pid, fd) then
           r == Ok(0) && exists p :: s.Has(p, pid, fd) && OnlyRow(s, s', p, s.fds[p][fd := NO_FD])
         else r == BadFd && s'.pids == s.pids && s'.fds == s.fds
       case DoExec =>
         && r == Ok(0) && s'.pids == s.pids
         && (forall q :: 0 <= q < |s.fds| ==> |s'.fds[q]| == |s.fds[q]| && (s.pids[q] != pid ==> s'.fds[q] == s.fds[q]))
         && (forall q, i :: 0 <= q < |s.fds| && 0 <= i < |s.fds[q]| && s.pids[q] == pid ==>
               s'.fds[q][i] == AfterExec(s.fds[q][i], i))
       case DoExit =>
         && r == Ok(0) && pid !in s'.pids
         && (forall q :: 0 <= q < |s.fds| && s.pids[q] != pid ==> s'.pids[q] == s.pids[q] && s'.fds[q] == s.fds[q])
         && (forall q :: 0 <= q < |s.fds| && s.pids[q] == pid ==>
               s'.pids[q] == 0 && forall i :: 0 <= i < |s'.fds[q]| ==> !s'.fds[q][i].used)
       case DoFork(child) =>
         if r == NoMem then
           s'.pids == s.pids && s'.fds == s.fds && (child <= 0 || child in s.pids || pid !in s.pids || 0 !in s.pids)
         else
           && r == Ok(0)
           && (exists c, p :: Copied(s, c, p, pid, child, s'))
           && (exists taken :: TookLowest(s.files, taken, 3) && Lost(s.forgotten, taken, s'.forgotten))
       case _ =>
         if Refused(call) then r == Invalid && s' == s
         else
           || (s' == s && pid !in s.pids && 0 !in s.pids
               && r == if call.DoDup? || call.DoDup2? || call.DoDup3? then BadFd else NoMem)
           || exists s1, p :: Ready(s, pid, s1, p, width) && RowCall(s1, p, call, r, s', width)
  }

  lemma NothingDone(s: Tables, pid: int, call: Call, r: Result, width: nat)
    requires !call.DoFork? && !call.DoExit? && !call.DoExec? && !call.DoClose? && |s.pids| == |s.fds|
    requires if Refused(call) then r == Invalid else r == NoRow(call) && pid !in s.pids && 0 !in s.pids
    ensures Did(s, pid, call, r, s, width)
  {
  }

  lemma DoneOnRow(s: Tables, pid: int, call: Call, r: Result, mid: Tables, p: int, s': Tables, width: nat)
    requires !call.DoFork? && !call.DoExit? && !call.DoExec? && !call.DoClose? && !Refused(call)
    requires Ready(s, pid, mid, p, width) && RowCall(mid, p, call, r, s', width)
    requires |s'.fds| == |s'.pids| == |mid.fds|
    ensures Did(s, pid, call, r, s', width)
  {
    assert r == NoDevice || s'.forgotten == mid.forgotten;
    hide RowCall;
  }

  /** What exec leaves of entry i: standard descriptors only lose the close-on-exec mark. */
  function AfterExec(e: Fd, i: int): Fd {
    if !e.used || !e.cloexec then e else if i <= 2 then e.(cloexec := false) else NO_FD
  }

  /**
    After exec no descriptor in use is marked; those above 2 that were are free; every other
    entry names what it named.
   */
  lemma ExecCloses(s: Tables, pid: int, r: Result, s': Tables, width: nat, q: int, i: int)
    requires Did(s, pid, DoExec, r, s', width) && 0 <= q < |s.fds| && 0 <= i < |s.fds[q]| && s.pids[q] == pid
    ensures |s'.fds[q]| == |s.fds[q]|
    ensures var e, e' := s.fds[q][i], s'.fds[q][i];
            && !(e'.used && e'.cloexec)
            && if i > 2 && e.used && e.cloexec then !e'.used
               else e'.used == e.used && e'.kind == e.kind && e'.obj == e.obj && e'.fileRef == e.fileRef
  {
  }

  datatype Call =
    | DoPipe(cloexec: bool, other: bool, copied: bool)
    | DoDup(fd: int, min: int, cloexec: bool)
    | DoDup2(oldfd: int, newfd: int)
    | DoDup3(oldfd: int, newfd: int, cloexec: bool, other: bool)
    | DoOpen(kind: Kind, cloexec: bool)
    | DoOpenPts(id: int, unlocked: bool, cloexec: bool)
    | DoOpenTty(tty: Tty, cloexec: bool)
    | DoClose(fd: int)
    | DoFork(child: int)
    | DoExec
    | DoExit

  /** The two lowest free descriptors name the two ends of the first free pipe. */
  ghost predicate PipeMade(fds: seq<seq<Fd>>, objs: seq<seq<Obj>>, fds': seq<seq<Fd>>,
                           p: int, rfd: int, wfd: int, cloexec: bool)
    requires |objs| == CLASSES && 0 <= p < |fds|
  {
    && 0 <= rfd == FirstUnused(fds[p], 0) < wfd == FirstUnused(fds[p], rfd + 1)
    && exists f, g :: fds' == Put(Put(fds, p, rfd, Fd(true, PipeR, f, FirstIdle(objs[0]), cloexec)),
                                  p, wfd, Fd(true, PipeW, g, FirstIdle(objs[0]), cloexec))
  }

  /** A fresh pipe, named by e and w with one file reference each. */
  ghost predicate PipeTaken(files: seq<FileRef>, files': seq<FileRef>, objs: seq<seq<Obj>>, objs': seq<seq<Obj>>,
                            e: Fd, w: Fd)
  {
    && 0 < e.fileRef < |files| && 0 < w.fileRef < |files| && e.fileRef != w.fileRef
    && !files[e.fileRef].used && !files[w.fileRef].used
    && files' == files[e.fileRef := FileRef(true, 1)][w.fileRef := FileRef(true, 1)]
    && e.kind == PipeR && w.kind == PipeW && e.obj == w.obj
    && InTable(objs, PipeR, e.obj) && At(objs, PipeR, e.obj) == NO_OBJ
    && objs' == Set(objs, PipeR, e.obj, Obj(true, 1, 1))
  }

  /** Closing both ends of a fresh pipe gives references and object back. */
  lemma PipeGivenBack(files: seq<FileRef>, files': seq<FileRef>, objs: seq<seq<Obj>>, objs': seq<seq<Obj>>,
                      e: Fd, w: Fd)
    requires PipeTaken(files, files', objs, objs', e, w)
    requires forall h :: 0 < h < |files| && !files[h].used ==> files[h].refs == 0
    ensures PutBack(PutBack(files', e.fileRef), w.fileRef) == files
    ensures Dropped(Dropped(objs', e.kind, e.obj), w.kind, w.obj) == objs
  {
    var mid := Dropped(objs', e.kind, e.obj);
    assert mid == Set(objs', PipeR, e.obj, Obj(true, 0, 1));
    SetTwice(objs, PipeR, e.obj, Obj(true, 1, 1), Obj(true, 0, 1));
    assert Dropped(mid, w.kind, w.obj) == Set(mid, PipeR, e.obj, NO_OBJ);
    SetBack(objs, PipeR, e.obj, Obj(true, 0, 1));
  }

  lemma PipeUnmade(pids: seq<int>, fds: seq<seq<Fd>>, objs: seq<seq<Obj>>, fds': seq<seq<Fd>>, width: nat,
                   p: int, rfd: int, wfd: int, cloexec: bool)
    requires |objs| == CLASSES && 0 <= p < |fds| && Rows(pids, fds, width)
    requires PipeMade(fds, objs, fds', p, rfd, wfd, cloexec)
    ensures |fds'| == |fds| && |fds'[p]| == width && 0 <= rfd < width && 0 <= wfd < width && rfd != wfd
    ensures fds'[p][rfd].used && fds'[p][wfd].used
    ensures Put(Put(fds', p, rfd, NO_FD), p, wfd, NO_FD) == fds
  {
    RowsFacts(pids, fds, width, p, rfd);
    RowsFacts(pids, fds, width, p, wfd);
    PutBothBack(fds, p, rfd, wfd, fds');
  }

  lemma PairBack(pids: seq<int>, fds: seq<seq<Fd>>, width: nat, p: int, rfd: int, wfd: int)
    requires Rows(pids, fds, width) && 0 <= p < |fds| && 0 <= rfd < width && 0 <= wfd < width && rfd != wfd
    requires |fds[p]| == width && !fds[p][rfd].used && !fds[p][wfd].used
    ensures Put(Put(Put(Put(fds, p, rfd, TAKEN), p, wfd, TAKEN), p, rfd, NO_FD), p, wfd, NO_FD) == fds
  {
    RowsFacts(pids, fds, width, p, rfd);
    RowsFacts(pids, fds, width, p, wfd);
    PutBothBack(fds, p, rfd, wfd, Put(Put(fds, p, rfd, TAKEN), p, wfd, TAKEN));
  }

  lemma PairStored(fds: seq<seq<Fd>>, p: int, i: int, j: int, e: Fd, w: Fd)
    requires 0 <= p < |fds| && 0 <= i < |fds[p]| && 0 <= j < |fds[p]| && i != j
    ensures Put(Put(Put(Put(fds, p, i, TAKEN), p, j, TAKEN), p, i, e), p, j, w) == Put(Put(fds, p, i, e), p, j, w)
  {
    assert fds[p][i := TAKEN][j := TAKEN][i := e][j := w] == fds[p][i := e][j := w];
  }

  lemma PipeBalanced(fds: seq<seq<Fd>>, objs: seq<seq<Obj>>, p: int, i: int, j: int, e: Fd, w: Fd)
    requires Balanced(fds, objs) && 0 <= p < |fds| && 0 <= i < |fds[p]| && 0 <= j < |fds[p]| && i != j
    requires !fds[p][i].used && !fds[p][j].used && e.used && w.used
    requires e.kind == PipeR && w.kind == PipeW && e.obj == w.obj
    requires InTable(objs, PipeR, e.obj) && !At(objs, PipeR, e.obj).used
    ensures Balanced(Put(Put(fds, p, i, e), p, j, w), Set(objs, PipeR, e.obj, Obj(true, 1, 1)))
  {
    hide Balanced;
    FreshBalanced(fds, objs, p, i, e);
    var objs1 := Set(objs, PipeR, e.obj, Obj(true, 1, 0));
    StoreBalanced(Put(fds, p, i, e), objs1, p, j, w);
    assert Added(objs1, PipeW, w.obj) == Set(objs1, PipeR, e.obj, Obj(true, 1, 1));
    SetTwice(objs, PipeR, e.obj, Obj(true, 1, 0), Obj(true, 1, 1));
  }

  lemma PipeFiles(fds: seq<seq<Fd>>, files: seq<FileRef>, forgotten: seq<nat>, p: int, i: int, j: int, e: Fd, w: Fd)
    requires FilesHeld(fds, files, forgotten)
    requires 0 <= p < |fds| && 0 <= i < |fds[p]| && 0 <= j < |fds[p]| && i != j
    requires !fds[p][i].used && !fds[p][j].used && e.used && w.used
    requires 0 < e.fileRef < |files| && 0 < w.fileRef < |files| && e.fileRef != w.fileRef
    requires !files[e.fileRef].used && !files[w.fileRef].used
    ensures FilesHeld(Put(Put(fds, p, i, e), p, j, w),
                      files[e.fileRef := FileRef(true, 1)][w.fileRef := FileRef(true, 1)], forgotten)
  {
    hide FilesHeld;
    NewFile(fds, files, forgotten, p, i, e);
    NewFile(Put(fds, p, i, e), files[e.fileRef := FileRef(true, 1)], forgotten, p, j, w);
  }

  // ----- what fork costs -----

  /** With every reference from a on free and no other, the three lowest are a, a + 1 and a + 2. */
  lemma LowestThree(files: seq<FileRef>, taken: seq<int>, a: int)
    requires TookLowest(files, taken, 3) && 0 < a && a + 2 < |files|
    requires forall f :: 0 < f < |files| ==> (files[f].used <==> f < a)
    ensures taken == [a, a + 1, a + 2]
  {
    assert Free(files, a) && Free(files, a + 1) && Free(files, a + 2);
  }

  lemma MarkedBelow(files: seq<FileRef>, files': seq<FileRef>, a: int)
    requires 0 < a && forall f :: 0 < f < |files| ==> (files[f].used <==> f < a)
    requires Marked(files, [a, a + 1, a + 2], files')
    ensures |files'| == |files| && forall f :: 0 < f < |files'| ==> (files'[f].used <==> f < a + 3)
  {
  }

  lemma LostAt(forgotten: seq<nat>, taken: seq<int>, forgotten': seq<nat>, f: int)
    requires Lost(forgotten, taken, forgotten') && f in taken && 0 <= f < |forgotten|
    ensures |forgotten'| == |forgotten| && forgotten'[f] == forgotten[f] + 1
  {
  }

  /**
    A process forks and both exit: nobody holds a descriptor any more, yet three file
    references are in use, and stay so.
   */
  method ForkLeaks(refs: nat) returns (t: FdTables)
    requires refs >= 7
    ensures t.Valid() && |t.pids| == 2 && t.pids[0] == t.pids[1] == 0
    ensures |t.files| == |t.forgotten| == refs && forall f :: 4 <= f <= 6 ==> t.forgotten[f] == 1 && t.files[f].used
  {
    hide Balanced, FilesHeld, TookLowest, Marked, Filled, Lost;
    t := new FdTables(2, 3, refs, [0, 0, 0, 0, 0, 0]);
    ghost var clean, none := t.files, t.forgotten;
    assert t.pids[0] == 0;
    var p, first := t.WithStdio(1);
    LowestThree(clean, first, 1);
    MarkedBelow(clean, t.files, 1);
    ghost var held := t.files;
    assert t.pids[p] == 1 && t.pids[1 - p] == 0;
    var c, taken := t.CloneAfterFork(1, 2);
    LowestThree(held, taken, 4);
    LostAt(none, taken, t.forgotten, 4);
    forall f | 4 <= f <= 6 ensures t.forgotten[f] == 1 { LostAt(none, taken, t.forgotten, f); }
    t.Release(1);
    t.Release(2);
    UnusedFilesFree(t.fds, t.files, t.forgotten);
    forall f | 4 <= f <= 6 ensures t.files[f].used { ForgottenIsUsed(t.fds, t.files, t.forgotten, f); }
  }
}
