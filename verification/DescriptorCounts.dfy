/**
  Descriptor entries, open-file references and the counted kernel objects behind them: the
  reference counts as values, and what storing, clearing and copying an entry does to them.
 */
module DescriptorCounts {

  datatype Kind =
    | NoKind | Console | Vfs | PipeR | PipeW | Socket | PtyMaster | PtySlave
    | Eventfd | Timerfd | Signalfd | Epoll | Pidfd

  datatype Fd = Fd(used: bool, kind: Kind, fileRef: int, obj: int, cloexec: bool)

  const NO_FD := Fd(false, NoKind, 0, 0, false)

  datatype FileRef = FileRef(used: bool, refs: int)

  /** A counted object: readers and writers of a pipe, masters and slaves of a pty, or one count. */
  datatype Obj = Obj(used: bool, first: int, second: int)

  const NO_OBJ := Obj(false, 0, 0)
  const CLASSES := 6

  /** Which object table a descriptor of this kind points into, or -1. */
  function Class(k: Kind): (c: int)
    ensures -1 <= c < CLASSES
  {
    match k
    case PipeR | PipeW => 0
    case PtyMaster | PtySlave => 1
    case Eventfd => 2
    case Timerfd => 3
    case Signalfd => 4
    case Epoll => 5
    case _ => -1
  }

  /** The writing end of a pipe and the slave end of a pty are counted second. */
  predicate Second(k: Kind) { k == PipeW || k == PtySlave }

  /** Two kinds of one class are the two ends of one object. */
  lemma KindEnds(k: Kind)
    requires Class(k) >= 0
    ensures Second(k) ==> Class(k) < 2
    ensures forall j: Kind :: Class(j) == Class(k) ==> j == k || Second(j) != Second(k)
  {
  }

  function Refs(o: Obj, k: Kind): int { if Second(k) then o.second else o.first }

  function WithRefs(o: Obj, k: Kind, n: int): Obj { if Second(k) then o.(second := n) else o.(first := n) }

  // ----- counting entries -----

  function CountRow(row: seq<Fd>, sel: Fd -> bool): nat {
    if row == [] then 0 else CountRow(row[..|row| - 1], sel) + if sel(row[|row| - 1]) then 1 else 0
  }

  /** The number of entries, over all processes, that sel selects. */
  function Count(fds: seq<seq<Fd>>, sel: Fd -> bool): nat {
    if fds == [] then 0 else Count(fds[..|fds| - 1], sel) + CountRow(fds[|fds| - 1], sel)
  }

  function NamesObj(k: Kind, id: int): Fd -> bool { (e: Fd) => e.used && e.kind == k && e.obj == id }
  function NamesFile(f: int): Fd -> bool { (e: Fd) => e.used && e.fileRef == f }

  function One(b: bool): nat { if b then 1 else 0 }

  lemma {:induction false} CountRowSet(row: seq<Fd>, i: int, e: Fd, sel: Fd -> bool)
    requires 0 <= i < |row|
    ensures CountRow(row[i := e], sel) + One(sel(row[i])) == CountRow(row, sel) + One(sel(e))
  {
    var n := |row| - 1;
    if i < n {
      CountRowSet(row[..n], i, e, sel);
      assert row[i := e][..n] == row[..n][i := e];
    } else {
      assert row[i := e][..n] == row[..n];
    }
  }

  lemma {:induction false} CountReplace(fds: seq<seq<Fd>>, p: int, row: seq<Fd>, sel: Fd -> bool)
    requires 0 <= p < |fds|
    ensures Count(fds[p := row], sel) + CountRow(fds[p], sel) == Count(fds, sel) + CountRow(row, sel)
  {
    var n := |fds| - 1;
    if p < n {
      CountReplace(fds[..n], p, row, sel);
      assert fds[p := row][..n] == fds[..n][p := row];
    } else {
      assert fds[p := row][..n] == fds[..n];
    }
  }

  function Put(fds: seq<seq<Fd>>, p: int, i: int, e: Fd): seq<seq<Fd>>
    requires 0 <= p < |fds| && 0 <= i < |fds[p]|
  {
    fds[p := fds[p][i := e]]
  }

  /** Overwriting one entry moves each count by what the old and the new entry contribute. */
  lemma CountPut(fds: seq<seq<Fd>>, p: int, i: int, e: Fd, sel: Fd -> bool)
    requires 0 <= p < |fds| && 0 <= i < |fds[p]|
    ensures Count(Put(fds, p, i, e), sel) + One(sel(fds[p][i])) == Count(fds, sel) + One(sel(e))
  {
    CountRowSet(fds[p], i, e, sel);
    CountReplace(fds, p, fds[p][i := e], sel);
  }

  /** An entry is counted. */
  lemma {:induction false} CountRowAtLeast(row: seq<Fd>, i: int, sel: Fd -> bool)
    requires 0 <= i < |row| && sel(row[i])
    ensures CountRow(row, sel) >= 1
  {
    if i < |row| - 1 { CountRowAtLeast(row[..|row| - 1], i, sel); }
  }

  lemma {:induction false} CountAtLeast(fds: seq<seq<Fd>>, p: int, i: int, sel: Fd -> bool)
    requires 0 <= p < |fds| && 0 <= i < |fds[p]| && sel(fds[p][i])
    ensures Count(fds, sel) >= 1
  {
    if p < |fds| - 1 { CountAtLeast(fds[..|fds| - 1], p, i, sel); } else { CountRowAtLeast(fds[p], i, sel); }
  }

  lemma {:induction false} CountRowZero(row: seq<Fd>, sel: Fd -> bool)
    requires forall i :: 0 <= i < |row| ==> !sel(row[i])
    ensures CountRow(row, sel) == 0
  {
    if row != [] { CountRowZero(row[..|row| - 1], sel); }
  }

  lemma {:induction false} CountZero(fds: seq<seq<Fd>>, sel: Fd -> bool)
    requires forall p, i :: 0 <= p < |fds| && 0 <= i < |fds[p]| ==> !sel(fds[p][i])
    ensures Count(fds, sel) == 0
  {
    if fds != [] {
      CountZero(fds[..|fds| - 1], sel);
      CountRowZero(fds[|fds| - 1], sel);
    }
  }

  // ----- objects -----

  /** The object a counted entry names. */
  predicate InTable(objs: seq<seq<Obj>>, k: Kind, id: int) {
    |objs| == CLASSES && Class(k) >= 0 && 0 <= id < |objs[Class(k)]|
  }

  function At(objs: seq<seq<Obj>>, k: Kind, id: int): Obj
    requires InTable(objs, k, id)
  {
    objs[Class(k)][id]
  }

  function Set(objs: seq<seq<Obj>>, k: Kind, id: int, o: Obj): seq<seq<Obj>>
    requires InTable(objs, k, id)
  {
    objs[Class(k) := objs[Class(k)][id := o]]
  }

  /** pty_add_ref, eventfd_add_ref and their kin. */
  function Added(objs: seq<seq<Obj>>, k: Kind, id: int): seq<seq<Obj>> {
    if !InTable(objs, k, id) || !At(objs, k, id).used then objs
    else Set(objs, k, id, WithRefs(At(objs, k, id), k, Refs(At(objs, k, id), k) + 1))
  }

  /** pipe_drop_reader, pty_drop_ref, eventfd_drop_ref and their kin: the last drop frees the slot. */
  function Dropped(objs: seq<seq<Obj>>, k: Kind, id: int): seq<seq<Obj>> {
    if !InTable(objs, k, id) || !At(objs, k, id).used then objs
    else
      var n := Refs(At(objs, k, id), k);
      var o := WithRefs(At(objs, k, id), k, if n > 0 then n - 1 else n);
      Set(objs, k, id, if o.first <= 0 && o.second <= 0 then NO_OBJ else o)
  }

  /**
    Exact counting: every end of every object counts the descriptor entries that name it, and
    an object slot is in use iff some entry names it.
   */
  ghost predicate Balanced(fds: seq<seq<Fd>>, objs: seq<seq<Obj>>) {
    && |objs| == CLASSES
    && (forall c, id :: 0 <= c < CLASSES && 0 <= id < |objs[c]| ==>
          && objs[c][id].first >= 0 && objs[c][id].second >= 0
          && (c >= 2 ==> objs[c][id].second == 0)
          && (objs[c][id].used <==> objs[c][id].first + objs[c][id].second > 0))
    && (forall k, id :: InTable(objs, k, id) ==> Refs(At(objs, k, id), k) == Count(fds, NamesObj(k, id)))
    && (forall p, i :: 0 <= p < |fds| && 0 <= i < |fds[p]| && fds[p][i].used && Class(fds[p][i].kind) >= 0 ==>
          InTable(objs, fds[p][i].kind, fds[p][i].obj))
  }

  /** An entry's object is in use. */
  lemma NamedIsUsed(fds: seq<seq<Fd>>, objs: seq<seq<Obj>>, p: int, i: int)
    requires Balanced(fds, objs) && 0 <= p < |fds| && 0 <= i < |fds[p]| && fds[p][i].used && Class(fds[p][i].kind) >= 0
    ensures InTable(objs, fds[p][i].kind, fds[p][i].obj) && At(objs, fds[p][i].kind, fds[p][i].obj).used
  {
    var e := fds[p][i];
    CountAtLeast(fds, p, i, NamesObj(e.kind, e.obj));
    assert Refs(At(objs, e.kind, e.obj), e.kind) >= 1;
  }

  /** One object changes by one reference; the entry at (p, i) accounts for it. */
  lemma BalancedSet(fds: seq<seq<Fd>>, objs: seq<seq<Obj>>, p: int, i: int, e: Fd, k: Kind, id: int, o: Obj)
    requires Balanced(fds, objs) && 0 <= p < |fds| && 0 <= i < |fds[p]|
    requires InTable(objs, k, id)
    requires o.first >= 0 && o.second >= 0 && (Class(k) >= 2 ==> o.second == 0) && (o.used <==> o.first + o.second > 0)
    requires e.used && Class(e.kind) >= 0 ==> e.kind == k && e.obj == id
    requires fds[p][i].used && Class(fds[p][i].kind) >= 0 ==> fds[p][i].kind == k && fds[p][i].obj == id
    requires forall j: Kind :: Class(j) == Class(k) ==>
               Refs(o, j) == Refs(At(objs, k, id), j) + One(NamesObj(j, id)(e)) - One(NamesObj(j, id)(fds[p][i]))
    ensures Balanced(Put(fds, p, i, e), Set(objs, k, id, o))
  {
    hide Class, Second, Count;
    var fds', objs' := Put(fds, p, i, e), Set(objs, k, id, o);
    forall j, d | InTable(objs', j, d) ensures Refs(At(objs', j, d), j) == Count(fds', NamesObj(j, d)) {
      CountPut(fds, p, i, e, NamesObj(j, d));
      assert InTable(objs, j, d);
      if !(Class(j) == Class(k) && d == id) { assert At(objs', j, d) == At(objs, j, d); }
    }
    forall q, n | 0 <= q < |fds'| && 0 <= n < |fds'[q]| && fds'[q][n].used && Class(fds'[q][n].kind) >= 0
      ensures InTable(objs', fds'[q][n].kind, fds'[q][n].obj)
    {
      if !(q == p && n == i) { assert fds'[q][n] == fds[q][n]; }
    }
  }

  /** Entries that name no object leave the objects as they are. */
  lemma BalancedPlain(fds: seq<seq<Fd>>, objs: seq<seq<Obj>>, p: int, i: int, e: Fd)
    requires Balanced(fds, objs) && 0 <= p < |fds| && 0 <= i < |fds[p]|
    requires forall k, id :: NamesObj(k, id)(e) == NamesObj(k, id)(fds[p][i]) || Class(k) < 0
    requires e.used && Class(e.kind) >= 0 ==> InTable(objs, e.kind, e.obj)
    ensures Balanced(Put(fds, p, i, e), objs)
  {
    var fds' := Put(fds, p, i, e);
    forall j, d | InTable(objs, j, d) ensures Refs(At(objs, j, d), j) == Count(fds', NamesObj(j, d)) {
      CountPut(fds, p, i, e, NamesObj(j, d));
    }
    forall q, n | 0 <= q < |fds'| && 0 <= n < |fds'[q]| && fds'[q][n].used && Class(fds'[q][n].kind) >= 0
      ensures InTable(objs, fds'[q][n].kind, fds'[q][n].obj)
    {
      if !(q == p && n == i) { assert fds'[q][n] == fds[q][n]; }
    }
  }

  /** Storing a copy of a live entry, with the object's count raised. */
  lemma StoreBalanced(fds: seq<seq<Fd>>, objs: seq<seq<Obj>>, p: int, i: int, e: Fd)
    requires Balanced(fds, objs) && 0 <= p < |fds| && 0 <= i < |fds[p]| && !fds[p][i].used && e.used
    requires Class(e.kind) >= 0 ==> InTable(objs, e.kind, e.obj) && At(objs, e.kind, e.obj).used
    ensures Balanced(Put(fds, p, i, e), Added(objs, e.kind, e.obj))
  {
    hide Class, Balanced;
    if Class(e.kind) >= 0 {
      KindEnds(e.kind);
      var o := At(objs, e.kind, e.obj);
      BalancedObj(fds, objs, e.kind, e.obj);
      BalancedSet(fds, objs, p, i, e, e.kind, e.obj, WithRefs(o, e.kind, Refs(o, e.kind) + 1));
    } else {
      BalancedPlain(fds, objs, p, i, e);
      assert Added(objs, e.kind, e.obj) == objs;
    }
  }

  lemma BalancedObj(fds: seq<seq<Fd>>, objs: seq<seq<Obj>>, k: Kind, id: int)
    requires Balanced(fds, objs) && InTable(objs, k, id)
    ensures var o := At(objs, k, id);
            && o.first >= 0 && o.second >= 0
            && (Class(k) >= 2 ==> o.second == 0) && (o.used <==> o.first + o.second > 0)
            && (forall j: Kind :: Class(j) == Class(k) ==> Refs(o, j) == Count(fds, NamesObj(j, id)))
  {
    forall j: Kind | Class(j) == Class(k) ensures Refs(At(objs, k, id), j) == Count(fds, NamesObj(j, id)) {
      assert InTable(objs, j, id) && At(objs, j, id) == At(objs, k, id);
    }
  }

  /** The first entry naming a fresh object. */
  lemma FreshBalanced(fds: seq<seq<Fd>>, objs: seq<seq<Obj>>, p: int, i: int, e: Fd)
    requires Balanced(fds, objs) && 0 <= p < |fds| && 0 <= i < |fds[p]| && !fds[p][i].used && e.used
    requires InTable(objs, e.kind, e.obj) && !At(objs, e.kind, e.obj).used
    ensures Balanced(Put(fds, p, i, e), Set(objs, e.kind, e.obj, WithRefs(Obj(true, 0, 0), e.kind, 1)))
  {
    hide Class, Balanced;
    KindEnds(e.kind);
    BalancedObj(fds, objs, e.kind, e.obj);
    BalancedSet(fds, objs, p, i, e, e.kind, e.obj, WithRefs(Obj(true, 0, 0), e.kind, 1));
  }

  /** Clearing an entry, with the object's count lowered. */
  lemma ClearBalanced(fds: seq<seq<Fd>>, objs: seq<seq<Obj>>, p: int, i: int)
    requires Balanced(fds, objs) && 0 <= p < |fds| && 0 <= i < |fds[p]| && fds[p][i].used
    ensures Balanced(Put(fds, p, i, NO_FD), Dropped(objs, fds[p][i].kind, fds[p][i].obj))
  {
    hide Class, Balanced;
    var e := fds[p][i];
    if Class(e.kind) >= 0 {
      KindEnds(e.kind);
      NamedIsUsed(fds, objs, p, i);
      CountAtLeast(fds, p, i, NamesObj(e.kind, e.obj));
      BalancedObj(fds, objs, e.kind, e.obj);
      var o := At(objs, e.kind, e.obj);
      var o' := WithRefs(o, e.kind, Refs(o, e.kind) - 1);
      BalancedSet(fds, objs, p, i, NO_FD, e.kind, e.obj, if o'.first <= 0 && o'.second <= 0 then NO_OBJ else o');
    } else {
      BalancedPlain(fds, objs, p, i, NO_FD);
    }
  }

  // ----- open-file references -----

  /** file_ref_get. */
  function Gotten(files: seq<FileRef>, f: int): seq<FileRef>
    requires 0 < f < |files|
  {
    files[f := FileRef(true, files[f].refs + 1)]
  }

  /** file_ref_put; putting what is not held changes nothing. */
  function PutBack(files: seq<FileRef>, f: int): seq<FileRef> {
    if !(0 < f < |files|) || !files[f].used || files[f].refs <= 0 then files
    else files[f := FileRef(files[f].refs > 1, files[f].refs - 1)]
  }

  /**
    Each reference is counted exactly: once for every entry that names it, and once for every
    time an entry that named it was forgotten without giving it back.
   */
  ghost predicate FilesHeld(fds: seq<seq<Fd>>, files: seq<FileRef>, forgotten: seq<nat>) {
    && |files| > 0 && |forgotten| == |files|
    && (forall f :: 0 < f < |files| ==>
          && (files[f].used <==> files[f].refs > 0)
          && files[f].refs == Count(fds, NamesFile(f)) + forgotten[f])
    && (forall p, i :: 0 <= p < |fds| && 0 <= i < |fds[p]| && fds[p][i].used ==> 0 < fds[p][i].fileRef < |files|)
  }

  lemma NamedFileIsUsed(fds: seq<seq<Fd>>, files: seq<FileRef>, forgotten: seq<nat>, p: int, i: int)
    requires FilesHeld(fds, files, forgotten) && 0 <= p < |fds| && 0 <= i < |fds[p]| && fds[p][i].used
    ensures 0 < fds[p][i].fileRef < |files| && files[fds[p][i].fileRef].used && files[fds[p][i].fileRef].refs > 0
  {
    CountAtLeast(fds, p, i, NamesFile(fds[p][i].fileRef));
  }

  /** A forgotten reference is lost: whatever the entries are, it is in use. */
  lemma ForgottenIsUsed(fds: seq<seq<Fd>>, files: seq<FileRef>, forgotten: seq<nat>, f: int)
    requires FilesHeld(fds, files, forgotten) && 0 < f < |files| && forgotten[f] > 0
    ensures files[f].used
  {
    assert files[f].refs == Count(fds, NamesFile(f)) + forgotten[f];
  }

  lemma FilesPut(fds: seq<seq<Fd>>, files: seq<FileRef>, forgotten: seq<nat>, p: int, i: int, e: Fd,
                 files': seq<FileRef>, forgotten': seq<nat>)
    requires FilesHeld(fds, files, forgotten) && 0 <= p < |fds| && 0 <= i < |fds[p]|
    requires |files'| == |forgotten'| == |files| && (e.used ==> 0 < e.fileRef < |files|)
    requires forall f :: 0 < f < |files| ==>
               && (files'[f].used <==> files'[f].refs > 0)
               && files'[f].refs - forgotten'[f]
                  == files[f].refs - forgotten[f] + One(NamesFile(f)(e)) - One(NamesFile(f)(fds[p][i]))
    ensures FilesHeld(Put(fds, p, i, e), files', forgotten')
  {
    var fds' := Put(fds, p, i, e);
    forall f | 0 < f < |files| ensures files'[f].refs == Count(fds', NamesFile(f)) + forgotten'[f] {
      CountPut(fds, p, i, e, NamesFile(f));
    }
    forall q, n | 0 <= q < |fds'| && 0 <= n < |fds'[q]| && fds'[q][n].used ensures 0 < fds'[q][n].fileRef < |files| {
      if !(q == p && n == i) { assert fds'[q][n] == fds[q][n]; }
    }
  }

  lemma StoreFiles(fds: seq<seq<Fd>>, files: seq<FileRef>, forgotten: seq<nat>, p: int, i: int, e: Fd)
    requires FilesHeld(fds, files, forgotten) && 0 <= p < |fds| && 0 <= i < |fds[p]| && !fds[p][i].used
    requires e.used && 0 < e.fileRef < |files|
    ensures FilesHeld(Put(fds, p, i, e), Gotten(files, e.fileRef), forgotten)
  {
    assert files[e.fileRef].refs >= 0 by {
      assert files[e.fileRef].refs == Count(fds, NamesFile(e.fileRef)) + forgotten[e.fileRef];
    }
    FilesPut(fds, files, forgotten, p, i, e, Gotten(files, e.fileRef), forgotten);
  }

  lemma ClearFiles(fds: seq<seq<Fd>>, files: seq<FileRef>, forgotten: seq<nat>, p: int, i: int)
    requires FilesHeld(fds, files, forgotten) && 0 <= p < |fds| && 0 <= i < |fds[p]| && fds[p][i].used
    ensures FilesHeld(Put(fds, p, i, NO_FD), PutBack(files, fds[p][i].fileRef), forgotten)
  {
    NamedFileIsUsed(fds, files, forgotten, p, i);
    FilesPut(fds, files, forgotten, p, i, NO_FD, PutBack(files, fds[p][i].fileRef), forgotten);
  }

  /** Taking a free reference that no entry will name. */
  lemma LoseFile(fds: seq<seq<Fd>>, files: seq<FileRef>, forgotten: seq<nat>, f: int)
    requires FilesHeld(fds, files, forgotten) && 0 < f < |files| && !files[f].used
    ensures FilesHeld(fds, files[f := FileRef(true, 1)], forgotten[f := forgotten[f] + 1]) && files[f].refs == 0
  {
    assert files[f].refs == Count(fds, NamesFile(f)) + forgotten[f];
  }

  /** Entries point inside the tables. */
  lemma EntryInTables(fds: seq<seq<Fd>>, files: seq<FileRef>, forgotten: seq<nat>, objs: seq<seq<Obj>>, p: int, i: int)
    requires Balanced(fds, objs) && FilesHeld(fds, files, forgotten)
    requires 0 <= p < |fds| && 0 <= i < |fds[p]| && fds[p][i].used
    ensures Class(fds[p][i].kind) >= 0 ==> InTable(objs, fds[p][i].kind, fds[p][i].obj)
    ensures 0 < fds[p][i].fileRef < |files|
  {
  }

  lemma FilesSame(fds: seq<seq<Fd>>, files: seq<FileRef>, forgotten: seq<nat>, p: int, i: int, e: Fd)
    requires FilesHeld(fds, files, forgotten) && 0 <= p < |fds| && 0 <= i < |fds[p]|
    requires e.used == fds[p][i].used && e.fileRef == fds[p][i].fileRef
    ensures FilesHeld(Put(fds, p, i, e), files, forgotten)
  {
    FilesPut(fds, files, forgotten, p, i, e, files, forgotten);
  }

  /** What forgetting an entry adds to the forgotten references. */
  function Forgetting(forgotten: seq<nat>, e: Fd): seq<nat> {
    if e.used && 0 <= e.fileRef < |forgotten| then forgotten[e.fileRef := forgotten[e.fileRef] + 1] else forgotten
  }

  lemma FilesForget(fds: seq<seq<Fd>>, files: seq<FileRef>, forgotten: seq<nat>, p: int, i: int)
    requires FilesHeld(fds, files, forgotten) && 0 <= p < |fds| && 0 <= i < |fds[p]|
    ensures FilesHeld(Put(fds, p, i, NO_FD), files, Forgetting(forgotten, fds[p][i]))
  {
    FilesPut(fds, files, forgotten, p, i, NO_FD, files, Forgetting(forgotten, fds[p][i]));
  }

  // ----- overwriting entries -----

  lemma PutTwice(fds: seq<seq<Fd>>, p: int, i: int, a: Fd, b: Fd)
    requires 0 <= p < |fds| && 0 <= i < |fds[p]|
    ensures Put(Put(fds, p, i, a), p, i, b) == Put(fds, p, i, b)
  {
    assert fds[p][i := a][i := b] == fds[p][i := b];
  }

  lemma PutSame(fds: seq<seq<Fd>>, p: int, i: int)
    requires 0 <= p < |fds| && 0 <= i < |fds[p]|
    ensures fds[p][i] == NO_FD ==> Put(fds, p, i, NO_FD) == fds
  {
    if fds[p][i] == NO_FD { assert fds[p][i := NO_FD] == fds[p]; }
  }

  /** A fresh file reference, named by the new entry. */
  lemma NewFile(fds: seq<seq<Fd>>, files: seq<FileRef>, forgotten: seq<nat>, p: int, i: int, e: Fd)
    requires FilesHeld(fds, files, forgotten) && 0 <= p < |fds| && 0 <= i < |fds[p]| && !fds[p][i].used
    requires e.used && 0 < e.fileRef < |files| && !files[e.fileRef].used
    ensures FilesHeld(Put(fds, p, i, e), files[e.fileRef := FileRef(true, 1)], forgotten)
  {
    LoseFile(fds, files, forgotten, e.fileRef);
    FilesPut(fds, files, forgotten, p, i, e, files[e.fileRef := FileRef(true, 1)], forgotten);
  }

  lemma BalancedSizes(fds: seq<seq<Fd>>, objs: seq<seq<Obj>>)
    requires Balanced(fds, objs)
    ensures |objs| == CLASSES
  {
  }

  lemma IdleIsNoObj(fds: seq<seq<Fd>>, objs: seq<seq<Obj>>, k: Kind, id: int)
    requires Balanced(fds, objs) && InTable(objs, k, id) && !At(objs, k, id).used
    ensures At(objs, k, id) == NO_OBJ
  {
  }

  /** Dropping the only reference of a fresh object gives its slot back. */
  lemma DropFresh(objs: seq<seq<Obj>>, k: Kind, id: int)
    requires InTable(objs, k, id) && At(objs, k, id) == NO_OBJ && !Second(k)
    ensures Dropped(Set(objs, k, id, Obj(true, 1, 0)), k, id) == objs
  {
    var c := Class(k);
    assert objs[c][id := Obj(true, 1, 0)][id := NO_OBJ] == objs[c];
  }

  lemma SetTwice(objs: seq<seq<Obj>>, k: Kind, id: int, a: Obj, b: Obj)
    requires InTable(objs, k, id)
    ensures Set(Set(objs, k, id, a), k, id, b) == Set(objs, k, id, b)
  {
    assert objs[Class(k)][id := a][id := b] == objs[Class(k)][id := b];
  }

  lemma SetBack(objs: seq<seq<Obj>>, k: Kind, id: int, a: Obj)
    requires InTable(objs, k, id) && At(objs, k, id) == NO_OBJ
    ensures Set(Set(objs, k, id, a), k, id, NO_OBJ) == objs
  {
    assert objs[Class(k)][id := a][id := NO_OBJ] == objs[Class(k)];
  }

  lemma UnusedFilesFree(fds: seq<seq<Fd>>, files: seq<FileRef>, forgotten: seq<nat>)
    requires FilesHeld(fds, files, forgotten)
    ensures |files| > 0 && |forgotten| == |files|
    ensures forall h :: 0 < h < |files| && !files[h].used ==> files[h].refs == 0
  {
    forall h | 0 < h < |files| && !files[h].used ensures files[h].refs == 0 {
      LoseFile(fds, files, forgotten, h);
    }
  }

  // ----- what exact counting means -----

  ghost predicate Named(fds: seq<seq<Fd>>, c: int, id: int) {
    exists p, i :: 0 <= p < |fds| && 0 <= i < |fds[p]| && NamesIt(fds[p][i], c, id)
  }

  predicate NamesIt(e: Fd, c: int, id: int) {
    e.used && Class(e.kind) == c && e.obj == id
  }

  /** An object slot is in use iff some descriptor entry of some process names it. */
  lemma UsedIffNamed(fds: seq<seq<Fd>>, objs: seq<seq<Obj>>, c: int, id: int)
    requires Balanced(fds, objs) && 0 <= c < CLASSES && 0 <= id < |objs[c]|
    ensures objs[c][id].used <==> Named(fds, c, id)
  {
    if Named(fds, c, id) {
      var p, i :| 0 <= p < |fds| && 0 <= i < |fds[p]| && NamesIt(fds[p][i], c, id);
      NamedIsUsed(fds, objs, p, i);
    } else {
      UnnamedIsIdle(fds, objs, c, id);
    }
  }

  lemma UnnamedIsIdle(fds: seq<seq<Fd>>, objs: seq<seq<Obj>>, c: int, id: int)
    requires Balanced(fds, objs) && 0 <= c < CLASSES && 0 <= id < |objs[c]| && !Named(fds, c, id)
    ensures !objs[c][id].used
  {
    var ends := if c == 0 then (PipeR, PipeW) else if c == 1 then (PtyMaster, PtySlave)
                else if c == 2 then (Eventfd, Eventfd) else if c == 3 then (Timerfd, Timerfd)
                else if c == 4 then (Signalfd, Signalfd) else (Epoll, Epoll);
    assert InTable(objs, ends.0, id) && InTable(objs, ends.1, id);
    CountZero(fds, NamesObj(ends.0, id));
    CountZero(fds, NamesObj(ends.1, id));
  }
}
