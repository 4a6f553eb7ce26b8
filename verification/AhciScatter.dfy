/**
  How a disk request over a scatter list is cut into AHCI commands: which memory bytes each
  command moves, which sectors it moves them to or from, and when the cutting succeeds.
 */
module AhciScatter {

  import opened Machine

  const SECTOR := 512
  const MAX_PRDT := 16
  const PRDT_MAX_BYTES := 0x40_0000
  const MAX_CMD_SECTORS := 65535
  const MAX_CMDS := 32

  /** One piece of physical memory. */
  datatype Piece = Piece(addr: nat, len: nat)

  /** One entry of a physical region descriptor table, fields as the controller sees them. */
  datatype Prd = Prd(dba: nat, dbau: nat, dbc: nat, irq: bool)
  {
    function Addr(): nat { dba + WORD32 * dbau }
    function Len(): nat { dbc + 1 }
    /** Section 4.2.3.3 of AHCI 1.3.1: 32-bit halves, a 22-bit count, whole sectors. */
    predicate Ok() { dba < WORD32 && dbau < WORD32 && dbc < PRDT_MAX_BYTES && Len() % SECTOR == 0 }
  }

  datatype Command = Command(lba: nat, sectors: nat, prdt: seq<Prd>)

  // ----- bytes -----

  /** The addresses of len bytes from addr on. */
  ghost function Span(addr: nat, len: nat): (r: seq<nat>)
    ensures |r| == len && forall i :: 0 <= i < len ==> r[i] == addr + i
  {
    seq(len, i requires 0 <= i < len => addr + i)
  }

  /** The addresses of a scatter list, in order. */
  ghost function Bytes(sg: seq<Piece>): seq<nat> {
    if sg == [] then [] else Span(sg[0].addr, sg[0].len) + Bytes(sg[1..])
  }

  /** The addresses of the entries of a table, in order. */
  ghost function PrdBytes(prdt: seq<Prd>): seq<nat> {
    if prdt == [] then []
    else PrdBytes(prdt[..|prdt| - 1]) + Span(prdt[|prdt| - 1].Addr(), prdt[|prdt| - 1].Len())
  }

  function Total(sg: seq<Piece>): nat {
    if sg == [] then 0 else sg[0].len + Total(sg[1..])
  }

  /** A byte of memory moved to or from a byte of the disk. */
  datatype Move = Move(disk: nat, addr: nat)

  /** Moving these memory bytes, in order, from the start of a sector on. */
  ghost function Moves(lba: nat, bytes: seq<nat>): (r: seq<Move>)
    ensures |r| == |bytes| && forall i :: 0 <= i < |bytes| ==> r[i] == Move(SECTOR * lba + i, bytes[i])
  {
    seq(|bytes|, i requires 0 <= i < |bytes| => Move(SECTOR * lba + i, bytes[i]))
  }

  /** Everything a sequence of commands moves. */
  ghost function AllMoves(cmds: seq<Command>): seq<Move> {
    if cmds == [] then []
    else AllMoves(cmds[..|cmds| - 1]) + Moves(cmds[|cmds| - 1].lba, PrdBytes(cmds[|cmds| - 1].prdt))
  }

  // ----- what a command must obey -----

  ghost predicate CommandOk(c: Command) {
    && 0 < |c.prdt| <= MAX_PRDT
    && 0 < c.sectors <= MAX_CMD_SECTORS
    && |PrdBytes(c.prdt)| == SECTOR * c.sectors
    && (forall i :: 0 <= i < |c.prdt| ==> c.prdt[i].Ok() && (c.prdt[i].irq <==> i == |c.prdt| - 1))
  }

  /** Each command starts at the sector where the one before it ends. */
  ghost predicate Tiles(cmds: seq<Command>, lba: nat, end: nat) {
    && (forall i :: 0 <= i < |cmds| ==> CommandOk(cmds[i]))
    && (if cmds == [] then lba == end else cmds[0].lba == lba && cmds[|cmds| - 1].lba + cmds[|cmds| - 1].sectors == end)
    && (forall i :: 0 < i < |cmds| ==> cmds[i].lba == cmds[i - 1].lba + cmds[i - 1].sectors)
  }

  ghost predicate WholeSectors(sg: seq<Piece>) {
    forall i :: 0 <= i < |sg| ==> sg[i].len % SECTOR == 0
  }

  /** What C types and physical addresses guarantee of a list. */
  ghost predicate Physical(sg: seq<Piece>) {
    forall i :: 0 <= i < |sg| ==> sg[i].len < WORD32 && sg[i].addr + sg[i].len <= WORD64
  }

  // ----- the cursor -----

  /** The bytes from piece index, offset off, on. */
  ghost function Rest(sg: seq<Piece>, index: nat, off: nat): seq<nat>
    requires index <= |sg| && (index < |sg| ==> off <= sg[index].len)
  {
    if index == |sg| then [] else Span(sg[index].addr + off, sg[index].len - off) + Bytes(sg[index + 1..])
  }

  /** Where a cursor can stand: everything before it is whole sectors. */
  ghost predicate Stands(sg: seq<Piece>, index: nat, off: nat) {
    && index <= |sg| && off % SECTOR == 0
    && (if index < |sg| then off <= sg[index].len else off == 0)
    && forall i :: 0 <= i < index ==> sg[i].len % SECTOR == 0
  }

  /** Less than a sector of the current piece is left. */
  ghost predicate Stuck(sg: seq<Piece>, index: nat, off: nat) {
    index < |sg| && 0 < sg[index].len - off < SECTOR
  }

  /** The bytes before the end of the last whole sector of the first piece that is not whole sectors. */
  function Usable(sg: seq<Piece>): nat {
    if sg == [] then 0
    else if sg[0].len % SECTOR != 0 then sg[0].len - sg[0].len % SECTOR
    else sg[0].len + Usable(sg[1..])
  }

  /** A cursor never passes the usable bytes, and has used them all when it is stuck. */
  lemma {:induction false} UsableAt(sg: seq<Piece>, index: nat, off: nat)
    requires Stands(sg, index, off)
    ensures Total(sg) - |Rest(sg, index, off)| <= Usable(sg)
    ensures Stuck(sg, index, off) ==> Total(sg) - |Rest(sg, index, off)| == Usable(sg) && !WholeSectors(sg)
    decreases |sg|
  {
    if sg != [] {
      if index == 0 {
        UsableFirst(sg, off);
      } else {
        hide Span, Bytes;
        assert index < |sg| ==> sg[1..][index..] == sg[index + 1..];
        assert forall i :: 0 <= i < |sg| - 1 ==> sg[1..][i] == sg[i + 1];
        UsableAt(sg[1..], index - 1, off);
      }
    }
  }

  lemma {:induction false} UsableFirst(sg: seq<Piece>, off: nat)
    requires sg != [] && Stands(sg, 0, off)
    ensures Total(sg) - |Rest(sg, 0, off)| == off <= Usable(sg)
    ensures Stuck(sg, 0, off) ==> off == Usable(sg) && !WholeSectors(sg)
  {
    hide Span, Bytes;
    TotalIsLength(sg[1..]);
    SectorsBelow(sg[0].len, off);
  }

  lemma SectorsBelow(len: nat, off: nat)
    requires off % SECTOR == 0 && off <= len
    ensures off <= len - len % SECTOR
    ensures 0 < len - off < SECTOR ==> off == len - len % SECTOR && len % SECTOR != 0
  {
    var q := off / SECTOR;
    assert off == SECTOR * q;
  }

  lemma {:induction false} WholeIsUsable(sg: seq<Piece>)
    requires WholeSectors(sg)
    ensures Usable(sg) == Total(sg)
  {
    if sg != [] {
      assert forall i :: 0 <= i < |sg| - 1 ==> sg[1..][i] == sg[i + 1];
      WholeIsUsable(sg[1..]);
    }
  }

  /** Cutting to the limits and to whole sectors gives nothing only when less than a sector is there. */
  lemma WholeTake(avail: nat, room: nat)
    requires 0 < avail && 0 < room && room % SECTOR == 0
    ensures var n := Min(Min(avail, PRDT_MAX_BYTES), room);
            var taken := n - n % SECTOR;
            && taken % SECTOR == 0 && taken <= avail && taken <= PRDT_MAX_BYTES && taken <= room
            && (taken == 0 <==> avail < SECTOR)
  {
  }

  lemma EntryOk(sg: seq<Piece>, index: nat, off: nat, taken: nat)
    requires Physical(sg) && index < |sg| && off + taken <= sg[index].len
    requires 0 < taken <= PRDT_MAX_BYTES && taken % SECTOR == 0
    ensures var addr := sg[index].addr + off;
            var e := Prd(addr % WORD32, addr / WORD32, taken - 1, false);
            e.Ok() && e.Addr() == addr
  {
    var addr := sg[index].addr + off;
    assert addr == WORD32 * (addr / WORD32) + addr % WORD32;
  }

  lemma StandsFurther(sg: seq<Piece>, index: nat, off: nat, taken: nat)
    requires Stands(sg, index, off) && index < |sg| && off + taken <= sg[index].len && taken % SECTOR == 0
    ensures Stands(sg, index, off + taken)
  {
    SumOfSectors(off, taken);
  }

  lemma SumOfSectors(a: nat, b: nat)
    requires a % SECTOR == 0 && b % SECTOR == 0
    ensures (a + b) % SECTOR == 0
  {
    assert a == SECTOR * (a / SECTOR) && b == SECTOR * (b / SECTOR);
  }

  lemma SpanSplit(addr: nat, len: nat, n: nat)
    requires n <= len
    ensures Span(addr, len) == Span(addr, n) + Span(addr + n, len - n)
  {
  }

  lemma RestStart(sg: seq<Piece>, index: nat)
    requires index <= |sg|
    ensures Rest(sg, index, 0) == Bytes(sg[index..])
  {
    if index < |sg| { assert sg[index..][1..] == sg[index + 1..]; }
  }

  /** Skipping a used-up piece skips no byte. */
  lemma RestSkip(sg: seq<Piece>, index: nat)
    requires index < |sg|
    ensures Rest(sg, index, sg[index].len) == Rest(sg, index + 1, 0)
  {
    RestStart(sg, index + 1);
  }

  lemma RestTake(sg: seq<Piece>, index: nat, off: nat, n: nat)
    requires index < |sg| && off + n <= sg[index].len
    ensures Rest(sg, index, off) == Span(sg[index].addr + off, n) + Rest(sg, index, off + n)
  {
    hide Span, Bytes;
    SpanSplit(sg[index].addr + off, sg[index].len - off, n);
    assert sg[index].addr + off + n == sg[index].addr + (off + n);
  }

  lemma {:induction false} TotalIsLength(sg: seq<Piece>)
    ensures |Bytes(sg)| == Total(sg)
  {
    if sg != [] { TotalIsLength(sg[1..]); }
  }

  /** When no byte is left, the whole list is whole sectors. */
  lemma {:induction false} NothingLeft(sg: seq<Piece>)
    requires Bytes(sg) == []
    ensures forall i :: 0 <= i < |sg| ==> sg[i].len == 0
  {
    if sg != [] {
      assert |Span(sg[0].addr, sg[0].len)| == 0;
      NothingLeft(sg[1..]);
      assert forall i :: 0 < i < |sg| ==> sg[i] == sg[1..][i - 1];
    }
  }

  lemma FinishedWhole(sg: seq<Piece>, index: nat, off: nat)
    requires Stands(sg, index, off) && Rest(sg, index, off) == []
    ensures WholeSectors(sg)
  {
    if index < |sg| {
      assert |Span(sg[index].addr + off, sg[index].len - off)| == 0;
      NothingLeft(sg[index + 1..]);
      assert forall i :: index < i < |sg| ==> sg[i] == sg[index + 1..][i - index - 1];
    }
  }

  lemma PrdAppend(prdt: seq<Prd>, e: Prd)
    ensures PrdBytes(prdt + [e]) == PrdBytes(prdt) + Span(e.Addr(), e.Len())
  {
    assert (prdt + [e])[..|prdt|] == prdt;
  }

  lemma OneMoreEntry(was: seq<nat>, prdt: seq<Prd>, e: Prd, left: seq<nat>)
    requires was == PrdBytes(prdt) + (Span(e.Addr(), e.Len()) + left)
    ensures was == PrdBytes(prdt + [e]) + left && |PrdBytes(prdt + [e])| == |PrdBytes(prdt)| + e.Len()
  {
    hide PrdBytes, Span;
    PrdAppend(prdt, e);
  }

  /** The interrupt flag changes neither what an entry moves nor whether it is well formed. */
  lemma PrdFlag(prdt: seq<Prd>)
    requires prdt != []
    ensures PrdBytes(prdt[|prdt| - 1 := prdt[|prdt| - 1].(irq := true)]) == PrdBytes(prdt)
    ensures prdt[|prdt| - 1].(irq := true).Ok() == prdt[|prdt| - 1].Ok()
  {
    var n := |prdt| - 1;
    assert prdt[n := prdt[n].(irq := true)][..n] == prdt[..n];
  }

  class Cursor {
    const sg: seq<Piece>
    var index: nat
    var off: nat

    ghost predicate Valid()
      reads this
    {
      Physical(sg) && Stands(sg, index, off)
    }

    ghost function Left(): seq<nat>
      reads this
      requires Valid()
    {
      Rest(sg, index, off)
    }

    constructor (list: seq<Piece>)
      requires Physical(list)
      ensures sg == list && Valid() && Left() == Bytes(list)
    {
      sg, index, off := list, 0, 0;
      new;
      RestStart(sg, 0);
      assert sg[0..] == sg;
    }

    /** Moves past used-up and empty pieces. */
    method Skip()
      requires Valid()
      modifies this
      ensures Valid() && Left() == old(Left())
      ensures index < |sg| ==> off < sg[index].len
    {
      hide Rest;
      while index < |sg| && off >= sg[index].len
        invariant Valid() && Left() == old(Left())
        decreases |sg| - index
      {
        RestSkip(sg, index);
        index := index + 1;
        off := 0;
      }
      EndIsEmpty(sg);
    }

    /** One entry: as much of the current piece as fits, in whole sectors; none when that is nothing. */
    method Entry(room: nat) returns (taken: nat, e: Prd)
      requires Valid() && index < |sg| && off < sg[index].len && 0 < room && room % SECTOR == 0
      modifies this`off
      ensures Valid() && taken <= room && taken % SECTOR == 0
      ensures taken == 0 ==> off == old(off) && Stuck(sg, index, off)
      ensures taken > 0 ==> e.Ok() && !e.irq && e.Len() == taken && old(Left()) == Span(e.Addr(), taken) + Left()
    {
      hide Rest, Prd.Ok, Stands, Physical;
      var addr := sg[index].addr + off;
      var avail := sg[index].len - off;
      taken := avail;
      if taken > PRDT_MAX_BYTES { taken := PRDT_MAX_BYTES; }
      if taken > room { taken := room; }
      WholeTake(avail, room);
      taken := taken - taken % SECTOR;
      e := Prd(0, 0, 0, false);
      if taken > 0 {
        e := Prd(addr % WORD32, addr / WORD32, taken - 1, false);
        EntryOk(sg, index, off, taken);
        RestTake(sg, index, off, taken);
        StandsFurther(sg, index, off, taken);
        off := off + taken;
      }
    }

    /** ahci_fill_prdt: maps up to max bytes into at most 16 entries. */
    method FillPrdt(max: nat) returns (ok: bool, prdt: seq<Prd>, bytes: nat)
      requires Valid() && 0 < max && max % SECTOR == 0
      modifies this
      ensures Valid()
      ensures ok ==> 0 < bytes <= max && bytes % SECTOR == 0 && 0 < |prdt| <= MAX_PRDT && |PrdBytes(prdt)| == bytes
      ensures ok ==> forall i :: 0 <= i < |prdt| ==> prdt[i].Ok() && (prdt[i].irq <==> i == |prdt| - 1)
      ensures ok ==> old(Left()) == PrdBytes(prdt) + Left()
      ensures !ok ==> Left() == old(Left()) && (Left() == [] || Stuck(sg, index, off))
    {
      hide Rest, PrdBytes, Span, Stands, Physical, Stuck, Prd.Ok;
      ghost var was := Left();
      prdt, bytes := [], 0;
      PrdNone();
      while |prdt| < MAX_PRDT && bytes < max
        invariant Valid() && |prdt| <= MAX_PRDT && bytes <= max && bytes % SECTOR == 0
        invariant was == PrdBytes(prdt) + Left() && |PrdBytes(prdt)| == bytes
        invariant forall i :: 0 <= i < |prdt| ==> prdt[i].Ok() && !prdt[i].irq
        invariant bytes == 0 ==> prdt == []
        decreases max - bytes
      {
        Skip();
        if index >= |sg| {
          StandsAtEnd(sg, index, off);
          break;
        }
        var taken, e := Entry(max - bytes);
        if taken == 0 { break; }
        OneMoreEntry(was, prdt, e, Left());
        SumOfSectors(bytes, taken);
        prdt := prdt + [e];
        bytes := bytes + taken;
      }
      if bytes == 0 || bytes % SECTOR != 0 || prdt == [] { return false, prdt, bytes; }
      PrdFlag(prdt);
      prdt := prdt[|prdt| - 1 := prdt[|prdt| - 1].(irq := true)];
      return true, prdt, bytes;
    }
  }

  lemma EndIsEmpty(sg: seq<Piece>)
    ensures Rest(sg, |sg|, 0) == []
  {
  }

  lemma StandsAtEnd(sg: seq<Piece>, index: nat, off: nat)
    requires Stands(sg, index, off) && index >= |sg|
    ensures Rest(sg, index, off) == []
  {
  }

  lemma PrdNone()
    ensures PrdBytes([]) == []
  {
  }

  // ----- the issuing loop -----

  lemma MovesSplit(lba: nat, a: seq<nat>, b: seq<nat>, sectors: nat)
    requires |a| == SECTOR * sectors
    ensures Moves(lba, a + b) == Moves(lba, a) + Moves(lba + sectors, b)
  {
    var l, r := Moves(lba, a + b), Moves(lba, a) + Moves(lba + sectors, b);
    forall i | 0 <= i < |l|
      ensures l[i] == r[i]
    {
    }
  }

  lemma AllMovesAppend(cmds: seq<Command>, c: Command)
    ensures AllMoves(cmds + [c]) == AllMoves(cmds) + Moves(c.lba, PrdBytes(c.prdt))
  {
    assert (cmds + [c])[..|cmds|] == cmds;
  }

  /** How far the loop has come: what was issued, then what is left, is what was asked. */
  ghost predicate Progress(sg: seq<Piece>, lba: nat, cmds: seq<Command>, at: nat, left: seq<nat>) {
    Moves(lba, Bytes(sg)) == AllMoves(cmds) + Moves(at, left) && Tiles(cmds, lba, at)
  }

  lemma ProgressStep(sg: seq<Piece>, lba: nat, cmds: seq<Command>, at: nat, left: seq<nat>, c: Command, left': seq<nat>)
    requires Progress(sg, lba, cmds, at, left) && CommandOk(c) && c.lba == at && left == PrdBytes(c.prdt) + left'
    ensures Progress(sg, lba, cmds + [c], at + c.sectors, left')
  {
    hide PrdBytes, Bytes, CommandOk, Moves, AllMoves;
    CommandBytes(c);
    var b := PrdBytes(c.prdt);
    MovesSplit(at, b, left', c.sectors);
    AllMovesAppend(cmds, c);
    Associate(AllMoves(cmds), Moves(at, b), Moves(at + c.sectors, left'));
    var more := cmds + [c];
    assert forall i :: 0 <= i < |cmds| ==> more[i] == cmds[i];
  }

  lemma Associate(a: seq<Move>, b: seq<Move>, c: seq<Move>)
    ensures a + (b + c) == (a + b) + c
  {
  }

  lemma CommandBytes(c: Command)
    requires CommandOk(c)
    ensures |PrdBytes(c.prdt)| == SECTOR * c.sectors && c.sectors > 0
  {
  }

  lemma ProgressStart(sg: seq<Piece>, lba: nat)
    ensures Progress(sg, lba, [], lba, Bytes(sg))
  {
    assert AllMoves([]) == [];
  }

  /** The bytes one command may map: the low 32 bits of what remains, within the limits. */
  function CommandLimit(remaining: nat): (max: nat)
    ensures max % SECTOR == 0 && max <= SECTOR * MAX_CMD_SECTORS && max <= remaining % WORD32
    ensures remaining % SECTOR == 0 ==> (max == 0 <==> remaining % WORD32 == 0)
    ensures max == remaining % WORD32 - remaining % WORD32 % SECTOR || max == SECTOR * MAX_CMD_SECTORS
  {
    var max := Min(Min(remaining % WORD32, MAX_CMD_SECTORS * SECTOR), MAX_PRDT * PRDT_MAX_BYTES);
    max - max % SECTOR
  }

  /** ahci_submit_rw: one command at a sector. */
  method Submit(cur: Cursor, lba: nat, max: nat) returns (ok: bool, c: Command)
    requires cur.Valid() && 0 < max <= SECTOR * MAX_CMD_SECTORS && max % SECTOR == 0
    modifies cur
    ensures cur.Valid()
    ensures ok ==> CommandOk(c) && c.lba == lba && SECTOR * c.sectors <= max
    ensures ok ==> old(cur.Left()) == PrdBytes(c.prdt) + cur.Left()
    ensures !ok ==> cur.Left() == old(cur.Left()) && (cur.Left() == [] || Stuck(cur.sg, cur.index, cur.off))
  {
    hide Rest, PrdBytes, Stands, Physical, Stuck, Prd.Ok;
    c := Command(lba, 0, []);
    var filled, prdt, bytes := cur.FillPrdt(max);
    if !filled { return false, c; }
    var sectors := bytes / SECTOR % 65536;
    if sectors == 0 { return false, c; }
    return true, Command(lba, sectors, prdt);
  }

  /** When the request can be carried out. */
  ghost predicate Servable(sg: seq<Piece>, count: nat) {
    sg != [] && count > 0 && Total(sg) == SECTOR * count && Total(sg) < WORD32 && WholeSectors(sg)
  }

  /** What the issuing loop keeps. */
  ghost predicate Underway(sg: seq<Piece>, lba: nat, count: nat, cmds: seq<Command>, at: nat, left: seq<nat>,
                           remaining: nat)
  {
    && Progress(sg, lba, cmds, at, left)
    && remaining == |left| && remaining % SECTOR == 0
    && SECTOR * at + remaining == SECTOR * (lba + count) && lba <= at
    && Total(sg) == SECTOR * count
    && remaining / WORD32 == Total(sg) / WORD32
    && |AllMoves(cmds)| + remaining == Total(sg)
  }

  lemma ProgressTells(sg: seq<Piece>, lba: nat, cmds: seq<Command>, at: nat, left: seq<nat>)
    requires Progress(sg, lba, cmds, at, left)
    ensures Tiles(cmds, lba, at) && Moves(lba, Bytes(sg)) == AllMoves(cmds) + Moves(at, left)
    ensures left == [] ==> AllMoves(cmds) == Moves(lba, Bytes(sg))
  {
  }

  lemma UnderwayStep(sg: seq<Piece>, lba: nat, count: nat, cmds: seq<Command>, at: nat, left: seq<nat>, remaining: nat,
                     c: Command, left': seq<nat>)
    requires Underway(sg, lba, count, cmds, at, left, remaining) && SECTOR * c.sectors <= remaining % WORD32
    requires CommandOk(c) && c.lba == at && left == PrdBytes(c.prdt) + left'
    ensures 0 < SECTOR * c.sectors <= remaining
    ensures Underway(sg, lba, count, cmds + [c], at + c.sectors, left', remaining - SECTOR * c.sectors)
  {
    hide Progress, CommandOk, PrdBytes, Total, AllMoves, Moves;
    CommandBytes(c);
    ProgressStep(sg, lba, cmds, at, left, c, left');
    AllMovesAppend(cmds, c);
    LowPart(remaining, SECTOR * c.sectors);
    MovesLength(c);
  }

  lemma UnderwayStart(sg: seq<Piece>, lba: nat, count: nat)
    requires Total(sg) == SECTOR * count
    ensures Underway(sg, lba, count, [], lba, Bytes(sg), SECTOR * count)
  {
    TotalIsLength(sg);
    ProgressStart(sg, lba);
  }

  /** Taking no more than the low 32 bits leaves the high part alone. */
  lemma LowPart(remaining: nat, n: nat)
    requires n <= remaining % WORD32
    ensures n <= remaining && (remaining - n) / WORD32 == remaining / WORD32
  {
  }

  lemma MovesLength(c: Command)
    ensures |Moves(c.lba, PrdBytes(c.prdt))| == |PrdBytes(c.prdt)|
  {
  }

  /** What the loop keeps, at its end and where it gives up. */
  lemma UnderwayTells(sg: seq<Piece>, lba: nat, count: nat, cmds: seq<Command>, at: nat, left: seq<nat>, remaining: nat)
    requires Underway(sg, lba, count, cmds, at, left, remaining)
    ensures Tiles(cmds, lba, at) && Moves(lba, Bytes(sg)) == AllMoves(cmds) + Moves(at, left)
    ensures remaining == 0 ==>
      left == [] && at == lba + count && AllMoves(cmds) == Moves(lba, Bytes(sg)) && Total(sg) < WORD32
    ensures remaining > 0 ==> left != []
    ensures remaining % SECTOR == 0
    ensures remaining > 0 && remaining % WORD32 == 0 ==> Total(sg) >= WORD32
    ensures |AllMoves(cmds)| == Total(sg) - |left| <= Total(sg) % WORD32
    ensures remaining % WORD32 == 0 ==> |AllMoves(cmds)| == Total(sg) % WORD32
    ensures Total(sg) == SECTOR * count
  {
    hide Progress, Total, Tiles;
    ProgressTells(sg, lba, cmds, at, left);
  }

  lemma NothingMoved(sg: seq<Piece>)
    ensures AllMoves([]) == [] && (sg == [] ==> Total(sg) == 0)
  {
  }

  method SumLengths(sg: seq<Piece>) returns (total: nat)
    ensures total == Total(sg)
  {
    total := 0;
    for i := 0 to |sg|
      invariant total + Total(sg[i..]) == Total(sg)
    {
      assert sg[i..][1..] == sg[i + 1..];
      total := total + sg[i].len;
    }
  }

  /**
    ahci_issue_rw_sg with a controller that accepts and completes every command. It succeeds
    exactly on the servable requests, and then moves every byte of the list, in order, to or
    from the asked sectors. A request of the right length that fails has moved the bytes before
    the first piece that is not whole sectors, or as many as the total has beyond a multiple of
    2^32, whichever is less.
   */
  method Issue(lba: nat, count: nat, sg: seq<Piece>, depth: nat) returns (ok: bool, cmds: seq<Command>)
    requires Physical(sg)
    ensures ok <==> Servable(sg, count)
    ensures ok ==> AllMoves(cmds) == Moves(lba, Bytes(sg)) && Tiles(cmds, lba, lba + count)
    ensures exists end :: Tiles(cmds, lba, end)
    ensures exists rest :: Moves(lba, Bytes(sg)) == AllMoves(cmds) + rest
    ensures |AllMoves(cmds)| ==
            if Total(sg) == SECTOR * count then Min(Usable(sg), Total(sg) % WORD32) else 0
  {
    hide Rest, PrdBytes, Stands, Physical, Tiles, Moves, AllMoves, Bytes, Total, CommandOk,
         Underway, WholeSectors, CommandLimit, Usable, Stuck;
    cmds := [];
    NothingMoved(sg);
    ProgressStart(sg, lba);
    ProgressTells(sg, lba, cmds, lba, Bytes(sg));
    if |sg| == 0 || count == 0 { return false, cmds; }
    var total := SumLengths(sg);
    if total != SECTOR * count { return false, cmds; }
    var queue := if depth == 0 then 1 else if depth > MAX_CMDS then MAX_CMDS else depth;
    var cur := new Cursor(sg);
    var remaining: nat, at: nat := SECTOR * count, lba;
    UnderwayStart(sg, lba, count);
    while remaining > 0
      invariant fresh(cur) && cur.sg == sg && cur.Valid()
      invariant Underway(sg, lba, count, cmds, at, cur.Left(), remaining)
    {
      var pending := 0;
      ghost var start := remaining;
      while pending < queue && remaining > 0
        invariant fresh(cur) && cur.sg == sg && cur.Valid() && pending <= queue
        invariant Underway(sg, lba, count, cmds, at, cur.Left(), remaining)
        invariant remaining <= start && (pending > 0 ==> remaining < start)
        decreases remaining
      {
        UnderwayTells(sg, lba, count, cmds, at, cur.Left(), remaining);
        UsableAt(sg, cur.index, cur.off);
        var max := CommandLimit(remaining);
        if max == 0 { return false, cmds; }
        ghost var left := cur.Left();
        var done, c := Submit(cur, at, max);
        if !done {
          UsableAt(sg, cur.index, cur.off);
          return false, cmds;
        }
        UnderwayStep(sg, lba, count, cmds, at, left, remaining, c, cur.Left());
        cmds := cmds + [c];
        pending := pending + 1;
        remaining := remaining - SECTOR * c.sectors;
        at := at + c.sectors;
      }
    }
    UnderwayTells(sg, lba, count, cmds, at, cur.Left(), remaining);
    FinishedWhole(sg, cur.index, cur.off);
    WholeIsUsable(sg);
    return true, cmds;
  }

  /** It happens: a request of 2^32 bytes, in whole sectors and of the right length, fails with nothing moved. */
  method FourGigabytes(lba: nat, depth: nat) returns (ok: bool, cmds: seq<Command>)
    ensures !ok && AllMoves(cmds) == []
  {
    var half := Piece(0, 0x8000_0000);
    var sg := [half, half];
    assert sg[1..] == [half] && [half][1..] == [];
    assert Total([]) == Usable([]) == 0;
    assert Total([half]) == Usable([half]) == half.len;
    assert Total(sg) == WORD32 && Usable(sg) == WORD32;
    ok, cmds := Issue(lba, 0x80_0000, sg, depth);
  }
}
