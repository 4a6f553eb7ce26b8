/** The bump allocator of device-visible memory: aligned blocks that never overlap. */
module UsbDma {

  import opened Machine
  import opened Division

  const POOL_SIZE := 0x8_0000

  // ----- bit masks -----

  /** Bitwise and. */
  function And(x: nat, y: nat): nat
    decreases x
  {
    if x == 0 || y == 0 then 0 else (if x % 2 == 1 && y % 2 == 1 then 1 else 0) + 2 * And(x / 2, y / 2)
  }

  ghost predicate PowerOfTwo(a: nat) {
    a == 1 || (a > 1 && a % 2 == 0 && PowerOfTwo(a / 2))
  }

  lemma {:induction false} AndZero(x: nat)
    ensures And(x, 0) == 0
  {
  }

  lemma {:induction false} AndSelf(x: nat)
    ensures And(x, x) == x
  {
    if x != 0 { AndSelf(x / 2); }
  }

  /** The test a & (a - 1) recognises exactly the powers of two. */
  lemma {:induction false} BitTest(a: nat)
    requires a > 0
    ensures And(a, a - 1) == 0 <==> PowerOfTwo(a)
    decreases a
  {
    if a > 1 {
      if a % 2 == 0 {
        assert (a - 1) / 2 == a / 2 - 1;
        BitTest(a / 2);
      } else {
        assert (a - 1) / 2 == a / 2;
        AndSelf(a / 2);
      }
    }
  }

  /** Masking with a - 1 is the remainder by a. */
  lemma {:induction false} MaskIsRem(x: nat, a: nat)
    requires PowerOfTwo(a)
    ensures And(x, a - 1) == Rem(x, a)
    decreases a
  {
    hide Rem;
    if x == 0 {
      DivUnique(0, a, 0, 0);
    } else if a == 1 {
      AndZero(x);
    } else {
      var b := a / 2;
      assert (a - 1) / 2 == b - 1 && (a - 1) % 2 == 1;
      MaskIsRem(x / 2, b);
      RemDouble(x, b);
    }
  }

  lemma RemDouble(x: nat, b: nat)
    requires b > 0
    ensures Rem(x, 2 * b) == x % 2 + 2 * Rem(x / 2, b)
  {
    hide Rem, Quo;
    var h := x / 2;
    DivMod(h, b);
    assert (2 * b) * Quo(h, b) == 2 * (b * Quo(h, b));
    DivUnique(x, 2 * b, Quo(h, b), x % 2 + 2 * Rem(h, b));
  }

  /** align_up32 on 32-bit words. */
  function AlignUp(v: nat, a: nat): int {
    if a == 0 then v
    else
      var s := (v + a - 1) % WORD32;
      s - And(s, a - 1)
  }

  /** The lowest multiple of a at or above v. */
  lemma AlignUpIsLowest(v: nat, a: nat, x: nat)
    requires PowerOfTwo(a) && v + a <= WORD32
    ensures var r := AlignUp(v, a); v <= r < v + a && Rem(r, a) == 0
    ensures v <= x && Rem(x, a) == 0 ==> AlignUp(v, a) <= x
  {
    hide Rem, And;
    var s := v + a - 1;
    MaskIsRem(s, a);
    RoundDown(s, a, x);
  }

  // ----- the pool -----

  datatype Block = Block(off: nat, size: nat)
  datatype Request = Request(size: nat, align: nat)

  /** Alignment zero means sixteen. */
  function Alignment(align: nat): nat { if align == 0 then 16 else align }

  ghost predicate Apart(blocks: seq<Block>) {
    forall i, j :: 0 <= i < j < |blocks| ==> blocks[i].off + blocks[i].size <= blocks[j].off
  }

  ghost predicate Below(blocks: seq<Block>, top: nat) {
    forall i :: 0 <= i < |blocks| ==> blocks[i].size > 0 && blocks[i].off + blocks[i].size <= top
  }

  lemma WrapsOnce(x: nat)
    requires x < 2 * WORD32
    ensures x % WORD32 == if x < WORD32 then x else x - WORD32
  {
  }

  lemma AddBlock(blocks: seq<Block>, top: nat, b: Block)
    requires Apart(blocks) && Below(blocks, top) && top <= b.off && b.size > 0
    ensures Apart(blocks + [b]) && Below(blocks + [b], b.off + b.size)
  {
  }

  class Pool {
    var off: nat
    /** Every block handed out so far. */
    ghost var blocks: seq<Block>

    ghost predicate Valid()
      reads this
    {
      off <= POOL_SIZE && Apart(blocks) && Below(blocks, off)
    }

    constructor ()
      ensures Valid() && off == 0 && blocks == []
    {
      off, blocks := 0, [];
    }

    method Alloc(size: nat, align: nat) returns (b: Option<Block>)
      requires Valid() && size < WORD32 && align < WORD32
      modifies this
      ensures Valid()
      ensures b.Some? <==>
        size > 0 && PowerOfTwo(Alignment(align)) && AlignUp(old(off), Alignment(align)) + size <= POOL_SIZE
      ensures b.None? ==> off == old(off) && blocks == old(blocks)
      ensures b.Some? ==> b.value.size == size && Rem(b.value.off, Alignment(align)) == 0
      ensures b.Some? && align == 0 ==> b.value.off == AlignUp(old(off), 16)
      ensures b.Some? ==> blocks == old(blocks) + [b.value]
      ensures b.Some? ==> b.value.off == AlignUp(old(off), Alignment(align)) >= old(off) && off == b.value.off + size
    {
      hide Rem, And, PowerOfTwo, AlignUp, Apart, Below;
      if size == 0 { return None; }
      var a := if align == 0 then 16 else align;
      BitTest(a);
      if And(a, a - 1) != 0 { return None; }
      PowerBound(a);
      AlignUpIsLowest(off, a, 0);
      var start := AlignUp(off, a);
      WrapsOnce(start + size);
      var next := (start + size) % WORD32;
      if next < start || next > POOL_SIZE { return None; }
      AddBlock(blocks, off, Block(start, size));
      blocks := blocks + [Block(start, size)];
      off := next;
      return Some(Block(start, size));
    }

    /** Any sequence of requests: the blocks handed out are apart, aligned as asked and inside the pool. */
    method AllocAll(requests: seq<Request>) returns (got: seq<Option<Block>>)
      requires Valid() && blocks == []
      requires forall i :: 0 <= i < |requests| ==> requests[i].size < WORD32 && requests[i].align < WORD32
      modifies this
      ensures Valid() && |got| == |requests|
      ensures forall i :: 0 <= i < |got| && got[i].Some? ==>
        && got[i].value.size == requests[i].size > 0
        && Rem(got[i].value.off, Alignment(requests[i].align)) == 0
        && got[i].value.off + got[i].value.size <= POOL_SIZE
      ensures forall i, j :: 0 <= i < j < |got| && got[i].Some? && got[j].Some? ==>
        got[i].value.off + got[i].value.size <= got[j].value.off
    {
      hide Rem, PowerOfTwo, AlignUp;
      got := [];
      for k := 0 to |requests|
        invariant Valid() && |got| == k
        invariant forall i :: 0 <= i < k && got[i].Some? ==>
          && got[i].value.size == requests[i].size > 0
          && Rem(got[i].value.off, Alignment(requests[i].align)) == 0
          && got[i].value.off + got[i].value.size <= off
        invariant forall i, j :: 0 <= i < j < k && got[i].Some? && got[j].Some? ==>
          got[i].value.off + got[i].value.size <= got[j].value.off
      {
        var b := Alloc(requests[k].size, requests[k].align);
        assert b.Some? ==> blocks[|blocks| - 1] == b.value;
        got := got + [b];
      }
    }
  }

  /** A 32-bit power of two is at most half the word. */
  lemma PowerBound(a: nat)
    requires PowerOfTwo(a) && a < WORD32
    ensures a <= 0x8000_0000
  {
    PowerValues();
    BoundFrom(a, 32);
  }

  lemma PowerValues()
    ensures Power(31) == 0x8000_0000 && Power(32) == WORD32
  {
    assert Power(8) == 256;
    assert Power(16) == 256 * Power(8);
    assert Power(24) == 256 * Power(16);
    assert Power(31) == 128 * Power(24);
  }

  function Power(k: nat): nat { if k == 0 then 1 else 2 * Power(k - 1) }

  lemma {:induction false} BoundFrom(a: nat, k: nat)
    requires PowerOfTwo(a) && k > 0 && a < Power(k)
    ensures a <= Power(k - 1)
    decreases k
  {
    if a > 1 { BoundFrom(a / 2, k - 1); }
  }
}
