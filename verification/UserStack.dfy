/**
  The initial stack of a user program: strings, pointer vectors and the auxiliary vector as
  the System V AMD64 ABI lays them out (section 3.4.1), built downwards by pushes.
 */
module UserStack {

  import opened Machine

  /** The bytes of a C string, its terminator left off. */
  type CString = s: seq<byte> | forall i :: 0 <= i < |s| ==> s[i] != 0

  const MAX_STRINGS := 32

  // ----- words in memory -----

  function Bytes(v: nat, n: nat): (r: seq<byte>)
    ensures |r| == n
  {
    if n == 0 then [] else [v % 256] + Bytes(v / 256, n - 1)
  }

  function Value(bs: seq<byte>): nat {
    if bs == [] then 0 else bs[0] + 256 * Value(bs[1..])
  }

  function Pow256(n: nat): nat { if n == 0 then 1 else 256 * Pow256(n - 1) }

  lemma {:induction false} ValueBytes(v: nat, n: nat)
    requires v < Pow256(n)
    ensures Value(Bytes(v, n)) == v
  {
    if n > 0 { ValueBytes(v / 256, n - 1); }
  }

  /** Words lie in memory with the least significant byte first. */
  lemma LittleEndian(m: seq<byte>, a: nat)
    requires a + 8 <= |m|
    ensures U64(m, a) == Quad(m[a], m[a + 1], m[a + 2], m[a + 3])
                         + 0x1_0000_0000 * Quad(m[a + 4], m[a + 5], m[a + 6], m[a + 7])
  {
    var b := m[a..a + 8];
    LowFour(b);
    LowFour(b[4..]);
    assert b[4..][4..] == [];
  }

  function Quad(a: nat, b: nat, c: nat, d: nat): nat { a + 0x100 * b + 0x1_0000 * c + 0x100_0000 * d }

  lemma LowFour(b: seq<byte>)
    requires |b| >= 4
    ensures Value(b) == Quad(b[0], b[1], b[2], b[3]) + 0x1_0000_0000 * Value(b[4..])
  {
    assert b[1..][1..] == b[2..] && b[2..][1..] == b[3..] && b[3..][1..] == b[4..];
    assert Value(b) == b[0] + 256 * Value(b[1..]) && Value(b[1..]) == b[1] + 256 * Value(b[2..]);
    assert Value(b[2..]) == b[2] + 256 * Value(b[3..]) && Value(b[3..]) == b[3] + 256 * Value(b[4..]);
  }

  lemma WordRoundTrip(v: word)
    ensures Value(Bytes(v, 8)) == v
  {
    assert Pow256(4) == 0x1_0000_0000;
    assert Pow256(8) == 256 * 256 * 256 * 256 * Pow256(4);
    ValueBytes(v, 8);
  }

  /** The 64-bit little-endian word at address a. */
  function U64(m: seq<byte>, a: nat): nat
    requires a + 8 <= |m|
  {
    Value(m[a..a + 8])
  }

  // ----- what a program reads at entry -----

  ghost predicate StringAt(m: seq<byte>, p: nat, s: CString) {
    p + |s| < |m| && m[p..p + |s|] == s && m[p + |s|] == 0
  }

  ghost predicate WordsAt(m: seq<byte>, a: nat, ws: seq<nat>) {
    a + 8 * |ws| <= |m| && forall i :: 0 <= i < |ws| ==> U64(m, a + 8 * i) == ws[i]
  }

  /** A NULL-terminated vector of pointers to these strings. */
  ghost predicate StringsAt(m: seq<byte>, a: nat, ptrs: seq<nat>, strs: seq<CString>) {
    && |ptrs| == |strs|
    && WordsAt(m, a, ptrs + [0])
    && forall i :: 0 <= i < |ptrs| ==> ptrs[i] != 0 && StringAt(m, ptrs[i], strs[i])
  }

  datatype Aux = Aux(kind: nat, value: nat)

  function Flat(aux: seq<Aux>): (r: seq<nat>)
    ensures |r| == 2 * |aux|
    ensures forall i :: 0 <= i < |aux| ==> r[2 * i] == aux[i].kind && r[2 * i + 1] == aux[i].value
  {
    if aux == [] then [] else [aux[0].kind, aux[0].value] + Flat(aux[1..])
  }

  /** An auxiliary vector ended by the entry of kind zero. */
  ghost predicate AuxAt(m: seq<byte>, a: nat, aux: seq<Aux>) {
    WordsAt(m, a, Flat(aux) + [0]) && forall i :: 0 <= i < |aux| ==> aux[i].kind != 0
  }

  /** Reading memory upwards from sp yields the argument count and strings, the environment and the auxiliary vector. */
  ghost predicate Reads(m: seq<byte>, sp: nat, args: seq<CString>, envs: seq<CString>, aux: seq<Aux>) {
    exists ap, ep :: ReadsThrough(m, sp, args, envs, aux, ap, ep)
  }

  ghost predicate ReadsThrough(m: seq<byte>, sp: nat, args: seq<CString>, envs: seq<CString>, aux: seq<Aux>,
                               ap: seq<nat>, ep: seq<nat>)
  {
    && WordsAt(m, sp, [|args|])
    && StringsAt(m, sp + 8, ap, args)
    && StringsAt(m, sp + 16 + 8 * |args|, ep, envs)
    && AuxAt(m, sp + 24 + 8 * |args| + 8 * |envs|, aux)
  }

  // ----- the reading is unambiguous -----

  lemma StringByte(m: seq<byte>, p: nat, s: CString, k: nat)
    requires StringAt(m, p, s) && k < |s|
    ensures m[p + k] != 0
  {
    assert m[p + k] == m[p..p + |s|][k];
  }

  lemma StringUnique(m: seq<byte>, p: nat, s: CString, t: CString)
    requires StringAt(m, p, s) && StringAt(m, p, t)
    ensures s == t
  {
    if |s| < |t| {
      StringByte(m, p, t, |s|);
    } else if |t| < |s| {
      StringByte(m, p, s, |t|);
    }
  }

  lemma PointerWord(m: seq<byte>, a: nat, p: seq<nat>, s: seq<CString>, k: nat)
    requires StringsAt(m, a, p, s) && k <= |p|
    ensures a + 8 * k + 8 <= |m| && (U64(m, a + 8 * k) == 0 <==> k == |p|)
    ensures k < |p| ==> U64(m, a + 8 * k) == p[k]
  {
    assert U64(m, a + 8 * k) == (p + [0])[k];
  }

  lemma StringsUnique(m: seq<byte>, a: nat, p: seq<nat>, s: seq<CString>, q: seq<nat>, t: seq<CString>)
    requires StringsAt(m, a, p, s) && StringsAt(m, a, q, t)
    ensures s == t
  {
    hide WordsAt;
    if |p| < |q| {
      PointerWord(m, a, p, s, |p|);
      PointerWord(m, a, q, t, |p|);
    } else if |q| < |p| {
      PointerWord(m, a, p, s, |q|);
      PointerWord(m, a, q, t, |q|);
    } else {
      forall i | 0 <= i < |s|
        ensures s[i] == t[i]
      {
        PointerWord(m, a, p, s, i);
        PointerWord(m, a, q, t, i);
        StringUnique(m, p[i], s[i], t[i]);
      }
    }
  }

  lemma AuxWord(m: seq<byte>, a: nat, x: seq<Aux>, k: nat)
    requires AuxAt(m, a, x) && k <= |x|
    ensures a + 16 * k + 8 <= |m| && (U64(m, a + 16 * k) == 0 <==> k == |x|)
    ensures k < |x| ==> a + 16 * k + 16 <= |m| && Aux(U64(m, a + 16 * k), U64(m, a + 16 * k + 8)) == x[k]
  {
    var v := Flat(x) + [0];
    assert U64(m, a + 8 * (2 * k)) == v[2 * k];
    if k < |x| {
      assert U64(m, a + 8 * (2 * k + 1)) == v[2 * k + 1];
    }
  }

  lemma AuxUnique(m: seq<byte>, a: nat, x: seq<Aux>, y: seq<Aux>)
    requires AuxAt(m, a, x) && AuxAt(m, a, y)
    ensures x == y
  {
    hide AuxAt;
    if |x| < |y| {
      AuxWord(m, a, x, |x|);
      AuxWord(m, a, y, |x|);
    } else if |y| < |x| {
      AuxWord(m, a, x, |y|);
      AuxWord(m, a, y, |y|);
    } else {
      forall i | 0 <= i < |x|
        ensures x[i] == y[i]
      {
        AuxWord(m, a, x, i);
        AuxWord(m, a, y, i);
      }
    }
  }

  /** At most one start-up state can be read from a memory and a stack pointer. */
  lemma ReadsUnique(m: seq<byte>, sp: nat, args: seq<CString>, envs: seq<CString>, aux: seq<Aux>,
                    args': seq<CString>, envs': seq<CString>, aux': seq<Aux>)
    requires Reads(m, sp, args, envs, aux) && Reads(m, sp, args', envs', aux')
    ensures args == args' && envs == envs' && aux == aux'
  {
    hide StringsAt, AuxAt;
    var ap, ep :| ReadsThrough(m, sp, args, envs, aux, ap, ep);
    var ap', ep' :| ReadsThrough(m, sp, args', envs', aux', ap', ep');
    assert U64(m, sp + 8 * 0) == [|args|][0] == [|args'|][0];
    StringsUnique(m, sp + 8, ap, args, ap', args');
    StringsUnique(m, sp + 16 + 8 * |args|, ep, envs, ep', envs');
    AuxUnique(m, sp + 24 + 8 * |args| + 8 * |envs|, aux, aux');
  }

  // ----- the arguments -----

  /** A C argument vector: possibly NULL, with possibly NULL entries. */
  type Vector = Option<seq<Option<CString>>>

  /** The strings taken from a vector: at most 32, up to the first NULL. */
  function Taken(v: Vector, count: int): (r: seq<CString>)
    requires v.Some? ==> count <= |v.value|
    ensures |r| <= MAX_STRINGS
  {
    if v.None? || count <= 0 then [] else Leading(v.value[..if count > MAX_STRINGS then MAX_STRINGS else count])
  }

  function Leading(v: seq<Option<CString>>): (r: seq<CString>)
    ensures |r| <= |v|
    ensures forall i :: 0 <= i < |r| ==> v[i] == Some(r[i])
    ensures |r| < |v| ==> v[|r|].None?
  {
    if v == [] || v[0].None? then [] else [v[0].value] + Leading(v[1..])
  }

  /** Bytes the strings take, terminators included. */
  /** The strings counted are those before the first NULL, or before the count given, at most 32. */
  lemma TakenIs(v: Vector, count: int)
    requires v.Some? ==> count <= |v.value|
    ensures var r := Taken(v, count);
            && (v.None? ==> r == [])
            && |r| <= 32 && (count <= 0 ==> r == [])
            && (v.Some? && count > 0 ==>
                  && |r| <= count
                  && (forall i :: 0 <= i < |r| ==> v.value[i] == Some(r[i]))
                  && (|r| < count && |r| < 32 ==> v.value[|r|].None?))
  {
    hide Leading;
  }

  function Total(strs: seq<CString>): nat {
    if strs == [] then 0 else |strs[0]| + 1 + Total(strs[1..])
  }

  /** What the kernel knows of the image and the current task. */
  datatype Image = Image(top: word, phdr: word, phnum: word, entry: word, base: word,
                         uid: word, euid: word, gid: word, egid: word)
  {
    function AuxVector(): seq<Aux> {
      [Aux(3, phdr), Aux(4, 56), Aux(5, phnum), Aux(9, entry), Aux(7, base), Aux(6, 4096),
       Aux(11, uid), Aux(12, euid), Aux(13, gid), Aux(14, egid)]
    }

    lemma DescribesImage()
      ensures |AuxVector()| == 10 && AuxVector()[0] == Aux(3, phdr) && AuxVector()[1] == Aux(4, 56)
      ensures AuxVector()[2] == Aux(5, phnum) && AuxVector()[3] == Aux(9, entry)
      ensures AuxVector()[4] == Aux(7, base) && AuxVector()[5] == Aux(6, 4096)
    {
    }
  }

  datatype Outcome = Built | NoRoom | WrapsAt(addr: word)

  /** Words pushed for n strings in all: two counted vectors, ten auxiliary entries and their ends. */
  function Words(n: nat): nat { 25 + n }

  /** Bytes the pushes need below the aligned strings, one padding word included for odd counts. */
  function Room(n: nat): nat { 8 * (Words(n) + Words(n) % 2) }

  function AlignDown(a: nat): nat { a - a % 16 }

  lemma AlignedDown(a: nat)
    ensures AlignDown(a) <= a && AlignDown(a) % 16 == 0
  {
  }

  /** Padding and words together are the room, and keep the alignment. */
  lemma RoomFits(a: nat, n: nat)
    ensures Room(n) == 8 * (Words(n) % 2) + 8 * Words(n) && Room(n) % 16 == 0
    ensures Words(n) > 0 && 0 <= Words(n) % 2
    ensures a % 16 == 0 ==> (a - Room(n)) % 16 == 0
  {
    var half := (Words(n) + Words(n) % 2) / 2;
    assert Room(n) == 16 * half;
  }

  class Stack {
    const mem: array<byte>
    var sp: word
    /** Words pushed since the strings, lowest address first. */
    ghost var words: seq<nat>

    ghost predicate Valid()
      reads this, mem
    {
      sp + 8 * |words| <= mem.Length && WordsAt(mem[..], sp, words)
    }

    constructor (memory: array<byte>, top: word)
      requires top <= memory.Length
      ensures mem == memory && sp == top && words == [] && Valid()
    {
      mem, sp, words := memory, top, [];
    }

    /** user_push_u64. */
    method Push(v: word) returns (ok: bool)
      requires Valid()
      modifies this, mem
      ensures Valid() && (ok <==> old(sp) >= 8)
      ensures ok ==> sp == old(sp) - 8 && words == [v] + old(words)
      ensures !ok ==> sp == old(sp) && words == old(words)
      ensures mem[old(sp)..] == old(mem[sp..])
    {
      if sp < 8 { return false; }
      ghost var was, above := mem[..], words;
      sp := sp - 8;
      var bs := Bytes(v, 8);
      forall i | 0 <= i < 8 {
        mem[sp + i] := bs[i];
      }
      words := [v] + words;
      assert mem[..][sp..sp + 8] == bs;
      WordRoundTrip(v);
      Above(was, mem[..], sp, v, above);
      return true;
    }

    /** Pushes an auxiliary entry: its value, then its kind below it. */
    method PushPair(kind: word, value: word, ghost aux: seq<Aux>) returns (ok: bool)
      requires Valid() && words == Flat(aux) + [0, 0]
      modifies this, mem
      ensures Valid() && (ok <==> old(sp) >= 16)
      ensures ok ==> sp == old(sp) - 16 && words == Flat([Aux(kind, value)] + aux) + [0, 0]
      ensures mem[old(sp)..] == old(mem[sp..])
    {
      ghost var start, was := sp, mem[..];
      ok := Push(value);
      if !ok { return; }
      ghost var mid := mem[..];
      ok := Push(kind);
      SameAbove(was, mid, mem[..], start, start - 8);
      FlatCons(Aux(kind, value), aux);
    }

    /** Pushes the pointers of a vector, last one first. */
    method PushVector(ptrs: seq<word>) returns (ok: bool)
      requires Valid()
      modifies this, mem
      ensures Valid() && (ok <==> old(sp) >= 8 * |ptrs|)
      ensures ok ==> sp == old(sp) - 8 * |ptrs| && words == ptrs + old(words)
      ensures mem[old(sp)..] == old(mem[sp..])
    {
      hide WordsAt;
      ghost var start, was, above := sp, mem[..], words;
      var i := |ptrs|;
      while i > 0
        invariant 0 <= i <= |ptrs| && Valid()
        invariant sp == start - 8 * (|ptrs| - i) && words == ptrs[i..] + above
        invariant mem[start..] == was[start..]
      {
        i := i - 1;
        ghost var mid := mem[..];
        ok := Push(ptrs[i]);
        SameAbove(was, mid, mem[..], start, start - 8 * (|ptrs| - i - 1));
        if !ok { return; }
        assert ptrs[i..] == [ptrs[i]] + ptrs[i + 1..];
      }
      assert ptrs[0..] == ptrs;
      return true;
    }

    /** Copies one string with its terminator below sp. */
    method PushString(s: CString)
      requires Valid() && words == [] && |s| + 1 <= sp
      modifies this, mem
      ensures Valid() && words == [] && sp == old(sp) - (|s| + 1) && StringAt(mem[..], sp, s)
      ensures mem[old(sp)..] == old(mem[sp..])
    {
      sp := sp - (|s| + 1);
      forall i | 0 <= i <= |s| {
        mem[sp + i] := if i < |s| then s[i] else 0;
      }
      assert mem[..][sp..sp + |s|] == s;
    }

    /** Copies the strings of a vector, last one first, and tells where each one went. */
    method CopyStrings(strs: seq<CString>) returns (ptrs: seq<word>, wraps: Option<word>)
      requires Valid() && words == []
      modifies this, mem
      ensures Valid() && words == [] && (wraps.None? <==> Total(strs) <= old(sp))
      ensures wraps.None? ==> sp == old(sp) - Total(strs) && PlacedAbove(mem[..], sp, old(sp), ptrs, strs)
      ensures wraps.Some? ==> Escapes(strs, old(sp), wraps.value)
      ensures mem[old(sp)..] == old(mem[sp..])
    {
      hide StringAt;
      ghost var start, was := sp, mem[..];
      ptrs := [];
      var i := |strs|;
      while i > 0
        invariant 0 <= i <= |strs| && Valid() && words == []
        invariant sp == start - Total(strs[i..])
        invariant PlacedAbove(mem[..], sp, start, ptrs, strs[i..])
        invariant mem[start..] == was[start..]
      {
        i := i - 1;
        TotalSuffix(strs, i);
        assert strs[i..][1..] == strs[i + 1..];
        if |strs[i]| + 1 > sp {
          assert EscapesAt(strs, start, Wrapped(sp - (|strs[i]| + 1)), i);
          return ptrs, Some(Wrapped(sp - (|strs[i]| + 1)));
        }
        ghost var mid, above := mem[..], sp;
        PushString(strs[i]);
        SameAbove(was, mid, mem[..], start, above);
        PlacedKept(mid, mem[..], above, start, ptrs, strs[i + 1..]);
        PlacedMore(mem[..], sp, above, start, ptrs, strs[i + 1..], strs[i]);
        ptrs := [sp] + ptrs;
        assert strs[i..] == [strs[i]] + strs[i + 1..];
      }
      assert strs[0..] == strs;
      return ptrs, None;
    }

    /** The auxiliary vector, last entry first. */
    method PushAux(img: Image) returns (ok: bool)
      requires Valid() && words == []
      modifies this, mem
      ensures Valid() && (ok <==> old(sp) >= 176)
      ensures ok ==> sp == old(sp) - 176 && words == Flat(img.AuxVector()) + [0, 0]
      ensures mem[old(sp)..] == old(mem[sp..])
    {
      hide Flat, Valid;
      ghost var start, was, v := sp, mem[..], img.AuxVector();
      ok := PushEnd();
      if !ok { return; }
      ok := PushNext(14, img.egid, v, 9, start, was);
      if !ok { return; }
      ok := PushNext(13, img.gid, v, 8, start, was);
      if !ok { return; }
      ok := PushNext(12, img.euid, v, 7, start, was);
      if !ok { return; }
      ok := PushNext(11, img.uid, v, 6, start, was);
      if !ok { return; }
      ok := PushImage(img, start, was);
    }

    /** The entries that describe the image, below those that describe the user. */
    method PushImage(img: Image, ghost start: nat, ghost was: seq<byte>) returns (ok: bool)
      requires Valid() && words == Flat(img.AuxVector()[6..]) + [0, 0]
      requires sp <= start <= |was| == mem.Length && mem[start..] == was[start..]
      modifies this, mem
      ensures Valid() && (ok <==> old(sp) >= 96)
      ensures ok ==> sp == old(sp) - 96 && words == Flat(img.AuxVector()) + [0, 0]
      ensures mem[start..] == was[start..]
    {
      hide Flat, Valid, Image.AuxVector;
      ghost var v := img.AuxVector();
      img.DescribesImage();
      ok := PushNext(6, 4096, v, 5, start, was);
      if !ok { return; }
      ok := PushNext(7, img.base, v, 4, start, was);
      if !ok { return; }
      ok := PushNext(9, img.entry, v, 3, start, was);
      if !ok { return; }
      ok := PushNext(5, img.phnum, v, 2, start, was);
      if !ok { return; }
      ok := PushNext(4, 56, v, 1, start, was);
      if !ok { return; }
      ok := PushNext(3, img.phdr, v, 0, start, was);
      assert v[0..] == v;
    }

    /** Everything below the strings: 25 words and one for each string. */
    method PushStart(img: Image, ap: seq<word>, ep: seq<word>) returns (ok: bool)
      requires Valid() && words == [] && |ap| <= MAX_STRINGS
      modifies this, mem
      ensures Valid() && (ok <==> old(sp) >= 8 * Words(|ap| + |ep|))
      ensures ok ==> sp == old(sp) - 8 * Words(|ap| + |ep|)
      ensures ok ==> words == StartWords(ap, ep, img.AuxVector())
      ensures mem[old(sp)..] == old(mem[sp..])
    {
      hide Flat, WordsAt, Image.AuxVector;
      ghost var start, was := sp, mem[..];
      ok := PushAux(img);
      if !ok { return; }
      ghost var low, mid := sp, mem[..];
      ok := Push(0);
      SameAbove(was, mid, mem[..], start, low);
      if !ok { return; }
      low, mid := sp, mem[..];
      ok := PushVector(ep);
      SameAbove(was, mid, mem[..], start, low);
      if !ok { return; }
      low, mid := sp, mem[..];
      ok := PushVector(ap + [0]);
      SameAbove(was, mid, mem[..], start, low);
      if !ok { return; }
      low, mid := sp, mem[..];
      ok := Push(|ap|);
      SameAbove(was, mid, mem[..], start, low);
      assert ok ==> words == StartWords(ap, ep, img.AuxVector());
    }

    /**
      Builds the whole stack. It fails exactly when the words do not fit below the strings;
      otherwise a program reads back its arguments, environment and auxiliary vector from an
      aligned stack pointer. Strings longer than the stack top address are copied to an
      address that has wrapped around; the model stops there and tells the address.
     */
    method Build(img: Image, argc: int, argv: Vector, envc: int, envp: Vector) returns (r: Outcome)
      requires Valid() && words == [] && sp == img.top
      requires argv.Some? ==> argc <= |argv.value|
      requires envp.Some? ==> envc <= |envp.value|
      modifies this, mem
      ensures var args, envs := Taken(argv, argc), Taken(envp, envc);
              && (r.WrapsAt? <==> Total(args) + Total(envs) > img.top)
              && (r.WrapsAt? ==> Escapes(envs + args, img.top, r.addr))
              && (!r.WrapsAt? ==>
                    var strings := AlignDown(img.top - Total(args) - Total(envs));
                    && (r == Built <==> Room(|args| + |envs|) <= strings)
                    && (r == Built ==> sp == strings - Room(|args| + |envs|) && sp % 16 == 0
                                       && Reads(mem[..], sp, args, envs, img.AuxVector())))
      ensures mem[img.top..] == old(mem[img.top..])
    {
      hide Flat, Image.AuxVector, Taken, WordsAt, Reads, StringAt, AlignDown, Room;
      ghost var was := mem[..];
      var args := Gather(argv, argc);
      var envs := Gather(envp, envc);
      var ap, wraps := CopyStrings(args);
      if wraps.Some? {
        EscapesFirst(envs, args, img.top, wraps.value);
        return WrapsAt(wraps.value);
      }
      ghost var high, mid := sp, mem[..];
      var ep;
      ep, wraps := CopyStrings(envs);
      ghost var low, strs := sp, mem[..];
      SameAbove(was, mid, strs, img.top, high);
      if wraps.Some? {
        EscapesSecond(envs, args, img.top, wraps.value);
        return WrapsAt(wraps.value);
      }
      PlacedKept(mid, strs, high, img.top, ap, args);
      var ok := Finish(img, args, envs, ap, ep, high);
      SameAbove(was, strs, mem[..], img.top, low);
      return if ok then Built else NoRoom;
    }

    /** The part of the construction below the strings. */
    method Finish(img: Image, ghost args: seq<CString>, ghost envs: seq<CString>, ap: seq<word>, ep: seq<word>,
                  ghost high: nat)
      returns (ok: bool)
      requires Valid() && words == [] && |ap| <= MAX_STRINGS && sp <= high
      requires PlacedAbove(mem[..], high, img.top, ap, args) && PlacedAbove(mem[..], sp, high, ep, envs)
      modifies this, mem
      ensures ok <==> Room(|ap| + |ep|) <= AlignDown(old(sp))
      ensures ok ==> sp == AlignDown(old(sp)) - Room(|ap| + |ep|) && sp % 16 == 0
      ensures ok ==> Reads(mem[..], sp, args, envs, img.AuxVector())
      ensures mem[old(sp)..] == old(mem[sp..])
    {
      hide Flat, Image.AuxVector, WordsAt, Reads, StringAt, StartWords, Words, Room, AlignDown;
      ghost var low, strs := sp, mem[..];
      RoomFits(AlignDown(sp), |ap| + |ep|);
      AlignedDown(sp);
      ok := Align(|ap| + |ep|);
      if !ok { return; }
      ghost var base := sp;
      ok := PushStart(img, ap, ep);
      SameAbove(strs, strs, mem[..], low, base);
      if ok {
        SameAbove(strs, strs, mem[..], high, base);
        PlacedKept(strs, mem[..], high, img.top, ap, args);
        PlacedKept(strs, mem[..], low, high, ep, envs);
        AuxKinds(img);
        Assemble(mem[..], sp, args, envs, img.AuxVector(), ap, ep);
      }
    }

    /** Aligns the stack pointer so that it is aligned again after the pushes for n strings. */
    method Align(n: nat) returns (ok: bool)
      requires Valid() && words == []
      modifies this
      ensures Valid() && words == [] && sp <= old(sp)
      ensures ok <==> AlignDown(old(sp)) >= 8 * (Words(n) % 2)
      ensures ok ==> sp == AlignDown(old(sp)) - 8 * (Words(n) % 2)
    {
      sp := sp - sp % 16;
      if (25 + n) % 2 != 0 {
        if sp < 8 { return false; }
        sp := sp - 8;
      }
      return true;
    }

    /** The entry that ends the auxiliary vector. */
    method PushEnd() returns (ok: bool)
      requires Valid() && words == []
      modifies this, mem
      ensures Valid() && (ok <==> old(sp) >= 16)
      ensures ok ==> sp == old(sp) - 16 && words == Flat([]) + [0, 0]
      ensures mem[old(sp)..] == old(mem[sp..])
    {
      ghost var start, was := sp, mem[..];
      ok := Push(0);
      if !ok { return; }
      ghost var mid := mem[..];
      ok := Push(0);
      SameAbove(was, mid, mem[..], start, start - 8);
    }

    /** Pushes entry k of the vector v, whose later entries are on the stack already. */
    method PushNext(kind: word, value: word, ghost v: seq<Aux>, ghost k: nat, ghost start: nat, ghost was: seq<byte>)
      returns (ok: bool)
      requires k < |v| && v[k] == Aux(kind, value)
      requires Valid() && words == Flat(v[k + 1..]) + [0, 0]
      requires sp <= start <= |was| == mem.Length && mem[start..] == was[start..]
      modifies this, mem
      ensures Valid() && (ok <==> old(sp) >= 16)
      ensures ok ==> sp == old(sp) - 16 && words == Flat(v[k..]) + [0, 0]
      ensures mem[start..] == was[start..]
    {
      ghost var above, mid := sp, mem[..];
      ok := PushPair(kind, value, v[k + 1..]);
      SameAbove(was, mid, mem[..], start, above);
      assert v[k..] == [v[k]] + v[k + 1..];
    }
  }

  /** The counting loop over a vector: strings up to the first NULL, at most 32. */
  method Gather(v: Vector, count: int) returns (strs: seq<CString>)
    requires v.Some? ==> count <= |v.value|
    ensures strs == Taken(v, count)
  {
    var n := count;
    if n < 0 { n := 0; }
    if n > MAX_STRINGS { n := MAX_STRINGS; }
    strs := [];
    for i := 0 to n
      invariant |strs| == i && (i > 0 ==> v.Some?)
      invariant forall j :: 0 <= j < i ==> v.value[j] == Some(strs[j])
    {
      if v.None? || v.value[i].None? { break; }
      strs := strs + [v.value[i].value];
    }
    if v.Some? { LeadingIs(v.value[..n], strs); }
  }

  lemma LeadingIs(v: seq<Option<CString>>, strs: seq<CString>)
    requires |strs| <= |v| && (|strs| < |v| ==> v[|strs|].None?)
    requires forall i :: 0 <= i < |strs| ==> v[i] == Some(strs[i])
    ensures strs == Leading(v)
  {
    var r := Leading(v);
    assert |r| == |strs|;
    forall i | 0 <= i < |strs|
      ensures r[i] == strs[i]
    {
      assert v[i] == Some(r[i]);
    }
  }

  /** The words below the strings, lowest address first. */
  function StartWords(ap: seq<nat>, ep: seq<nat>, aux: seq<Aux>): seq<nat> {
    [|ap|] + ((ap + [0]) + (ep + ([0] + (Flat(aux) + [0, 0]))))
  }

  /** The auxiliary vector of n entries at a has an entry of this kind, and every such entry has this value. */
  ghost predicate Tells(m: seq<byte>, a: nat, n: nat, kind: nat, value: nat)
    requires a + 16 * n <= |m|
  {
    && (exists i :: 0 <= i < n && U64(m, a + 16 * i) == kind)
    && (forall i :: 0 <= i < n && U64(m, a + 16 * i) == kind ==> U64(m, a + 16 * i + 8) == value)
  }

  /** What a program finds in its auxiliary vector, behind the two string vectors. */
  lemma AuxTells(m: seq<byte>, sp: nat, args: seq<CString>, envs: seq<CString>, img: Image)
    requires Reads(m, sp, args, envs, img.AuxVector())
    ensures var a := sp + 24 + 8 * |args| + 8 * |envs|;
            && a + 168 <= |m| && U64(m, a + 160) == 0
            && Tells(m, a, 10, 3, img.phdr) && Tells(m, a, 10, 4, 56) && Tells(m, a, 10, 5, img.phnum)
            && Tells(m, a, 10, 6, 4096) && Tells(m, a, 10, 7, img.base) && Tells(m, a, 10, 9, img.entry)
            && Tells(m, a, 10, 11, img.uid) && Tells(m, a, 10, 12, img.euid)
            && Tells(m, a, 10, 13, img.gid) && Tells(m, a, 10, 14, img.egid)
  {
    hide StringsAt, Flat, Tells, WordsAt, U64;
    var a, v := sp + 24 + 8 * |args| + 8 * |envs|, img.AuxVector();
    assert AuxAt(m, a, v);
    AuxWords(m, a, v);
    hide AuxAt, Reads;
    forall k | 0 <= k < 10 ensures Tells(m, a, 10, v[k].kind, v[k].value) { EntryTells(m, a, v, k); }
    assert v[0].kind == 3 && v[1].kind == 4 && v[2].kind == 5 && v[3].kind == 9 && v[4].kind == 7;
    assert v[5].kind == 6 && v[6].kind == 11 && v[7].kind == 12 && v[8].kind == 13 && v[9].kind == 14;
  }

  lemma AuxWords(m: seq<byte>, a: nat, v: seq<Aux>)
    requires AuxAt(m, a, v)
    ensures a + 16 * |v| + 8 <= |m| && U64(m, a + 16 * |v|) == 0
    ensures forall i :: 0 <= i < |v| ==> U64(m, a + 16 * i) == v[i].kind && U64(m, a + 16 * i + 8) == v[i].value
  {
    hide Flat, U64;
    var ws := Flat(v) + [0];
    assert U64(m, a + 8 * (2 * |v|)) == ws[2 * |v|];
    forall i | 0 <= i < |v| ensures U64(m, a + 16 * i) == v[i].kind && U64(m, a + 16 * i + 8) == v[i].value {
      assert ws[2 * i] == v[i].kind && ws[2 * i + 1] == v[i].value;
      assert U64(m, a + 8 * (2 * i)) == ws[2 * i] && U64(m, a + 8 * (2 * i + 1)) == ws[2 * i + 1];
    }
  }

  lemma EntryTells(m: seq<byte>, a: nat, v: seq<Aux>, k: nat)
    requires k < |v| && a + 16 * |v| <= |m| && forall i, j :: 0 <= i < j < |v| ==> v[i].kind != v[j].kind
    requires forall i :: 0 <= i < |v| ==> U64(m, a + 16 * i) == v[i].kind && U64(m, a + 16 * i + 8) == v[i].value
    ensures Tells(m, a, |v|, v[k].kind, v[k].value)
  {
    assert U64(m, a + 16 * k) == v[k].kind;
    forall i | 0 <= i < |v| && U64(m, a + 16 * i) == v[k].kind ensures U64(m, a + 16 * i + 8) == v[k].value {
      assert v[i].kind == v[k].kind;
    }
  }

  lemma WordsSplit(m: seq<byte>, a: nat, v: seq<nat>, w: seq<nat>)
    requires WordsAt(m, a, v + w)
    ensures WordsAt(m, a, v) && WordsAt(m, a + 8 * |v|, w)
  {
    forall i | 0 <= i < |v|
      ensures U64(m, a + 8 * i) == v[i]
    {
      assert (v + w)[i] == v[i];
    }
    forall i | 0 <= i < |w|
      ensures U64(m, a + 8 * |v| + 8 * i) == w[i]
    {
      assert U64(m, a + 8 * (|v| + i)) == (v + w)[|v| + i];
    }
  }

  /** Words at the stack pointer and strings above them are what a program reads. */
  lemma Assemble(m: seq<byte>, sp: nat, args: seq<CString>, envs: seq<CString>, aux: seq<Aux>,
                 ap: seq<nat>, ep: seq<nat>)
    requires WordsAt(m, sp, StartWords(ap, ep, aux))
    requires |ap| == |args| && forall i :: 0 <= i < |ap| ==> ap[i] != 0 && StringAt(m, ap[i], args[i])
    requires |ep| == |envs| && forall i :: 0 <= i < |ep| ==> ep[i] != 0 && StringAt(m, ep[i], envs[i])
    requires forall i :: 0 <= i < |aux| ==> aux[i].kind != 0
    ensures Reads(m, sp, args, envs, aux)
  {
    hide WordsAt, StringAt, Flat;
    var last := Flat(aux) + [0, 0];
    var tail := ep + ([0] + last);
    WordsSplit(m, sp, [|ap|], (ap + [0]) + tail);
    WordsSplit(m, sp + 8, ap + [0], tail);
    assert tail == (ep + [0]) + last;
    WordsSplit(m, sp + 16 + 8 * |ap|, ep + [0], last);
    assert last == (Flat(aux) + [0]) + [0];
    WordsSplit(m, sp + 24 + 8 * |ap| + 8 * |ep|, Flat(aux) + [0], [0]);
    assert ReadsThrough(m, sp, args, envs, aux, ap, ep);
  }

  lemma AuxKinds(img: Image)
    ensures forall i :: 0 <= i < |img.AuxVector()| ==> img.AuxVector()[i].kind != 0
  {
  }

  lemma FlatCons(x: Aux, aux: seq<Aux>)
    ensures Flat([x] + aux) == [x.kind, x.value] + Flat(aux)
  {
    assert ([x] + aux)[1..] == aux;
  }

  /** Memory from start on is untouched by a step that only wrote below a lower address. */
  lemma SameAbove(was: seq<byte>, mid: seq<byte>, now: seq<byte>, start: nat, low: nat)
    requires low <= start <= |was| == |mid| == |now| && mid[start..] == was[start..] && now[low..] == mid[low..]
    ensures now[start..] == was[start..]
  {
    assert now[start..] == now[low..][start - low..] == mid[low..][start - low..] == mid[start..];
  }

  /** The strings lie between low and high, each at its pointer. */
  ghost predicate PlacedAbove(m: seq<byte>, low: nat, high: nat, ptrs: seq<nat>, strs: seq<CString>) {
    |ptrs| == |strs| && high <= |m|
    && forall i :: 0 <= i < |strs| ==> low <= ptrs[i] && ptrs[i] + |strs[i]| < high && StringAt(m, ptrs[i], strs[i])
  }

  lemma SameSlice(was: seq<byte>, now: seq<byte>, low: nat, a: nat, b: nat)
    requires low <= a <= b <= |was| == |now| && now[low..] == was[low..]
    ensures now[a..b] == was[a..b]
  {
    forall i | a <= i < b
      ensures now[i] == was[i]
    {
      assert now[low..][i - low] == was[low..][i - low];
    }
  }

  lemma PlacedKept(was: seq<byte>, now: seq<byte>, low: nat, high: nat, ptrs: seq<nat>, strs: seq<CString>)
    requires PlacedAbove(was, low, high, ptrs, strs) && low <= |was| == |now| && now[low..] == was[low..]
    ensures PlacedAbove(now, low, high, ptrs, strs)
  {
    forall i | 0 <= i < |strs|
      ensures StringAt(now, ptrs[i], strs[i])
    {
      var p, e := ptrs[i], ptrs[i] + |strs[i]|;
      SameSlice(was, now, low, p, e);
      SameSlice(was, now, low, e, e + 1);
      assert now[e..e + 1][0] == was[e..e + 1][0];
    }
  }

  lemma PlacedMore(m: seq<byte>, low: nat, mid: nat, high: nat, ptrs: seq<nat>, strs: seq<CString>, s: CString)
    requires PlacedAbove(m, mid, high, ptrs, strs) && low + |s| < mid <= high && StringAt(m, low, s)
    ensures PlacedAbove(m, low, high, [low] + ptrs, [s] + strs)
  {
  }

  /**
    Copying the strings, last one first, down from top: the first one that does not fit goes
    to this address, which has wrapped around.
   */
  ghost predicate Escapes(strs: seq<CString>, top: nat, addr: word) {
    exists i :: EscapesAt(strs, top, addr, i)
  }

  /** String i is the one that does not fit. */
  ghost predicate EscapesAt(strs: seq<CString>, top: nat, addr: word, i: int) {
    && 0 <= i < |strs| && Total(strs[i + 1..]) <= top < Total(strs[i..])
    && addr == Wrapped(top - Total(strs[i..]))
  }

  /** An address in 64-bit arithmetic. */
  function Wrapped(a: int): word { a % WORD64 }

  lemma {:induction false} TotalConcat(a: seq<CString>, b: seq<CString>)
    ensures Total(a + b) == Total(a) + Total(b)
  {
    if a == [] {
      assert a + b == b;
    } else {
      assert (a + b)[1..] == a[1..] + b;
      TotalConcat(a[1..], b);
    }
  }

  lemma EscapesFirst(a: seq<CString>, b: seq<CString>, top: nat, addr: word)
    requires Escapes(b, top, addr)
    ensures Escapes(a + b, top, addr)
  {
    hide Total, Wrapped;
    var i :| EscapesAt(b, top, addr, i);
    var k := |a| + i;
    assert (a + b)[k..] == b[i..] && (a + b)[k + 1..] == b[i + 1..];
    assert EscapesAt(a + b, top, addr, k);
  }

  lemma EscapesSecond(a: seq<CString>, b: seq<CString>, top: nat, addr: word)
    requires Total(b) <= top && Escapes(a, top - Total(b), addr)
    ensures Escapes(a + b, top, addr)
  {
    hide Total, Wrapped;
    var i :| EscapesAt(a, top - Total(b), addr, i);
    assert (a + b)[i..] == a[i..] + b && (a + b)[i + 1..] == a[i + 1..] + b;
    TotalConcat(a[i..], b);
    TotalConcat(a[i + 1..], b);
    assert EscapesAt(a + b, top, addr, i);
  }

  lemma TotalSuffix(strs: seq<CString>, i: nat)
    requires i < |strs|
    ensures Total(strs[i..]) == |strs[i]| + 1 + Total(strs[i + 1..])
    ensures Total(strs[i..]) <= Total(strs)
    decreases i
  {
    assert strs[i..][1..] == strs[i + 1..];
    if i == 0 {
      assert strs[0..] == strs;
    } else {
      TotalSuffix(strs, i - 1);
    }
  }

  lemma Above(was: seq<byte>, now: seq<byte>, sp: nat, v: nat, ws: seq<nat>)
    requires |now| == |was| && sp + 8 <= |now| && now[sp + 8..] == was[sp + 8..]
    requires U64(now, sp) == v && WordsAt(was, sp + 8, ws)
    ensures WordsAt(now, sp, [v] + ws)
  {
    forall i | 0 <= i < |ws| + 1
      ensures U64(now, sp + 8 * i) == ([v] + ws)[i]
    {
      if i > 0 {
        var a := sp + 8 + 8 * (i - 1);
        assert U64(was, a) == ws[i - 1];
        SameSlice(was, now, sp + 8, a, a + 8);
      }
    }
  }
}
