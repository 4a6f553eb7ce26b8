/** The Internet checksum of an echo message (section 1 of RFC 1071). */
module InternetChecksum {

  import opened Machine

  const BUFFER := 1600

  /** The sum of the 16-bit big-endian words, the last byte of an odd length in the high half. */
  function Sum(p: seq<byte>): (s: nat)
    ensures s <= 65535 * ((|p| + 1) / 2)
  {
    if |p| == 0 then 0
    else if |p| == 1 then 256 * p[0]
    else 256 * p[0] + p[1] + Sum(p[2..])
  }

  /** The one's complement residue: within 16 bits, congruent, and zero only for zero. */
  predicate IsFolded(acc: nat, f: nat) {
    f <= 65535 && f % 65535 == acc % 65535 && (f == 0 <==> acc == 0)
  }

  lemma FoldedUnique(acc: nat, f: nat, g: nat)
    requires IsFolded(acc, f) && IsFolded(acc, g)
    ensures f == g
  {
    assert f < 65535 ==> f % 65535 == f;
    assert g < 65535 ==> g % 65535 == g;
  }

  /** What the checksum of a message is, whatever way it is computed. */
  ghost predicate IsChecksum(p: seq<byte>, c: nat) {
    c <= 65535 && IsFolded(Sum(p), 65535 - c)
  }

  /** A message verifies exactly when its words sum to a positive multiple of 65535. */
  lemma VerifiesIff(p: seq<byte>)
    ensures IsChecksum(p, 0) <==> Sum(p) > 0 && Sum(p) % 65535 == 0
  {
  }

  /** The folding loop. */
  method Fold(acc: nat) returns (f: nat)
    ensures IsFolded(acc, f)
  {
    f := acc;
    while f / 65536 != 0
      invariant f % 65535 == acc % 65535 && (f == 0 <==> acc == 0)
      decreases f
    {
      FoldStep(f);
      f := f % 65536 + f / 65536;
    }
  }

  lemma FoldStep(f: nat)
    requires f >= 65536
    ensures 0 < f % 65536 + f / 65536 < f
    ensures (f % 65536 + f / 65536) % 65535 == f % 65535
  {
    var h := f / 65536;
    assert f % 65536 + h == f - 65535 * h;
  }

  /**
    edge_cksum16 for data of any length, with its 32-bit accumulator. Up to 131074 bytes the
    accumulator does not overflow; for any length a caller can pass, the result is the
    checksum exactly when it did not.
   */
  method Checksum(p: seq<byte>) returns (c: nat)
    ensures c <= 65535 && IsFolded(Low32(Sum(p)), 65535 - c)
    ensures |p| <= 131074 ==> Sum(p) < WORD32
    ensures |p| < WORD32 ==> (IsChecksum(p, c) <==> Sum(p) < WORD32)
  {
    hide IsFolded, Sum, IsChecksum, Word16, Low32;
    var acc := Words(p);
    var i := |p| - |p| % 2;
    SumTail(p, i);
    if |p| % 2 == 1 {
      AddWraps(Sum(p) - Sum(p[i..]), Word16(p[|p| - 1], 0));
      acc := Low32(acc + Word16(p[|p| - 1], 0));
    }
    var f := Fold(acc);
    FoldedSmall(acc, f);
    c := 65535 - f;
    ShortSum(p);
    OverflowShows(p, c);
  }

  /** The loop over whole words. */
  method Words(p: seq<byte>) returns (acc: nat)
    ensures var rest := Sum(p[|p| - |p| % 2..]); rest <= Sum(p) && acc == Low32(Sum(p) - rest)
  {
    hide Sum, Word16;
    var i := 0;
    acc := 0;
    assert p[0..] == p && acc == Low32(0);
    hide Low32;
    while i + 1 < |p|
      invariant 0 <= i <= |p| && i % 2 == 0
      invariant Sum(p[i..]) <= Sum(p) && acc == Low32(Sum(p) - Sum(p[i..]))
    {
      SumTurn(p, i);
      AddWraps(Sum(p) - Sum(p[i..]), Word16(p[i], p[i + 1]));
      acc := Low32(acc + Word16(p[i], p[i + 1]));
      i := i + 2;
    }
  }

  /** What a 32-bit accumulator keeps. */
  function Low32(x: nat): nat { x % WORD32 }

  function Word16(high: byte, low: byte): nat { 256 * (high as int) + low as int }

  lemma SumBound(p: seq<byte>)
    ensures Sum(p) <= 65535 * ((|p| + 1) / 2)
  {
  }

  lemma {:induction false} ShortSum(p: seq<byte>)
    ensures |p| <= 131074 ==> Sum(p) < WORD32
  {
    hide Sum;
    SumBound(p);
    var words := (|p| + 1) / 2;
    assert |p| <= 131074 ==> words <= 65537;
  }

  lemma {:induction false} SumTurn(p: seq<byte>, i: nat)
    requires i + 1 < |p|
    ensures Sum(p[i..]) == Word16(p[i], p[i + 1]) + Sum(p[i + 2..])
  {
    var q := p[i..];
    assert q[0] == p[i] && q[1] == p[i + 1] && q[2..] == p[i + 2..];
  }

  lemma {:induction false} SumTail(p: seq<byte>, i: nat)
    requires i <= |p| <= i + 1
    ensures Sum(p[i..]) == if i == |p| then 0 else Word16(p[i], 0)
  {
  }

  lemma AddWraps(x: nat, w: nat)
    ensures Low32(Low32(x) + w) == Low32(x + w)
  {
  }

  /** An accumulator that overflowed folds to something else. */
  lemma OverflowShows(p: seq<byte>, c: nat)
    requires c <= 65535 && IsFolded(Low32(Sum(p)), 65535 - c)
    ensures |p| < WORD32 ==> (IsChecksum(p, c) <==> Sum(p) < WORD32)
  {
    hide Sum, IsFolded, Low32;
    SumBound(p);
    if |p| < WORD32 { FoldsApart(Sum(p), 65535 - c); }
  }

  /** 2^32 leaves remainder 1, so what is lost in overflows is missing from the remainder. */
  lemma FoldsApart(sum: nat, f: nat)
    requires IsFolded(Low32(sum), f) && sum < 65535 * WORD32
    ensures IsFolded(sum, f) <==> sum < WORD32
  {
    var q, r := sum / WORD32, sum % WORD32;
    assert sum == 65535 * (65537 * q) + (q + r);
    LostPart(sum, q, r);
  }

  lemma LostPart(sum: nat, q: nat, r: nat)
    requires sum == 65535 * (65537 * q) + (q + r)
    ensures r % 65535 == sum % 65535 ==> q == 65535 * (sum / 65535 - r / 65535 - 65537 * q)
  {
    assert sum == 65535 * (sum / 65535) + sum % 65535 && r == 65535 * (r / 65535) + r % 65535;
  }

  lemma FoldedSmall(acc: nat, f: nat)
    requires IsFolded(acc, f)
    ensures f <= 65535
  {
  }

  /** Storing a checksum in a zero word makes the message verify. */
  lemma FilledVerifies(s: nat, c: nat)
    requires c <= 65535 && IsFolded(s, 65535 - c)
    ensures IsFolded(s + c, 65535)
  {
    var f := 65535 - c;
    assert (s - f) % 65535 == 0;
    assert s + c == (s - f) + 65535;
  }

  /** The sum takes the bytes in pairs, high byte first, and a lone last byte as a high one. */
  lemma {:induction false} SumIs(a: seq<byte>, high: byte, low: byte, b: seq<byte>)
    requires |a| % 2 == 0
    ensures Sum(a + [high, low] + b) == Sum(a) + Sum(b) + 256 * (high as int) + low as int
    ensures Sum(a + [high]) == Sum(a) + 256 * (high as int)
    decreases |a|
  {
    var whole, short := a + [high, low] + b, a + [high];
    if a == [] {
      assert whole[0] == high && whole[1] == low && whole[2..] == b;
    } else {
      SumIs(a[2..], high, low, b);
      assert whole[2..] == a[2..] + [high, low] + b && short[2..] == a[2..] + [high];
      assert whole[0] == a[0] && whole[1] == a[1];
    }
  }

  lemma SumFilled(p: seq<byte>, q: seq<byte>, c: nat)
    requires |p| == |q| >= 4 && p[..2] == q[..2] && p[4..] == q[4..]
    requires p[2] == p[3] == 0 && q[2] == c / 256 && q[3] == c % 256
    ensures Sum(q) == Sum(p) + c
  {
    assert p[2..][2..] == p[4..] && q[2..][2..] == q[4..];
    assert p[0] == p[..2][0] && p[1] == p[..2][1] && q[0] == q[..2][0] && q[1] == q[..2][1];
    assert Sum(p[2..]) == Sum(p[4..]) && Sum(q[2..]) == c + Sum(q[4..]);
  }

  /** The message part of lwip_stack_send_icmp_echo: only the checksum field changes, and the message verifies. */
  method FillEcho(payload: seq<byte>) returns (ok: bool, message: seq<byte>)
    ensures ok <==> 8 <= |payload| <= BUFFER
    ensures ok ==> |message| == |payload| && message[..2] == payload[..2] && message[4..] == payload[4..]
    ensures ok ==> IsChecksum(message, 0)
  {
    hide IsFolded, Sum;
    message := [];
    var n := |payload|;
    if n < 8 || n > BUFFER { return false, message; }
    var buf := new byte[BUFFER](_ => 0);
    for i := 0 to n
      invariant buf[..i] == payload[..i]
    {
      buf[i] := payload[i];
    }
    buf[2], buf[3] := 0, 0;
    ghost var zeroed := buf[..n];
    var c := Checksum(buf[..n]);
    buf[2] := c / 256;
    buf[3] := c % 256;
    message := buf[..n];
    assert zeroed[4..] == payload[4..] == message[4..];
    assert zeroed[..2] == payload[..2] == message[..2];
    SumFilled(zeroed, message, c);
    FilledVerifies(Sum(zeroed), c);
    return true, message;
  }

  /** Word k of a message. */
  function Word(p: seq<byte>, k: nat): nat
    requires 2 * k + 1 < |p|
  {
    256 * (p[2 * k] as int) + p[2 * k + 1] as int
  }

  lemma {:induction false} SumChange(p: seq<byte>, q: seq<byte>, k: nat)
    requires |p| == |q| && 2 * k + 1 < |p|
    requires forall i :: 0 <= i < |p| && i != 2 * k && i != 2 * k + 1 ==> p[i] == q[i]
    ensures Sum(p) - Word(p, k) == Sum(q) - Word(q, k)
    decreases |p|
  {
    if k == 0 {
      assert p[2..] == q[2..];
    } else {
      SumChange(p[2..], q[2..], k - 1);
    }
  }

  /** A change of one word goes unnoticed only between all zeros and all ones. */
  lemma CorruptionDetected(p: seq<byte>, q: seq<byte>, k: nat)
    requires |p| == |q| && 2 * k + 1 < |p|
    requires forall i :: 0 <= i < |p| && i != 2 * k && i != 2 * k + 1 ==> p[i] == q[i]
    requires IsChecksum(p, 0) && IsChecksum(q, 0) && Word(p, k) != Word(q, k)
    ensures {Word(p, k), Word(q, k)} == {0, 65535}
  {
    hide Sum, IsChecksum, Word;
    SumChange(p, q, k);
    VerifiesIff(p);
    VerifiesIff(q);
    WordBound(p, k);
    WordBound(q, k);
    MultiplesApart(Sum(p), Sum(q));
  }

  lemma WordBound(p: seq<byte>, k: nat)
    requires 2 * k + 1 < |p|
    ensures Word(p, k) <= 65535
  {
  }

  /** Two multiples of 65535 no further apart than that, and not equal, are exactly that far apart. */
  lemma MultiplesApart(a: nat, b: nat)
    requires a % 65535 == 0 && b % 65535 == 0
    ensures a != b && -65535 <= a - b <= 65535 ==> a - b == 65535 || a - b == -65535
  {
    var i, j := a / 65535, b / 65535;
    assert a == 65535 * i && b == 65535 * j;
  }
}
