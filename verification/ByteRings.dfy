/**
  The byte ring behind a pipe and behind each direction of a pseudo terminal, and the pipe
  built on it: whatever the interleaving of reads and writes, bytes come out in the order
  they were accepted, none lost and none twice.
 */
module ByteRings {

  import opened Machine

  /** Size of the bounce buffer through which a read copies to user memory. */
  const CHUNK := 4096

  /** Position a of a ring of n bytes, at most once around. */
  function Wrap(n: nat, a: nat): nat { if a < n then a else a - n }

  lemma WrapIsMod(n: nat, a: nat)
    requires 0 < n && a < 2 * n
    ensures a % n == Wrap(n, a)
  {
    Multiples(n, a / n);
  }

  /** The position after w, and the one before it. */
  function Next(n: nat, w: nat): (r: nat)
    requires w < n
    ensures r == Wrap(n, w + 1) < n
  {
    WrapIsMod(n, w + 1);
    (w + 1) % n
  }

  function Back(n: nat, w: nat): (r: nat)
    requires w < n
    ensures r == Wrap(n, w + n - 1) < n
  {
    WrapIsMod(n, w + n - 1);
    (w + n - 1) % n
  }

  lemma Multiples(n: nat, q: nat)
    ensures q >= 2 ==> n * q >= n * 2
  {
  }

  /** What a read or write call answers. */
  datatype Answer =
    | Data(bytes: seq<byte>)   // a read: these bytes
    | Wrote(n: nat)            // a write: this many bytes taken
    | Again                    // -EAGAIN
    | Broken                   // -EPIPE
    | Sleeps                   // waits, or is interrupted while waiting

  const NL: byte := 10

  predicate Delimits(c: byte, eof: byte) { c == NL || c == eof }

  /** Length of the first line of s, its delimiter included; all of s when there is none. */
  function LineLen(s: seq<byte>, eof: byte): (n: nat)
    ensures n <= |s|
    ensures forall i :: 0 <= i < n - 1 ==> !Delimits(s[i], eof)
    ensures n < |s| ==> n > 0 && Delimits(s[n - 1], eof)
    ensures n > 0 || s == []
  {
    if s == [] then 0 else if Delimits(s[0], eof) then 1 else 1 + LineLen(s[1..], eof)
  }

  /** s with as much of e appended as a ring of the given size has room for. */
  function Fill(s: seq<byte>, e: seq<byte>, size: nat): (r: seq<byte>)
    requires |s| <= size
    ensures |r| <= size
  {
    s + e[..Min(|e|, size - |s|)]
  }

  class Ring {
    const buf: array<byte>
    var rpos: nat
    var wpos: nat
    var count: nat

    ghost predicate Valid()
      reads this
    {
      0 < buf.Length && rpos < buf.Length && count <= buf.Length && wpos == Wrap(buf.Length, rpos + count)
    }

    ghost function Contents(): (s: seq<byte>)
      reads this, buf
      requires Valid()
      ensures |s| == count
    {
      (buf[..] + buf[..])[rpos..rpos + count]
    }

    constructor (size: nat)
      requires size > 0
      ensures Valid() && fresh(buf) && buf.Length == size && Contents() == []
    {
      buf := new byte[size](_ => 0);
      rpos, wpos, count := 0, 0, 0;
    }

    /** pty_ring_push, and the store step of a pipe write. */
    method Push(c: byte) returns (ok: bool)
      requires Valid()
      modifies this, buf
      ensures Valid() && (ok <==> old(count) < buf.Length)
      ensures Contents() == if ok then old(Contents()) + [c] else old(Contents())
    {
      hide Next, Back;
      if count >= buf.Length { return false; }
      ghost var was := Contents();
      buf[wpos] := c;
      wpos := Next(buf.Length, wpos);
      count := count + 1;
      assert Contents() == was + [c];
      return true;
    }

    /** The load step of a read. */
    method Pop() returns (c: byte)
      requires Valid() && count > 0
      modifies this
      ensures Valid() && old(Contents()) == [c] + Contents()
    {
      hide Next, Back;
      ghost var was := Contents();
      c := buf[rpos];
      rpos := Next(buf.Length, rpos);
      count := count - 1;
      assert was == [c] + Contents();
    }

    /** The last byte put in. */
    method Last() returns (c: byte)
      requires Valid() && count > 0
      ensures c == Contents()[count - 1]
    {
      hide Next, Back;
      c := buf[Back(buf.Length, wpos)];
    }

    /** Takes the last byte back, as an erase does. */
    method DropLast()
      requires Valid() && count > 0
      modifies this
      ensures Valid() && Contents() == old(Contents())[..old(count) - 1]
    {
      hide Next, Back;
      wpos := Back(buf.Length, wpos);
      count := count - 1;
    }

    /** Byte i of the contents sits i places after the read position, around the end. */
    lemma ContentsAt(i: nat)
      requires Valid() && i < count
      ensures Contents()[i] == buf[Wrap(buf.Length, rpos + i)]
    {
    }

    /** pty_slave_input_have_canonical_line: some byte is a newline or the end-of-file byte. */
    method HasDelimiter(eof: byte) returns (found: bool)
      requires Valid()
      ensures found <==> exists i :: 0 <= i < count && Delimits(Contents()[i], eof)
    {
      hide Contents, Next, Back;
      var cnt, pos := count, rpos;
      while cnt > 0
        invariant 0 <= cnt <= count && pos == Wrap(buf.Length, rpos + (count - cnt))
        invariant forall i :: 0 <= i < count - cnt ==> !Delimits(Contents()[i], eof)
      {
        ContentsAt(count - cnt);
        if Delimits(buf[pos], eof) { return true; }
        pos := Next(buf.Length, pos);
        cnt := cnt - 1;
      }
      return false;
    }

    /** The counting loop of pty_slave_read_limit. */
    method LineLimit(eof: byte, req: nat) returns (n: nat)
      requires Valid() && req <= count
      ensures n == Min(req, LineLen(Contents(), eof))
    {
      hide Contents, Next, Back;
      var cnt, pos := count, rpos;
      n := 0;
      while cnt > 0 && n < req
        invariant 0 <= cnt <= count && n == count - cnt <= req && pos == Wrap(buf.Length, rpos + n)
        invariant forall i :: 0 <= i < n ==> !Delimits(Contents()[i], eof)
      {
        ContentsAt(n);
        var c := buf[pos];
        n := n + 1;
        pos := Next(buf.Length, pos);
        cnt := cnt - 1;
        if Delimits(c, eof) { break; }
      }
    }

    /** pty_echo_seq_to_master: pushes bytes until one does not fit. */
    method PushAll(e: seq<byte>)
      requires Valid()
      modifies this, buf
      ensures Valid() && Contents() == Fill(old(Contents()), e, buf.Length)
    {
      hide Contents;
      for i := 0 to |e|
        invariant Valid() && old(count) + i <= buf.Length && Contents() == old(Contents()) + e[..i]
      {
        var ok := Push(e[i]);
        if !ok { break; }
      }
    }

    /** Takes n bytes out, through a bounce buffer that is flushed whenever it is full and at the end. */
    method Take(n: nat) returns (out: seq<byte>)
      requires Valid() && n <= count
      modifies this
      ensures Valid() && |out| == n && old(Contents()) == out + Contents()
    {
      hide Contents;
      ghost var was := Contents();
      var chunk := new byte[CHUNK](_ => 0);
      out := [];
      for i := 0 to n
        invariant Valid() && count == |was| - i && Contents() == was[i..]
        invariant |out| <= i && i - |out| == (if i == n then 0 else i % CHUNK)
        invariant out + chunk[..i - |out|] == was[..i]
      {
        ghost var before, k := chunk[..], i - |out|;
        var c := Pop();
        FirstOff(was, i, c, Contents());
        chunk[i % CHUNK] := c;
        ChunkGrows(out, before, k, c, was, i);
        assert chunk[..] == before[k := c];
        NextInChunk(i);
        if i % CHUNK == CHUNK - 1 || i + 1 == n {
          out := out + chunk[..i % CHUNK + 1];
        }
      }
    }
  }

  lemma FirstOff(was: seq<byte>, i: nat, c: byte, rest: seq<byte>)
    requires i < |was| && was[i..] == [c] + rest
    ensures c == was[i] && rest == was[i + 1..] && |rest| == |was| - i - 1
  {
    assert was[i..][0] == c && was[i..][1..] == was[i + 1..];
    assert ([c] + rest)[1..] == rest;
  }

  lemma ChunkGrows(out: seq<byte>, chunk: seq<byte>, k: nat, c: byte, was: seq<byte>, i: nat)
    requires k < |chunk| && i < |was| && out + chunk[..k] == was[..i] && c == was[i]
    ensures out + chunk[k := c][..k + 1] == was[..i + 1]
  {
    assert chunk[k := c][..k + 1] == chunk[..k] + [c];
    assert out + (chunk[..k] + [c]) == (out + chunk[..k]) + [c];
  }

  lemma NextInChunk(i: nat)
    ensures (i + 1) % CHUNK == if i % CHUNK == CHUNK - 1 then 0 else i % CHUNK + 1
  {
  }

  // ----- the pipe -----

  /** What user programs do with the two ends of one pipe. */
  datatype PipeCall =
    | Read(len: nat, nonblock: bool)
    | Write(bytes: seq<byte>, nonblock: bool)
    | Ends(readers: nat, writers: nat)   // descriptors opened or closed elsewhere

  datatype PipeState = PipeState(bytes: seq<byte>, readers: nat, writers: nat)
  {
    function Answers(call: PipeCall, size: nat): Answer {
      match call
      case Read(len, nonblock) =>
        if len == 0 then Data([])
        else if bytes != [] then Data(bytes[..Min(len, |bytes|)])
        else if writers == 0 then Data([])
        else if nonblock then Again
        else Sleeps
      case Write(data, nonblock) =>
        if data == [] then Wrote(0)
        else if readers == 0 then Broken
        else if |bytes| < size then Wrote(Min(|data|, size - |bytes|))
        else if nonblock then Again
        else Sleeps
      case Ends(_, _) => Wrote(0)
    }

    function After(call: PipeCall, size: nat): PipeState {
      match call
      case Read(len, _) => this.(bytes := bytes[Min(len, |bytes|)..])
      case Write(data, _) =>
        if readers == 0 || |bytes| > size then this
        else this.(bytes := bytes + data[..Min(|data|, size - |bytes|)])
      case Ends(r, w) => this.(readers := r, writers := w)
    }
  }

  /** The bytes a call takes from the writer, judged by its answer alone. */
  function Accepted(call: PipeCall, a: Answer): seq<byte> {
    if call.Write? && a.Wrote? && a.n <= |call.bytes| then call.bytes[..a.n] else []
  }

  function AllAccepted(calls: seq<PipeCall>, answers: seq<Answer>): seq<byte>
    requires |calls| == |answers|
  {
    if calls == [] then []
    else AllAccepted(calls[..|calls| - 1], answers[..|calls| - 1]) + Accepted(calls[|calls| - 1], answers[|calls| - 1])
  }

  function AllRead(answers: seq<Answer>): seq<byte> {
    if answers == [] then []
    else
      var last := answers[|answers| - 1];
      AllRead(answers[..|answers| - 1]) + (if last.Data? then last.bytes else [])
  }

  function AfterAll(s: PipeState, calls: seq<PipeCall>, size: nat): PipeState {
    if calls == [] then s else AfterAll(s, calls[..|calls| - 1], size).After(calls[|calls| - 1], size)
  }

  function AllAnswers(s: PipeState, calls: seq<PipeCall>, size: nat): (r: seq<Answer>)
    ensures |r| == |calls|
  {
    if calls == [] then []
    else
      var init := calls[..|calls| - 1];
      AllAnswers(s, init, size) + [AfterAll(s, init, size).Answers(calls[|calls| - 1], size)]
  }

  /**
    For every interleaving of reads and writes: the bytes read, followed by what the ring
    still holds, are the bytes it held at first followed by those accepted; and the ring
    never holds more than its size.
   */
  lemma {:induction false} PipeConserves(s: PipeState, calls: seq<PipeCall>, size: nat)
    requires |s.bytes| <= size
    ensures var answers := AllAnswers(s, calls, size);
            AllRead(answers) + AfterAll(s, calls, size).bytes == s.bytes + AllAccepted(calls, answers)
    ensures |AfterAll(s, calls, size).bytes| <= size
  {
    hide PipeState.Answers, PipeState.After, Accepted;
    if calls != [] {
      var init, call := calls[..|calls| - 1], calls[|calls| - 1];
      PipeConserves(s, init, size);
      var mid := AfterAll(s, init, size);
      var before := AllAnswers(s, init, size);
      var a := mid.Answers(call, size);
      var got := if a.Data? then a.bytes else [];
      OneCall(mid, call, size);
      var rest, took := mid.After(call, size).bytes, Accepted(call, a);
      Regroup(AllRead(before), got, rest, mid.bytes, took, s.bytes, AllAccepted(init, before));
      LastAnswer(s, calls, size);
    }
  }

  lemma Regroup(read: seq<byte>, got: seq<byte>, rest: seq<byte>, mid: seq<byte>, took: seq<byte>, was: seq<byte>,
                acc: seq<byte>)
    requires got + rest == mid + took && read + mid == was + acc
    ensures (read + got) + rest == was + (acc + took)
  {
    assert (read + got) + rest == read + (got + rest);
    assert read + (mid + took) == (read + mid) + took;
    assert (was + acc) + took == was + (acc + took);
  }

  lemma LastAnswer(s: PipeState, calls: seq<PipeCall>, size: nat)
    requires calls != []
    ensures var init := calls[..|calls| - 1];
            var a := AfterAll(s, init, size).Answers(calls[|calls| - 1], size);
            var before, answers := AllAnswers(s, init, size), AllAnswers(s, calls, size);
            AllRead(answers) == AllRead(before) + (if a.Data? then a.bytes else [])
            && AllAccepted(calls, answers) == AllAccepted(init, before) + Accepted(calls[|calls| - 1], a)
  {
    hide PipeState.Answers, PipeState.After, Accepted;
    var answers := AllAnswers(s, calls, size);
    assert answers[..|answers| - 1] == AllAnswers(s, calls[..|calls| - 1], size);
  }

  /** One call: what it reads out of the old contents is what it does not leave behind. */
  lemma OneCall(s: PipeState, call: PipeCall, size: nat)
    requires |s.bytes| <= size
    ensures var a := s.Answers(call, size);
            (if a.Data? then a.bytes else []) + s.After(call, size).bytes == s.bytes + Accepted(call, a)
    ensures |s.After(call, size).bytes| <= size
  {
  }

  /**
    A read gets as much as there is, up to len, and takes it away; from an empty pipe it gets
    the end of file when nobody can write any more.
   */
  lemma PipeReads(s: PipeState, len: nat, nonblock: bool, size: nat)
    ensures var a, s' := s.Answers(Read(len, nonblock), size), s.After(Read(len, nonblock), size);
            if len == 0 then a == Data([]) && s' == s
            else if s.bytes != [] then a.Data? && |a.bytes| == Min(len, |s.bytes|) && s.bytes == a.bytes + s'.bytes
            else s' == s && a == (if s.writers == 0 then Data([]) else if nonblock then Again else Sleeps)
  {
  }

  /**
    A write fails without a reader; otherwise it adds as much as there is room for, and only
    when there is none at all it waits.
   */
  lemma PipeWrites(s: PipeState, data: seq<byte>, nonblock: bool, size: nat)
    requires |s.bytes| <= size
    ensures var a, s' := s.Answers(Write(data, nonblock), size), s.After(Write(data, nonblock), size);
            if data == [] then a == Wrote(0) && s' == s
            else if s.readers == 0 then a == Broken && s' == s
            else if |s.bytes| == size then s' == s && a == if nonblock then Again else Sleeps
            else
              && a.Wrote? && 0 < a.n <= |data| && (a.n == |data| || |s'.bytes| == size)
              && s'.bytes == s.bytes + data[..a.n] && |s'.bytes| <= size
  {
    assert s.bytes + data[..0] == s.bytes;
  }

  class Pipe {
    const ring: Ring
    var readers: nat
    var writers: nat

    ghost predicate Valid()
      reads this, ring
    {
      ring.Valid()
    }

    ghost function State(): PipeState
      reads this, ring, ring.buf
      requires Valid()
    {
      PipeState(ring.Contents(), readers, writers)
    }

    constructor (size: nat)
      requires size > 0
      ensures Valid() && fresh(ring) && fresh(ring.buf) && ring.buf.Length == size
      ensures State() == PipeState([], 1, 1)
    {
      ring := new Ring(size);
      readers, writers := 1, 1;
    }

    method Read(len: nat, nonblock: bool) returns (a: Answer)
      requires Valid()
      modifies ring
      ensures Valid()
      ensures a == old(State()).Answers(PipeCall.Read(len, nonblock), ring.buf.Length)
      ensures State() == old(State()).After(PipeCall.Read(len, nonblock), ring.buf.Length)
    {
      hide Ring.Contents;
      if len == 0 { return Data([]); }
      if ring.count == 0 {
        if writers == 0 { return Data([]); }
        return if nonblock then Again else Sleeps;
      }
      var n := len;
      if n > ring.count { n := ring.count; }
      var out := ring.Take(n);
      return Data(out);
    }

    method Write(bytes: seq<byte>, nonblock: bool) returns (a: Answer)
      requires Valid()
      modifies ring, ring.buf
      ensures Valid()
      ensures a == old(State()).Answers(PipeCall.Write(bytes, nonblock), ring.buf.Length)
      ensures State() == old(State()).After(PipeCall.Write(bytes, nonblock), ring.buf.Length)
    {
      hide Ring.Contents;
      if |bytes| == 0 { return Wrote(0); }
      if readers == 0 { return Broken; }
      if ring.count >= ring.buf.Length { return if nonblock then Again else Sleeps; }
      var n := |bytes|;
      if n > ring.buf.Length - ring.count { n := ring.buf.Length - ring.count; }
      for i := 0 to n
        invariant Valid() && readers == old(readers) && writers == old(writers)
        invariant ring.Contents() == old(ring.Contents()) + bytes[..i]
      {
        var _ := ring.Push(bytes[i]);
      }
      return Wrote(n);
    }

    /** Any sequence of calls, one after the other. */
    method Serve(calls: seq<PipeCall>) returns (answers: seq<Answer>)
      requires Valid()
      modifies this, ring, ring.buf
      ensures Valid() && |answers| == |calls|
      ensures answers == AllAnswers(old(State()), calls, ring.buf.Length)
      ensures State() == AfterAll(old(State()), calls, ring.buf.Length)
      ensures AllRead(answers) + State().bytes == old(State()).bytes + AllAccepted(calls, answers)
    {
      hide Ring.Contents;
      ghost var was := State();
      ghost var size := ring.buf.Length;
      answers := [];
      for i := 0 to |calls|
        invariant Valid()
        invariant answers == AllAnswers(was, calls[..i], size) && State() == AfterAll(was, calls[..i], size)
      {
        assert calls[..i + 1][..i] == calls[..i];
        var a: Answer;
        match calls[i] {
          case Read(len, nonblock) => a := Read(len, nonblock);
          case Write(bytes, nonblock) => a := Write(bytes, nonblock);
          case Ends(r, w) => readers, writers, a := r, w, Wrote(0);
        }
        answers := answers + [a];
      }
      assert calls[..|calls|] == calls;
      PipeConserves(was, calls, size);
    }
  }
}
