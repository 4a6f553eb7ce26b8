/** A pseudo terminal as the kernel keeps it: two rings, the terminal settings and holder counts. */
module Terminals {

  import opened Machine
  import opened ByteRings
  import opened LineDiscipline

  /** The process group an interrupt byte goes to; none when not positive. */
  function Target(foreground: int, own: int): int {
    if foreground <= 0 then own else foreground
  }

  class Pty {
    const m2s: Ring
    const s2m: Ring
    var termios: Termios
    var foreground: int
    var masters: nat
    var slaves: nat

    ghost predicate Valid()
      reads this, m2s, s2m
    {
      m2s != s2m && m2s.buf != s2m.buf && m2s.buf.Length == s2m.buf.Length && m2s.Valid() && s2m.Valid()
    }

    ghost function State(): PtyState
      reads this, m2s, s2m, m2s.buf, s2m.buf
      requires Valid()
    {
      PtyState(m2s.Contents(), s2m.Contents(), masters, slaves)
    }

    constructor (size: nat, t: Termios)
      requires size > 0
      ensures Valid() && m2s.buf.Length == size && termios == t && State() == PtyState([], [], 1, 0)
      ensures fresh(m2s) && fresh(s2m) && fresh(m2s.buf) && fresh(s2m.buf)
    {
      m2s := new Ring(size);
      s2m := new Ring(size);
      termios, foreground, masters, slaves := t, 0, 1, 0;
    }

    /** One turn of the loop of a master write. */
    method TypeByte(c: byte) returns (interrupt: bool)
      requires Valid() && m2s.count < m2s.buf.Length
      modifies m2s, m2s.buf, s2m, s2m.buf
      ensures Valid() && interrupt == termios.Interrupts(c)
      ensures m2s.Contents() == Edit(old(m2s.Contents()), c, termios)
      ensures s2m.Contents() == Fill(old(s2m.Contents()), Echo(old(m2s.Contents()), c, termios), s2m.buf.Length)
    {
      hide Ring.Contents;
      if termios.Interrupts(c) {
        if termios.echo { s2m.PushAll([CARET, LETTER_C, NL]); }
        return true;
      }
      if termios.Erases(c) {
        if m2s.count > 0 {
          var last := m2s.Last();
          if last != NL {
            m2s.DropLast();
            if termios.echo { s2m.PushAll([BS, SPACE, BS]); }
          }
        }
        return false;
      }
      if termios.echo {
        if (c == CR || c == NL) && termios.Expands() {
          s2m.PushAll([CR, NL]);
        } else {
          s2m.PushAll([c]);
        }
      }
      var _ := m2s.Push(c);
      return false;
    }

    /**
      Writes to the master; signals holds the groups interrupted, one entry for each interrupt
      byte: the foreground group, or the caller's own if there is none.
     */
    method WriteMaster(bytes: seq<byte>, nonblock: bool, own: int) returns (a: Answer, signals: seq<int>)
      requires Valid()
      modifies m2s, m2s.buf, s2m, s2m.buf
      ensures Valid()
      ensures a == old(State()).Answers(MasterWrite(bytes, nonblock), termios, m2s.buf.Length)
      ensures State() == old(State()).After(MasterWrite(bytes, nonblock), termios, m2s.buf.Length)
      ensures |signals| == if a.Wrote? && (foreground > 0 || own > 0) then InterruptCount(bytes[..a.n], termios) else 0
      ensures forall i :: 0 <= i < |signals| ==> signals[i] == if foreground > 0 then foreground else own
    {
      hide Ring.Contents, Edit, Echo, Fill;
      signals := [];
      if |bytes| == 0 { return Wrote(0), []; }
      if m2s.count >= m2s.buf.Length {
        return Wait(slaves == 0, Broken, nonblock), [];
      }
      ghost var m, s, size := m2s.Contents(), s2m.Contents(), m2s.buf.Length;
      var n := |bytes|;
      if n > m2s.buf.Length - m2s.count { n := m2s.buf.Length - m2s.count; }
      for i := 0 to n
        invariant Valid()
        invariant m2s.Contents() == Edited(m, bytes[..i], termios)
        invariant s2m.Contents() == Echoed(m, s, bytes[..i], termios, size)
        invariant |signals| == if Target(foreground, own) > 0 then InterruptCount(bytes[..i], termios) else 0
        invariant forall j :: 0 <= j < |signals| ==> signals[j] == Target(foreground, own)
      {
        assert bytes[..i + 1][..i] == bytes[..i];
        var hit := TypeByte(bytes[i]);
        if hit && Target(foreground, own) > 0 { signals := signals + [Target(foreground, own)]; }
      }
      return Wrote(n), signals;
    }

    method ReadMaster(len: nat, nonblock: bool) returns (a: Answer)
      requires Valid()
      modifies s2m
      ensures Valid()
      ensures a == old(State()).Answers(MasterRead(len, nonblock), termios, m2s.buf.Length)
      ensures State() == old(State()).After(MasterRead(len, nonblock), termios, m2s.buf.Length)
    {
      hide Ring.Contents;
      if len == 0 { return Data([]); }
      if s2m.count == 0 { return Wait(slaves == 0, Data([]), nonblock); }
      var n := len;
      if n > s2m.count { n := s2m.count; }
      var out := s2m.Take(n);
      return Data(out);
    }

    /** One turn of the loop of a slave write; false when the byte does not fit. */
    method PrintByte(c: byte) returns (ok: bool)
      requires Valid()
      modifies s2m, s2m.buf
      ensures Valid()
      ensures ok <==> |ExpandByte(c, termios)| <= s2m.buf.Length - old(s2m.count)
      ensures s2m.Contents() == old(s2m.Contents()) + if ok then ExpandByte(c, termios) else []
      ensures m2s.Contents() == old(m2s.Contents())
    {
      hide Ring.Contents;
      var need := 1;
      if c == NL && termios.Expands() { need := 2; }
      if s2m.buf.Length - s2m.count < need { return false; }
      if c == NL && termios.Expands() {
        var _ := s2m.Push(CR);
      }
      var _ := s2m.Push(c);
      return true;
    }

    method WriteSlave(bytes: seq<byte>, nonblock: bool) returns (a: Answer)
      requires Valid()
      modifies s2m, s2m.buf
      ensures Valid()
      ensures a == old(State()).Answers(SlaveWrite(bytes, nonblock), termios, m2s.buf.Length)
      ensures State() == old(State()).After(SlaveWrite(bytes, nonblock), termios, m2s.buf.Length)
    {
      hide Ring.Contents, Expand, ExpandByte, Fitting;
      ExpandNothing(termios);
      if |bytes| == 0 { return Wrote(0); }
      if s2m.count >= s2m.buf.Length {
        return Wait(masters == 0, Broken, nonblock);
      }
      ghost var s, size := s2m.Contents(), s2m.buf.Length;
      ghost var room := size - s2m.count;
      var n := |bytes|;
      if n > s2m.buf.Length - s2m.count { n := s2m.buf.Length - s2m.count; }
      var i := 0;
      FittingBounds(bytes, room, termios);
      while i < n
        invariant 0 <= i <= n == Min(|bytes|, room) && Valid()
        invariant i <= Fitting(bytes, room, termios)
        invariant m2s.Contents() == old(m2s.Contents()) && s2m.Contents() == s + Expand(bytes[..i], termios)
        decreases n - i
      {
        var ok := PrintByte(bytes[i]);
        FittingNext(bytes, room, termios, i);
        if !ok {
          n := i;
          break;
        }
        i := i + 1;
      }
      return Wrote(n);
    }

    /** pty_slave_read_limit. */
    method Limit(len: nat) returns (n: nat)
      requires Valid()
      ensures n == State().ReadLimit(len, termios)
    {
      hide Ring.Contents;
      var req := len;
      if req > m2s.count { req := m2s.count; }
      if !termios.icanon { return req; }
      n := m2s.LineLimit(termios.veof, req);
    }

    method ReadSlave(len: nat, nonblock: bool) returns (a: Answer)
      requires Valid()
      modifies m2s
      ensures Valid()
      ensures a == old(State()).Answers(SlaveRead(len, nonblock), termios, m2s.buf.Length)
      ensures State() == old(State()).After(SlaveRead(len, nonblock), termios, m2s.buf.Length)
    {
      hide Ring.Contents;
      if len == 0 { return Data([]); }
      var line := m2s.HasDelimiter(termios.veof);
      if m2s.count == 0 || (termios.icanon && !line) {
        return Wait(masters == 0, Data([]), nonblock);
      }
      var n := Limit(len);
      var out := m2s.Take(n);
      return Data(out);
    }

    /** Any sequence of calls on the two ends, with the settings fixed. */
    method Serve(calls: seq<PtyCall>, own: int) returns (answers: seq<Answer>)
      requires Valid()
      modifies this, m2s, m2s.buf, s2m, s2m.buf
      ensures Valid() && termios == old(termios) && Fits(old(State()), m2s.buf.Length)
      ensures State() == RunOf(old(State()), calls, termios, m2s.buf.Length).now
      ensures answers == AnswersOf(old(State()), calls, termios, m2s.buf.Length)
    {
      hide Ring.Contents, PtyState.Answers, PtyState.After, RunOf, AnswersOf;
      ghost var was, size, t := State(), m2s.buf.Length, termios;
      answers := [];
      RunOfNothing(was, t, size);
      for i := 0 to |calls|
        invariant Valid() && termios == t
        invariant State() == RunOf(was, calls[..i], t, size).now && answers == AnswersOf(was, calls[..i], t, size)
      {
        OneMore(was, calls, i, t, size);
        var a := Perform(calls[i], own);
        answers := answers + [a];
      }
      assert calls[..|calls|] == calls;
    }

    method Perform(call: PtyCall, own: int) returns (a: Answer)
      requires Valid()
      modifies this, m2s, m2s.buf, s2m, s2m.buf
      ensures Valid() && termios == old(termios)
      ensures Fits(old(State()), m2s.buf.Length)
      ensures a == old(State()).Answers(call, termios, m2s.buf.Length)
      ensures State() == old(State()).After(call, termios, m2s.buf.Length)
    {
      hide Ring.Contents, Edited, Echoed, Expand, Fitting, PtyState.Readable, PtyState.ReadLimit;
      match call
      case MasterWrite(bytes, nonblock) => var hits: seq<int>; a, hits := WriteMaster(bytes, nonblock, own);
      case MasterRead(len, nonblock) => a := ReadMaster(len, nonblock);
      case SlaveWrite(bytes, nonblock) => a := WriteSlave(bytes, nonblock);
      case SlaveRead(len, nonblock) => a := ReadSlave(len, nonblock);
      case Holders(m, s) => masters, slaves, a := m, s, Wrote(0);
    }
  }

  lemma FittingBounds(data: seq<byte>, room: nat, t: Termios)
    ensures Fitting(data, room, t) <= room
  {
    FittingIsLongest(data, room, t, Fitting(data, room, t));
  }

  lemma FittingNext(data: seq<byte>, room: nat, t: Termios, i: nat)
    requires i < |data|
    ensures Expand(data[..i + 1], t) == Expand(data[..i], t) + ExpandByte(data[i], t)
    ensures i < Fitting(data, room, t) <==> |Expand(data[..i], t)| + |ExpandByte(data[i], t)| <= room
  {
    assert data[..i + 1] == data[..i] + [data[i]];
    ExpandConcat(data[..i], [data[i]], t);
    FittingIsLongest(data, room, t, i + 1);
  }
}
