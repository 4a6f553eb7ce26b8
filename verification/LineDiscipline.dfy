/**
  The pseudo terminal: bytes written to the master pass a line discipline on their way to
  the slave (interrupt, erase, echo), and bytes written by the slave reach the master with
  newlines expanded.
 */
module LineDiscipline {

  import opened Machine
  import opened ByteRings

  const ETX: byte := 3
  const BS: byte := 8
  const CR: byte := 13
  const SPACE: byte := 32
  const CARET: byte := 94
  const LETTER_C: byte := 67

  datatype Termios = Termios(icanon: bool, isig: bool, echo: bool, opost: bool, onlcr: bool, verase: byte, veof: byte)
  {
    predicate Interrupts(c: byte) { isig && c == ETX }
    predicate Erases(c: byte) { icanon && c == verase }
    /** Some byte really erases. */
    predicate CanErase() { icanon && !Interrupts(verase) }
    predicate Expands() { opost && onlcr }
  }

  // ----- what the master types -----

  predicate Erasable(s: seq<byte>) { s != [] && s[|s| - 1] != NL }

  /** The slave's unread input after the master typed c. */
  function Edit(s: seq<byte>, c: byte, t: Termios): seq<byte> {
    if t.Interrupts(c) then s
    else if t.Erases(c) then if Erasable(s) then s[..|s| - 1] else s
    else s + [c]
  }

  /** What typing c echoes to the master. */
  function Echo(s: seq<byte>, c: byte, t: Termios): seq<byte> {
    if !t.echo then []
    else if t.Interrupts(c) then [CARET, LETTER_C, NL]
    else if t.Erases(c) then if Erasable(s) then [BS, SPACE, BS] else []
    else if (c == CR || c == NL) && t.Expands() then [CR, NL]
    else [c]
  }

  /** The line-editing fold. */
  function Edited(s: seq<byte>, data: seq<byte>, t: Termios): (r: seq<byte>)
    ensures |r| <= |s| + |data|
  {
    if data == [] then s else Edit(Edited(s, data[..|data| - 1], t), data[|data| - 1], t)
  }

  /** The bytes waiting for the master after it typed data, echoes included as far as they fit. */
  function Echoed(s: seq<byte>, out: seq<byte>, data: seq<byte>, t: Termios, size: nat): (r: seq<byte>)
    requires |out| <= size
    ensures |r| <= size
  {
    if data == [] then out
    else
      var init := data[..|data| - 1];
      Fill(Echoed(s, out, init, t, size), Echo(Edited(s, init, t), data[|data| - 1], t), size)
  }

  function InterruptCount(data: seq<byte>, t: Termios): nat {
    if data == [] then 0
    else InterruptCount(data[..|data| - 1], t) + (if t.Interrupts(data[|data| - 1]) then 1 else 0)
  }

  /** Length of the newline-terminated part of s. */
  function Committed(s: seq<byte>): (k: nat)
    ensures k <= |s|
    ensures k > 0 ==> s[k - 1] == NL
    ensures forall i :: k <= i < |s| ==> s[i] != NL
  {
    if s == [] then 0 else if s[|s| - 1] == NL then |s| else Committed(s[..|s| - 1])
  }

  lemma CommittedFrom(s: seq<byte>, j: nat)
    requires j < |s| && s[j] == NL
    ensures j < Committed(s)
  {
  }

  /** Typing one more byte behind d leaves every newline-terminated line as it is. */
  lemma {:induction false} EditKeepsLines(d: seq<byte>, m: seq<byte>, c: byte, t: Termios)
    ensures var k, after := Committed(d + m), d + Edit(m, c, t);
            k <= Committed(after) && after[..k] == (d + m)[..k]
  {
    hide Committed;
    var whole, after := d + m, d + Edit(m, c, t);
    if t.Interrupts(c) {
      assert after == whole;
    } else if !t.Erases(c) {
      assert after == whole + [c];
      KeptBehind(whole, [c]);
    } else if Erasable(m) {
      assert whole == after + [m[|m| - 1]];
      KeptBehind(after, [m[|m| - 1]]);
      assert whole[|whole| - 1] != NL;
    }
  }

  /** What lies behind a newline does not matter to the lines before it. */
  lemma {:induction false} KeptBehind(s: seq<byte>, more: seq<byte>)
    ensures Committed(s) <= Committed(s + more) && (s + more)[..Committed(s)] == s[..Committed(s)]
    ensures Committed(s + more) <= |s| ==> Committed(s + more) == Committed(s)
  {
    hide Committed;
    var k := Committed(s);
    if k > 0 { CommittedFrom(s + more, k - 1); }
    var j := Committed(s + more);
    if 0 < j <= |s| { CommittedFrom(s, j - 1); }
  }

  lemma {:induction false} EditedKeepsLines(d: seq<byte>, m: seq<byte>, data: seq<byte>, t: Termios)
    ensures var k, after := Committed(d + m), d + Edited(m, data, t);
            k <= Committed(after) && after[..k] == (d + m)[..k]
  {
    if data != [] {
      var init := data[..|data| - 1];
      EditedKeepsLines(d, m, init, t);
      var k, mid := Committed(d + m), d + Edited(m, init, t);
      EditKeepsLines(d, Edited(m, init, t), data[|data| - 1], t);
      assert (d + Edited(m, data, t))[..k] == mid[..k];
    }
  }

  /** Bytes already handed to the reader cannot be edited: editing what is left is editing it all. */
  lemma {:induction false} EditedBehind(d: seq<byte>, m: seq<byte>, data: seq<byte>, t: Termios)
    requires !t.CanErase() || |d| <= Committed(d + m)
    ensures Edited(d + m, data, t) == d + Edited(m, data, t)
  {
    if data != [] {
      var init, c := data[..|data| - 1], data[|data| - 1];
      EditedBehind(d, m, init, t);
      EditedKeepsLines(d, m, init, t);
      var mid := Edited(m, init, t);
      if t.Erases(c) && !t.Interrupts(c) && mid == [] {
        assert d + mid == d;
        assert !Erasable(d) by { if d != [] { assert Committed(d) == |d|; } }
      }
      assert Edit(d + mid, c, t) == d + Edit(mid, c, t);
    }
  }

  lemma EditedConcat(s: seq<byte>, a: seq<byte>, b: seq<byte>, t: Termios)
    ensures Edited(s, a + b, t) == Edited(Edited(s, a, t), b, t)
  {
    if b == [] {
      assert a + b == a;
    } else {
      assert (a + b)[..|a + b| - 1] == a + b[..|b| - 1];
      EditedConcat(s, a, b[..|b| - 1], t);
    }
  }

  // ----- what the slave writes -----

  function ExpandByte(c: byte, t: Termios): seq<byte> {
    if c == NL && t.Expands() then [CR, NL] else [c]
  }

  function Expand(data: seq<byte>, t: Termios): (r: seq<byte>)
    ensures |data| <= |r|
  {
    if data == [] then [] else ExpandByte(data[0], t) + Expand(data[1..], t)
  }

  /** How many bytes of data fit, expanded, in the given room. */
  function Fitting(data: seq<byte>, room: nat, t: Termios): (n: nat)
    ensures n <= |data|
  {
    if data == [] then 0
    else
      var need := |ExpandByte(data[0], t)|;
      if need > room then 0 else 1 + Fitting(data[1..], room - need, t)
  }

  lemma {:induction false} ExpandConcat(a: seq<byte>, b: seq<byte>, t: Termios)
    ensures Expand(a + b, t) == Expand(a, t) + Expand(b, t)
  {
    if a == [] {
      assert a + b == b;
    } else {
      assert (a + b)[1..] == a[1..] + b;
      ExpandConcat(a[1..], b, t);
    }
  }

  /** The reported prefix is the longest one whose expansion fits. */
  lemma {:induction false} FittingIsLongest(data: seq<byte>, room: nat, t: Termios, k: nat)
    requires k <= |data|
    ensures |Expand(data[..k], t)| <= room <==> k <= Fitting(data, room, t)
  {
    if k > 0 {
      assert data[..k][0] == data[0] && data[..k][1..] == data[1..][..k - 1];
      var need := |ExpandByte(data[0], t)|;
      if need <= room {
        FittingIsLongest(data[1..], room - need, t, k - 1);
      }
    }
  }

  /** With room left, a slave write reports nothing taken exactly when one slot is left and a newline needs two. */
  lemma SlaveWriteStalls(data: seq<byte>, room: nat, t: Termios)
    requires data != [] && room > 0
    ensures Fitting(data, room, t) == 0 <==> room == 1 && data[0] == NL && t.Expands()
  {
  }

  /** Undoes the newline expansion. */
  function Collapse(s: seq<byte>): seq<byte> {
    if s == [] then []
    else if |s| >= 2 && s[0] == CR && s[1] == NL then [NL] + Collapse(s[2..])
    else [s[0]] + Collapse(s[1..])
  }

  /** Nothing of what the slave wrote is lost by the expansion. */
  lemma {:induction false} CollapseExpand(data: seq<byte>, t: Termios)
    requires t.Expands()
    ensures Collapse(Expand(data, t)) == data
  {
    if data != [] {
      var rest := Expand(data[1..], t);
      CollapseExpand(data[1..], t);
      assert rest != [] ==> rest[0] != NL;
      if data[0] == NL {
        assert Expand(data, t)[2..] == rest;
      } else {
        assert Expand(data, t)[1..] == rest;
      }
    }
  }

  // ----- calls on the two ends -----

  datatype PtyCall =
    | MasterWrite(bytes: seq<byte>, nonblock: bool)
    | MasterRead(len: nat, nonblock: bool)
    | SlaveWrite(bytes: seq<byte>, nonblock: bool)
    | SlaveRead(len: nat, nonblock: bool)
    | Holders(masters: nat, slaves: nat)   // descriptors opened or closed elsewhere

  function Wait(hungUp: bool, last: Answer, nonblock: bool): Answer {
    if hungUp then last else if nonblock then Again else Sleeps
  }

  datatype PtyState = PtyState(m2s: seq<byte>, s2m: seq<byte>, masters: nat, slaves: nat)
  {
    /** Whether a slave read finds something to return. */
    ghost predicate Readable(t: Termios) {
      m2s != [] && (t.icanon ==> exists i :: 0 <= i < |m2s| && Delimits(m2s[i], t.veof))
    }

    function ReadLimit(len: nat, t: Termios): (n: nat)
      ensures n <= len && n <= |m2s|
    {
      if t.icanon then Min(Min(len, |m2s|), LineLen(m2s, t.veof)) else Min(len, |m2s|)
    }

    ghost function Answers(call: PtyCall, t: Termios, size: nat): Answer {
      match call
      case MasterWrite(bytes, nonblock) =>
        if bytes == [] then Wrote(0)
        else if |m2s| < size then Wrote(Min(|bytes|, size - |m2s|))
        else Wait(slaves == 0, Broken, nonblock)
      case MasterRead(len, nonblock) =>
        if len == 0 then Data([])
        else if s2m != [] then Data(s2m[..Min(len, |s2m|)])
        else Wait(slaves == 0, Data([]), nonblock)
      case SlaveWrite(bytes, nonblock) =>
        if bytes == [] then Wrote(0)
        else if |s2m| < size then Wrote(Fitting(bytes, size - |s2m|, t))
        else Wait(masters == 0, Broken, nonblock)
      case SlaveRead(len, nonblock) =>
        if len == 0 then Data([])
        else if Readable(t) then Data(m2s[..ReadLimit(len, t)])
        else Wait(masters == 0, Data([]), nonblock)
      case Holders(_, _) => Wrote(0)
    }

    /** The state after a call, told from its answer. */
    ghost function After(call: PtyCall, t: Termios, size: nat): PtyState
      requires |s2m| <= size
    {
      var a := Answers(call, t, size);
      match call
      case MasterWrite(bytes, _) =>
        if a.Wrote? then
          this.(m2s := Edited(m2s, bytes[..a.n], t), s2m := Echoed(m2s, s2m, bytes[..a.n], t, size))
        else this
      case MasterRead(_, _) => if a.Data? then this.(s2m := s2m[|a.bytes|..]) else this
      case SlaveWrite(bytes, _) => if a.Wrote? then this.(s2m := s2m + Expand(bytes[..a.n], t)) else this
      case SlaveRead(_, _) => if a.Data? then this.(m2s := m2s[|a.bytes|..]) else this
      case Holders(m, s) => this.(masters := m, slaves := s)
    }
  }

  /** Neither ring overflows. */
  ghost predicate Fits(s: PtyState, size: nat) { |s.m2s| <= size && |s.s2m| <= size }

  lemma CallFits(s: PtyState, call: PtyCall, t: Termios, size: nat)
    requires Fits(s, size)
    ensures Fits(s.After(call, t, size), size)
  {
    if call.SlaveWrite? && |s.s2m| < size {
      var room := size - |s.s2m|;
      FittingIsLongest(call.bytes, room, t, Fitting(call.bytes, room, t));
    }
  }

  /** What one call hands to the slave, and what it accepts from the master. */
  function ToSlave(call: PtyCall, a: Answer): seq<byte> {
    if call.SlaveRead? && a.Data? then a.bytes else []
  }

  function Typed(call: PtyCall, a: Answer): seq<byte> {
    if call.MasterWrite? && a.Wrote? && a.n <= |call.bytes| then call.bytes[..a.n] else []
  }

  function ToMaster(call: PtyCall, a: Answer): seq<byte> {
    if call.MasterRead? && a.Data? then a.bytes else []
  }

  function Printed(call: PtyCall, a: Answer): seq<byte> {
    if call.SlaveWrite? && a.Wrote? && a.n <= |call.bytes| then call.bytes[..a.n] else []
  }

  // ----- runs with fixed terminal settings -----

  /** A run so far: the state and the bytes that passed each end. */
  datatype History = History(now: PtyState, toSlave: seq<byte>, typed: seq<byte>,
                             toMaster: seq<byte>, printed: seq<byte>)
  {
    ghost function Add(call: PtyCall, t: Termios, size: nat): History
      requires |now.s2m| <= size
    {
      var a := now.Answers(call, t, size);
      History(now.After(call, t, size), toSlave + ToSlave(call, a), typed + Typed(call, a),
              toMaster + ToMaster(call, a), printed + Printed(call, a))
    }
  }

  ghost function RunOf(s: PtyState, calls: seq<PtyCall>, t: Termios, size: nat): (h: History)
    requires Fits(s, size)
    ensures Fits(h.now, size)
  {
    if calls == [] then History(s, [], [], [], [])
    else
      var h := RunOf(s, calls[..|calls| - 1], t, size);
      CallFits(h.now, calls[|calls| - 1], t, size);
      h.Add(calls[|calls| - 1], t, size)
  }

  /** What the calls of a run answer. */
  ghost function AnswersOf(s: PtyState, calls: seq<PtyCall>, t: Termios, size: nat): (r: seq<Answer>)
    requires Fits(s, size)
    ensures |r| == |calls|
  {
    if calls == [] then []
    else
      var init := calls[..|calls| - 1];
      AnswersOf(s, init, t, size) + [RunOf(s, init, t, size).now.Answers(calls[|calls| - 1], t, size)]
  }

  lemma RunOfNothing(s: PtyState, t: Termios, size: nat)
    requires Fits(s, size)
    ensures RunOf(s, [], t, size).now == s && AnswersOf(s, [], t, size) == []
  {
  }

  lemma OneMore(s: PtyState, calls: seq<PtyCall>, i: nat, t: Termios, size: nat)
    requires Fits(s, size) && i < |calls|
    ensures var now := RunOf(s, calls[..i], t, size).now;
            && RunOf(s, calls[..i + 1], t, size).now == now.After(calls[i], t, size)
            && AnswersOf(s, calls[..i + 1], t, size)
               == AnswersOf(s, calls[..i], t, size) + [now.Answers(calls[i], t, size)]
  {
    hide PtyState.Answers, PtyState.After;
    assert calls[..i + 1][..i] == calls[..i];
  }

  /** A read takes exactly what it answers from the front; other calls type at the back. */
  lemma SlaveSide(h: History, call: PtyCall, t: Termios, size: nat)
    requires Fits(h.now, size)
    ensures var h' := h.Add(call, t, size);
            var typed := Typed(call, h.now.Answers(call, t, size));
            (call.SlaveRead? ==> h'.toSlave + h'.now.m2s == h.toSlave + h.now.m2s && typed == [])
            && (!call.SlaveRead? ==> h'.toSlave == h.toSlave && h'.now.m2s == Edited(h.now.m2s, typed, t))
  {
    hide Edited, Echoed, Expand, Fitting;
    var a := h.now.Answers(call, t, size);
    EditedNothing(h.now.m2s, t);
    if call.SlaveRead? && a.Data? {
      assert a.bytes == h.now.m2s[..|a.bytes|];
      assert h.now.m2s == a.bytes + h.now.m2s[|a.bytes|..];
      assert (h.toSlave + a.bytes) + h.now.m2s[|a.bytes|..] == h.toSlave + h.now.m2s;
    }
  }

  lemma EditedNothing(s: seq<byte>, t: Termios)
    ensures Edited(s, [], t) == s
  {
  }

  /**
    In every run, once a line is terminated by a newline no later byte typed by the master
    changes it: what was handed to the slave and what it still may read keep starting with it.
   */
  lemma {:induction false} LinesNeverAltered(s: PtyState, calls: seq<PtyCall>, t: Termios, size: nat, since: nat)
    requires Fits(s, size) && since <= |calls|
    ensures var early, late := RunOf(s, calls[..since], t, size), RunOf(s, calls, t, size);
            var k := Committed(early.toSlave + early.now.m2s);
            k <= Committed(late.toSlave + late.now.m2s)
            && (late.toSlave + late.now.m2s)[..k] == (early.toSlave + early.now.m2s)[..k]
    decreases |calls|
  {
    hide History.Add, Committed;
    if since == |calls| {
      assert calls[..since] == calls;
    } else {
      var init, call := calls[..|calls| - 1], calls[|calls| - 1];
      assert init[..since] == calls[..since];
      LinesNeverAltered(s, init, t, size, since);
      LinesKept(RunOf(s, init, t, size), call, t, size);
    }
  }

  lemma LinesKept(h: History, call: PtyCall, t: Termios, size: nat)
    requires Fits(h.now, size)
    ensures var h' := h.Add(call, t, size);
            var before, after := h.toSlave + h.now.m2s, h'.toSlave + h'.now.m2s;
            Committed(before) <= Committed(after) && after[..Committed(before)] == before[..Committed(before)]
  {
    hide PtyState.Answers, PtyState.After, Edited, Committed;
    SlaveSide(h, call, t, size);
    EditedKeepsLines(h.toSlave, h.now.m2s, Typed(call, h.now.Answers(call, t, size)), t);
  }

  /** No byte among them ends the file, unless the end-of-file byte is the newline. */
  ghost predicate NoEof(s: seq<byte>, t: Termios) {
    forall i :: 0 <= i < |s| && s[i] == t.veof ==> s[i] == NL
  }

  lemma {:induction false} EditedNoEof(s: seq<byte>, data: seq<byte>, t: Termios)
    requires NoEof(s, t) && NoEof(data, t)
    ensures NoEof(Edited(s, data, t), t)
  {
    if data != [] {
      EditedNoEof(s, data[..|data| - 1], t);
    }
  }

  /** A canonical read stops before or at the first newline, so what it returns is committed. */
  lemma ReadIsCommitted(s: PtyState, len: nat, t: Termios)
    requires t.CanErase() && s.Readable(t) && NoEof(s.m2s, t)
    ensures s.ReadLimit(len, t) <= Committed(s.m2s)
  {
    var n := LineLen(s.m2s, t.veof);
    if n == |s.m2s| {
      var i :| 0 <= i < |s.m2s| && Delimits(s.m2s[i], t.veof);
      assert i == n - 1;
    }
    assert s.m2s[n - 1] == NL;
    CommittedFrom(s.m2s, n - 1);
  }

  /**
    In every run without end-of-file bytes, what was handed to the slave followed by what it
    may still read is the line-editing fold of every byte typed: cutting the input up by
    reads, at whatever moments, does not change what is read. Where no byte erases, as
    without canonical mode, the equation always holds.
   */
  lemma {:induction false} InputIsTheEditedFold(s: PtyState, calls: seq<PtyCall>, t: Termios, size: nat)
    requires Fits(s, size)
    requires t.CanErase() ==> NoEof(s.m2s, t) && NoEof(RunOf(s, calls, t, size).typed, t)
    ensures var h := RunOf(s, calls, t, size);
            h.toSlave + h.now.m2s == Edited(s.m2s, h.typed, t)
            && (t.CanErase() ==> |h.toSlave| <= Committed(h.toSlave + h.now.m2s) && NoEof(h.now.m2s, t))
  {
    hide PtyState.Answers, PtyState.After, Edited, Committed;
    if calls == [] {
      EditedNothing(s.m2s, t);
      assert [] + s.m2s == s.m2s;
    } else {
      var init, call := calls[..|calls| - 1], calls[|calls| - 1];
      var h, h' := RunOf(s, init, t, size), RunOf(s, calls, t, size);
      var more := Typed(call, h.now.Answers(call, t, size));
      assert h'.typed == h.typed + more;
      assert t.CanErase() ==> NoEof(h.typed, t) by {
        assert forall i :: 0 <= i < |h.typed| ==> h'.typed[i] == h.typed[i];
      }
      InputIsTheEditedFold(s, init, t, size);
      InputStep(s.m2s, h, call, t, size);
    }
  }

  lemma InputStep(m0: seq<byte>, h: History, call: PtyCall, t: Termios, size: nat)
    requires Fits(h.now, size) && h.toSlave + h.now.m2s == Edited(m0, h.typed, t)
    requires t.CanErase() ==> |h.toSlave| <= Committed(h.toSlave + h.now.m2s) && NoEof(h.now.m2s, t)
    requires t.CanErase() ==> NoEof(h.typed + Typed(call, h.now.Answers(call, t, size)), t)
    ensures var h' := h.Add(call, t, size);
            h'.toSlave + h'.now.m2s == Edited(m0, h'.typed, t)
            && (t.CanErase() ==> |h'.toSlave| <= Committed(h'.toSlave + h'.now.m2s) && NoEof(h'.now.m2s, t))
  {
    hide PtyState.Answers, PtyState.After, Edited, Committed;
    var h' := h.Add(call, t, size);
    var more := Typed(call, h.now.Answers(call, t, size));
    SlaveSide(h, call, t, size);
    if call.SlaveRead? {
      assert h'.typed == h.typed;
      if t.CanErase() { ReadStaysCommitted(h, call, t, size); }
    } else {
      EditedBehind(h.toSlave, h.now.m2s, more, t);
      EditedConcat(m0, h.typed, more, t);
      EditedKeepsLines(h.toSlave, h.now.m2s, more, t);
      if t.CanErase() {
        assert forall i :: 0 <= i < |more| ==> (h.typed + more)[|h.typed| + i] == more[i];
        EditedNoEof(h.now.m2s, more, t);
      }
    }
  }

  lemma ReadStaysCommitted(h: History, call: PtyCall, t: Termios, size: nat)
    requires Fits(h.now, size) && call.SlaveRead? && t.CanErase()
    requires |h.toSlave| <= Committed(h.toSlave + h.now.m2s) && NoEof(h.now.m2s, t)
    ensures var h' := h.Add(call, t, size);
            |h'.toSlave| <= Committed(h'.toSlave + h'.now.m2s) && NoEof(h'.now.m2s, t)
  {
    hide Edited, Echoed, Expand, Fitting, Committed;
    SlaveSide(h, call, t, size);
    var a := h.now.Answers(call, t, size);
    if a.Data? && a.bytes != [] {
      ReadIsCommitted(h.now, call.len, t);
      CommittedBehind(h.toSlave, h.now.m2s);
    }
  }

  lemma CommittedBehind(d: seq<byte>, m: seq<byte>)
    requires Committed(m) > 0
    ensures |d| + Committed(m) <= Committed(d + m)
  {
    var k := Committed(m);
    assert (d + m)[|d| + k - 1] == NL;
    CommittedFrom(d + m, |d| + k - 1);
  }

  /** Typing the erase byte k times takes k bytes off an unfinished line. */
  lemma {:induction false} ErasesBack(s: seq<byte>, k: nat, t: Termios)
    requires t.CanErase() && Committed(s) + k <= |s|
    ensures Edited(s, seq(k, _ => t.verase), t) == s[..|s| - k]
  {
    var data := seq(k, _ => t.verase);
    if k > 0 {
      assert data[..k - 1] == seq(k - 1, _ => t.verase);
      ErasesBack(s, k - 1, t);
    }
  }

  /**
    Exactly when handing d to the reader is invisible to the line editor, whatever is typed
    afterwards: d must end with, or stand before, a newline still to be seen.
   */
  lemma CutIsInvisibleIff(d: seq<byte>, m: seq<byte>, t: Termios)
    ensures (forall data :: Edited(d + m, data, t) == d + Edited(m, data, t))
            <==> (!t.CanErase() || |d| <= Committed(d + m))
  {
    if !t.CanErase() || |d| <= Committed(d + m) {
      forall data
        ensures Edited(d + m, data, t) == d + Edited(m, data, t)
      {
        EditedBehind(d, m, data, t);
      }
    } else {
      var data := seq(|m| + 1, _ => t.verase);
      ErasesBack(d + m, |m| + 1, t);
      assert |Edited(d + m, data, t)| < |d + Edited(m, data, t)|;
    }
  }

  /** An end-of-file byte lets a read cut inside an unfinished line, where the cut is visible. */
  lemma EofCutsTheFold(t: Termios)
    requires t.CanErase() && t.veof == 4
    ensures var s := PtyState([97, 98, 4], [], 1, 1);
            s.Answers(SlaveRead(1, false), t, 4096) == Data([97])
            && exists data :: Edited([97] + [98, 4], data, t) != [97] + Edited([98, 4], data, t)
  {
    var s := PtyState([97, 98, 4], [], 1, 1);
    assert Delimits(s.m2s[2], t.veof);
    assert LineLen(s.m2s, t.veof) > 0;
    assert Committed([97, 98, 4]) == 0;
    CutIsInvisibleIff([97], [98, 4], t);
    assert [97] + [98, 4] == s.m2s;
  }

  /** The part of an echo that fits behind out. */
  function Fitted(out: seq<byte>, e: seq<byte>, size: nat): seq<byte>
    requires |out| <= size
  {
    e[..Min(|e|, size - |out|)]
  }

  /** The echoes of typing data, each cut to what fitted when it was made. */
  function Echoes(s: seq<byte>, out: seq<byte>, data: seq<byte>, t: Termios, size: nat): seq<byte>
    requires |out| <= size
  {
    if data == [] then []
    else
      var init := data[..|data| - 1];
      var e := Echo(Edited(s, init, t), data[|data| - 1], t);
      Echoes(s, out, init, t, size) + Fitted(Echoed(s, out, init, t, size), e, size)
  }

  lemma {:induction false} EchoedAppends(s: seq<byte>, out: seq<byte>, data: seq<byte>, t: Termios, size: nat)
    requires |out| <= size
    ensures Echoed(s, out, data, t, size) == out + Echoes(s, out, data, t, size)
  {
    hide Edited, Echo;
    if data == [] {
      assert out + [] == out;
    } else {
      var init := data[..|data| - 1];
      EchoedAppends(s, out, init, t, size);
      var e := Fitted(Echoed(s, out, init, t, size), Echo(Edited(s, init, t), data[|data| - 1], t), size);
      assert (out + Echoes(s, out, init, t, size)) + e == out + (Echoes(s, out, init, t, size) + e);
    }
  }

  /** What a call adds to the bytes waiting for the master: expanded output, or echoes. */
  ghost function Adds(s: PtyState, call: PtyCall, t: Termios, size: nat): seq<byte>
    requires |s.s2m| <= size
  {
    var a := s.Answers(call, t, size);
    if call.SlaveWrite? then Expand(Printed(call, a), t)
    else if call.MasterWrite? then Echoes(s.m2s, s.s2m, Typed(call, a), t, size)
    else []
  }

  /** What a run adds, in the order of its calls. */
  ghost function AddsAll(s: PtyState, calls: seq<PtyCall>, t: Termios, size: nat): seq<byte>
    requires Fits(s, size)
  {
    if calls == [] then []
    else
      var init := calls[..|calls| - 1];
      AddsAll(s, init, t, size) + Adds(RunOf(s, init, t, size).now, calls[|calls| - 1], t, size)
  }

  /**
    In every run, what the master read followed by what waits for it is what waited at first
    followed, in the order of the calls, by the expansion of what each slave write reported
    and the echoes of what each master write accepted, each as far as it fitted.
   */
  lemma {:induction false} OutputIsWhatWasAdded(s: PtyState, calls: seq<PtyCall>, t: Termios, size: nat)
    requires Fits(s, size)
    ensures var h := RunOf(s, calls, t, size);
            h.toMaster + h.now.s2m == s.s2m + AddsAll(s, calls, t, size)
  {
    hide PtyState.Answers, PtyState.After, History.Add, Adds;
    if calls == [] {
      assert [] + s.s2m == s.s2m + [];
    } else {
      var init, call := calls[..|calls| - 1], calls[|calls| - 1];
      OutputIsWhatWasAdded(s, init, t, size);
      var h := RunOf(s, init, t, size);
      MasterSide(h, call, t, size);
      Joined(s.s2m, AddsAll(s, init, t, size), Adds(h.now, call, t, size));
    }
  }

  lemma Joined(a: seq<byte>, b: seq<byte>, c: seq<byte>)
    ensures (a + b) + c == a + (b + c)
  {
  }

  lemma MasterSide(h: History, call: PtyCall, t: Termios, size: nat)
    requires Fits(h.now, size)
    ensures var h' := h.Add(call, t, size);
            h'.toMaster + h'.now.s2m == (h.toMaster + h.now.s2m) + Adds(h.now, call, t, size)
  {
    hide Edited, Expand, Fitting, Echoed, Echoes;
    var a := h.now.Answers(call, t, size);
    ExpandNothing(t);
    NoEchoes(h.now.m2s, h.now.s2m, t, size);
    if call.MasterRead? && a.Data? {
      assert h.now.s2m == a.bytes + h.now.s2m[|a.bytes|..];
    }
    if call.MasterWrite? && a.Wrote? {
      EchoedAppends(h.now.m2s, h.now.s2m, call.bytes[..a.n], t, size);
    }
  }

  lemma NoEchoes(s: seq<byte>, out: seq<byte>, t: Termios, size: nat)
    requires |out| <= size
    ensures Echoes(s, out, [], t, size) == []
  {
  }

  lemma ExpandNothing(t: Termios)
    ensures Expand([], t) == []
  {
  }

  /** Without echo that is the expansion of every byte the slave was told it wrote. */
  lemma {:induction false} OutputIsTheExpansion(s: PtyState, calls: seq<PtyCall>, t: Termios, size: nat)
    requires Fits(s, size) && !t.echo
    ensures var h := RunOf(s, calls, t, size);
            && AddsAll(s, calls, t, size) == Expand(h.printed, t)
            && h.toMaster + h.now.s2m == s.s2m + Expand(h.printed, t)
  {
    hide PtyState.Answers, PtyState.After, Expand, Echoes;
    OutputIsWhatWasAdded(s, calls, t, size);
    if calls == [] {
      ExpandNothing(t);
    } else {
      var init, call := calls[..|calls| - 1], calls[|calls| - 1];
      OutputIsTheExpansion(s, init, t, size);
      var h := RunOf(s, init, t, size);
      var a := h.now.Answers(call, t, size);
      ExpandNothing(t);
      ExpandConcat(h.printed, Printed(call, a), t);
      SilentEcho(h.now.m2s, h.now.s2m, Typed(call, a), t, size);
    }
  }

  lemma {:induction false} SilentEcho(s: seq<byte>, out: seq<byte>, data: seq<byte>, t: Termios, size: nat)
    requires |out| <= size && !t.echo
    ensures Echoes(s, out, data, t, size) == []
  {
    if data != [] { SilentEcho(s, out, data[..|data| - 1], t, size); }
  }

  /** A canonical input ring that is full and holds no delimiter. */
  ghost predicate Jammed(s: PtyState, t: Termios, size: nat) {
    t.icanon && |s.m2s| == size && !s.Readable(t)
  }

  /** Writes wait for room before they look at an erase, reads wait for a delimiter: no run changes a jammed ring. */
  lemma {:induction false} JammedStays(s: PtyState, calls: seq<PtyCall>, t: Termios, size: nat)
    requires Fits(s, size) && Jammed(s, t, size)
    ensures RunOf(s, calls, t, size).now.m2s == s.m2s && RunOf(s, calls, t, size).toSlave == []
  {
    if calls != [] {
      JammedStays(s, calls[..|calls| - 1], t, size);
      var h := RunOf(s, calls[..|calls| - 1], t, size);
      assert !h.now.Readable(t);
    }
  }

  lemma RunOfOne(s: PtyState, call: PtyCall, t: Termios, size: nat)
    requires Fits(s, size)
    ensures RunOf(s, [call], t, size).now == s.After(call, t, size)
  {
    hide PtyState.After;
    assert [call][..0] == [];
    assert RunOf(s, [], t, size).now == s;
  }

  /** One call that changes the input ring when it is not jammed. */
  lemma Unjam(s: PtyState, t: Termios, size: nat) returns (call: PtyCall)
    requires Fits(s, size) && size > 0 && !Jammed(s, t, size)
    ensures s.After(call, t, size).m2s != s.m2s
  {
    if |s.m2s| < size {
      var c: byte := if t.verase == 97 then 98 else 97;
      call := MasterWrite([c], false);
      assert [c][..1] == [c] && [c][..0] == [];
      assert Edited(s.m2s, [], t) == s.m2s;
      assert Edited(s.m2s, [c], t) == s.m2s + [c];
    } else {
      call := SlaveRead(1, false);
      assert s.Readable(t) && s.ReadLimit(1, t) == 1;
    }
  }

  /** The input ring is stuck, whatever is read or written, exactly when it is jammed. */
  lemma StuckIff(s: PtyState, t: Termios, size: nat)
    requires Fits(s, size) && size > 0
    ensures (forall calls :: RunOf(s, calls, t, size).now.m2s == s.m2s) <==> Jammed(s, t, size)
  {
    hide RunOf, PtyState.After, Jammed;
    if Jammed(s, t, size) {
      forall calls ensures RunOf(s, calls, t, size).now.m2s == s.m2s { JammedStays(s, calls, t, size); }
    } else {
      var call := Unjam(s, t, size);
      RunOfOne(s, call, t, size);
    }
  }

  /** Bytes that are neither an interrupt nor an erase nor a delimiter. */
  ghost predicate Plain(data: seq<byte>, t: Termios) {
    forall i :: 0 <= i < |data| ==> !t.Interrupts(data[i]) && !t.Erases(data[i]) && !Delimits(data[i], t.veof)
  }

  lemma {:induction false} PlainIsKept(data: seq<byte>, t: Termios)
    requires Plain(data, t)
    ensures Edited([], data, t) == data
  {
    if data != [] {
      PlainIsKept(data[..|data| - 1], t);
      assert data == data[..|data| - 1] + [data[|data| - 1]];
    }
  }

  /** It happens: one write of as many plain bytes as the ring holds jams a fresh canonical terminal. */
  lemma OneWriteJams(data: seq<byte>, t: Termios)
    requires t.icanon && data != [] && Plain(data, t)
    ensures var s := PtyState([], [], 1, 1);
            Jammed(s.After(MasterWrite(data, false), t, |data|), t, |data|)
  {
    hide Edited, Echoed;
    assert data[..|data|] == data;
    PlainIsKept(data, t);
  }

  // ----- single bytes and whole lines -----

  /** c is the interrupt byte, and interrupts are on. */
  predicate IsInterrupt(c: byte, t: Termios) { t.isig && c == 3 }

  /** c is the erase byte, and lines are edited. */
  predicate IsErase(c: byte, t: Termios) { t.icanon && c == t.verase && !IsInterrupt(c, t) }

  /** Bytes that neither interrupt nor erase: newlines and end-of-file bytes are among them. */
  ghost predicate Stored(data: seq<byte>, t: Termios) {
    forall i :: 0 <= i < |data| ==> !IsInterrupt(data[i], t) && !IsErase(data[i], t)
  }

  lemma {:induction false} StoredIsKept(s: seq<byte>, data: seq<byte>, t: Termios)
    requires Stored(data, t)
    ensures Edited(s, data, t) == s + data
  {
    if data == [] {
      assert s + data == s;
    } else {
      var init, c := data[..|data| - 1], data[|data| - 1];
      StoredIsKept(s, init, t);
      assert data == init + [c];
      assert (s + init) + [c] == s + (init + [c]);
    }
  }

  /** A master write of such bytes puts as many of them as there is room for behind what is unread. */
  lemma WriteIsStored(s: PtyState, data: seq<byte>, nonblock: bool, t: Termios, size: nat)
    requires Fits(s, size) && |s.m2s| < size && Stored(data, t)
    ensures var n := Min(|data|, size - |s.m2s|);
            && s.Answers(MasterWrite(data, nonblock), t, size) == Wrote(n)
            && s.After(MasterWrite(data, nonblock), t, size).m2s == s.m2s + data[..n]
  {
    hide Edited, Echoed;
    StoredIsKept(s.m2s, data[..Min(|data|, size - |s.m2s|)], t);
  }

  /** An interrupt byte leaves the unread input alone; an erase byte takes off the last byte of an unfinished line. */
  lemma WriteEdits(s: PtyState, c: byte, nonblock: bool, t: Termios, size: nat)
    requires Fits(s, size) && |s.m2s| < size
    ensures var m, m' := s.m2s, s.After(MasterWrite([c], nonblock), t, size).m2s;
            && (IsInterrupt(c, t) ==> m' == m)
            && (IsErase(c, t) ==> m' == if m != [] && m[|m| - 1] != 10 then m[..|m| - 1] else m)
            && (!IsInterrupt(c, t) && !IsErase(c, t) ==> m' == m + [c])
  {
    hide Echoed;
    OneByte(s.m2s, c, t);
  }

  lemma OneByte(s: seq<byte>, c: byte, t: Termios)
    ensures [c][..1] == [c] && Edited(s, [c], t) == Edit(s, c, t)
  {
    assert [c][..0] == [];
    EditedNothing(s, t);
  }

  /** A write that fits is the writes of its two halves. */
  lemma WriteSplits(s: PtyState, a: seq<byte>, b: seq<byte>, nonblock: bool, t: Termios, size: nat)
    requires Fits(s, size) && |s.m2s| + |a| + |b| <= size
    ensures var mid := s.After(MasterWrite(a, nonblock), t, size);
            && Fits(mid, size)
            && s.After(MasterWrite(a + b, nonblock), t, size) == mid.After(MasterWrite(b, nonblock), t, size)
  {
    hide Edited, Echoed;
    CallFits(s, MasterWrite(a, nonblock), t, size);
    EditedNothing(s.m2s, t);
    EchoedNothing(s.m2s, s.s2m, t, size);
    assert (a + b)[..|a| + |b|] == a + b && a[..|a|] == a && b[..|b|] == b;
    if a == [] { assert a + b == b; }
    if b == [] { assert a + b == a; }
    EditedConcat(s.m2s, a, b, t);
    EchoedConcat(s.m2s, s.s2m, a, b, t, size);
  }

  lemma EchoedNothing(s: seq<byte>, out: seq<byte>, t: Termios, size: nat)
    requires |out| <= size
    ensures Echoed(s, out, [], t, size) == out
  {
  }

  lemma {:induction false} EchoedConcat(s: seq<byte>, out: seq<byte>, a: seq<byte>, b: seq<byte>, t: Termios, size: nat)
    requires |out| <= size
    ensures Echoed(s, out, a + b, t, size) == Echoed(Edited(s, a, t), Echoed(s, out, a, t, size), b, t, size)
  {
    hide Edited, Echo, Fill;
    if b == [] {
      assert a + b == a;
    } else {
      var init := b[..|b| - 1];
      assert (a + b)[..|a + b| - 1] == a + init;
      EchoedConcat(s, out, a, init, t, size);
      EditedConcat(s, a, init, t);
    }
  }

  /**
    What is typed is what is read: on an empty canonical terminal a line that ends with a
    newline or an end-of-file byte, written to the master, is what the next long enough read
    of the slave answers, and nothing is left.
   */
  lemma LineIsRead(s: PtyState, line: seq<byte>, end: byte, len: nat, nonblock: bool, t: Termios, size: nat)
    requires t.icanon && s.m2s == [] && |s.s2m| <= size && |line| + 1 <= size && |line| + 1 <= len
    requires Stored(line + [end], t) && (end == 10 || end == t.veof)
    requires forall i :: 0 <= i < |line| ==> line[i] != 10 && line[i] != t.veof
    ensures var s' := s.After(MasterWrite(line + [end], nonblock), t, size);
            && |s'.s2m| <= size
            && s'.Answers(SlaveRead(len, nonblock), t, size) == Data(line + [end])
            && s'.After(SlaveRead(len, nonblock), t, size).m2s == []
  {
    hide Edited, Echoed, LineLen;
    var data := line + [end];
    WriteIsStored(s, data, nonblock, t, size);
    CallFits(s, MasterWrite(data, nonblock), t, size);
    assert data[..|data|] == data && [] + data == data;
    var s' := s.After(MasterWrite(data, nonblock), t, size);
    assert s'.m2s == data && Delimits(data[|line|], t.veof);
    FirstLine(line, end, t.veof);
  }

  lemma FirstLine(line: seq<byte>, end: byte, eof: byte)
    requires (end == 10 || end == eof) && forall i :: 0 <= i < |line| ==> line[i] != 10 && line[i] != eof
    ensures LineLen(line + [end], eof) == |line| + 1
  {
    hide LineLen;
    var n := LineLen(line + [end], eof);
    assert forall i :: 0 <= i < |line| ==> (line + [end])[i] == line[i];
  }

  /**
    What the master reads when a byte was typed with nothing waiting: nothing without echo;
    caret, C, newline for an interrupt; backspace, space, backspace for an erase that took a
    byte, nothing for one that did not; carriage return and newline for either of them where
    newlines are expanded; otherwise the byte itself.
   */
  lemma EchoIsRead(s: PtyState, c: byte, len: nat, nonblock: bool, t: Termios, size: nat)
    requires Fits(s, size) && |s.m2s| < size && s.s2m == [] && size >= 3 && len >= 3
    ensures var s' := s.After(MasterWrite([c], nonblock), t, size);
            var a := s'.Answers(MasterRead(len, nonblock), t, size);
            && (!t.echo ==> s'.s2m == [])
            && (t.echo && IsInterrupt(c, t) ==> a == Data([94, 67, 10]))
            && (t.echo && IsErase(c, t) ==>
                  if s.m2s != [] && s.m2s[|s.m2s| - 1] != 10 then a == Data([8, 32, 8]) else s'.s2m == [])
            && (t.echo && !IsInterrupt(c, t) && !IsErase(c, t) ==>
                  a == Data(if (c == 10 || c == 13) && t.opost && t.onlcr then [13, 10] else [c]))
  {
    hide Edited;
    OneByte(s.m2s, c, t);
    OneEcho(s.m2s, c, t, size);
    hide Echoed;
  }

  lemma OneEcho(s: seq<byte>, c: byte, t: Termios, size: nat)
    requires size >= 3
    ensures Echoed(s, [], [c], t, size) == Echo(s, c, t)
  {
    assert [c][..0] == [];
    EditedNothing(s, t);
    EchoedNothing(s, [], t, size);
    var e := Echo(s, c, t);
    assert [] + e[..|e|] == e;
  }

  /** Without expansion the slave's bytes reach the master unchanged. */
  lemma {:induction false} ExpandKeeps(data: seq<byte>, t: Termios)
    requires !(t.opost && t.onlcr)
    ensures Expand(data, t) == data
  {
    if data != [] { ExpandKeeps(data[1..], t); }
  }

  /** The signals a write sends are the interrupt bytes in it. */
  lemma {:induction false} InterruptsCounted(data: seq<byte>, t: Termios)
    ensures InterruptCount(data, t) == if t.isig then multiset(data)[3] else 0
  {
    if data != [] {
      InterruptsCounted(data[..|data| - 1], t);
      assert data == data[..|data| - 1] + [data[|data| - 1]];
    }
  }

  /** A master read gets as much as there is, up to len, and takes it away. */
  lemma MasterReads(s: PtyState, len: nat, nonblock: bool, t: Termios, size: nat)
    requires Fits(s, size) && len > 0
    ensures var a := s.Answers(MasterRead(len, nonblock), t, size);
            if s.s2m != [] then
              a.Data? && |a.bytes| == Min(len, |s.s2m|)
              && s.s2m == a.bytes + s.After(MasterRead(len, nonblock), t, size).s2m
            else a == (if s.slaves == 0 then Data([]) else if nonblock then Again else Sleeps)
  {
  }

  /** A slave read gets up to len bytes, in canonical mode of one line only, and takes them away. */
  lemma SlaveReads(s: PtyState, len: nat, nonblock: bool, t: Termios, size: nat)
    requires Fits(s, size) && len > 0
    ensures var a := s.Answers(SlaveRead(len, nonblock), t, size);
            if HasInput(s.m2s, t) then
              a.Data? && a.bytes != [] && s.m2s == a.bytes + s.After(SlaveRead(len, nonblock), t, size).m2s
              && (if t.icanon then OneLine(a.bytes, len, t.veof) else |a.bytes| == Min(len, |s.m2s|))
            else a == (if s.masters == 0 then Data([]) else if nonblock then Again else Sleeps)
  {
    hide LineLen, OneLine;
    assert HasInput(s.m2s, t) <==> s.Readable(t);
    if HasInput(s.m2s, t) {
      if t.icanon { LimitIsOneLine(s.m2s, len, t); }
      hide HasInput, PtyState.Readable;
      var n := s.ReadLimit(len, t);
      assert s.m2s == s.m2s[..n] + s.m2s[n..];
    }
  }

  lemma LimitIsOneLine(m: seq<byte>, len: nat, t: Termios)
    requires len > 0 && t.icanon && HasInput(m, t)
    ensures var n := Min(Min(len, |m|), LineLen(m, t.veof)); 0 < n <= |m| && OneLine(m[..n], len, t.veof)
  {
    hide LineLen;
    var i :| 0 <= i < |m| && (m[i] == 10 || m[i] == t.veof);
    var k := LineLen(m, t.veof);
    if k == |m| {
      assert Delimits(m[i], t.veof);
      assert i == k - 1;
    }
    assert Delimits(m[k - 1], t.veof);
    hide HasInput;
    var n := Min(Min(len, |m|), k);
    PartOfLine(m, n, k, len, t.veof);
  }

  lemma PartOfLine(m: seq<byte>, n: nat, k: nat, len: nat, eof: byte)
    requires 0 < k <= |m| && n == Min(len, k) && len > 0 && Delimits(m[k - 1], eof)
    requires forall j :: 0 <= j < k - 1 ==> !Delimits(m[j], eof)
    ensures OneLine(m[..n], len, eof)
  {
    assert forall j :: 0 <= j < n ==> m[..n][j] == m[j];
  }

  /** A call that asks for nothing answers nothing and does nothing. */
  lemma NothingAsked(s: PtyState, call: PtyCall, t: Termios, size: nat)
    requires Fits(s, size)
    requires match call
             case MasterWrite(bytes, _) => bytes == []
             case SlaveWrite(bytes, _) => bytes == []
             case MasterRead(len, _) => len == 0
             case SlaveRead(len, _) => len == 0
             case Holders(_, _) => false
    ensures s.Answers(call, t, size) == if call.MasterWrite? || call.SlaveWrite? then Wrote(0) else Data([])
    ensures s.After(call, t, size) == s
  {
    hide Edited, Echoed, Expand, Fitting, LineLen;
    EditedNothing(s.m2s, t);
    EchoedNothing(s.m2s, s.s2m, t, size);
    ExpandNothing(t);
  }

  /** There is input for the slave: any byte, or in canonical mode a delimiter. */
  ghost predicate HasInput(m: seq<byte>, t: Termios) {
    m != [] && (t.icanon ==> exists i :: 0 <= i < |m| && (m[i] == 10 || m[i] == t.veof))
  }

  /** The bytes are a whole line, or the part of one that len allows. */
  ghost predicate OneLine(bytes: seq<byte>, len: nat, eof: byte) {
    && 0 < |bytes| <= len
    && (forall i :: 0 <= i < |bytes| - 1 ==> bytes[i] != 10 && bytes[i] != eof)
    && (|bytes| == len || bytes[|bytes| - 1] == 10 || bytes[|bytes| - 1] == eof)
  }

  /** A write that finds no room fails when nobody holds the other end, and otherwise does nothing yet. */
  lemma PtyWrites(s: PtyState, data: seq<byte>, nonblock: bool, t: Termios, size: nat)
    requires Fits(s, size) && data != []
    ensures |s.m2s| == size ==>
              s.Answers(MasterWrite(data, nonblock), t, size)
              == if s.slaves == 0 then Broken else if nonblock then Again else Sleeps
    ensures |s.m2s| < size ==> s.Answers(MasterWrite(data, nonblock), t, size) == Wrote(Min(|data|, size - |s.m2s|))
    ensures |s.s2m| == size ==>
              s.Answers(SlaveWrite(data, nonblock), t, size)
              == if s.masters == 0 then Broken else if nonblock then Again else Sleeps
    ensures |s.s2m| < size ==> s.Answers(SlaveWrite(data, nonblock), t, size).Wrote?
  {
    hide Fitting;
  }
}
