/**
 compile of usr/src/head/regexp.h as it runs: the program is written in place at ep, and the
 operator bits are set through lastep after the fact.
 */
module EdCompiler {
  import opened EdProgram
  import opened EdCompile

  class Compiler {
    var a: Args
    const buf: array<byte>
    const bracket: array<byte>
    var ep: nat
    var sp: nat
    var lastep: int
    var nbra: nat
    var closed: nat
    var bracketp: nat
    var circf: bool

    /** A buffer of zeros, as it is when nothing was compiled yet. */
    constructor (room: nat)
      ensures bracket != buf && buf.Length == room && fresh(buf) && fresh(bracket) && bracket.Length == NBRA
      ensures buf[..] == seq(room, _ => 0)
    {
      buf := new byte[room](_ => 0);
      bracket := new byte[NBRA];
      a, ep, circf := Args([], 0, false, room), 0, false;
    }

    /** What the pointers say. */
    ghost predicate Valid()
      reads this, buf, bracket
    {
      Shape() && StateOk(S())
    }

    ghost predicate Shape()
      reads this
    {
      ep <= a.room == buf.Length && bracketp <= bracket.Length == NBRA && bracket != buf
    }

    ghost function S(): State
      requires Shape()
      reads this, buf, bracket
    {
      State(sp, buf[..ep], lastep, nbra, closed, bracket[..bracketp])
    }

    /** Valid, except that lastep is ep because a character is about to be compiled. */
    ghost predicate Here()
      reads this, buf, bracket
    {
      Shape() && lastep == ep && ep < a.room && StateOk(S().(lastep := -1))
    }

    /** A method did what r says. */
    ghost predicate Did(r: Step, e: Option<Error>, done: bool)
      reads this, buf, bracket
    {
      match r
      case Next(s) => e == None && !done && Valid() && S() == s
      case Return(code) => e == None && done && Shape() && buf[..ep] == code
      case Failed(err) => e == Some(err)
    }

    /** An opcode and the character or number that goes with it, which may come to stand behind the buffer. */
    method Emit(op: byte, c: byte) returns (e: Option<Error>)
      requires Shape() && ep < a.room
      modifies this`ep, buf
      ensures e == if NoRoom(a, old(S())) then Some(Behind) else None
      ensures e.None? ==> Shape() && S() == old(S()).(code := old(S()).code + [op, c])
    {
      buf[ep] := op;
      if ep + 1 >= buf.Length { return Some(Behind); }
      buf[ep + 1] := c;
      ep := ep + 2;
      assert buf[..ep] == old(buf[..ep]) + [op, c];
      e := None;
    }

    method Default(c: byte) returns (e: Option<Error>)
      requires Shape() && ep < a.room && StateOk(S().(lastep := -1))
      modifies this`ep, this`lastep, buf
      ensures Did(DefChar(a, old(S()), c), e, false)
    {
      lastep := ep;
      e := Emit(CCHR, c);
    }

    /** The loop over digits; ok is false when e says why. */
    method ReadDigits() returns (e: Option<Error>, i: nat, c: byte)
      modifies this`sp
      ensures match Digits(a.pat, old(sp), 0)
              case BadNumber(err) => e == Some(err)
              case Number(n, last, at) => e == None && i == n && c == last && sp == at
    {
      e, i, c := None, 0, 0;
      if sp >= |a.pat| { return Some(Overrun), i, c; }
      c := a.pat[sp];
      sp := sp + 1;
      while true
        invariant 1 <= sp <= |a.pat| && c == a.pat[sp - 1]
        invariant Digits(a.pat, old(sp), 0) == Digits(a.pat, sp - 1, i)
        decreases |a.pat| - sp
      {
        if !IsDigit(c) { return Some(Code(16)), i, c; }
        i := 10 * i + Num(c - ZERO);
        if sp >= |a.pat| { return Some(Overrun), i, c; }
        c := a.pat[sp];
        sp := sp + 1;
        if c == BACKSLASH || c == COMMA { return; }
      }
    }

    /** One number, at the end of the code. */
    method EmitByte(i: byte)
      requires Shape() && ep < a.room
      modifies this`ep, buf
      ensures Shape() && S() == old(S()).(code := old(S()).code + [i])
    {
      buf[ep] := i;
      ep := ep + 1;
      assert buf[..ep] == old(buf[..ep]) + [i];
    }

    method ReadInterval() returns (e: Option<Error>)
      requires Valid() && ep < a.room
      modifies this`ep, this`sp, buf
      ensures Did(Interval(a, old(S())), e, false)
    {
      var i, c;
      e, i, c := ReadDigits();
      if e.Some? { return; }
      if i >= 255 { return Some(Code(11)); }
      EmitByte(Byte(i));
      e := ReadRest(c);
    }

    method ReadRest(last: byte) returns (e: Option<Error>)
      requires Valid() && 1 <= ep <= a.room
      modifies this`ep, this`sp, buf
      ensures Did(AfterFirst(a, old(S()), last), e, false)
    {
      if last == BACKSLASH {
        e := FinishInterval(false);
        return;
      }
      if sp >= |a.pat| { return Some(Overrun); }
      var c := a.pat[sp];
      sp := sp + 1;
      if c == BACKSLASH {
        if ep >= buf.Length { return Some(Behind); }
        EmitByte(255);
        e := FinishInterval(true);
      } else {
        sp := sp - 1;
        e := ReadSecond();
      }
    }

    method ReadSecond() returns (e: Option<Error>)
      requires Valid() && 1 <= ep <= a.room
      modifies this`ep, this`sp, buf
      ensures Did(SecondNumber(a, old(S())), e, false)
    {
      var j, c;
      e, j, c := ReadDigits();
      if e.Some? { return; }
      if j >= 255 { return Some(Code(11)); }
      if ep >= buf.Length { return Some(Behind); }
      EmitByte(Byte(j));
      if c == COMMA { return Some(Code(44)); }
      e := FinishInterval(true);
    }

    method FinishInterval(two: bool) returns (e: Option<Error>)
      requires Valid() && 1 <= ep && (two ==> ep >= 2)
      modifies this`ep, this`sp, buf
      ensures Did(CloseInterval(a, old(S()), two), e, false)
    {
      hide StateOk;
      if sp >= |a.pat| { return Some(Overrun); }
      var c := a.pat[sp];
      sp := sp + 1;
      if c != RBRACE { return Some(Code(45)); }
      assert buf[..ep][ep - 1] == buf[ep - 1];
      if !two {
        if ep >= buf.Length { return Some(Behind); }
        EmitByte(buf[ep - 1]);
        return None;
      }
      assert buf[..ep][ep - 2] == buf[ep - 2];
      if buf[ep - 1] < buf[ep - 2] {
        return Some(Code(46));
      }
      return None;
    }

    // ----- brackets -----

    /** The bitmap under way stands at ep. */
    ghost predicate Holds(bits: seq<byte>, wide: bool)
      reads this`a, this`ep, buf
    {
      && |bits| == 32 && ep + Width(wide) <= a.room <= buf.Length
      && buf[ep..ep + Width(wide)] == bits[..Width(wide)]
      && (!wide ==> forall k | 16 <= k < 32 :: bits[k] == 0)
    }

    function Width(wide: bool): nat {
      if wide then 32 else 16
    }

    /** The bit of c in the bitmap is set. */
    method PlaceBit(c: byte, ghost bits: seq<byte>, ghost wide: bool)
      requires Holds(bits, wide) && (wide || c & 0x80 == 0)
      modifies buf
      ensures Holds(Place(bits, c), wide)
      ensures buf[..ep] == old(buf[..ep])
    {
      var k := Slot(c);
      assert forall j | ep <= j < ep + Width(wide) :: buf[j] == bits[j - ep];
      buf[ep + k] := buf[ep + k] | Bit(c);
      assert forall j | ep <= j < ep + Width(wide) :: buf[j] == Place(bits, c)[j - ep];
    }

    /** The test for a character with the top bit. */
    method WidenBit(c: byte, narrow: bool, ghost bits: seq<byte>) returns (ok: bool, narrow': bool)
      requires Holds(bits, !narrow) && 1 <= ep
      modifies buf
      ensures ok <==> !(c & 0x80 != 0 && narrow && ep + 32 >= a.room)
      ensures ok ==> Holds(bits, !narrow') && narrow' == (narrow && c & 0x80 == 0)
      ensures buf[..ep - 1] == old(buf[..ep - 1]) && buf[ep - 1] ==
              (if narrow && !narrow' then CXCL else old(buf[ep - 1]))
    {
      ok, narrow' := true, narrow;
      if c & 0x80 != 0 && narrow {
        narrow' := false;
        if ep + 32 >= a.room { return false, narrow; }
        buf[ep - 1] := CXCL;
        Clear(16, 32);
        assert bits[16..] == seq(16, _ => 0);
        assert buf[ep..ep + 32] == buf[ep..ep + 16] + buf[ep + 16..ep + 32];
      }
    }

    /** Bytes from..to after ep are cleared. */
    method Clear(from: nat, to: nat)
      requires from <= to && ep + to <= buf.Length
      modifies buf
      ensures buf[..ep + from] == old(buf[..ep + from]) && buf[ep + from..ep + to] == seq(to - from, _ => 0)
    {
      var i := from;
      while i < to
        invariant from <= i <= to && buf[..ep + from] == old(buf[..ep + from])
        invariant forall k | ep + from <= k < ep + i :: buf[k] == 0
      {
        buf[ep + i] := 0;
        i := i + 1;
      }
    }

    /** All of a range but its upper end. */
    method PlaceRange(lc0: byte, c: byte, ghost p0: Placed, ghost wide: bool)
      requires Holds(Bits(p0), wide) && (wide || c & 0x80 == 0)
      modifies buf
      ensures Holds(Bits(UpTo(p0, lc0, c)), wide)
      ensures buf[..ep] == old(buf[..ep])
    {
      var lc := lc0;
      ghost var p := p0;
      while lc < c
        invariant Holds(Bits(p), wide)
        invariant UpTo(p0, lc0, c) == UpTo(p, lc, c)
        invariant buf[..ep] == old(buf[..ep])
        decreases Gap(lc, c)
      {
        LowBits(lc, c);
        PlaceBit(lc, Bits(p), wide);
        p := Put(p, lc);
        lc := lc + 1;
      }
    }

    /** The middle of the loop: a dash after a character; e is None and c' the upper end, or the bracket is done. */
    method ReadDash(lc: byte, narrow: bool, ghost b: Bracket)
        returns (e: Option<Error>, done: bool, c: byte, narrow': bool, ghost b': Bracket)
      requires Stands(b, narrow) && sp <= |a.pat|
      modifies this`sp, buf
      ensures buf[..ep - 1] == old(buf[..ep - 1])
      ensures match Dash(a.pat, old(sp), lc, b, ep + 32 >= a.room)
              case DashBad(err) => e == Some(err)
              case DashEnd(b1) => e == None && done && Stands(b', narrow') && b' == b1 && sp == old(sp) + 1
              case DashTo(hi, b1) =>
                && e == None && !done && Stands(b', narrow') && b' == b1 && c == hi && sp == old(sp) + 1
                && (b1.wide || hi & 0x80 == 0)
    {
      hide Place, Slot, Bits, UpTo;
      e, done, c, narrow', b' := None, false, 0, narrow, b;
      if sp >= |a.pat| { e := Some(Overrun); return; }
      c := a.pat[sp];
      sp := sp + 1;
      if c == RBRACKET {
        PlacedMore(b.placed, DASH);
        PlaceBit(DASH, Bits(b.placed), b.wide);
        b' := b.(placed := Put(b.placed, DASH));
        done := true;
        return;
      }
      var ok;
      ok, narrow' := WidenBit(c, narrow, Bits(b.placed));
      if !ok { e := Some(Code(50)); return; }
      b' := Widen(b, c, ep + 32 >= a.room).value;
      PlaceRange(lc, c, b'.placed, b'.wide);
      b' := b'.(placed := UpTo(b'.placed, lc, c));
    }

    /** Holds, and the opcode before it says how wide it is. */
    ghost predicate Stands(b: Bracket, narrow: bool)
      reads this`a, this`ep, buf
    {
      Holds(Bits(b.placed), b.wide) && narrow == !b.wide && 1 <= ep && buf[ep - 1] == (if narrow then CCL else CXCL)
    }

    /** One character of a bracket. */
    method ReadOne(c0: byte, lc0: byte, narrow0: bool, ghost b0: Bracket, ghost full: bool)
        returns (e: Option<Error>, done: bool, lc: byte, narrow: bool, ghost b: Bracket)
      requires Stands(b0, narrow0) && full == (ep + 32 >= a.room) && sp <= |a.pat|
      modifies this`sp, buf
      ensures buf[..ep - 1] == old(buf[..ep - 1])
      ensures match Member(a.pat, c0, old(sp), lc0, b0, full)
              case DashBad(err) => e == Some(err)
              case DashEnd(b1) => e == None && done && Stands(b, narrow) && b == b1 && sp == old(sp) + 1
              case DashTo(hi, b1) =>
                e == None && !done && Stands(b, narrow) && b == b1 && lc == hi &&
                    sp == old(sp) + (if IsDash(c0, lc0) then 1 else 0)
    {
      hide Place, Slot, Bits, Dash, UpTo;
      e, done, lc, narrow, b := None, false, c0, narrow0, b0;
      if c0 == 0 || c0 == NEWLINE { e := Some(Code(49)); return; }
      var ok;
      ok, narrow := WidenBit(c0, narrow, Bits(b.placed));
      if !ok { e := Some(Code(50)); return; }
      b := Widen(b, c0, ep + 32 >= a.room).value;
      if IsDash(c0, lc0) {
        e, done, lc, narrow, b := ReadDash(lc0, narrow, b);
        if e.Some? || done { return; }
      }
      PlacedMore(b.placed, lc);
      PlaceBit(lc, Bits(b.placed), b.wide);
      b := b.(placed := Put(b.placed, lc));
    }

    /** One character of a bracket, and whether the closing one comes next. */
    method ReadNext(c0: byte, lc0: byte, narrow0: bool, ghost b0: Bracket, ghost full: bool)
        returns (e: Option<Error>, done: bool, c: byte, lc: byte, narrow: bool, ghost b: Bracket)
      requires Stands(b0, narrow0) && full == (ep + 32 >= a.room) && sp <= |a.pat|
      modifies this`sp, buf
      ensures buf[..ep - 1] == old(buf[..ep - 1])
      ensures e.Some? ==> Brackets(a.pat, c0, old(sp), lc0, b0, full) == BadBracket(e.value)
      ensures e.None? ==> Stands(b, narrow) && old(sp) <= sp <= |a.pat|
      ensures e.None? && done ==> Brackets(a.pat, c0, old(sp), lc0, b0, full) == BracketDone(b, sp)
      ensures e.None? && !done ==> old(sp) < sp
      ensures e.None? && !done ==>
        Brackets(a.pat, c0, old(sp), lc0, b0, full) == Brackets(a.pat, c, sp, lc, b, full)
    {
      hide Place, Slot, Member, Bits, Widen;
      c := c0;
      e, done, lc, narrow, b := ReadOne(c0, lc0, narrow0, b0, full);
      ghost var m := Member(a.pat, c0, old(sp), lc0, b0, full);
      if e.Some? || done { return; }
      assert m == DashTo(lc, b);
      if sp >= |a.pat| { e := Some(Overrun); return; }
      MemberPlaced(a.pat, c0, old(sp), lc0, b0, full);
      c := a.pat[sp];
      sp := sp + 1;
      done := c == RBRACKET;
    }

    /** The loop over the characters of a bracket; c has been read. */
    method ReadBracket(c0: byte, ghost b0: Bracket) returns (e: Option<Error>, narrow: bool, ghost b: Bracket)
      requires Stands(b0, true) && sp <= |a.pat|
      modifies this`sp, buf
      ensures buf[..ep - 1] == old(buf[..ep - 1])
      ensures match Brackets(a.pat, c0, old(sp), 0, b0, ep + 32 >= a.room)
              case BadBracket(err) => e == Some(err)
              case BracketDone(b', at) => e == None && Stands(b, narrow) && b == b' && sp == at
    {
      var c, lc, done := c0, 0 as byte, false;
      b, narrow, e := b0, true, None;
      while !done
        invariant e.None? && sp <= |a.pat| && Stands(b, narrow)
        invariant Brackets(a.pat, c0, old(sp), 0, b0, ep + 32 >= a.room)
               == if done then BracketDone(b, sp) else Brackets(a.pat, c, sp, lc, b, ep + 32 >= a.room)
        invariant buf[..ep - 1] == old(buf[..ep - 1])
        decreases |a.pat| - sp, if done then 0 else 1
      {
        e, done, c, lc, narrow, b := ReadNext(c, lc, narrow, b, ep + 32 >= a.room);
        if e.Some? { return; }
      }
    }

    /** Every byte of the bitmap is complemented. */
    method FlipAll(ghost bits: seq<byte>)
      requires Holds(bits, true)
      modifies buf
      ensures buf[ep..ep + 32] == Flip(bits) && buf[..ep] == old(buf[..ep])
    {
      var i := 0;
      while i < 32
        invariant 0 <= i <= 32 && buf[..ep] == old(buf[..ep])
        invariant forall k | ep <= k < ep + i :: buf[k] == bits[k - ep] ^ 0xff
        invariant forall k | ep + i <= k < ep + 32 :: buf[k] == bits[k - ep]
      {
        assert buf[ep + i] == bits[i];
        buf[ep + i] := buf[ep + i] ^ 0xff;
        i := i + 1;
      }
    }

    /** What is done with neg when the loop is over. */
    method Negate(narrow: bool, ghost b: Bracket)
      requires Stands(b, narrow)
      modifies buf
      ensures var m := Finish(b, true);
              buf[ep..ep + Width(b.wide)] == m.bits && buf[..ep - 1] == old(buf[..ep - 1]) && buf[ep - 1] == m.kind
    {
      hide Place, Slot, Bit;
      if !narrow {
        FlipAll(Bits(b.placed));
        assert buf[ep] == buf[ep..ep + 32][0];
        buf[ep] := buf[ep] & 0xfe;
      } else {
        buf[ep - 1] := NCCL;
        assert buf[ep] == Bits(b.placed)[0];
        buf[ep] := buf[ep] | 1;
      }
    }

    method FinishBracket(neg: bool, narrow: bool, ghost b: Bracket)
      requires Stands(b, narrow)
      modifies this`ep, buf
      ensures var m := Finish(b, neg); ep <= a.room && buf[..ep] == old(buf[..ep - 1]) + [m.kind] + m.bits
    {
      if neg {
        Negate(narrow, b);
      }
      ghost var m := Finish(b, neg);
      assert buf[ep..ep + Width(b.wide)] == m.bits && buf[ep - 1] == m.kind;
      assert buf[..ep + Width(b.wide)] == buf[..ep - 1] + [buf[ep - 1]] + buf[ep..ep + Width(b.wide)];
      ep := ep + if narrow then 16 else 32;
    }

    /** The opcode of a class, and an empty bitmap of 16 bytes behind it. */
    method StartClass() returns (ghost b: Bracket)
      requires Here() && ep + 17 < a.room
      modifies this`ep, buf
      ensures b == Bracket(Blank, false) && Stands(b, true)
      ensures ep == old(ep) + 1 && buf[..ep - 1] == old(buf[..ep])
    {
      b := Bracket(Blank, false);
      buf[ep] := CCL;
      ep := ep + 1;
      assert buf[..ep - 1] == old(buf[..ep]);
      Clear(0, 16);
      assert buf[..ep - 1] == buf[..ep][..ep - 1];
      assert buf[ep - 1] == buf[..ep][ep - 1];
    }

    /** A bracket expression, after its opening bracket. */
    method ReadClass() returns (e: Option<Error>)
      requires Here() && ep + 17 < a.room
      modifies this`ep, this`sp, buf
      ensures Did(OpenBracket(a, old(S())), e, false)
    {
      hide Brackets, Finish;
      ghost var b := StartClass();
      if sp >= |a.pat| { return Some(Overrun); }
      var neg := a.pat[sp] == CARET;
      sp := sp + 1;
      if neg {
        if sp >= |a.pat| { return Some(Overrun); }
        sp := sp + 1;
      }
      e := ReadMembers(neg, b, old(S()));
    }

    method ReadMembers(neg: bool, ghost b0: Bracket, ghost s: State) returns (e: Option<Error>)
      requires Stands(b0, true) && b0 == Bracket(Blank, false) && 0 < sp <= |a.pat| && ep < a.room && Shape()
      requires StateOk(s.(lastep := -1)) && s.lastep == |s.code| && S() == s.(sp := sp, code := s.code + [buf[ep - 1]])
      modifies this`ep, this`sp, buf
      ensures Did(ClassRead(a, s, neg, old(sp) - 1), e, false)
    {
      var narrow;
      ghost var b;
      assert buf[..ep - 1] == s.code by { assert buf[..ep - 1] == buf[..ep][..ep - 1]; }
      e, narrow, b := ReadBracket(a.pat[sp - 1], b0);
      if e.Some? { return; }
      FinishBracket(neg, narrow, b);
      ghost var m := Finish(b, neg);
      assert buf[..ep] == s.code + [m.kind] + m.bits;
      assert S() == s.(sp := sp, code := s.code + [m.kind] + m.bits);
    }

    /** A group is opened or closed; lastep plays no part. */
    ghost predicate Grouping()
      reads this, buf, bracket
    {
      Shape() && ep < a.room && -1 <= lastep <= ep && StateOk(S().(lastep := -1))
    }

    method ReadOpen() returns (e: Option<Error>)
      requires Grouping()
      modifies this`ep, this`nbra, this`bracketp, buf, bracket
      ensures Did(OpenGroup(a, old(S())), e, false)
    {
      if nbra >= NBRA { return Some(Code(43)); }
      bracket[bracketp] := Byte(nbra);
      bracketp := bracketp + 1;
      assert bracket[..bracketp] == old(bracket[..bracketp]) + [Byte(nbra)];
      e := Emit(CBRA, Byte(nbra));
      if e.None? { nbra := nbra + 1; }
    }

    method ReadClose() returns (e: Option<Error>)
      requires Grouping()
      modifies this`ep, this`closed, this`bracketp, buf
      ensures Did(CloseGroup(a, old(S())), e, false)
    {
      if bracketp <= 0 { return Some(Code(42)); }
      bracketp := bracketp - 1;
      e := Emit(CKET, bracket[bracketp]);
      if e.None? { closed := closed + 1; }
    }

    /** A repetition count, after its opening brace. */
    method ReadRange() returns (e: Option<Error>)
      requires Valid() && ep < a.room
      modifies this`ep, this`sp, this`lastep, buf
      ensures Did(Escape(a, old(S()), LBRACE), e, false)
    {
      if lastep < 0 {
        e := Default(LBRACE);
        return;
      }
      buf[lastep] := buf[lastep] | RNGE;
      assert buf[..ep] == old(buf[..ep])[lastep := old(buf[lastep]) | RNGE];
      e := ReadInterval();
    }

    /** The other cases after a backslash. */
    method ReadEscape(c: byte) returns (e: Option<Error>)
      requires Here() && c != LBRACE
      modifies this`ep, this`lastep, this`nbra, this`closed, this`bracketp, buf, bracket
      ensures Did(Escape(a, old(S()), c), e, false)
    {
      e := None;
      if c == LPAREN {
        e := ReadOpen();
      } else if c == RPAREN {
        e := ReadClose();
      } else if c == NEWLINE {
        e := Some(Code(36));
      } else if c == LETTER_N {
        e := Default(NEWLINE);
      } else if ONE <= c <= NINE {
        if Num(c - ONE) >= closed { return Some(Code(25)); }
        e := Emit(CBACK, c - ONE);
      } else {
        e := Default(c);
      }
    }

    method ReadBackslash(c: byte) returns (e: Option<Error>)
      requires if c == LBRACE then Valid() && ep < a.room else Here()
      modifies this`ep, this`sp, this`lastep, this`nbra, this`closed, this`bracketp, buf, bracket
      ensures Did(Escape(a, old(S()), c), e, false)
    {
      if c == LBRACE {
        e := ReadRange();
      } else {
        e := ReadEscape(c);
      }
    }

    method ReadStar() returns (e: Option<Error>)
      requires Valid() && ep < a.room
      modifies this`ep, this`lastep, buf
      ensures Did(Stars(a, old(S())), e, false)
    {
      if lastep < 0 || buf[lastep] == CBRA || buf[lastep] == CKET {
        e := Default(ASTERISK);
      } else {
        buf[lastep] := buf[lastep] | STAR;
        assert buf[..ep] == old(buf[..ep])[lastep := old(buf[lastep]) | STAR];
        e := None;
      }
    }

    method ReadPlain(c: byte) returns (e: Option<Error>, done: bool)
      requires Here()
      modifies this`ep, this`sp, this`lastep, buf
      ensures Did(Plain(a, old(S()), c), e, done)
    {
      e, done := None, false;
      if c == DOT {
        EmitByte(CDOT);
      } else if c == NEWLINE {
        if a.sed { return Some(Code(36)), false; }
        if bracketp != 0 { return Some(Code(42)), false; }
        EmitByte(CCEOF);
        done := true;
      } else if c == DOLLAR {
        if sp >= |a.pat| { return Some(Overrun), false; }
        if a.pat[sp] != a.eof && a.pat[sp] != NEWLINE {
          e := Default(c);
        } else {
          EmitByte(CDOL);
        }
      } else if c == LBRACKET {
        if ep + 17 >= a.room { return Some(Code(50)), false; }
        e := ReadClass();
      } else {
        e := Default(c);
      }
    }

    /** The body of the main loop. */
    method ReadRound() returns (e: Option<Error>, done: bool)
      requires Valid()
      modifies this`ep, this`sp, this`lastep, this`nbra, this`closed, this`bracketp, buf, bracket
      ensures Did(Round(a, old(S())), e, done)
    {
      e, done := None, false;
      if ep >= a.room { return Some(Code(50)), false; }
      if sp >= |a.pat| { return Some(Overrun), false; }
      var c := a.pat[sp];
      sp := sp + 1;
      if c == BACKSLASH && sp >= |a.pat| { return Some(Overrun), false; }
      if c != ASTERISK && (c != BACKSLASH || a.pat[sp] != LBRACE) {
        lastep := ep;
      }
      e, done := ReadSwitch(c);
    }

    /** What a round does with its first character. */
    method ReadSwitch(c: byte) returns (e: Option<Error>, done: bool)
      requires c == BACKSLASH ==> sp < |a.pat|
      requires if Looks(a, sp, c) then Valid() && ep < a.room else Here()
      modifies this`ep, this`sp, this`lastep, this`nbra, this`closed, this`bracketp, buf, bracket
      ensures Did(Switch(a, old(S()), c), e, done)
    {
      e, done := None, false;
      if c == a.eof {
        if bracketp != 0 { return Some(Code(42)), false; }
        EmitByte(CCEOF);
        done := true;
      } else if c == ASTERISK {
        e := ReadStar();
      } else if c == BACKSLASH {
        sp := sp + 1;
        e := ReadBackslash(a.pat[sp - 1]);
      } else {
        e, done := ReadPlain(c);
      }
    }

    /** There is a pattern in the buffer. */
    ghost predicate Before()
      reads buf
    {
      buf.Length > 0 && buf[0] != 0
    }

    /** compile; what it finds in the buffer is what it left there before. */
    method Run(args: Args) returns (r: Compiled)
      requires bracket.Length == NBRA && bracket != buf && buf.Length == args.room
      modifies this, buf, bracket
      ensures r == Compile(args, old(Before()))
      ensures r.Program? ==> ep <= buf.Length && buf[..ep] == r.code && circf == r.circf && Before()
      ensures EmptyPattern(args) ==>
                ep == old(ep) && buf[..] == old(buf[..]) && circf == old(circf) && bracket[..] == old(bracket[..])
    {
      a := args;
      if a.pat == [] { return CompileError(Overrun); }
      if a.pat[0] == a.eof || a.pat[0] == NEWLINE {
        if buf.Length == 0 { return CompileError(Behind); }
        return if buf[0] == 0 && !a.sed then CompileError(Code(41)) else NoPattern;
      }
      r := ReadAll();
    }

    /** All rounds, for a pattern that is not empty. */
    method ReadAll() returns (r: Compiled)
      requires bracket.Length == NBRA && bracket != buf && buf.Length == a.room && a.pat != []
      modifies this`circf, this`ep, this`lastep, this`nbra, this`closed, this`bracketp, this`sp, buf, bracket
      ensures r == Made(Rounds(a, Initial(a.pat[0] == CARET)), a.pat[0] == CARET)
      ensures r.Program? ==> ep <= buf.Length && buf[..ep] == r.code && circf == r.circf && Before()
    {
      circf := a.pat[0] == CARET;
      ep, lastep, nbra, closed, bracketp, sp := 0, -1, 0, 0, 0, if circf then 1 else 0;
      assert S() == Initial(circf);
      hide Rounds, Round, Initial, StateOk;
      RoundsBegin(a, S());
      while true
        invariant Valid() && circf == (a.pat[0] == CARET)
        invariant Rounds(a, S()) == Rounds(a, Initial(circf))
        decreases |a.pat| - sp
      {
        ghost var s := S();
        var e, done := ReadRound();
        RoundsOne(a, s);
        if e.Some? { return CompileError(e.value); }
        if done {
          assert buf[..ep][0] == buf[0];
          return Program(buf[..ep], circf);
        }
      }
    }
  }

  lemma PlacedMore(p: Placed, c: byte)
    ensures Bits(Put(p, c)) == Place(Bits(p), c)
  {
  }

  lemma MemberPlaced(pat: seq<byte>, c: byte, at: nat, lc: byte, b: Bracket, full: bool)
    requires at <= |pat| && Member(pat, c, at, lc, b, full).DashTo?
    requires at + (if IsDash(c, lc) then 1 else 0) < |pat|
    ensures var m := Member(pat, c, at, lc, b, full);
            var next := at + if IsDash(c, lc) then 1 else 0;
            Brackets(pat, c, at, lc, b, full) ==
            if pat[next] == RBRACKET then BracketDone(m.b, next + 1)
                else Brackets(pat, pat[next], next + 1, m.hi, m.b, full)
  {
  }

  ghost function Gap(lc: byte, c: byte): nat
    decreases if lc < c then c - lc else 0
  {
    if lc < c then 1 + Gap(lc + 1, c) else 0
  }

  lemma LowBits(lc: byte, c: byte)
    requires lc < c
    ensures c & 0x80 == 0 ==> lc & 0x80 == 0
  {
  }
}
