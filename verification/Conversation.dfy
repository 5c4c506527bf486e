/**
 cntrl as it runs (usr/src/cmd/bnu/cntrl.c), and two such programs with the line between them. Each
 step is the one the machine of module Uucico makes, so what holds of its runs holds of these.
 */
module Conversation {
  import opened Uucico
  import opened Books

  // ----- cntrl as it runs -----

  class Cntrl {
    var role: Role
    var at: At
    var work: seq<Job>
    var maySwitch: bool
    var kept: seq<nat>
    var acked: seq<nat>
    var out: seq<Item>

    function P(): Side
      reads this
    {
      Side(role, at, work, maySwitch, kept, acked)
    }

    constructor (p: Side)
      ensures P() == p && out == []
    {
      role, at, work, maySwitch, kept, acked := p.role, p.at, p.work, p.maySwitch, p.kept, p.acked;
      out := [];
    }

    /** A message to the other side. */
    method Write(letter: char, body: Body, id: nat)
      modifies this`out
      ensures out == old(out) + [Msg(letter, body, id)]
    {
      out := out + [Msg(letter, body, id)];
    }

    /** The protocol is turned off and the conversation has failed. */
    method GiveUp()
      modifies this`at
      ensures at == Returned(false)
    {
      at := Returned(false);
    }

    /** From top, as master. */
    method NextJob(ch: Choice)
      requires at == Top && role == Master && out == []
      modifies this
      ensures Act(P(), out) == GetWork(old(P()), ch)
    {
      if work == [] {
        Write('H', Blank, 0);
        at := Hup;
        return;
      }
      var job := work[0];
      work := work[1..];
      if ch.skip { return; }
      if job.kind == Receive {
        if ch.crash { GiveUp(); return; }
        if ch.seekFails { Write('S', No(EM_SEEK), job.id); return; }
      }
      Write(KindLetter(job.kind), Words, job.id);
      at := Reply(KindLetter(job.kind), job.id);
    }

    /** A message with the letter H. */
    method OnHup(m: Item)
      requires m.Msg? && m.letter == 'H' && out == []
      modifies this
      ensures Act(P(), out) == HupMessage(old(P()), m)
    {
      if m.body == Yes {
        Write('H', Yes, 0);
        at := Returned(true);
      } else if m.body.No? {
        if role != Master { GiveUp(); return; }
        role := Slave;
        at := Top;
      } else if !maySwitch || work == [] {
        Write('H', Yes, 0);
        at := Hup;
      } else {
        Write('H', No(0), 0);
        role := Master;
        at := Top;
      }
    }

    /** A message with the letter S. */
    method OnSend(m: Item, ch: Choice)
      requires m.Msg? && m.letter == 'S' && out == []
      modifies this
      ensures Act(P(), out) == SendMessage(old(P()), m, ch)
    {
      if m.body.No? {
        if role != Master || m.body.code == EM_NOTMP { GiveUp(); return; }
        at := Top;
        return;
      }
      if m.body == Yes {
        if role != Master || ch.seekFails { GiveUp(); return; }
        out := out + [File(ch.moved, m.id)];
        at := if ch.moved then Confirm(m.id, ch.tries) else Returned(false);
        return;
      }
      if role != Slave { GiveUp(); return; }
      if ch.refuse != 0 {
        Write('S', No(ch.refuse), m.id);
        at := Top;
        return;
      }
      Write('S', Yes, m.id);
      at := Data(m.id);
    }

    /** A message with the letter R. */
    method OnReceive(m: Item, ch: Choice)
      requires m.Msg? && m.letter == 'R' && out == []
      modifies this
      ensures Act(P(), out) == ReceiveMessage(old(P()), m, ch)
    {
      if m.body.No? || m.body == Yes {
        if role != Master { GiveUp(); return; }
        at := if m.body == Yes then Data(m.id) else Top;
        return;
      }
      if role != Slave { GiveUp(); return; }
      if ch.refuse != 0 {
        Write('R', No(ch.refuse), m.id);
        at := Top;
        return;
      }
      Write('R', Yes, m.id);
      out := out + [File(ch.moved, m.id)];
      at := if ch.moved then Confirm(m.id, ch.tries) else Returned(false);
    }

    /** Rddata and what follows it. */
    method OnData(m: Item, ch: Choice)
      requires at.Data? && out == []
      modifies this
      ensures Act(P(), out) == TakeData(old(P()), m, ch)
    {
      var id := at.id;
      if m.Msg? || !m.good || (!ch.tooBig && !ch.moved) { GiveUp(); return; }
      if ch.tooBig {
        Write('C', No(EM_ULIMIT), id);
      } else if ch.placed {
        Write('C', Yes, id);
        kept := kept + [id];
      } else {
        Write('C', No(EM_RMTCP), id);
      }
      at := Top;
    }

    /** A message, whatever its letter. */
    method OnMessage(m: Item, ch: Choice)
      requires m.Msg? && out == []
      modifies this
      ensures Act(P(), out) == Process(old(P()), m, ch)
    {
      match m.letter
      case 'C' =>
        if m.body == Yes && at.Confirm? { acked := acked + [m.id]; }
        at := Top;
      case 'H' => OnHup(m);
      case 'X' =>
        Write('X', No(0), 0);
        at := Top;
      case 'S' => OnSend(m, ch);
      case 'R' => OnReceive(m, ch);
      case _ => GiveUp();
    }

    /** A read, where the program stands. */
    method OnRead(m: Item, ch: Choice)
      requires Reads(P()) && out == []
      modifies this
      ensures Act(P(), out) == Read(old(P()), m, ch)
    {
      if at.Data? {
        OnData(m, ch);
      } else if m.Msg? && (at == Top || m.letter == Awaited(P())) {
        OnMessage(m, ch);
      } else if at.Confirm? && at.tries > 0 {
        at := Confirm(at.id, at.tries - 1);
      } else {
        GiveUp();
      }
    }
  }

  // ----- two programs and the line between them -----

  datatype Turn = Turn(first: bool, ch: Choice)

  class Call {
    const a: Cntrl
    const b: Cntrl
    var ab: seq<Item>
    var ba: seq<Item>
    ghost const wa: seq<Job>
    ghost const wb: seq<Job>
    ghost var books: Books

    ghost function S(): System
      reads this, a, b
    {
      System(a.P(), b.P(), ab, ba)
    }

    ghost predicate Valid()
      reads this, a, b
    {
      a != b && a.out == [] && b.out == [] && Booked(S(), wa, wb, books)
    }

    constructor (a: Cntrl, b: Cntrl)
      requires a != b && a.out == [] && b.out == [] && Initial(System(a.P(), b.P(), [], []))
      ensures Valid() && this.a == a && this.b == b && ab == [] && ba == []
      ensures wa == a.work && wb == b.work && books == Books([], [])
    {
      this.a, this.b, ab, ba := a, b, [], [];
      wa, wb, books := a.work, b.work, Books([], []);
      new;
      InitialBooked(S());
    }

    /** One side does what it is to do next: as master at top, with what it has read, or on a dead line. */
    static method Proceed(p: Cntrl, inp: seq<Item>, ch: Choice) returns (rest: seq<Item>, out: seq<Item>)
      requires p.out == [] && ((p.at == Top && p.role == Master) || Reads(p.P()))
      modifies p
      ensures p.out == []
      ensures var q := old(p.P());
              if q.at == Top && q.role == Master then Act(p.P(), out) == GetWork(q, ch) && rest == inp
              else if inp != [] then Act(p.P(), out) == Read(q, inp[0], ch) && rest == inp[1..]
              else p.P() == Fail(q).p && out == [] && rest == inp
    {
      rest := inp;
      if p.at == Top && p.role == Master {
        p.NextJob(ch);
      } else if inp != [] {
        p.OnRead(inp[0], ch);
        rest := inp[1..];
      } else {
        p.GiveUp();
      }
      out := p.out;
      p.out := [];
    }

    method MoveFirst(ch: Choice)
      requires Valid() && Enabled(a.P(), b.P(), ba) && !SeekFault(a.P(), ch)
      modifies this, a
      ensures Valid() && S() == MoveA(old(S()), ch) && Left(S()) < Left(old(S()))
      ensures books == FirstBooks(old(S()), ch, old(books))
    {
      hide Booked, Enabled, Left, GetWork, Read, FirstBooks;
      FirstOn(S(), ch, wa, wb, books);
      EnabledActs(a.P(), b.P(), ba);
      books := FirstBooks(S(), ch, books);
      var out;
      ba, out := Proceed(a, ba, ch);
      assert ab + [] == ab;
      ab := ab + out;
    }

    static lemma FirstOn(s: System, ch: Choice, wa: seq<Job>, wb: seq<Job>, l: Books)
      requires Booked(s, wa, wb, l) && Enabled(s.a, s.b, s.ba) && !SeekFault(s.a, ch)
      ensures Booked(MoveA(s, ch), wa, wb, FirstBooks(s, ch, l)) && Left(MoveA(s, ch)) < Left(s)
    {
      FirstBooked(s, ch, wa, wb, l);
      MoveFalls(s, ch);
    }

    static lemma SecondOn(s: System, ch: Choice, wa: seq<Job>, wb: seq<Job>, l: Books)
      requires Booked(s, wa, wb, l) && Enabled(s.b, s.a, s.ab) && !SeekFault(s.b, ch)
      ensures var t := Swap(MoveA(Swap(s), ch));
              Booked(t, wa, wb, SecondBooks(s, ch, l)) && Left(t) < Left(s)
    {
      SecondBooked(s, ch, wa, wb, l);
      MoveFalls(Swap(s), ch);
    }

    lemma EnabledActs(p: Side, peer: Side, inp: seq<Item>)
      requires Enabled(p, peer, inp)
      ensures (p.at == Top && p.role == Master) || Reads(p)
    {
    }

    method MoveSecond(ch: Choice)
      requires Valid() && Enabled(b.P(), a.P(), ab) && !SeekFault(b.P(), ch)
      modifies this, b
      ensures Valid() && S() == Swap(MoveA(Swap(old(S())), ch)) && Left(S()) < Left(old(S()))
      ensures books == SecondBooks(old(S()), ch, old(books))
    {
      hide Booked, Enabled, Left, GetWork, Read, SecondBooks;
      SecondOn(S(), ch, wa, wb, books);
      EnabledActs(b.P(), a.P(), ab);
      books := SecondBooks(S(), ch, books);
      var out;
      ab, out := Proceed(b, ab, ch);
      assert ba + [] == ba;
      ba := ba + out;
    }

    /** So far nothing has gone wrong but the loss of a side. */
    ghost predicate Clean()
      reads this
    {
      Unspoiled(books.a) && Unspoiled(books.b)
    }

    /**
     The conversation, the sides taking turns in any order, until both have returned, the turns are
     used up, or a master cannot position the file it is to receive. Enough turns bring it to its end,
     and then both return 0 or neither does. After 0 every job that was offered is booked, with how it
     ended; if no choice went wrong, the files of these jobs are in place on the other side, in order.
     */
    method Converse(turns: seq<Turn>) returns (fault: bool)
      requires Valid()
      modifies this, a, b
      ensures Valid()
      ensures !fault && |turns| >= old(Left(S())) ==> a.at.Returned? && b.at.Returned?
      ensures a.at.Returned? && b.at.Returned? ==> (a.at.ok <==> b.at.ok)
      ensures a.at == Returned(true) && b.at == Returned(true) ==>
                && a.role != b.role && a.kept == b.acked && b.kept == a.acked
                && (a.work == [] || (a.role == Slave && !a.maySwitch))
                && (b.work == [] || (b.role == Slave && !b.maySwitch))
                && Jobs(books.a) == wa && Jobs(books.b) == Offered(S(), wb)
      ensures a.at == Returned(true) && b.at == Returned(true) && old(Clean()) &&
              (forall t | t in turns :: Smooth(t.ch)) ==>
                && b.kept == Ids(wa, Send) + Ids(Offered(S(), wb), Receive)
                && a.kept == Ids(wa, Receive) + Ids(Offered(S(), wb), Send)
    {
      hide Booked, Left, Clean, Smooth, Jobs, Offered, Ids;
      fault := false;
      var k := 0;
      while k < |turns| && !fault && !(a.at.Returned? && b.at.Returned?)
        invariant Valid() && k <= |turns| && (!fault ==> Left(S()) + k <= old(Left(S())))
        invariant old(Clean()) && (forall t | t in turns :: Smooth(t.ch)) ==> Clean()
        decreases |turns| - k, !fault
      {
        assert turns[k] in turns;
        fault := TakeTurn(turns[k]);
        k := k + 1;
      }
      if a.at.Returned? && b.at.Returned? { End(S()); } else { LeftOver(S()); }
    }

    lemma End(s: System)
      requires Booked(s, wa, wb, books) && s.a.at.Returned? && s.b.at.Returned?
      ensures s.a.at.ok <==> s.b.at.ok
      ensures s.a.at.ok ==>
                && s.a.role != s.b.role && s.a.kept == s.b.acked && s.b.kept == s.a.acked
                && (s.a.work == [] || (s.a.role == Slave && !s.a.maySwitch))
                && (s.b.work == [] || (s.b.role == Slave && !s.b.maySwitch))
                && Jobs(books.a) == wa && Jobs(books.b) == Offered(s, wb)
      ensures s.a.at.ok && Clean() ==>
                && s.b.kept == Ids(wa, Send) + Ids(Offered(s, wb), Receive)
                && s.a.kept == Ids(wa, Receive) + Ids(Offered(s, wb), Send)
    {
      hide Inv, Accounts, Quiet, Phased, Ids, Jobs;
      Outcome(s);
      if s.a.at.ok {
        AllBooked(s, wa, wb, books);
        if Clean() { AllArrive(s, wa, wb, books); }
      }
    }

    method TakeTurn(t: Turn) returns (fault: bool)
      requires Valid() && !(a.at.Returned? && b.at.Returned?)
      modifies this, a, b
      ensures Valid() && (!fault ==> Left(S()) < old(Left(S())))
      ensures old(Clean()) && Smooth(t.ch) ==> Clean()
    {
      hide Booked, Left, Enabled, SeekFault, Smooth, Own, Served, MoveA;
      InvOf(S());
      NoDeadlock(S());
      var first := Enabled(a.P(), b.P(), ba) && (t.first || !Enabled(b.P(), a.P(), ab));
      fault := SeekFault(if first then a.P() else b.P(), t.ch);
      if !fault {
        if Smooth(t.ch) { SmoothBooks(if first then S() else Swap(S()), t.ch); }
        if first {
          MoveFirst(t.ch);
        } else {
          MoveSecond(t.ch);
        }
      }
    }

    lemma InvOf(s: System)
      requires Booked(s, wa, wb, books)
      ensures Inv(s)
    {
    }

    /** While a side has not returned there is something left. */
    lemma LeftOver(s: System)
      requires !(s.a.at.Returned? && s.b.at.Returned?)
      ensures Left(s) > 0
    {
    }
  }
}
