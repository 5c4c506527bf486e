/**
 What becomes of every job in a conversation of two uucico processes (usr/src/cmd/bnu/cntrl.c). The
 books say of each job a side has done with how it ended; the rest is in its hand or still in its work.
 */
module Books {
  import opened Uucico

  // ----- keeping books -----

  /**
   A job is skipped by the side it belongs to, refused by the other, received but not put in place,
   received and put in place, or lost with the side it belongs to.
   */
  datatype Fate = Skipped | Refused | Unplaced | Placed | Broken

  datatype Booking = Booking(job: Job, fate: Fate)

  /** The jobs of the two sides that are done with, in order. */
  datatype Books = Books(a: seq<Booking>, b: seq<Booking>)

  function Jobs(l: seq<Booking>): (js: seq<Job>)
    ensures |js| == |l| && forall k | 0 <= k < |l| :: js[k] == l[k].job
  {
    seq(|l|, k requires 0 <= k < |l| => l[k].job)
  }

  function KindOf(letter: char): Kind {
    if letter == 'S' then Send else Receive
  }

  /** An answer after which the job is done with: a refusal, or what became of the file. */
  predicate Settles(i: Item) {
    i.Msg? && (i.body.No? || i.letter == 'C')
  }

  /** The job a master has asked for or is about, unless what is on the way to it settles that. */
  function InHand(p: Side, inp: seq<Item>): seq<Job> {
    if p.role == Slave || (inp != [] && Settles(inp[0])) then []
    else
      match p.at
      case Reply(letter, id) => [Job(KindOf(letter), id)]
      case Confirm(id, _) => [Job(Send, id)]
      case Data(id) => [Job(Receive, id)]
      case _ => []
  }

  predicate GetsFile(p: Side, inp: seq<Item>) {
    p.at.Data? && inp != [] && inp[0].File? && inp[0].good
  }

  /** What good data comes to. */
  function Ending(ch: Choice): Fate {
    if ch.tooBig then Unplaced else if !ch.moved then Broken else if ch.placed then Placed else Unplaced
  }

  /** What a move of a books of its own jobs. */
  function Own(s: System, ch: Choice): seq<Booking>
    requires Enabled(s.a, s.b, s.ba)
  {
    if s.a.role == Slave then []
    else if s.a.at == Top then
      if s.a.work == [] then []
      else if ch.skip then [Booking(s.a.work[0], Skipped)]
      else if s.a.work[0].kind == Receive && ch.crash then [Booking(s.a.work[0], Broken)]
      else []
    else if GetsFile(s.a, s.ba) then [Booking(Job(Receive, s.a.at.id), Ending(ch))]
    else if MoveA(s, ch).a.at == Returned(false) then All(InHand(s.a, s.ba), Broken)
    else []
  }

  function All(js: seq<Job>, fate: Fate): (l: seq<Booking>)
    ensures |l| == |js| && forall k | 0 <= k < |js| :: l[k] == Booking(js[k], fate)
  {
    seq(|js|, k requires 0 <= k < |js| => Booking(js[k], fate))
  }

  /** What a move of a books of the jobs of b, which it serves. */
  function Served(s: System, ch: Choice): seq<Booking>
    requires Enabled(s.a, s.b, s.ba)
  {
    if s.a.role == Master || s.ba == [] then []
    else if s.a.at == Top && IsRequest(s.ba[0]) && ch.refuse != 0 then
      [Booking(Job(KindOf(s.ba[0].letter), s.ba[0].id), Refused)]
    else if GetsFile(s.a, s.ba) && Ending(ch) != Broken then [Booking(Job(Send, s.a.at.id), Ending(ch))]
    else []
  }

  function Kept(l: seq<Booking>, kind: Kind): seq<nat> {
    if l == [] then []
    else
      var e := l[|l| - 1];
      Kept(l[..|l| - 1], kind) + (if e.fate == Placed && e.job.kind == kind then [e.job.id] else [])
  }

  lemma KeptOn(l: seq<Booking>, m: seq<Booking>, kind: Kind)
    requires |m| <= 1
    ensures Kept(l + m, kind) == Kept(l, kind) + Kept(m, kind)
  {
    if m == [] {
      assert l + m == l;
    } else {
      assert (l + m)[..|l|] == l && m[..0] == [];
    }
  }

  // ----- the account of one side -----

  /** Every job p began with is in the books, in its hand or in its work, and in that order. */
  predicate Account(p: Side, inp: seq<Item>, jobs: seq<Job>, l: seq<Booking>) {
    && jobs == Jobs(l) + InHand(p, inp) + p.work
    && (forall k | 0 <= k < |l| :: l[k].fate == Broken ==> p.at == Returned(false))
  }

  /** A side that has failed has left no request and no file for the other to read. */
  predicate LeftQuiet(p: Side, peer: Side, out: seq<Item>) {
    p.at == Returned(false) && !peer.at.Returned? ==>
      forall k | 0 <= k < |out| :: !IsRequest(out[k]) && !(out[k].File? && out[k].good)
  }

  predicate Quiet(s: System) {
    LeftQuiet(s.a, s.b, s.ab) && LeftQuiet(s.b, s.a, s.ba)
  }

  lemma JobsOn(l: seq<Booking>, m: seq<Booking>)
    ensures Jobs(l + m) == Jobs(l) + Jobs(m)
  {
  }

  /** What a move books, has in hand after it and leaves in the work is what was in hand and in the work before. */
  predicate Balanced(s: System, ch: Choice)
    requires Enabled(s.a, s.b, s.ba)
  {
    var t := MoveA(s, ch);
    && InHand(s.a, s.ba) + s.a.work == Jobs(Own(s, ch)) + InHand(t.a, t.ba) + t.a.work
    && forall k | 0 <= k < |Own(s, ch)| :: Own(s, ch)[k].fate == Broken ==> t.a.at == Returned(false)
  }

  lemma Nothing(w: seq<Job>)
    ensures [] + w == w && [] + [] + w == w
  {
  }

  /** A master with work left takes a job: it is booked at once, or it is in hand. */
  lemma JobTaken(s: System, ch: Choice)
    requires Fits(s.a, s.ba) && s.a.at == Top && s.a.role == Master && s.a.work != [] && !SeekFault(s.a, ch)
    ensures var t, job := MoveA(s, ch), s.a.work[0];
            && s.ba == [] && t.ba == [] && t.a.work == s.a.work[1..]
            && if Own(s, ch) == [] then InHand(t.a, []) == [job]
               else InHand(t.a, []) == [] && |Own(s, ch)| == 1 && Own(s, ch)[0].job == job &&
                    (Own(s, ch)[0].fate == Broken ==> t.a.at == Returned(false))
  {
  }

  lemma WorkBalanced(s: System, ch: Choice)
    requires Fits(s.a, s.ba) && s.a.at == Top && s.a.role == Master && !SeekFault(s.a, ch)
    ensures Balanced(s, ch)
  {
    if s.a.work == [] {
      Nothing(s.a.work);
    } else {
      JobTaken(s, ch);
      hide MoveA, Own, Fits, Jobs;
      TakeFirst(s.a.work);
      JobsFew(Own(s, ch));
      assert InHand(s.a, s.ba) == [];
    }
  }

  lemma TakeFirst(w: seq<Job>)
    requires w != []
    ensures [] + w == [] + [w[0]] + w[1..] && [] + w == [w[0]] + [] + w[1..]
  {
  }

  lemma JobsFew(l: seq<Booking>)
    ensures l == [] ==> Jobs(l) == []
    ensures |l| == 1 ==> Jobs(l) == [l[0].job]
  {
  }

  lemma SlaveBalanced(s: System, ch: Choice)
    requires Fits(s.a, s.ba) && Enabled(s.a, s.b, s.ba) && s.a.role == Slave
    ensures Balanced(s, ch)
  {
    Nothing(s.a.work);
    var t := MoveA(s, ch);
    assert t.a.work == s.a.work && (t.a.role == Slave || t.a.at == Top);
  }

  /** A master that reads nothing because the line is dead. */
  lemma GoneBalanced(s: System, ch: Choice)
    requires Enabled(s.a, s.b, s.ba) && s.a.role == Master && Reads(s.a) && s.ba == []
    ensures Balanced(s, ch)
  {
    var h := InHand(s.a, s.ba);
    assert Jobs(All(h, Broken)) == h;
    assert h + [] + s.a.work == h + s.a.work;
    Nothing(s.a.work);
  }

  lemma HandKept(s: System, ch: Choice)
    requires Fits(s.a, s.ba) && Enabled(s.a, s.b, s.ba) && s.a.role == Master && Reads(s.a) && s.ba != []
    requires !s.a.at.Data?
    ensures var t, h := MoveA(s, ch), InHand(s.a, s.ba);
            && t.a.work == s.a.work
            && if t.a.at == Returned(false) then Own(s, ch) == All(h, Broken) && InHand(t.a, t.ba) == []
               else Own(s, ch) == [] && InHand(t.a, t.ba) == h
  {
  }

  lemma ReadBalanced(s: System, ch: Choice)
    requires Fits(s.a, s.ba) && Enabled(s.a, s.b, s.ba) && s.a.role == Master && Reads(s.a) && s.ba != []
    requires !s.a.at.Data?
    ensures Balanced(s, ch)
  {
    HandKept(s, ch);
    hide MoveA, Own, Fits, InHand, Enabled;
    var h := InHand(s.a, s.ba);
    assert Jobs(All(h, Broken)) == h && Jobs([]) == [];
    assert h + [] + s.a.work == h + s.a.work == [] + h + s.a.work;
  }

  lemma DataBalanced(s: System, ch: Choice)
    requires Fits(s.a, s.ba) && Enabled(s.a, s.b, s.ba) && s.a.role == Master && s.a.at.Data? && s.ba != []
    ensures Balanced(s, ch)
  {
    var t, h := MoveA(s, ch), [Job(Receive, s.a.at.id)];
    assert InHand(s.a, s.ba) == h && InHand(t.a, t.ba) == [] && t.a.work == s.a.work;
    assert Jobs(Own(s, ch)) == h;
    assert h + [] + s.a.work == h + s.a.work;
  }

  lemma OwnBalanced(s: System, ch: Choice)
    requires Fits(s.a, s.ba) && Enabled(s.a, s.b, s.ba) && !SeekFault(s.a, ch)
    ensures Balanced(s, ch)
  {
    hide Balanced, Fits;
    if s.a.role == Slave {
      SlaveBalanced(s, ch);
    } else if s.a.at == Top {
      WorkBalanced(s, ch);
    } else if s.ba == [] {
      GoneBalanced(s, ch);
    } else if s.a.at.Data? {
      DataBalanced(s, ch);
    } else {
      ReadBalanced(s, ch);
    }
  }

  lemma QuietOn(p: Side, peer: Side, out: seq<Item>, more: seq<Item>)
    requires LeftQuiet(p, peer, out)
    requires forall k | 0 <= k < |more| :: !IsRequest(more[k]) && !(more[k].File? && more[k].good)
    ensures LeftQuiet(p, peer, out + more)
  {
  }

  /** A side that fails has just left nothing to read but bad data or an answer. */
  lemma FailQuiet(s: System, ch: Choice)
    requires Paired(s) && Enabled(s.a, s.b, s.ba) && !SeekFault(s.a, ch) && !s.b.at.Returned?
    requires MoveA(s, ch).a.at == Returned(false)
    ensures forall k | 0 <= k < |MoveA(s, ch).ab| :: var i := MoveA(s, ch).ab[k]; !IsRequest(i) && !(i.File? && i.good)
  {
  }

  lemma MoveQuiet(s: System, ch: Choice)
    requires Paired(s) && Quiet(s) && Enabled(s.a, s.b, s.ba) && !SeekFault(s.a, ch)
    ensures Quiet(MoveA(s, ch))
  {
    hide Paired, GetWork, Read;
    var t := MoveA(s, ch);
    MoveIsAct(s, ch);
    if t.a.at == Returned(false) && !s.b.at.Returned? { FailQuiet(s, ch); }
    assert !s.a.at.Returned?;
    assert t.ba == s.ba || (s.ba != [] && t.ba == s.ba[1..]);
  }

  /** What a move does to the other side's job in hand is what it books of it. */
  lemma ServedHand(s: System, ch: Choice)
    requires Paired(s) && Quiet(s) && Enabled(s.a, s.b, s.ba) && !SeekFault(s.a, ch)
    ensures InHand(s.b, s.ab) == Jobs(Served(s, ch)) + InHand(s.b, MoveA(s, ch).ab)
    ensures forall k | 0 <= k < |Served(s, ch)| :: Served(s, ch)[k].fate != Broken
  {
  }

  // ----- first the caller is master, then the one that was called -----

  predicate NoHupNo(c: seq<Item>) {
    forall k | 0 <= k < |c| :: !IsHupNo(c[k])
  }

  predicate NoHupBlank(c: seq<Item>) {
    forall k | 0 <= k < |c| :: !IsHup(c[k], Blank)
  }

  /** The side has nothing more to ask for. */
  predicate Through(p: Side) {
    p.work == [] && (p.role == Master ==> p.at == Hup || p.at.Returned?)
  }

  /** b becomes master only when a is through with its work, and then stays it. */
  predicate Phased(s: System) {
    && NoHupNo(s.ab)
    && if s.b.role == Slave then s.a.role == Master && NoHupNo(s.ba) && (NoHupBlank(s.ab) || Through(s.a))
       else Through(s.a)
  }

  predicate AsksToStop(s: System) {
    s.ba != [] && IsHup(s.ba[0], Blank)
  }

  predicate HandsOver(s: System) {
    s.ba != [] && IsHupNo(s.ba[0])
  }

  /** What the messages with the letter H have to do with the roles. */
  lemma HupRules(s: System, ch: Choice)
    requires Fits(s.a, s.ba) && NothingToOffer(s.a) && Enabled(s.a, s.b, s.ba)
    ensures var r := ActA(s, ch);
            && (s.a.role == Slave && r.p.role == Master ==> AsksToStop(s) && s.a.work != [])
            && (s.a.role == Master && r.p.role == Slave ==> HandsOver(s))
            && (!NoHupNo(r.out) ==> s.a.role == Slave && r.p.role == Master)
            && (!NoHupBlank(r.out) ==> Through(r.p))
            && (Through(s.a) ==> Through(r.p))
  {
    var r := ActA(s, ch);
    if !NoHupNo(r.out) {
      assert r.p.role == Master;
    }
  }

  lemma HupLines(c: seq<Item>, d: seq<Item>)
    ensures NoHupNo(c) && NoHupNo(d) ==> NoHupNo(c + d)
    ensures NoHupBlank(c) && NoHupBlank(d) ==> NoHupBlank(c + d)
    ensures NoHupNo(c) && c != [] ==> NoHupNo(c[1..]) && !IsHupNo(c[0])
    ensures NoHupBlank(c) && c != [] ==> NoHupBlank(c[1..]) && !IsHup(c[0], Blank)
  {
  }

  lemma FirstPhased(s: System, ch: Choice)
    requires Inv(s) && Phased(s) && Enabled(s.a, s.b, s.ba)
    ensures Phased(MoveA(s, ch))
  {
    hide Fits, Together, Ledger, NothingToOffer, GetWork, Read, NoHupNo, NoHupBlank, Through, IsHup, IsHupNo, Enabled,
        ActA;
    HupRules(s, ch);
    MoveIsAct(s, ch);
    HupLines(s.ab, ActA(s, ch).out);
    HupLines(s.ba, []);
    MovedLine(s, ch);
    if Through(s.a) { ThroughHasNone(s.a); }
  }

  lemma ThroughHasNone(p: Side)
    requires Through(p)
    ensures p.work == []
  {
  }

  lemma MovedLine(s: System, ch: Choice)
    requires Enabled(s.a, s.b, s.ba)
    ensures MoveA(s, ch).ba == s.ba || (s.ba != [] && MoveA(s, ch).ba == s.ba[1..])
  {
  }

  lemma SecondPhased(s: System, ch: Choice)
    requires Inv(s) && Phased(s) && Enabled(s.b, s.a, s.ab)
    ensures Phased(Swap(MoveA(Swap(s), ch)))
  {
    hide Fits, Together, Ledger, NothingToOffer, GetWork, Read, NoHupNo, NoHupBlank, Through, IsHup, IsHupNo, Enabled,
        ActA;
    var z := Swap(s);
    HupRules(z, ch);
    MoveIsAct(z, ch);
    HupLines(s.ba, ActA(z, ch).out);
    HupLines(s.ab, []);
    MovedLine(z, ch);
  }

  // ----- the whole account -----

  /**
   Of the jobs wa and wb the two sides began with, each is accounted for. What a side kept is what it was
   sent, and what it asked for: first the jobs of the caller, then those of the other side.
   */
  predicate Accounts(s: System, wa: seq<Job>, wb: seq<Job>, l: Books) {
    && Account(s.a, s.ba, wa, l.a) && Account(s.b, s.ab, wb, l.b)
    && s.a.kept == Kept(l.a, Receive) + Kept(l.b, Send)
    && s.b.kept == Kept(l.a, Send) + Kept(l.b, Receive)
    && (s.b.role == Slave ==> l.b == [])
  }

  predicate Booked(s: System, wa: seq<Job>, wb: seq<Job>, l: Books) {
    Inv(s) && Quiet(s) && Phased(s) && Accounts(s, wa, wb, l)
  }

  /** What is put in place is what is booked so, and only data that is received is. */
  lemma MoveKeeps(s: System, ch: Choice)
    requires Fits(s.a, s.ba) && Enabled(s.a, s.b, s.ba)
    ensures MoveA(s, ch).a.kept == s.a.kept + Kept(Own(s, ch), Receive) + Kept(Served(s, ch), Send)
    ensures Kept(Own(s, ch), Send) == [] && Kept(Served(s, ch), Receive) == []
    ensures |Own(s, ch)| <= 1 && |Served(s, ch)| <= 1
    ensures (s.a.role == Slave ==> Own(s, ch) == []) && (s.a.role == Master ==> Served(s, ch) == [])
    ensures Kept(Own(s, ch), Receive) != [] ==> s.a.at.Data?
  {
    KeptOne(Own(s, ch));
    KeptOne(Served(s, ch));
    assert s.a.kept + [] == s.a.kept && s.a.kept + [] + [] == s.a.kept;
  }

  lemma KeptOne(l: seq<Booking>)
    requires |l| <= 1
    ensures l == [] ==> forall kind :: Kept(l, kind) == []
    ensures l != [] ==> forall kind :: Kept(l, kind) == if l[0].fate == Placed &&
            l[0].job.kind == kind then [l[0].job.id] else []
  {
    if l != [] {
      assert l[..0] == [];
      forall kind ensures Kept(l, kind) == if l[0].fate == Placed && l[0].job.kind == kind then [l[0].job.id] else [] {
        assert Kept(l[..0], kind) == [];
      }
    }
  }

  lemma OwnAccount(s: System, ch: Choice, jobs: seq<Job>, l: seq<Booking>)
    requires Fits(s.a, s.ba) && Enabled(s.a, s.b, s.ba) && !SeekFault(s.a, ch) && Account(s.a, s.ba, jobs, l)
    ensures var t := MoveA(s, ch); Account(t.a, t.ba, jobs, l + Own(s, ch))
  {
    OwnBalanced(s, ch);
    JobsOn(l, Own(s, ch));
    hide MoveA, Own, Fits, InHand, Jobs;
    var t := MoveA(s, ch);
    Regroup(Jobs(l), InHand(s.a, s.ba), s.a.work, Jobs(Own(s, ch)), InHand(t.a, t.ba), t.a.work);
    assert s.a.at != Returned(false);
  }

  lemma Regroup(l: seq<Job>, h: seq<Job>, w: seq<Job>, o: seq<Job>, h': seq<Job>, w': seq<Job>)
    requires h + w == o + h' + w'
    ensures l + h + w == l + o + h' + w'
  {
    assert l + h + w == l + (h + w) == l + (o + h' + w');
  }

  lemma ServedAccount(s: System, ch: Choice, jobs: seq<Job>, l: seq<Booking>)
    requires Paired(s) && Quiet(s) && Enabled(s.a, s.b, s.ba) && !SeekFault(s.a, ch) && Account(s.b, s.ab, jobs, l)
    ensures var t := MoveA(s, ch); Account(t.b, t.ab, jobs, l + Served(s, ch))
  {
    ServedHand(s, ch);
    JobsOn(l, Served(s, ch));
    MoveIsAct(s, ch);
    hide MoveA, Served, Paired, Quiet, InHand, Jobs, Enabled, ActA;
    assert Jobs(l) + (Jobs(Served(s, ch)) + InHand(s.b, MoveA(s, ch).ab)) ==
           Jobs(l) + Jobs(Served(s, ch)) + InHand(s.b, MoveA(s, ch).ab);
  }

  function FirstBooks(s: System, ch: Choice, l: Books): Books
    requires Enabled(s.a, s.b, s.ba)
  {
    Books(l.a + Own(s, ch), l.b + Served(s, ch))
  }

  function SecondBooks(s: System, ch: Choice, l: Books): Books
    requires Enabled(s.b, s.a, s.ab)
  {
    Books(l.a + Served(Swap(s), ch), l.b + Own(Swap(s), ch))
  }

  lemma InTurn(x: seq<nat>, y: seq<nat>, o: seq<nat>, v: seq<nat>)
    requires o == [] || y == []
    ensures x + y + o + v == (x + o) + (y + v)
  {
  }

  predicate KeptRight(p: Side, own: seq<Booking>, served: seq<Booking>) {
    p.kept == Kept(own, Receive) + Kept(served, Send)
  }

  lemma FirstKept(s: System, ch: Choice, l: Books)
    requires Fits(s.a, s.ba) && Phased(s) && Enabled(s.a, s.b, s.ba) && (s.b.role == Slave ==> l.b == [])
    requires s.a.kept == Kept(l.a, Receive) + Kept(l.b, Send)
    ensures MoveA(s, ch).a.kept == Kept(l.a + Own(s, ch), Receive) + Kept(l.b + Served(s, ch), Send)
    ensures Kept(l.a + Own(s, ch), Send) == Kept(l.a, Send)
    ensures Kept(l.b + Served(s, ch), Receive) == Kept(l.b, Receive)
  {
    MoveKeeps(s, ch);
    var o, v := Kept(Own(s, ch), Receive), Kept(Served(s, ch), Send);
    if o != [] { assert s.a.role == Master && s.b.role == Slave; }
    KeptOn(l.a, Own(s, ch), Receive);
    KeptOn(l.a, Own(s, ch), Send);
    KeptOn(l.b, Served(s, ch), Receive);
    KeptOn(l.b, Served(s, ch), Send);
    hide Own, Served, MoveA, Fits, Phased, Enabled;
    InTurn(Kept(l.a, Receive), Kept(l.b, Send), o, v);
    assert Kept(l.a, Send) + [] == Kept(l.a, Send) && Kept(l.b, Receive) + [] == Kept(l.b, Receive);
  }

  lemma SecondKept(s: System, ch: Choice, l: Books)
    requires Fits(s.b, s.ab) && Phased(s) && Enabled(s.b, s.a, s.ab) && (s.b.role == Slave ==> l.b == [])
    requires s.b.kept == Kept(l.a, Send) + Kept(l.b, Receive)
    ensures var z := Swap(s);
            && MoveA(z, ch).a.kept == Kept(l.a + Served(z, ch), Send) + Kept(l.b + Own(z, ch), Receive)
            && Kept(l.b + Own(z, ch), Send) == Kept(l.b, Send)
            && Kept(l.a + Served(z, ch), Receive) == Kept(l.a, Receive)
  {
    var z := Swap(s);
    MoveKeeps(z, ch);
    var o, v := Kept(Own(z, ch), Receive), Kept(Served(z, ch), Send);
    NotBoth(s, ch, l);
    hide Own, Served, MoveA, Fits, Phased, Enabled, Kept;
    KeptOn(l.b, Own(z, ch), Receive);
    KeptOn(l.b, Own(z, ch), Send);
    KeptOn(l.a, Served(z, ch), Receive);
    KeptOn(l.a, Served(z, ch), Send);
    assert o + v == v + o by { assert o == [] || v == []; }
    var x, y := Kept(l.a, Send), Kept(l.b, Receive);
    assert x + y + o + v == x + y + (o + v) == x + y + v + o;
    InTurn(x, y, v, o);
    assert Kept(l.b, Send) + [] == Kept(l.b, Send) && Kept(l.a, Receive) + [] == Kept(l.a, Receive);
  }

  lemma NotBoth(s: System, ch: Choice, l: Books)
    requires Fits(s.b, s.ab) && Phased(s) && Enabled(s.b, s.a, s.ab) && (s.b.role == Slave ==> l.b == [])
    ensures var z := Swap(s);
            && (Kept(Served(z, ch), Send) != [] ==> Kept(Own(z, ch), Receive) == [])
            && Kept(Own(z, ch), Send) == [] && Kept(Served(z, ch), Receive) == []
  {
  }

  lemma FirstBooked(s: System, ch: Choice, wa: seq<Job>, wb: seq<Job>, l: Books)
    requires Booked(s, wa, wb, l) && Enabled(s.a, s.b, s.ba) && !SeekFault(s.a, ch)
    ensures Booked(MoveA(s, ch), wa, wb, FirstBooks(s, ch, l))
  {
    hide Own, Served, MoveA, Account, Quiet, Paired, NothingToOffer, Ledger, Phased, Enabled, Kept, Fits, SeekFault;
    InvFits(s);
    MoveInv(s, ch);
    MoveQuiet(s, ch);
    FirstPhased(s, ch);
    FirstKept(s, ch, l);
    OwnAccount(s, ch, wa, l.a);
    ServedAccount(s, ch, wb, l.b);
    OtherSame(s, ch);
    if s.b.role == Slave { SlaveServed(s, ch); }
  }

  lemma InvFits(s: System)
    requires Inv(s)
    ensures Fits(s.a, s.ba) && Fits(s.b, s.ab)
  {
  }

  lemma OtherSame(s: System, ch: Choice)
    requires Enabled(s.a, s.b, s.ba)
    ensures MoveA(s, ch).b == s.b
  {
  }

  lemma SlaveServed(s: System, ch: Choice)
    requires Phased(s) && Enabled(s.a, s.b, s.ba) && s.b.role == Slave
    ensures Served(s, ch) == []
  {
  }

  lemma SecondBooked(s: System, ch: Choice, wa: seq<Job>, wb: seq<Job>, l: Books)
    requires Booked(s, wa, wb, l) && Enabled(s.b, s.a, s.ab) && !SeekFault(s.b, ch)
    ensures Booked(Swap(MoveA(Swap(s), ch)), wa, wb, SecondBooks(s, ch, l))
  {
    hide Own, Served, MoveA, Account, Quiet, Paired, NothingToOffer, Ledger, Phased, Enabled, Kept, Fits, SeekFault;
    var z := Swap(s);
    InvFits(s);
    SwapInv(s);
    SwapQuiet(s);
    MoveInv(z, ch);
    SwapInv(MoveA(z, ch));
    MoveQuiet(z, ch);
    SwapQuiet(MoveA(z, ch));
    SecondPhased(s, ch);
    SecondKept(s, ch, l);
    OwnAccount(z, ch, wb, l.b);
    ServedAccount(z, ch, wa, l.a);
    OtherSame(z, ch);
    StaysSlave(s, ch);
  }

  lemma SwapQuiet(s: System)
    requires Quiet(s)
    ensures Quiet(Swap(s))
  {
  }

  /** The side that was called only stops being a slave. */
  lemma StaysSlave(s: System, ch: Choice)
    requires Inv(s) && Phased(s) && Enabled(s.b, s.a, s.ab)
    ensures MoveA(Swap(s), ch).a.role == Slave ==> s.b.role == Slave && Own(Swap(s), ch) == []
  {
    hide Fits, Together, Ledger, NothingToOffer, GetWork, Read, Enabled, NoHupBlank;
    HupRules(Swap(s), ch);
    MoveIsAct(Swap(s), ch);
  }

  // ----- runs with their books -----

  lemma InitialBooked(s: System)
    requires Initial(s)
    ensures Booked(s, s.a.work, s.b.work, Books([], []))
  {
    InitialInv(s);
    assert [] + [] + s.a.work == s.a.work && [] + [] + s.b.work == s.b.work;
    assert Jobs([]) == [];
  }

  ghost predicate BookedStep(s: System, l: Books, t: System, m: Books) {
    exists ch :: BookedMove(s, l, t, m, ch)
  }

  predicate BookedMove(s: System, l: Books, t: System, m: Books, ch: Choice) {
    && !SeekFault(s.a, ch) && !SeekFault(s.b, ch)
    && (|| (Enabled(s.a, s.b, s.ba) && t == MoveA(s, ch) && m == FirstBooks(s, ch, l))
        || (Enabled(s.b, s.a, s.ab) && t == Swap(MoveA(Swap(s), ch)) && m == SecondBooks(s, ch, l)))
  }

  /** A run, and the books after each of its steps. */
  ghost predicate BookedRun(r: seq<System>, ls: seq<Books>)
    decreases |r|
  {
    && r != [] && |ls| == |r|
    && if |r| == 1 then Initial(r[0]) && ls[0] == Books([], [])
       else
         var n := |r| - 1;
         BookedRun(r[..n], ls[..n]) && BookedStep(r[n - 1], ls[n - 1], r[n], ls[n])
  }

  /** Every run has its books. */
  lemma {:induction false} RunHasBooks(r: seq<System>) returns (ls: seq<Books>)
    requires Run(r)
    ensures BookedRun(r, ls)
    decreases |r|
  {
    var n := |r| - 1;
    if n == 0 {
      ls := [Books([], [])];
    } else {
      var ls' := RunHasBooks(r[..n]);
      var s, t, l := r[n - 1], r[n], ls'[n - 1];
      assert r[..n][n - 1] == s;
      var ch :| Step(s, t, ch) && !SeekFault(s.a, ch) && !SeekFault(s.b, ch);
      var m := if Enabled(s.a, s.b, s.ba) && t == MoveA(s, ch) then FirstBooks(s, ch, l) else SecondBooks(s, ch, l);
      ls := ls' + [m];
      assert ls[..n] == ls';
      assert BookedMove(s, l, t, m, ch);
    }
  }

  /** In every state of every run each job the two sides began with is accounted for, in order. */
  lemma {:induction false} RunBooked(r: seq<System>, ls: seq<Books>)
    requires BookedRun(r, ls)
    ensures Booked(r[|r| - 1], r[0].a.work, r[0].b.work, ls[|r| - 1])
    decreases |r|
  {
    hide Booked, BookedMove, Initial;
    var n := |r| - 1;
    if n == 0 {
      InitialBooked(r[0]);
    } else {
      RunBooked(r[..n], ls[..n]);
      assert r[..n][n - 1] == r[n - 1] && ls[..n][n - 1] == ls[n - 1] && r[..n][0] == r[0];
      var ch :| BookedMove(r[n - 1], ls[n - 1], r[n], ls[n], ch);
      MoveBooked(r[n - 1], ls[n - 1], r[n], ls[n], ch, r[0].a.work, r[0].b.work);
    }
  }

  lemma MoveBooked(s: System, l: Books, t: System, m: Books, ch: Choice, wa: seq<Job>, wb: seq<Job>)
    requires Booked(s, wa, wb, l) && BookedMove(s, l, t, m, ch)
    ensures Booked(t, wa, wb, m)
  {
    hide Booked, Enabled, MoveA, SeekFault, Own, Served;
    if Enabled(s.a, s.b, s.ba) && t == MoveA(s, ch) && m == FirstBooks(s, ch, l) {
      FirstBooked(s, ch, wa, wb, l);
    } else {
      SecondBooked(s, ch, wa, wb, l);
    }
  }

  // ----- how a conversation ends -----

  function Ids(js: seq<Job>, kind: Kind): seq<nat> {
    if js == [] then []
    else Ids(js[..|js| - 1], kind) + (if js[|js| - 1].kind == kind then [js[|js| - 1].id] else [])
  }

  /** The jobs that were offered: all of the caller, and all of the other side if it became master. */
  function Offered(s: System, wb: seq<Job>): seq<Job> {
    if s.b.role == Master then wb else []
  }

  /** When both have returned 0 every job that was offered is booked, and none is lost. */
  lemma AllBooked(s: System, wa: seq<Job>, wb: seq<Job>, l: Books)
    requires Booked(s, wa, wb, l) && s.a.at == Returned(true) && s.b.at == Returned(true)
    ensures Jobs(l.a) == wa && Jobs(l.b) == Offered(s, wb)
    ensures forall k | 0 <= k < |l.a| :: l.a[k].fate != Broken
    ensures forall k | 0 <= k < |l.b| :: l.b[k].fate != Broken
  {
    hide Fits, Together, Ledger, Kept, Quiet;
    Outcome(s);
    assert InHand(s.a, s.ba) == [] == InHand(s.b, s.ab);
    assert Jobs(l.a) + [] + s.a.work == Jobs(l.a) + s.a.work && Jobs(l.b) + [] + s.b.work == Jobs(l.b) + s.b.work;
    assert Jobs([]) == [];
  }

  /** Nothing goes wrong by choice. */
  predicate Smooth(ch: Choice) {
    !ch.skip && !ch.crash && !ch.seekFails && ch.refuse == 0 && ch.moved && !ch.tooBig && ch.placed
  }

  /** Only files put in place, and jobs lost with their side. */
  predicate Unspoiled(l: seq<Booking>) {
    forall k | 0 <= k < |l| :: l[k].fate == Placed || l[k].fate == Broken
  }

  lemma SmoothBooks(s: System, ch: Choice)
    requires Enabled(s.a, s.b, s.ba) && Smooth(ch)
    ensures Unspoiled(Own(s, ch)) && Unspoiled(Served(s, ch))
  {
  }

  lemma {:induction false} PlacedKept(l: seq<Booking>, kind: Kind)
    requires forall k | 0 <= k < |l| :: l[k].fate == Placed
    ensures Kept(l, kind) == Ids(Jobs(l), kind)
    decreases |l|
  {
    if l != [] {
      var init := l[..|l| - 1];
      PlacedKept(init, kind);
      assert Jobs(l)[..|l| - 1] == Jobs(init);
    }
  }

  /** If nothing went wrong, the files kept are exactly those of the jobs offered, in order. */
  lemma AllArrive(s: System, wa: seq<Job>, wb: seq<Job>, l: Books)
    requires Booked(s, wa, wb, l) && s.a.at == Returned(true) && s.b.at == Returned(true)
    requires Unspoiled(l.a) && Unspoiled(l.b)
    ensures s.b.kept == Ids(wa, Send) + Ids(Offered(s, wb), Receive)
    ensures s.a.kept == Ids(wa, Receive) + Ids(Offered(s, wb), Send)
  {
    AllBooked(s, wa, wb, l);
    PlacedKept(l.a, Send);
    PlacedKept(l.a, Receive);
    PlacedKept(l.b, Send);
    PlacedKept(l.b, Receive);
  }
}
