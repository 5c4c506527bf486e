/**
 The conversation of two uucico processes (usr/src/cmd/bnu/cntrl.c): each one runs cntrl, taking
 its jobs while it is master and serving the other's while it is slave. The line is two FIFO
 channels. A data transfer is one item; permission checks, file systems and the outcome of a
 transfer are choices.
 */
module Uucico {
  // ----- messages -----

  /** msg[1] and on: Y, N and a number, nothing, or the words of a request. */
  datatype Body = Yes | No(code: nat) | Blank | Words

  /** A message with the letter that is msg[0], or the data of a file; id says which job it belongs to. */
  datatype Item = Msg(letter: char, body: Body, id: nat) | File(good: bool, id: nat)

  datatype Kind = Send | Receive

  datatype Job = Job(kind: Kind, id: nat)

  function KindLetter(k: Kind): char {
    if k == Send then 'S' else 'R'
  }

  const EM_NOTMP: nat := 4
  const EM_RMTCP: nat := 5
  const EM_SEEK: nat := 7
  const EM_ULIMIT: nat := 10

  // ----- one process -----

  datatype Role = Master | Slave

  /**
   Where cntrl stands: at label top, in RMESG for a reply, in the loop of rmesg for C, in Rddata,
   in RMESG for H, or returned (0 or not).
   */
  datatype At =
    | Top | Reply(letter: char, id: nat) | Confirm(id: nat, tries: nat)
    | Data(id: nat) | Hup | Returned(ok: bool)

  /**
   kept lists the files this side received whole and put in place; acked the files it sent and was
   told are in place.
   */
  datatype Side = Side(role: Role, at: At, work: seq<Job>, maySwitch: bool, kept: seq<nat>, acked: seq<nat>)

  /** What the rest of the program and the machine decide. */
  datatype Choice = Choice(
    skip: bool,       // the job fails a check on this side and is dropped
    crash: bool,      // cleanup(FAIL): no room for the file to be received
    seekFails: bool,  // lseek to the restart point fails
    refuse: nat,      // 0, or the number of the refusal
    moved: bool,      // good data: the transfer succeeds
    tooBig: bool,     // EFBIG from Rddata
    placed: bool,     // the file could be put where it belongs
    tries: nat        // file size in kilobytes
  )

  /** A side after a step, and what it wrote. */
  datatype Act = Act(p: Side, out: seq<Item>)

  function Fail(p: Side): Act {
    Act(p.(at := Returned(false)), [])
  }

  function Goto(p: Side, at: At, out: seq<Item>): Act {
    Act(p.(at := at), out)
  }

  /** Label top when Role is MASTER: the next job, or H when there is none. */
  function GetWork(p: Side, ch: Choice): Act {
    if p.work == [] then Goto(p, Hup, [Msg('H', Blank, 0)])
    else
      var job, q := p.work[0], p.(work := p.work[1..]);
      if ch.skip then Goto(q, Top, [])
      else if job.kind == Receive && ch.crash then Fail(q)
      else if job.kind == Receive && ch.seekFails then Goto(q, Top, [Msg('S', No(EM_SEEK), job.id)])
      else Goto(q, Reply(KindLetter(job.kind), job.id), [Msg(KindLetter(job.kind), Words, job.id)])
  }

  /** What the letter of a message makes this side do. */
  function Process(p: Side, m: Item, ch: Choice): Act
    requires m.Msg?
  {
    if m.letter == 'C' then
      Goto(if m.body == Yes && p.at.Confirm? then p.(acked := p.acked + [m.id]) else p, Top, [])
    else if m.letter == 'H' then HupMessage(p, m)
    else if m.letter == 'X' then Goto(p, Top, [Msg('X', No(0), 0)])
    else if m.letter == 'S' then SendMessage(p, m, ch)
    else if m.letter == 'R' then ReceiveMessage(p, m, ch)
    else Fail(p)
  }

  function HupMessage(p: Side, m: Item): Act
    requires m.Msg?
  {
    if m.body == Yes then Goto(p, Returned(true), [Msg('H', Yes, 0)])
    else if m.body.No? then (if p.role == Master then Goto(p.(role := Slave), Top, []) else Fail(p))
    else if !p.maySwitch || p.work == [] then Goto(p, Hup, [Msg('H', Yes, 0)])
    else Goto(p.(role := Master), Top, [Msg('H', No(0), 0)])
  }

  function SendMessage(p: Side, m: Item, ch: Choice): Act
    requires m.Msg?
  {
    if m.body.No? then (if p.role == Master && m.body.code != EM_NOTMP then Goto(p, Top, []) else Fail(p))
    else if m.body == Yes then
      if p.role != Master || ch.seekFails then Fail(p)
      else if ch.moved then Goto(p, Confirm(m.id, ch.tries), [File(true, m.id)])
      else Goto(p, Returned(false), [File(false, m.id)])
    else if p.role != Slave then Fail(p)
    else if ch.refuse != 0 then Goto(p, Top, [Msg('S', No(ch.refuse), m.id)])
    else Goto(p, Data(m.id), [Msg('S', Yes, m.id)])
  }

  function ReceiveMessage(p: Side, m: Item, ch: Choice): Act
    requires m.Msg?
  {
    if m.body.No? then (if p.role == Master then Goto(p, Top, []) else Fail(p))
    else if m.body == Yes then (if p.role == Master then Goto(p, Data(m.id), []) else Fail(p))
    else if p.role != Slave then Fail(p)
    else if ch.refuse != 0 then Goto(p, Top, [Msg('R', No(ch.refuse), m.id)])
    else if ch.moved then Goto(p, Confirm(m.id, ch.tries), [Msg('R', Yes, m.id), File(true, m.id)])
    else Goto(p, Returned(false), [Msg('R', Yes, m.id), File(false, m.id)])
  }

  /** Rddata and what follows it. */
  function TakeData(p: Side, m: Item, ch: Choice): Act
    requires p.at.Data?
  {
    var id := p.at.id;
    if m.Msg? || !m.good then Fail(p)
    else if ch.tooBig then Goto(p, Top, [Msg('C', No(EM_ULIMIT), id)])
    else if !ch.moved then Fail(p)
    else if ch.placed then Goto(p.(kept := p.kept + [id]), Top, [Msg('C', Yes, id)])
    else Goto(p, Top, [Msg('C', No(EM_RMTCP), id)])
  }

  /** Whether the side waits for something to read. */
  predicate Reads(p: Side) {
    !p.at.Returned? && !(p.at == Top && p.role == Master)
  }

  /** The letter rmesg insists on; none at top as slave, where any message will do. */
  function Awaited(p: Side): (c: char)
    requires Reads(p) && !p.at.Data? && p.at != Top
  {
    match p.at
    case Reply(letter, _) => letter
    case Confirm(_, _) => 'C'
    case Hup => 'H'
  }

  /** rmesg: a message with another letter is a failure, and is only given up on after tries of them for C. */
  function Read(p: Side, m: Item, ch: Choice): Act
    requires Reads(p)
  {
    if p.at.Data? then TakeData(p, m, ch)
    else if m.Msg? && (p.at == Top || m.letter == Awaited(p)) then Process(p, m, ch)
    else if p.at.Confirm? && p.at.tries > 0 then Goto(p, Confirm(p.at.id, p.at.tries - 1), [])
    else Fail(p)
  }

  // ----- the two together -----

  datatype System = System(a: Side, b: Side, ab: seq<Item>, ba: seq<Item>)

  /** A side can move: as master at top, by reading, or because the line is dead. */
  predicate Enabled(p: Side, peer: Side, inp: seq<Item>) {
    (p.at == Top && p.role == Master) || (Reads(p) && (inp != [] || peer.at.Returned?))
  }

  /** A step of one side; reading from an empty line whose other end is gone fails. */
  function MoveA(s: System, ch: Choice): System
    requires Enabled(s.a, s.b, s.ba)
  {
    if s.a.at == Top && s.a.role == Master then
      var r := GetWork(s.a, ch);
      s.(a := r.p, ab := s.ab + r.out)
    else if s.ba != [] then
      var r := Read(s.a, s.ba[0], ch);
      s.(a := r.p, ab := s.ab + r.out, ba := s.ba[1..])
    else s.(a := Fail(s.a).p)
  }

  function Swap(s: System): System {
    System(s.b, s.a, s.ba, s.ab)
  }

  predicate Step(s: System, t: System, ch: Choice) {
    || (Enabled(s.a, s.b, s.ba) && t == MoveA(s, ch))
    || (Enabled(s.b, s.a, s.ab) && t == Swap(MoveA(Swap(s), ch)))
  }

  /** The caller has logged in, the called system serves. */
  predicate Initial(s: System) {
    && s.ab == [] && s.ba == [] && s.a.at == Top && s.b.at == Top && s.a.role == Master && s.b.role == Slave
    && s.a.kept == [] && s.a.acked == [] && s.b.kept == [] && s.b.acked == []
  }

  // ----- what every run keeps -----

  predicate IsRequest(i: Item) {
    i.Msg? && i.body == Words && (i.letter == 'S' || i.letter == 'R')
  }

  predicate IsAnswer(i: Item, id: nat) {
    i.Msg? && i.letter == 'C' && (i.body == Yes || i.body.No?) && i.id == id
  }

  predicate IsHup(i: Item, body: Body) {
    i.Msg? && i.letter == 'H' && i.body == body
  }

  predicate IsHupNo(i: Item) {
    i.Msg? && i.letter == 'H' && i.body.No?
  }

  predicate IsFile(i: Item, id: nat) {
    i.File? && i.id == id
  }

  /** A request, or the H that says there are none. */
  predicate Opens(i: Item) {
    IsRequest(i) || IsHup(i, Blank)
  }

  predicate AnswersRequest(i: Item, letter: char, id: nat) {
    i.Msg? && i.letter == letter && i.id == id && (i.body == Yes || i.body.No?)
  }

  /** What may be on the way to a side, by where it stands. */
  predicate Fits(p: Side, inp: seq<Item>) {
    match p.at
    case Returned(_) => true
    case Top => inp == [] || (p.role == Slave && |inp| == 1 && Opens(inp[0]))
    case Reply(letter, id) =>
      (letter == 'S' || letter == 'R') &&
      (|| inp == []
       || (AnswersRequest(inp[0], letter, id)
          && (|inp| == 1 || (|inp| == 2 && letter == 'R' && inp[0].body == Yes && IsFile(inp[1], id)))))
    case Data(id) => inp == [] || (|inp| == 1 && IsFile(inp[0], id))
    case Confirm(id, _) =>
      inp == [] || (IsAnswer(inp[0], id) && (|inp| == 1 || (|inp| == 2 && p.role == Slave && Opens(inp[1]))))
    case Hup =>
      || inp == []
      || (|inp| == 1 && IsHup(inp[0], Yes))
      || (p.role == Master && IsHupNo(inp[0]) && (|inp| == 1 || (|inp| == 2 && Opens(inp[1]))))
  }

  predicate WaitsReply(p: Side, i: Item) {
    i.Msg? && p.at == Reply(i.letter, i.id)
  }

  /** m, or else s once the H N on its way has arrived, is master; ms and sm are what is on the way. */
  predicate Together(m: Side, s: Side, ms: seq<Item>, sm: seq<Item>) {
    m.role == Master &&
    match m.at
    case Top => s.role == Slave && sm == [] && (if s.at == Top then ms == [] else s.at.Confirm? && |ms| == 1)
    case Reply(letter, id) =>
      s.role == Slave && (letter == 'S' || letter == 'R') &&
      (match s.at
       case Top => (ms == [] && |sm| == 1 && sm[0].Msg? && sm[0].body.No?) ||
           (sm == [] && |ms| == 1 && WaitsReply(m, ms[0]) && IsRequest(ms[0]))
       case Data(sid) => letter == 'S' && sid == id && ms == [] && |sm| == 1 && sm[0].Msg? && sm[0].body == Yes
       case Confirm(sid, _) =>
         || (letter == 'R' && sid == id && ms == [] && |sm| == 2)
         || (sm == [] && |ms| == 2 && WaitsReply(m, ms[1]) && IsRequest(ms[1]))
       case _ => false)
    case Confirm(id, _) =>
      s.role == Slave && ((s.at == Data(id) && |ms| == 1 && sm == []) || (s.at == Top && ms == [] && |sm| == 1))
    case Data(id) => s.role == Slave && s.at.Confirm? && s.at.id == id && ms == [] && |sm| == 1
    case Hup =>
      if s.role == Slave then
        (match s.at
         case Top => sm == [] && |ms| == 1 && IsHup(ms[0], Blank)
         case Confirm(_, _) => sm == [] && |ms| == 2 && IsHup(ms[1], Blank)
         case Hup => ms == [] && |sm| == 1 && IsHup(sm[0], Yes)
         case _ => false)
      else
        ms == [] && sm != [] && IsHupNo(sm[0]) &&
        (match s.at
         case Top => |sm| == 1
         case Reply(_, _) => |sm| == 2 && WaitsReply(s, sm[1]) && IsRequest(sm[1])
         case Hup => |sm| == 2 && IsHup(sm[1], Blank)
         case _ => false)
    case Returned(ok) =>
      ok && s.role == Slave &&
      if s.at == Hup then |ms| == 1 && sm == []
      else s.at == Returned(true) && ms == [] && |sm| == 1 && IsHup(sm[0], Yes)
  }

  predicate Dead(s: System) {
    s.a.at == Returned(false) || s.b.at == Returned(false)
  }

  /** When the other side has failed, this one has not returned 0 and is not about to. */
  predicate Doomed(p: Side, inp: seq<Item>) {
    p.at != Returned(true) && (inp != [] && !p.at.Returned? ==> !IsHup(inp[0], Yes))
  }

  /** A side that said it is done, or agreed to stop, has nothing it may offer. */
  predicate NothingToOffer(p: Side) {
    p.at == Hup || p.at == Returned(true) ==> p.work == [] || (p.role == Slave && !p.maySwitch)
  }

  /** The report that a file is in place. */
  function Report(i: Item): seq<nat> {
    if i.Msg? && i.letter == 'C' && i.body == Yes then [i.id] else []
  }

  /** The files reported in place that the report of is still on the way. */
  function Reported(c: seq<Item>): seq<nat> {
    if c == [] then [] else Report(c[0]) + Reported(c[1..])
  }

  /** What the receiver kept, the sender knows of, or the report is under way. */
  predicate Ledger(receiver: Side, sender: Side, c: seq<Item>) {
    receiver.kept == sender.acked + Reported(c)
  }

  predicate Paired(s: System) {
    && Fits(s.a, s.ba) && Fits(s.b, s.ab)
    && if Dead(s) then Doomed(s.a, s.ba) && Doomed(s.b, s.ab)
       else Together(s.a, s.b, s.ab, s.ba) || Together(s.b, s.a, s.ba, s.ab)
  }

  predicate Inv(s: System) {
    && Paired(s)
    && NothingToOffer(s.a) && NothingToOffer(s.b)
    && Ledger(s.a, s.b, s.ab) && Ledger(s.b, s.a, s.ba)
  }

  /** The one local error that is left out: a master that cannot position the file it is to receive. */
  predicate SeekFault(p: Side, ch: Choice) {
    p.at == Top && p.role == Master && p.work != [] && p.work[0].kind == Receive && !ch.skip && !ch.crash &&
        ch.seekFails
  }

  lemma InitialInv(s: System)
    requires Initial(s)
    ensures Inv(s)
  {
  }

  lemma SwapInv(s: System)
    requires Inv(s)
    ensures Inv(Swap(s))
  {
  }

  lemma {:induction false} ReportedAppend(c: seq<Item>, d: seq<Item>)
    ensures Reported(c + d) == Reported(c) + Reported(d)
    decreases |c|
  {
    if c == [] {
      assert c + d == d;
    } else {
      ReportedAppend(c[1..], d);
      ReportedCons(c[0], c[1..] + d);
      assert c + d == [c[0]] + (c[1..] + d);
    }
  }

  lemma ReportedCons(i: Item, c: seq<Item>)
    ensures Reported([i] + c) == Report(i) + Reported(c)
  {
    assert ([i] + c)[1..] == c;
  }

  /** At most one of what is written at once is a report. */
  lemma ReportedFew(out: seq<Item>)
    requires |out| <= 2 && (|out| == 2 ==> Report(out[0]) == [] && Report(out[1]) == [])
    ensures Reported(out) == if |out| == 1 then Report(out[0]) else []
  {
    if out != [] {
      ReportedCons(out[0], out[1..]);
      assert out == [out[0]] + out[1..];
      if |out| == 2 { assert out[1..][1..] == []; }
    }
  }

  /** What the side of MoveA does: what it reads, if anything, and what it writes. */
  function ActA(s: System, ch: Choice): Act
    requires Enabled(s.a, s.b, s.ba)
  {
    if s.a.at == Top && s.a.role == Master then GetWork(s.a, ch)
    else if s.ba != [] then Read(s.a, s.ba[0], ch)
    else Fail(s.a)
  }

  /** What is written about files kept is what was kept. */
  lemma OutLedger(s: System, ch: Choice)
    requires Fits(s.a, s.ba) && Enabled(s.a, s.b, s.ba)
    ensures ActA(s, ch).p.kept == s.a.kept + Reported(ActA(s, ch).out)
  {
    ReportedFew(ActA(s, ch).out);
  }

  lemma ReadAcks(p: Side, inp: seq<Item>, ch: Choice)
    requires Reads(p) && inp != [] && Fits(p, inp)
    ensures Read(p, inp[0], ch).p.acked == p.acked + Report(inp[0])
  {
  }

  lemma InLedger(s: System, ch: Choice)
    requires Fits(s.a, s.ba) && Enabled(s.a, s.b, s.ba)
    ensures s.a.acked + Reported(s.ba) == MoveA(s, ch).a.acked + Reported(MoveA(s, ch).ba)
  {
    if Reads(s.a) && s.ba != [] {
      ReadAcks(s.a, s.ba, ch);
      var x, rest := Report(s.ba[0]), Reported(s.ba[1..]);
      assert s.a.acked + x + rest == s.a.acked + (x + rest);
    }
  }

  lemma MoveIsAct(s: System, ch: Choice)
    requires Enabled(s.a, s.b, s.ba)
    ensures var r, t := ActA(s, ch), MoveA(s, ch); t.a == r.p && t.b == s.b && t.ab == s.ab + r.out
  {
    if ActA(s, ch).out == [] { assert s.ab + [] == s.ab; }
  }

  lemma LedgerWrites(receiver: Side, sender: Side, c: seq<Item>, kept: seq<nat>, out: seq<Item>)
    requires Ledger(receiver, sender, c) && kept == receiver.kept + Reported(out)
    ensures kept == sender.acked + Reported(c + out)
  {
    ReportedAppend(c, out);
  }

  lemma MoveLedger(s: System, ch: Choice)
    requires Fits(s.a, s.ba) && Enabled(s.a, s.b, s.ba) && Ledger(s.a, s.b, s.ab) && Ledger(s.b, s.a, s.ba)
    ensures var t := MoveA(s, ch); Ledger(t.a, t.b, t.ab) && Ledger(t.b, t.a, t.ba)
  {
    var r, t := ActA(s, ch), MoveA(s, ch);
    OutLedger(s, ch);
    LedgerWrites(s.a, s.b, s.ab, r.p.kept, r.out);
    MoveIsAct(s, ch);
    InLedger(s, ch);
  }

  lemma WorkPaired(s: System, ch: Choice)
    requires Paired(s) && s.a.at == Top && s.a.role == Master && !SeekFault(s.a, ch)
    ensures Paired(MoveA(s, ch))
  {
  }

  lemma GonePaired(s: System, ch: Choice)
    requires Paired(s) && Reads(s.a) && s.ba == [] && s.b.at.Returned?
    ensures Paired(MoveA(s, ch))
  {
  }

  lemma TopPaired(s: System, ch: Choice)
    requires Paired(s) && s.a.at == Top && s.a.role == Slave && s.ba != []
    ensures Paired(MoveA(s, ch))
  {
  }

  lemma ReplyPaired(s: System, ch: Choice)
    requires Paired(s) && s.a.at.Reply? && s.ba != []
    ensures Paired(MoveA(s, ch))
  {
    if Dead(s) {
      assert !IsHup(s.ba[0], Yes);
    } else {
      assert s.a.role == Master;
    }
  }

  lemma DataPaired(s: System, ch: Choice)
    requires Paired(s) && s.a.at.Data? && s.ba != []
    ensures Paired(MoveA(s, ch))
  {
  }

  lemma ConfirmPaired(s: System, ch: Choice)
    requires Paired(s) && s.a.at.Confirm? && s.ba != []
    ensures Paired(MoveA(s, ch))
  {
  }

  lemma HupPaired(s: System, ch: Choice)
    requires Paired(s) && s.a.at == Hup && s.ba != []
    ensures Paired(MoveA(s, ch))
  {
  }

  lemma MovePaired(s: System, ch: Choice)
    requires Paired(s) && Enabled(s.a, s.b, s.ba) && !SeekFault(s.a, ch)
    ensures Paired(MoveA(s, ch))
  {
    if s.a.at == Top && s.a.role == Master {
      WorkPaired(s, ch);
    } else if s.ba == [] {
      GonePaired(s, ch);
    } else {
      match s.a.at
      case Top => TopPaired(s, ch);
      case Reply(_, _) => ReplyPaired(s, ch);
      case Data(_) => DataPaired(s, ch);
      case Confirm(_, _) => ConfirmPaired(s, ch);
      case Hup => HupPaired(s, ch);
    }
  }

  lemma MoveOffers(s: System, ch: Choice)
    requires Fits(s.a, s.ba) && NothingToOffer(s.a) && Enabled(s.a, s.b, s.ba)
    ensures NothingToOffer(MoveA(s, ch).a)
  {
    if !(s.a.at == Top && s.a.role == Master) && s.ba != [] {
      var m := s.ba[0];
      assert m.Msg? && m.letter == 'H' && m.body == Yes ==> s.a.at == Hup;
      assert m.Msg? && m.letter == 'H' && m.body == Blank ==> s.a.at == Top && s.a.role == Slave;
    }
  }

  lemma MoveInv(s: System, ch: Choice)
    requires Inv(s) && Enabled(s.a, s.b, s.ba) && !SeekFault(s.a, ch)
    ensures Inv(MoveA(s, ch))
  {
    MoveLedger(s, ch);
    MovePaired(s, ch);
    MoveOffers(s, ch);
  }

  // ----- the properties of a run -----

  lemma StepInv(s: System, t: System, ch: Choice)
    requires Inv(s) && Step(s, t, ch) && !SeekFault(s.a, ch) && !SeekFault(s.b, ch)
    ensures Inv(t)
  {
    if Enabled(s.a, s.b, s.ba) && t == MoveA(s, ch) {
      MoveInv(s, ch);
    } else {
      SwapInv(s);
      MoveInv(Swap(s), ch);
      SwapInv(MoveA(Swap(s), ch));
    }
  }

  ghost predicate Follows(s: System, t: System) {
    exists ch :: Step(s, t, ch) && !SeekFault(s.a, ch) && !SeekFault(s.b, ch)
  }

  /** A run: each state follows from the one before by a step without the excluded error. */
  ghost predicate Run(r: seq<System>)
    decreases |r|
  {
    r != [] && if |r| == 1 then Initial(r[0]) else Run(r[..|r| - 1]) && Follows(r[|r| - 2], r[|r| - 1])
  }

  lemma FollowsInv(s: System, t: System)
    requires Inv(s) && Follows(s, t)
    ensures Inv(t) && Left(t) < Left(s)
  {
    var ch :| Step(s, t, ch) && !SeekFault(s.a, ch) && !SeekFault(s.b, ch);
    StepInv(s, t, ch);
    StepFalls(s, t, ch);
  }

  lemma {:induction false} RunInv(r: seq<System>)
    requires Run(r)
    ensures Inv(r[|r| - 1])
    decreases |r|
  {
    var n := |r| - 1;
    if n == 0 {
      InitialInv(r[0]);
    } else {
      RunInv(r[..n]);
      assert r[..n][n - 1] == r[n - 1];
      FollowsInv(r[n - 1], r[n]);
    }
  }

  /** The next thing a side reads is what it waits for: data in Rddata, the letter of RMESG, a request or H at top. */
  predicate Expected(p: Side, i: Item)
    requires Reads(p)
  {
    if p.at.Data? then IsFile(i, p.at.id)
    else if p.at == Top then Opens(i)
    else i.Msg? && i.letter == Awaited(p)
  }

  lemma HeadExpected(s: System)
    requires Inv(s)
    ensures Reads(s.a) && s.ba != [] ==> Expected(s.a, s.ba[0])
    ensures Reads(s.b) && s.ab != [] ==> Expected(s.b, s.ab[0])
  {
  }

  predicate Handover(c: seq<Item>) {
    c != [] && IsHupNo(c[0])
  }

  /** Exactly one side is master, unless the H N that hands the role over is on its way; never none. */
  lemma OneMaster(s: System)
    requires Inv(s) && !Dead(s)
    ensures s.a.role == Master || s.b.role == Master
    ensures s.a.role == Master && s.b.role == Master <==> Handover(s.ab) || Handover(s.ba)
  {
  }

  /** Until both have returned, some side can move. */
  lemma NoDeadlock(s: System)
    requires Inv(s) && !(s.a.at.Returned? && s.b.at.Returned?)
    ensures Enabled(s.a, s.b, s.ba) || Enabled(s.b, s.a, s.ab)
  {
  }

  /** Both return 0, or neither does; after 0 neither has work it may offer, and each knows what the other kept. */
  lemma Outcome(s: System)
    requires Inv(s) && s.a.at.Returned? && s.b.at.Returned?
    ensures s.a.at.ok <==> s.b.at.ok
    ensures s.a.at.ok ==> s.a.role != s.b.role
    ensures s.a.at.ok ==> s.a.work == [] || (s.a.role == Slave && !s.a.maySwitch)
    ensures s.a.at.ok ==> s.b.work == [] || (s.b.role == Slave && !s.b.maySwitch)
    ensures s.a.at.ok ==> s.a.kept == s.b.acked && s.b.kept == s.a.acked
  {
    if s.a.at.ok {
      ReportedFew(s.ab);
      ReportedFew(s.ba);
    }
  }

  /**
   The excluded error, and nothing else, breaks the conversation: the slave takes the refusal for its own and
   fails.
   */
  lemma SeekFaultBreaks(s: System, ch: Choice)
    requires Inv(s) && !Dead(s) && Enabled(s.a, s.b, s.ba)
    ensures Paired(MoveA(s, ch)) <==> !SeekFault(s.a, ch)
  {
    if !SeekFault(s.a, ch) {
      MovePaired(s, ch);
    }
  }

  lemma SeekFaultFails(s: System, ch: Choice, ch2: Choice)
    requires Inv(s) && !Dead(s) && SeekFault(s.a, ch) && s.b.at == Top
    ensures var t := MoveA(s, ch); Enabled(t.b, t.a, t.ab) && Swap(MoveA(Swap(t), ch2)).b.at == Returned(false)
  {
  }

  // ----- every run ends -----

  /** How much is left to do; it falls with every step. */
  function Weight(p: Side): nat {
    11 * |p.work| +
    match p.at
    case Returned(_) => 0
    case Top => if p.role == Slave || p.work != [] then 1 else 4
    case Reply(_, _) => 4
    case Confirm(_, _) => 4
    case Data(_) => 5
    case Hup => 1
  }

  function ItemWeight(i: Item): nat {
    if i.File? || i.letter == 'C' then 1
    else if i.letter == 'H' then (if i.body == Blank then 2 else 1)
    else if i.body == Words then 7
    else if i.body == Yes then 2 else 1
  }

  function ChannelWeight(c: seq<Item>): nat {
    if c == [] then 0 else ItemWeight(c[0]) + ChannelWeight(c[1..])
  }

  function Left(s: System): nat {
    Weight(s.a) + Weight(s.b) + ChannelWeight(s.ab) + ChannelWeight(s.ba)
  }

  lemma {:induction false} ChannelAppend(c: seq<Item>, d: seq<Item>)
    ensures ChannelWeight(c + d) == ChannelWeight(c) + ChannelWeight(d)
    decreases |c|
  {
    if c == [] {
      assert c + d == d;
    } else {
      ChannelAppend(c[1..], d);
      assert (c + d)[1..] == c[1..] + d && (c + d)[0] == c[0];
    }
  }

  lemma FewWeights(c: seq<Item>)
    requires |c| <= 2
    ensures ChannelWeight(c) == (if |c| > 0 then ItemWeight(c[0]) else 0) + (if |c| > 1 then ItemWeight(c[1]) else 0)
  {
    if |c| == 2 { assert c[1..][0] == c[1] && c[1..][1..] == []; }
  }

  /** A step spends more than it writes. */
  lemma ReadFalls(p: Side, inp: seq<Item>, ch: Choice)
    requires Reads(p) && inp != [] && Fits(p, inp)
    ensures var r := Read(p, inp[0], ch); Weight(r.p) + ChannelWeight(r.out) < Weight(p) + ItemWeight(inp[0])
  {
    FewWeights(Read(p, inp[0], ch).out);
  }

  lemma WorkFalls(p: Side, ch: Choice)
    requires p.at == Top && p.role == Master
    ensures var r := GetWork(p, ch); Weight(r.p) + ChannelWeight(r.out) < Weight(p)
  {
    FewWeights(GetWork(p, ch).out);
  }

  lemma MoveFalls(s: System, ch: Choice)
    requires Fits(s.a, s.ba) && Enabled(s.a, s.b, s.ba)
    ensures Left(MoveA(s, ch)) < Left(s)
  {
    var r := ActA(s, ch);
    ChannelAppend(s.ab, r.out);
    MoveIsAct(s, ch);
    if s.a.at == Top && s.a.role == Master {
      WorkFalls(s.a, ch);
    } else if s.ba != [] {
      ReadFalls(s.a, s.ba, ch);
    }
  }

  lemma StepFalls(s: System, t: System, ch: Choice)
    requires Inv(s) && Step(s, t, ch)
    ensures Left(t) < Left(s)
  {
    if Enabled(s.a, s.b, s.ba) && t == MoveA(s, ch) {
      MoveFalls(s, ch);
    } else {
      MoveFalls(Swap(s), ch);
    }
  }

  /** No run is longer than the work it starts with allows, and one that cannot go on has both sides returned. */
  lemma {:induction false} RunsEnd(r: seq<System>)
    requires Run(r)
    ensures |r| - 1 + Left(r[|r| - 1]) <= 11 * (|r[0].a.work| + |r[0].b.work|) + 5
    decreases |r|
  {
    var n := |r| - 1;
    if n > 0 {
      RunsEnd(r[..n]);
      RunInv(r[..n]);
      assert r[..n][n - 1] == r[n - 1] && r[..n][0] == r[0];
      FollowsInv(r[n - 1], r[n]);
    }
  }
}
