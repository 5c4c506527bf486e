/**
 The grammar of awk's patterns, said without the parser of usr/src/cmd/awk/b.c: postfix operators bind
 tighter than concatenation, concatenation tighter than |, both group to the left, and ^ stands only
 where no operand comes before it. reparse reads exactly the texts of this grammar, each as its tree.
 */
module AwkSyntax {
  import opened AwkRegex
  import opened AwkParse
  import opened AwkGrammar
  import opened AwkEscape

  // ----- the grammar -----

  /** A pattern with all its parentheses; Empty is a pair of them with nothing between. */
  datatype Cst = One(tok: Tok) | Empty | Paren(c: Cst) | Post(c: Cst, op: Tok) | Seq(l: Cst, r: Cst) | Bar(l: Cst,
      r: Cst)

  function Toks(c: Cst): (ts: seq<Tok>)
    ensures ts != []
  {
    match c
    case One(tok) => [tok]
    case Empty => [TOpen, TClose]
    case Paren(d) => [TOpen] + (Toks(d) + [TClose])
    case Post(d, op) => Toks(d) + [op]
    case Seq(l, r) => Toks(l) + Toks(r)
    case Bar(l, r) => Toks(l) + ([TOr] + Toks(r))
  }

  /** A token that is an operand by itself. */
  predicate IsLeaf(tok: Tok) {
    match tok
    case TChar(_) => true
    case TDot => true
    case TDollar => true
    case THat => true
    case TCcl(w) => Cclenter(w).Some?
    case TNccl(w) => Cclenter(w).Some?
    case _ => false
  }

  function SymOf(tok: Tok): Sym
    requires IsLeaf(tok)
  {
    match tok
    case TChar(v) => Char(v)
    case TDot => Dot
    case TDollar => Char(0)
    case THat => Char(HAT)
    case TCcl(w) => Ccl(Cclenter(w).value)
    case TNccl(w) => Nccl(Cclenter(w).value)
  }

  predicate Tight(c: Cst) {
    !c.Seq? && !c.Bar?
  }

  predicate Good(c: Cst) {
    match c
    case One(tok) => IsLeaf(tok)
    case Empty => true
    case Paren(d) => Good(d)
    case Post(d, op) => Good(d) && Tight(d) && Postfix(op)
    case Seq(l, r) => Good(l) && !l.Bar? && Good(r) && Tight(r) && Toks(r)[0] != THat
    case Bar(l, r) => Good(l) && Good(r) && !r.Bar?
  }

  /** What it stands for: an empty pair of parentheses is the empty class. */
  function Meaning(c: Cst): Re
    requires Good(c)
  {
    match c
    case One(tok) => Leaf(0, SymOf(tok))
    case Empty => Leaf(0, Ccl([]))
    case Paren(d) => Meaning(d)
    case Post(d, op) => if op == TStar then Star(Meaning(d)) else if op == TPlus then Plus(Meaning(d))
        else Quest(Meaning(d))
    case Seq(l, r) => Cat(Meaning(l), Meaning(r))
    case Bar(l, r) => Or(Meaning(l), Meaning(r))
  }

  /** From i on s is the text of these tokens, and ends. */
  ghost predicate Written(s: Text, i: nat, ts: seq<Tok>)
    decreases |ts|
  {
    if ts == [] then i == |s| else exists j: nat :: ts[0] != TEnd && TokAt(s, i, ts[0], j) && Written(s, j, ts[1..])
  }

  // ----- going over tokens -----

  /** tok is in hand, and the rest of ts comes next; what is in hand after them. */
  function Walk(s: Text, tok: Tok, at: nat, ts: seq<Tok>): Option<(Tok, nat)>
    decreases |ts|
  {
    if ts == [] then Some((tok, at))
    else if tok == ts[0] && tok != TEnd && Relex(s, at).Lexed? then Walk(s, Relex(s, at).tok, Relex(s, at).at, ts[1..])
    else None
  }

  lemma {:induction false} WalkOn(s: Text, tok: Tok, at: nat, ts: seq<Tok>, us: seq<Tok>)
    ensures Walk(s, tok, at, ts + us) ==
            match Walk(s, tok, at, ts) case None => None case Some(p) => Walk(s, p.0, p.1, us)
    decreases |ts|
  {
    if ts == [] {
      assert ts + us == us;
    } else {
      assert (ts + us)[1..] == ts[1..] + us;
      if tok == ts[0] && tok != TEnd && Relex(s, at).Lexed? {
        WalkOn(s, Relex(s, at).tok, Relex(s, at).at, ts[1..], us);
      }
    }
  }

  lemma WalkOne(s: Text, tok: Tok, at: nat, t: Tok)
    ensures Walk(s, tok, at, [t]) ==
            if tok == t && tok != TEnd && Relex(s, at).Lexed? then Some((Relex(s, at).tok, Relex(s, at).at)) else None
  {
    assert [t][1..] == [];
  }

  lemma {:induction false} FirstTok(c: Cst)
    requires Good(c)
    ensures Toks(c)[0] == THat || Continues(Toks(c)[0])
  {
    match c
    case Post(d, _) => FirstTok(d);
    case Seq(l, _) => FirstTok(l);
    case Bar(l, _) => FirstTok(l);
    case _ =>
  }

  lemma WalkHead(s: Text, tok: Tok, at: nat, ts: seq<Tok>)
    requires ts != [] && Walk(s, tok, at, ts).Some?
    ensures tok == ts[0] && tok != TEnd && Relex(s, at).Lexed?
  {
  }

  // ----- the parser reads the grammar -----

  function ThenConcat(s: Text, p: Parsed): Parsed {
    if p.Failed? then p else Concat(s, p.t, p.tok, p.at)
  }

  /** Reading an operand leaves unary() to go on with it. */
  lemma {:induction false} PrimaryReads(s: Text, c: Cst, tok: Tok, at: nat, tok': Tok, at': nat)
    requires Good(c) && Tight(c) && Walk(s, tok, at, Toks(c)) == Some((tok', at'))
    ensures Primary(s, tok, at) == Unary(s, Meaning(c), tok', at')
    decreases c, 0
  {
    match c
    case One(t) => WalkOne(s, tok, at, t);
    case Empty =>
      assert [TOpen, TClose] == [TOpen] + [TClose];
      WalkOn(s, tok, at, [TOpen], [TClose]);
      WalkOne(s, tok, at, TOpen);
      WalkOne(s, Relex(s, at).tok, Relex(s, at).at, TClose);
    case Post(d, op) =>
      WalkOn(s, tok, at, Toks(d), [op]);
      var p := Walk(s, tok, at, Toks(d)).value;
      PrimaryReads(s, d, tok, at, p.0, p.1);
      WalkOne(s, p.0, p.1, op);
    case Paren(d) =>
      WalkOn(s, tok, at, [TOpen], Toks(d) + [TClose]);
      WalkOne(s, tok, at, TOpen);
      var l := Relex(s, at);
      WalkOn(s, l.tok, l.at, Toks(d), [TClose]);
      var p := Walk(s, l.tok, l.at, Toks(d)).value;
      WalkOne(s, p.0, p.1, TClose);
      WalkHead(s, l.tok, l.at, Toks(d));
      FirstTok(d);
      RegexpReads(s, d, l.tok, l.at, p.0, p.1);
      assert Alt(s, Meaning(d), TClose, p.1) == Parsed(Meaning(d), TClose, p.1);
  }

  /** Reading a concatenation leaves concat() to go on with it. */
  lemma {:induction false} ConcatReads(s: Text, c: Cst, tok: Tok, at: nat, tok': Tok, at': nat)
    requires Good(c) && !c.Bar? && Walk(s, tok, at, Toks(c)) == Some((tok', at')) && !Postfix(tok')
    ensures ThenConcat(s, Primary(s, tok, at)) == Concat(s, Meaning(c), tok', at')
    decreases c, 1
  {
    if c.Seq? {
      WalkOn(s, tok, at, Toks(c.l), Toks(c.r));
      var p := Walk(s, tok, at, Toks(c.l)).value;
      WalkHead(s, p.0, p.1, Toks(c.r));
      FirstTok(c.r);
      ConcatReads(s, c.l, tok, at, p.0, p.1);
      PrimaryReads(s, c.r, p.0, p.1, tok', at');
      assert Primary(s, p.0, p.1) == Parsed(Meaning(c.r), tok', at');
    } else {
      PrimaryReads(s, c, tok, at, tok', at');
      assert Primary(s, tok, at) == Parsed(Meaning(c), tok', at');
    }
  }

  /** Reading an expression leaves alt() to go on with it. */
  lemma {:induction false} RegexpReads(s: Text, c: Cst, tok: Tok, at: nat, tok': Tok, at': nat)
    requires Good(c) && Walk(s, tok, at, Toks(c)) == Some((tok', at')) && !Postfix(tok') && !Continues(tok')
    ensures Regexp(s, tok, at) == Alt(s, Meaning(c), tok', at')
    decreases c, 2
  {
    if c.Bar? {
      WalkOn(s, tok, at, Toks(c.l), [TOr] + Toks(c.r));
      var p := Walk(s, tok, at, Toks(c.l)).value;
      WalkOn(s, p.0, p.1, [TOr], Toks(c.r));
      WalkOne(s, p.0, p.1, TOr);
      var l := Relex(s, p.1);
      RegexpReads(s, c.l, tok, at, p.0, p.1);
      ConcatReads(s, c.r, l.tok, l.at, tok', at');
      assert Concat(s, Meaning(c.r), tok', at') == Parsed(Meaning(c.r), tok', at');
    } else {
      ConcatReads(s, c, tok, at, tok', at');
      assert Concat(s, Meaning(c), tok', at') == Parsed(Meaning(c), tok', at');
    }
  }

  // ----- and nothing else -----

  /** c, or c with postfix operators behind it, is what the tokens up to tok' are. */
  ghost predicate Grows(s: Text, c: Cst, tok: Tok, at: nat, d: Cst, us: seq<Tok>, tok': Tok, at': nat) {
    Good(d) && Toks(d) == Toks(c) + us && Walk(s, tok, at, us) == Some((tok', at'))
  }

  lemma Same(s: Text, c: Cst, tok: Tok, at: nat)
    requires Good(c)
    ensures Grows(s, c, tok, at, c, [], tok, at)
  {
    assert Toks(c) + [] == Toks(c);
  }

  /** One token and what grows behind it. */
  lemma StepThen(s: Text, tok: Tok, at: nat, us: seq<Tok>)
    requires tok != TEnd && Relex(s, at).Lexed?
    ensures Walk(s, tok, at, [tok] + us) == Walk(s, Relex(s, at).tok, Relex(s, at).at, us)
  {
    assert ([tok] + us)[1..] == us;
  }

  /** What has grown once grows again. */
  lemma GrowsOn(s: Text, c: Cst, tok: Tok, at: nat, e: Cst, us: seq<Tok>, tok1: Tok, at1: nat,
                d: Cst, vs: seq<Tok>, tok2: Tok, at2: nat)
    requires Grows(s, c, tok, at, e, us, tok1, at1) && Grows(s, e, tok1, at1, d, vs, tok2, at2)
    ensures Grows(s, c, tok, at, d, us + vs, tok2, at2)
  {
    hide Good, Toks, Walk;
    WalkOn(s, tok, at, us, vs);
    assert Toks(c) + us + vs == Toks(c) + (us + vs);
  }

  lemma {:induction false} UnaryWritten(s: Text, c: Cst, tok: Tok, at: nat) returns (d: Cst, us: seq<Tok>)
    requires Good(c) && Tight(c) && Unary(s, Meaning(c), tok, at).Parsed?
    ensures var r := Unary(s, Meaning(c), tok, at);
            Grows(s, c, tok, at, d, us, r.tok, r.at) && Tight(d) && Meaning(d) == r.t && !Postfix(r.tok)
    decreases Left(s, tok, at)
  {
    if !Postfix(tok) {
      d, us := c, [];
      Same(s, c, tok, at);
    } else {
      var l := Relex(s, at);
      var us';
      d, us' := UnaryWritten(s, Post(c, tok), l.tok, l.at);
      us := [tok] + us';
      StepThen(s, tok, at, us');
      assert Toks(c) + [tok] + us' == Toks(c) + us;
    }
  }

  /** An operand whose tokens end with tok: what follows is postfix operators. */
  lemma OperandWritten(s: Text, c: Cst, tok: Tok, at: nat, ts: seq<Tok>, tok0: Tok, at0: nat) returns (d: Cst)
    requires Good(c) && Tight(c) && Toks(c) == ts + [tok] && tok != TEnd && Walk(s, tok0, at0, ts) == Some((tok, at))
    requires ThenUnary(s, Meaning(c), tok, at).Parsed?
    ensures var r := ThenUnary(s, Meaning(c), tok, at);
            && Good(d) && Tight(d) && Meaning(d) == r.t && !Postfix(r.tok)
            && Walk(s, tok0, at0, Toks(d)) == Some((r.tok, r.at)) && Toks(d)[0] == Toks(c)[0]
  {
    hide Good, Meaning, Toks, Unary, Postfix, Relex, Walk;
    var l := Relex(s, at);
    var us;
    d, us := UnaryWritten(s, c, l.tok, l.at);
    WalkOn(s, tok0, at0, ts, [tok] + us);
    StepThen(s, tok, at, us);
    assert Toks(d) == ts + ([tok] + us);
  }

  lemma {:induction false} PrimaryWritten(s: Text, tok: Tok, at: nat) returns (d: Cst)
    requires Primary(s, tok, at).Parsed?
    ensures var r := Primary(s, tok, at);
            && Good(d) && Tight(d) && Meaning(d) == r.t && !Postfix(r.tok)
            && Walk(s, tok, at, Toks(d)) == Some((r.tok, r.at)) && Toks(d)[0] == tok
    decreases Left(s, tok, at), 0
  {
    if tok == TOpen {
      d := GroupWritten(s, at);
    } else {
      assert [] + [tok] == [tok];
      d := OperandWritten(s, One(tok), tok, at, [], tok, at);
    }
  }

  lemma {:induction false} GroupWritten(s: Text, at: nat) returns (d: Cst)
    requires Primary(s, TOpen, at).Parsed?
    ensures var r := Primary(s, TOpen, at);
            && Good(d) && Tight(d) && Meaning(d) == r.t && !Postfix(r.tok)
            && Walk(s, TOpen, at, Toks(d)) == Some((r.tok, r.at)) && Toks(d)[0] == TOpen
    decreases Left(s, TOpen, at), -1
  {
    var l := Relex(s, at);
    StepThen(s, TOpen, at, []);
    if l.tok == TClose {
      assert [TOpen] + [TClose] == Toks(Empty) && [TOpen] + [] == [TOpen];
      d := OperandWritten(s, Empty, TClose, l.at, [TOpen], TOpen, at);
    } else {
      var r := Regexp(s, l.tok, l.at);
      var c := RegexpWritten(s, l.tok, l.at);
      StepThen(s, TOpen, at, Toks(c));
      assert [TOpen] + Toks(c) + [TClose] == Toks(Paren(c));
      d := OperandWritten(s, Paren(c), TClose, r.at, [TOpen] + Toks(c), TOpen, at);
    }
  }

  lemma {:induction false} ConcatWritten(s: Text, c: Cst, tok: Tok, at: nat) returns (d: Cst, us: seq<Tok>)
    requires Good(c) && !c.Bar? && Concat(s, Meaning(c), tok, at).Parsed? && !Postfix(tok)
    ensures var r := Concat(s, Meaning(c), tok, at);
            && Grows(s, c, tok, at, d, us, r.tok, r.at) && !d.Bar? && Meaning(d) == r.t
            && !Postfix(r.tok) && !Continues(r.tok)
    decreases Left(s, tok, at), 1
  {
    hide Good, Toks, Meaning, Walk, Grows, Concat, Primary;
    if !Continues(tok) {
      ConcatStays(s, Meaning(c), tok, at);
      d, us := c, [];
      Same(s, c, tok, at);
    } else {
      ConcatStep(s, Meaning(c), tok, at);
      var p := Primary(s, tok, at);
      var right := PrimaryWritten(s, tok, at);
      SeqIs(c, right);
      SeqGrows(s, c, right, tok, at, p.tok, p.at);
      var us', q := [], Concat(s, Meaning(c), tok, at);
      d, us' := ConcatWritten(s, Seq(c, right), p.tok, p.at);
      us := Toks(right) + us';
      GrowsOn(s, c, tok, at, Seq(c, right), Toks(right), p.tok, p.at, d, us', q.tok, q.at);
    }
  }

  lemma ConcatStays(s: Text, np: Re, tok: Tok, at: nat)
    requires !Continues(tok)
    ensures Concat(s, np, tok, at) == Parsed(np, tok, at)
  {
  }

  lemma ConcatStep(s: Text, np: Re, tok: Tok, at: nat)
    requires Continues(tok) && Concat(s, np, tok, at).Parsed?
    ensures var p := Primary(s, tok, at);
            p.Parsed? && Concat(s, np, tok, at) == Concat(s, Cat(np, p.t), p.tok, p.at)
  {
  }

  lemma SeqGrows(s: Text, c: Cst, r: Cst, tok: Tok, at: nat, tok': Tok, at': nat)
    requires Good(Seq(c, r)) && Walk(s, tok, at, Toks(r)) == Some((tok', at'))
    ensures Grows(s, c, tok, at, Seq(c, r), Toks(r), tok', at')
  {
    hide Walk;
  }

  lemma SeqIs(l: Cst, r: Cst)
    requires Good(l) && !l.Bar? && Good(r) && Tight(r) && Continues(Toks(r)[0])
    ensures Good(Seq(l, r)) && Toks(Seq(l, r)) == Toks(l) + Toks(r) && Meaning(Seq(l, r)) == Cat(Meaning(l), Meaning(r))
  {
  }

  lemma {:induction false} AltWritten(s: Text, c: Cst, tok: Tok, at: nat) returns (d: Cst, us: seq<Tok>)
    requires Good(c) && Alt(s, Meaning(c), tok, at).Parsed? && !Postfix(tok) && !Continues(tok)
    ensures var r := Alt(s, Meaning(c), tok, at);
            Grows(s, c, tok, at, d, us, r.tok, r.at) && Meaning(d) == r.t
    decreases Left(s, tok, at), 1
  {
    hide Good, Toks, Meaning, Walk, Grows, Alt, Concat, Primary, Relex;
    if tok != TOr {
      AltStays(s, Meaning(c), tok, at);
      d, us := c, [];
      Same(s, c, tok, at);
    } else {
      AltStep(s, Meaning(c), at);
      var l := Relex(s, at);
      var q := ThenConcat(s, Primary(s, l.tok, l.at));
      var right := OperandsWritten(s, l.tok, l.at);
      BarIs(c, right);
      BarGrows(s, c, right, at, q.tok, q.at);
      var us', r := [], Alt(s, Meaning(c), tok, at);
      d, us' := AltWritten(s, Bar(c, right), q.tok, q.at);
      us := [TOr] + Toks(right) + us';
      GrowsOn(s, c, tok, at, Bar(c, right), [TOr] + Toks(right), q.tok, q.at, d, us', r.tok, r.at);
    }
  }

  lemma AltStays(s: Text, np: Re, tok: Tok, at: nat)
    requires tok != TOr
    ensures Alt(s, np, tok, at) == Parsed(np, tok, at)
  {
  }

  lemma AltStep(s: Text, np: Re, at: nat)
    requires Alt(s, np, TOr, at).Parsed?
    ensures Relex(s, at).Lexed? && ThenConcat(s, Primary(s, Relex(s, at).tok, Relex(s, at).at)).Parsed?
    ensures var l := Relex(s, at);
            var q := ThenConcat(s, Primary(s, l.tok, l.at));
            Left(s, q.tok, q.at) < Left(s, TOr, at) && Alt(s, np, TOr, at) == Alt(s, Or(np, q.t), q.tok, q.at)
  {
  }

  lemma BarIs(l: Cst, r: Cst)
    requires Good(l) && Good(r) && !r.Bar?
    ensures Good(Bar(l, r)) && Meaning(Bar(l, r)) == Or(Meaning(l), Meaning(r))
  {
  }

  lemma BarGrows(s: Text, c: Cst, r: Cst, at: nat, tok': Tok, at': nat)
    requires Good(Bar(c, r)) && Relex(s, at).Lexed?
    requires Walk(s, Relex(s, at).tok, Relex(s, at).at, Toks(r)) == Some((tok', at'))
    ensures Grows(s, c, TOr, at, Bar(c, r), [TOr] + Toks(r), tok', at')
  {
    StepThen(s, TOr, at, Toks(r));
  }

  /** An operand and those that follow it. */
  lemma {:induction false} OperandsWritten(s: Text, tok: Tok, at: nat) returns (d: Cst)
    requires ThenConcat(s, Primary(s, tok, at)).Parsed?
    ensures var r := ThenConcat(s, Primary(s, tok, at));
            && Good(d) && !d.Bar? && Meaning(d) == r.t && !Postfix(r.tok) && !Continues(r.tok)
            && Walk(s, tok, at, Toks(d)) == Some((r.tok, r.at))
    decreases Left(s, tok, at), 1
  {
    hide Good, Toks, Meaning, Walk, Concat, Primary;
    var p := Primary(s, tok, at);
    var first := PrimaryWritten(s, tok, at);
    var us;
    d, us := ConcatWritten(s, first, p.tok, p.at);
    WalkOn(s, tok, at, Toks(first), us);
  }

  lemma {:induction false} RegexpWritten(s: Text, tok: Tok, at: nat) returns (d: Cst)
    requires Regexp(s, tok, at).Parsed?
    ensures var r := Regexp(s, tok, at);
            Good(d) && Meaning(d) == r.t && Walk(s, tok, at, Toks(d)) == Some((r.tok, r.at))
    decreases Left(s, tok, at), 2
  {
    hide Good, Toks, Meaning, Walk, Alt, Concat, Primary;
    var q := ThenConcat(s, Primary(s, tok, at));
    var c := OperandsWritten(s, tok, at);
    var vs;
    d, vs := AltWritten(s, c, q.tok, q.at);
    WalkOn(s, tok, at, Toks(c), vs);
  }

  // ----- whole patterns -----

  /** Going over all tokens to the NUL is finding each where it is written. */
  lemma {:induction false} WalkWritten(s: Text, i: nat, ts: seq<Tok>)
    requires 0 !in s && i <= |s|
    ensures Written(s, i, ts) <==>
            Relex(s, i).Lexed? && Walk(s, Relex(s, i).tok, Relex(s, i).at, ts) == Some((TEnd, |s|))
    decreases |ts|
  {
    var l := Relex(s, i);
    if ts == [] {
      RelexIs(s, i, TEnd, |s|);
    } else {
      if Written(s, i, ts) {
        var j: nat :| ts[0] != TEnd && TokAt(s, i, ts[0], j) && Written(s, j, ts[1..]);
        RelexIs(s, i, ts[0], j);
        WrittenWithin(s, j, ts[1..]);
        WalkWritten(s, j, ts[1..]);
      }
      if l.Lexed? && Walk(s, l.tok, l.at, ts) == Some((TEnd, |s|)) {
        RelexIs(s, i, ts[0], l.at);
        WalkWritten(s, l.at, ts[1..]);
      }
    }
  }

  lemma WrittenWithin(s: Text, i: nat, ts: seq<Tok>)
    requires Written(s, i, ts)
    ensures i <= |s|
  {
    if ts != [] {
      var j: nat :| ts[0] != TEnd && TokAt(s, i, ts[0], j) && Written(s, j, ts[1..]);
    }
  }

  /** reparse returns a tree for exactly the texts of the grammar, and then what they stand for. */
  lemma ReparseIs(s: Text, t: Re)
    requires 0 !in s
    ensures Reparse(s) == Tree(t) <==> exists c :: Good(c) && Meaning(c) == t && Written(s, 0, Toks(c))
  {
    var l := Relex(s, 0);
    if Reparse(s) == Tree(t) {
      var c := RegexpWritten(s, l.tok, l.at);
      var r := Regexp(s, l.tok, l.at);
      EndsAtNul(s, l.tok, l.at, Toks(c));
      WalkWritten(s, 0, Toks(c));
    }
    if c :| Good(c) && Meaning(c) == t && Written(s, 0, Toks(c)) {
      WalkWritten(s, 0, Toks(c));
      WalkHead(s, l.tok, l.at, Toks(c));
      RegexpReads(s, c, l.tok, l.at, TEnd, |s|);
    }
  }

  /** The end is only ever read at the NUL. */
  lemma {:induction false} EndsAtNul(s: Text, tok: Tok, at: nat, ts: seq<Tok>)
    requires 0 !in s && ts != [] && Walk(s, tok, at, ts).Some? && Walk(s, tok, at, ts).value.0 == TEnd
    ensures Walk(s, tok, at, ts).value.1 == |s|
    decreases |ts|
  {
    var l := Relex(s, at);
    if |ts| == 1 {
      RelexIs(s, at, TEnd, l.at);
    } else {
      EndsAtNul(s, l.tok, l.at, ts[1..]);
    }
  }

  /** A pair of parentheses with nothing between is the empty class, which matches the empty string. */
  lemma EmptyPair()
    ensures Reparse([Byte('('), Byte(')')]) == Tree(Leaf(0, Ccl([]))) && Lang(Leaf(0, Ccl([])), [])
  {
    var s := [Byte('('), Byte(')')];
    hide Reparse, Written;
    assert TokAt(s, 0, TOpen, 1) && TokAt(s, 1, TClose, 2);
    WrittenNone(s);
    WrittenOne(s, 1, TClose, 2, []);
    WrittenOne(s, 0, TOpen, 1, [TClose] + []);
    assert [TOpen] + ([TClose] + []) == Toks(Empty);
    ReparseIs(s, Leaf(0, Ccl([])));
  }

  lemma WrittenNone(s: Text)
    ensures Written(s, |s|, [])
  {
  }

  lemma WrittenOne(s: Text, i: nat, tok: Tok, j: nat, ts: seq<Tok>)
    requires tok != TEnd && TokAt(s, i, tok, j) && Written(s, j, ts)
    ensures Written(s, i, [tok] + ts)
  {
    assert ([tok] + ts)[1..] == ts;
  }
}
