/**
 What reparse (usr/src/cmd/awk/b.c) makes of a pattern: the trees it can return, and a scan of the
 pattern from left to right, with nothing but a count of open parentheses, that tells which error
 it reports.
 */
module AwkGrammar {
  import opened AwkRegex
  import opened AwkParse

  predicate IsBytes(s: Text) {
    forall k | 0 <= k < |s| :: s[k] < 256
  }

  // ----- the trees of patterns -----

  /** The largest value of an escape: isdigit() takes 8 and 9 for octal digits. */
  const MAXCHAR: nat := 657

  /** The text of a class: no bracket or newline unless after a backslash, and nothing left open. */
  predicate Clean(w: Text) {
    if w == [] then true
    else if w[0] == Byte('\\') then |w| >= 2 && w[1] != 0 && Clean(w[2..])
    else w[0] !in [0, Byte('\n'), Byte(']')] && Clean(w[1..])
  }

  /** w, in brackets, spells the class cls, and fits the buffer. */
  predicate ClassText(w: Text, cls: Text, negated: bool) {
    && IsBytes(w) && Clean(w) && |w| < CBUF && Cclenter(w) == Some(cls)
    && (negated || w == [] || w[0] != Byte('^'))
  }

  ghost predicate HasText(cls: Text, negated: bool) {
    exists w: Text :: ClassText(w, cls, negated)
  }

  /** A tree with unnumbered leaves, each a character an escape can stand for, a dot or a class that can be spelled. */
  ghost predicate Spellable(t: Re) {
    match t
    case Leaf(p, s) => p == 0 && SpellableSym(s)
    case Star(r) => Spellable(r)
    case Plus(r) => Spellable(r)
    case Quest(r) => Spellable(r)
    case Cat(l, r) => Spellable(l) && Spellable(r)
    case Or(l, r) => Spellable(l) && Spellable(r)
  }

  ghost predicate SpellableSym(s: Sym) {
    match s
    case Char(c) => c <= MAXCHAR
    case Dot => true
    case All => false
    case Final => false
    case Ccl(cls) => HasText(cls, false)
    case Nccl(cls) => HasText(cls, true)
  }

  /** What relex can return. */
  predicate TokOk(tok: Tok) {
    match tok
    case TChar(v) => v <= MAXCHAR
    case TCcl(w) => IsBytes(w) && Clean(w) && |w| < CBUF && (w == [] || w[0] != Byte('^'))
    case TNccl(w) => IsBytes(w) && Clean(w) && |w| < CBUF
    case _ => true
  }

  lemma {:induction false} EndIsClean(s: Text, i: nat)
    requires i <= |s| && Peek(s, ClassEnd(s, i)) == Byte(']')
    ensures Clean(s[i..ClassEnd(s, i)])
    decreases |s| - i
  {
    var e, c := ClassEnd(s, i), Peek(s, i);
    if c !in [0, Byte('\n'), Byte(']')] {
      if c != Byte('\\') {
        EndIsClean(s, i + 1);
        assert s[i..e][1..] == s[i + 1..e];
      } else if Peek(s, i + 1) != 0 {
        EndIsClean(s, i + 2);
        assert s[i..e][2..] == s[i + 2..e];
      }
    }
  }

  lemma RelexOk(s: Text, i: nat)
    requires IsBytes(s)
    ensures Relex(s, i).Lexed? ==> TokOk(Relex(s, i).tok)
  {
    if i < |s| && s[i] == Byte('[') {
      var j := if Peek(s, i + 1) == Byte('^') then i + 2 else i + 1;
      ClassBodyIs(s, j);
      if Relex(s, i).Lexed? {
        EndIsClean(s, j);
      }
    }
  }

  lemma {:induction false} UnaryTree(s: Text, np: Re, tok: Tok, at: nat)
    requires IsBytes(s) && Spellable(np) && TokOk(tok)
    ensures var r := Unary(s, np, tok, at); r.Parsed? ==> Spellable(r.t) && TokOk(r.tok)
    decreases Left(s, tok, at)
  {
    if Postfix(tok) && Relex(s, at).Lexed? {
      RelexOk(s, at);
      UnaryTree(s, Apply(tok, np), Relex(s, at).tok, Relex(s, at).at);
    }
  }

  lemma ThenUnaryTree(s: Text, np: Re, tok: Tok, at: nat)
    requires IsBytes(s) && Spellable(np) && tok != TEnd
    ensures var r := ThenUnary(s, np, tok, at); r.Parsed? ==> Spellable(r.t) && TokOk(r.tok)
  {
    RelexOk(s, at);
    if Relex(s, at).Lexed? { UnaryTree(s, np, Relex(s, at).tok, Relex(s, at).at); }
  }

  lemma {:induction false} PrimaryTree(s: Text, tok: Tok, at: nat)
    requires IsBytes(s) && TokOk(tok)
    ensures var r := Primary(s, tok, at); r.Parsed? ==> Spellable(r.t) && TokOk(r.tok)
    decreases Left(s, tok, at), 0
  {
    match tok
    case TChar(v) => ThenUnaryTree(s, Leaf(0, Char(v)), tok, at);
    case TDot => ThenUnaryTree(s, Leaf(0, Dot), tok, at);
    case TCcl(w) => ClassTree(s, w, false, at);
    case TNccl(w) => ClassTree(s, w, true, at);
    case THat => ThenUnaryTree(s, Leaf(0, Char(HAT)), tok, at);
    case TDollar => ThenUnaryTree(s, Leaf(0, Char(0)), tok, at);
    case TOpen =>
      RelexOk(s, at);
      match Relex(s, at) {
        case LexError(_) =>
        case Lexed(tok', at') =>
          if tok' == TClose {
            EmptyTree();
            ThenUnaryTree(s, Leaf(0, Ccl([])), tok', at');
          } else {
            RegexpTree(s, tok', at');
            var r := Regexp(s, tok', at');
            if r.Parsed? && r.tok == TClose { ThenUnaryTree(s, r.t, r.tok, r.at); }
          }
      }
    case _ =>
  }

  lemma ClassTree(s: Text, w: Text, negated: bool, at: nat)
    requires IsBytes(s) && TokOk(if negated then TNccl(w) else TCcl(w))
    ensures var r := Primary(s, if negated then TNccl(w) else TCcl(w), at);
            r.Parsed? ==> Spellable(r.t) && TokOk(r.tok)
  {
    if Cclenter(w).Some? {
      var cls := Cclenter(w).value;
      assert ClassText(w, cls, negated);
      ThenUnaryTree(s, Leaf(0, if negated then Nccl(cls) else Ccl(cls)), if negated then TNccl(w) else TCcl(w), at);
    }
  }

  /** () and [] both stand for the empty class. */
  lemma EmptyTree()
    ensures Spellable(Leaf(0, Ccl([])))
  {
    assert ClassText([], [], false);
  }

  lemma {:induction false} RegexpTree(s: Text, tok: Tok, at: nat)
    requires IsBytes(s) && TokOk(tok)
    ensures var r := Regexp(s, tok, at); r.Parsed? ==> Spellable(r.t) && TokOk(r.tok)
    decreases Left(s, tok, at), 2
  {
    PrimaryTree(s, tok, at);
    var p := Primary(s, tok, at);
    if p.Parsed? {
      ConcatTree(s, p.t, p.tok, p.at);
      var c := Concat(s, p.t, p.tok, p.at);
      if c.Parsed? { AltTree(s, c.t, c.tok, c.at); }
    }
  }

  lemma {:induction false} ConcatTree(s: Text, np: Re, tok: Tok, at: nat)
    requires IsBytes(s) && Spellable(np) && TokOk(tok)
    ensures var r := Concat(s, np, tok, at); r.Parsed? ==> Spellable(r.t) && TokOk(r.tok)
    decreases Left(s, tok, at), 1
  {
    if Continues(tok) {
      PrimaryTree(s, tok, at);
      var p := Primary(s, tok, at);
      if p.Parsed? { ConcatTree(s, Cat(np, p.t), p.tok, p.at); }
    }
  }

  lemma {:induction false} AltTree(s: Text, np: Re, tok: Tok, at: nat)
    requires IsBytes(s) && Spellable(np) && TokOk(tok)
    ensures var r := Alt(s, np, tok, at); r.Parsed? ==> Spellable(r.t) && TokOk(r.tok)
    decreases Left(s, tok, at), 1
  {
    if tok == TOr && Relex(s, at).Lexed? {
      RelexOk(s, at);
      var tok', at' := Relex(s, at).tok, Relex(s, at).at;
      PrimaryTree(s, tok', at');
      var p := Primary(s, tok', at');
      if p.Parsed? {
        ConcatTree(s, p.t, p.tok, p.at);
        var c := Concat(s, p.t, p.tok, p.at);
        if c.Parsed? { AltTree(s, Or(np, c.t), c.tok, c.at); }
      }
    }
  }

  /** What reparse returns is a tree that can be spelled, and one mkdfa can build an automaton for. */
  lemma ReparseTree(s: Text)
    requires IsBytes(s)
    ensures Reparse(s).Tree? ==> Spellable(Reparse(s).t) && Proper(Reparse(s).t)
  {
    var l := Relex(s, 0);
    RelexOk(s, 0);
    if l.Lexed? {
      RegexpTree(s, l.tok, l.at);
      if Reparse(s).Tree? { SpellableProper(Reparse(s).t); }
    }
  }

  lemma {:induction false} SpellableProper(t: Re)
    requires Spellable(t)
    ensures Proper(t)
  {
    match t
    case Leaf(_, _) =>
    case Star(r) => SpellableProper(r);
    case Plus(r) => SpellableProper(r);
    case Quest(r) => SpellableProper(r);
    case Cat(l, r) => SpellableProper(l); SpellableProper(r);
    case Or(l, r) => SpellableProper(l); SpellableProper(r);
  }

  // ----- which error is reported -----

  /** What may come next: an operand, the same or a closing parenthesis after an opening one, or an operator. */
  datatype Want = Operand | AfterOpen | Operator

  /** The scan ends, with an error or without, or goes on with so many parentheses open. */
  datatype Turn = Stop(error: Option<Error>) | Shift(depth: nat, want: Want)

  function TakeOperand(tok: Tok, depth: nat): Turn {
    if tok == TOpen then Shift(depth + 1, AfterOpen)
    else if Postfix(tok) || tok in [TOr, TClose, TEnd] then Stop(Some(IllegalPrimary))
    else if (tok.TCcl? || tok.TNccl?) && Cclenter(tok.text) == None then Stop(Some(ClassTooBig))
    else Shift(depth, Operator)
  }

  /** What one token does to the scan. */
  function Take(tok: Tok, depth: nat, want: Want): Turn {
    if want == Operand then TakeOperand(tok, depth)
    else if tok == TClose then if depth > 0 then Shift(depth - 1, Operator) else Stop(Some(SyntaxError))
    else if want == AfterOpen || Continues(tok) then TakeOperand(tok, depth)
    else if Postfix(tok) then Shift(depth, Operator)
    else if tok == TOr then Shift(depth, Operand)
    else Stop(if tok == TEnd && depth == 0 then None else Some(SyntaxError))
  }

  /** The error of a pattern, if it has one, found token by token from the one in hand on. */
  function Fault(s: Text, tok: Tok, at: nat, depth: nat, want: Want): (r: Option<Error>)
    decreases Left(s, tok, at)
  {
    match Take(tok, depth, want)
    case Stop(error) => error
    case Shift(depth', want') =>
      match Relex(s, at)
      case LexError(e) => Some(e)
      case Lexed(tok', at') => Fault(s, tok', at', depth', want')
  }

  function Verdict(s: Text): Option<Error> {
    match Relex(s, 0)
    case LexError(e) => Some(e)
    case Lexed(tok, at) => if tok == TEnd then Some(EmptyExpression) else Fault(s, tok, at, 0, Operand)
  }

  /** A routine that fails does so with the error of the scan; one that succeeds leaves the scan where it stops. */
  ghost predicate Follows(s: Text, r: Parsed, depth: nat, verdict: Option<Error>) {
    match r
    case Failed(e) => verdict == Some(e)
    case Parsed(_, tok, at) => verdict == Fault(s, tok, at, depth, Operator)
  }

  lemma {:induction false} UnaryFollows(s: Text, np: Re, tok: Tok, at: nat, depth: nat)
    ensures var r := Unary(s, np, tok, at);
            Follows(s, r, depth, Fault(s, tok, at, depth, Operator)) && (r.Parsed? ==> !Postfix(r.tok))
    decreases Left(s, tok, at)
  {
    if Postfix(tok) && Relex(s, at).Lexed? {
      UnaryFollows(s, Apply(tok, np), Relex(s, at).tok, Relex(s, at).at, depth);
    }
  }

  lemma ThenUnaryFollows(s: Text, np: Re, tok: Tok, at: nat, depth: nat)
    requires tok != TEnd
    ensures var r, l := ThenUnary(s, np, tok, at), Relex(s, at);
            && Follows(s, r, depth, if l.Lexed? then Fault(s, l.tok, l.at, depth, Operator) else Some(l.e))
            && (r.Parsed? ==> !Postfix(r.tok))
  {
    var l := Relex(s, at);
    if l.Lexed? { UnaryFollows(s, np, l.tok, l.at, depth); }
  }

  lemma {:induction false} PrimaryFollows(s: Text, tok: Tok, at: nat, depth: nat)
    ensures var r := Primary(s, tok, at);
            Follows(s, r, depth, Fault(s, tok, at, depth, Operand)) && (r.Parsed? ==> !Postfix(r.tok))
    decreases Left(s, tok, at), 0
  {
    hide Cclenter, Relex, Regexp;
    match tok
    case TChar(v) => ThenUnaryFollows(s, Leaf(0, Char(v)), tok, at, depth);
    case TDot => ThenUnaryFollows(s, Leaf(0, Dot), tok, at, depth);
    case TCcl(w) => if Cclenter(w).Some? { ThenUnaryFollows(s, Leaf(0, Ccl(Cclenter(w).value)), tok, at, depth); }
    case TNccl(w) => if Cclenter(w).Some? { ThenUnaryFollows(s, Leaf(0, Nccl(Cclenter(w).value)), tok, at, depth); }
    case THat => ThenUnaryFollows(s, Leaf(0, Char(HAT)), tok, at, depth);
    case TDollar => ThenUnaryFollows(s, Leaf(0, Char(0)), tok, at, depth);
    case TOpen =>
      match Relex(s, at) {
        case LexError(_) =>
        case Lexed(tok', at') =>
          if tok' == TClose {
            ThenUnaryFollows(s, Leaf(0, Ccl([])), tok', at', depth);
          } else {
            GroupFollows(s, at, depth);
          }
      }
    case _ =>
  }

  lemma {:induction false} GroupFollows(s: Text, at: nat, depth: nat)
    requires Relex(s, at).Lexed? && Relex(s, at).tok != TClose
    ensures var r := Primary(s, TOpen, at);
            Follows(s, r, depth, Fault(s, TOpen, at, depth, Operand)) && (r.Parsed? ==> !Postfix(r.tok))
    decreases Left(s, Relex(s, at).tok, Relex(s, at).at), 3
  {
    hide Cclenter, Relex, Regexp, Left;
    var l := Relex(s, at);
    RegexpFollows(s, l.tok, l.at, depth + 1);
    var r := Regexp(s, l.tok, l.at);
    assert Fault(s, TOpen, at, depth, Operand) == Fault(s, l.tok, l.at, depth + 1, AfterOpen) ==
        Fault(s, l.tok, l.at, depth + 1, Operand);
    if r.Parsed? && r.tok == TClose { ThenUnaryFollows(s, r.t, r.tok, r.at, depth); }
  }

  /** regexp() stops only at a token that cannot go on with it. */
  predicate Stops(tok: Tok) {
    !Postfix(tok) && !Continues(tok) && tok != TOr
  }

  lemma {:induction false} RegexpFollows(s: Text, tok: Tok, at: nat, depth: nat)
    ensures var r := Regexp(s, tok, at);
            Follows(s, r, depth, Fault(s, tok, at, depth, Operand)) && (r.Parsed? ==> Stops(r.tok))
    decreases Left(s, tok, at), 2
  {
    PrimaryFollows(s, tok, at, depth);
    var p := Primary(s, tok, at);
    if p.Parsed? {
      ConcatFollows(s, p.t, p.tok, p.at, depth);
      var c := Concat(s, p.t, p.tok, p.at);
      if c.Parsed? { AltFollows(s, c.t, c.tok, c.at, depth); }
    }
  }

  lemma {:induction false} ConcatFollows(s: Text, np: Re, tok: Tok, at: nat, depth: nat)
    requires !Postfix(tok)
    ensures var r := Concat(s, np, tok, at);
            Follows(s, r, depth, Fault(s, tok, at, depth, Operator)) &&
                (r.Parsed? ==> !Postfix(r.tok) && !Continues(r.tok))
    decreases Left(s, tok, at), 1
  {
    hide Relex, TakeOperand;
    if Continues(tok) {
      PrimaryFollows(s, tok, at, depth);
      var p := Primary(s, tok, at);
      if p.Parsed? { ConcatFollows(s, Cat(np, p.t), p.tok, p.at, depth); }
    }
  }

  lemma {:induction false} AltFollows(s: Text, np: Re, tok: Tok, at: nat, depth: nat)
    requires !Postfix(tok) && !Continues(tok)
    ensures var r := Alt(s, np, tok, at);
            Follows(s, r, depth, Fault(s, tok, at, depth, Operator)) && (r.Parsed? ==> Stops(r.tok))
    decreases Left(s, tok, at), 1
  {
    if tok == TOr && Relex(s, at).Lexed? {
      var tok', at' := Relex(s, at).tok, Relex(s, at).at;
      PrimaryFollows(s, tok', at', depth);
      var p := Primary(s, tok', at');
      if p.Parsed? {
        ConcatFollows(s, p.t, p.tok, p.at, depth);
        var c := Concat(s, p.t, p.tok, p.at);
        if c.Parsed? { AltFollows(s, Or(np, c.t), c.tok, c.at, depth); }
      }
    }
  }

  /** reparse reports an error exactly when the scan finds one, and then that one. */
  lemma ReparseVerdict(s: Text)
    ensures Reparse(s).Tree? <==> Verdict(s) == None
    ensures Reparse(s).Error? ==> Verdict(s) == Some(Reparse(s).e)
  {
    var l := Relex(s, 0);
    if l.Lexed? && l.tok != TEnd { RegexpFollows(s, l.tok, l.at, 0); }
  }

  // ----- reading past the NUL -----

  /** How many backslashes the pattern ends in. */
  function Trailing(s: Text): (n: nat)
    ensures n <= |s| && (forall k | |s| - n <= k < |s| :: s[k] == Byte('\\'))
    ensures n < |s| ==> s[|s| - n - 1] != Byte('\\')
  {
    if s == [] || s[|s| - 1] != Byte('\\') then 0 else 1 + Trailing(s[..|s| - 1])
  }

  /** The cursor is not inside a pair of those backslashes; past the NUL it can be only if they are odd. */
  predicate Paired(s: Text, at: nat) {
    var n := Trailing(s);
    if at <= |s| then at <= |s| - n || (at - (|s| - n)) % 2 == 0 else at == |s| + 1 && n % 2 == 1
  }

  lemma RelexPaired(s: Text, at: nat)
    requires Paired(s, at) && Relex(s, at).Lexed?
    ensures Paired(s, Relex(s, at).at)
  {
    if at < |s| && s[at] == Byte('[') {
      ClassBodyIs(s, if Peek(s, at + 1) == Byte('^') then at + 2 else at + 1);
    }
  }

  lemma {:induction false} FaultPaired(s: Text, tok: Tok, at: nat, depth: nat, want: Want)
    requires Paired(s, at) && Fault(s, tok, at, depth, want) == Some(Overrun)
    ensures Trailing(s) % 2 == 1
    decreases Left(s, tok, at)
  {
    var turn := Take(tok, depth, want);
    if turn.Shift? && Relex(s, at).Lexed? {
      RelexPaired(s, at);
      FaultPaired(s, Relex(s, at).tok, Relex(s, at).at, turn.depth, turn.want);
    }
  }

  /** The pattern with an x for its last byte and n closing parentheses behind it. */
  function Filled(s: Text, n: nat): (t: Text)
    requires s != []
    ensures |t| == |s| + n && t[..|s| - 1] == s[..|s| - 1] && t[|s| - 1] == Byte('x')
    ensures forall k | |s| <= k < |t| :: t[k] == Byte(')')
    ensures forall k | 0 <= k < |s| - 1 :: t[k] == s[k]
  {
    s[..|s| - 1] + [Byte('x')] + seq(n, _ => Byte(')'))
  }

  lemma {:induction false} PlainEnd(t: Text, j: nat)
    requires j <= |t| && forall k | j <= k < |t| :: t[k] !in [0, Byte('\n'), Byte(']'), Byte('\\')]
    ensures ClassEnd(t, j) == |t|
    decreases |t| - j
  {
    if j < |t| { PlainEnd(t, j + 1); }
  }

  /** A class that ends before the last byte ends there in both patterns; one that does not never ends. */
  lemma {:induction false} ClassEndSame(s: Text, n: nat, j: nat)
    requires 0 !in s && EndsInBackslash(s) && j < |s|
    ensures var t, e := Filled(s, n), ClassEnd(s, j);
            if e < |s| - 1 then ClassEnd(t, j) == e
            else Peek(s, e) == 0 && ClassEnd(t, j) == |t|
    decreases |s| - j
  {
    var t, m := Filled(s, n), |s| - 1;
    if j == m {
      PlainEnd(t, j);
    } else if s[j] !in [0, Byte('\n'), Byte(']')] {
      if s[j] != Byte('\\') {
        ClassEndSame(s, n, j + 1);
      } else if j + 1 < m {
        assert s[j + 1] in s;
        ClassEndSame(s, n, j + 2);
      } else {
        PlainEnd(t, j + 2);
      }
    }
  }

  lemma SameClass(s: Text, n: nat, j: nat)
    requires 0 !in s && EndsInBackslash(s) && j < |s|
    ensures var r, r' := ClassBody(s, j, []), ClassBody(Filled(s, n), j, []);
            if r.Lexed? then r' == r && r.at < |s| else r'.LexError?
  {
    var t := Filled(s, n);
    ClassBodyIs(s, j);
    ClassBodyIs(t, j);
    ClassEndSame(s, n, j);
    var e := ClassEnd(s, j);
    if e < |s| - 1 { assert s[j..e] == s[..|s| - 1][j..e] == t[j..e]; }
  }

  /** A backslash where a token starts is not the one in front of the last byte. */
  lemma EscapeInside(s: Text, i: nat)
    requires Trailing(s) % 2 == 1 && Paired(s, i) && i < |s| - 1 && s[i] == Byte('\\')
    ensures i + 1 < |s| - 1
  {
    hide Trailing;
    OddRun(Trailing(s), |s|, i);
  }

  lemma OddRun(n: nat, len: nat, i: nat)
    requires n % 2 == 1 && n <= len
    ensures i + 2 == len && (i - (len - n)) % 2 == 0 ==> i < len - n
  {
  }

  lemma SameEscape(s: Text, t: Text, m: nat, i: nat)
    requires i + 1 < m < |s| && m < |t| && forall k | 0 <= k < m :: t[k] == s[k]
    requires !IsDigit(s[m]) && !IsDigit(t[m])
    ensures Escape(t, i + 1) == Escape(s, i + 1) && Escape(s, i + 1).1 <= m
  {
    hide Escaped;
  }

  lemma SameBracket(s: Text, n: nat, i: nat)
    requires 0 !in s && EndsInBackslash(s) && i < |s| - 1 && s[i] == Byte('[')
    ensures var r, r' := Relex(s, i), Relex(Filled(s, n), i);
            if r.Lexed? then r' == r && i < r.at < |s| else r.e != Overrun && r'.LexError?
  {
    hide ClassBody, Filled;
    SameClass(s, n, i + 1);
    if s[i + 1] == Byte('^') && i + 2 < |s| { SameClass(s, n, i + 2); }
    assert i + 1 < |s| - 1 ==> Filled(s, n)[i + 1] == s[i + 1];
  }

  lemma NotNul(s: Text, i: nat)
    requires 0 !in s && i < |s|
    ensures s[i] != 0
  {
  }

  lemma LastByte(s: Text)
    requires Trailing(s) % 2 == 1
    ensures EndsInBackslash(s)
  {
  }

  /** Up to the last byte both patterns consist of the same tokens. */
  lemma SameToken(s: Text, n: nat, i: nat)
    requires 0 !in s && Trailing(s) % 2 == 1 && Paired(s, i) && i < |s| - 1
    ensures var r, r' := Relex(s, i), Relex(Filled(s, n), i);
            if r.Lexed? then r' == r && i < r.at < |s| else r.e != Overrun && r'.LexError?
  {
    hide ClassBody, Filled, Escape, Paired, Trailing;
    LastByte(s);
    NotNul(s, i);
    if s[i] == Byte('[') {
      SameBracket(s, n, i);
    } else if s[i] == Byte('\\') {
      EscapeInside(s, i);
      SameEscape(s, Filled(s, n), |s| - 1, i);
    }
  }

  /** The scan from the token at i on. */
  function Ahead(s: Text, i: nat, depth: nat, want: Want): Option<Error> {
    match Relex(s, i)
    case LexError(e) => Some(e)
    case Lexed(tok, at) => Fault(s, tok, at, depth, want)
  }

  lemma {:induction false} ClosersAhead(s: Text, n: nat, i: nat, depth: nat)
    requires s != [] && |s| <= i <= |s| + n
    ensures Ahead(Filled(s, n), i, depth, Operator) == if |s| + n - i == depth then None else Some(SyntaxError)
    decreases |s| + n - i
  {
    if i < |s| + n && depth > 0 { ClosersAhead(s, n, i + 1, depth - 1); }
  }

  lemma {:induction false} AheadFilled(s: Text, i: nat, depth: nat, want: Want) returns (n: nat)
    requires 0 !in s && Trailing(s) % 2 == 1 && Paired(s, i) && i < |s| && Ahead(s, i, depth, want) == Some(Overrun)
    ensures Ahead(Filled(s, n), i, depth, want) == None
    decreases |s| - i
  {
    hide Cclenter, ClassBody, Escape, Paired, Trailing, Filled;
    if i == |s| - 1 {
      n := depth;
      ClosersAhead(s, n, |s|, depth);
    } else {
      SameToken(s, 0, i);
      var l := Relex(s, i);
      var turn := Take(l.tok, depth, want);
      RelexPaired(s, i);
      n := AheadFilled(s, l.at, turn.depth, turn.want);
      SameToken(s, n, i);
    }
  }

  lemma {:induction false} FilledAhead(s: Text, n: nat, i: nat, depth: nat, want: Want)
    requires 0 !in s && Trailing(s) % 2 == 1 && Paired(s, i) && i < |s| && Ahead(Filled(s, n), i, depth, want) == None
    ensures Ahead(s, i, depth, want) == Some(Overrun)
    decreases |s| - i
  {
    if i < |s| - 1 {
      SameToken(s, n, i);
      var l := Relex(s, i);
      var turn := Take(l.tok, depth, want);
      RelexPaired(s, i);
      FilledAhead(s, n, l.at, turn.depth, turn.want);
    }
  }

  /**
   reparse reads past the NUL exactly when the pattern ends in an odd run of backslashes, and with an
   x in place of the last one it would be, but for parentheses still to be closed, a good pattern.
   */
  lemma OverrunIff(s: Text)
    requires 0 !in s
    ensures Reparse(s) == Error(Overrun) <==>
            Trailing(s) % 2 == 1 && exists n: nat :: Reparse(Filled(s, n)).Tree?
  {
    ReparseVerdict(s);
    assert Paired(s, 0);
    if Reparse(s) == Error(Overrun) {
      var l := Relex(s, 0);
      RelexPaired(s, 0);
      FaultPaired(s, l.tok, l.at, 0, Operand);
      var n := AheadFilled(s, 0, 0, Operand);
      FilledVerdict(s, n);
    }
    if Trailing(s) % 2 == 1 && exists n: nat :: Reparse(Filled(s, n)).Tree? {
      var n: nat :| Reparse(Filled(s, n)).Tree?;
      FilledVerdict(s, n);
      FilledAhead(s, n, 0, 0, Operand);
    }
  }

  lemma FilledVerdict(s: Text, n: nat)
    requires 0 !in s && s != []
    ensures Reparse(Filled(s, n)).Tree? <==> Ahead(Filled(s, n), 0, 0, Operand) == None
  {
    ReparseVerdict(Filled(s, n));
  }
}
