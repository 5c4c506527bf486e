/**
 The regular-expression parser of awk (usr/src/cmd/awk/b.c): relex, cclenter and the recursive
 descent of reparse. A pattern is the bytes before its NUL; a pointer is an index into it, and
 reading at the NUL's index gives 0, beyond it is an overrun.

 The functions give the meaning of the routines and `Parser` is the code over its cursor.
 */
module AwkParse {
  import opened AwkRegex

  type Text = seq<nat>

  datatype Error =
    | Overrun | ClassOverrun | NonterminatedClass | NewlineInClass | ClassTooBig
    | EmptyExpression | SyntaxError | IllegalPrimary

  datatype Tok =
    | TEnd | TOr | TStar | TPlus | TQuest | TDot | THat | TDollar | TOpen | TClose
    | TChar(v: nat) | TCcl(text: Text) | TNccl(text: Text)

  datatype Lexed = Lexed(tok: Tok, at: nat) | LexError(e: Error)

  const MAXLIN: nat := 256

  /** The size of relex's cbuf. */
  const CBUF: nat := 150

  function Byte(c: char): nat { c as nat }

  // ----- relex -----

  /** The byte at i, within the pattern or at its NUL. */
  function Peek(s: Text, i: nat): nat {
    if i < |s| then s[i] else 0
  }

  predicate IsDigit(c: nat) {
    Byte('0') <= c <= Byte('9')
  }

  /** What a backslash in front of c stands for, unless c is a digit. */
  function Escaped(c: nat): nat {
    if c == Byte('t') then 9
    else if c == Byte('n') then 10
    else if c == Byte('f') then 12
    else if c == Byte('r') then 13
    else if c == Byte('b') then 8
    else c
  }

  /** The escape after a backslash, read at i: its value and where it ends. */
  function Escape(s: Text, i: nat): (r: (nat, nat))
    requires i <= |s|
    ensures i < r.1 <= |s| + 1 && (r.1 == |s| + 1 <==> i == |s|)
  {
    var c := Peek(s, i);
    if !IsDigit(c) then (Escaped(c), i + 1)
    else
      var n := c - Byte('0');
      if !IsDigit(Peek(s, i + 1)) then (n, i + 1)
      else
        var n2 := 8 * n + Peek(s, i + 1) - Byte('0');
        if !IsDigit(Peek(s, i + 2)) then (n2, i + 2)
        else (8 * n2 + Peek(s, i + 2) - Byte('0'), i + 3)
  }

  /** The loop over a bracketed class: what cbuf holds and where the class ends. Nothing bounds it but cbuf. */
  function ClassBody(s: Text, i: nat, cbuf: Text): (r: Lexed)
    requires i <= |s|
    ensures r.Lexed? ==> r.tok.TCcl? && i < r.at <= |s|
    ensures r != LexError(Overrun)
    decreases |s| - i
  {
    var c := Peek(s, i);
    if c == 0 then LexError(NonterminatedClass)
    else if c == Byte('\n') then LexError(NewlineInClass)
    else if |cbuf| >= CBUF then LexError(ClassOverrun)
    else if c == Byte(']') then Lexed(TCcl(cbuf), i + 1)
    else if c != Byte('\\') then ClassBody(s, i + 1, cbuf + [c])
    else if Peek(s, i + 1) == 0 then LexError(NonterminatedClass)
    else if |cbuf| + 1 >= CBUF then LexError(ClassOverrun)
    else ClassBody(s, i + 2, cbuf + [c, s[i + 1]])
  }

  /** Where the loop would end without a bound on the buffer: at the closing bracket, a newline or the NUL. */
  function ClassEnd(s: Text, i: nat): (e: nat)
    requires i <= |s|
    ensures i <= e <= |s| && Peek(s, e) in [0, Byte('\n'), Byte(']')]
    decreases |s| - i
  {
    var c := Peek(s, i);
    if c in [0, Byte('\n'), Byte(']')] then i
    else if c != Byte('\\') then ClassEnd(s, i + 1)
    else if Peek(s, i + 1) == 0 then i + 1
    else ClassEnd(s, i + 2)
  }

  /**
   A class is read as the text up to its end, and reading it overruns the buffer exactly when
   that text, with the NUL put behind it at a bracket, takes more than CBUF bytes.
   */
  lemma ClassBodyIs(s: Text, i: nat)
    requires i <= |s|
    ensures var e := ClassEnd(s, i);
            ClassBody(s, i, []) ==
            if e - i + (if Peek(s, e) == Byte(']') then 1 else 0) > CBUF then LexError(ClassOverrun)
            else if Peek(s, e) == Byte(']') then Lexed(TCcl(s[i..e]), e + 1)
            else LexError(if Peek(s, e) == 0 then NonterminatedClass else NewlineInClass)
  {
    assert s[i..i] == [];
    ClassBodyFrom(s, i, i);
  }

  lemma {:induction false} ClassBodyFrom(s: Text, i: nat, j: nat)
    requires i <= j <= |s| && j - i <= CBUF
    ensures var e := ClassEnd(s, j);
            ClassBody(s, j, s[i..j]) ==
            if e - i + (if Peek(s, e) == Byte(']') then 1 else 0) > CBUF then LexError(ClassOverrun)
            else if Peek(s, e) == Byte(']') then Lexed(TCcl(s[i..e]), e + 1)
            else LexError(if Peek(s, e) == 0 then NonterminatedClass else NewlineInClass)
    decreases |s| - j
  {
    var c := Peek(s, j);
    if c !in [0, Byte('\n'), Byte(']')] {
      if c != Byte('\\') {
        assert s[i..j + 1] == s[i..j] + [c];
        if j + 1 - i <= CBUF { ClassBodyFrom(s, i, j + 1); }
      } else if Peek(s, j + 1) != 0 {
        assert s[i..j + 2] == s[i..j] + [c, s[j + 1]];
        if j + 2 - i <= CBUF { ClassBodyFrom(s, i, j + 2); }
      }
    }
  }

  /** One token from i on. The cursor ends up past the NUL only after a final backslash. */
  function Relex(s: Text, i: nat): (r: Lexed)
    ensures i > |s| <==> r == LexError(Overrun)
    ensures r.Lexed? ==> i <= r.at <= |s| + 1 && (r.tok == TEnd <==> r.at == i)
    ensures r.Lexed? ==> (r.at == |s| + 1 <==> i + 1 == |s| && s[i] == Byte('\\'))
  {
    if i > |s| then LexError(Overrun)
    else
      var c := Peek(s, i);
      if c == Byte('|') then Lexed(TOr, i + 1)
      else if c == Byte('*') then Lexed(TStar, i + 1)
      else if c == Byte('+') then Lexed(TPlus, i + 1)
      else if c == Byte('?') then Lexed(TQuest, i + 1)
      else if c == Byte('.') then Lexed(TDot, i + 1)
      else if c == 0 then Lexed(TEnd, i)
      else if c == Byte('^') then Lexed(THat, i + 1)
      else if c == Byte('$') then Lexed(TDollar, i + 1)
      else if c == Byte('(') then Lexed(TOpen, i + 1)
      else if c == Byte(')') then Lexed(TClose, i + 1)
      else if c == Byte('\\') then var (v, at) := Escape(s, i + 1); Lexed(TChar(v), at)
      else if c != Byte('[') then Lexed(TChar(c), i + 1)
      else if Peek(s, i + 1) == Byte('^') then
        var r := ClassBody(s, i + 2, []);
        if r.Lexed? then Lexed(TNccl(r.tok.text), r.at) else r
      else ClassBody(s, i + 1, [])
  }

  // ----- cclenter -----

  /** The characters c + 1 .. hi added by a range. */
  function RangeFrom(c: nat, hi: nat): (r: Text)
    decreases hi - c
  {
    if c < hi then [c + 1] + RangeFrom(c + 1, hi) else []
  }

  /** The class text with escapes and ranges expanded; None when the table of chars is full. */
  function Expand(p: Text, i: nat, chars: Text): (r: Option<Text>)
    decreases |p| - i
  {
    var c := Peek(p, i);
    if i >= |p| || c == 0 then Some(chars)
    else if c == Byte('\\') then
      var (v, at) := Escape(p, i + 1);
      if |chars| >= MAXLIN - 1 then None else Expand(p, at, chars + [v % 256])
    else if c == Byte('-') && chars != [] && chars[|chars| - 1] != 0 && Peek(p, i + 1) != 0 then
      var more := RangeFrom(chars[|chars| - 1], Peek(p, i + 1));
      if |chars| + |more| > MAXLIN - 1 then None else Expand(p, i + 2, chars + more)
    else if |chars| >= MAXLIN - 1 then None
    else Expand(p, i + 1, chars + [c])
  }

  datatype Option<T> = None | Some(value: T)

  /** tostring: up to the first NUL. */
  function UpToNul(t: Text): (r: Text)
    ensures 0 !in r
  {
    if t == [] || t[0] == 0 then [] else [t[0]] + UpToNul(t[1..])
  }

  function Cclenter(p: Text): Option<Text> {
    match Expand(p, 0, [])
    case None => None
    case Some(chars) => Some(UpToNul(chars))
  }

  // ----- the grammar -----

  predicate EndsInBackslash(s: Text) {
    s != [] && s[|s| - 1] == Byte('\\')
  }

  datatype Parsed = Parsed(t: Re, tok: Tok, at: nat) | Failed(e: Error)

  /** The cursor has gone, or would have gone, past the NUL. */
  predicate Overran(s: Text, r: Parsed) {
    if r.Parsed? then r.at > |s| else r.e == Overrun
  }

  /** What is left to read, counting the token in hand. */
  function Left(s: Text, tok: Tok, at: nat): nat {
    2 * (if at <= |s| + 1 then |s| + 1 - at else 0) + if tok == TEnd then 0 else 1
  }

  predicate Postfix(tok: Tok) { tok.TStar? || tok.TPlus? || tok.TQuest? }

  /** The tokens on which concat() goes on: ^ is not one of them. */
  predicate Continues(tok: Tok) {
    tok.TChar? || tok.TDot? || tok.TCcl? || tok.TNccl? || tok.TDollar? || tok.TOpen?
  }

  function Apply(tok: Tok, np: Re): Re
    requires Postfix(tok)
  {
    if tok.TStar? then Star(np) else if tok.TPlus? then Plus(np) else Quest(np)
  }

  function Unary(s: Text, np: Re, tok: Tok, at: nat): (r: Parsed)
    ensures r.Parsed? ==> Left(s, r.tok, r.at) <= Left(s, tok, at)
    ensures Overran(s, r) ==> at > |s| || EndsInBackslash(s)
    decreases Left(s, tok, at)
  {
    if !Postfix(tok) then Parsed(np, tok, at)
    else match Relex(s, at)
      case LexError(e) => Failed(e)
      case Lexed(tok', at') => Unary(s, Apply(tok, np), tok', at')
  }

  /** Takes the next token and continues with unary(). */
  function ThenUnary(s: Text, np: Re, tok: Tok, at: nat): (r: Parsed)
    requires tok != TEnd
    ensures r.Parsed? ==> Left(s, r.tok, r.at) < Left(s, tok, at)
    ensures Overran(s, r) ==> at > |s| || EndsInBackslash(s)
  {
    match Relex(s, at)
    case LexError(e) => Failed(e)
    case Lexed(tok', at') => Unary(s, np, tok', at')
  }

  function Primary(s: Text, tok: Tok, at: nat): (r: Parsed)
    ensures r.Parsed? ==> Left(s, r.tok, r.at) < Left(s, tok, at)
    ensures Overran(s, r) ==> at > |s| || EndsInBackslash(s)
    decreases Left(s, tok, at), 0
  {
    match tok
    case TChar(v) => ThenUnary(s, Leaf(0, Char(v)), tok, at)
    case TDot => ThenUnary(s, Leaf(0, Dot), tok, at)
    case TCcl(text) => (match Cclenter(text)
                        case None => Failed(ClassTooBig)
                        case Some(cls) => ThenUnary(s, Leaf(0, Ccl(cls)), tok, at))
    case TNccl(text) => (match Cclenter(text)
                         case None => Failed(ClassTooBig)
                         case Some(cls) => ThenUnary(s, Leaf(0, Nccl(cls)), tok, at))
    case THat => ThenUnary(s, Leaf(0, Char(HAT)), tok, at)
    case TDollar => ThenUnary(s, Leaf(0, Char(0)), tok, at)
    case TOpen => (match Relex(s, at)
                   case LexError(e) => Failed(e)
                   case Lexed(tok', at') =>
                     if tok' == TClose then ThenUnary(s, Leaf(0, Ccl([])), tok', at')
                     else match Regexp(s, tok', at')
                       case Failed(e) => Failed(e)
                       case Parsed(np, tok2, at2) =>
                         if tok2 == TClose then ThenUnary(s, np, tok2, at2) else Failed(SyntaxError))
    case _ => Failed(IllegalPrimary)
  }

  function Regexp(s: Text, tok: Tok, at: nat): (r: Parsed)
    ensures r.Parsed? ==> Left(s, r.tok, r.at) < Left(s, tok, at)
    ensures Overran(s, r) ==> at > |s| || EndsInBackslash(s)
    decreases Left(s, tok, at), 2
  {
    match Primary(s, tok, at)
    case Failed(e) => Failed(e)
    case Parsed(np, tok', at') =>
      match Concat(s, np, tok', at')
      case Failed(e) => Failed(e)
      case Parsed(np2, tok2, at2) => Alt(s, np2, tok2, at2)
  }

  function Concat(s: Text, np: Re, tok: Tok, at: nat): (r: Parsed)
    ensures r.Parsed? ==> Left(s, r.tok, r.at) <= Left(s, tok, at)
    ensures Overran(s, r) ==> at > |s| || EndsInBackslash(s)
    decreases Left(s, tok, at), 1
  {
    if !Continues(tok) then Parsed(np, tok, at)
    else match Primary(s, tok, at)
      case Failed(e) => Failed(e)
      case Parsed(right, tok', at') => Concat(s, Cat(np, right), tok', at')
  }

  function Alt(s: Text, np: Re, tok: Tok, at: nat): (r: Parsed)
    ensures r.Parsed? ==> Left(s, r.tok, r.at) <= Left(s, tok, at)
    ensures Overran(s, r) ==> at > |s| || EndsInBackslash(s)
    decreases Left(s, tok, at), 1
  {
    if tok != TOr then Parsed(np, tok, at)
    else match Relex(s, at)
      case LexError(e) => Failed(e)
      case Lexed(tok', at') =>
        match Primary(s, tok', at')
        case Failed(e) => Failed(e)
        case Parsed(p, tok2, at2) =>
          match Concat(s, p, tok2, at2)
          case Failed(e) => Failed(e)
          case Parsed(right, tok3, at3) => Alt(s, Or(np, right), tok3, at3)
  }

  datatype Outcome = Tree(t: Re) | Error(e: Error)

  function Reparse(s: Text): (r: Outcome)
    ensures r == Error(Overrun) ==> EndsInBackslash(s)
  {
    match Relex(s, 0)
    case LexError(e) => Error(e)
    case Lexed(tok, at) =>
      if tok == TEnd then Error(EmptyExpression)
      else match Regexp(s, tok, at)
        case Failed(e) => Error(e)
        case Parsed(np, tok', _) => if tok' == TEnd then Tree(np) else Error(SyntaxError)
  }

  // ----- the parser over its cursor -----

  /** The globals prestr, rtok, rlxval and rlxstr; a call that fails records the error instead. */
  class Parser {
    const lastre: Text
    var prestr: nat
    var rtok: Tok
    var error: Option<Error>

    constructor (s: Text)
      ensures lastre == s && prestr == 0 && error == None
    {
      lastre, prestr, rtok, error := s, 0, TEnd, None;
    }

    /** The loop of relex over a bracketed class, into a buffer of CBUF bytes. */
    method ReadClass(from: nat) returns (r: Lexed)
      requires from <= |lastre|
      ensures r == ClassBody(lastre, from, [])
    {
      var cbuf := new nat[CBUF](_ => 0);
      var p, clen := from, 0;
      assert cbuf[..0] == [];
      while true
        invariant from <= p <= |lastre| && clen <= CBUF
        invariant ClassBody(lastre, from, []) == ClassBody(lastre, p, cbuf[..clen])
        decreases |lastre| - p
      {
        var c := Peek(lastre, p);
        ghost var was := cbuf[..clen];
        if c == 0 {
          return LexError(NonterminatedClass);
        } else if c == Byte('\n') {
          return LexError(NewlineInClass);
        } else if clen >= CBUF {
          return LexError(ClassOverrun);
        } else if c == Byte(']') {
          return Lexed(TCcl(cbuf[..clen]), p + 1);
        }
        cbuf[clen] := c;
        clen := clen + 1;
        p := p + 1;
        if c == Byte('\\') {
          if Peek(lastre, p) == 0 {
            return LexError(NonterminatedClass);
          } else if clen >= CBUF {
            return LexError(ClassOverrun);
          }
          cbuf[clen] := lastre[p];
          clen := clen + 1;
          p := p + 1;
          assert cbuf[..clen] == was + [c, lastre[p - 1]];
        } else {
          assert cbuf[..clen] == was + [c];
        }
      }
    }

    /** One token from the cursor on. */
    method Lex() returns (l: Lexed)
      ensures l == Relex(lastre, prestr)
    {
      if prestr > |lastre| || Peek(lastre, prestr) != Byte('[') {
        return Relex(lastre, prestr);
      }
      var negated := Peek(lastre, prestr + 1) == Byte('^');
      l := ReadClass(if negated then prestr + 2 else prestr + 1);
      if negated && l.Lexed? {
        l := Lexed(TNccl(l.tok.text), l.at);
      }
    }

    /** The next token, in rtok. */
    method Advance() returns (ok: bool)
      modifies this
      ensures match Relex(lastre, old(prestr))
              case LexError(e) => !ok && error == Some(e)
              case Lexed(tok, at) => ok && rtok == tok && prestr == at && error == old(error)
    {
      var l := Lex();
      match l
      case LexError(e) =>
        error := Some(e);
        ok := false;
      case Lexed(tok, at) =>
        rtok, prestr := tok, at;
        ok := true;
    }

    /** np and the cursor are what a routine of the grammar promises; None when it failed. */
    twostate predicate Did(r: Parsed, new np: Option<Re>)
      reads this
    {
      match r
      case Failed(e) => np == None && error == Some(e)
      case Parsed(t, tok, at) => np == Some(t) && rtok == tok && prestr == at && error == old(error)
    }

    method UnaryOf(np: Re) returns (r: Option<Re>)
      modifies this
      ensures Did(Unary(lastre, np, old(rtok), old(prestr)), r)
      decreases Left(lastre, rtok, prestr)
    {
      if !Postfix(rtok) {
        return Some(np);
      }
      var t := Apply(rtok, np);
      var ok := Advance();
      if !ok {
        return None;
      }
      r := UnaryOf(t);
    }

    method Leaf1(np: Re) returns (r: Option<Re>)
      requires rtok != TEnd
      modifies this
      ensures Did(ThenUnary(lastre, np, old(rtok), old(prestr)), r)
    {
      var ok := Advance();
      if !ok {
        return None;
      }
      r := UnaryOf(np);
    }

    method Class(text: Text, negated: bool) returns (r: Option<Re>)
      requires rtok == if negated then TNccl(text) else TCcl(text)
      modifies this
      ensures Did(Primary(lastre, old(rtok), old(prestr)), r)
    {
      match Cclenter(text)
      case None =>
        error := Some(ClassTooBig);
        r := None;
      case Some(cls) =>
        r := Leaf1(Leaf(0, if negated then Nccl(cls) else Ccl(cls)));
    }

    method PrimaryOf() returns (r: Option<Re>)
      modifies this
      ensures Did(Primary(lastre, old(rtok), old(prestr)), r)
      decreases Left(lastre, rtok, prestr), 1
    {
      match rtok
      case TChar(v) => r := Leaf1(Leaf(0, Char(v)));
      case TDot => r := Leaf1(Leaf(0, Dot));
      case TCcl(text) => r := Class(text, false);
      case TNccl(text) => r := Class(text, true);
      case THat => r := Leaf1(Leaf(0, Char(HAT)));
      case TDollar => r := Leaf1(Leaf(0, Char(0)));
      case TOpen => r := Group();
      case _ =>
        error := Some(IllegalPrimary);
        r := None;
    }

    method Group() returns (r: Option<Re>)
      requires rtok == TOpen
      modifies this
      ensures Did(Primary(lastre, old(rtok), old(prestr)), r)
      decreases Left(lastre, rtok, prestr), 0
    {
      var ok := Advance();
      if !ok {
        return None;
      }
      if rtok == TClose {
        r := Leaf1(Leaf(0, Ccl([])));
        return;
      }
      var np := RegexpOf();
      if np == None {
        return None;
      }
      if rtok == TClose {
        r := Leaf1(np.value);
      } else {
        error := Some(SyntaxError);
        r := None;
      }
    }

    method RegexpOf() returns (r: Option<Re>)
      modifies this
      ensures Did(Regexp(lastre, old(rtok), old(prestr)), r)
      decreases Left(lastre, rtok, prestr), 3
    {
      var np := PrimaryOf();
      if np == None {
        return None;
      }
      np := ConcatOf(np.value);
      if np == None {
        return None;
      }
      r := AltOf(np.value);
    }

    method ConcatOf(np: Re) returns (r: Option<Re>)
      modifies this
      ensures Did(Concat(lastre, np, old(rtok), old(prestr)), r)
      decreases Left(lastre, rtok, prestr), 2
    {
      if !Continues(rtok) {
        return Some(np);
      }
      var right := PrimaryOf();
      if right == None {
        return None;
      }
      r := ConcatOf(Cat(np, right.value));
    }

    method AltOf(np: Re) returns (r: Option<Re>)
      modifies this
      ensures Did(Alt(lastre, np, old(rtok), old(prestr)), r)
      decreases Left(lastre, rtok, prestr), 2
    {
      if rtok != TOr {
        return Some(np);
      }
      var ok := Advance();
      if !ok {
        return None;
      }
      var p := PrimaryOf();
      if p == None {
        return None;
      }
      p := ConcatOf(p.value);
      if p == None {
        return None;
      }
      r := AltOf(Or(np, p.value));
    }

    /** reparse: the tree of the whole pattern. */
    method Run() returns (r: Outcome)
      requires prestr == 0
      modifies this
      ensures r == Reparse(lastre)
    {
      var ok := Advance();
      if !ok {
        return Error(error.value);
      }
      if rtok == TEnd {
        return Error(EmptyExpression);
      }
      var np := RegexpOf();
      if np == None {
        return Error(error.value);
      }
      r := if rtok == TEnd then Tree(np.value) else Error(SyntaxError);
    }
  }
}
