/**
 compile of usr/src/head/regexp.h: from the text of a basic regular expression to a program.
 The text is read up to the delimiter eof; reading past the end of what is given is an overrun.
 */
module EdCompile {
  import opened EdProgram

  datatype Option<T> = None | Some(value: T)

  /**
   Error numbers are those of the source. Overrun stands for input that ends too soon, Behind for a
   byte that is stored behind the buffer, at endbuf, or looked at there.
   */
  datatype Error = Code(n: nat) | Overrun | Behind

  const BACKSLASH: byte := 92 // '\\'
  const LBRACKET: byte := 91 // '['
  const RBRACKET: byte := 93 // ']'
  const CARET: byte := 94 // '^'
  const DASH: byte := 45 // '-'
  const ASTERISK: byte := 42 // '*'
  const DOT: byte := 46 // '.'
  const DOLLAR: byte := 36 // '$'
  const LPAREN: byte := 40 // '('
  const RPAREN: byte := 41 // ')'
  const LBRACE: byte := 123 // '{'
  const RBRACE: byte := 125 // '}'
  const COMMA: byte := 44 // ','
  const NEWLINE: byte := 10 // '\n'
  const ZERO: byte := 48 // '0'
  const ONE: byte := 49 // '1'
  const NINE: byte := 57 // '9'
  const LETTER_N: byte := 110 // 'n'

  // ----- classes -----

  /** The bit of c in the bitmap is set. */
  function Place(bits: seq<byte>, c: byte): (r: seq<byte>)
    requires |bits| == 32
    ensures |r| == 32
  {
    bits[Slot(c) := bits[Slot(c)] | Bit(c)]
  }

  lemma PlaceThere(bits: seq<byte>, c: byte, d: byte)
    requires |bits| == 32
    ensures IsThere(Place(bits, c), d) <==> d == c || IsThere(bits, d)
  {
    PlaceAt(bits, Slot(c), Bit(c), Slot(d), Bit(d));
    BitsAgree(c, d);
  }

  lemma PlaceAt(bits: seq<byte>, k: nat, x: byte, j: nat, y: byte)
    requires k < |bits| && j < |bits|
    ensures bits[k := bits[k] | x][j] & y != 0 <==> (k == j && x & y != 0) || bits[j] & y != 0
  {
    AndOr(bits[k], x, y);
  }

  lemma AndOr(b: byte, x: byte, y: byte)
    ensures (b | x) & y != 0 <==> b & y != 0 || x & y != 0
  {
  }

  lemma BitsAgree(c: byte, d: byte)
    ensures Slot(c) == Slot(d) && Bit(c) & Bit(d) != 0 <==> c == d
  {
    NumSame(c >> 3, d >> 3);
    BitsDiffer(c, d);
  }

  lemma BitsDiffer(c: byte, d: byte)
    ensures c >> 3 == d >> 3 && Bit(c) & Bit(d) != 0 <==> c == d
  {
  }

  // ----- brackets -----

  /** The characters a bracket expression has placed, the last one outermost. */
  datatype Placed = Blank | Put(rest: Placed, c: byte)

  /** What a bracket expression has placed so far, and whether it had to become CXCL. */
  datatype Bracket = Bracket(placed: Placed, wide: bool)

  datatype BracketResult = BadBracket(e: Error) | BracketDone(b: Bracket, at: nat)

  /** All of a range but its upper end. */
  function UpTo(p: Placed, lc: byte, c: byte): Placed
    decreases if lc < c then c - lc else 0
  {
    if lc < c then UpTo(Put(p, lc), lc + 1, c) else p
  }

  function Zeros(): (r: seq<byte>)
    ensures |r| == 32 && forall k | 0 <= k < 32 :: r[k] == 0
  {
    seq(32, _ => 0)
  }

  /** The bitmap after placing all of them. */
  function Bits(p: Placed): (r: seq<byte>)
    ensures |r| == 32
  {
    match p
    case Blank => Zeros()
    case Put(rest, c) => Place(Bits(rest), c)
  }

  /** Whether a character with the top bit needs 16 more bytes, and there is room for them. */
  function Widen(b: Bracket, c: byte, full: bool): Option<Bracket> {
    if c & 0x80 != 0 && !b.wide then (if full then None else Some(b.(wide := true))) else Some(b)
  }

  datatype Dashed = DashBad(e: Error) | DashEnd(b: Bracket) | DashTo(hi: byte, b: Bracket)

  /** After a dash that follows lc: the closing bracket, or the upper end of a range, not yet placed. */
  function Dash(pat: seq<byte>, at: nat, lc: byte, b: Bracket, full: bool): (r: Dashed)
    requires at <= |pat|
    ensures !r.DashBad? ==> at < |pat|
    ensures r.DashBad? ==> r.e != Behind
  {
    if at >= |pat| then DashBad(Overrun)
    else if pat[at] == RBRACKET then DashEnd(b.(placed := Put(b.placed, DASH)))
    else
      match Widen(b, pat[at], full)
      case None => DashBad(Code(50))
      case Some(b2) => DashTo(pat[at], b2.(placed := UpTo(b2.placed, lc, pat[at])))
  }

  predicate IsDash(c: byte, lc: byte) {
    c == DASH && lc != 0
  }

  /** One character of a bracket: c, read before at, is placed, with the range up to it if lc came before a dash. */
  function Member(pat: seq<byte>, c: byte, at: nat, lc: byte, b: Bracket, full: bool): (r: Dashed)
    requires at <= |pat|
    ensures !r.DashBad? && IsDash(c, lc) ==> at < |pat|
    ensures r.DashEnd? ==> IsDash(c, lc)
    ensures r.DashBad? ==> r.e != Behind
  {
    if c == 0 || c == NEWLINE then DashBad(Code(49)) else
    match Widen(b, c, full)
    case None => DashBad(Code(50))
    case Some(b1) =>
      if !IsDash(c, lc) then DashTo(c, b1.(placed := Put(b1.placed, c)))
      else
        var d := Dash(pat, at, lc, b1, full);
        if d.DashTo? then DashTo(d.hi, d.b.(placed := Put(d.b.placed, d.hi))) else d
  }

  /** The loop over the characters of a bracket; c was read before at, lc is the last one placed. */
  function Brackets(pat: seq<byte>, c: byte, at: nat, lc: byte, b: Bracket, full: bool): (r: BracketResult)
    requires at <= |pat|
    ensures if r.BracketDone? then at <= r.at <= |pat| else r.e != Behind
    decreases |pat| - at
  {
    match Member(pat, c, at, lc, b, full)
    case DashBad(e) => BadBracket(e)
    case DashEnd(b1) => BracketDone(b1, at + 1)
    case DashTo(hi, b1) =>
      var next := if IsDash(c, lc) then at + 1 else at;
      if next >= |pat| then BadBracket(Overrun)
      else if pat[next] == RBRACKET then BracketDone(b1, next + 1)
      else Brackets(pat, pat[next], next + 1, hi, b1, full)
  }

  /** The complement of a bitmap of 32 bytes. */
  function Flip(bits: seq<byte>): (r: seq<byte>)
    ensures |r| == |bits|
    ensures forall k | 0 <= k < |bits| :: r[k] == bits[k] ^ 0xff
  {
    seq(|bits|, k requires 0 <= k < |bits| => bits[k] ^ 0xff)
  }

  /** The opcode and bitmap a bracket leaves in the program. */
  function Finish(b: Bracket, neg: bool): Atom {
    Closing(Bits(b.placed), b.wide, neg)
  }

  function Closing(bits: seq<byte>, wide: bool, neg: bool): Atom
    requires |bits| == 32
  {
    if wide then Map(CXCL, if neg then Flip(bits)[0 := Flip(bits)[0] & 0xfe] else bits)
    else if neg then Map(NCCL, bits[..16][0 := bits[0] | 1])
    else Map(CCL, bits[..16])
  }

  // ----- the loop of compile -----

  /**
   sp is how far the text has been read, code what has been stored; lastep is where the last element begins, or
   negative for none; bracket holds the numbers of the groups that are open.
   */
  datatype State = State(sp: nat, code: seq<byte>, lastep: int, nbra: nat, closed: nat, bracket: seq<byte>)

  datatype Step = Next(s: State) | Return(code: seq<byte>) | Failed(e: Error)

  /** The arguments: the text, its delimiter, whether sed calls, and how many bytes the buffer takes. */
  datatype Args = Args(pat: seq<byte>, eof: byte, sed: bool, room: nat)

  predicate StateOk(s: State) {
    && -1 <= s.lastep < |s.code|
    && |s.bracket| <= s.nbra <= NBRA
    && forall k | 0 <= k < |s.bracket| :: Num(s.bracket[k]) < NBRA
  }

  /** A round that goes on has read something and left the state in order. */
  predicate Moves(s: State, r: Step) {
    r.Next? ==> s.sp < r.s.sp && StateOk(r.s)
  }

  /** Two bytes are stored, the first of them within the buffer. */
  predicate NoRoom(a: Args, s: State) {
    |s.code| + 1 >= a.room
  }

  /** The character itself. */
  function DefChar(a: Args, s: State, c: byte): Step {
    if NoRoom(a, s) then Failed(Behind) else Next(s.(code := s.code + [CCHR, c], lastep := |s.code|))
  }

  datatype Number = BadNumber(e: Error) | Number(i: nat, last: byte, at: nat)

  predicate IsDigit(c: byte) {
    ZERO <= c <= NINE
  }

  /** The digits of a number, up to a backslash or comma. */
  function Digits(pat: seq<byte>, at: nat, i: nat): (r: Number)
    ensures if r.Number? then at < r.at <= |pat| && (r.last == BACKSLASH || r.last == COMMA) else r.e != Behind
    decreases |pat| - at
  {
    if at >= |pat| then BadNumber(Overrun)
    else if !IsDigit(pat[at]) then BadNumber(Code(16))
    else
      var i' := 10 * i + Num(pat[at] - ZERO);
      if at + 1 >= |pat| then BadNumber(Overrun)
      else if pat[at + 1] == BACKSLASH || pat[at + 1] == COMMA then Number(i', pat[at + 1], at + 2)
      else Digits(pat, at + 1, i')
  }

  /** The rest of \{, from the first number on. */
  function Interval(a: Args, s: State): (r: Step)
    requires StateOk(s)
    ensures Moves(s, r)
  {
    match Digits(a.pat, s.sp, 0)
    case BadNumber(e) => Failed(e)
    case Number(i, last, at) =>
      if i >= 255 then Failed(Code(11)) else
      AfterFirst(a, s.(code := s.code + [Byte(i)], sp := at), last)
  }

  /** The closing of the range, or a comma and what may follow it; 255 stands for no upper limit. */
  function AfterFirst(a: Args, s: State, last: byte): (r: Step)
    requires StateOk(s) && s.code != []
    ensures Moves(s, r)
  {
    if last == BACKSLASH then CloseInterval(a, s, false)
    else if s.sp >= |a.pat| then Failed(Overrun)
    else if a.pat[s.sp] == BACKSLASH then
      if |s.code| >= a.room then Failed(Behind)
      else CloseInterval(a, s.(code := s.code + [255], sp := s.sp + 1), true)
    else SecondNumber(a, s)
  }

  function SecondNumber(a: Args, s: State): (r: Step)
    requires StateOk(s) && s.code != []
    ensures Moves(s, r)
  {
    match Digits(a.pat, s.sp, 0)
    case BadNumber(e) => Failed(e)
    case Number(j, last, at) =>
      if j >= 255 then Failed(Code(11)) else
      if |s.code| >= a.room then Failed(Behind) else
      if last == COMMA then Failed(Code(44)) else
      CloseInterval(a, s.(code := s.code + [Byte(j)], sp := at), true)
  }

  /** The next character must be the brace; one number stands for both. */
  function CloseInterval(a: Args, s: State, two: bool): (r: Step)
    requires StateOk(s) && s.code != [] && (two ==> |s.code| >= 2)
    ensures Moves(s, r)
  {
    if s.sp >= |a.pat| then Failed(Overrun)
    else if a.pat[s.sp] != RBRACE then Failed(Code(45))
    else
      var s1 := s.(sp := s.sp + 1);
      if !two then if |s.code| >= a.room then Failed(Behind) else Next(s1.(code := s1.code + [s1.code[|s1.code| - 1]]))
      else if s.code[|s.code| - 1] < s.code[|s.code| - 2] then Failed(Code(46))
      else Next(s1)
  }

  /** The opening mark of a group. */
  function OpenGroup(a: Args, s: State): (r: Step)
    requires StateOk(s.(lastep := -1)) && -1 <= s.lastep <= |s.code|
    ensures r.Next? ==> s.sp == r.s.sp && StateOk(r.s)
  {
    if s.nbra >= NBRA then Failed(Code(43))
    else if NoRoom(a, s) then Failed(Behind)
    else
      NumByte(s.nbra);
      Next(s.(code := s.code + [CBRA, Byte(s.nbra)], nbra := s.nbra + 1, bracket := s.bracket + [Byte(s.nbra)]))
  }

  /** The closing mark of a group. */
  function CloseGroup(a: Args, s: State): (r: Step)
    requires StateOk(s.(lastep := -1)) && -1 <= s.lastep <= |s.code|
    ensures r.Next? ==> s.sp == r.s.sp && StateOk(r.s)
  {
    if s.bracket == [] then Failed(Code(42))
    else if NoRoom(a, s) then Failed(Behind)
    else
      var top := |s.bracket| - 1;
      assert forall k | 0 <= k < top :: s.bracket[..top][k] == s.bracket[k];
      Next(s.(code := s.code + [CKET, s.bracket[top]], bracket := s.bracket[..top], closed := s.closed + 1))
  }

  /** The cases after a backslash; c has been read, and lastep already is what it will be. */
  function Escape(a: Args, s: State, c: byte): (r: Step)
    requires StateOk(s) || (c != LBRACE && StateOk(s.(lastep := -1)) && s.lastep == |s.code|)
    ensures r.Next? ==> s.sp <= r.s.sp && StateOk(r.s)
  {
    if c == LPAREN then OpenGroup(a, s)
    else if c == RPAREN then CloseGroup(a, s)
    else if c == LBRACE then
      if s.lastep < 0 then DefChar(a, s, c)
      else Interval(a, s.(code := s.code[s.lastep := s.code[s.lastep] | RNGE]))
    else if c == NEWLINE then Failed(Code(36))
    else if c == LETTER_N then DefChar(a, s, NEWLINE)
    else if ONE <= c <= NINE then
      if Num(c - ONE) >= s.closed then Failed(Code(25))
      else if NoRoom(a, s) then Failed(Behind)
      else Next(s.(code := s.code + [CBACK, c - ONE]))
    else DefChar(a, s, c)
  }

  function OpenBracket(a: Args, s: State): (r: Step)
    requires StateOk(s.(lastep := -1)) && s.lastep == |s.code|
    ensures r.Next? ==> s.sp <= r.s.sp && StateOk(r.s)
  {
    if s.sp >= |a.pat| then Failed(Overrun) else
    var neg := a.pat[s.sp] == CARET;
    var at := if neg then s.sp + 1 else s.sp;
    if at >= |a.pat| then Failed(Overrun) else ClassRead(a, s, neg, at)
  }

  function ClassRead(a: Args, s: State, neg: bool, at: nat): (r: Step)
    requires at < |a.pat| && StateOk(s.(lastep := -1)) && s.lastep == |s.code|
    ensures r.Next? ==> at < r.s.sp && StateOk(r.s)
  {
    match Brackets(a.pat, a.pat[at], at + 1, 0, Bracket(Blank, false), |s.code| + 1 + 32 >= a.room)
    case BadBracket(e) => Failed(e)
    case BracketDone(b, next) =>
      var m := Finish(b, neg);
      Next(s.(sp := next, code := s.code + [m.kind] + m.bits))
  }

  /** An asterisk. */
  function Stars(a: Args, s: State): (r: Step)
    requires StateOk(s)
    ensures r.Next? ==> r.s.sp == s.sp && StateOk(r.s)
  {
    if s.lastep < 0 || s.code[s.lastep] == CBRA || s.code[s.lastep] == CKET then DefChar(a, s, ASTERISK)
    else Next(s.(code := s.code[s.lastep := s.code[s.lastep] | STAR]))
  }

  /** The other characters without a backslash; c has been read. */
  function Plain(a: Args, s: State, c: byte): (r: Step)
    requires StateOk(s.(lastep := -1)) && s.lastep == |s.code|
    ensures r.Next? ==> s.sp <= r.s.sp && StateOk(r.s)
  {
    if c == DOT then Next(s.(code := s.code + [CDOT]))
    else if c == NEWLINE then
      if a.sed then Failed(Code(36)) else if s.bracket != [] then Failed(Code(42)) else Return(s.code + [CCEOF])
    else if c == DOLLAR then
      if s.sp >= |a.pat| then Failed(Overrun)
      else if a.pat[s.sp] != a.eof && a.pat[s.sp] != NEWLINE then DefChar(a, s, c)
      else Next(s.(code := s.code + [CDOL]))
    else if c == LBRACKET then
      if |s.code| + 17 >= a.room then Failed(Code(50)) else OpenBracket(a, s)
    else DefChar(a, s, c)
  }

  /** Only a star and \\{ leave lastep where it was. */
  predicate Looks(a: Args, sp: nat, c: byte) {
    c == ASTERISK || (c == BACKSLASH && sp < |a.pat| && a.pat[sp] == LBRACE)
  }

  /** What a round does with its first character. */
  function Switch(a: Args, s: State, c: byte): (r: Step)
    requires c == BACKSLASH ==> s.sp < |a.pat|
    requires if Looks(a, s.sp, c) then StateOk(s) else StateOk(s.(lastep := -1)) && s.lastep == |s.code|
    ensures r.Next? ==> s.sp <= r.s.sp && StateOk(r.s)
  {
    if c == a.eof then (if s.bracket != [] then Failed(Code(42)) else Return(s.code + [CCEOF]))
    else if c == ASTERISK then Stars(a, s)
    else if c == BACKSLASH then Escape(a, s.(sp := s.sp + 1), a.pat[s.sp])
    else Plain(a, s, c)
  }

  /** One round of the main loop. */
  function Round(a: Args, s: State): (r: Step)
    requires StateOk(s)
    ensures Moves(s, r)
  {
    if |s.code| >= a.room then Failed(Code(50))
    else if s.sp >= |a.pat| then Failed(Overrun)
    else
      var c := a.pat[s.sp];
      if c == BACKSLASH && s.sp + 1 >= |a.pat| then Failed(Overrun) else
      Switch(a, s.(sp := s.sp + 1, lastep := if Looks(a, s.sp + 1, c) then s.lastep else |s.code|), c)
  }

  /** A byte goes behind the buffer only in a round that begins with room for one byte. */
  lemma RoundBehind(a: Args, s: State)
    requires StateOk(s) && Round(a, s) == Failed(Behind)
    ensures |s.code| + 1 == a.room
  {
    hide Brackets, Digits, Finish;
    var c := a.pat[s.sp];
    var s' := s.(sp := s.sp + 1, lastep := if Looks(a, s.sp + 1, c) then s.lastep else |s.code|);
    if c == BACKSLASH && a.pat[s'.sp] == LBRACE && 0 <= s'.lastep {
      IntervalBehind(a, s'.(sp := s'.sp + 1, code := s'.code[s'.lastep := s'.code[s'.lastep] | RNGE]));
    }
  }

  lemma IntervalBehind(a: Args, s: State)
    requires StateOk(s) && |s.code| < a.room && Interval(a, s) == Failed(Behind)
    ensures |s.code| + 1 == a.room
  {
    hide Digits;
  }

  datatype Compiled = Program(code: seq<byte>, circf: bool) | NoPattern | CompileError(e: Error)

  /** The main loop. */
  function Rounds(a: Args, s: State): (r: Step)
    requires StateOk(s)
    ensures !r.Next?
    decreases if s.sp < |a.pat| then |a.pat| - s.sp else 0
  {
    match Round(a, s)
    case Next(s') => if s.sp >= |a.pat| then Failed(Overrun) else Rounds(a, s')
    case Return(code) => Return(code)
    case Failed(e) => Failed(e)
  }

  lemma RoundsOne(a: Args, s: State)
    requires StateOk(s)
    ensures Rounds(a, s) ==
            if Round(a, s).Next? then if s.sp >= |a.pat| then Failed(Overrun) else Rounds(a, Round(a, s).s)
            else Round(a, s)
    ensures Round(a, s).Next? ==> s.sp < Round(a, s).s.sp && s.sp < |a.pat|
  {
  }

  function Initial(circf: bool): (s: State)
    ensures StateOk(s)
  {
    State(if circf then 1 else 0, [], -1, 0, 0, [])
  }

  /** Nothing before the delimiter or the end of the line. */
  predicate EmptyPattern(a: Args) {
    a.pat != [] && (a.pat[0] == a.eof || a.pat[0] == NEWLINE)
  }

  /**
   compile: the program and circf; an empty pattern stands for the one compiled before, if there is one. before
   is whether the first byte of the buffer is set.
   */
  function Compile(a: Args, before: bool): Compiled {
    if a.pat == [] then CompileError(Overrun)
    else if EmptyPattern(a) then
      if a.room == 0 then CompileError(Behind)
      else if !before && !a.sed then CompileError(Code(41))
      else NoPattern
    else
      var circf := a.pat[0] == CARET;
      Made(Rounds(a, Initial(circf)), circf)
  }

  function Made(r: Step, circf: bool): Compiled
    requires !r.Next?
  {
    match r
    case Return(code) => Program(code, circf)
    case Failed(e) => CompileError(e)
  }

  // ----- a program does not begin with a zero -----

  predicate Begins(code: seq<byte>) {
    code != [] && code[0] != 0
  }

  lemma OrKeeps(b: byte, x: byte)
    requires b != 0
    ensures b | x != 0
  {
  }

  lemma RoundBegins(a: Args, s: State)
    requires StateOk(s) && (s.code == [] || Begins(s.code))
    ensures Round(a, s).Next? ==> Begins(Round(a, s).s.code)
    ensures Round(a, s).Return? ==> Begins(Round(a, s).code)
  {
    hide Interval, OpenBracket, Moves;
    if 0 <= s.lastep {
      OrKeeps(s.code[0], STAR);
      OrKeeps(s.code[0], RNGE);
    }
    if |s.code| < a.room && s.sp < |a.pat| {
      var c := a.pat[s.sp];
      var here := s.(sp := s.sp + 1, lastep := |s.code|);
      if c == LBRACKET {
        ClassBegins(a, here);
      } else if c == BACKSLASH && s.sp + 1 < |a.pat| && a.pat[s.sp + 1] == LBRACE && 0 <= s.lastep {
        IntervalBegins(a, s.(sp := s.sp + 2, code := s.code[s.lastep := s.code[s.lastep] | RNGE]));
      }
    }
  }

  lemma ClassBegins(a: Args, s: State)
    requires StateOk(s.(lastep := -1)) && s.lastep == |s.code| && (s.code == [] || Begins(s.code))
    ensures OpenBracket(a, s).Next? ==> Begins(OpenBracket(a, s).s.code)
    ensures !OpenBracket(a, s).Return?
  {
    hide Brackets, Bits;
  }

  lemma IntervalBegins(a: Args, s: State)
    requires StateOk(s) && Begins(s.code)
    ensures Interval(a, s).Next? ==> Begins(Interval(a, s).s.code)
    ensures !Interval(a, s).Return?
  {
    hide Digits;
  }

  lemma {:induction false} RoundsBegin(a: Args, s: State)
    requires StateOk(s) && (s.code == [] || Begins(s.code))
    ensures Rounds(a, s).Return? ==> Begins(Rounds(a, s).code)
    decreases if s.sp < |a.pat| then |a.pat| - s.sp else 0
  {
    hide Round;
    RoundBegins(a, s);
    if Round(a, s).Next? && s.sp < |a.pat| { RoundsBegin(a, Round(a, s).s); }
  }

  /** So the buffer then shows that there is a pattern. */
  lemma ProgramBegins(a: Args, before: bool)
    ensures Compile(a, before).Program? ==> Begins(Compile(a, before).code)
  {
    hide Rounds;
    RoundsBegin(a, Initial(true));
    RoundsBegin(a, Initial(false));
  }
}
