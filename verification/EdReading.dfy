/**
 compile reads a pattern as it is spelled: round by round it appends the bytes of the next element,
 and stops with the error number the pattern deserves, if any.
 */
module EdReading {
  import opened EdProgram
  import opened EdAdvance
  import opened EdCompile
  import opened EdSpelling

  // ----- brackets -----

  /** One item read; full is whether there is no room for a wide bitmap. */
  lemma ItemRead(pat: seq<byte>, at: nat, lc: byte, b: Bracket, items: seq<Item>, end: nat, full: bool)
    requires items != [] && ItemsAt(pat, at, lc, items, end) && (full && !b.wide ==> !High(ItemLast(items[0])))
    ensures var d := AddItem(items[0], lc, b);
            Member(pat, pat[at], at + 1, lc, b, full) ==
            if items[0] == Single(DASH) && lc != 0 then DashEnd(d) else DashTo(ItemLast(items[0]), d)
  {
  }

  lemma NextItem(pat: seq<byte>, at: nat, lc: byte, items: seq<Item>, end: nat)
    requires items != [] && ItemsAt(pat, at, lc, items, end) && !(items[0] == Single(DASH) && lc != 0)
    ensures var next := at + if IsDash(pat[at], lc) then 2 else 1;
            && next < |pat| && ItemsAt(pat, next, ItemLast(items[0]), items[1..], end)
            && (pat[next] == RBRACKET <==> items[1..] == [])
  {
    var next := at + if IsDash(pat[at], lc) then 2 else 1;
    assert items[0].To? <==> IsDash(pat[at], lc);
    assert ItemsAt(pat, next, ItemLast(items[0]), items[1..], end);
  }

  lemma {:induction false} ItemsRead(pat: seq<byte>, at: nat, lc: byte, b: Bracket, items: seq<Item>, end: nat,
                                     full: bool)
    requires items != [] && ItemsAt(pat, at, lc, items, end) && (full && !b.wide ==> !AnyHigh(items))
    ensures Brackets(pat, pat[at], at + 1, lc, b, full) == BracketDone(AddItems(items, lc, b), end)
    decreases |items|
  {
    AnyHighCons(items);
    ItemRead(pat, at, lc, b, items, end, full);
    if items[0] == Single(DASH) && lc != 0 {
      assert items[1..] == [];
    } else {
      NextItem(pat, at, lc, items, end);
      if items[1..] != [] {
        var next := at + if IsDash(pat[at], lc) then 2 else 1;
        ItemsRead(pat, next, ItemLast(items[0]), AddItem(items[0], lc, b), items[1..], end, full);
      }
    }
  }

  /** Without room for a wide bitmap, the first character with the top bit is an error. */
  lemma {:induction false} ItemsTooWide(pat: seq<byte>, at: nat, lc: byte, b: Bracket, items: seq<Item>, end: nat)
    requires items != [] && ItemsAt(pat, at, lc, items, end) && !b.wide && AnyHigh(items)
    ensures Brackets(pat, pat[at], at + 1, lc, b, true) == BadBracket(Code(50))
    decreases |items|
  {
    AnyHighCons(items);
    if !High(ItemLast(items[0])) {
      ItemRead(pat, at, lc, b, items, end, true);
      NextItem(pat, at, lc, items, end);
      var next := at + if IsDash(pat[at], lc) then 2 else 1;
      ItemsTooWide(pat, next, ItemLast(items[0]), AddItem(items[0], lc, b), items[1..], end);
    }
  }

  // ----- one round of compile -----

  /** The state after a piece: its bytes are in the program and lastep points at them. */
  function After(s: State, sp: nat, c: seq<byte>): State {
    s.(sp := sp, code := s.code + c, lastep := |s.code|)
  }

  lemma AtomShape(x: OneChar)
    ensures AtomFits(AtomOf(x)) && |AtomCode(AtomOf(x))| == CharSize(x)
  {
    if x.Class? { ItemsHave(x.items, 0, Bracket(Blank, false), 0); }
  }

  lemma BracketRead(a: Args, s: State, neg: bool, items: seq<Item>, at: nat, end: nat)
    requires StateOk(s.(lastep := -1)) && s.lastep == |s.code| && items != [] && ItemsAt(a.pat, at, 0, items, end)
    ensures ClassRead(a, s, neg, at)
         == if AnyHigh(items) && |s.code| + 33 >= a.room then Failed(Code(50))
            else Next(After(s, end, AtomCode(AtomOf(Class(neg, items)))))
  {
    var full := |s.code| + 1 + 32 >= a.room;
    if AnyHigh(items) && full {
      ItemsTooWide(a.pat, at, 0, Bracket(Blank, false), items, end);
    } else {
      ItemsRead(a.pat, at, 0, Bracket(Blank, false), items, end, full);
      var m := Finish(AddItems(items, 0, Bracket(Blank, false)), neg);
      assert s.code + [m.kind] + m.bits == s.code + ([m.kind] + m.bits);
    }
  }

  lemma ClassOpens(a: Args, s: State, neg: bool, at: nat)
    requires StateOk(s.(lastep := -1)) && s.lastep == |s.code| && at == (if neg then s.sp + 1 else s.sp) && at < |a.pat|
    requires a.pat[s.sp] == CARET <==> neg
    ensures OpenBracket(a, s) == ClassRead(a, s, neg, at)
  {
  }

  /** A state that the place of the next piece describes. */
  predicate AtPlace(s: State, place: Place) {
    match place
    case First => s.lastep < 0
    case AfterMark => 0 <= s.lastep < |s.code| && (s.code[s.lastep] == CBRA || s.code[s.lastep] == CKET)
    case Elsewhere => true
  }

  lemma RoundClass(a: Args, s: State, neg: bool, items: seq<Item>, end: nat, place: Place)
    requires StateOk(s) && |s.code| < a.room && CharAt(a.pat, s.sp, Class(neg, items), end, a.eof, place)
    ensures Round(a, s)
         == if CharRoom(Class(neg, items), |s.code|, a.room).None? then Next(After(s, end,
             AtomCode(AtomOf(Class(neg, items)))))
            else Failed(Code(50))
  {
    var here := s.(sp := s.sp + 1, lastep := |s.code|);
    var at := if neg then s.sp + 2 else s.sp + 1;
    if |s.code| + 17 < a.room {
      assert Round(a, s) == OpenBracket(a, here);
      ClassOpens(a, here, neg, at);
      BracketRead(a, here, neg, items, at, end);
    }
  }

  lemma RoundLit(a: Args, s: State, c: byte, end: nat, place: Place)
    requires StateOk(s) && |s.code| < a.room && CharAt(a.pat, s.sp, Lit(c), end, a.eof, place) && AtPlace(s, place)
    ensures Round(a, s) == if NoRoom(a, s) then Failed(Behind) else Next(After(s, end, [CCHR, c]))
  {
    hide Interval, OpenGroup, CloseGroup, OpenBracket;
  }

  lemma CharRead(a: Args, s: State, x: OneChar, end: nat, place: Place)
    requires StateOk(s) && |s.code| < a.room && CharAt(a.pat, s.sp, x, end, a.eof, place) && AtPlace(s, place)
    ensures Round(a, s)
         == match CharRoom(x, |s.code|, a.room)
            case None => Next(After(s, end, AtomCode(AtomOf(x))))
            case Some(e) => Failed(e)
  {
    match x
    case Lit(c) => RoundLit(a, s, c, end, place);
    case Dot =>
    case Class(neg, items) => RoundClass(a, s, neg, items, end, place);
  }

  // ----- counts -----

  lemma CloseRead(a: Args, s: State, two: bool)
    requires StateOk(s) && |s.code| >= 2 && s.sp < |a.pat| && a.pat[s.sp] == RBRACE
    requires if two then s.code[|s.code| - 2] <= s.code[|s.code| - 1] else |s.code| < a.room
    ensures CloseInterval(a, s, two)
         == Next(s.(sp := s.sp + 1, code := if two then s.code else s.code + [s.code[|s.code| - 1]]))
  {
  }

  lemma ExactlyRead(a: Args, s: State, n: nat, at: nat)
    requires StateOk(s) && s.code != [] && n < 255
    requires Digits(a.pat, s.sp, 0) == Number(n, BACKSLASH, at) && at < |a.pat| && a.pat[at] == RBRACE
    ensures Interval(a, s) ==
            if NoRoom(a, s) then Failed(Behind) else Next(s.(sp := at + 1, code := s.code + [Byte(n), Byte(n)]))
  {
    var s1 := s.(sp := at, code := s.code + [Byte(n)]);
    assert s1.code + [Byte(n)] == s.code + [Byte(n), Byte(n)];
  }

  lemma AtLeastRead(a: Args, s: State, n: nat, at: nat)
    requires StateOk(s) && s.code != [] && n < 255
    requires Digits(a.pat, s.sp, 0) == Number(n, COMMA, at) && at + 1 < |a.pat| && a.pat[at] == BACKSLASH &&
             a.pat[at + 1] == RBRACE
    ensures Interval(a, s) ==
            if NoRoom(a, s) then Failed(Behind) else Next(s.(sp := at + 2, code := s.code + [Byte(n), 255]))
  {
    var s1 := s.(sp := at, code := s.code + [Byte(n)]);
    assert s1.code + [255] == s.code + [Byte(n), 255];
    if !NoRoom(a, s) { CloseRead(a, s1.(sp := s1.sp + 1, code := s1.code + [255]), true); }
  }

  lemma SecondRead(a: Args, s: State, hi: nat, at: nat)
    requires StateOk(s) && s.code != [] && hi < 255 && s.code[|s.code| - 1] <= Byte(hi)
    requires Digits(a.pat, s.sp, 0) == Number(hi, BACKSLASH, at) && at < |a.pat| && a.pat[at] == RBRACE
    ensures SecondNumber(a, s) ==
            if |s.code| >= a.room then Failed(Behind) else Next(s.(sp := at + 1, code := s.code + [Byte(hi)]))
  {
    if |s.code| < a.room { CloseRead(a, s.(sp := at, code := s.code + [Byte(hi)]), true); }
  }

  lemma {:induction false} ByteOrder(i: nat, j: nat)
    requires i <= j < 256
    ensures Byte(i) <= Byte(j)
  {
    NumByte(i);
    NumByte(j);
    NumIs(Byte(i));
    NumIs(Byte(j));
  }

  lemma BetweenRead(a: Args, s: State, lo: nat, hi: nat, at: nat, at2: nat)
    requires StateOk(s) && s.code != [] && lo <= hi < 255
    requires Digits(a.pat, s.sp, 0) == Number(lo, COMMA, at) && at < |a.pat| && a.pat[at] != BACKSLASH
    requires Digits(a.pat, at, 0) == Number(hi, BACKSLASH, at2) && at2 < |a.pat| && a.pat[at2] == RBRACE
    ensures Interval(a, s) ==
            if NoRoom(a, s) then Failed(Behind) else Next(s.(sp := at2 + 1, code := s.code + [Byte(lo), Byte(hi)]))
  {
    var s1 := s.(sp := at, code := s.code + [Byte(lo)]);
    ByteOrder(lo, hi);
    SecondRead(a, s1, hi, at2);
    assert s1.code + [Byte(hi)] == s.code + [Byte(lo), Byte(hi)];
  }

  /** Digits followed by a backslash or a comma. */
  lemma {:induction false} DigitsRead(pat: seq<byte>, at: nat, i: nat, ds: seq<byte>, last: byte)
    requires Digital(ds) && (last == BACKSLASH || last == COMMA) && Stands(pat, at, ds) && IsAt(pat, at + |ds|, last)
    ensures Digits(pat, at, i) == Number(Value(i, ds), last, at + |ds| + 1)
    decreases |ds|
  {
    assert pat[at] == pat[at..at + |ds|][0];
    if |ds| > 1 {
      assert pat[at + 1] == pat[at..at + |ds|][1];
      assert pat[at + 1..at + |ds|] == pat[at..at + |ds|][1..];
      DigitsRead(pat, at + 1, 10 * i + Num(ds[0] - ZERO), ds[1..], last);
    }
  }

  predicate IsRange(q: Count) {
    q != Once && q != Count.Star
  }

  function CountBytes(q: Count): seq<byte>
    requires IsRange(q)
  {
    match q
    case Exactly(n) => [Byte(Value(0, n)), Byte(Value(0, n))]
    case AtLeast(n) => [Byte(Value(0, n)), 255]
    case Between(lo, hi) => [Byte(Value(0, lo)), Byte(Value(0, hi))]
  }

  /** The bytes of a counted atom. */
  function Counted(ac: seq<byte>, q: Count): (r: seq<byte>)
    requires ac != []
    ensures r != []
  {
    if q == Once then ac
    else if q == Count.Star then ac[0 := ac[0] | STAR]
    else ac[0 := ac[0] | RNGE] + CountBytes(q)
  }

  lemma CountedIs(atom: Atom, q: Count)
    requires AtomFits(atom) && CountOk(q)
    ensures IsCode(CharElem(atom, q), Counted(AtomCode(atom), q))
  {
    NumIs(255);
    match q
    case Once =>
    case Star =>
    case Exactly(n) => NumByte(Value(0, n));
    case AtLeast(n) => NumByte(Value(0, n));
    case Between(lo, hi) =>
      NumByte(Value(0, lo));
      NumByte(Value(0, hi));
  }

  lemma RangeOpens(a: Args, s: State, ac: seq<byte>, sp: nat)
    requires StateOk(s) && ac != [] && |s.code + ac| < a.room && Escaped(a.pat, sp, LBRACE) && a.eof != BACKSLASH
    ensures Round(a, After(s, sp, ac)) == Interval(a, After(s, sp + 2, ac[0 := ac[0] | RNGE]))
  {
    hide Interval, Plain, Stars, OpenGroup, CloseGroup, DefChar;
    assert (s.code + ac)[|s.code| := ac[0] | RNGE] == s.code + ac[0 := ac[0] | RNGE];
  }

  lemma StarRead(a: Args, s: State, atom: Atom, sp: nat)
    requires StateOk(s) && AtomFits(atom) && |s.code + AtomCode(atom)| < a.room
    requires sp < |a.pat| && a.pat[sp] == ASTERISK && a.eof != ASTERISK
    ensures Round(a, After(s, sp, AtomCode(atom))) == Next(After(s, sp + 1, Counted(AtomCode(atom), Count.Star)))
  {
    var ac := AtomCode(atom);
    assert ac[0] != CBRA && ac[0] != CKET;
    assert (s.code + ac)[|s.code| := ac[0] | STAR] == s.code + ac[0 := ac[0] | STAR];
  }

  lemma RangeCountRead(a: Args, s: State, ac: seq<byte>, q: Count, sp: nat, end: nat)
    requires StateOk(s) && ac != [] && IsRange(q) && |s.code + ac| < a.room && CountAt(a.pat, sp, q, end, a.eof)
    ensures Round(a, After(s, sp, ac)) ==
            if |s.code + ac| + 1 >= a.room then Failed(Behind) else Next(After(s, end, Counted(ac, q)))
  {
    hide Interval, Round, AtomCode;
    RangeOpens(a, s, ac, sp);
    var s1 := After(s, sp + 2, ac[0 := ac[0] | RNGE]);
    CountInner(a, s1, q, end);
    assert s1.code + CountBytes(q) == s.code + Counted(ac, q);
  }

  /** More stars change nothing. */
  lemma StarAgain(a: Args, s: State, atom: Atom, sp: nat)
    requires StateOk(s) && AtomFits(atom) && |s.code + AtomCode(atom)| < a.room
    requires sp < |a.pat| && a.pat[sp] == ASTERISK && a.eof != ASTERISK
    ensures Round(a, After(s, sp, Counted(AtomCode(atom), Count.Star))) ==
            Next(After(s, sp + 1, Counted(AtomCode(atom), Count.Star)))
  {
    var ac := AtomCode(atom);
    var c := Counted(ac, Count.Star);
    assert c[0] != CBRA && c[0] != CKET && c[0] | STAR == c[0];
    assert (s.code + c)[|s.code| := c[0] | STAR] == s.code + c;
  }

  lemma {:induction false} StarsRead(a: Args, s: State, atom: Atom, sp: nat, end: nat)
    requires StateOk(s) && AtomFits(atom) && |s.code + AtomCode(atom)| < a.room && a.eof != ASTERISK
    requires sp <= end <= |a.pat| && forall k | sp <= k < end :: a.pat[k] == ASTERISK
    ensures var c := Counted(AtomCode(atom), Count.Star);
            StateOk(After(s, sp, c)) && StateOk(After(s, end, c)) &&
                Rounds(a, After(s, sp, c)) == Rounds(a, After(s, end, c))
    decreases end - sp
  {
    hide Rounds, Round, Counted;
    if sp < end {
      var c := Counted(AtomCode(atom), Count.Star);
      StarAgain(a, s, atom, sp);
      RoundsNext(a, After(s, sp, c), After(s, sp + 1, c));
      StarsRead(a, s, atom, sp + 1, end);
    }
  }

  lemma CountRead(a: Args, s: State, atom: Atom, q: Count, sp: nat, end: nat)
    requires StateOk(s) && AtomFits(atom) && q != Once && |s.code + AtomCode(atom)| < a.room
    requires CountAt(a.pat, sp, q, end, a.eof)
    ensures var ac := AtomCode(atom);
            && StateOk(After(s, sp, ac)) && StateOk(After(s, end, Counted(ac, q)))
            && Rounds(a, After(s, sp, ac)) ==
               if q != Count.Star && |s.code + ac| + 1 >= a.room then Failed(Behind)
               else Rounds(a, After(s, end, Counted(ac, q)))
  {
    hide Rounds, Round;
    var ac := AtomCode(atom);
    if q == Count.Star {
      StarRead(a, s, atom, sp);
      RoundsNext(a, After(s, sp, ac), After(s, sp + 1, Counted(ac, q)));
      StarsRead(a, s, atom, sp + 1, end);
    } else {
      RangeCountRead(a, s, ac, q, sp, end);
      if |s.code + ac| + 1 < a.room {
        RoundsNext(a, After(s, sp, ac), After(s, end, Counted(ac, q)));
      } else {
        RoundsFail(a, After(s, sp, ac), Behind);
      }
    }
  }

  lemma CountInner(a: Args, s: State, q: Count, end: nat)
    requires StateOk(s) && s.code != [] && IsRange(q) && s.sp >= 2 && CountAt(a.pat, s.sp - 2, q, end, a.eof)
    ensures Interval(a, s) ==
            if NoRoom(a, s) then Failed(Behind) else Next(s.(sp := end, code := s.code + CountBytes(q)))
  {
    match q {
      case Exactly(n) =>
        DigitsRead(a.pat, s.sp, 0, n, BACKSLASH);
        ExactlyRead(a, s, Value(0, n), s.sp + |n| + 1);
      case AtLeast(n) =>
        DigitsRead(a.pat, s.sp, 0, n, COMMA);
        AtLeastRead(a, s, Value(0, n), s.sp + |n| + 1);
      case Between(lo, hi) => BetweenInner(a, s, lo, hi, end);
    }
  }

  lemma BetweenInner(a: Args, s: State, lo: seq<byte>, hi: seq<byte>, end: nat)
    requires StateOk(s) && s.code != [] && s.sp >= 2 && CountAt(a.pat, s.sp - 2, Between(lo, hi), end, a.eof)
    ensures Interval(a, s) ==
            if NoRoom(a, s) then Failed(Behind)
            else Next(s.(sp := end, code := s.code + CountBytes(Between(lo, hi))))
  {
    var at := s.sp + |lo| + 1;
    DigitsRead(a.pat, s.sp, 0, lo, COMMA);
    DigitsRead(a.pat, at, 0, hi, BACKSLASH);
    assert a.pat[at] == hi[0] by { assert a.pat[at..at + |hi|][0] == hi[0]; }
    BetweenRead(a, s, Value(0, lo), Value(0, hi), at, at + |hi| + 1);
  }

  // ----- a whole pattern -----

  /** nbra, bracket and closed say what the groups so far are. */
  ghost predicate Tracks(s: State, g: Groups) {
    && s.nbra == g.begun && s.closed == g.closed && |s.bracket| == |g.stack|
    && forall k | 0 <= k < |g.stack| :: Num(s.bracket[k]) == g.stack[k]
  }

  lemma RoundsNext(a: Args, s: State, s': State)
    requires StateOk(s) && Round(a, s) == Next(s')
    ensures StateOk(s') && Rounds(a, s) == Rounds(a, s')
  {
  }

  lemma RoundsFail(a: Args, s: State, e: Error)
    requires StateOk(s) && Round(a, s) == Failed(e)
    ensures Rounds(a, s) == Failed(e)
  {
  }

  /** A round that starts without room fails. */
  lemma RoundsFull(a: Args, s: State)
    requires StateOk(s) && |s.code| >= a.room
    ensures Rounds(a, s) == Failed(Code(50))
  {
  }

  lemma CharPiece(a: Args, s: State, x: OneChar, q: Count, mid: nat, end: nat, place: Place) returns (c: seq<byte>)
    requires StateOk(s) && |s.code| < a.room && AtPlace(s, place)
    requires CharAt(a.pat, s.sp, x, mid, a.eof, place) && CountAt(a.pat, mid, q, end, a.eof)
    ensures match PieceRoom(Char(x, q), |s.code|, a.room)
            case None => StateOk(After(s, end, c)) && Rounds(a, s) == Rounds(a, After(s, end, c))
            case Some(e) => Rounds(a, s) == Failed(e)
    ensures |c| == PieceSize(Char(x, q)) && IsCode(CharElem(AtomOf(x), q), c)
  {
    var atom := AtomOf(x);
    AtomShape(x);
    CharRead(a, s, x, mid, place);
    c := Counted(AtomCode(atom), q);
    CountedIs(atom, q);
    if CharRoom(x, |s.code|, a.room).None? {
      RoundsNext(a, s, After(s, mid, AtomCode(atom)));
      if q != Once {
        if |s.code| + CharSize(x) < a.room {
          CountRead(a, s, atom, q, mid, end);
        } else {
          RoundsFull(a, After(s, mid, AtomCode(atom)));
        }
      }
    }
  }

  lemma OpenPiece(a: Args, s: State, g: Groups)
    requires StateOk(s) && |s.code| < a.room && Tracks(s, g) && Escaped(a.pat, s.sp, LPAREN) && a.eof != BACKSLASH
    ensures if g.begun >= NBRA then Rounds(a, s) == Failed(Code(43))
            else if NoRoom(a, s) then Rounds(a, s) == Failed(Behind)
            else
              var s' := After(s, s.sp + 2, [CBRA, Byte(g.begun)]).(nbra := s.nbra + 1,
                  bracket := s.bracket + [Byte(s.nbra)]);
              && StateOk(s') && Rounds(a, s) == Rounds(a, s') && IsCode(Open(g.begun), [CBRA, Byte(g.begun)])
              && Tracks(s', Begun(g)) && AtPlace(s', AfterMark)
  {
    if g.begun < NBRA && !NoRoom(a, s) {
      NumByte(g.begun);
      var s' := After(s, s.sp + 2, [CBRA, Byte(g.begun)]).(nbra := s.nbra + 1, bracket := s.bracket + [Byte(s.nbra)]);
      RoundsNext(a, s, s');
    }
  }

  lemma ClosePiece(a: Args, s: State, g: Groups)
    requires StateOk(s) && |s.code| < a.room && Tracks(s, g) && Escaped(a.pat, s.sp, RPAREN) && a.eof != BACKSLASH
    ensures if g.stack == [] then Rounds(a, s) == Failed(Code(42))
            else if NoRoom(a, s) then Rounds(a, s) == Failed(Behind)
            else
              var top := |g.stack| - 1;
              var s' := After(s, s.sp + 2, [CKET, s.bracket[top]]).(bracket := s.bracket[..top],
                  closed := s.closed + 1);
              && StateOk(s') && Rounds(a, s) == Rounds(a, s') && IsCode(Close(g.stack[top]), [CKET, s.bracket[top]])
              && Tracks(s', Ended(g)) && AtPlace(s', AfterMark)
  {
    if g.stack != [] && !NoRoom(a, s) {
      var top := |g.stack| - 1;
      var s' := After(s, s.sp + 2, [CKET, s.bracket[top]]).(bracket := s.bracket[..top], closed := s.closed + 1);
      RoundsNext(a, s, s');
    }
  }

  lemma BackPiece(a: Args, s: State, g: Groups, k: nat)
    requires StateOk(s) && |s.code| < a.room && Tracks(s, g) && k < 9 && Escaped(a.pat, s.sp, ONE + Byte(k)) &&
             a.eof != BACKSLASH
    ensures if k >= g.closed then Rounds(a, s) == Failed(Code(25))
            else if NoRoom(a, s) then Rounds(a, s) == Failed(Behind)
            else
              var s' := After(s, s.sp + 2, [CBACK, Byte(k)]);
              StateOk(s') && Rounds(a, s) == Rounds(a, s') && IsCode(Back(k), [CBACK, Byte(k)])
  {
    NumByte(k);
    NumIs(Byte(k));
    BackDigit(Byte(k));
    if k < g.closed && !NoRoom(a, s) {
      RoundsNext(a, s, After(s, s.sp + 2, [CBACK, Byte(k)]));
    }
  }

  lemma BackDigit(b: byte)
    requires b as int < 9
    ensures ONE <= ONE + b <= NINE && ONE + b - ONE == b
  {
  }

  lemma EndPiece(a: Args, s: State)
    requires StateOk(s) && |s.code| < a.room && IsAt(a.pat, s.sp, DOLLAR) && a.eof != DOLLAR
    requires IsAt(a.pat, s.sp + 1, a.eof) || IsAt(a.pat, s.sp + 1, NEWLINE)
    ensures StateOk(After(s, s.sp + 1, [CDOL])) && Rounds(a, s) == Rounds(a, After(s, s.sp + 1, [CDOL]))
  {
    RoundsNext(a, s, After(s, s.sp + 1, [CDOL]));
  }

  /** The delimiter, or the newline that may stand for it. */
  predicate Ends(a: Args, end: nat) {
    IsAt(a.pat, end, a.eof) || (IsAt(a.pat, end, NEWLINE) && !a.sed)
  }

  /** What the rounds from s on leave is code whose elements after all[..i] are those of o. */
  ghost predicate Leaves(r: Step, s: State, all: seq<Elem>, i: nat) {
    r.Return? && s.code <= r.code && Decodes(r.code, |s.code|, all, i)
  }

  lemma LeavesStep(r: Step, s: State, s': State, c: seq<byte>, all: seq<Elem>, i: nat)
    requires i + 1 < |all| && s'.code == s.code + c && IsCode(all[i], c) && Leaves(r, s', all, i + 1)
    ensures Leaves(r, s, all, i)
  {
    assert r.code[|s.code|..|s.code| + |c|] == c by {
      assert r.code[..|s'.code|] == s'.code;
      assert s'.code[|s.code|..] == c;
    }
    DecodesStep(r.code, |s.code|, all, i, c);
  }

  /** What Elements says of the rest of the pattern, compile does. */
  ghost predicate Follows(r: Step, s: State, o: Outcome, pre: seq<Elem>) {
    match o
    case Rejected(e) => r == Failed(e)
    case Accepted(prog) => Leaves(r, s, pre + prog, |pre|)
  }

  lemma FollowsStep(r: Step, s: State, s': State, c: seq<byte>, e: Elem, o: Outcome, pre: seq<Elem>)
    requires s'.code == s.code + c && IsCode(e, c) && Follows(r, s', o, pre + [e])
    requires o.Accepted? ==> o.prog != []
    ensures Follows(r, s, Prepend(e, o), pre)
  {
    if o.Accepted? {
      assert pre + [e] + o.prog == pre + ([e] + o.prog);
      LeavesStep(r, s, s', c, pre + ([e] + o.prog), |pre|);
    }
  }

  lemma {:induction false} BoundedNotEmpty(ps: seq<Piece>, g: Groups, used: nat, room: nat)
    ensures Bounded(ps, g, used, room).Accepted? ==> Bounded(ps, g, used, room).prog != []
  {
  }

  lemma EndRead(a: Args, s: State, g: Groups, end: nat, pre: seq<Elem>)
    requires StateOk(s) && Tracks(s, g) && s.sp == end && Ends(a, end) && EofOk(a.eof)
    ensures Follows(Rounds(a, s), s, Bounded([], g, |s.code|, a.room), pre)
  {
    if g.stack == [] && |s.code| < a.room {
      var r := s.code + [CCEOF];
      assert Rounds(a, s) == Return(r);
      assert r[|s.code|..|s.code| + 1] == [CCEOF];
      DecodesStep(r, |s.code|, pre + [End], |pre|, [CCEOF]);
    }
  }

  /** Delimiters that are not read as something else first. */
  predicate EofOk(eof: byte) {
    eof != BACKSLASH && eof != ASTERISK
  }

  /** From s on the text spells ps, and ends. */
  ghost predicate Rest(a: Args, s: State, ps: seq<Piece>, g: Groups, end: nat, place: Place) {
    StateOk(s) && Tracks(s, g) && AtPlace(s, place) && PiecesAt(a.pat, s.sp, ps, end, a.eof, place) && Ends(a, end) &&
        EofOk(a.eof)
  }

  lemma {:induction false} PiecesRead(a: Args, s: State, ps: seq<Piece>, g: Groups, end: nat, place: Place,
                                      pre: seq<Elem>)
    requires Rest(a, s, ps, g, end, place)
    ensures Follows(Rounds(a, s), s, Bounded(ps, g, |s.code|, a.room), pre)
    decreases |ps|, 2
  {
    if ps == [] {
      EndRead(a, s, g, end, pre);
    } else if |s.code| >= a.room {
      RoundsFull(a, s);
    } else {
      var mid: nat :| PieceAt(a.pat, s.sp, ps[0], mid, a.eof, place) &&
          PiecesAt(a.pat, mid, ps[1..], end, a.eof, PlaceAfter(ps[0]));
      match ps[0]
      case Char(x, q) => CharMore(a, s, ps, g, mid, end, place, pre);
      case GroupStart =>
        OpenPiece(a, s, g);
        if g.begun < NBRA && !NoRoom(a, s) { OpenMore(a, s, ps, g, mid, end, place, pre); }
      case GroupEnd =>
        ClosePiece(a, s, g);
        if g.stack != [] && !NoRoom(a, s) { CloseMore(a, s, ps, g, mid, end, place, pre); }
      case BackRef(k) =>
        BackPiece(a, s, g, k);
        if k < g.closed && !NoRoom(a, s) { BackMore(a, s, ps, g, mid, end, place, pre); }
      case LineEnd => DollarMore(a, s, ps, g, mid, end, place, pre);
    }
  }

  /** ps[0] stands before mid and the rest after it, and there is room for a round. */
  ghost predicate Head(a: Args, s: State, ps: seq<Piece>, g: Groups, mid: nat, end: nat, place: Place) {
    && ps != [] && StateOk(s) && Tracks(s, g) && AtPlace(s, place) && |s.code| < a.room
    && PieceAt(a.pat, s.sp, ps[0], mid, a.eof, place) && PiecesAt(a.pat, mid, ps[1..], end, a.eof, PlaceAfter(ps[0]))
    && Ends(a, end) && EofOk(a.eof)
  }

  lemma {:induction false} CharMore(a: Args, s: State, ps: seq<Piece>, g: Groups, mid: nat, end: nat, place: Place,
                                    pre: seq<Elem>)
    requires Head(a, s, ps, g, mid, end, place) && ps[0].Char?
    ensures Follows(Rounds(a, s), s, Bounded(ps, g, |s.code|, a.room), pre)
    decreases |ps|, 1
  {
    hide Rounds, PiecesAt, CharAt, CountAt, IsCode, Leaves;
    var x, q := ps[0].x, ps[0].q;
    var m: nat :| CharAt(a.pat, s.sp, x, m, a.eof, place) && CountAt(a.pat, m, q, mid, a.eof);
    var c := CharPiece(a, s, x, q, m, mid, place);
    if PieceRoom(ps[0], |s.code|, a.room).None? {
      MoreRead(a, s, After(s, mid, c), c, CharElem(AtomOf(x), q), ps[1..], g, end, Elsewhere, pre);
    }
  }

  lemma {:induction false} OpenMore(a: Args, s: State, ps: seq<Piece>, g: Groups, mid: nat, end: nat, place: Place,
                                    pre: seq<Elem>)
    requires Head(a, s, ps, g, mid, end, place) && ps[0] == GroupStart && g.begun < NBRA && !NoRoom(a, s)
    ensures Follows(Rounds(a, s), s, Bounded(ps, g, |s.code|, a.room), pre)
    decreases |ps|, 1
  {
    hide Rounds, PiecesAt, CharAt, CountAt, IsCode, Follows;
    var c := [CBRA, Byte(g.begun)];
    var s' := After(s, mid, c).(nbra := s.nbra + 1, bracket := s.bracket + [Byte(s.nbra)]);
    OpenPiece(a, s, g);
    MoreRead(a, s, s', c, Open(g.begun), ps[1..], Begun(g), end, AfterMark, pre);
  }

  lemma {:induction false} CloseMore(a: Args, s: State, ps: seq<Piece>, g: Groups, mid: nat, end: nat, place: Place,
                                     pre: seq<Elem>)
    requires Head(a, s, ps, g, mid, end, place) && ps[0] == GroupEnd && g.stack != [] && !NoRoom(a, s)
    ensures Follows(Rounds(a, s), s, Bounded(ps, g, |s.code|, a.room), pre)
    decreases |ps|, 1
  {
    hide Rounds, PiecesAt, CharAt, CountAt, IsCode, Follows;
    var top := |g.stack| - 1;
    var c := [CKET, s.bracket[top]];
    var s' := After(s, mid, c).(bracket := s.bracket[..top], closed := s.closed + 1);
    ClosePiece(a, s, g);
    MoreRead(a, s, s', c, Close(g.stack[top]), ps[1..], Ended(g), end, AfterMark, pre);
  }

  lemma {:induction false} BackMore(a: Args, s: State, ps: seq<Piece>, g: Groups, mid: nat, end: nat, place: Place,
                                    pre: seq<Elem>)
    requires Head(a, s, ps, g, mid, end, place) && ps[0].BackRef? && ps[0].k < g.closed && !NoRoom(a, s)
    ensures Follows(Rounds(a, s), s, Bounded(ps, g, |s.code|, a.room), pre)
    decreases |ps|, 1
  {
    hide Rounds, PiecesAt, CharAt, CountAt, IsCode, Follows;
    var k := ps[0].k;
    var c := [CBACK, Byte(k)];
    BackPiece(a, s, g, k);
    MoreRead(a, s, After(s, mid, c), c, Back(k), ps[1..], g, end, Elsewhere, pre);
  }

  lemma {:induction false} DollarMore(a: Args, s: State, ps: seq<Piece>, g: Groups, mid: nat, end: nat, place: Place,
                                      pre: seq<Elem>)
    requires Head(a, s, ps, g, mid, end, place) && ps[0] == LineEnd
    ensures Follows(Rounds(a, s), s, Bounded(ps, g, |s.code|, a.room), pre)
    decreases |ps|, 1
  {
    hide Rounds, PiecesAt, CharAt, CountAt, Follows;
    EndPiece(a, s);
    MoreRead(a, s, After(s, mid, [CDOL]), [CDOL], Dollar, ps[1..], g, end, Elsewhere, pre);
  }

  /** One piece has been read as e, with the bytes c; s' is the state after it, and g the groups. */
  lemma {:induction false} MoreRead(a: Args, s: State, s': State, c: seq<byte>, e: Elem, rest: seq<Piece>, g: Groups,
                                    end: nat, place: Place, pre: seq<Elem>)
    requires StateOk(s) && Rest(a, s', rest, g, end, place) && Rounds(a, s) == Rounds(a, s') && s'.code == s.code + c &&
             IsCode(e, c)
    ensures Follows(Rounds(a, s), s, Prepend(e, Bounded(rest, g, |s.code| + |c|, a.room)), pre)
    decreases |rest| + 1, 0
  {
    hide Rounds, PiecesAt, Bounded, Decodes;
    var r, o := Rounds(a, s'), Bounded(rest, g, |s'.code|, a.room);
    assert Follows(r, s', o, pre + [e]) by { PiecesRead(a, s', rest, g, end, place, pre + [e]); }
    assert o.Accepted? ==> o.prog != [] by { BoundedNotEmpty(rest, g, |s'.code|, a.room); }
    FollowsStep(r, s, s', c, e, o, pre);
  }
}
