/**
 What the patterns compile reads mean: the pieces of a basic regular expression, how each is
 spelled, and the proof that compile leaves a program whose elements are those pieces.
 */
module EdSpelling {
  import opened EdProgram
  import opened EdAdvance
  import opened EdCompile

  // ----- patterns -----

  /** A character, or a dash and the end of a range that begins with the character before. */
  datatype Item = Single(c: byte) | To(hi: byte)

  /** What stands for one character. */
  datatype OneChar = Lit(c: byte) | Dot | Class(neg: bool, items: seq<Item>)

  /** Numbers are the digits they are spelled with. */
  datatype Count = Once | Star | Exactly(n: seq<byte>) | AtLeast(n: seq<byte>) | Between(lo: seq<byte>, hi: seq<byte>)

  /** BackRef(0) is \1. */
  datatype Piece = Char(x: OneChar, q: Count) | GroupStart | GroupEnd | BackRef(k: nat) | LineEnd

  /** lc is the last character before the item; a range downwards adds its end only. */
  predicate InItem(i: Item, lc: byte, c: byte) {
    match i
    case Single(d) => c == d
    case To(hi) => lc <= c < hi || c == hi
  }

  function ItemLast(i: Item): byte {
    if i.Single? then i.c else i.hi
  }

  predicate InItems(items: seq<Item>, lc: byte, c: byte)
    decreases |items|
  {
    items != [] && (InItem(items[0], lc, c) || InItems(items[1..], ItemLast(items[0]), c))
  }

  /** The characters of a line that x stands for. */
  predicate Denotes(x: OneChar, c: byte) {
    match x
    case Lit(d) => c == d
    case Dot => c != 0
    case Class(neg, items) => c != 0 && neg != InItems(items, 0, c)
  }

  // ----- spelling -----

  /** t stands in pat at at. */
  predicate Stands(pat: seq<byte>, at: nat, t: seq<byte>) {
    at + |t| <= |pat| && pat[at..at + |t|] == t
  }

  predicate IsAt(pat: seq<byte>, at: nat, c: byte) {
    at < |pat| && pat[at] == c
  }

  /** A backslash and c. */
  predicate Escaped(pat: seq<byte>, at: nat, c: byte) {
    IsAt(pat, at, BACKSLASH) && IsAt(pat, at + 1, c)
  }

  /**
   Items up to the closing bracket, which is before end. A bracket and a dash are only themselves
   first; a dash is itself last as well. lc is the character before, 0 at the start.
   */
  predicate ItemsAt(pat: seq<byte>, at: nat, lc: byte, items: seq<Item>, end: nat)
    decreases |items|
  {
    if items == [] then IsAt(pat, at, RBRACKET) && end == at + 1
    else
      match items[0]
      case Single(c) =>
        && IsAt(pat, at, c) && c != 0 && c != NEWLINE
        && (lc != 0 ==> c != RBRACKET && (c == DASH ==> items == [Single(DASH)]))
        && ItemsAt(pat, at + 1, c, items[1..], end)
      case To(hi) =>
        && lc != 0 && IsAt(pat, at, DASH) && IsAt(pat, at + 1, hi) && hi != 0 && hi != RBRACKET
        && ItemsAt(pat, at + 2, hi, items[1..], end)
  }

  /** Where a piece stands: first of all, after the mark of a group, or elsewhere. */
  datatype Place = First | AfterMark | Elsewhere

  /**
   Characters that are themselves without a backslash. A dollar is, unless the pattern ends after
   it, and a star where there is nothing to repeat.
   */
  predicate Ordinary(pat: seq<byte>, at: nat, c: byte, eof: byte, place: Place) {
    && c != BACKSLASH && c != DOT && c != LBRACKET && c != NEWLINE && (c == ASTERISK ==> place != Elsewhere)
    && (c == DOLLAR ==> at + 1 < |pat| && pat[at + 1] != eof && pat[at + 1] != NEWLINE)
  }

  /** Characters that are themselves after a backslash; a brace is if there is nothing before it. */
  predicate Escapable(c: byte, place: Place) {
    && c != LPAREN && c != RPAREN && c != NEWLINE && c != LETTER_N && !(ONE <= c <= NINE)
    && (c == LBRACE ==> place == First)
  }

  /** x is spelled from at to end. The first character of anything spelled is not the delimiter. */
  predicate CharAt(pat: seq<byte>, at: nat, x: OneChar, end: nat, eof: byte, place: Place) {
    && at < |pat| && pat[at] != eof
    && match x
       case Lit(c) =>
         || (c != 0 && pat[at] == c && Ordinary(pat, at, c, eof, place) && end == at + 1)
         || (c != 0 && Escapable(c, place) && Escaped(pat, at, c) && end == at + 2)
         || (c == NEWLINE && Escaped(pat, at, LETTER_N) && end == at + 2)
       case Dot => pat[at] == DOT && end == at + 1
       case Class(neg, items) =>
         && pat[at] == LBRACKET && items != [] && (neg <==> IsAt(pat, at + 1, CARET))
         && ItemsAt(pat, if neg then at + 2 else at + 1, 0, items, end)
  }

  predicate Digital(ds: seq<byte>) {
    ds != [] && forall k | 0 <= k < |ds| :: IsDigit(ds[k])
  }

  /** The number i grows to as the digits are read. */
  function Value(i: nat, ds: seq<byte>): nat
    decreases |ds|
  {
    if ds == [] then i else Value(10 * i + Num(ds[0] - ZERO), ds[1..])
  }

  /** A number in decimal. */
  function Decimal(n: nat): seq<byte> {
    (if n < 10 then [] else Decimal(n / 10)) + [ZERO + Byte(n % 10)]
  }

  /** Digits stand for the number they are the decimal of. */
  lemma {:induction false} DecimalRead(n: nat)
    ensures Digital(Decimal(n)) && Value(0, Decimal(n)) == n
    decreases n
  {
    var d := n % 10;
    DigitOf(d);
    if n < 10 {
      OneDigit(ZERO + Byte(d));
      assert Decimal(n) == [ZERO + Byte(d)];
    } else {
      hide IsDigit, Num, Byte, Value;
      DecimalRead(n / 10);
      ValueSnoc(0, Decimal(n / 10), ZERO + Byte(d));
    }
  }

  lemma OneDigit(b: byte)
    ensures Value(0, [b]) == Num(b - ZERO)
  {
    assert [b][1..] == [];
  }

  lemma DigitOf(d: nat)
    requires d < 10
    ensures IsDigit(ZERO + Byte(d)) && Num(ZERO + Byte(d) - ZERO) == d
  {
    NumByte(d);
    NumIs(Byte(d));
    DigitBack(Byte(d));
  }

  lemma DigitBack(b: byte)
    requires b as int < 10
    ensures IsDigit(ZERO + b) && ZERO + b - ZERO == b
  {
  }

  lemma {:induction false} ValueSnoc(i: nat, ds: seq<byte>, d: byte)
    ensures Value(i, ds + [d]) == 10 * Value(i, ds) + Num(d - ZERO)
    decreases |ds|
  {
    if ds == [] {
      assert ([] + [d])[1..] == [];
    } else {
      ValueSnoc(10 * i + Num(ds[0] - ZERO), ds[1..], d);
      assert (ds + [d])[1..] == ds[1..] + [d];
    }
  }

  predicate NumberOk(ds: seq<byte>) {
    Digital(ds) && Value(0, ds) < 255
  }

  predicate CountOk(q: Count) {
    match q
    case Once => true
    case Star => true
    case Exactly(n) => NumberOk(n)
    case AtLeast(n) => NumberOk(n)
    case Between(lo, hi) => NumberOk(lo) && NumberOk(hi) && Value(0, lo) <= Value(0, hi)
  }

  /** A repetition from at to end. */
  predicate CountAt(pat: seq<byte>, at: nat, q: Count, end: nat, eof: byte) {
    match q
    case Once => end == at
    case Star => at < end <= |pat| && eof != ASTERISK && forall k | at <= k < end :: pat[k] == ASTERISK
    case Exactly(n) =>
      && Escaped(pat, at, LBRACE) && eof != BACKSLASH && NumberOk(n) && Stands(pat, at + 2, n)
      && Escaped(pat, at + 2 + |n|, RBRACE) && end == at + 4 + |n|
    case AtLeast(n) =>
      && Escaped(pat, at, LBRACE) && eof != BACKSLASH && NumberOk(n) && Stands(pat, at + 2, n)
      && IsAt(pat, at + 2 + |n|, COMMA) && Escaped(pat, at + 3 + |n|, RBRACE) && end == at + 5 + |n|
    case Between(lo, hi) =>
      && Escaped(pat, at, LBRACE) && eof != BACKSLASH && NumberOk(lo) && Stands(pat, at + 2, lo)
      && IsAt(pat, at + 2 + |lo|, COMMA) && NumberOk(hi) && Stands(pat, at + 3 + |lo|, hi)
      && Escaped(pat, at + 3 + |lo| + |hi|, RBRACE) && Value(0, lo) <= Value(0, hi) && end == at + 5 + |lo| + |hi|
  }

  /** A piece from at to end; LineEnd is an anchor only before the end of the pattern. */
  ghost predicate PieceAt(pat: seq<byte>, at: nat, p: Piece, end: nat, eof: byte, place: Place) {
    && at < |pat| && pat[at] != eof
    && match p
       case Char(x, q) => exists mid: nat :: CharAt(pat, at, x, mid, eof, place) && CountAt(pat, mid, q, end, eof)
       case GroupStart => Escaped(pat, at, LPAREN) && end == at + 2
       case GroupEnd => Escaped(pat, at, RPAREN) && end == at + 2
       case BackRef(k) => k < 9 && Escaped(pat, at, ONE + Byte(k)) && end == at + 2
       case LineEnd => pat[at] == DOLLAR && (IsAt(pat, at + 1, eof) || IsAt(pat, at + 1, NEWLINE)) && end == at + 1
  }

  function PlaceAfter(p: Piece): Place {
    if p == GroupStart || p == GroupEnd then AfterMark else Elsewhere
  }

  /** The pieces one after the other from at to end. */
  ghost predicate PiecesAt(pat: seq<byte>, at: nat, ps: seq<Piece>, end: nat, eof: byte, place: Place)
    decreases |ps|
  {
    if ps == [] then end == at
    else
      exists mid: nat ::
        PieceAt(pat, at, ps[0], mid, eof, place) && PiecesAt(pat, mid, ps[1..], end, eof, PlaceAfter(ps[0]))
  }

  // ----- elements -----

  /** The groups so far: how many were begun, which are still open, how many were closed. */
  datatype Groups = Groups(begun: nat, stack: seq<nat>, closed: nat)

  function Begun(g: Groups): Groups {
    g.(begun := g.begun + 1, stack := g.stack + [g.begun])
  }

  function Ended(g: Groups): Groups
    requires g.stack != []
  {
    g.(stack := g.stack[..|g.stack| - 1], closed := g.closed + 1)
  }

  datatype Outcome = Rejected(e: Error) | Accepted(prog: seq<Elem>)

  predicate High(c: byte) {
    c & 0x80 != 0
  }

  /** What reading an item after lc adds. */
  function AddItem(i: Item, lc: byte, b: Bracket): Bracket {
    match i
    case Single(c) => Bracket(Put(b.placed, c), b.wide || High(c))
    case To(hi) => Bracket(Put(UpTo(b.placed, lc, hi), hi), b.wide || High(hi))
  }

  function AddItems(items: seq<Item>, lc: byte, b: Bracket): Bracket
    decreases |items|
  {
    if items == [] then b else AddItems(items[1..], ItemLast(items[0]), AddItem(items[0], lc, b))
  }

  predicate AnyHigh(items: seq<Item>) {
    exists i :: i in items && High(ItemLast(i))
  }

  function AtomOf(x: OneChar): Atom {
    match x
    case Lit(c) => Chr(c)
    case Dot => Any
    case Class(neg, items) => Finish(AddItems(items, 0, Bracket(Blank, false)), neg)
  }

  /** \{n,\} is held to 20000 more than n. */
  function CharElem(a: Atom, q: Count): Elem {
    match q
    case Once => One(a)
    case Star => Rep(a, 0, -1)
    case Exactly(n) => Rep(a, Value(0, n), Value(0, n))
    case AtLeast(n) => Rep(a, Value(0, n), Value(0, n) + 20000)
    case Between(lo, hi) => Rep(a, Value(0, lo), Value(0, hi))
  }

  function Prepend(e: Elem, o: Outcome): Outcome {
    if o.Accepted? then Accepted([e] + o.prog) else o
  }

  /**
   The elements a pattern stands for, or the number of the first error: 43 for a tenth group, 42
   for one closed that is not open or left open, 25 for a reference past the number of closed ones.
   */
  function Elements(ps: seq<Piece>, g: Groups): Outcome {
    if ps == [] then (if g.stack == [] then Accepted([End]) else Rejected(Code(42)))
    else
      match ps[0]
      case Char(x, q) => Prepend(CharElem(AtomOf(x), q), Elements(ps[1..], g))
      case GroupStart =>
        if g.begun >= NBRA then Rejected(Code(43))
        else Prepend(Open(g.begun), Elements(ps[1..], Begun(g)))
      case GroupEnd =>
        if g.stack == [] then Rejected(Code(42))
        else Prepend(Close(g.stack[|g.stack| - 1]), Elements(ps[1..], Ended(g)))
      case BackRef(k) => if k >= g.closed then Rejected(Code(25)) else Prepend(Back(k), Elements(ps[1..], g))
      case LineEnd => Prepend(Dollar, Elements(ps[1..], g))
  }

  /** The bytes a piece takes in the program. */
  function CharSize(x: OneChar): nat {
    match x
    case Lit(_) => 2
    case Dot => 1
    case Class(_, items) => if AnyHigh(items) then 33 else 17
  }

  function PieceSize(p: Piece): nat {
    match p
    case Char(x, q) => CharSize(x) + if q == Once || q == Count.Star then 0 else 2
    case LineEnd => 1
    case _ => 2
  }

  /**
   used bytes are taken and the buffer has room: each round needs one byte more, a class what its
   bitmap takes and one; the second of two bytes is stored unseen, perhaps behind the buffer.
   */
  function CharRoom(x: OneChar, used: nat, room: nat): Option<Error> {
    if used >= room || (x.Class? && used + CharSize(x) >= room) then Some(Code(50))
    else if x.Lit? && used + 1 >= room then Some(Behind)
    else None
  }

  function PieceRoom(p: Piece, used: nat, room: nat): Option<Error> {
    if used >= room then Some(Code(50)) else
    match p
    case Char(x, q) =>
      var next := used + CharSize(x);
      if CharRoom(x, used, room).Some? then CharRoom(x, used, room)
      else if q == Once then None
      else if next >= room then Some(Code(50))
      else if q != Count.Star && next + 1 >= room then Some(Behind)
      else None
    case LineEnd => None
    case _ => if used + 1 >= room then Some(Behind) else None
  }

  /**
   Elements, but error 50 or a byte behind the buffer at the first piece, or at the end, that there is no
   room for.
   */
  function Bounded(ps: seq<Piece>, g: Groups, used: nat, room: nat): Outcome
    decreases |ps|
  {
    if used >= room then Rejected(Code(50))
    else if ps == [] then (if g.stack == [] then Accepted([End]) else Rejected(Code(42)))
    else
      var next, bad := used + PieceSize(ps[0]), PieceRoom(ps[0], used, room);
      match ps[0]
      case Char(x, q) =>
        if bad.Some? then Rejected(bad.value) else Prepend(CharElem(AtomOf(x), q), Bounded(ps[1..], g, next, room))
      case GroupStart =>
        if g.begun >= NBRA then Rejected(Code(43))
        else if bad.Some? then Rejected(bad.value)
        else Prepend(Open(g.begun), Bounded(ps[1..], Begun(g), next, room))
      case GroupEnd =>
        if g.stack == [] then Rejected(Code(42))
        else if bad.Some? then Rejected(bad.value)
        else Prepend(Close(g.stack[|g.stack| - 1]), Bounded(ps[1..], Ended(g), next, room))
      case BackRef(k) =>
        if k >= g.closed then Rejected(Code(25))
        else if bad.Some? then Rejected(bad.value)
        else Prepend(Back(k), Bounded(ps[1..], g, next, room))
      case LineEnd => Prepend(Dollar, Bounded(ps[1..], g, next, room))
  }

  /** There is room for all pieces, one after the other, and for the mark of the end. */
  predicate Fits(ps: seq<Piece>, used: nat, room: nat)
    decreases |ps|
  {
    used < room && (ps != [] ==> PieceRoom(ps[0], used, room).None? && Fits(ps[1..], used + PieceSize(ps[0]), room))
  }

  /** With room for everything the buffer makes no difference; without, there is no program. */
  lemma {:induction false} BoundedIs(ps: seq<Piece>, g: Groups, used: nat, room: nat)
    ensures Fits(ps, used, room) ==> Bounded(ps, g, used, room) == Elements(ps, g)
    ensures !Fits(ps, used, room) ==> Bounded(ps, g, used, room).Rejected?
    decreases |ps|
  {
    if ps != [] {
      var next := used + PieceSize(ps[0]);
      match ps[0]
      case GroupStart => if g.begun < NBRA { BoundedIs(ps[1..], Begun(g), next, room); }
      case GroupEnd => if g.stack != [] { BoundedIs(ps[1..], Ended(g), next, room); }
      case _ => BoundedIs(ps[1..], g, next, room);
    }
  }

  /** A piece that stores two bytes at once, the second of them just behind the buffer. */
  predicate Breaks(p: Piece, used: nat, room: nat) {
    match p
    case Char(x, q) =>
      (x.Lit? && used + 1 == room) || (q != Once && q != Count.Star && used + CharSize(x) + 1 == room)
    case LineEnd => false
    case _ => used + 1 == room
  }

  /** Some piece of ps, which begin when used bytes are taken, does. */
  predicate SomeBreaks(ps: seq<Piece>, used: nat, room: nat) {
    exists k | 0 <= k < |ps| :: Breaks(ps[k], used + TotalSize(ps[..k]), room)
  }

  lemma SizeFrom(ps: seq<Piece>, k: nat)
    requires k < |ps|
    ensures TotalSize(ps[..k + 1]) == PieceSize(ps[0]) + TotalSize(ps[1..][..k])
  {
    assert ps[..k + 1][1..] == ps[1..][..k];
  }

  lemma BreaksCons(ps: seq<Piece>, used: nat, room: nat)
    requires ps != []
    ensures SomeBreaks(ps, used, room) <==>
            Breaks(ps[0], used, room) || SomeBreaks(ps[1..], used + PieceSize(ps[0]), room)
  {
    hide Breaks, PieceSize, TotalSize;
    var rest, next := ps[1..], used + PieceSize(ps[0]);
    NoSize(ps);
    if SomeBreaks(ps, used, room) {
      var k: nat :| k < |ps| && Breaks(ps[k], used + TotalSize(ps[..k]), room);
      if k > 0 {
        SizeFrom(ps, k - 1);
        assert Breaks(rest[k - 1], next + TotalSize(rest[..k - 1]), room);
      }
    }
    if k: nat :| k < |rest| && Breaks(rest[k], next + TotalSize(rest[..k]), room) {
      SizeFrom(ps, k);
      assert Breaks(ps[k + 1], used + TotalSize(ps[..k + 1]), room);
    }
  }

  lemma NoSize(ps: seq<Piece>)
    ensures TotalSize(ps[..0]) == 0
  {
  }

  lemma {:induction false} FullNeverBreaks(ps: seq<Piece>, used: nat, room: nat)
    requires used >= room
    ensures !SomeBreaks(ps, used, room)
  {
  }

  /** A byte is stored behind the buffer exactly when some piece of the pattern, otherwise right, breaks. */
  lemma {:induction false} BoundedBehind(ps: seq<Piece>, g: Groups, used: nat, room: nat)
    requires Elements(ps, g).Accepted?
    ensures Bounded(ps, g, used, room) == Rejected(Behind) <==> SomeBreaks(ps, used, room)
    ensures Bounded(ps, g, used, room).Rejected? ==> Bounded(ps, g, used, room).e in {Behind, Code(50)}
    decreases |ps|
  {
    hide SomeBreaks;
    if used >= room {
      FullNeverBreaks(ps, used, room);
    } else if ps == [] {
      NoneBreaks(used, room);
    } else {
      BreaksCons(ps, used, room);
      var next := used + PieceSize(ps[0]);
      if PieceRoom(ps[0], used, room) == Some(Code(50)) { FullNeverBreaks(ps[1..], next, room); }
      match ps[0]
      case GroupStart => BoundedBehind(ps[1..], Begun(g), next, room);
      case GroupEnd => BoundedBehind(ps[1..], Ended(g), next, room);
      case _ => BoundedBehind(ps[1..], g, next, room);
    }
  }

  lemma NoneBreaks(used: nat, room: nat)
    ensures !SomeBreaks([], used, room)
  {
  }

  function TotalSize(ps: seq<Piece>): nat
    decreases |ps|
  {
    if ps == [] then 0 else PieceSize(ps[0]) + TotalSize(ps[1..])
  }

  /** That is room for the sum of the pieces and one byte. */
  lemma {:induction false} FitsSize(ps: seq<Piece>, used: nat, room: nat)
    ensures Fits(ps, used, room) <==> used + TotalSize(ps) < room
    decreases |ps|
  {
    if ps != [] { FitsSize(ps[1..], used + PieceSize(ps[0]), room); }
  }

  // ----- bitmaps hold the sets they are spelled for -----

  predicate Has(p: Placed, d: byte) {
    p.Put? && (p.c == d || Has(p.rest, d))
  }

  lemma {:induction false} UpToHas(p: Placed, lc: byte, c: byte, d: byte)
    ensures Has(UpTo(p, lc, c), d) <==> Has(p, d) || lc <= d < c
    decreases if lc < c then c - lc else 0
  {
    if lc < c {
      UpToHas(Put(p, lc), lc + 1, c, d);
      NextByte(lc, c, d);
    }
  }

  lemma NextByte(lc: byte, c: byte, d: byte)
    requires lc < c
    ensures lc <= d < c <==> d == lc || lc + 1 <= d < c
  {
  }

  lemma {:induction false} BitsThere(p: Placed, d: byte)
    ensures IsThere(Bits(p), d) <==> Has(p, d)
  {
    match p
    case Blank => NoneThere(d);
    case Put(rest, c) =>
      BitsThere(rest, d);
      PlaceThere(Bits(rest), c, d);
  }

  lemma NoneThere(d: byte)
    ensures !IsThere(Zeros(), d)
  {
  }

  lemma ItemHas(i: Item, lc: byte, b: Bracket, d: byte)
    ensures Has(AddItem(i, lc, b).placed, d) <==> Has(b.placed, d) || InItem(i, lc, d)
  {
    if i.To? { UpToHas(b.placed, lc, i.hi, d); }
  }

  lemma {:induction false} ItemsHave(items: seq<Item>, lc: byte, b: Bracket, d: byte)
    ensures Has(AddItems(items, lc, b).placed, d) <==> Has(b.placed, d) || InItems(items, lc, d)
    ensures AddItems(items, lc, b).wide <==> b.wide || AnyHigh(items)
    decreases |items|
  {
    if items != [] {
      ItemHas(items[0], lc, b, d);
      ItemsHave(items[1..], ItemLast(items[0]), AddItem(items[0], lc, b), d);
      AnyHighCons(items);
    }
  }

  lemma AnyHighCons(items: seq<Item>)
    requires items != []
    ensures AnyHigh(items) <==> High(ItemLast(items[0])) || AnyHigh(items[1..])
  {
    assert items == [items[0]] + items[1..];
  }

  lemma {:induction false} LowItems(items: seq<Item>, lc: byte, d: byte)
    requires !AnyHigh(items) && !High(lc) && InItems(items, lc, d)
    ensures !High(d)
    decreases |items|
  {
    AnyHighCons(items);
    if InItem(items[0], lc, d) {
      LowItem(items[0], lc, d);
    } else {
      LowItems(items[1..], ItemLast(items[0]), d);
    }
  }

  lemma LowItem(i: Item, lc: byte, d: byte)
    requires !High(ItemLast(i)) && !High(lc) && InItem(i, lc, d)
    ensures !High(d)
  {
  }

  /** Closing turns the characters placed, none of them NUL, into a test for the class or for all others. */
  lemma ClosingAccepts(bits: seq<byte>, wide: bool, neg: bool, c: byte)
    requires |bits| == 32 && !IsThere(bits, 0) && (!wide && c & 0x80 != 0 ==> !IsThere(bits, c))
    ensures var m := Closing(bits, wide, neg);
            MapOk(m.kind, m.bits) && (Accepts(m, c) <==> c != 0 && neg != IsThere(bits, c))
  {
    if neg && wide {
      WideAccepts(bits, c);
    } else if neg {
      NarrowAccepts(bits, c);
    }
  }

  lemma WideAccepts(bits: seq<byte>, c: byte)
    requires |bits| == 32
    ensures IsThere(Flip(bits)[0 := Flip(bits)[0] & 0xfe], c) <==> c != 0 && !IsThere(bits, c)
  {
    FlipBit(bits[Slot(c)], Bit(c));
    ZeroSlot();
    SlotZero(c);
    FirstBit(bits[0] ^ 0xff, c);
  }

  lemma NarrowAccepts(bits: seq<byte>, c: byte)
    requires |bits| == 32
    ensures c & 0x80 == 0 ==> (IsThere(bits[..16][0 := bits[0] | 1], c) <==> c == 0 || IsThere(bits, c))
  {
    ZeroSlot();
    SlotZero(c);
    FirstBit(bits[0], c);
  }

  lemma ZeroSlot()
    ensures Slot(0) == 0 && Bit(0) == 1
  {
  }

  lemma SlotZero(c: byte)
    ensures Slot(c) == 0 <==> c >> 3 == 0
  {
    NumSame(c >> 3, 0);
  }

  lemma FlipBit(x: byte, bit: byte)
    requires bit in {1, 2, 4, 8, 16, 32, 64, 128}
    ensures (x ^ 0xff) & bit != 0 <==> x & bit == 0
  {
  }

  lemma FirstBit(x: byte, c: byte)
    ensures (x | 1) & 1 != 0 && (x & 0xfe) & 1 == 0
    ensures c >> 3 == 0 && c != 0 ==> ((x | 1) & Bit(c) == x & Bit(c)) && (x & 0xfe) & Bit(c) == x & Bit(c)
  {
  }

  lemma {:induction false} NoNul(pat: seq<byte>, at: nat, lc: byte, items: seq<Item>, end: nat)
    requires ItemsAt(pat, at, lc, items, end)
    ensures !InItems(items, lc, 0)
    decreases |items|
  {
    if items != [] {
      NoNul(pat, if items[0].Single? then at + 1 else at + 2, ItemLast(items[0]), items[1..], end);
    }
  }

  /** The atom compiled for x accepts what x denotes; NUL, which ends the line, is never accepted. */
  lemma AtomMeans(pat: seq<byte>, at: nat, x: OneChar, end: nat, eof: byte, place: Place, c: byte)
    requires CharAt(pat, at, x, end, eof, place)
    ensures AtomOk(AtomOf(x)) && (Accepts(AtomOf(x), c) <==> Denotes(x, c))
  {
    if x.Class? {
      NoNul(pat, if x.neg then at + 2 else at + 1, 0, x.items, end);
      ClassMeans(x.items, x.neg, c);
      ClassMeans(x.items, x.neg, 0);
    }
  }

  lemma ClassMeans(items: seq<Item>, neg: bool, c: byte)
    requires !InItems(items, 0, 0)
    ensures var m := Finish(AddItems(items, 0, Bracket(Blank, false)), neg);
            MapOk(m.kind, m.bits) && (Accepts(m, c) <==> c != 0 && neg != InItems(items, 0, c))
  {
    var b := AddItems(items, 0, Bracket(Blank, false));
    ItemsHave(items, 0, Bracket(Blank, false), 0);
    ItemsHave(items, 0, Bracket(Blank, false), c);
    BitsThere(b.placed, 0);
    BitsThere(b.placed, c);
    if !b.wide && InItems(items, 0, c) {
      LowItems(items, 0, c);
    }
    ClosingAccepts(Bits(b.placed), b.wide, neg, c);
  }

  // ----- the bytes of an element -----

  function AtomCode(a: Atom): (r: seq<byte>)
    ensures r != []
  {
    match a
    case Chr(c) => [CCHR, c]
    case Any => [CDOT]
    case Map(kind, bits) => [kind] + bits
  }

  predicate AtomFits(a: Atom) {
    a.Map? ==> MapOk(a.kind, a.bits)
  }

  /** The bytes c are the element e. */
  predicate IsCode(e: Elem, c: seq<byte>) {
    match e
    case One(a) => AtomFits(a) && c == AtomCode(a)
    case Rep(a, lo, hi) =>
      && AtomFits(a)
      && if hi < 0 then lo == 0 && hi == -1 && c == AtomCode(a)[0 := AtomCode(a)[0] | STAR]
         else RangeCode(a, lo, hi, c)
    case Dollar => c == [CDOL]
    case Open(k) => |c| == 2 && c[0] == CBRA && Num(c[1]) == k
    case Close(k) => |c| == 2 && c[0] == CKET && Num(c[1]) == k
    case Back(k) => |c| == 2 && c[0] == CBACK && Num(c[1]) == k
    case End => c == [CCEOF]
  }

  predicate RangeCode(a: Atom, lo: nat, hi: int, c: seq<byte>) {
    var n := |AtomCode(a)|;
    && |c| == n + 2 && c[..n] == AtomCode(a)[0 := AtomCode(a)[0] | RNGE]
    && Num(c[n]) == lo && hi == if Num(c[n + 1]) == 255 then lo + 20000 else Num(c[n + 1])
  }

  lemma DecodeAtom(code: seq<byte>, at: nat, a: Atom)
    requires AtomFits(a) && Stands(code, at, AtomCode(a))
    ensures Decode(code, at) == Decoded(One(a), at + |AtomCode(a)|)
  {
    var w := code[at..at + |AtomCode(a)|];
    assert code[at] == w[0];
    match a
    case Chr(c) => assert code[at + 1] == w[1];
    case Any =>
    case Map(kind, bits) => assert code[at + 1..at + 1 + |bits|] == w[1..];
  }

  lemma DecodeStar(code: seq<byte>, at: nat, a: Atom)
    requires AtomFits(a) && Stands(code, at, AtomCode(a)[0 := AtomCode(a)[0] | STAR])
    ensures Decode(code, at) == Decoded(Rep(a, 0, -1), at + |AtomCode(a)|)
  {
    var w := code[at..at + |AtomCode(a)|];
    assert code[at] == w[0];
    match a
    case Chr(c) => assert code[at + 1] == w[1];
    case Any =>
    case Map(kind, bits) => assert code[at + 1..at + 1 + |bits|] == w[1..];
  }

  lemma DecodeRange(code: seq<byte>, at: nat, a: Atom)
    requires AtomFits(a) && Stands(code, at, AtomCode(a)[0 := AtomCode(a)[0] | RNGE])
    ensures Decode(code, at) == RangeOf(a, code, at + |AtomCode(a)|)
  {
    var w := code[at..at + |AtomCode(a)|];
    assert code[at] == w[0];
    match a
    case Chr(c) => assert code[at + 1] == w[1];
    case Any =>
    case Map(kind, bits) => assert code[at + 1..at + 1 + |bits|] == w[1..];
  }

  lemma DecodeElem(code: seq<byte>, at: nat, e: Elem, c: seq<byte>)
    requires IsCode(e, c) && Stands(code, at, c)
    ensures Decode(code, at) == Decoded(e, at + |c|)
  {
    if e.One? {
      DecodeAtom(code, at, e.a);
    } else if e.Rep? && e.hi < 0 {
      DecodeStar(code, at, e.a);
    } else if e.Rep? {
      DecodeCounted(code, at, e.a, e.lo, e.hi, c);
    } else {
      DecodeOther(code, at, e, c);
    }
  }

  lemma DecodeCounted(code: seq<byte>, at: nat, a: Atom, lo: nat, hi: int, c: seq<byte>)
    requires AtomFits(a) && RangeCode(a, lo, hi, c) && Stands(code, at, c)
    ensures Decode(code, at) == Decoded(Rep(a, lo, hi), at + |c|)
  {
    var n := |AtomCode(a)|;
    hide AtomFits, Decode, AtomCode;
    StandsPrefix(code, at, c, n);
    StandsAt(code, at, c, n);
    StandsAt(code, at, c, n + 1);
    DecodeRange(code, at, a);
  }

  lemma StandsPrefix(code: seq<byte>, at: nat, c: seq<byte>, n: nat)
    requires Stands(code, at, c) && n <= |c|
    ensures at + n <= |code| && code[at..at + n] == c[..n]
  {
    assert code[at..at + n] == code[at..at + |c|][..n];
  }

  lemma StandsAt(code: seq<byte>, at: nat, c: seq<byte>, n: nat)
    requires Stands(code, at, c) && n < |c|
    ensures code[at + n] == c[n]
  {
    assert code[at + n] == code[at..at + |c|][n];
  }

  lemma DecodeOther(code: seq<byte>, at: nat, e: Elem, c: seq<byte>)
    requires !e.One? && !e.Rep? && IsCode(e, c) && Stands(code, at, c)
    ensures Decode(code, at) == Decoded(e, at + |c|)
  {
    assert code[at] == c[0];
    if |c| == 2 { assert code[at + 1] == c[1]; }
  }

  lemma DecodesStep(code: seq<byte>, at: nat, prog: seq<Elem>, i: nat, c: seq<byte>)
    requires i < |prog| && IsCode(prog[i], c) && Stands(code, at, c)
    requires i + 1 < |prog| ==> Decodes(code, at + |c|, prog, i + 1)
    ensures Decodes(code, at, prog, i)
  {
    DecodeElem(code, at, prog[i], c);
  }
}
