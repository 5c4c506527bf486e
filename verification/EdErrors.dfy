/**
 Which patterns compile (usr/src/head/regexp.h) refuses: for each error number, the text at which it
 is given, and what an empty pattern means.
 */
module EdErrors {
  import opened EdProgram
  import opened EdCompile
  import opened EdCompiler
  import opened EdSpelling
  import opened EdReading
  import opened EdPattern

  // ----- numbers -----

  /** The digits ds stand at at, and last after them. */
  predicate Numeral(pat: seq<byte>, at: nat, ds: seq<byte>, last: byte) {
    Digital(ds) && Stands(pat, at, ds) && (last == BACKSLASH || last == COMMA) && IsAt(pat, at + |ds|, last)
  }

  /** k digits and then neither a digit nor what may follow a number; or no digit at all. */
  predicate SpoiltAt(pat: seq<byte>, at: nat, k: nat) {
    && at + k < |pat| && (forall i | at <= i < at + k :: IsDigit(pat[i])) && !IsDigit(pat[at + k])
    && (k > 0 ==> pat[at + k] != BACKSLASH && pat[at + k] != COMMA)
  }

  ghost predicate Spoilt(pat: seq<byte>, at: nat) {
    exists k: nat :: SpoiltAt(pat, at, k)
  }

  /** A number below 255. */
  predicate Small(pat: seq<byte>, at: nat, ds: seq<byte>, last: byte) {
    Numeral(pat, at, ds, last) && Value(0, ds) < 255
  }

  predicate Large(pat: seq<byte>, at: nat, ds: seq<byte>, last: byte) {
    Numeral(pat, at, ds, last) && Value(0, ds) >= 255
  }

  lemma {:induction false} SpoiltRead(pat: seq<byte>, at: nat, i: nat, k: nat)
    requires SpoiltAt(pat, at, k)
    ensures Digits(pat, at, i) == BadNumber(Code(16))
    decreases k
  {
    if k > 0 {
      if k > 1 { assert IsDigit(pat[at + 1]); }
      SpoiltRead(pat, at + 1, 10 * i + Num(pat[at] - ZERO), k - 1);
    }
  }

  lemma {:induction false} SpoiltFound(pat: seq<byte>, at: nat, i: nat) returns (k: nat)
    requires Digits(pat, at, i).BadNumber? && Digits(pat, at, i).e != Overrun
    ensures Digits(pat, at, i).e == Code(16) && SpoiltAt(pat, at, k)
    decreases |pat| - at
  {
    if !IsDigit(pat[at]) {
      k := 0;
    } else {
      var l := SpoiltFound(pat, at + 1, 10 * i + Num(pat[at] - ZERO));
      k := l + 1;
    }
  }

  lemma {:induction false} NumeralFound(pat: seq<byte>, at: nat, i: nat) returns (ds: seq<byte>)
    requires Digits(pat, at, i).Number?
    ensures var d := Digits(pat, at, i);
            Numeral(pat, at, ds, d.last) && Value(i, ds) == d.i && at + |ds| + 1 == d.at
    decreases |pat| - at
  {
    var i' := 10 * i + Num(pat[at] - ZERO);
    ds := [pat[at]];
    if pat[at + 1] == BACKSLASH || pat[at + 1] == COMMA {
      assert ds[1..] == [];
      assert Value(i, ds) == Value(i', ds[1..]) == i';
    } else {
      var rest := NumeralFound(pat, at + 1, i');
      ds := ds + rest;
      assert ds[1..] == rest;
      assert pat[at..at + |ds|] == [pat[at]] + pat[at + 1..at + 1 + |rest|];
    }
  }

  lemma NumeralRead(pat: seq<byte>, at: nat, ds: seq<byte>, last: byte)
    requires Numeral(pat, at, ds, last)
    ensures Digits(pat, at, 0) == Number(Value(0, ds), last, at + |ds| + 1)
  {
    DigitsRead(pat, at, 0, ds, last);
  }

  /** A text has one numeral at a place at most. */
  lemma NumeralOnce(pat: seq<byte>, at: nat, ds: seq<byte>, last: byte, ds': seq<byte>, last': byte)
    requires Numeral(pat, at, ds, last) && Numeral(pat, at, ds', last')
    ensures ds == ds' && last == last'
  {
    NumeralRead(pat, at, ds, last);
    NumeralRead(pat, at, ds', last');
    assert pat[at..at + |ds|] == ds && pat[at..at + |ds'|] == ds';
  }

  // ----- counts -----

  /** A number is missing or too large. */
  ghost predicate NumberWrong(pat: seq<byte>, at: nat, n: nat) {
    (n == 16 && Spoilt(pat, at)) || (n == 11 && exists ds, last :: Large(pat, at, ds, last))
  }

  predicate NotBrace(pat: seq<byte>, at: nat) {
    at < |pat| && pat[at] != RBRACE
  }

  /** After both numbers: a third one, no closing brace, or the numbers in the wrong order. */
  predicate SecondWrong(pat: seq<byte>, at: nat, lo: seq<byte>, hi: seq<byte>, last: byte, n: nat) {
    if last == COMMA then n == 44
    else (n == 45 && NotBrace(pat, at)) || (n == 46 && IsAt(pat, at, RBRACE) && Value(0, hi) < Value(0, lo))
  }

  /** After the comma; roomy says that there is room for the second number. */
  ghost predicate UpperWrong(pat: seq<byte>, at: nat, lo: seq<byte>, n: nat, roomy: bool) {
    if IsAt(pat, at, BACKSLASH) then roomy && n == 45 && NotBrace(pat, at + 1)
    else
      || NumberWrong(pat, at, n)
      || (roomy && exists hi, last :: Small(pat, at, hi, last) && SecondWrong(pat, at + |hi| + 1, lo, hi, last, n))
  }

  /** The text at at, which follows an opening \{, deserves error n. */
  ghost predicate RangeWrong(pat: seq<byte>, at: nat, n: nat, roomy: bool) {
    || NumberWrong(pat, at, n)
    || (n == 45 && exists lo :: Small(pat, at, lo, BACKSLASH) && NotBrace(pat, at + |lo| + 1))
    || exists lo :: Small(pat, at, lo, COMMA) && UpperWrong(pat, at + |lo| + 1, lo, n, roomy)
  }

  /** What the digits say of a number decides whether it is wrong. */
  lemma NumberVerdict(pat: seq<byte>, at: nat, n: nat)
    ensures NumberWrong(pat, at, n) <==>
            match Digits(pat, at, 0)
            case BadNumber(e) => e == Code(n)
            case Number(i, _, _) => n == 11 && i >= 255
  {
    var d := Digits(pat, at, 0);
    if d.Number? {
      var ds := NumeralFound(pat, at, 0);
      if Spoilt(pat, at) {
        var k: nat :| SpoiltAt(pat, at, k);
        SpoiltRead(pat, at, 0, k);
      }
      forall ds', last' | Large(pat, at, ds', last') ensures ds' == ds { NumeralOnce(pat, at, ds, d.last, ds', last'); }
      assert d.i >= 255 ==> Large(pat, at, ds, d.last);
    } else {
      if d.e != Overrun { var k := SpoiltFound(pat, at, 0); }
      forall k: nat | SpoiltAt(pat, at, k) ensures d.e == Code(16) { SpoiltRead(pat, at, 0, k); }
      forall ds, last | Large(pat, at, ds, last) ensures false { NumeralRead(pat, at, ds, last); }
    }
  }

  /** A small number is there exactly if the digits say so. */
  lemma SmallVerdict(pat: seq<byte>, at: nat) returns (ds: seq<byte>)
    ensures var d := Digits(pat, at, 0);
            if d.Number? && d.i < 255 then
              && Small(pat, at, ds, d.last) && Value(0, ds) == d.i && at + |ds| + 1 == d.at
              && forall ds', last' :: Small(pat, at, ds', last') ==> ds' == ds && last' == d.last
            else forall ds', last' :: !Small(pat, at, ds', last')
  {
    var d := Digits(pat, at, 0);
    ds := [];
    if d.Number? && d.i < 255 {
      ds := NumeralFound(pat, at, 0);
      forall ds', last' | Small(pat, at, ds', last') ensures ds' == ds && last' == d.last {
        NumeralOnce(pat, at, ds, d.last, ds', last');
      }
    } else {
      forall ds', last' | Small(pat, at, ds', last') ensures false {
        NumeralRead(pat, at, ds', last');
      }
    }
  }

  lemma ByteLess(i: nat, j: nat)
    requires i < 255 && j < 255
    ensures Byte(i) < Byte(j) <==> i < j
  {
    if i <= j { ByteOrder(i, j); } else { ByteOrder(j, i); }
    NumByte(i);
    NumByte(j);
  }

  lemma CloseRejects(a: Args, s: State, two: bool, i: nat, j: nat, n: nat)
    requires StateOk(s) && i < 255 && j < 255
    requires if two then |s.code| >= 2 && s.code[|s.code| - 2] == Byte(i) && s.code[|s.code| - 1] == Byte(j)
             else s.code != []
    ensures CloseInterval(a, s, two) == Failed(Code(n)) <==>
            (n == 45 && NotBrace(a.pat, s.sp)) || (n == 46 && two && IsAt(a.pat, s.sp, RBRACE) && j < i)
  {
    ByteLess(j, i);
  }

  lemma SecondRejects(a: Args, s: State, lo: seq<byte>, n: nat)
    requires StateOk(s) && s.code != [] && Value(0, lo) < 255 && s.code[|s.code| - 1] == Byte(Value(0, lo))
    requires s.sp < |a.pat| && a.pat[s.sp] != BACKSLASH
    ensures SecondNumber(a, s) == Failed(Code(n)) <==> UpperWrong(a.pat, s.sp, lo, n, |s.code| < a.room)
  {
    hide Numeral, Spoilt, NumberWrong, Large, Small;
    NumberVerdict(a.pat, s.sp, n);
    var hi := SmallVerdict(a.pat, s.sp);
    var d := Digits(a.pat, s.sp, 0);
    if d.Number? && d.i < 255 && |s.code| < a.room && d.last == BACKSLASH {
      CloseRejects(a, s.(code := s.code + [Byte(d.i)], sp := d.at), true, Value(0, lo), d.i, n);
    }
  }

  /** A closing \} that no number stands before. */
  lemma OpenEndRejects(a: Args, s: State, i: nat, n: nat)
    requires StateOk(s) && s.code != [] && i < 255 && s.code[|s.code| - 1] == Byte(i)
    ensures CloseInterval(a, s.(code := s.code + [255]), true) == Failed(Code(n)) <==> n == 45 && NotBrace(a.pat, s.sp)
  {
    NumByte(i);
  }

  lemma RestRejects(a: Args, s: State, lo: seq<byte>, last: byte, n: nat)
    requires StateOk(s) && s.code != [] && Value(0, lo) < 255 && s.code[|s.code| - 1] == Byte(Value(0, lo))
    requires last == BACKSLASH || last == COMMA
    ensures AfterFirst(a, s, last) == Failed(Code(n)) <==>
            if last == BACKSLASH then n == 45 && NotBrace(a.pat, s.sp)
            else UpperWrong(a.pat, s.sp, lo, n, |s.code| < a.room)
  {
    hide CloseInterval, SecondNumber, NumberWrong;
    if last == BACKSLASH {
      CloseRejects(a, s, false, Value(0, lo), 0, n);
    } else if s.sp >= |a.pat| {
      NumberVerdict(a.pat, s.sp, n);
      var hi := SmallVerdict(a.pat, s.sp);
    } else if a.pat[s.sp] == BACKSLASH {
      OpenEndRejects(a, s.(sp := s.sp + 1), Value(0, lo), n);
    } else {
      SecondRejects(a, s, lo, n);
    }
  }

  lemma IntervalRejects(a: Args, s: State, n: nat)
    requires StateOk(s) && |s.code| < a.room
    ensures Interval(a, s) == Failed(Code(n)) <==> RangeWrong(a.pat, s.sp, n, |s.code| + 1 < a.room)
  {
    hide AfterFirst, NumberWrong, Small, UpperWrong;
    NumberVerdict(a.pat, s.sp, n);
    var lo := SmallVerdict(a.pat, s.sp);
    var d := Digits(a.pat, s.sp, 0);
    if d.Number? && d.i < 255 {
      RestRejects(a, s.(code := s.code + [Byte(d.i)], sp := d.at), lo, d.last, n);
    }
  }

  // ----- brackets -----

  /** Items as they are read from at to end, where the next one begins; lc is the character before. */
  predicate ItemsTo(pat: seq<byte>, at: nat, lc: byte, items: seq<Item>, end: nat)
    decreases |items|
  {
    if items == [] then end == at
    else
      match items[0]
      case Single(c) =>
        && IsAt(pat, at, c) && c != 0 && c != NEWLINE && !(c == DASH && lc != 0)
        && at + 1 < |pat| && pat[at + 1] != RBRACKET && ItemsTo(pat, at + 1, c, items[1..], end)
      case To(hi) =>
        && lc != 0 && IsAt(pat, at, DASH) && IsAt(pat, at + 1, hi) && hi != RBRACKET
        && at + 2 < |pat| && pat[at + 2] != RBRACKET && ItemsTo(pat, at + 2, hi, items[1..], end)
  }

  function LastOf(lc: byte, items: seq<Item>): byte {
    if items == [] then lc else ItemLast(items[|items| - 1])
  }

  /** A null character or newline stands where an item is due; a range may well end with one. */
  predicate NullDue(pat: seq<byte>, at: nat, lc: byte, items: seq<Item>, end: nat) {
    ItemsTo(pat, at, lc, items, end) && (IsAt(pat, end, 0) || IsAt(pat, end, NEWLINE))
  }

  /** The next item is the first that ends with a character with the top bit. */
  predicate HighDue(pat: seq<byte>, at: nat, lc: byte, items: seq<Item>, end: nat) {
    ItemsTo(pat, at, lc, items, end) && !AnyHigh(items) && HighHere(pat, end, LastOf(lc, items))
  }

  /** The item that begins at at. */
  function ItemHere(pat: seq<byte>, at: nat, lc: byte): Item
    requires at < |pat| && (IsDash(pat[at], lc) ==> at + 1 < |pat|)
  {
    if IsDash(pat[at], lc) then To(pat[at + 1]) else Single(pat[at])
  }

  function NextAt(pat: seq<byte>, at: nat, lc: byte): nat
    requires at < |pat|
  {
    if IsDash(pat[at], lc) then at + 2 else at + 1
  }

  /** There is an item at at that brings no error, and another one after it. */
  predicate Goes(pat: seq<byte>, at: nat, lc: byte, narrow: bool)
    requires at < |pat|
  {
    && pat[at] != 0 && pat[at] != NEWLINE && !(narrow && High(pat[at]))
    && (IsDash(pat[at], lc) ==> at + 1 < |pat| && pat[at + 1] != RBRACKET && !(narrow && High(pat[at + 1])))
    && NextAt(pat, at, lc) < |pat| && pat[NextAt(pat, at, lc)] != RBRACKET
  }

  lemma GoesOn(pat: seq<byte>, at: nat, lc: byte, b: Bracket, full: bool)
    requires at < |pat| && Goes(pat, at, lc, full && !b.wide)
    ensures var i, next := ItemHere(pat, at, lc), NextAt(pat, at, lc);
            Brackets(pat, pat[at], at + 1, lc, b, full) ==
            Brackets(pat, pat[next], next + 1, ItemLast(i), AddItem(i, lc, b), full)
  {
    hide UpTo;
  }

  /** Where it does not go on. */
  lemma StopsHere(pat: seq<byte>, at: nat, lc: byte, b: Bracket, full: bool)
    requires at < |pat| && !Goes(pat, at, lc, full && !b.wide)
    ensures var r, narrow := Brackets(pat, pat[at], at + 1, lc, b, full), full && !b.wide;
            && (r == BadBracket(Code(49)) <==> pat[at] == 0 || pat[at] == NEWLINE)
            && (r == BadBracket(Code(50)) <==> narrow && HighHere(pat, at, lc))
            && (r.BadBracket? ==> r.e == Overrun || r.e == Code(49) || r.e == Code(50))
  {
    hide UpTo;
  }

  /** The character at at, or the one a range goes to, has the top bit. */
  predicate HighHere(pat: seq<byte>, at: nat, lc: byte) {
    at < |pat| && (High(pat[at]) || (IsDash(pat[at], lc) && at + 1 < |pat| && High(pat[at + 1])))
  }

  lemma ItemsToCons(pat: seq<byte>, at: nat, lc: byte, items: seq<Item>, end: nat)
    requires at < |pat| && items != [] && ItemsTo(pat, at, lc, items, end)
    ensures IsDash(pat[at], lc) ==> at + 1 < |pat|
    ensures items[0] == ItemHere(pat, at, lc) && ItemsTo(pat, NextAt(pat, at, lc), ItemLast(items[0]), items[1..], end)
    ensures LastOf(lc, items) == LastOf(ItemLast(items[0]), items[1..])
    ensures pat[at] != 0 && pat[at] != NEWLINE && (IsDash(pat[at], lc) ==> pat[at + 1] != RBRACKET)
    ensures NextAt(pat, at, lc) < |pat| && pat[NextAt(pat, at, lc)] != RBRACKET
  {
  }

  lemma ItemsToMore(pat: seq<byte>, at: nat, lc: byte, narrow: bool, rest: seq<Item>, end: nat)
    requires at < |pat| && Goes(pat, at, lc, narrow)
    requires ItemsTo(pat, NextAt(pat, at, lc), ItemLast(ItemHere(pat, at, lc)), rest, end)
    ensures var items := [ItemHere(pat, at, lc)] + rest;
            && ItemsTo(pat, at, lc, items, end) && LastOf(lc, items) == LastOf(ItemLast(items[0]), rest)
            && (AnyHigh(items) <==> High(ItemLast(items[0])) || AnyHigh(rest))
  {
    var items := [ItemHere(pat, at, lc)] + rest;
    assert items[1..] == rest;
    AnyHighCons(items);
  }

  /** No item with the top bit where there is no room for one. */
  predicate Narrow(items: seq<Item>, narrow: bool) {
    narrow ==> !AnyHigh(items)
  }

  /** Each error in a bracket has such a text. */
  lemma {:induction false} FaultFound(pat: seq<byte>, at: nat, lc: byte, b: Bracket, full: bool)
      returns (items: seq<Item>, end: nat)
    requires at < |pat| && Brackets(pat, pat[at], at + 1, lc, b, full).BadBracket?
    requires Brackets(pat, pat[at], at + 1, lc, b, full).e != Overrun
    ensures var e := Brackets(pat, pat[at], at + 1, lc, b, full).e;
            || (e == Code(49) && NullDue(pat, at, lc, items, end) && Narrow(items, full && !b.wide))
            || (e == Code(50) && full && !b.wide && HighDue(pat, at, lc, items, end))
    decreases |pat| - at
  {
    var narrow := full && !b.wide;
    hide Brackets;
    if Goes(pat, at, lc, narrow) {
      GoesOn(pat, at, lc, b, full);
      var i, next := ItemHere(pat, at, lc), NextAt(pat, at, lc);
      var rest;
      rest, end := FaultFound(pat, next, ItemLast(i), AddItem(i, lc, b), full);
      items := [i] + rest;
      ItemsToMore(pat, at, lc, narrow, rest, end);
    } else {
      StopsHere(pat, at, lc, b, full);
      items, end := [], at;
    }
  }

  /** Such a text gives the error. */
  lemma {:induction false} FaultRead(pat: seq<byte>, at: nat, lc: byte, b: Bracket, full: bool, items: seq<Item>,
                                     end: nat)
    requires at < |pat| && ItemsTo(pat, at, lc, items, end)
    ensures NullDue(pat, at, lc, items, end) && Narrow(items, full && !b.wide) ==>
              Brackets(pat, pat[at], at + 1, lc, b, full) == BadBracket(Code(49))
    ensures full && !b.wide && HighDue(pat, at, lc, items, end) ==>
              Brackets(pat, pat[at], at + 1, lc, b, full) == BadBracket(Code(50))
    decreases |items|
  {
    var narrow := full && !b.wide;
    hide Brackets;
    if items == [] {
      if !Goes(pat, at, lc, narrow) { StopsHere(pat, at, lc, b, full); }
    } else if Narrow(items, narrow) {
      ItemsToCons(pat, at, lc, items, end);
      AnyHighCons(items);
      GoesOn(pat, at, lc, b, full);
      FaultRead(pat, NextAt(pat, at, lc), ItemLast(items[0]), AddItem(items[0], lc, b), full, items[1..], end);
    }
  }

  // ----- rounds -----

  /**
   How far compile is: sp characters of the text read, used bytes of the buffer, first if there is nothing yet
   to repeat, and the groups begun, closed and still open.
   */
  datatype Sofar = Sofar(sp: nat, used: nat, first: bool, begun: nat, closed: nat, open: nat)

  function SofarOf(s: State): Sofar {
    Sofar(s.sp, |s.code|, s.lastep < 0, s.nbra, s.closed, |s.bracket|)
  }

  /** c comes next and is not the delimiter. */
  predicate Comes(a: Args, t: Sofar, c: byte) {
    IsAt(a.pat, t.sp, c) && c != a.eof
  }

  predicate ComesEscaped(a: Args, t: Sofar, c: byte) {
    Escaped(a.pat, t.sp, c) && a.eof != BACKSLASH
  }

  /** Where the items of a bracket begin. */
  function ItemsFrom(a: Args, t: Sofar): nat {
    if IsAt(a.pat, t.sp + 1, CARET) then t.sp + 2 else t.sp + 1
  }

  /** There is no room for the bitmap of a class with the top bit. */
  predicate NoWide(a: Args, t: Sofar) {
    t.used + 33 >= a.room
  }

  /** The error that the text at sp deserves. */
  ghost predicate Rejects(a: Args, t: Sofar, n: nat) {
    if t.used >= a.room then n == 50
    else
      match n
      case 25 => exists d :: ONE <= d <= NINE && ComesEscaped(a, t, d) && Num(d - ONE) >= t.closed
      case 36 => ComesEscaped(a, t, NEWLINE) || (Comes(a, t, NEWLINE) && a.sed)
      case 42 => if t.open == 0 then ComesEscaped(a, t, RPAREN) else PatternEnds(a, t)
      case 43 => ComesEscaped(a, t, LPAREN) && t.begun >= NBRA
      case 49 =>
        Comes(a, t, LBRACKET) && t.used + 17 < a.room && ItemsWrong(a.pat, ItemsFrom(a, t), n, NoWide(a, t))
      case 50 =>
        Comes(a, t, LBRACKET) && (t.used + 17 >= a.room || ItemsWrong(a.pat, ItemsFrom(a, t), n, NoWide(a, t)))
      case _ =>
        !t.first && ComesEscaped(a, t, LBRACE) && RangeWrong(a.pat, t.sp + 2, n, t.used + 1 < a.room)
  }

  /** The delimiter, or the newline that may stand for it. */
  predicate PatternEnds(a: Args, t: Sofar) {
    (IsAt(a.pat, t.sp, a.eof) && (a.eof == BACKSLASH ==> t.sp + 1 < |a.pat|)) || (Comes(a, t, NEWLINE) && !a.sed)
  }

  lemma RangeNumbers(pat: seq<byte>, at: nat, n: nat, roomy: bool)
    requires RangeWrong(pat, at, n, roomy)
    ensures n == 11 || n == 16 || n == 44 || n == 45 || n == 46
  {
  }

  /** An error in a bracket whose items begin at at. */
  ghost predicate ItemsWrong(pat: seq<byte>, at: nat, n: nat, narrow: bool) {
    || (n == 49 && exists items, end :: NullDue(pat, at, 0, items, end) && Narrow(items, narrow))
    || (n == 50 && narrow && exists items, end :: HighDue(pat, at, 0, items, end))
  }

  lemma ItemsRejects(pat: seq<byte>, at: nat, full: bool, n: nat)
    requires at < |pat|
    ensures Brackets(pat, pat[at], at + 1, 0, Bracket(Blank, false), full) == BadBracket(Code(n)) <==>
            ItemsWrong(pat, at, n, full)
  {
    hide Brackets, ItemsTo;
    var b := Bracket(Blank, false);
    var r := Brackets(pat, pat[at], at + 1, 0, b, full);
    if r.BadBracket? && r.e != Overrun { var items, end := FaultFound(pat, at, 0, b, full); }
    forall items, end | NullDue(pat, at, 0, items, end) && Narrow(items, full) ensures r == BadBracket(Code(49)) {
      FaultRead(pat, at, 0, b, full, items, end);
    }
    forall items, end | full && HighDue(pat, at, 0, items, end) ensures r == BadBracket(Code(50)) {
      FaultRead(pat, at, 0, b, full, items, end);
    }
  }

  /** At the end of the text there is nothing wrong yet. */
  lemma NothingWrong(pat: seq<byte>, at: nat, n: nat, narrow: bool)
    requires at >= |pat|
    ensures !ItemsWrong(pat, at, n, narrow)
  {
  }

  /** A bracket: its errors are 49 and 50. */
  lemma BracketRejects(a: Args, s: State, n: nat)
    requires StateOk(s) && |s.code| + 17 < a.room && Comes(a, SofarOf(s), LBRACKET)
    ensures Round(a, s) == Failed(Code(n)) <==> ItemsWrong(a.pat, ItemsFrom(a, SofarOf(s)), n, NoWide(a, SofarOf(s)))
  {
    hide Brackets, ItemsWrong;
    var t, here := SofarOf(s), s.(sp := s.sp + 1, lastep := |s.code|);
    var at := ItemsFrom(a, t);
    assert Round(a, s) == OpenBracket(a, here);
    if at < |a.pat| {
      ItemsRejects(a.pat, at, NoWide(a, t), n);
    } else {
      NothingWrong(a.pat, at, n, NoWide(a, t));
    }
  }

  lemma RangeRejects(a: Args, s: State, n: nat)
    requires StateOk(s) && |s.code| < a.room && ComesEscaped(a, SofarOf(s), LBRACE) && 0 <= s.lastep
    ensures Round(a, s) == Failed(Code(n)) <==> RangeWrong(a.pat, s.sp + 2, n, |s.code| + 1 < a.room)
  {
    hide Interval, RangeWrong;
    var s' := s.(sp := s.sp + 2, code := s.code[s.lastep := s.code[s.lastep] | RNGE]);
    assert Round(a, s) == Interval(a, s');
    IntervalRejects(a, s', n);
  }

  /** The other characters after a backslash. */
  lemma EscapeRejects(a: Args, s: State, n: nat)
    requires StateOk(s) && |s.code| < a.room && s.sp + 1 < |a.pat|
    requires Comes(a, SofarOf(s), BACKSLASH) && (a.pat[s.sp + 1] == LBRACE ==> s.lastep < 0)
    ensures Round(a, s) == Failed(Code(n)) <==> Rejects(a, SofarOf(s), n)
  {
    hide Interval, RangeWrong, ItemsWrong;
    var d := a.pat[s.sp + 1];
    if ONE <= d <= NINE && Num(d - ONE) >= s.closed { assert ComesEscaped(a, SofarOf(s), d); }
  }

  lemma PlainRejects(a: Args, s: State, n: nat)
    requires StateOk(s) && |s.code| < a.room && s.sp < |a.pat|
    requires !Comes(a, SofarOf(s), BACKSLASH) && !Comes(a, SofarOf(s), LBRACKET)
    requires a.pat[s.sp] == BACKSLASH ==> s.sp + 1 < |a.pat|
    ensures Round(a, s) == Failed(Code(n)) <==> Rejects(a, SofarOf(s), n)
  {
    hide RangeWrong, ItemsWrong, Escape, OpenBracket;
  }

  /** A round answers an error exactly where the text deserves it. */
  lemma RoundRejects(a: Args, s: State, n: nat)
    requires StateOk(s)
    ensures Round(a, s) == Failed(Code(n)) <==> Rejects(a, SofarOf(s), n)
  {
    var t := SofarOf(s);
    hide Round, Rejects;
    if |s.code| >= a.room || s.sp >= |a.pat| || (a.pat[s.sp] == BACKSLASH && s.sp + 1 >= |a.pat|) {
      ShortRejects(a, s, n);
    } else if Comes(a, t, LBRACKET) {
      OpenRejects(a, s, n);
    } else if ComesEscaped(a, t, LBRACE) && 0 <= s.lastep {
      CountRejects(a, s, n);
    } else if Comes(a, t, BACKSLASH) {
      EscapeRejects(a, s, n);
    } else {
      PlainRejects(a, s, n);
    }
  }

  lemma ShortRejects(a: Args, s: State, n: nat)
    requires StateOk(s)
    requires |s.code| >= a.room || s.sp >= |a.pat| || (a.pat[s.sp] == BACKSLASH && s.sp + 1 >= |a.pat|)
    ensures Round(a, s) == Failed(Code(n)) <==> Rejects(a, SofarOf(s), n)
  {
    hide RangeWrong, ItemsWrong, Switch;
  }

  lemma CountRejects(a: Args, s: State, n: nat)
    requires StateOk(s) && |s.code| < a.room && ComesEscaped(a, SofarOf(s), LBRACE) && 0 <= s.lastep
    ensures Round(a, s) == Failed(Code(n)) <==> Rejects(a, SofarOf(s), n)
  {
    hide Round, ItemsWrong, RangeWrong;
    RangeRejects(a, s, n);
    var roomy := |s.code| + 1 < a.room;
    if RangeWrong(a.pat, s.sp + 2, n, roomy) { RangeNumbers(a.pat, s.sp + 2, n, roomy); }
  }

  lemma OpenRejects(a: Args, s: State, n: nat)
    requires StateOk(s) && |s.code| < a.room && Comes(a, SofarOf(s), LBRACKET)
    ensures Round(a, s) == Failed(Code(n)) <==> Rejects(a, SofarOf(s), n)
  {
    if |s.code| + 17 < a.room {
      hide Round, RangeWrong;
      BracketRejects(a, s, n);
    } else {
      hide OpenBracket, RangeWrong;
    }
  }

  // ----- whole patterns -----

  /** The rounds of compile up to s, from the beginning of the pattern. */
  ghost predicate Reaches(a: Args, ss: seq<State>)
    requires a.pat != []
  {
    && ss != [] && ss[0] == Initial(a.pat[0] == CARET) && (forall i | 0 <= i < |ss| :: StateOk(ss[i]))
    && forall i | 0 < i < |ss| :: Round(a, ss[i - 1]) == Next(ss[i])
  }

  lemma {:induction false} RoundsReject(a: Args, ss: seq<State>, n: nat) returns (more: seq<State>)
    requires a.pat != [] && Reaches(a, ss) && Rounds(a, ss[|ss| - 1]) == Failed(Code(n))
    ensures Reaches(a, more) && Round(a, more[|more| - 1]) == Failed(Code(n))
    decreases |a.pat| - ss[|ss| - 1].sp
  {
    var s := ss[|ss| - 1];
    hide Round, Rounds, Initial;
    RoundsOne(a, s);
    more := ss;
    if Round(a, s).Next? {
      more := RoundsReject(a, ss + [Round(a, s).s], n);
    }
  }

  lemma {:induction false} ReachedRounds(a: Args, ss: seq<State>)
    requires a.pat != [] && Reaches(a, ss)
    ensures Rounds(a, ss[|ss| - 1]) == Rounds(a, Initial(a.pat[0] == CARET))
    decreases |ss|
  {
    hide Round, Rounds, Initial;
    var n := |ss| - 1;
    if n > 0 {
      ReachedRounds(a, ss[..n]);
      assert Round(a, ss[n - 1]) == Next(ss[n]);
      RoundsOne(a, ss[n - 1]);
    }
  }

  /** compile refuses a pattern exactly if its rounds come to a place where the text deserves it. */
  lemma CompileRejects(a: Args, before: bool, n: nat)
    requires a.pat != [] && !EmptyPattern(a)
    ensures Compile(a, before) == CompileError(Code(n)) <==>
            exists ss :: Reaches(a, ss) && Rejects(a, SofarOf(ss[|ss| - 1]), n)
  {
    hide Round, Rounds, Initial, Rejects;
    if Compile(a, before) == CompileError(Code(n)) {
      var ss := RoundsReject(a, [Initial(a.pat[0] == CARET)], n);
      RoundRejects(a, ss[|ss| - 1], n);
    }
    forall ss | Reaches(a, ss) && Rejects(a, SofarOf(ss[|ss| - 1]), n)
      ensures Compile(a, before) == CompileError(Code(n))
    {
      var s := ss[|ss| - 1];
      RoundRejects(a, s, n);
      ReachedRounds(a, ss);
      RoundsOne(a, s);
    }
  }
  // ----- the part of a pattern before the fault -----

  datatype Through = Stopped | Through(g: Groups)

  /** The groups after ps, if each closing mark and reference has its group and there are not too many. */
  function GroupsThrough(ps: seq<Piece>, g: Groups): Through {
    if ps == [] then Through.Through(g)
    else
      match ps[0]
      case GroupStart => if g.begun >= NBRA then Stopped else GroupsThrough(ps[1..], Begun(g))
      case GroupEnd => if g.stack == [] then Stopped else GroupsThrough(ps[1..], Ended(g))
      case BackRef(k) => if k >= g.closed then Stopped else GroupsThrough(ps[1..], g)
      case _ => GroupsThrough(ps[1..], g)
  }

  lemma RoomForPiece(p: Piece, used: nat, room: nat)
    requires used + PieceSize(p) < room
    ensures PieceRoom(p, used, room) == None && PieceSize(p) > 0
  {
  }

  /** One piece is read, and there is room for it. */
  lemma OneRead(a: Args, s: State, p: Piece, g: Groups, mid: nat, place: Place) returns (s': State)
    requires StateOk(s) && Tracks(s, g) && AtPlace(s, place) && EofOk(a.eof)
    requires PieceAt(a.pat, s.sp, p, mid, a.eof, place) && GroupsThrough([p], g).Through?
    requires |s.code| + PieceSize(p) < a.room
    ensures StateOk(s') && Rounds(a, s) == Rounds(a, s') && s'.sp == mid && 0 <= s'.lastep
    ensures |s'.code| == |s.code| + PieceSize(p) && Tracks(s', GroupsThrough([p], g).g) && AtPlace(s', PlaceAfter(p))
  {
    hide Rounds, Round, IsCode, CharAt, CountAt;
    RoomForPiece(p, |s.code|, a.room);
    assert [p][1..] == [];
    match p
    case Char(x, q) =>
      var m: nat :| CharAt(a.pat, s.sp, x, m, a.eof, place) && CountAt(a.pat, m, q, mid, a.eof);
      var c := CharPiece(a, s, x, q, m, mid, place);
      s' := After(s, mid, c);
    case GroupStart =>
      OpenPiece(a, s, g);
      s' := After(s, mid, [CBRA, Byte(g.begun)]).(nbra := s.nbra + 1, bracket := s.bracket + [Byte(s.nbra)]);
    case GroupEnd =>
      ClosePiece(a, s, g);
      var top := |g.stack| - 1;
      s' := After(s, mid, [CKET, s.bracket[top]]).(bracket := s.bracket[..top], closed := s.closed + 1);
    case BackRef(k) =>
      BackPiece(a, s, g, k);
      s' := After(s, mid, [CBACK, Byte(k)]);
    case LineEnd =>
      EndPiece(a, s);
      s' := After(s, mid, [CDOL]);
  }

  lemma GroupsStep(ps: seq<Piece>, g: Groups)
    requires ps != [] && GroupsThrough(ps, g).Through?
    ensures GroupsThrough([ps[0]], g).Through?
    ensures GroupsThrough(ps[1..], GroupsThrough([ps[0]], g).g) == GroupsThrough(ps, g)
  {
    assert [ps[0]][1..] == [];
  }

  /** All the pieces before the fault are read, and there is room for them. */
  lemma {:induction false} PrefixRead(a: Args, s: State, ps: seq<Piece>, g: Groups, mid: nat, place: Place)
      returns (s': State)
    requires StateOk(s) && Tracks(s, g) && AtPlace(s, place) && EofOk(a.eof)
    requires PiecesAt(a.pat, s.sp, ps, mid, a.eof, place) && GroupsThrough(ps, g).Through?
    requires |s.code| + TotalSize(ps) < a.room
    ensures StateOk(s') && Rounds(a, s) == Rounds(a, s') && s'.sp == mid
    ensures |s'.code| == |s.code| + TotalSize(ps) && Tracks(s', GroupsThrough(ps, g).g)
    ensures if ps == [] then s' == s else 0 <= s'.lastep
    decreases |ps|
  {
    hide Rounds, PieceAt, PieceSize, GroupsThrough, StateOk, Tracks, AtPlace;
    s' := s;
    if ps == [] {
      assert GroupsThrough(ps, g).g == g by { NoPieces(g); }
    } else {
      var m: nat :| PieceAt(a.pat, s.sp, ps[0], m, a.eof, place) &&
          PiecesAt(a.pat, m, ps[1..], mid, a.eof, PlaceAfter(ps[0]));
      GroupsStep(ps, g);
      s' := OneRead(a, s, ps[0], g, m, place);
      var end := PrefixRead(a, s', ps[1..], GroupsThrough([ps[0]], g).g, mid, PlaceAfter(ps[0]));
      s' := end;
    }
  }

  lemma NoPieces(g: Groups)
    ensures GroupsThrough([], g) == Through.Through(g)
  {
  }

  /** After pieces that are in order and fit, the first fault in the text decides the error. */
  lemma FirstFault(a: Args, before: bool, ps: seq<Piece>, anchored: bool, mid: nat, n: nat)
    requires a.pat != [] && !EmptyPattern(a) && EofOk(a.eof) && (anchored <==> a.pat[0] == CARET)
    requires PiecesAt(a.pat, if anchored then 1 else 0, ps, mid, a.eof, First) && TotalSize(ps) < a.room
    requires GroupsThrough(ps, NOGROUPS).Through?
    requires var g := GroupsThrough(ps, NOGROUPS).g;
             Rejects(a, Sofar(mid, TotalSize(ps), ps == [], g.begun, g.closed, |g.stack|), n)
    ensures Compile(a, before) == CompileError(Code(n))
  {
    hide Rounds, Round, Rejects, PiecesAt, TotalSize;
    var s := PrefixRead(a, Initial(anchored), ps, NOGROUPS, mid, First);
    RoundRejects(a, s, n);
    RoundsOne(a, s);
  }

  /** Without a pattern compiled before, an empty one is error 41, unless sed calls. */
  method NothingBefore(a: Args) returns (r: Compiled)
    requires a.room > 0
    ensures r == CompileError(Code(41)) <==> EmptyPattern(a) && !a.sed
    ensures r == NoPattern <==> EmptyPattern(a) && a.sed
  {
    var compiler := new Compiler(a.room);
    assert compiler.buf[..][0] == compiler.buf[0];
    r := compiler.Run(a);
    NoFortyOne(a, false);
  }

  lemma NoFortyOne(a: Args, before: bool)
    ensures Compile(a, before) == CompileError(Code(41)) ==> EmptyPattern(a)
  {
    hide Rounds;
    if a.pat != [] && !EmptyPattern(a) { CompileRejects(a, before, 41); }
  }
}
