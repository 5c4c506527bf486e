/**
 cpout (usr/src/proto/cpout.c): files named on the standard input are packed onto volumes. A file
 that does not fit is held back in a queue while there is enough room to look for smaller ones.
 */
module Cpout {
  const CRITSIZE: int := 512
  const HEADERLEN: nat := 77
  const TRAILERLEN: int := 87

  // ----- the list of files -----

  /** A line of the input: the name, and what stat says of it; nothing if there is no such file. */
  datatype Stat = Missing | Stat(size: nat, isdir: bool)

  datatype Line = Line(name: string, stat: Stat)

  /** What is to be packed: the size includes the header. */
  datatype Item = Item(name: string, size: int, isdir: bool)

  /** A name that stat does not find is packed with the size and kind of the one before. */
  function ItemOf(l: Line, before: Item): Item {
    match l.stat
    case Missing => Item(l.name, before.size, before.isdir)
    case Stat(size, isdir) => Item(l.name, (if isdir then 0 else size) + HEADERLEN + |l.name|, isdir)
  }

  function Items(lines: seq<Line>, before: Item): (r: seq<Item>)
    ensures |r| == |lines|
  {
    if lines == [] then [] else [ItemOf(lines[0], before)] + Items(lines[1..], ItemOf(lines[0], before))
  }

  function Sum(items: seq<Item>): int {
    if items == [] then 0 else Sum(items[..|items| - 1]) + items[|items| - 1].size
  }

  // ----- one turn of the loop -----

  /**
   input is what is still to be read, and cut says that its last line has no newline. eof is
   feof(stdin). vols lists what went onto each volume; queued and left log the queue.
   */
  datatype State = State(input: seq<Item>, cut: bool, eof: bool, cur: Item, queue: seq<Item>, remains: int,
                         vols: seq<seq<Item>>, reported: seq<Item>, queued: seq<Item>, left: seq<Item>)

  /** Room on an empty volume. */
  function Empty(target: int): int {
    target - TRAILERLEN
  }

  /** nextfile; the end of the input is only seen by reading it, or a line that it cuts short. */
  function Advance(s: State): State {
    if s.input == [] then s.(eof := true)
    else s.(cur := s.input[0], input := s.input[1..], eof := s.cut && |s.input| == 1)
  }

  function Floppy(s: State, target: int): State {
    s.(remains := Empty(target), vols := s.vols + [[]])
  }

  function Write(s: State, i: Item): State
    requires s.vols != []
  {
    var n := |s.vols| - 1;
    s.(remains := s.remains - i.size, vols := s.vols[n := s.vols[n] + [i]])
  }

  function Dequeue(s: State): State
    requires s.vols != [] && s.queue != []
  {
    Write(s, s.queue[0]).(queue := s.queue[1..], left := s.left + [s.queue[0]])
  }

  predicate Finished(s: State) {
    s.eof && s.queue == []
  }

  /** At the end of the input a new volume is begun for the head of the queue, if it does not fit. */
  function Room(s: State, target: int): State {
    if s.eof && s.queue != [] && s.queue[0].size > s.remains then Floppy(s, target) else s
  }

  /** What becomes of a name that does not fit the volume. */
  function Refused(s: State, target: int): State {
    if s.cur.isdir || s.remains < CRITSIZE then Floppy(s, target)
    else if s.cur.size > target then Advance(s.(reported := s.reported + [s.cur]))
    else Advance(s.(queue := s.queue + [s.cur], queued := s.queued + [s.cur]))
  }

  function Next(s: State, target: int): State
    requires s.vols != []
  {
    var s := Room(s, target);
    if s.queue != [] && s.queue[0].size <= s.remains then Dequeue(s)
    else if s.cur.size <= s.remains then Advance(Write(s, s.cur))
    else Refused(s, target)
  }

  /** The state of the loop at its start: a volume is in, and the first name is read. */
  function Start(items: seq<Item>, cut: bool, before: Item, target: int): State {
    Advance(State(items, cut, false, before, [], Empty(target), [[]], [], [], []))
  }

  /** n turns, or as many as there are. */
  function Run(s: State, n: nat, target: int): (r: State)
    requires s.vols != []
    ensures r.vols != []
    decreases n
  {
    if n == 0 || Finished(s) then s else Run(Next(s, target), n - 1, target)
  }

  // ----- what every turn keeps -----

  /** The file being looked at and those to be read; a name that the end of the input cut short is not looked at. */
  function Pending(s: State): seq<Item> {
    (if s.eof then [] else [s.cur]) + if s.cut && s.input != [] then s.input[..|s.input| - 1] else s.input
  }

  /** All that was packed so far. */
  function Packed(vols: seq<seq<Item>>): seq<Item> {
    if vols == [] then [] else Packed(vols[..|vols| - 1]) + vols[|vols| - 1]
  }

  /**
   Either a file fits an empty volume, or it is reported: a plain file beyond targetsize, where a volume is
   worth searching.
   */
  predicate Good(i: Item, target: int) {
    i.size <= Empty(target) || (!i.isdir && i.size > target && Empty(target) >= CRITSIZE)
  }

  predicate TooBig(i: Item, target: int) {
    i.size > Empty(target)
  }

  function BigOnes(items: seq<Item>, target: int): seq<Item> {
    if items == [] then [] else (if TooBig(items[0], target) then [items[0]] else []) + BigOnes(items[1..], target)
  }

  predicate AllGood(items: seq<Item>, target: int) {
    forall i | i in items :: Good(i, target)
  }

  /** remains is what is left of the last volume, and no volume holds too much. */
  predicate VolsOk(vols: seq<seq<Item>>, remains: int, target: int) {
    && vols != [] && remains == Empty(target) - Sum(vols[|vols| - 1]) && 0 <= remains <= Empty(target)
    && forall k | 0 <= k < |vols| :: 0 <= Sum(vols[k]) <= Empty(target)
  }

  /** Each of items is in one place. */
  predicate Accounts(items: seq<Item>, packed: seq<Item>, reported: seq<Item>, queue: seq<Item>, pending: seq<Item>) {
    multiset(items) == multiset(packed) + multiset(reported) + multiset(queue) + multiset(pending)
  }

  predicate AllFit(queue: seq<Item>, target: int) {
    forall i | i in queue :: i.size <= Empty(target)
  }

  /** items is what there was to pack. */
  predicate Inv(s: State, items: seq<Item>, target: int) {
    && VolsOk(s.vols, s.remains, target) && AllFit(s.queue, target)
    && Accounts(items, Packed(s.vols), s.reported, s.queue, Pending(s))
    && s.reported + BigOnes(Pending(s), target) == BigOnes(items, target)
    && s.queued == s.left + s.queue
    && (s.eof ==> s.input == [])
  }

  /** Sizes include a header. */
  predicate AllSized(items: seq<Item>) {
    forall i | i in items :: i.size >= 0
  }

  /** When the file being looked at is done with, the others are still pending. */
  lemma PendingAdvance(s: State)
    requires !s.eof
    ensures Pending(s) == [s.cur] + Pending(Advance(s)) && (Advance(s).eof ==> Advance(s).input == [])
  {
  }

  /** i goes from the pending files to one of the other places. */
  lemma Moved(items: seq<Item>, packed: seq<Item>, reported: seq<Item>, queue: seq<Item>, i: Item, rest: seq<Item>)
    requires Accounts(items, packed, reported, queue, [i] + rest)
    ensures i in items && Accounts(items, packed + [i], reported, queue, rest)
    ensures Accounts(items, packed, reported + [i], queue, rest) && Accounts(items, packed, reported, queue + [i], rest)
  {
    assert i in multiset(items);
  }

  lemma Unqueued(items: seq<Item>, packed: seq<Item>, reported: seq<Item>, i: Item, queue: seq<Item>, rest: seq<Item>)
    requires Accounts(items, packed, reported, [i] + queue, rest)
    ensures i in items && Accounts(items, packed + [i], reported, queue, rest)
  {
    assert i in multiset(items);
  }

  lemma {:induction false} PackedLast(vols: seq<seq<Item>>, i: Item)
    requires vols != []
    ensures var n := |vols| - 1; Packed(vols[n := vols[n] + [i]]) == Packed(vols) + [i]
    ensures Packed(vols + [[]]) == Packed(vols)
  {
    var n := |vols| - 1;
    assert vols[n := vols[n] + [i]][..n] == vols[..n];
    assert (vols + [[]])[..n + 1] == vols;
  }

  lemma SumLast(items: seq<Item>, i: Item)
    ensures Sum(items + [i]) == Sum(items) + i.size && Sum([]) == 0
  {
    assert (items + [i])[..|items|] == items;
  }

  lemma WriteVols(s: State, i: Item, target: int)
    requires VolsOk(s.vols, s.remains, target) && 0 <= i.size <= s.remains
    ensures var w := Write(s, i); VolsOk(w.vols, w.remains, target) && Packed(w.vols) == Packed(s.vols) + [i]
  {
    SumLast(s.vols[|s.vols| - 1], i);
    PackedLast(s.vols, i);
  }

  lemma FloppyInv(s: State, items: seq<Item>, target: int)
    requires Inv(s, items, target)
    ensures Inv(Floppy(s, target), items, target)
  {
    hide Accounts, BigOnes, Packed;
    PackedLast(s.vols, s.cur);
    SumLast([], s.cur);
    assert Pending(Floppy(s, target)) == Pending(s);
  }

  lemma DequeueInv(s: State, items: seq<Item>, target: int)
    requires Inv(s, items, target) && AllSized(items) && s.queue != [] && s.queue[0].size <= s.remains
    ensures Inv(Dequeue(s), items, target)
  {
    hide Accounts, BigOnes, Packed, VolsOk;
    var i, rest := s.queue[0], s.queue[1..];
    assert s.queue == [i] + rest && s.left + ([i] + rest) == s.left + [i] + rest;
    Unqueued(items, Packed(s.vols), s.reported, i, rest, Pending(s));
    WriteVols(s, i, target);
    RemainsSmall(s.vols, s.remains, target);
    assert Pending(Dequeue(s)) == Pending(s);
  }

  lemma WriteCurInv(s: State, items: seq<Item>, target: int)
    requires Inv(s, items, target) && AllSized(items) && !s.eof && s.cur.size <= s.remains
    ensures Inv(Advance(Write(s, s.cur)), items, target)
  {
    hide Accounts, BigOnes, Packed, VolsOk;
    var rest := Pending(Advance(s));
    PendingAdvance(s);
    Moved(items, Packed(s.vols), s.reported, s.queue, s.cur, rest);
    WriteVols(s, s.cur, target);
    RemainsSmall(s.vols, s.remains, target);
    BigFirst(s.cur, rest, target);
    assert Pending(Advance(Write(s, s.cur))) == rest;
  }

  lemma RemainsSmall(vols: seq<seq<Item>>, remains: int, target: int)
    requires VolsOk(vols, remains, target)
    ensures 0 <= remains <= Empty(target) && vols != []
  {
  }

  lemma BigFirst(i: Item, rest: seq<Item>, target: int)
    ensures BigOnes([i] + rest, target) == (if TooBig(i, target) then [i] else []) + BigOnes(rest, target)
  {
    assert ([i] + rest)[1..] == rest;
  }

  lemma ReportInv(s: State, items: seq<Item>, target: int)
    requires Inv(s, items, target) && !s.eof && s.cur.size > target
    ensures Inv(Advance(s.(reported := s.reported + [s.cur])), items, target)
  {
    hide Accounts, BigOnes, Packed, VolsOk;
    var rest := Pending(Advance(s));
    PendingAdvance(s);
    Moved(items, Packed(s.vols), s.reported, s.queue, s.cur, rest);
    BigFirst(s.cur, rest, target);
    var r := Advance(s.(reported := s.reported + [s.cur]));
    assert Pending(r) == rest && s.reported + ([s.cur] + BigOnes(rest, target)) ==
        s.reported + [s.cur] + BigOnes(rest, target);
  }

  lemma EnqueueInv(s: State, items: seq<Item>, target: int)
    requires Inv(s, items, target) && !s.eof && s.cur.size <= Empty(target)
    ensures Inv(Advance(s.(queue := s.queue + [s.cur], queued := s.queued + [s.cur])), items, target)
  {
    hide Accounts, BigOnes, Packed, VolsOk;
    var rest := Pending(Advance(s));
    PendingAdvance(s);
    Moved(items, Packed(s.vols), s.reported, s.queue, s.cur, rest);
    BigFirst(s.cur, rest, target);
    var r := Advance(s.(queue := s.queue + [s.cur], queued := s.queued + [s.cur]));
    assert Pending(r) == rest && s.left + (s.queue + [s.cur]) == s.left + s.queue + [s.cur];
  }

  lemma NextInv(s: State, items: seq<Item>, target: int)
    requires Inv(s, items, target) && AllSized(items) && AllGood(items, target) && !Finished(s)
    ensures s.vols != [] && Inv(Next(s, target), items, target)
  {
    hide Inv, Write, Packed;
    RoomInv(s, items, target);
    var r := Room(s, target);
    if r.queue != [] && r.queue[0].size <= r.remains {
      DequeueInv(r, items, target);
    } else {
      Looking(s, items, target);
      if r.cur.size <= r.remains {
        WriteCurInv(r, items, target);
      } else if r.cur.isdir || r.remains < CRITSIZE {
        FloppyInv(r, items, target);
      } else if r.cur.size > target {
        ReportInv(r, items, target);
      } else {
        EnqueueInv(r, items, target);
      }
    }
  }

  lemma RoomInv(s: State, items: seq<Item>, target: int)
    requires Inv(s, items, target)
    ensures s.vols != [] && Inv(Room(s, target), items, target)
  {
    hide Accounts, BigOnes, Packed;
    FloppyInv(s, items, target);
  }

  lemma CurIn(s: State, items: seq<Item>, target: int)
    requires Inv(s, items, target) && !s.eof
    ensures s.cur in items
  {
    hide BigOnes, Packed, VolsOk;
    PendingAdvance(s);
    Moved(items, Packed(s.vols), s.reported, s.queue, s.cur, Pending(Advance(s)));
  }

  /** A turn that does not take from the queue looks at a pending file. */
  lemma Looking(s: State, items: seq<Item>, target: int)
    requires Inv(s, items, target) && AllGood(items, target) && !Finished(s)
    requires var r := Room(s, target); !(r.queue != [] && r.queue[0].size <= r.remains)
    ensures Room(s, target) == s && !s.eof && Good(s.cur, target)
  {
    hide BigOnes, Packed, Accounts;
    if !s.eof { CurIn(s, items, target); }
  }

  // ----- what goes out first -----

  /**
   The file held back longest goes out next exactly if it fits the volume, or the input is at its end,
   and then nothing else is looked at.
   */
  lemma HeadGoes(s: State, target: int)
    requires s.vols != [] && s.queue != [] && s.queue[0].size <= Empty(target)
    ensures var t, i := Next(s, target), s.queue[0];
            if i.size <= s.remains || s.eof then
              && t.left == s.left + [i] && Packed(t.vols) == Packed(s.vols) + [i] && Pending(t) == Pending(s)
              && t.reported == s.reported
            else t.left == s.left
  {
    hide Packed, Pending;
    var r := Room(s, target);
    if r.queue[0].size <= r.remains {
      PackedLast(s.vols, s.queue[0]);
      PackedLast(r.vols, s.queue[0]);
      PendingIs(s, Next(s, target));
    }
  }

  /** Files held back that fit together all go out before any other, in the order they were held back. */
  lemma {:induction false} Drains(s: State, n: nat, target: int)
    requires s.vols != [] && AllSized(s.queue) && n <= |s.queue| && Sum(s.queue[..n]) <= s.remains
    ensures var r := Run(s, n, target);
            && Packed(r.vols) == Packed(s.vols) + s.queue[..n] && r.queue == s.queue[n..] && |r.vols| == |s.vols|
            && Pending(r) == Pending(s) && r.reported == s.reported && r.left == s.left + s.queue[..n]
    decreases n
  {
    hide Packed, Sum, Pending, Next, Dequeue;
    if n > 0 {
      SumFirst(s.queue[..n]);
      SumSized(s.queue[..n][1..]);
      DrainOne(s, target);
      FirstOf(s.queue, n);
      Drains(Next(s, target), n - 1, target);
    }
  }

  lemma FirstOf(queue: seq<Item>, n: nat)
    requires 0 < n <= |queue|
    ensures queue[..n] == [queue[0]] + queue[1..][..n - 1] && queue[..n][1..] == queue[1..][..n - 1]
    ensures queue[n..] == queue[1..][n - 1..]
  {
  }

  lemma DrainOne(s: State, target: int)
    requires s.vols != [] && s.queue != [] && 0 <= s.queue[0].size <= s.remains
    ensures var t, i := Next(s, target), s.queue[0];
            && !Finished(s) && |t.vols| == |s.vols| && Packed(t.vols) == Packed(s.vols) + [i] && t.queue == s.queue[1..]
            && t.remains == s.remains - i.size && Pending(t) == Pending(s) && t.reported == s.reported
            && t.left == s.left + [i]
  {
    PackedLast(s.vols, s.queue[0]);
    PendingIs(s, Next(s, target));
  }

  lemma {:induction false} SumFirst(items: seq<Item>)
    requires items != []
    ensures Sum(items) == items[0].size + Sum(items[1..])
    decreases |items|
  {
    var n := |items| - 1;
    if n > 0 {
      SumFirst(items[..n]);
      assert items[1..][..n - 1] == items[..n][1..];
    }
  }

  lemma {:induction false} SumSized(items: seq<Item>)
    requires AllSized(items)
    ensures Sum(items) >= 0
    decreases |items|
  {
    if items != [] { SumSized(items[..|items| - 1]); }
  }

  /**
   A new volume is begun only when the file held back longest does not fit, and either the input is at
   its end or neither does the file being looked at, which is a directory or too little room is left.
   */
  lemma NewVolume(s: State, target: int)
    requires s.vols != [] && |Next(s, target).vols| > |s.vols|
    ensures s.queue != [] ==> s.queue[0].size > s.remains
    ensures (s.eof && s.queue != []) || (s.cur.size > s.remains && (s.cur.isdir || s.remains < CRITSIZE))
  {
  }

  // ----- every run ends, or none does -----

  function Left(s: State, target: int): nat {
    2 * (2 * |Pending(s)| + |s.queue|) + if s.remains < Empty(target) then 1 else 0
  }

  lemma NextFalls(s: State, items: seq<Item>, target: int)
    requires Inv(s, items, target) && AllGood(items, target) && !Finished(s)
    ensures s.vols != [] && Left(Next(s, target), target) < Left(s, target)
  {
    hide Inv, Pending;
    RoomInv(s, items, target);
    var r := Room(s, target);
    if r.queue != [] && r.queue[0].size <= r.remains {
      PendingIs(s, Dequeue(r));
    } else {
      Looking(s, items, target);
      PendingAdvance(s);
      RemainsBounded(s, items, target);
      PendingIs(Advance(s), Advance(Write(s, s.cur)));
      PendingIs(Advance(s), Advance(s.(reported := s.reported + [s.cur])));
      PendingIs(Advance(s), Advance(s.(queue := s.queue + [s.cur], queued := s.queued + [s.cur])));
      PendingIs(s, Floppy(s, target));
    }
  }

  lemma PendingIs(s: State, r: State)
    requires s.input == r.input && s.cut == r.cut && s.eof == r.eof && s.cur == r.cur
    ensures Pending(s) == Pending(r)
  {
  }

  lemma RemainsBounded(s: State, items: seq<Item>, target: int)
    requires Inv(s, items, target)
    ensures s.remains <= Empty(target)
  {
  }

  lemma {:induction false} RunInv(s: State, items: seq<Item>, n: nat, target: int)
    requires Inv(s, items, target) && AllSized(items) && AllGood(items, target)
    ensures Inv(Run(s, n, target), items, target) && (n >= Left(s, target) ==> Finished(Run(s, n, target)))
    decreases n
  {
    hide Inv, Left, Next;
    if n > 0 && !Finished(s) {
      InvVols(s, items, target);
      NextInv(s, items, target);
      NextFalls(s, items, target);
      InvVols(Next(s, target), items, target);
      RunInv(Next(s, target), items, n - 1, target);
    } else if !Finished(s) {
      LeftZero(s, target);
      InvVols(s, items, target);
    } else {
      InvVols(s, items, target);
    }
  }

  lemma InvVols(s: State, items: seq<Item>, target: int)
    requires Inv(s, items, target)
    ensures s.vols != []
  {
  }

  lemma LeftZero(s: State, target: int)
    requires !Finished(s)
    ensures Left(s, target) > 0
  {
  }

  /** The names looked at: all, or all but one that the end of the input cuts short. */
  function Looked(items: seq<Item>, cut: bool): seq<Item> {
    if cut && items != [] then items[..|items| - 1] else items
  }

  lemma StartInv(items: seq<Item>, cut: bool, before: Item, target: int)
    requires Empty(target) >= 0
    ensures Inv(Start(items, cut, before, target), Looked(items, cut), target)
  {
    var s := Start(items, cut, before, target);
    StartPending(items, cut, before, target);
    StartVols(target);
    hide Pending, Packed, Sum, BigOnes;
  }

  lemma StartVols(target: int)
    requires Empty(target) >= 0
    ensures VolsOk([[]], Empty(target), target) && Packed([[]]) == []
  {
    var none: seq<seq<Item>> := [[]];
    assert none[..0] == [];
  }

  lemma StartPending(items: seq<Item>, cut: bool, before: Item, target: int)
    ensures var s := Start(items, cut, before, target); Pending(s) == Looked(items, cut) && (s.eof ==> s.input == [])
  {
  }

  /** If every name is good: all turns come to an end, and then each name is packed or reported once, in this way. */
  lemma AllPacked(items: seq<Item>, cut: bool, before: Item, target: int) returns (n: nat)
    requires Empty(target) >= 0 && AllSized(items) && AllGood(Looked(items, cut), target)
    ensures var r, all := Run(Start(items, cut, before, target), n, target), Looked(items, cut);
            && Finished(r) && multiset(all) == multiset(Packed(r.vols)) + multiset(r.reported)
            && r.reported == BigOnes(all, target)
            && (forall k | 0 <= k < |r.vols| :: Sum(r.vols[k]) <= Empty(target))
            && r.queued == r.left
  {
    StartInv(items, cut, before, target);
    var s := Start(items, cut, before, target);
    n := Left(s, target);
    RunInv(s, Looked(items, cut), n, target);
    var r := Run(s, n, target);
    assert Pending(r) == [];
  }

  /** A name that is not good is never got rid of. */
  predicate Stuck(s: State, i: Item, target: int) {
    !Good(i, target) && s.vols != [] && s.remains <= Empty(target) && (s.eof ==> s.input == []) &&
        (i in Pending(s) || i in s.queue)
  }

  predicate Sized(s: State) {
    AllSized(s.queue) && s.cur.size >= 0 && AllSized(s.input)
  }

  lemma NextSized(s: State, target: int)
    requires s.vols != [] && Sized(s)
    ensures Sized(Next(s, target))
  {
    var r := Room(s, target);
    assert AllSized(r.queue + [r.cur]) && (r.queue != [] ==> AllSized(r.queue[1..])) &&
        (r.input != [] ==> AllSized(r.input[1..]));
  }

  lemma NextStuck(s: State, i: Item, target: int)
    requires Stuck(s, i, target) && Sized(s)
    ensures Stuck(Next(s, target), i, target)
  {
    hide Pending;
    var r := Room(s, target);
    PendingIs(s, r);
    if r.queue != [] && r.queue[0].size <= r.remains {
      PendingIs(s, Dequeue(r));
    } else {
      PendingIs(s, Floppy(r, target));
      PendingIs(Advance(r), Advance(Write(r, r.cur)));
      PendingIs(Advance(r), Advance(r.(reported := r.reported + [r.cur])));
      PendingIs(Advance(r), Advance(r.(queue := r.queue + [r.cur], queued := r.queued + [r.cur])));
      if r.eof { AtEnd(r); } else { PendingAdvance(r); }
    }
  }

  /** Reading on at the end of the input finds nothing more to look at. */
  lemma AtEnd(s: State)
    requires s.eof
    ensures s.input == [] ==> Pending(s) == [] && Pending(Advance(s)) == []
  {
  }

  lemma {:induction false} NeverEnds(s: State, i: Item, n: nat, target: int)
    requires Stuck(s, i, target) && Sized(s)
    ensures !Finished(Run(s, n, target))
    decreases n
  {
    hide Next;
    StuckNotDone(s, i, target);
    if n > 0 {
      NextStuck(s, i, target);
      NextSized(s, target);
      NeverEnds(Next(s, target), i, n - 1, target);
    }
  }

  lemma StuckNotDone(s: State, i: Item, target: int)
    requires Stuck(s, i, target)
    ensures !Finished(s)
  {
  }

  /** So the loop ends exactly when every name is good. */
  lemma EndsIff(items: seq<Item>, cut: bool, before: Item, target: int)
    requires Empty(target) >= 0 && AllSized(items) && before.size >= 0
    ensures (exists n :: Finished(Run(Start(items, cut, before, target), n, target))) <==>
            AllGood(Looked(items, cut), target)
  {
    var s := Start(items, cut, before, target);
    if AllGood(Looked(items, cut), target) {
      var n := AllPacked(items, cut, before, target);
    } else {
      var i :| i in Looked(items, cut) && !Good(i, target);
      StartPending(items, cut, before, target);
      forall n ensures !Finished(Run(s, n, target)) { NeverEnds(s, i, n, target); }
    }
  }

  // ----- the program -----

  class QItem {
    const item: Item
    var qnext: QItem?

    constructor (item: Item)
      ensures this.item == item && qnext == null
    {
      this.item, qnext := item, null;
    }
  }

  class Packer {
    const target: int
    const cut: bool
    var input: seq<Item>
    var eof: bool
    var cur: Item
    var remains: int
    var vols: seq<seq<Item>>
    var reported: seq<Item>
    var qhead: QItem?
    var qtail: QItem?
    ghost var nodes: seq<QItem>
    ghost var queued: seq<Item>
    ghost var left: seq<Item>

    /** The queue is linked from its head to its tail. */
    ghost predicate Valid()
      reads this, nodes
    {
      && vols != [] && (forall j, k | 0 <= j < k < |nodes| :: nodes[j] != nodes[k])
      && (if nodes == [] then qhead == null && qtail == null else qhead == nodes[0] && qtail == nodes[|nodes| - 1])
      && (forall k | 0 < k < |nodes| :: nodes[k - 1].qnext == nodes[k])
      && (nodes != [] ==> nodes[|nodes| - 1].qnext == null)
    }

    ghost function Queue(): (r: seq<Item>)
      reads this`nodes
      ensures |r| == |nodes| && forall k | 0 <= k < |nodes| :: r[k] == nodes[k].item
    {
      var ns := nodes;
      seq(|ns|, k requires 0 <= k < |ns| => ns[k].item)
    }

    ghost function S(): State
      reads this
    {
      State(input, cut, eof, cur, Queue(), remains, vols, reported, queued, left)
    }

    /** The first volume is in and the first name is read. */
    constructor (items: seq<Item>, cut: bool, before: Item, target: int)
      ensures Valid() && nodes == [] && this.target == target && S() == Start(items, cut, before, target)
    {
      this.target, this.cut := target, cut;
      input, eof, cur, remains := items, false, before, target - TRAILERLEN;
      vols, reported, qhead, qtail, nodes, queued, left := [[]], [], null, null, [], [], [];
      new;
      NextFile();
    }

    method NextFile()
      requires Valid()
      modifies this`input, this`eof, this`cur
      ensures Valid() && S() == Advance(old(S()))
    {
      if input == [] {
        eof := true;
        return;
      }
      eof := cut && |input| == 1;
      cur := input[0];
      input := input[1..];
    }

    method NextFloppy()
      requires Valid()
      modifies this`remains, this`vols
      ensures Valid() && S() == Floppy(old(S()), target)
    {
      remains := target - TRAILERLEN;
      vols := vols + [[]];
    }

    /** A name goes to the volume. */
    method Put(i: Item)
      requires Valid()
      modifies this`remains, this`vols
      ensures Valid() && S() == Write(old(S()), i)
    {
      var n := |vols| - 1;
      vols := vols[n := vols[n] + [i]];
      remains := remains - i.size;
    }

    /** The head of the queue goes to the volume. */
    method TakeHead()
      requires Valid() && qhead != null
      modifies this`remains, this`vols, this`qhead, this`qtail, this`nodes, this`left
      ensures Valid() && S() == Dequeue(old(S())) && nodes == old(nodes)[1..]
    {
      var i := qhead;
      Put(i.item);
      Unlink();
      left := left + [i.item];
    }

    /** The head leaves the queue; if it was the tail as well, the queue is then empty. */
    method Unlink()
      requires Valid() && qhead != null
      modifies this`qhead, this`qtail, this`nodes
      ensures Valid() && nodes == old(nodes)[1..] && S() == old(S()).(queue := old(S()).queue[1..])
    {
      var i := qhead;
      assert |nodes| > 1 ==> nodes[1 - 1].qnext == nodes[1];
      qhead := i.qnext;
      if qtail == i {
        qtail := qhead;
      }
      nodes := nodes[1..];
      assert Queue() == old(Queue())[1..];
    }

    /** The file being looked at is held back, and the next one read. */
    method HoldBack()
      requires Valid()
      modifies this, nodes
      ensures Valid() && S() == Advance(old(S()).(queue := old(S()).queue + [old(cur)],
              queued := old(S()).queued + [old(cur)]))
      ensures forall k | 0 <= k < |nodes| :: nodes[k] in old(nodes) || fresh(nodes[k])
    {
      hide Advance, Queue;
      Enqueue();
      queued := queued + [cur];
      NextFile();
    }

    /** The current name goes to the end of the queue. */
    method Enqueue()
      requires Valid()
      modifies this`qhead, this`qtail, this`nodes, nodes
      ensures Valid() && Queue() == old(Queue()) + [cur]
      ensures forall k | 0 <= k < |nodes| :: nodes[k] in old(nodes) || fresh(nodes[k])
    {
      var i := new QItem(cur);
      if qhead != null {
        qtail.qnext := i;
        qtail := i;
      } else {
        qtail, qhead := i, i;
      }
      nodes := nodes + [i];
    }

    /** One turn of the loop. */
    method Turn()
      requires Valid()
      modifies this, nodes
      ensures Valid() && S() == Next(old(S()), target)
      ensures forall k | 0 <= k < |nodes| :: nodes[k] in old(nodes) || fresh(nodes[k])
    {
      hide Write, Floppy, Advance, Dequeue, Queue, Refused;
      if eof && qhead != null && qhead.item.size > remains {
        NextFloppy();
      }
      if qhead != null && qhead.item.size <= remains {
        TakeHead();
      } else if cur.size <= remains {
        Put(cur);
        NextFile();
      } else {
        Refuse();
      }
    }

    /** The branches for a name that does not fit. */
    method Refuse()
      requires Valid()
      modifies this, nodes
      ensures Valid() && S() == Refused(old(S()), target)
      ensures forall k | 0 <= k < |nodes| :: nodes[k] in old(nodes) || fresh(nodes[k])
    {
      hide Floppy, Advance, Queue;
      if cur.isdir || remains < CRITSIZE {
        NextFloppy();
      } else if cur.size > target {
        reported := reported + [cur];
        NextFile();
      } else {
        HoldBack();
      }
    }

    /** The whole program: with good names only, each is packed or reported once, as AllPacked says. */
    method PackAll(ghost items: seq<Item>, ghost before: Item)
      requires Valid() && nodes == [] && S() == Start(items, cut, before, target)
      requires Empty(target) >= 0 && AllSized(items) && AllGood(Looked(items, cut), target)
      modifies this
      ensures var all := Looked(items, cut);
              && multiset(all) == multiset(Packed(vols)) + multiset(reported) && reported == BigOnes(all, target)
              && (forall k | 0 <= k < |vols| :: Sum(vols[k]) <= Empty(target)) && queued == left
    {
      hide Inv, Left, Next;
      ghost var all := Looked(items, cut);
      StartInv(items, cut, before, target);
      while !(eof && qhead == null)
        invariant Valid() && Inv(S(), all, target) && forall k | 0 <= k < |nodes| :: fresh(nodes[k])
        decreases Left(S(), target)
      {
        ghost var s := S();
        NextInv(s, all, target);
        NextFalls(s, all, target);
        Turn();
      }
      AllDone(S(), all, target);
    }
  }

  lemma AllDone(s: State, all: seq<Item>, target: int)
    requires Inv(s, all, target) && Finished(s)
    ensures multiset(all) == multiset(Packed(s.vols)) + multiset(s.reported) && s.reported == BigOnes(all, target)
    ensures (forall k | 0 <= k < |s.vols| :: Sum(s.vols[k]) <= Empty(target)) && s.queued == s.left
  {
    assert Pending(s) == [];
  }
}
