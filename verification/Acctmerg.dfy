/**
 acctmerg (usr/src/cmd/acct/acctmerg.c): several streams of total accounting records are merged
 into one, records of the same user are added up, and a grand total is kept.
 */
module Acctmerg {
  import Strings

  // ----- records -----

  /** The numbers of a record; sums are exact here. */
  datatype Amounts = Amounts(cpu0: real, cpu1: real, kcore0: real, kcore1: real, con0: real, con1: real, du: real,
                             pc: int, sc: int, dc: int, fee: int)

  function Plus(a: Amounts, b: Amounts): Amounts {
    Amounts(a.cpu0 + b.cpu0, a.cpu1 + b.cpu1, a.kcore0 + b.kcore0, a.kcore1 + b.kcore1, a.con0 + b.con0,
        a.con1 + b.con1,
            a.du + b.du, a.pc + b.pc, a.sc + b.sc, a.dc + b.dc, a.fee + b.fee)
  }

  const ZERO: Amounts := Amounts(0.0, 0.0, 0.0, 0.0, 0.0, 0.0, 0.0, 0, 0, 0, 0)

  lemma PlusLaws(a: Amounts, b: Amounts, c: Amounts)
    ensures Plus(a, b) == Plus(b, a) && Plus(Plus(a, b), c) == Plus(a, Plus(b, c)) && Plus(a, ZERO) == a &&
            Plus(ZERO, a) == a
  {
  }

  datatype Rec = Rec(uid: int, name: string, v: Amounts)

  /** Records are told apart by user number and name, or by number only. */
  datatype Key = Key(uid: int, name: string)

  function KeyOf(r: Rec, uidsum: bool): Key {
    Key(r.uid, if uidsum then "" else r.name)
  }

  predicate Less(a: Key, b: Key) {
    a.uid < b.uid || (a.uid == b.uid && Strings.Less(a.name, b.name))
  }

  lemma KeyOrder(a: Key, b: Key, c: Key)
    ensures !Less(a, a) && (Less(a, b) && Less(b, c) ==> Less(a, c)) && (Less(a, b) || a == b || Less(b, a))
  {
    Strings.Order(a.name, b.name, c.name);
  }

  // ----- streams -----

  /** A stream counts up to its first record without a name. */
  function Live(s: seq<Rec>): seq<Rec> {
    if s == [] || s[0].name == "" then [] else [s[0]] + Live(s[1..])
  }

  /** What is still to come of a stream: the record read, unless it has no name, and what counts of the rest. */
  function Pending(cur: Rec, rest: seq<Rec>): seq<Rec> {
    if cur.name == "" then [] else [cur] + Live(rest)
  }

  function SumKey(s: seq<Rec>, k: Key, u: bool): Amounts {
    if s == [] then ZERO else if KeyOf(s[0], u) == k then Plus(s[0].v, SumKey(s[1..], k, u)) else SumKey(s[1..], k, u)
  }

  function Total(s: seq<Rec>): Amounts {
    if s == [] then ZERO else Plus(s[0].v, Total(s[1..]))
  }

  /** Sums and counts over the streams from i on. */
  function SumFrom(p: seq<seq<Rec>>, i: nat, k: Key, u: bool): Amounts
    decreases |p| - i
  {
    if i >= |p| then ZERO else Plus(SumKey(p[i], k, u), SumFrom(p, i + 1, k, u))
  }

  function TotalFrom(p: seq<seq<Rec>>, i: nat): Amounts
    decreases |p| - i
  {
    if i >= |p| then ZERO else Plus(Total(p[i]), TotalFrom(p, i + 1))
  }

  function CountFrom(p: seq<seq<Rec>>, i: nat): nat
    decreases |p| - i
  {
    if i >= |p| then 0 else |p[i]| + CountFrom(p, i + 1)
  }

  /** The records at the front of s with key k, and the others. */
  function Front(s: seq<Rec>, k: Key, u: bool): seq<Rec> {
    if s == [] || KeyOf(s[0], u) != k then [] else [s[0]] + Front(s[1..], k, u)
  }

  function Back(s: seq<Rec>, k: Key, u: bool): seq<Rec> {
    if s == [] || KeyOf(s[0], u) != k then s else Back(s[1..], k, u)
  }

  predicate Sorted(s: seq<Rec>, u: bool) {
    forall i, j | 0 <= i < j < |s| :: !Less(KeyOf(s[j], u), KeyOf(s[i], u))
  }

  /** What is taken at once: of the streams from n on, the records at the front with key k. */
  function Taken(p: seq<seq<Rec>>, n: nat, k: Key, u: bool): Amounts
    decreases |p| - n
  {
    if n >= |p| then ZERO else Plus(Total(Front(p[n], k, u)), Taken(p, n + 1, k, u))
  }

  function Swept(p: seq<seq<Rec>>, n: nat, k: Key, u: bool): (r: seq<seq<Rec>>)
    ensures |r| == |p|
    ensures forall i | 0 <= i < |p| :: r[i] == if i < n then p[i] else Back(p[i], k, u)
  {
    seq(|p|, i requires 0 <= i < |p| => if i < n then p[i] else Back(p[i], k, u))
  }

  lemma {:induction false} FrontSums(s: seq<Rec>, k: Key, k': Key, u: bool)
    ensures SumKey(s, k', u) == Plus(if k' == k then Total(Front(s, k, u)) else ZERO, SumKey(Back(s, k, u), k', u))
    ensures Total(s) == Plus(Total(Front(s, k, u)), Total(Back(s, k, u)))
    ensures |s| == |Front(s, k, u)| + |Back(s, k, u)|
    decreases |s|
  {
    hide Plus;
    var b := Back(s, k, u);
    PlusLaws(SumKey(s, k', u), ZERO, ZERO);
    PlusLaws(Total(s), ZERO, ZERO);
    if s != [] && KeyOf(s[0], u) == k {
      FrontSums(s[1..], k, k', u);
      var f := Front(s[1..], k, u);
      assert Front(s, k, u)[1..] == f;
      PlusLaws(s[0].v, Total(f), SumKey(b, k', u));
      PlusLaws(s[0].v, Total(f), Total(b));
    }
  }

  lemma Shuffle(a: Amounts, b: Amounts, c: Amounts, d: Amounts)
    ensures Plus(Plus(a, b), Plus(c, d)) == Plus(Plus(a, c), Plus(b, d))
  {
  }

  /** A sweep takes records of its key only, and all that it takes. */
  lemma {:induction false} SweepSums(p: seq<seq<Rec>>, n: nat, i: nat, k: Key, k': Key, u: bool)
    requires n <= |p|
    ensures var m := if i < n then n else i;
            && SumFrom(p, i, k', u) ==
               Plus(if k' == k then Taken(p, m, k, u) else ZERO, SumFrom(Swept(p, n, k, u), i, k', u))
            && TotalFrom(p, i) == Plus(Taken(p, m, k, u), TotalFrom(Swept(p, n, k, u), i))
            && CountFrom(Swept(p, n, k, u), i) <= CountFrom(p, i)
    decreases |p| - i
  {
    hide Plus, Swept;
    var r := Swept(p, n, k, u);
    PlusLaws(ZERO, ZERO, ZERO);
    if i < |p| {
      SweepSums(p, n, i + 1, k, k', u);
      var t := if k' == k then Taken(p, if i + 1 < n then n else i + 1, k, u) else ZERO;
      if i < n {
        var t' := Taken(p, n, k, u);
        SwapIn(SumKey(p[i], k', u), t, SumFrom(r, i + 1, k', u));
        SwapIn(Total(p[i]), t', TotalFrom(r, i + 1));
      } else {
        FrontSums(p[i], k, k', u);
        var f, b := Total(Front(p[i], k, u)), Back(p[i], k, u);
        Shuffle(if k' == k then f else ZERO, SumKey(b, k', u), t, SumFrom(r, i + 1, k', u));
        Shuffle(f, Total(b), Taken(p, i + 1, k, u), TotalFrom(r, i + 1));
      }
    }
  }

  lemma SwapIn(a: Amounts, b: Amounts, c: Amounts)
    ensures Plus(a, Plus(b, c)) == Plus(b, Plus(a, c))
  {
  }

  // ----- the program -----

  class Merge {
    const uidsum: bool
    const totalonly: bool
    const tb: array<Rec>
    const fl: array<seq<Rec>>
    var tt: Amounts
    var out: seq<Rec>

    constructor (files: seq<seq<Rec>>, uidsum: bool, totalonly: bool)
      ensures Valid() && P() == seq(|files|, i requires 0 <= i < |files| => Live(files[i]))
      ensures this.uidsum == uidsum && this.totalonly == totalonly && tt == ZERO && out == []
    {
      this.uidsum, this.totalonly, tt, out := uidsum, totalonly, ZERO, [];
      tb := new Rec[|files|](_ => Rec(0, "", ZERO));
      fl := new seq<Rec>[|files|](i requires 0 <= i < |files| => files[i]);
      new;
      for i := 0 to |files|
        invariant tt == ZERO && out == [] && forall j | i <= j < |files| :: fl[j] == files[j]
        invariant forall j | 0 <= j < i :: Pending(tb[j], fl[j]) == Live(files[j])
      {
        var got := GetNext(i);
      }
    }

    ghost predicate Valid() {
      tb.Length == fl.Length
    }

    ghost function P(): (r: seq<seq<Rec>>)
      requires Valid()
      reads tb, fl
      ensures |r| == tb.Length && forall i | 0 <= i < tb.Length :: r[i] == Pending(tb[i], fl[i])
    {
      seq(tb.Length, i requires 0 <= i < tb.Length reads tb, fl => Pending(tb[i], fl[i]))
    }

    /** The next record of stream i, if there is one. */
    method GetNext(i: nat) returns (got: bool)
      requires Valid() && i < tb.Length
      modifies tb, fl
      ensures forall j | 0 <= j < tb.Length && j != i :: tb[j] == old(tb[j]) && fl[j] == old(fl[j])
      ensures got <==> old(fl[i]) != []
      ensures Pending(tb[i], fl[i]) == Live(old(fl[i]))
    {
      tb[i] := tb[i].(name := "");
      if fl[i] == [] { return false; }
      tb[i] := fl[i][0];
      fl[i] := fl[i][1..];
      return true;
    }

    /** The stream whose record is least, the first of equals; -1 when all are at their end. */
    method GetLeast() returns (n: int)
      requires Valid()
      ensures -1 <= n < tb.Length
      ensures n == -1 ==> forall j | 0 <= j < tb.Length :: P()[j] == []
      ensures n >= 0 ==> P()[n] != [] && Least(P(), n, uidsum)
    {
      n := -1;
      ghost var p := P();
      for i := 0 to tb.Length
        invariant -1 <= n < i
        invariant n == -1 ==> forall j | 0 <= j < i :: p[j] == []
        invariant n >= 0 ==> p[n] != [] && LeastOf(p, n, uidsum, i)
      {
        assert tb[i].name != "" ==> p[i] != [] && p[i][0] == tb[i];
        if tb[i].name != "" {
          assert n >= 0 ==> p[n][0] == tb[n];
          if n == -1 || Less(KeyOf(tb[i], uidsum), KeyOf(tb[n], uidsum)) {
            if n >= 0 { LeastShift(p, n, i, uidsum); } else { LeastFirst(p, i, uidsum); }
            n := i;
          }
        }
      }
    }

    /** Stream i is at a record with key k: it is added to v and tt, and the next one read. */
    method TakeOne(i: nat, v0: Amounts, ghost k: Key) returns (v: Amounts)
      requires Valid() && i < tb.Length && tb[i].name != "" && KeyOf(tb[i], uidsum) == k
      modifies this`tt, tb, fl
      ensures P() == old(P())[i := old(P())[i][1..]] && old(P())[i] != [] && old(P())[i][0] == old(tb[i])
      ensures v == Plus(v0, old(tb[i].v)) && tt == Plus(old(tt), old(tb[i].v))
    {
      v := Plus(v0, tb[i].v);
      tt := Plus(tt, tb[i].v);
      ghost var p := P();
      var got := GetNext(i);
      assert P() == p[i := p[i][1..]];
    }

    /** In the sweep of p from stream n: v is what has been added up, sum what it will be, and tt will be total. */
    ghost predicate Sweeping(p: seq<seq<Rec>>, n: nat, i: nat, k: Key, v: Amounts, sum: Amounts, total: Amounts)
      reads this`tt, tb, fl
    {
      && Valid() && n <= i <= tb.Length && Midway(p, P(), n, i, k, uidsum)
      && Plus(v, Taken(P(), i, k, uidsum)) == sum && Plus(tt, Taken(P(), i, k, uidsum)) == total
    }

    /** One turn of the loop: a record with the key, or the next stream. */
    method Turn(i: nat, v: Amounts, k: Key, ghost p: seq<seq<Rec>>, ghost n: nat, ghost sum: Amounts,
                ghost total: Amounts)
        returns (i': nat, v': Amounts)
      requires i < tb.Length && Sweeping(p, n, i, k, v, sum, total)
      modifies this`tt, tb, fl
      ensures Sweeping(p, n, i', k, v', sum, total)
      ensures i' == i + 1 || (i' == i && |P()[i]| < |old(P())[i]|)
    {
      hide Plus, Taken, Back, Front, Swept, Less, Live;
      ghost var cur := P();
      TakenStep(cur, i, k, uidsum);
      if tb[i].name != "" && KeyOf(tb[i], uidsum) == k {
        Regroup(v, tt, cur[i][0].v, Taken(cur[i := cur[i][1..]], i, k, uidsum));
        v' := TakeOne(i, v, k);
        i' := i;
      } else {
        PlusLaws(Taken(cur, i + 1, k, uidsum), ZERO, ZERO);
        i', v' := i + 1, v;
      }
    }

    /** The first record of the sweep is taken whatever it is. */
    method Begin(n: nat, ghost p: seq<seq<Rec>>) returns (v: Amounts)
      requires Valid() && n < tb.Length && P()[n] != [] && p == P()
      modifies this`tt, tb, fl
      ensures var k := KeyOf(p[n][0], uidsum);
              Sweeping(p, n, n, k, v, Taken(p, n, k, uidsum), Plus(old(tt), Taken(p, n, k, uidsum)))
    {
      hide Plus, Taken, Back, Front;
      ghost var k := KeyOf(p[n][0], uidsum);
      assert tb[n] == p[n][0];
      v := tb[n].v;
      TakenStep(p, n, k, uidsum);
      Regroup(v, tt, v, Taken(p[n := p[n][1..]], n, k, uidsum));
      var v' := TakeOne(n, ZERO, k);
    }

    /** All records with the key of stream n's, from stream n on, are added up. */
    method SumCurr(n: nat) returns (ghost sum: Rec)
      requires Valid() && n < tb.Length && P()[n] != []
      modifies this`tt, this`out, tb, fl
      ensures var p, k := old(P()), KeyOf(old(P())[n][0], uidsum);
              && P() == Swept(p, n, k, uidsum) && KeyOf(sum, uidsum) == k && sum.v == Taken(p, n, k, uidsum)
              && tt == Plus(old(tt), Taken(p, n, k, uidsum))
      ensures out == if totalonly then old(out) else old(out) + [sum]
    {
      hide Plus, Taken, Back, Front;
      ghost var p := P();
      var tc := tb[n];
      assert tc == p[n][0];
      var k := KeyOf(tc, uidsum);
      ghost var part := Taken(p, n, k, uidsum);
      ghost var total := Plus(tt, part);
      var v := Begin(n, p);
      var i := n;
      while i < tb.Length
        invariant Sweeping(p, n, i, k, v, part, total) && out == old(out)
        decreases tb.Length - i, if i < tb.Length then |P()[i]| else 0
      {
        i, v := Turn(i, v, k, p, n, part, total);
      }
      TakenNone(P(), k, uidsum);
      PlusLaws(v, ZERO, ZERO);
      PlusLaws(tt, ZERO, ZERO);
      SweptDone(p, P(), n, k, uidsum);
      sum := tc.(v := v);
      if !totalonly { out := out + [tc.(v := v)]; }
    }

    /** sums have been made of p0, and the rest of it is to come. */
    ghost predicate Going(p0: seq<seq<Rec>>, sums: seq<Rec>)
      reads this`tt, this`out, tb, fl
    {
      && Valid() && (forall k :: Kept(p0, sums, P(), k, uidsum)) && TotalFrom(p0, 0) == Plus(tt, TotalFrom(P(), 0))
      && (AllSorted(p0, uidsum) ==> Ascending(sums, P(), uidsum)) && out == if totalonly then [] else sums
    }

    /** One round of the main loop. */
    method MergeOne(n: nat, ghost p0: seq<seq<Rec>>, ghost sums: seq<Rec>) returns (ghost sum: Rec)
      requires Going(p0, sums) && n < tb.Length && P()[n] != [] && Least(P(), n, uidsum)
      modifies this`tt, this`out, tb, fl
      ensures Going(p0, sums + [sum]) && CountFrom(P(), 0) < CountFrom(old(P()), 0)
    {
      hide Plus, Taken, Back, Front, Kept, Least, AllAbove, AllSorted, Ascending;
      ghost var p, k, t0 := P(), KeyOf(P()[n][0], uidsum), tt;
      sum := SumCurr(n);
      forall c ensures Kept(p0, sums + [sum], P(), c, uidsum) { KeptStep(p0, sums, p, n, sum, c, uidsum); }
      SweepSums(p, n, 0, k, k, uidsum);
      PlusLaws(t0, Taken(p, n, k, uidsum), TotalFrom(P(), 0));
      SweepShrinks(p, n, uidsum);
      if AllSorted(p0, uidsum) {
        AscendingSorted(sums, p, uidsum);
        SweptAbove(p, n, uidsum);
        AscendingStep(sums, p, n, sum, P(), uidsum);
      }
    }

    /** The main loop. */
    method MergeAll(ghost p0: seq<seq<Rec>>) returns (ghost sums: seq<Rec>)
      requires Going(p0, [])
      modifies this`tt, this`out, tb, fl
      ensures Going(p0, sums) && forall j | 0 <= j < tb.Length :: P()[j] == []
    {
      hide Least;
      sums := [];
      var n := GetLeast();
      while n != -1
        invariant Going(p0, sums) && -1 <= n < tb.Length
        invariant if n >= 0 then P()[n] != [] && Least(P(), n, uidsum)
                  else forall j | 0 <= j < tb.Length :: P()[j] == []
        decreases CountFrom(P(), 0), n
      {
        n, sums := Round(n, p0, sums);
      }
    }

    method Round(n: nat, ghost p0: seq<seq<Rec>>, ghost sums: seq<Rec>) returns (n': int, ghost sums': seq<Rec>)
      requires Going(p0, sums) && n < tb.Length && P()[n] != [] && Least(P(), n, uidsum)
      modifies this`tt, this`out, tb, fl
      ensures Going(p0, sums') && CountFrom(P(), 0) < CountFrom(old(P()), 0) && -1 <= n' < tb.Length
      ensures if n' >= 0 then P()[n'] != [] && Least(P(), n', uidsum) else forall j | 0 <= j < tb.Length :: P()[j] == []
    {
      hide Least;
      ghost var sum := MergeOne(n, p0, sums);
      sums' := sums + [sum];
      n' := GetLeast();
    }

    /** main, from the open files on. */
    method Run() returns (ghost sums: seq<Rec>)
      requires Valid() && tt == ZERO && out == []
      modifies this`tt, this`out, tb, fl
      ensures forall k :: SumKey(sums, k, uidsum) == SumFrom(old(P()), 0, k, uidsum)
      ensures forall k :: HasKey(sums, k, uidsum) <==> SomeHas(old(P()), k, uidsum)
      ensures AllSorted(old(P()), uidsum) ==> Increasing(sums, uidsum)
      ensures tt == TotalFrom(old(P()), 0)
      ensures out == if totalonly then [Rec(0, "TOTAL", tt)] else sums
    {
      hide Plus, Kept, Least, AllAbove, AllSorted, Increasing, SumKey, SumFrom, TotalFrom, SomeHas, HasKey;
      ghost var p0 := P();
      Start(p0, uidsum);
      sums := MergeAll(p0);
      Gone(p0, sums);
      if totalonly { out := [Rec(0, "TOTAL", tt)]; }
    }

    /** When all streams are at their end. */
    lemma Gone(p0: seq<seq<Rec>>, sums: seq<Rec>)
      requires Going(p0, sums) && forall j | 0 <= j < tb.Length :: P()[j] == []
      ensures (forall k :: SumKey(sums, k, uidsum) == SumFrom(p0, 0, k, uidsum)) && tt == TotalFrom(p0, 0)
      ensures (forall k :: HasKey(sums, k, uidsum) <==> SomeHas(p0, k, uidsum)) &&
              (AllSorted(p0, uidsum) ==> Increasing(sums, uidsum))
      ensures out == if totalonly then [] else sums
    {
      hide Kept;
      FinishAll(p0, sums, P(), uidsum);
      FinishTotal(P());
      PlusLaws(tt, ZERO, ZERO);
    }
  }

  lemma SweepShrinks(p: seq<seq<Rec>>, n: nat, u: bool)
    requires n < |p| && p[n] != []
    ensures CountFrom(Swept(p, n, KeyOf(p[n][0], u), u), 0) < CountFrom(p, 0)
  {
    ShrinksFrom(p, n, 0, u);
  }

  lemma {:induction false} ShrinksFrom(p: seq<seq<Rec>>, n: nat, i: nat, u: bool)
    requires n < |p| && p[n] != []
    ensures var r := Swept(p, n, KeyOf(p[n][0], u), u);
            CountFrom(r, i) <= CountFrom(p, i) && (i <= n ==> CountFrom(r, i) < CountFrom(p, i))
    decreases |p| - i
  {
    if i < |p| {
      ShrinksFrom(p, n, i + 1, u);
      var k := KeyOf(p[n][0], u);
      FrontSums(p[i], k, k, u);
      assert i == n ==> |Front(p[i], k, u)| > 0;
    }
  }

  /** The sums so far have increasing keys, and all that is left has greater ones. */
  predicate Ascending(sums: seq<Rec>, p: seq<seq<Rec>>, u: bool) {
    AllSorted(p, u) && Increasing(sums, u) && (sums != [] ==> AllAbove(p, KeyOf(sums[|sums| - 1], u), u))
  }

  lemma AscendingStep(sums: seq<Rec>, p: seq<seq<Rec>>, n: nat, sum: Rec, q: seq<seq<Rec>>, u: bool)
    requires Ascending(sums, p, u) && n < |p| && p[n] != [] && KeyOf(sum, u) == KeyOf(p[n][0], u)
    requires AllSorted(q, u) && AllAbove(q, KeyOf(sum, u), u)
    ensures Ascending(sums + [sum], q, u)
  {
    var s := sums + [sum];
    forall i, j | 0 <= i < j < |s| ensures Less(KeyOf(s[i], u), KeyOf(s[j], u)) {
      if j == |sums| {
        var last := KeyOf(sums[|sums| - 1], u);
        assert Less(last, KeyOf(p[n][0], u));
        KeyOrder(KeyOf(s[i], u), last, KeyOf(sum, u));
      }
    }
  }

  lemma AscendingSorted(sums: seq<Rec>, p: seq<seq<Rec>>, u: bool)
    requires Ascending(sums, p, u)
    ensures AllSorted(p, u)
  {
  }

  lemma Start(p: seq<seq<Rec>>, u: bool)
    ensures (forall k :: Kept(p, [], p, k, u)) && TotalFrom(p, 0) == Plus(ZERO, TotalFrom(p, 0)) &&
            (AllSorted(p, u) ==> Ascending([], p, u))
  {
    forall k ensures Kept(p, [], p, k, u) { PlusLaws(SumFrom(p, 0, k, u), ZERO, ZERO); }
    PlusLaws(TotalFrom(p, 0), ZERO, ZERO);
  }

  lemma {:induction false} NothingFrom(p: seq<seq<Rec>>, i: nat, k: Key, u: bool)
    requires forall j | 0 <= j < |p| :: p[j] == []
    ensures SumFrom(p, i, k, u) == ZERO && TotalFrom(p, i) == ZERO
    decreases |p| - i
  {
    hide Plus;
    PlusLaws(ZERO, ZERO, ZERO);
    if i < |p| { NothingFrom(p, i + 1, k, u); }
  }

  lemma Finish(p0: seq<seq<Rec>>, sums: seq<Rec>, p: seq<seq<Rec>>, k: Key, u: bool)
    requires Kept(p0, sums, p, k, u) && forall j | 0 <= j < |p| :: p[j] == []
    ensures SumKey(sums, k, u) == SumFrom(p0, 0, k, u) && (HasKey(sums, k, u) <==> SomeHas(p0, k, u))
  {
    NothingFrom(p, 0, k, u);
    PlusLaws(SumKey(sums, k, u), ZERO, ZERO);
    assert !SomeHas(p, k, u);
  }

  lemma FinishAll(p0: seq<seq<Rec>>, sums: seq<Rec>, p: seq<seq<Rec>>, u: bool)
    requires (forall k :: Kept(p0, sums, p, k, u)) && forall j | 0 <= j < |p| :: p[j] == []
    ensures forall k :: SumKey(sums, k, u) == SumFrom(p0, 0, k, u)
    ensures forall k :: HasKey(sums, k, u) <==> SomeHas(p0, k, u)
  {
    hide Kept;
    forall k ensures SumKey(sums, k, u) == SumFrom(p0, 0, k, u) && (HasKey(sums, k, u) <==> SomeHas(p0, k, u)) {
      Finish(p0, sums, p, k, u);
    }
  }

  lemma FinishTotal(p: seq<seq<Rec>>)
    requires forall j | 0 <= j < |p| :: p[j] == []
    ensures TotalFrom(p, 0) == ZERO
  {
    NothingFrom(p, 0, Key(0, ""), true);
  }

  // ----- order -----

  predicate AllSorted(p: seq<seq<Rec>>, u: bool) {
    forall i | 0 <= i < |p| :: Sorted(p[i], u)
  }

  predicate AllAbove(p: seq<seq<Rec>>, k: Key, u: bool) {
    forall i, j | 0 <= i < |p| && 0 <= j < |p[i]| :: Less(k, KeyOf(p[i][j], u))
  }

  predicate Increasing(s: seq<Rec>, u: bool) {
    forall i, j | 0 <= i < j < |s| :: Less(KeyOf(s[i], u), KeyOf(s[j], u))
  }

  lemma {:induction false} BackSorted(s: seq<Rec>, k: Key, u: bool)
    requires Sorted(s, u)
    ensures Sorted(Back(s, k, u), u) && (Back(s, k, u) != [] ==> KeyOf(Back(s, k, u)[0], u) != k)
    ensures forall r | r in Back(s, k, u) :: r in s
    decreases |s|
  {
    if s != [] && KeyOf(s[0], u) == k {
      forall i, j | 0 <= i < j < |s[1..]| ensures !Less(KeyOf(s[1..][j], u), KeyOf(s[1..][i], u)) {
        assert s[1..][i] == s[i + 1] && s[1..][j] == s[j + 1];
      }
      BackSorted(s[1..], k, u);
    }
  }

  /** After the first of a sorted stream come no lesser keys. */
  lemma AboveHead(s: seq<Rec>, k: Key, u: bool)
    requires Sorted(s, u) && (s != [] ==> Less(k, KeyOf(s[0], u)))
    ensures forall j | 0 <= j < |s| :: Less(k, KeyOf(s[j], u))
  {
    forall j | 0 < j < |s| ensures Less(k, KeyOf(s[j], u)) {
      KeyOrder(k, KeyOf(s[0], u), KeyOf(s[j], u));
      KeyOrder(KeyOf(s[0], u), KeyOf(s[j], u), k);
    }
  }

  /** When the least record's key is swept out of sorted streams, only greater keys are left. */
  lemma SweptAbove(p: seq<seq<Rec>>, n: nat, u: bool)
    requires n < |p| && p[n] != [] && Least(p, n, u) && AllSorted(p, u)
    ensures var k := KeyOf(p[n][0], u); AllSorted(Swept(p, n, k, u), u) && AllAbove(Swept(p, n, k, u), k, u)
  {
    var k := KeyOf(p[n][0], u);
    forall i | 0 <= i < |p| ensures Sorted(Swept(p, n, k, u)[i], u) && AllAbove([Swept(p, n, k, u)[i]], k, u) {
      if i < n {
        AboveHead(p[i], k, u);
      } else {
        BackSorted(p[i], k, u);
        BackLeast(p[i], k, u);
        AboveHead(Back(p[i], k, u), k, u);
      }
    }
    forall i, j | 0 <= i < |p| && 0 <= j < |Swept(p, n, k, u)[i]| ensures Less(k, KeyOf(Swept(p, n, k, u)[i][j], u)) {
      assert AllAbove([Swept(p, n, k, u)[i]], k, u);
      assert [Swept(p, n, k, u)[i]][0][j] == Swept(p, n, k, u)[i][j];
    }
  }

  lemma {:induction false} BackLeast(s: seq<Rec>, k: Key, u: bool)
    requires Sorted(s, u) && (s != [] ==> !Less(KeyOf(s[0], u), k))
    ensures Back(s, k, u) != [] ==> Less(k, KeyOf(Back(s, k, u)[0], u))
    decreases |s|
  {
    if s != [] {
      KeyOrder(k, KeyOf(s[0], u), k);
      if KeyOf(s[0], u) == k && |s| > 1 {
        assert !Less(KeyOf(s[1], u), KeyOf(s[0], u));
        BackSorted(s, k, u);
        TailSorted(s, u);
        BackLeast(s[1..], k, u);
      }
    }
  }

  lemma TailSorted(s: seq<Rec>, u: bool)
    requires s != [] && Sorted(s, u)
    ensures Sorted(s[1..], u)
  {
    forall i, j | 0 <= i < j < |s[1..]| ensures !Less(KeyOf(s[1..][j], u), KeyOf(s[1..][i], u)) {
      assert s[1..][i] == s[i + 1] && s[1..][j] == s[j + 1];
    }
  }

  lemma TakenNone(p: seq<seq<Rec>>, k: Key, u: bool)
    ensures Taken(p, |p|, k, u) == ZERO
  {
  }

  // ----- the whole merge -----

  predicate HasKey(s: seq<Rec>, k: Key, u: bool) {
    exists j :: 0 <= j < |s| && KeyOf(s[j], u) == k
  }

  predicate SomeHas(p: seq<seq<Rec>>, k: Key, u: bool) {
    exists i :: 0 <= i < |p| && HasKey(p[i], k, u)
  }

  lemma {:induction false} BackHas(s: seq<Rec>, k: Key, k': Key, u: bool)
    requires k' != k
    ensures HasKey(Back(s, k, u), k', u) <==> HasKey(s, k', u)
    decreases |s|
  {
    if s != [] && KeyOf(s[0], u) == k {
      BackHas(s[1..], k, k', u);
      if HasKey(s, k', u) {
        var j :| 0 <= j < |s| && KeyOf(s[j], u) == k';
        assert s[1..][j - 1] == s[j];
      }
      if HasKey(s[1..], k', u) {
        var j :| 0 <= j < |s[1..]| && KeyOf(s[1..][j], u) == k';
        assert s[j + 1] == s[1..][j];
      }
    }
  }

  lemma SweptHas(p: seq<seq<Rec>>, n: nat, k: Key, k': Key, u: bool)
    requires k' != k
    ensures SomeHas(Swept(p, n, k, u), k', u) <==> SomeHas(p, k', u)
  {
    var r := Swept(p, n, k, u);
    forall i | 0 <= i < |p| ensures HasKey(r[i], k', u) <==> HasKey(p[i], k', u) { BackHas(p[i], k, k', u); }
    if SomeHas(p, k', u) { var i :| 0 <= i < |p| && HasKey(p[i], k', u); assert HasKey(r[i], k', u); }
    if SomeHas(r, k', u) { var i :| 0 <= i < |p| && HasKey(r[i], k', u); assert HasKey(p[i], k', u); }
  }

  lemma {:induction false} SumAppend(s: seq<Rec>, r: Rec, k: Key, u: bool)
    ensures SumKey(s + [r], k, u) == Plus(SumKey(s, k, u), if KeyOf(r, u) == k then r.v else ZERO)
    decreases |s|
  {
    hide Plus;
    PlusLaws(r.v, ZERO, ZERO);
    PlusLaws(ZERO, ZERO, ZERO);
    if s == [] {
      assert s + [r] == [r];
    } else {
      assert (s + [r])[1..] == s[1..] + [r];
      SumAppend(s[1..], r, k, u);
      PlusLaws(s[0].v, SumKey(s[1..], k, u), if KeyOf(r, u) == k then r.v else ZERO);
    }
  }

  /** Some of p0 has been merged into sums, p is left: no key and no amount is lost or counted twice. */
  predicate Kept(p0: seq<seq<Rec>>, sums: seq<Rec>, p: seq<seq<Rec>>, k: Key, u: bool) {
    && SumFrom(p0, 0, k, u) == Plus(SumKey(sums, k, u), SumFrom(p, 0, k, u))
    && (SomeHas(p0, k, u) <==> HasKey(sums, k, u) || SomeHas(p, k, u))
  }

  lemma KeptStep(p0: seq<seq<Rec>>, sums: seq<Rec>, p: seq<seq<Rec>>, n: nat, r: Rec, k: Key, u: bool)
    requires Kept(p0, sums, p, k, u) && n < |p| && p[n] != [] && KeyOf(r, u) == KeyOf(p[n][0], u)
    requires r.v == Taken(p, n, KeyOf(r, u), u)
    ensures Kept(p0, sums + [r], Swept(p, n, KeyOf(r, u), u), k, u)
  {
    hide Plus, Swept, Back, Taken, SumKey, SumFrom;
    var k0 := KeyOf(r, u);
    SweepSums(p, n, 0, k0, k, u);
    SumAppend(sums, r, k, u);
    var t := if k == k0 then r.v else ZERO;
    PlusLaws(SumKey(sums, k, u), t, SumFrom(Swept(p, n, k0, u), 0, k, u));
    assert (sums + [r])[|sums|] == r;
    KeptHas(sums, r, k, u);
    if k != k0 { SweptHas(p, n, k0, k, u); } else { assert HasKey(p[n], k, u); }
  }

  lemma KeptHas(sums: seq<Rec>, r: Rec, k: Key, u: bool)
    ensures HasKey(sums + [r], k, u) <==> HasKey(sums, k, u) || KeyOf(r, u) == k
  {
    var s := sums + [r];
    if HasKey(sums, k, u) { var j :| 0 <= j < |sums| && KeyOf(sums[j], u) == k; assert s[j] == sums[j]; }
    if HasKey(s, k, u) { var j :| 0 <= j < |s| && KeyOf(s[j], u) == k; assert j < |sums| ==> s[j] == sums[j]; }
    assert s[|sums|] == r;
  }

  /** In what comes out of sorted streams a key stands once, with the sum of all records that have it. */
  lemma {:induction false} EachSum(s: seq<Rec>, i: nat, u: bool)
    requires Increasing(s, u) && i < |s|
    ensures SumKey(s, KeyOf(s[i], u), u) == s[i].v
    decreases |s|
  {
    var k := KeyOf(s[i], u);
    PlusLaws(s[i].v, ZERO, ZERO);
    KeyOrder(k, k, k);
    assert Increasing(s[1..], u) by {
      forall a, b | 0 <= a < b < |s[1..]| ensures Less(KeyOf(s[1..][a], u), KeyOf(s[1..][b], u)) {
        assert s[1..][a] == s[a + 1] && s[1..][b] == s[b + 1];
      }
    }
    if i == 0 {
      NoneHas(s[1..], k, u);
    } else {
      EachSum(s[1..], i - 1, u);
    }
  }

  lemma {:induction false} NoneHas(s: seq<Rec>, k: Key, u: bool)
    requires forall j | 0 <= j < |s| :: Less(k, KeyOf(s[j], u))
    ensures SumKey(s, k, u) == ZERO
    decreases |s|
  {
    if s != [] {
      KeyOrder(k, KeyOf(s[0], u), k);
      NoneHas(s[1..], k, u);
    }
  }

  /** A sweep from stream n has come to stream i: cur is what p has become. */
  predicate Midway(p: seq<seq<Rec>>, cur: seq<seq<Rec>>, n: nat, i: nat, k: Key, u: bool) {
    && |cur| == |p| && n <= i <= |p|
    && (forall j | 0 <= j < i :: cur[j] == if j < n then p[j] else Back(p[j], k, u))
    && (forall j | i < j < |p| :: cur[j] == p[j])
    && (i < |p| ==> Back(cur[i], k, u) == Back(p[i], k, u))
  }

  lemma SweptDone(p: seq<seq<Rec>>, cur: seq<seq<Rec>>, n: nat, k: Key, u: bool)
    requires Midway(p, cur, n, |p|, k, u)
    ensures cur == Swept(p, n, k, u)
  {
  }

  lemma {:induction false} TakenSame(p: seq<seq<Rec>>, q: seq<seq<Rec>>, i: nat, k: Key, u: bool)
    requires |p| == |q| && forall j | i <= j < |p| :: p[j] == q[j]
    ensures Taken(p, i, k, u) == Taken(q, i, k, u)
    decreases |p| - i
  {
    if i < |p| { TakenSame(p, q, i + 1, k, u); }
  }

  /** A record with the key is the first of what is taken; without one the stream gives nothing. */
  lemma TakenStep(p: seq<seq<Rec>>, i: nat, k: Key, u: bool)
    requires i < |p|
    ensures if p[i] != [] && KeyOf(p[i][0], u) == k
            then Taken(p, i, k, u) == Plus(p[i][0].v, Taken(p[i := p[i][1..]], i, k, u)) &&
                Back(p[i], k, u) == Back(p[i][1..], k, u)
            else Taken(p, i, k, u) == Plus(ZERO, Taken(p, i + 1, k, u)) && Back(p[i], k, u) == p[i]
  {
    if p[i] != [] && KeyOf(p[i][0], u) == k {
      var q := p[i := p[i][1..]];
      TakenSame(p, q, i + 1, k, u);
      assert Front(p[i], k, u)[1..] == Front(q[i], k, u);
      PlusLaws(p[i][0].v, Total(Front(q[i], k, u)), Taken(q, i + 1, k, u));
    }
  }

  lemma Regroup(v: Amounts, tt: Amounts, a: Amounts, b: Amounts)
    ensures Plus(v, Plus(a, b)) == Plus(Plus(v, a), b) && Plus(tt, Plus(a, b)) == Plus(Plus(tt, a), b)
  {
  }

  /** Among the first m streams none has a lesser first record than n, and those before n have a greater one. */
  predicate LeastOf(p: seq<seq<Rec>>, n: nat, u: bool, m: nat)
    requires m <= |p| && n < |p| && p[n] != []
  {
    forall j | 0 <= j < m && p[j] != [] ::
      if j < n then Less(KeyOf(p[n][0], u), KeyOf(p[j][0], u)) else !Less(KeyOf(p[j][0], u), KeyOf(p[n][0], u))
  }

  predicate Least(p: seq<seq<Rec>>, n: nat, u: bool)
    requires n < |p| && p[n] != []
  {
    LeastOf(p, n, u, |p|)
  }

  lemma LeastFirst(p: seq<seq<Rec>>, i: nat, u: bool)
    requires i < |p| && p[i] != [] && forall j | 0 <= j < i :: p[j] == []
    ensures LeastOf(p, i, u, i + 1)
  {
    KeyOrder(KeyOf(p[i][0], u), KeyOf(p[i][0], u), KeyOf(p[i][0], u));
  }

  lemma LeastShift(p: seq<seq<Rec>>, n: nat, i: nat, u: bool)
    requires n < i < |p| && p[n] != [] && p[i] != [] && LeastOf(p, n, u, i) &&
             Less(KeyOf(p[i][0], u), KeyOf(p[n][0], u))
    ensures LeastOf(p, i, u, i + 1)
  {
    forall j | 0 <= j < i && p[j] != [] ensures Less(KeyOf(p[i][0], u), KeyOf(p[j][0], u)) {
      KeyOrder(KeyOf(p[i][0], u), KeyOf(p[n][0], u), KeyOf(p[j][0], u));
      KeyOrder(KeyOf(p[n][0], u), KeyOf(p[j][0], u), KeyOf(p[i][0], u));
    }
    KeyOrder(KeyOf(p[i][0], u), KeyOf(p[i][0], u), KeyOf(p[i][0], u));
  }
}
