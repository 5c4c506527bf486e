/**
 Which parameters a protocol gets (usr/src/cmd/bnu/conn.c): of the groups that the lists give its
 letter the first counts, except that in a list that only narrows the choice just the first entry with
 the letter is looked at.
 */
module Params {
  import opened Protocol

  // ----- what the lists say -----

  predicate GroupAt(want: seq<Entry>, c: char, p: string, k: nat) {
    && k <= |want|
    && (forall i | 0 <= i < k && want[i].letter == c :: want[i].params == "")
    && if k < |want| then want[k] == Entry(c, p) && p != "" else p == ""
  }

  /** p is the first group that entries with letter c have in want; it is empty if none has one. */
  ghost predicate FirstGroup(want: seq<Entry>, c: char, p: string) {
    exists k: nat :: GroupAt(want, c, p, k)
  }

  predicate HeadAt(want: seq<Entry>, c: char, p: string, k: nat) {
    && k <= |want|
    && (forall i | 0 <= i < k :: want[i].letter != c)
    && if k < |want| then want[k] == Entry(c, p) else p == ""
  }

  /** p is the group of the first entry with letter c; it is empty if there is no entry or no group. */
  ghost predicate HeadGroup(want: seq<Entry>, c: char, p: string) {
    exists k: nat :: HeadAt(want, c, p, k)
  }

  ghost predicate LaterAt(lists: seq<seq<Entry>>, c: char, p: string, k: nat) {
    && k <= |lists|
    && (forall i | 0 <= i < k :: HeadGroup(lists[i], c, ""))
    && if k < |lists| then HeadGroup(lists[k], c, p) && p != "" else p == ""
  }

  /** p is the group of the first of these lists whose first entry with letter c has one. */
  ghost predicate LaterGroup(lists: seq<seq<Entry>>, c: char, p: string) {
    exists k: nat :: LaterAt(lists, c, p, k)
  }

  /** The list that decides is the first one with a letter that is compiled in. */
  predicate Decides(lists: seq<seq<Entry>>, compiled: string, j: nat) {
    j < |lists| && Usable(lists[j], compiled) && forall i | 0 <= i < j :: !Usable(lists[i], compiled)
  }

  /** What the letter c is due: the first group of the list that decides, or else of a later one. */
  ghost predicate Due(lists: seq<seq<Entry>>, j: nat, c: char, p: string)
    requires j < |lists|
  {
    if FirstGroup(lists[j], c, "") then LaterGroup(lists[j + 1..], c, p) else FirstGroup(lists[j], c, p)
  }

  // ----- what merging makes of them -----

  function ParamsOf(es: seq<Entry>, c: char): string {
    var k := Index(es, c);
    if k < |es| then es[k].params else ""
  }

  lemma {:induction false} MergeParamsOf(es: seq<Entry>, e: Entry, c: char)
    ensures ParamsOf(Merge(es, e), c) ==
            if e.letter == c && ParamsOf(es, c) == "" then e.params else ParamsOf(es, c)
    decreases |es|
  {
    hide ParamsOf, Ok, EntryOk;
    ParamsCons(es, c);
    ParamsCons(Merge(es, e), c);
    ParamsCons([], c);
    if es == [] {
      assert [e][1..] == [];
    } else {
      MergeParamsOf(es[1..], e, c);
      assert Merge(es, e)[1..] == if es[0].letter == e.letter then es[1..] else Merge(es[1..], e);
    }
  }

  lemma ParamsCons(es: seq<Entry>, c: char)
    ensures ParamsOf(es, c) ==
            if es == [] then "" else if es[0].letter == c then es[0].params else ParamsOf(es[1..], c)
  {
  }

  lemma FirstGroupHead(want: seq<Entry>, c: char)
    requires want != [] && want[0].letter == c && want[0].params != ""
    ensures FirstGroup(want, c, want[0].params)
  {
    assert GroupAt(want, c, want[0].params, 0);
  }

  lemma FirstGroupTail(want: seq<Entry>, c: char, p: string)
    requires want != [] && FirstGroup(want[1..], c, p) && (want[0].letter == c ==> want[0].params == "")
    ensures FirstGroup(want, c, p)
  {
    var k: nat :| GroupAt(want[1..], c, p, k);
    assert GroupAt(want, c, p, k + 1) by {
      forall i | 0 <= i < k + 1 && want[i].letter == c ensures want[i].params == "" {
        if i > 0 { assert want[i] == want[1..][i - 1]; }
      }
      assert k < |want[1..]| ==> want[k + 1] == want[1..][k];
    }
  }

  /** A list has one first group for a letter. */
  lemma FirstGroupOnce(want: seq<Entry>, c: char, p: string, q: string)
    requires FirstGroup(want, c, p) && FirstGroup(want, c, q)
    ensures p == q
  {
    var k: nat :| GroupAt(want, c, p, k);
    var l: nat :| GroupAt(want, c, q, l);
  }

  /** The list that decides gives a letter its first group. */
  lemma {:induction false} CollectGroup(es: seq<Entry>, want: seq<Entry>, valid: string, c: char)
    requires c in valid
    ensures var p := ParamsOf(Collect(es, want, valid), c);
            if ParamsOf(es, c) != "" then p == ParamsOf(es, c) else FirstGroup(want, c, p)
    decreases |want|
  {
    if want == [] {
      assert GroupAt(want, c, "", 0);
    } else {
      var e := want[0];
      var es' := if e.letter in valid then Merge(es, e) else es;
      MergeParamsOf(es, e, c);
      CollectGroup(es', want[1..], valid, c);
      if ParamsOf(es, c) == "" {
        if e.letter == c && e.params != "" {
          FirstGroupHead(want, c);
        } else {
          FirstGroupTail(want, c, ParamsOf(Collect(es, want, valid), c));
        }
      }
    }
  }

  lemma HeadIsIndex(want: seq<Entry>, c: char)
    ensures HeadGroup(want, c, ParamsOf(want, c))
  {
    assert HeadAt(want, c, ParamsOf(want, c), Index(want, c));
  }

  /** A later list gives a letter that has no group the one of its first entry. */
  lemma {:induction false} NarrowGroup(es: seq<Entry>, want: seq<Entry>, c: char)
    requires c in Letters(want)
    ensures ParamsOf(Narrow(es, want), c) ==
            if ParamsOf(es, c) != "" || c !in Letters(es) then ParamsOf(es, c) else ParamsOf(want, c)
    decreases |es|
  {
    ParamsCons(es, c);
    hide Ok, EntryOk, ParamsOf, Index, Narrowed;
    if es != [] {
      NarrowGroup(es[1..], want, c);
      LettersCons(es);
      NarrowedGroup(es[0], want, c);
      NarrowHead(Narrowed(es[0], want), Narrow(es[1..], want), c);
    }
  }

  lemma NarrowedGroup(e: Entry, want: seq<Entry>, c: char)
    requires c in Letters(want)
    ensures var r := Narrowed(e, want);
            if e.letter == c then r == [Entry(c, if e.params != "" then e.params else ParamsOf(want, c))]
            else r != [] ==> r[0].letter != c
  {
    IndexHas(want, c);
  }

  lemma NarrowHead(x: seq<Entry>, y: seq<Entry>, c: char)
    requires |x| <= 1
    ensures ParamsOf(x + y, c) == if x != [] && x[0].letter == c then x[0].params else ParamsOf(y, c)
  {
    if x != [] {
      assert (x + y)[1..] == y;
    } else {
      assert x + y == y;
    }
  }

  lemma LaterHead(lists: seq<seq<Entry>>, c: char, p: string)
    requires lists != [] && HeadGroup(lists[0], c, p) && p != ""
    ensures LaterGroup(lists, c, p)
  {
    assert LaterAt(lists, c, p, 0);
  }

  lemma LaterTail(lists: seq<seq<Entry>>, c: char, p: string)
    requires lists != [] && HeadGroup(lists[0], c, "") && LaterGroup(lists[1..], c, p)
    ensures LaterGroup(lists, c, p)
  {
    var k: nat :| LaterAt(lists[1..], c, p, k);
    assert LaterAt(lists, c, p, k + 1) by {
      forall i | 0 <= i < k + 1 ensures HeadGroup(lists[i], c, "") {
        if i > 0 { assert lists[i] == lists[1..][i - 1]; }
      }
      assert k < |lists[1..]| ==> lists[k + 1] == lists[1..][k];
    }
  }

  /** The lists after the one that decides. */
  lemma {:induction false} LaterLists(l: Lists, lists: seq<seq<Entry>>, c: char)
    requires c in Letters(l.chosen) && c in Letters(AddAll(l, lists).chosen)
    ensures var p := ParamsOf(AddAll(l, lists).chosen, c);
            if ParamsOf(l.chosen, c) != "" then p == ParamsOf(l.chosen, c) else LaterGroup(lists, c, p)
    decreases |lists|
  {
    if lists == [] {
      assert LaterAt(lists, c, "", 0);
    } else {
      var want := lists[0];
      var p := ParamsOf(AddAll(l, lists).chosen, c);
      HeadIsIndex(want, c);
      NarrowedBy(l, lists, c);
      if want != [] {
        NarrowLetters(l.chosen, want, c);
        NarrowGroup(l.chosen, want, c);
      }
      LaterLists(Add(l, want), lists[1..], c);
      if ParamsOf(l.chosen, c) == "" {
        if ParamsOf(want, c) != "" { LaterHead(lists, c, p); } else { LaterTail(lists, c, p); }
      }
    }
  }

  lemma ChosenNonempty(l: Lists, lists: seq<seq<Entry>>, c: char)
    requires c in Letters(AddAll(l, lists).chosen) && (l.chosen == [] ==> l.valid == "")
    ensures c in Letters(l.chosen)
  {
    NarrowedBy(l, lists, c);
  }

  lemma DecidesTail(lists: seq<seq<Entry>>, compiled: string, j: nat)
    requires lists != [] && !Usable(lists[0], compiled) && Decides(lists[1..], compiled, j)
    ensures Decides(lists, compiled, j + 1) && lists[j + 1] == lists[1..][j]
    ensures lists[j + 2..] == lists[1..][j + 1..]
  {
    forall i | 0 <= i < j + 1 ensures !Usable(lists[i], compiled) {
      if i > 0 { assert lists[i] == lists[1..][i - 1]; }
    }
  }

  /** Every letter chosen has the parameters it is due. */
  lemma {:induction false} ChosenDue(lists: seq<seq<Entry>>, compiled: string, c: char) returns (j: nat)
    requires c in Letters(AddAll(Lists([], compiled), lists).chosen)
    ensures Decides(lists, compiled, j)
    ensures Due(lists, j, c, ParamsOf(AddAll(Lists([], compiled), lists).chosen, c))
    decreases |lists|
  {
    ChosenLetters(lists, compiled, c);
    if Usable(lists[0], compiled) {
      j := 0;
      var u :| u in compiled && u in Letters(lists[0]);
      CollectLetters([], lists[0], compiled, u);
      var l := Add(Lists([], compiled), lists[0]);
      ChosenNonempty(l, lists[1..], c);
      CollectGroup([], lists[0], compiled, c);
      LaterLists(l, lists[1..], c);
      var p := ParamsOf(l.chosen, c);
      if FirstGroup(lists[0], c, "") { FirstGroupOnce(lists[0], c, p, ""); }
    } else {
      NothingUsable(lists[0], compiled);
      var i := ChosenDue(lists[1..], compiled, c);
      DecidesTail(lists, compiled, i);
      j := i + 1;
    }
  }

  /**
   Every protocol chosen has the parameters due to it: the first group that the list that decides gives
   its letter, or else the first that a later list gives it at its first entry.
   */
  lemma ChosenParams(lists: seq<seq<Entry>>, compiled: string, e: Entry)
    requires e in AddAll(Lists([], compiled), lists).chosen
    ensures exists j: nat :: Decides(lists, compiled, j) && Due(lists, j, e.letter, e.params)
  {
    var es := AddAll(Lists([], compiled), lists).chosen;
    var k :| 0 <= k < |es| && es[k] == e;
    assert Letters(es)[k] == e.letter;
    ChosenDistinct(lists, compiled);
    OnlyEntry(es, k);
    var j := ChosenDue(lists, compiled, e.letter);
  }

  lemma OnlyEntry(es: seq<Entry>, k: nat)
    requires k < |es| && Distinct(Letters(es))
    ensures ParamsOf(es, es[k].letter) == es[k].params
  {
    var i := Index(es, es[k].letter);
    assert Letters(es)[i] == Letters(es)[k];
  }

  /** The letters offered are those wanted, or all that are compiled in if none is. */
  lemma OfferedLetters(lists: seq<seq<Entry>>, compiled: string, c: char)
    ensures (exists d :: Wanted(lists, compiled, d)) ==>
              (c in Offered(lists, compiled) <==> Wanted(lists, compiled, c))
    ensures (forall d :: !Wanted(lists, compiled, d)) ==> Offered(lists, compiled) == compiled
  {
    var es := AddAll(Lists([], compiled), lists).chosen;
    ChosenLetters(lists, compiled, c);
    if es == [] {
      forall d ensures !Wanted(lists, compiled, d) { ChosenLetters(lists, compiled, d); }
    } else {
      ChosenLetters(lists, compiled, es[0].letter);
      assert Letters(es)[0] == es[0].letter;
    }
  }

  // ----- lists that name no letter twice -----

  function Flat(lists: seq<seq<Entry>>): seq<Entry> {
    if lists == [] then [] else lists[0] + Flat(lists[1..])
  }

  lemma {:induction false} FirstGroupAppend(a: seq<Entry>, b: seq<Entry>, c: char, p: string)
    requires if FirstGroup(a, c, "") then FirstGroup(b, c, p) else FirstGroup(a, c, p)
    ensures FirstGroup(a + b, c, p)
  {
    var all := a + b;
    if FirstGroup(a, c, "") {
      var i: nat :| GroupAt(a, c, "", i);
      var k: nat :| GroupAt(b, c, p, k);
      assert GroupAt(all, c, p, |a| + k);
    } else {
      var k: nat :| GroupAt(a, c, p, k);
      assert k < |a| by { assert k == |a| ==> GroupAt(a, c, "", k); }
      assert GroupAt(all, c, p, k);
    }
  }

  lemma HeadIsFirst(want: seq<Entry>, c: char, p: string)
    requires Distinct(Letters(want)) && HeadGroup(want, c, p)
    ensures FirstGroup(want, c, p)
  {
    var k: nat :| HeadAt(want, c, p, k);
    if p != "" {
      assert GroupAt(want, c, p, k);
    } else {
      forall i | 0 <= i < |want| && want[i].letter == c ensures want[i].params == "" {
        assert Letters(want)[i] == c && (k < |want| ==> Letters(want)[k] == c);
      }
      assert GroupAt(want, c, p, |want|);
    }
  }

  lemma {:induction false} LaterIsFirst(lists: seq<seq<Entry>>, c: char, p: string)
    requires (forall i | 0 <= i < |lists| :: Distinct(Letters(lists[i]))) && LaterGroup(lists, c, p)
    ensures FirstGroup(Flat(lists), c, p)
    decreases |lists|
  {
    var k: nat :| LaterAt(lists, c, p, k);
    if lists == [] {
      assert GroupAt(Flat(lists), c, p, 0);
    } else {
      if k == 0 {
        HeadIsFirst(lists[0], c, p);
        if FirstGroup(lists[0], c, "") { FirstGroupOnce(lists[0], c, p, ""); }
      } else {
        HeadIsFirst(lists[0], c, "");
        assert LaterAt(lists[1..], c, p, k - 1);
        LaterIsFirst(lists[1..], c, p);
      }
      FirstGroupAppend(lists[0], Flat(lists[1..]), c, p);
    }
  }

  /** Where no list names a letter twice, a protocol has the first group that any list in use gives it. */
  lemma ChosenFirst(lists: seq<seq<Entry>>, compiled: string, e: Entry)
    requires forall i | 0 <= i < |lists| :: Distinct(Letters(lists[i]))
    requires e in AddAll(Lists([], compiled), lists).chosen
    ensures exists j: nat :: Decides(lists, compiled, j) && FirstGroup(Flat(lists[j..]), e.letter, e.params)
  {
    ChosenParams(lists, compiled, e);
    hide AddAll, FirstGroup, LaterGroup, Decides;
    var j: nat :| Decides(lists, compiled, j) && Due(lists, j, e.letter, e.params);
    DecidesIn(lists, compiled, j);
    DueIsFirst(lists, j, e.letter, e.params);
  }

  lemma DecidesIn(lists: seq<seq<Entry>>, compiled: string, j: nat)
    requires Decides(lists, compiled, j)
    ensures j < |lists|
  {
  }

  lemma DueIsFirst(lists: seq<seq<Entry>>, j: nat, c: char, p: string)
    requires (forall i | 0 <= i < |lists| :: Distinct(Letters(lists[i]))) && j < |lists| && Due(lists, j, c, p)
    ensures FirstGroup(Flat(lists[j..]), c, p)
  {
    hide FirstGroup, LaterGroup, Letters, Distinct;
    if FirstGroup(lists[j], c, "") { LaterIsFirst(lists[j + 1..], c, p); }
    FirstGroupAppend(lists[j], Flat(lists[j + 1..]), c, p);
    assert lists[j..][1..] == lists[j + 1..];
  }

  /** A list that names a letter twice: Systems has g, Devices has gg(7), and g gets no parameters. */
  lemma SecondEntryLost()
    ensures var devices := [Entry('g', ""), Entry('g', "(7)")];
            && AddAll(Lists([], "g"), [[Entry('g', "")], devices]).chosen == [Entry('g', "")]
            && FirstGroup(devices, 'g', "(7)")
  {
    var g, devices := [Entry('g', "")], [Entry('g', ""), Entry('g', "(7)")];
    var all := [g, devices];
    assert g[1..] == [] && all[1..] == [devices] && [devices][1..] == [];
    assert Collect([], g, "g") == g;
    assert Add(Lists([], "g"), g) == Lists(g, "g");
    assert Narrow(g, devices) == g;
    assert AddAll(Lists(g, "g"), [devices]) == Add(Lists(g, "g"), devices);
    assert GroupAt(devices, 'g', "(7)", 1);
  }
}
