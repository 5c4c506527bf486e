/**
 The runs of match, pmatch and nematch (usr/src/cmd/awk/b.c) as functions of the table of states
 and the text: what each step does to the table, where the search ends and what it answers.
 */
module AwkRun {
  import opened AwkRegex
  import opened AwkFollow
  import opened AwkDfa
  import opened AwkSearch

  // ----- what holds of the table at every point of a search -----

  /** The states every search starts from are in place. */
  ghost predicate Based(p: Re, anchor: bool, T: Tab) {
    && Good(Table(p), T) && Faithful(Table(p), T)
    && EntryState(p) <= T.cur
    && T.posns[2] == Home(p, anchor)
    && T.posns[EntryState(p)] == Entry(p, anchor)
  }

  /** State 0 keeps the anchored restart state for pmatch and nematch. */
  ghost predicate Spare(p: Re, anchor: bool, T: Tab)
    requires Shape(T)
  {
    anchor ==> T.posns[0] == Home(p, true) && (T.out[0] <==> Accept(p) in T.posns[0])
  }

  ghost predicate Keeps(p: Re, anchor: bool, family: set<seq<nat>>, T: Tab) {
    && Good(Table(p), T) && Spare(p, anchor, T)
    && (!T.reset ==> Based(p, anchor, T))
    && Within(T, family)
    && (|family| <= NSTATES - 1 ==> !T.reset)
  }

  /** One step of a search on the table. */
  ghost predicate Moved(p: Re, T: Tab, s: nat, c: nat, T': Tab, n: nat, slip: bool)
    requires Good(Table(p), T) && Good(Table(p), T') && s < NSTATES
  {
    && 1 <= n <= T'.cur
    && (Faithful(Table(p), T) ==>
          Elems(T'.posns[n]) == Step(Table(p), Elems(T.posns[s]), c) && (Faithful(Table(p), T') <==> !slip))
    && (slip ==> T'.reset) && (T.reset ==> T'.reset)
  }

  lemma MoveKnown(p: Re, T: Tab, s: nat, c: nat)
    requires Proper(p) && Good(Table(p), T) && 1 <= s <= T.cur && c < HAT && T.go[s][c] != 0
    ensures Moved(p, T, s, c, T, T.go[s][c], false)
  {
    StepInTable(p, Elems(T.posns[s]), c);
    DescElems(Step(Table(p), Elems(T.posns[s]), c), |Table(p)|);
  }

  lemma MoveNew(p: Re, anchor: bool, family: set<seq<nat>>, T: Tab, s: nat, c: nat)
    requires Proper(p) && Keeps(p, anchor, family, T) && Closed(Table(p), family) && 1 <= s <= T.cur && c < HAT
    ensures var l := NextList(Table(p), T.posns[s], c);
            var (T', n) := Enter(T, s, c, l, Accept(p) in l);
            Keeps(p, anchor, family, T') && Moved(p, T, s, c, T', n, Slips(Table(p), T, s, c, l))
  {
    var pts, l := Table(p), NextList(Table(p), T.posns[s], c);
    TableShape(p);
    StepInTable(p, Elems(T.posns[s]), c);
    DescElems(Step(pts, Elems(T.posns[s]), c), |pts|);
    EnterGood(pts, T, s, c, l);
    EnterWithin(pts, T, s, c, family);
    if Faithful(pts, T) { EnterFaithful(pts, T, s, c, l); }
    if |family| <= NSTATES - 1 { SmallFamilyNeverRecycles(pts, T, s, c, family); }
    SameHead(T, Enter(T, s, c, l, Accept(p) in l).0);
  }

  lemma SameHead(T: Tab, T': Tab)
    requires |T.posns| >= 2 && |T'.posns| >= 2 && |T.out| >= 2 && |T'.out| >= 2
    requires T'.posns[..2] == T.posns[..2] && T'.out[..2] == T.out[..2]
    ensures T'.posns[0] == T.posns[0] && T'.posns[1] == T.posns[1] && T'.out[0] == T.out[0] && T'.out[1] == T.out[1]
  {
    assert T.posns[0] == T.posns[..2][0] && T.posns[1] == T.posns[..2][1];
    assert T'.posns[0] == T'.posns[..2][0] && T'.posns[1] == T'.posns[..2][1];
    assert T.out[0] == T.out[..2][0] && T.out[1] == T.out[..2][1];
    assert T'.out[0] == T'.out[..2][0] && T'.out[1] == T'.out[..2][1];
  }

  lemma FreshKeeps(p: Re, anchor: bool, family: set<seq<nat>>, T: Tab)
    requires Proper(p) && Initial(Table(p), Home(p, anchor), Entry(p, anchor), T) && Spare(p, anchor, T)
    requires Closed(Table(p), family) && Home(p, anchor) in family && Entry(p, anchor) in family
    ensures Keeps(p, anchor, family, T) && Based(p, anchor, T) && T.cur == EntryState(p)
  {
    HomeEntry(p, anchor);
    InitialFaithful(Table(p), Home(p, anchor), Entry(p, anchor), T);
    InitialWithin(Table(p), Home(p, anchor), Entry(p, anchor), T, family);
  }

  lemma InitialWithin(pts: seq<At>, home: seq<nat>, entry: seq<nat>, T: Tab, family: set<seq<nat>>)
    requires Initial(pts, home, entry, T) && [] in family && home in family && entry in family
    ensures Within(T, family)
  {
  }

  // ----- the runs -----

  /** What a run needs of the table it goes over. */
  ghost predicate Held(p: Re, anchor: bool, T: Tab) {
    Proper(p) && Good(Table(p), T) && Spare(p, anchor, T)
  }

  lemma EnterHeld(p: Re, anchor: bool, T: Tab, s: nat, c: nat)
    requires Held(p, anchor, T) && 1 <= s <= T.cur && c < HAT
    ensures var l := NextList(Table(p), T.posns[s], c);
            var (T', n) := Enter(T, s, c, l, Accept(p) in l);
            Held(p, anchor, T') && 1 <= n <= T'.cur
  {
    hide Table, Lists, Links, Enter, Home;
    var l := NextList(Table(p), T.posns[s], c);
    TableShape(p);
    EnterGood(Table(p), T, s, c, l);
    SameHead(T, Enter(T, s, c, l, Accept(p) in l).0);
  }

  /** One step: the table and the state after reading c in state s. */
  ghost function Go(p: Re, anchor: bool, T: Tab, s: nat, c: nat): (r: (Tab, nat))
    requires Held(p, anchor, T) && 1 <= s <= T.cur && c < HAT
    ensures Held(p, anchor, r.0) && 1 <= r.1 <= r.0.cur
  {
    if T.go[s][c] != 0 then (T, T.go[s][c])
    else
      var l := NextList(Table(p), T.posns[s], c);
      EnterHeld(p, anchor, T, s, c);
      Enter(T, s, c, l, Accept(p) in l)
  }

  /** The step recycles the table in state 2 and records a wrong transition. */
  ghost predicate GoSlips(p: Re, T: Tab, s: nat, c: nat)
    requires Shape(T) && s < NSTATES && c < NCHARS
  {
    T.go[s][c] == 0 && Slips(Table(p), T, s, c, NextList(Table(p), T.posns[s], c))
  }

  lemma GoRight(p: Re, anchor: bool, family: set<seq<nat>>, T: Tab, s: nat, c: nat)
    requires Held(p, anchor, T) && Keeps(p, anchor, family, T) && Closed(Table(p), family) && 1 <= s <= T.cur && c < HAT
    ensures var (T', n) := Go(p, anchor, T, s, c);
            Keeps(p, anchor, family, T') && Moved(p, T, s, c, T', n, GoSlips(p, T, s, c))
  {
    if T.go[s][c] != 0 {
      MoveKnown(p, T, s, c);
    } else {
      MoveNew(p, anchor, family, T, s, c);
    }
  }

  /** An attempt: the table after it, the longest length found (or what there was) and whether a step slipped. */
  datatype Scanned = Scanned(t: Tab, len: int, slip: bool)

  /** The attempt of pmatch and nematch at i, from character q on. */
  ghost function ScanOn(p: Re, T: Tab, text: seq<nat>, i: nat, q: nat, s: nat, len: int, slip: bool): (r: Scanned)
    requires Held(p, true, T) && 1 <= s <= T.cur && IsText(text) && i <= q <= |text| + 1
    ensures Held(p, true, r.t) && (slip ==> r.slip)
    decreases |text| + 1 - q
  {
    if s == 1 then Scanned(T, len, slip)
    else if q > |text| then Scanned(T, if T.out[s] then q - i - 1 else len, slip)
    else
      var (T', n) := Go(p, true, T, s, CharAt(text, q));
      ScanOn(p, T', text, i, q + 1, n, if T.out[s] then q - i else len, slip || GoSlips(p, T, s, CharAt(text, q)))
  }

  /** The table after the return to state 2: rebuilt from state 0 if it has been recycled. */
  ghost function RestartOn(p: Re, T: Tab): (r: Tab)
    requires Held(p, true, T)
    ensures Held(p, true, r) && 2 <= r.cur && r.reset == T.reset
  {
    if !T.reset then T
    else
      var r := Tab(Dropped(T.posns, T.cur)[2 := T.posns[0]], T.out[2 := T.out[0]], T.go[2 := ZeroRow()], 2, true);
      Rebuilt(p, T, r);
      r
  }

  /** Lists 2..cur given up. */
  function Dropped(posns: seq<seq<nat>>, cur: nat): (r: seq<seq<nat>>)
    requires 2 <= cur < |posns|
    ensures |r| == |posns| && forall k | 0 <= k < |posns| :: r[k] == if 2 <= k <= cur then [] else posns[k]
  {
    posns[..2] + seq(cur - 1, _ => []) + posns[cur + 1..]
  }

  /** A search: the table and the initial state after it, the answer and whether a step slipped. */
  datatype Sought = Sought(t: Tab, initstat: nat, found: bool, patbeg: nat, patlen: int, slip: bool)

  /** pmatch (min 0) and nematch (min 1) from start b on. */
  ghost function SearchOn(p: Re, T: Tab, text: seq<nat>, min: nat, b: nat, s: nat, len: int, init: nat,
                          slip: bool): (r: Sought)
    requires Held(p, true, T) && 1 <= s <= T.cur && IsText(text) && b <= |text| + 1
    ensures Held(p, true, r.t) && (slip ==> r.slip)
    decreases |text| + 1 - b
  {
    if b + min > |text| then Sought(T, init, false, b, len, slip)
    else
      var a := ScanOn(p, T, text, b, b, s, len, slip);
      if a.len >= min then Sought(a.t, init, true, b, a.len, a.slip)
      else SearchOn(p, RestartOn(p, a.t), text, min, b + 1, 2, a.len, if a.t.reset then 2 else init, a.slip)
  }

  // ----- makeinit, and a whole call -----

  /** What makeinit makes of a table. */
  ghost function Remade(p: Re, anchor: bool, T: Tab): (r: Tab)
    requires Proper(p) && HasDead(T)
    ensures Held(p, anchor, r) && Initial(Table(p), Home(p, anchor), Entry(p, anchor), r) && HasDead(r)
    ensures r.cur == EntryState(p)
  {
    RemadeIsInitial(p, anchor, T);
    Scanless(p, anchor, WithHat(p, WithHome(p, T)))
  }

  /** State 2 gets the follow list of position 0. */
  ghost function WithHome(p: Re, T: Tab): Tab
    requires HasDead(T)
  {
    Tab(T.posns[2 := Home(p, false)], T.out[2 := Accept(p) in Home(p, false)], T.go[2 := ZeroRow()], 2, false)
  }

  ghost function WithHat(p: Re, T: Tab): Tab
    requires Shape(T)
  {
    Enter(T, 2, HAT, Entry(p, false), Accept(p) in Entry(p, false)).0
  }

  /** For an anchored automaton position 0 is left out of the initial states, and state 0 keeps state 2. */
  ghost function Scanless(p: Re, anchor: bool, T: Tab): Tab
    requires Shape(T)
  {
    if !anchor then T
    else Tab(T.posns[2 := Home(p, true)][0 := Home(p, true)][T.cur := Entry(p, true)], T.out[0 := T.out[2]], T.go,
        T.cur,
             T.reset)
  }

  lemma WithHomeIs(p: Re, T: Tab)
    requires Proper(p) && HasDead(T)
    ensures OnlyHome(Table(p), Home(p, false), WithHome(p, T))
  {
    TableShape(p);
  }

  lemma ScanlessIs(p: Re, T: Tab)
    requires Proper(p) && Initial(Table(p), Home(p, false), Entry(p, false), T)
    ensures var r := Scanless(p, true, T);
            Initial(Table(p), Home(p, true), Entry(p, true), r) && HasDead(r) && Spare(p, true, r)
  {
    var r := Scanless(p, true, T);
    HomeEntry(p, false);
    HomeEntry(p, true);
    Unscanned(p, T, r);
  }

  lemma RemadeIsInitial(p: Re, anchor: bool, T: Tab)
    requires Proper(p) && HasDead(T)
    ensures var r := Scanless(p, anchor, WithHat(p, WithHome(p, T)));
            && Held(p, anchor, r) && Initial(Table(p), Home(p, anchor), Entry(p, anchor), r) && HasDead(r)
            && r.cur == EntryState(p)
  {
    hide Home, Entry, Table, WithHome, Good;
    WithHomeIs(p, T);
    HomeToHat(p, WithHome(p, T));
    HomeEntry(p, anchor);
    if anchor { ScanlessIs(p, WithHat(p, WithHome(p, T))); }
  }

  /** The table of an automaton that has no states but the dead one. */
  function Blank(): Tab {
    Tab(seq(NSTATES, _ => []), seq(NSTATES, _ => false), seq(NSTATES, _ => ZeroRow()), 2, false)
  }

  /** The table of a new automaton. */
  ghost function New(p: Re, anchor: bool): (r: Tab)
    requires Proper(p)
    ensures Held(p, anchor, r) && Initial(Table(p), Home(p, anchor), Entry(p, anchor), r)
    ensures r.cur == EntryState(p)
  {
    Remade(p, anchor, Blank())
  }

  /** A call of pmatch (min 0) or nematch (min 1) on a table, with that initial state. */
  ghost function Call(p: Re, T: Tab, init: nat, text: seq<nat>, min: nat): (r: Sought)
    requires Held(p, true, T) && IsText(text) && (T.reset || 1 <= init <= T.cur)
    ensures Held(p, true, r.t)
  {
    if !T.reset then SearchOn(p, T, text, min, 0, init, -1, init, false)
    else
      GoodHasDead(Table(p), T);
      SearchOn(p, Remade(p, true, T), text, min, 0, EntryState(p), -1, init, false)
  }

  lemma {:induction false} ScanWithin(p: Re, T: Tab, text: seq<nat>, i: nat, q: nat, s: nat, len: int, slip: bool)
    requires Held(p, true, T) && 1 <= s <= T.cur && IsText(text) && i <= q <= |text| + 1 && i <= |text|
    ensures var r := ScanOn(p, T, text, i, q, s, len, slip); r.len == len || 0 <= r.len <= |text| - i
    decreases |text| + 1 - q
  {
    hide Held, Go, GoSlips;
    if s != 1 && q <= |text| {
      var c := CharAt(text, q);
      var (T', n) := Go(p, true, T, s, c);
      HeldShape(p, true, T);
      ScanWithin(p, T', text, i, q + 1, n, if T.out[s] then q - i else len, slip || GoSlips(p, T, s, c));
    }
  }

  lemma {:induction false} SearchWithin(p: Re, T: Tab, text: seq<nat>, min: nat, b: nat, s: nat, len: int, init: nat,
                                        slip: bool)
    requires Held(p, true, T) && 1 <= s <= T.cur && IsText(text) && b <= |text| + 1 && len < min
    ensures var r := SearchOn(p, T, text, min, b, s, len, init, slip);
            && (r.found ==> min <= r.patlen && b <= r.patbeg && r.patbeg + r.patlen <= |text|)
            && (init == 2 ==> r.initstat == 2)
    decreases |text| + 1 - b
  {
    hide Held, ScanOn, RestartOn;
    if b + min <= |text| {
      ScanWithin(p, T, text, b, b, s, len, slip);
      var a := ScanOn(p, T, text, b, b, s, len, slip);
      if a.len < min {
        SearchWithin(p, RestartOn(p, a.t), text, min, b + 1, 2, a.len, if a.t.reset then 2 else init, a.slip);
      }
    }
  }

  /** On any table at all, what a call finds is a part of the text. */
  lemma CallWithin(p: Re, T: Tab, init: nat, text: seq<nat>, min: nat)
    requires Held(p, true, T) && IsText(text) && (T.reset || 1 <= init <= T.cur)
    ensures var r := Call(p, T, init, text, min);
            && (r.found ==> min <= r.patlen && r.patbeg + r.patlen <= |text|)
            && (init == 2 ==> r.initstat == 2)
  {
    hide Held, SearchOn;
    if T.reset {
      CallOnReset(p, T, init, text, min);
      SearchWithin(p, Remade(p, true, T), text, min, 0, EntryState(p), -1, init, false);
    } else {
      SearchWithin(p, T, text, min, 0, init, -1, init, false);
    }
  }

  lemma CallOnReset(p: Re, T: Tab, init: nat, text: seq<nat>, min: nat)
    requires Held(p, true, T) && IsText(text) && T.reset
    ensures Proper(p) && HasDead(T)
    ensures Call(p, T, init, text, min) ==
            SearchOn(p, Remade(p, true, T), text, min, 0, EntryState(p), -1, init, false)
  {
    hide SearchOn;
    GoodHasDead(Table(p), T);
  }

  datatype Matched = Matched(t: Tab, found: bool, slip: bool)

  /** match from character q on. */
  ghost function MatchOn(p: Re, T: Tab, text: seq<nat>, q: nat, s: nat, slip: bool): (r: Matched)
    requires Held(p, false, T) && 1 <= s <= T.cur && IsText(text) && q <= |text| + 1
    ensures Held(p, false, r.t) && (slip ==> r.slip)
    decreases |text| + 1 - q
  {
    if T.out[s] || q > |text| then Matched(T, T.out[s], slip)
    else
      var (T', n) := Go(p, false, T, s, CharAt(text, q));
      MatchOn(p, T', text, q + 1, n, slip || GoSlips(p, T, s, CharAt(text, q)))
  }

  /** A call of match on a table. */
  ghost function CallMatch(p: Re, T: Tab, text: seq<nat>): (r: Matched)
    requires Held(p, false, T) && IsText(text) && (T.reset || EntryState(p) <= T.cur)
    ensures Held(p, false, r.t)
  {
    if !T.reset then MatchOn(p, T, text, 0, EntryState(p), false)
    else
      GoodHasDead(Table(p), T);
      MatchOn(p, Remade(p, false, T), text, 0, EntryState(p), false)
  }

  // ----- why they answer rightly -----

  lemma OutIsAccept(p: Re, T: Tab, s: nat)
    requires Proper(p) && Good(Table(p), T) && 1 <= s <= T.cur
    ensures T.out[s] <==> Accept(p) in Elems(T.posns[s])
  {
    TableShape(p);
  }

  /** In the attempt at i, characters i..q-1 have been read and the machine is in state s. */
  ghost predicate AttemptOn(p: Re, family: set<seq<nat>>, T: Tab, text: seq<nat>, hats: bool, i: nat, q: nat,
                            s: nat, min: nat, len: int, slip: bool)
    requires i <= |text| && i <= q <= |text| + 1
  {
    && Keeps(p, true, family, T) && 1 <= s <= T.cur && (slip ==> T.reset) && (len >= min ==> i + len < q)
    && (!slip ==>
          && Faithful(Table(p), T) && Best(p, text, hats, i, q, min, len)
          && Elems(T.posns[s]) == if q <= |text| then Upto(p, text, hats, i, q) else ToEnd(p, text, hats, i))
  }

  lemma RoundOn(p: Re, family: set<seq<nat>>, T: Tab, text: seq<nat>, hats: bool, i: nat, q: nat,
                s: nat, min: nat, len: int, slip: bool)
    requires Held(p, true, T) && Closed(Table(p), family) && IsText(text)
    requires i <= q <= |text| && AttemptOn(p, family, T, text, hats, i, q, s, min, len, slip)
    ensures var (T', n) := Go(p, true, T, s, CharAt(text, q));
            && AttemptOn(p, family, T', text, hats, i, q + 1, n, min, if T.out[s] then q - i else len,
                         slip || GoSlips(p, T, s, CharAt(text, q)))
            && (T.reset ==> T'.reset)
  {
    GoRight(p, true, family, T, s, CharAt(text, q));
    OutIsAccept(p, T, s);
    if !slip { BestStep(p, text, hats, i, q, min, len); }
  }

  /** What an attempt at i leaves behind. */
  ghost predicate Tried(p: Re, family: set<seq<nat>>, r: Scanned, text: seq<nat>, hats: bool, i: nat, min: nat)
    requires i <= |text|
  {
    && Keeps(p, true, family, r.t) && (r.slip ==> r.t.reset) && (r.len >= min ==> i + r.len <= |text|)
    && (!r.slip ==> Outcome(p, text, hats, i, min, r.len))
  }

  /** Without a slip the attempt finds the longest match from i. */
  lemma {:induction false} ScanRight(p: Re, family: set<seq<nat>>, T: Tab, text: seq<nat>, hats: bool, i: nat, q: nat,
                                     s: nat, min: nat, len: int, slip: bool)
    requires Held(p, true, T) && Closed(Table(p), family) && IsText(text) && i <= |text| && i <= q <= |text| + 1
    requires AttemptOn(p, family, T, text, hats, i, q, s, min, len, slip)
    ensures var r := ScanOn(p, T, text, i, q, s, len, slip);
            Tried(p, family, r, text, hats, i, min) && (T.reset ==> r.t.reset)
    decreases |text| + 1 - q
  {
    if s == 1 {
      if !slip {
        assert Elems(T.posns[1]) == {};
        Concluded(p, text, hats, i, q, min, len);
      }
    } else if q > |text| {
      OutIsAccept(p, T, s);
      if !slip { Ended(p, text, hats, i, min, if T.out[s] then q - i - 1 else len); }
    } else {
      RoundOn(p, family, T, text, hats, i, q, s, min, len, slip);
      var (T', n) := Go(p, true, T, s, CharAt(text, q));
      ScanRight(p, family, T', text, hats, i, q + 1, n, min, if T.out[s] then q - i else len,
                slip || GoSlips(p, T, s, CharAt(text, q)));
    }
  }

  /** No start before b has a match of min characters, and the search stands before start b. */
  ghost predicate Searching(p: Re, family: set<seq<nat>>, T: Tab, text: seq<nat>, hats: bool, b: nat,
                            s: nat, min: nat, len: int, init: nat, slip: bool)
  {
    && Keeps(p, true, family, T) && Faithful(Table(p), T) && 1 <= s <= T.cur
    && Elems(T.posns[s]) == From(p, hats, b) && len < min
    && (init == EntryState(p) || init == 2) && (slip ==> T.reset)
    && (!slip ==> NoneBefore(p, text, hats, min, b))
  }

  /** What a search leaves behind. */
  ghost predicate Settled(p: Re, family: set<seq<nat>>, r: Sought, text: seq<nat>, hats: bool, min: nat, init: nat) {
    && Keeps(p, true, family, r.t) && (r.initstat == EntryState(p) || r.initstat == 2)
    && (r.slip ==> r.t.reset) && (!r.t.reset ==> r.initstat == init)
    && (r.found ==> min <= r.patlen && r.patbeg + r.patlen <= |text|)
    && (!r.slip ==>
          if r.found then LeftmostLongest(p, text, hats, min, r.patbeg, r.patlen) else NoMatch(p, text, hats, min))
  }

  lemma RestartRight(p: Re, family: set<seq<nat>>, T: Tab)
    requires Held(p, true, T) && Keeps(p, true, family, T) && Home(p, true) in family && [] in family
    ensures var T' := RestartOn(p, T);
            && Keeps(p, true, family, T') && Faithful(Table(p), T') && Elems(T'.posns[2]) == Bare(p)
            && T'.reset == T.reset
  {
    HomeEntry(p, true);
    if T.reset { Rebuilt(p, T, RestartOn(p, T)); }
  }

  lemma AttemptBegins(p: Re, family: set<seq<nat>>, T: Tab, text: seq<nat>, hats: bool, b: nat,
                      s: nat, min: nat, len: int, init: nat, slip: bool)
    requires b <= |text| && Searching(p, family, T, text, hats, b, s, min, len, init, slip)
    ensures AttemptOn(p, family, T, text, hats, b, b, s, min, len, slip)
  {
    NothingRead(p, text, hats, b, min, len);
  }

  lemma PastEnd(p: Re, text: seq<nat>, hats: bool, min: nat, b: nat)
    requires b + min > |text| && NoneBefore(p, text, hats, min, b)
    ensures NoMatch(p, text, hats, min)
  {
  }

  lemma NextBegins(p: Re, family: set<seq<nat>>, a: Scanned, text: seq<nat>, hats: bool, b: nat,
                   min: nat, init: nat, slip: bool)
    requires Held(p, true, a.t) && b <= |text| && Tried(p, family, a, text, hats, b, min) && a.len < min
    requires Home(p, true) in family && [] in family && (init == EntryState(p) || init == 2)
    requires (slip ==> a.slip) && (!slip ==> NoneBefore(p, text, hats, min, b))
    ensures Searching(p, family, RestartOn(p, a.t), text, hats, b + 1, 2, min, a.len,
                      if a.t.reset then 2 else init, a.slip)
  {
    hide Held, Keeps, Faithful, Outcome, RestartOn;
    RestartRight(p, family, a.t);
    if !a.slip { OutcomeAt(p, text, hats, min, b, a.len); }
  }

  /** Without a slip the search finds the leftmost match of min characters and, there, the longest. */
  lemma {:induction false} SearchRight(p: Re, family: set<seq<nat>>, T: Tab, text: seq<nat>, hats: bool, b: nat,
                                       s: nat, min: nat, len: int, init: nat, slip: bool)
    requires Held(p, true, T) && Closed(Table(p), family) && Home(p, true) in family && IsText(text)
    requires min <= 1 && b <= |text| + 1 && Searching(p, family, T, text, hats, b, s, min, len, init, slip)
    ensures var r := SearchOn(p, T, text, min, b, s, len, init, slip);
            Settled(p, family, r, text, hats, min, init) && (T.reset ==> r.t.reset)
    decreases |text| + 1 - b
  {
    hide Held, Keeps, Faithful, Outcome, NoneBefore, LeftmostLongest, ScanOn, RestartOn, Best, From, IsText;
    if b + min > |text| {
      if !slip { PastEnd(p, text, hats, min, b); }
    } else {
      AttemptBegins(p, family, T, text, hats, b, s, min, len, init, slip);
      ScanRight(p, family, T, text, hats, b, b, s, min, len, slip);
      var a := ScanOn(p, T, text, b, b, s, len, slip);
      if a.len >= min {
        if !a.slip { OutcomeAt(p, text, hats, min, b, a.len); }
      } else {
        var T', init' := RestartOn(p, a.t), if a.t.reset then 2 else init;
        NextBegins(p, family, a, text, hats, b, min, init, slip);
        SearchRight(p, family, T', text, hats, b + 1, 2, min, a.len, init', a.slip);
      }
    }
  }

  /** q characters of the text and its NUL have been read by match. */
  ghost predicate Reading(p: Re, family: set<seq<nat>>, T: Tab, text: seq<nat>, q: nat, s: nat, slip: bool)
    requires q <= |text| + 1
  {
    && Keeps(p, false, family, T) && 1 <= s <= T.cur && (slip ==> T.reset)
    && (!slip ==>
          && Faithful(Table(p), T) && Elems(T.posns[s]) == Prefix(p, text, q)
          && forall k | 0 <= k < q :: Accept(p) !in Prefix(p, text, k))
  }

  /** Without a slip match tells whether the text contains a match. */
  lemma {:induction false} MatchRight(p: Re, family: set<seq<nat>>, T: Tab, text: seq<nat>, q: nat, s: nat, slip: bool)
    requires Held(p, false, T) && Closed(Table(p), family) && IsText(text)
    requires q <= |text| + 1 && Reading(p, family, T, text, q, s, slip)
    ensures var r := MatchOn(p, T, text, q, s, slip);
            Keeps(p, false, family, r.t) && (r.slip ==> r.t.reset) && (!r.slip ==> (r.found <==> Occurs(p, text, true)))
    decreases |text| + 1 - q
  {
    OutIsAccept(p, T, s);
    if T.out[s] || q > |text| {
      if !slip { Answered(p, text, q, T.out[s]); }
    } else {
      var c := CharAt(text, q);
      PrefixStep(p, text, q);
      GoRight(p, false, family, T, s, c);
      var (T', n) := Go(p, false, T, s, c);
      MatchRight(p, family, T', text, q + 1, n, slip || GoSlips(p, T, s, c));
    }
  }

  /** The states a search can start in. */
  lemma SearchStarts(p: Re, family: set<seq<nat>>, T: Tab, text: seq<nat>, hats: bool, s: nat, min: nat, init: nat)
    requires Proper(p) && Keeps(p, true, family, T) && Based(p, true, T)
    requires s == (if hats then EntryState(p) else 2) && (init == EntryState(p) || init == 2)
    ensures Held(p, true, T) && Searching(p, family, T, text, hats, 0, s, min, -1, init, false)
  {
    HomeEntry(p, true);
  }

  /** What any call leaves behind, from a table that earlier calls may have left. */
  lemma CallRight(p: Re, family: set<seq<nat>>, T: Tab, init: nat, text: seq<nat>, min: nat)
    requires Held(p, true, T) && Keeps(p, true, family, T) && (init == EntryState(p) || init == 2)
    requires Closed(Table(p), family) && Home(p, true) in family && Entry(p, true) in family && IsText(text) && min <= 1
    ensures T.reset || 1 <= init <= T.cur
    ensures Settled(p, family, Call(p, T, init, text, min), text, T.reset || init == EntryState(p), min, init)
  {
    hide Table, Home, Entry, Faithful, Settled, SearchOn;
    var hats := T.reset || init == EntryState(p);
    if T.reset {
      GoodHasDead(Table(p), T);
      var T' := Remade(p, true, T);
      FreshKeeps(p, true, family, T');
      SearchStarts(p, family, T', text, hats, EntryState(p), min, init);
      SearchRight(p, family, T', text, hats, 0, EntryState(p), min, -1, init, false);
    } else {
      SearchStarts(p, family, T, text, hats, init, min, init);
      SearchRight(p, family, T, text, hats, 0, init, min, -1, init, false);
    }
  }

  lemma MatchStarts(p: Re, family: set<seq<nat>>, T: Tab, text: seq<nat>)
    requires Proper(p) && Keeps(p, false, family, T) && Based(p, false, T)
    ensures Held(p, false, T) && Reading(p, family, T, text, 0, EntryState(p), false)
  {
    HomeEntry(p, false);
    NothingFed(p, text);
  }

  // ----- when a run slips -----

  /** Every table the attempt goes over records only right transitions. */
  ghost predicate ScanFaithful(p: Re, T: Tab, text: seq<nat>, q: nat, s: nat)
    requires Held(p, true, T) && 1 <= s <= T.cur && IsText(text) && q <= |text| + 1
    decreases |text| + 1 - q
  {
    && Faithful(Table(p), T)
    && (s != 1 && q <= |text| ==>
          var (T', n) := Go(p, true, T, s, CharAt(text, q)); ScanFaithful(p, T', text, q + 1, n))
  }

  /** Every table the search goes over does. */
  ghost predicate SearchFaithful(p: Re, T: Tab, text: seq<nat>, min: nat, b: nat, s: nat, len: int)
    requires Held(p, true, T) && 1 <= s <= T.cur && IsText(text) && b <= |text| + 1
    decreases |text| + 1 - b
  {
    b + min <= |text| ==>
      && ScanFaithful(p, T, text, b, s)
      && (var a := ScanOn(p, T, text, b, b, s, len, false);
          a.len < min ==> SearchFaithful(p, RestartOn(p, a.t), text, min, b + 1, 2, a.len))
  }

  lemma {:induction false} ScanSlips(p: Re, T: Tab, text: seq<nat>, i: nat, q: nat, s: nat, len: int)
    requires Held(p, true, T) && 1 <= s <= T.cur && IsText(text) && i <= q <= |text| + 1 && Faithful(Table(p), T)
    ensures var r := ScanOn(p, T, text, i, q, s, len, false);
            && (r.slip <==> !ScanFaithful(p, T, text, q, s))
            && (!r.slip ==> Faithful(Table(p), r.t))
    decreases |text| + 1 - q
  {
    hide Held, Faithful, Go, GoSlips;
    if s != 1 && q <= |text| {
      var c := CharAt(text, q);
      var (T', n) := Go(p, true, T, s, c);
      HeldShape(p, true, T);
      var len' := if T.out[s] then q - i else len;
      GoFaithful(p, true, T, s, c);
      if !GoSlips(p, T, s, c) { ScanSlips(p, T', text, i, q + 1, n, len'); }
    }
  }

  lemma HeldShape(p: Re, anchor: bool, T: Tab)
    requires Held(p, anchor, T)
    ensures Shape(T)
  {
  }

  lemma GoFaithful(p: Re, anchor: bool, T: Tab, s: nat, c: nat)
    requires Held(p, anchor, T) && 1 <= s <= T.cur && c < HAT && Faithful(Table(p), T)
    ensures Faithful(Table(p), Go(p, anchor, T, s, c).0) <==> !GoSlips(p, T, s, c)
  {
    TableShape(p);
    if T.go[s][c] == 0 { EnterFaithful(Table(p), T, s, c, NextList(Table(p), T.posns[s], c)); }
  }

  lemma RestartFaithful(p: Re, T: Tab)
    requires Held(p, true, T) && (T.reset || Faithful(Table(p), T))
    ensures Faithful(Table(p), RestartOn(p, T))
  {
    if T.reset { Rebuilt(p, T, RestartOn(p, T)); }
  }

  /** A search slips exactly when some table on its way records a wrong transition. */
  lemma {:induction false} SearchSlips(p: Re, T: Tab, text: seq<nat>, min: nat, b: nat, s: nat, len: int, init: nat)
    requires Held(p, true, T) && 1 <= s <= T.cur && IsText(text) && b <= |text| + 1 && Faithful(Table(p), T)
    ensures SearchOn(p, T, text, min, b, s, len, init, false).slip <==> !SearchFaithful(p, T, text, min, b, s, len)
    decreases |text| + 1 - b
  {
    hide Held, ScanOn, RestartOn, Faithful;
    if b + min <= |text| {
      ScanSlips(p, T, text, b, b, s, len);
      var a := ScanOn(p, T, text, b, b, s, len, false);
      if a.len < min {
        if !a.slip {
          RestartFaithful(p, a.t);
          SearchSlips(p, RestartOn(p, a.t), text, min, b + 1, 2, a.len, if a.t.reset then 2 else init);
        }
      }
    }
  }
}
