/**
 How ^ is lost (pmatch in usr/src/cmd/awk/b.c). The expression is ^b, or thirty-two a's and c. A text
 of thirty-two a's recycles the table in the first attempt, and the return to state 2 makes that
 the initial state for good. The next call makes the table anew and clears the mark, and from then
 on ^b is not found.
 */
module AwkCaret {
  import opened AwkRegex
  import opened AwkFollow
  import opened AwkDfa
  import opened AwkSearch
  import opened AwkRun
  import opened AwkFa
  import opened AwkLimits
  import opened AwkSlip

  const B: nat := 98
  const C: nat := 99

  // ----- the expression -----

  function Caret(): Re {
    Or(Cat(Leaf(0, Char(HAT)), Leaf(0, Char(B))), Cat(Literal(NSTATES - 1), Leaf(0, Char(C))))
  }

  function As(n: nat): (t: seq<nat>)
    ensures |t| == n && forall k | 0 <= k < n :: t[k] == A
  {
    seq(n, _ => A)
  }

  predicate LongWord(w: Word) {
    |w| == NSTATES + 1 && w[NSTATES] == C && AllA(w[..NSTATES], NSTATES)
  }

  lemma CaretLang(w: Word)
    ensures Lang(Caret(), w) <==> w == [HAT, B] || LongWord(w)
  {
    var l, c := Literal(NSTATES - 1), Leaf(0, Char(C));
    hide Literal, AllA;
    HatLang(w);
    if Lang(Cat(l, c), w) {
      var i := CatElim(l, c, w);
      LiteralLang(NSTATES - 1, w[..i]);
      AllALong(w[..i], NSTATES);
      assert w[i..][0] == w[i];
    }
    if LongWord(w) {
      LiteralLang(NSTATES - 1, w[..NSTATES]);
      assert w[NSTATES..] == [C];
      CatIntro(l, c, w, NSTATES);
    }
  }

  lemma HatLang(w: Word)
    ensures Lang(Cat(Leaf(0, Char(HAT)), Leaf(0, Char(B))), w) <==> w == [HAT, B]
  {
    if w == [HAT, B] { assert w[..1] == [HAT] && w[1..] == [B]; }
  }

  lemma CaretProper()
    ensures Proper(Caret())
  {
    LiteralProper(NSTATES - 1);
  }

  /** ^ makes a difference, so the initial state is not state 2. */
  lemma CaretEntry()
    ensures Proper(Caret()) && EntryState(Caret()) == 3
  {
    hide Caret, Table, Bare, BareHat, Scanning, ScanningHat, LongWord;
    CaretProper();
    StartSets(Caret());
    BareAccepts(Caret(), [B]);
    BareHatAccepts(Caret(), [B]);
    CaretLang([B]);
    assert [HAT] + [B] == [HAT, B];
    CaretLang([HAT, B]);
    NotLong([B]);
  }

  lemma NotLong(w: Word)
    requires |w| <= NSTATES
    ensures !LongWord(w)
  {
  }

  // ----- different sets along the a's -----

  /** The positions after k a's. */
  ghost function After(k: nat): set<nat>
    requires k <= NSTATES
  {
    Upto(Caret(), As(NSTATES), true, 0, k)
  }

  /** The a's from j on, and c. */
  function Rest(j: nat): Word
    requires j <= NSTATES
  {
    As(NSTATES - j) + [C]
  }

  lemma RestLang(k: nat, j: nat)
    requires k <= NSTATES && j <= NSTATES
    ensures var w := As(NSTATES)[0..k] + Rest(j);
            Lang(Caret(), w) || Lang(Caret(), [HAT] + w) <==> k == j
  {
    hide Caret, LongWord, Lang;
    var w := As(NSTATES)[0..k] + Rest(j);
    CaretLang(w);
    CaretLang([HAT] + w);
    LongIff(w, k + NSTATES - j);
    LongNoHat(w);
    assert w[|w| - 1] == C && ([HAT] + w)[|w|] == C;
  }

  /** From there the rest of the long word is accepted, and no other part of it. */
  lemma Tells(k: nat, j: nat)
    requires k <= NSTATES && j <= NSTATES
    ensures Accept(Caret()) in Run(Table(Caret()), After(k), Rest(j)) <==> k == j
  {
    hide Caret, Table, From, Lang, Rest, Proper, Run;
    CaretProper();
    var u := As(NSTATES)[0..k];
    RunSplit(Table(Caret()), From(Caret(), true, 0), u, Rest(j));
    FromAccepts(Caret(), true, 0, u + Rest(j));
    RestLang(k, j);
  }

  lemma LongIff(w: Word, n: nat)
    requires |w| == n + 1 && w[n] == C && forall i | 0 <= i < n :: w[i] == A
    ensures LongWord(w) <==> n == NSTATES
  {
  }

  lemma LongNoHat(w: Word)
    ensures !LongWord([HAT] + w)
  {
    var v := [HAT] + w;
    if |v| == NSTATES + 1 { assert v[..NSTATES][0] == HAT; }
  }

  lemma AllDifferent(j: nat, k: nat)
    requires j <= NSTATES && k <= NSTATES
    ensures After(k) != {} && (j != k ==> After(j) != After(k))
  {
    hide After, Table, Caret, Rest;
    Tells(k, k);
    RunEmpty(Table(Caret()), Rest(k));
    Tells(j, k);
  }

  // ----- a table that is not recycled keeps its lists -----

  ghost predicate Live(T: Tab, S: set<nat>)
    requires Shape(T)
  {
    exists s | 1 <= s <= T.cur :: Elems(T.posns[s]) == S
  }

  lemma GoLive(p: Re, T: Tab, s: nat, c: nat, S: set<nat>)
    requires Held(p, true, T) && 1 <= s <= T.cur && c < HAT
    ensures var T' := Go(p, true, T, s, c).0;
            && Shape(T') && (T.reset ==> T'.reset) && (!T'.reset && Live(T, S) ==> Live(T', S))
  {
    hide Table, Elems, Lists, Links, Enter, NextList;
    if T.go[s][c] == 0 {
      var l := NextList(Table(p), T.posns[s], c);
      TableShape(p);
      EnterGood(Table(p), T, s, c, l);
      if Live(T, S) {
        var x :| 1 <= x <= T.cur && Elems(T.posns[x]) == S;
        assert !Recycles(T, l) ==> Enter(T, s, c, l, Accept(p) in l).0.posns[x] == T.posns[x];
      }
    }
  }

  lemma {:induction false} ScanLive(p: Re, T: Tab, text: seq<nat>, i: nat, q: nat, s: nat, len: int, slip: bool,
                                    S: set<nat>)
    requires Held(p, true, T) && 1 <= s <= T.cur && IsText(text) && i <= q <= |text| + 1
    ensures var r := ScanOn(p, T, text, i, q, s, len, slip);
            && Shape(T) && Shape(r.t) && (T.reset ==> r.t.reset) && (!r.t.reset && Live(T, S) ==> Live(r.t, S))
    decreases |text| + 1 - q
  {
    hide Held, Go, Live, GoSlips;
    HeldShape(p, true, T);
    if s != 1 && q <= |text| {
      var c := CharAt(text, q);
      var (T', n) := Go(p, true, T, s, c);
      GoLive(p, T, s, c, S);
      ScanLive(p, T', text, i, q + 1, n, if T.out[s] then q - i else len, slip || GoSlips(p, T, s, c), S);
    }
  }

  /** If the attempt does not recycle the table, every set it goes through is in it at the end. */
  lemma {:induction false} ScanVisits(p: Re, family: set<seq<nat>>, T: Tab, text: seq<nat>, hats: bool, i: nat, q: nat,
                                      s: nat, len: int, slip: bool, k: nat)
    requires Held(p, true, T) && Closed(Table(p), family) && IsText(text) && i <= q <= k <= |text|
    requires AttemptOn(p, family, T, text, hats, i, q, s, 0, len, slip)
    requires forall j | q <= j <= k :: Upto(p, text, hats, i, j) != {}
    ensures var r := ScanOn(p, T, text, i, q, s, len, slip);
            Shape(r.t) && (!r.t.reset ==> Live(r.t, Upto(p, text, hats, i, k)))
    decreases k - q
  {
    hide Table, Keeps, Best, Faithful, Closed, Upto, Live, Go, GoSlips, Held;
    var r := ScanOn(p, T, text, i, q, s, len, slip);
    ScanLive(p, T, text, i, q, s, len, slip, Upto(p, text, hats, i, k));
    if !r.t.reset {
      NotDead(p, family, T, text, hats, i, q, s, len, slip);
      if q < k {
        RoundOn(p, family, T, text, hats, i, q, s, 0, len, slip);
        var c := CharAt(text, q);
        var (T', n) := Go(p, true, T, s, c);
        ScanVisits(p, family, T', text, hats, i, q + 1, n, if T.out[s] then q - i else len,
                   slip || GoSlips(p, T, s, c), k);
      }
    }
  }

  lemma NotDead(p: Re, family: set<seq<nat>>, T: Tab, text: seq<nat>, hats: bool, i: nat, q: nat, s: nat, len: int,
                slip: bool)
    requires i <= q <= |text| && AttemptOn(p, family, T, text, hats, i, q, s, 0, len, slip) && !T.reset
    requires Upto(p, text, hats, i, q) != {}
    ensures Shape(T) && s != 1 && !slip && Live(T, Upto(p, text, hats, i, q))
  {
    hide Upto, Table;
    assert Elems([]) == {};
    assert T.posns[1] == [];
  }

  ghost predicate Different(sets: seq<set<nat>>) {
    && (forall j | 0 <= j < |sets| :: sets[j] != {})
    && (forall j, k | 0 <= j < k < |sets| :: sets[j] != sets[k])
  }

  /** Different sets need different states. */
  lemma {:induction false} States(T: Tab, sets: seq<set<nat>>, k: nat) returns (Q: set<nat>)
    requires Shape(T) && T.posns[1] == [] && k <= |sets| && Different(sets) && forall j | 0 <= j < k :: Live(T, sets[j])
    ensures |Q| == k && forall s | s in Q :: 2 <= s <= T.cur && exists j | 0 <= j < k :: Elems(T.posns[s]) == sets[j]
  {
    if k == 0 {
      Q := {};
    } else {
      var Q' := States(T, sets, k - 1);
      assert Live(T, sets[k - 1]);
      var s: nat :| 1 <= s <= T.cur && Elems(T.posns[s]) == sets[k - 1];
      assert s != 1 by { assert Elems([]) == {}; }
      assert s !in Q';
      Q := Q' + {s};
    }
  }

  lemma {:induction false} RangeSize(n: nat) returns (R: set<nat>)
    ensures |R| == n && forall s: nat :: s in R <==> s < n
  {
    if n == 0 { R := {}; } else { var R' := RangeSize(n - 1); R := R' + {n - 1}; }
  }

  /** More than thirty-two cannot all be in the table. */
  lemma TooMany(T: Tab, sets: seq<set<nat>>) returns (j: nat)
    requires Shape(T) && T.posns[1] == [] && Different(sets) && |sets| > NSTATES
    ensures j < |sets| && !Live(T, sets[j])
  {
    hide Live;
    if forall j | 0 <= j < |sets| :: Live(T, sets[j]) {
      var Q := States(T, sets, |sets|);
      var R := RangeSize(NSTATES);
      SubsetSize(Q, R);
      assert false;
    }
    j :| j < |sets| && !Live(T, sets[j]);
  }

  /** The sets along the a's. */
  ghost function Along(): seq<set<nat>> {
    seq(NSTATES + 1, k requires 0 <= k <= NSTATES => After(k))
  }

  lemma AlongDiffers()
    ensures Different(Along())
  {
    hide After;
    forall j: nat, k: nat | j <= NSTATES && k <= NSTATES ensures After(k) != {} && (j != k ==> After(j) != After(k)) {
      AllDifferent(j, k);
    }
  }

  // ----- nothing is accepted by the way -----

  /** No state is accepting, nor is what state 0 keeps. */
  ghost predicate Quiet(T: Tab) {
    Shape(T) && forall s | 0 <= s <= T.cur :: !T.out[s]
  }

  /** Where the leaves stand: ^ at 1, b at 2, the a's at 3..34 and c at 35. */
  ghost predicate Layout(pts: seq<At>) {
    && |pts| == NSTATES + 5
    && pts[0].sym == All && pts[1].sym == Char(HAT) && pts[2].sym == Char(B)
    && (forall j | 3 <= j < NSTATES + 3 :: pts[j].sym == Char(A) && FollowSet(pts[j].ctx) == {j + 1})
    && pts[NSTATES + 3].sym == Char(C) && pts[NSTATES + 4].sym == Final
  }

  lemma CaretUser()
    ensures Leaves(Caret()) == NSTATES + 3
    ensures User(Caret()) == Or(Cat(Leaf(1, Char(HAT)), Leaf(2, Char(B))),
                                Cat(Numbered(Literal(NSTATES - 1), 3), Leaf(NSTATES + 3, Char(C))))
  {
    LiteralProper(NSTATES - 1);
    var l, r := Cat(Leaf(0, Char(HAT)), Leaf(0, Char(B))), Cat(Literal(NSTATES - 1), Leaf(0, Char(C)));
    hide Literal;
    assert Leaves(l) == 2;
    assert Numbered(l, 1) == Cat(Leaf(1, Char(HAT)), Leaf(2, Char(B)));
    assert Numbered(r, 3) == Cat(Numbered(Literal(NSTATES - 1), 3), Leaf(NSTATES + 3, Char(C)));
  }

  lemma CaretLayout()
    ensures Layout(Table(Caret()))
  {
    var p := Caret();
    CaretUser();
    TableShape(p);
    hide Table, Caret, User, Numbered;
    var up := InOr(CatRight(AfterUser(p)));
    var c := Leaf(NSTATES + 3, Char(C));
    LiteralPoints(NSTATES - 1, 3, CatLeft(c, up));
    var u := Points(Numbered(Literal(NSTATES - 1), 3), CatLeft(c, up));
    var b := Leaf(2, Char(B));
    assert FollowSet(CatLeft(c, up)) == {NSTATES + 3};
    assert Points(Cat(Leaf(1, Char(HAT)), b), up) == [At(Char(HAT), CatLeft(b, up)), At(Char(B), CatRight(up))];
    LayoutOf(Table(p), Table(p)[0], CatLeft(b, up), CatRight(up), u, CatRight(up), Table(p)[|Table(p)| - 1]);
  }

  lemma LayoutOf(pts: seq<At>, all: At, k: Ctx, l: Ctx, u: seq<At>, m: Ctx, fin: At)
    requires pts == [all] + ([At(Char(HAT), k), At(Char(B), l)] + (u + [At(Char(C), m)])) + [fin]
    requires all.sym == All && fin.sym == Final && AsInOrder(u, NSTATES - 1, 3, {NSTATES + 3})
    ensures Layout(pts)
  {
    hide FollowSet;
    forall j | 3 <= j < NSTATES + 3 ensures pts[j] == u[j - 3] {}
    assert pts[NSTATES + 3] == At(Char(C), m);
  }

  /** a does not lead to the end, and the NUL leads nowhere. */
  lemma NoEnd(S: set<nat>)
    ensures Accept(Caret()) !in Step(Table(Caret()), S, A)
    ensures Step(Table(Caret()), S, 0) == {}
  {
    CaretUser();
    CaretLayout();
    hide Table, Caret, Step, Layout, User;
    StartsNotAccepted();
    NoEndIn(Table(Caret()), S);
  }

  lemma NoEndIn(pts: seq<At>, S: set<nat>)
    requires Layout(pts) && NSTATES + 4 !in FollowSet(pts[0].ctx)
    ensures NSTATES + 4 !in Step(pts, S, A) && Step(pts, S, 0) == {}
  {
    hide FollowSet;
    if NSTATES + 4 in Step(pts, S, A) {
      var q: nat :| q in S && q < |pts| && Matches(pts[q].sym, A) && NSTATES + 4 in FollowSet(pts[q].ctx);
      assert false;
    }
    forall q | 0 <= q < |pts| ensures !Matches(pts[q].sym, 0) {}
  }

  /** None of the starting sets accepts, and position 0 leads to one of them. */
  lemma StartsNotAccepted()
    ensures var p := Caret(); Accept(p) !in Bare(p) && Accept(p) !in BareHat(p)
    ensures var p := Caret(); Accept(p) !in FollowSet(Table(p)[0].ctx)
  {
    hide Caret, Lang;
    var p := Caret();
    CaretProper();
    TableShape(p);
    BareAccepts(p, []);
    BareHatAccepts(p, []);
    ScanningAccepts(p, []);
    CaretLang([]);
    CaretLang([HAT]);
    assert [HAT] + [] == [HAT];
  }

  ghost predicate Ready(T: Tab) {
    Held(Caret(), true, T) && Quiet(T)
  }

  lemma ReadyShape(T: Tab)
    requires Ready(T)
    ensures Held(Caret(), true, T) && Quiet(T) && Shape(T)
  {
    hide Held;
  }

  lemma GoQuiet(T: Tab, s: nat, c: nat)
    requires Ready(T) && 1 <= s <= T.cur && (c == A || c == 0)
    ensures var T' := Go(Caret(), true, T, s, c).0; Ready(T') && (T.reset ==> T'.reset)
  {
    hide Table, Caret, Step, Lists, Links;
    if T.go[s][c] == 0 {
      NoEnd(Elems(T.posns[s]));
      NotListed(Table(Caret()), T.posns[s], c, Accept(Caret()));
    }
  }

  lemma NotListed(pts: seq<At>, l: seq<nat>, c: nat, q: nat)
    requires q !in Step(pts, Elems(l), c)
    ensures q !in NextList(pts, l, c)
  {
    hide Step;
    assert q in NextList(pts, l, c) ==> q in Elems(NextList(pts, l, c));
  }

  lemma {:induction false} ScanQuiet(T: Tab, text: seq<nat>, i: nat, q: nat, s: nat, len: int, slip: bool)
    requires Ready(T) && 1 <= s <= T.cur && IsText(text) && (forall k | 0 <= k < |text| :: text[k] == A)
    requires i <= q <= |text| + 1
    ensures var r := ScanOn(Caret(), T, text, i, q, s, len, slip); Ready(r.t) && r.len == len
    ensures T.reset ==> ScanOn(Caret(), T, text, i, q, s, len, slip).t.reset
    decreases |text| + 1 - q
  {
    hide Held, Go, GoSlips, Caret, Ready;
    ReadyShape(T);
    if s != 1 && q <= |text| {
      var c := CharAt(text, q);
      GoQuiet(T, s, c);
      var (T', n) := Go(Caret(), true, T, s, c);
      ScanQuiet(T', text, i, q + 1, n, len, slip || GoSlips(Caret(), T, s, c));
    }
  }

  lemma RestartQuiet(T: Tab)
    requires Ready(T)
    ensures Ready(RestartOn(Caret(), T))
  {
    hide Caret, Table, Lists, Links;
  }

  /** On a's a search finds nothing, and once the table is recycled the initial state is 2. */
  lemma {:induction false} SearchQuiet(T: Tab, text: seq<nat>, b: nat, s: nat, init: nat, slip: bool)
    requires Ready(T) && 1 <= s <= T.cur && IsText(text) && (forall k | 0 <= k < |text| :: text[k] == A)
    requires b <= |text| + 1
    ensures var r := SearchOn(Caret(), T, text, 0, b, s, -1, init, slip);
            && Ready(r.t) && !r.found && (T.reset && init == 2 ==> r.t.reset && r.initstat == 2)
    decreases |text| + 1 - b
  {
    hide Held, Caret, Ready, ScanOn, RestartOn, Quiet;
    ReadyShape(T);
    if b <= |text| {
      ScanQuiet(T, text, b, b, s, -1, slip);
      var a := ScanOn(Caret(), T, text, b, b, s, -1, slip);
      ReadyShape(a.t);
      RestartQuiet(a.t);
      SearchQuiet(RestartOn(Caret(), a.t), text, b + 1, 2, if a.t.reset then 2 else init, a.slip);
    }
  }

  // ----- the three calls -----

  /** A table makeinit has just made, or with transitions to the dead state only added to it. */
  ghost predicate Calm(T: Tab) {
    Ready(T) && !T.reset && Based(Caret(), true, T) && T.cur == 3
  }

  lemma CalmShape(T: Tab)
    requires Calm(T)
    ensures Held(Caret(), true, T) && Shape(T) && T.cur == 3 && !T.reset && !T.out[2] && !T.out[3]
    ensures T.posns[2] == Home(Caret(), true) && T.posns[3] == Entry(Caret(), true)
  {
    hide Table, Caret, Home, Entry, EntryState, Scanning, ScanningHat, Held;
    CaretEntry();
  }

  lemma MadeCalm(T: Tab)
    requires HasDead(T)
    ensures Proper(Caret()) && Calm(Remade(Caret(), true, T))
  {
    CaretEntry();
    var p := Caret();
    hide Table, Caret, EntryState, Home, Entry, Closed, Faithful;
    var family := AllLists(|Table(p)|);
    ClosedFamilyExists(p, true);
    FreshKeeps(p, true, family, Remade(p, true, T));
    CalmOuts(Remade(p, true, T));
    StartUnreset(p, true, Remade(p, true, T));
  }

  lemma CalmOuts(T: Tab)
    requires Held(Caret(), true, T) && Based(Caret(), true, T) && T.cur == 3
    ensures Quiet(T)
  {
    var p := Caret();
    CaretEntry();
    hide Table, Caret, EntryState, Home, Entry, Faithful, Bare, BareHat;
    StartsNotAccepted();
    HomeEntry(p, true);
    OutIsAccept(p, T, 1);
    OutIsAccept(p, T, 2);
    OutIsAccept(p, T, 3);
    assert Accept(p) in Home(p, true) ==> Accept(p) in Elems(Home(p, true));
  }

  /** From such a table a character that no position takes leads to the dead state. */
  lemma GoDead(T: Tab, s: nat, c: nat)
    requires Calm(T) && 2 <= s <= 3 && c < HAT && NextList(Table(Caret()), T.posns[s], c) == []
    ensures var (T', n) := Go(Caret(), true, T, s, c); n == 1 && Calm(T')
  {
    var pts := Table(Caret());
    hide Table, Caret, NextList, EntryState, Home, Entry, Links, IsList;
    assert T.posns[1] == [];
    TableShape(Caret());
    if T.go[s][c] == 0 {
      assert Find(T.posns, 1, T.cur, []) == 1;
      EnterGood(pts, T, s, c, []);
      EnterFaithful(pts, T, s, c, []);
    }
  }

  /** No list goes on by the NUL, and the list of state 2 does not by b. */
  lemma DeadLists(l: seq<nat>)
    ensures NextList(Table(Caret()), l, 0) == []
    ensures NextList(Table(Caret()), Home(Caret(), true), B) == []
  {
    var p := Caret();
    CaretEntry();
    hide Table, Caret, Step, Home, Bare, EntryState, Layout;
    NoEnd(Elems(l));
    CaretLayout();
    DescNone(|Table(p)|);
    HomeEntry(p, true);
    BareIs();
    StepOnB(Table(p));
  }

  lemma BareIs()
    ensures Bare(Caret()) == {1, 3}
  {
    hide Caret, Table, Scanning, Bare, User, Leaves, FirstSet, Nullable;
    ZeroOnlyFollowsZero(Caret());
    UserFirst();
  }

  lemma UserFirst()
    ensures FirstSet(User(Caret())) == {1, 3} && !Nullable(User(Caret()))
  {
    hide Literal, Numbered, Caret, User, FirstSet, Nullable, Proper, Leaves;
    LiteralProper(NSTATES - 1);
    CaretUser();
    CaretFirst(Numbered(Literal(NSTATES - 1), 3), Leaf(NSTATES + 3, Char(C)));
  }

  lemma CaretFirst(l: Re, c: Re)
    requires FirstSet(l) == {3} && !Nullable(l)
    ensures var t := Or(Cat(Leaf(1, Char(HAT)), Leaf(2, Char(B))), Cat(l, c)); FirstSet(t) == {1, 3} && !Nullable(t)
  {
    assert FirstSet(Cat(l, c)) == {3};
    assert FirstSet(Cat(Leaf(1, Char(HAT)), Leaf(2, Char(B)))) == {1};
  }

  lemma StepOnB(pts: seq<At>)
    requires Layout(pts)
    ensures Step(pts, {1, 3}, B) == {}
  {
    hide FollowSet;
  }

  lemma AsText()
    ensures IsText(As(NSTATES)) && IsText([]) && IsText([B])
  {
  }

  lemma NewCalm()
    ensures Proper(Caret()) && Calm(New(Caret(), true))
  {
    hide Remade;
    CaretProper();
    MadeCalm(Blank());
  }

  /** A new automaton, called with the a's. */
  ghost function First(): (r: Sought)
    ensures Held(Caret(), true, r.t)
  {
    AsText();
    NewCalm();
    Call(Caret(), New(Caret(), true), EntryState(Caret()), As(NSTATES), 0)
  }

  /** The first attempt recycles the table. */
  lemma Recycled(T: Tab)
    requires Calm(T)
    ensures IsText(As(NSTATES)) && ScanOn(Caret(), T, As(NSTATES), 0, 0, 3, -1, false).t.reset
  {
    var p, text := Caret(), As(NSTATES);
    AsText();
    CalmShape(T);
    CaretEntry();
    var family := AllLists(|Table(p)|);
    hide Caret, Table, Live, ScanOn, Held, Home, Entry, EntryState, AllLists, As, Closed, IsText, AttemptOn, Initial;
    ClosedFamilyExists(p, true);
    Attempting(T);
    var r := ScanOn(p, T, text, 0, 0, 3, -1, false);
    HeldShape(p, true, r.t);
    DeadIsEmpty(r.t);
    AlongDiffers();
    var j := TooMany(r.t, Along());
    forall k: nat | k <= NSTATES ensures Upto(p, text, true, 0, k) != {} { AllDifferent(k, k); }
    ScanVisits(p, family, T, text, true, 0, 0, 3, -1, false, j);
  }

  lemma Attempting(T: Tab)
    requires Calm(T) && IsText(As(NSTATES))
    ensures AttemptOn(Caret(), AllLists(|Table(Caret())|), T, As(NSTATES), true, 0, 0, 3, 0, -1, false)
  {
    var p, text := Caret(), As(NSTATES);
    CalmShape(T);
    CaretEntry();
    var family := AllLists(|Table(p)|);
    hide Caret, Table, AllLists, As, Held, Home, Entry, EntryState, From, IsText;
    AnyListWithin(p, T);
    SearchStarts(p, family, T, text, true, 3, 0, 3);
    AttemptBegins(p, family, T, text, true, 0, 3, 0, -1, 3, false);
  }

  lemma AnyListWithin(p: Re, T: Tab)
    requires Held(p, true, T) && Based(p, true, T) && !T.reset
    ensures Keeps(p, true, AllLists(|Table(p)|), T)
  {
    hide Table, AllLists, Home, Entry, EntryState, Links;
    forall s | 1 <= s <= T.cur ensures T.posns[s] in AllLists(|Table(p)|) {
      DescInAll(Elems(T.posns[s]), |Table(p)|);
      assert IsList(Table(p), T.posns[s]);
    }
  }

  lemma DeadIsEmpty(T: Tab)
    requires Held(Caret(), true, T)
    ensures T.posns[1] == [] && HasDead(T) && Good(Table(Caret()), T)
  {
    hide Caret, Table;
    GoodHasDead(Table(Caret()), T);
  }

  lemma FirstIs()
    ensures var r := First(); Ready(r.t) && r.t.reset && !r.found && r.initstat == 2
  {
    var p, text := Caret(), As(NSTATES);
    AsText();
    NewCalm();
    CaretEntry();
    hide Caret, Table, Held, Quiet, Home, Entry, EntryState, As, IsText, ScanOn, RestartOn, New;
    var T := New(p, true);
    CalmShape(T);
    Recycled(T);
    ScanQuiet(T, text, 0, 0, 3, -1, false);
    var a := ScanOn(p, T, text, 0, 0, 3, -1, false);
    RestartQuiet(a.t);
    SearchQuiet(RestartOn(p, a.t), text, 1, 2, 2, a.slip);
  }

  /** The same automaton, called again with nothing. */
  ghost function Second(): (r: Sought)
    ensures Held(Caret(), true, r.t)
  {
    AsText();
    FirstIs();
    Call(Caret(), First().t, First().initstat, [], 0)
  }

  lemma SecondIs()
    ensures var r := Second(); Calm(r.t) && !r.found && r.initstat == 2
  {
    var p := Caret();
    AsText();
    FirstIs();
    CaretEntry();
    hide Caret, Table, Held, Quiet, Home, Entry, EntryState, IsText, First, Remade, Go, GoSlips;
    DeadIsEmpty(First().t);
    var T := Remade(p, true, First().t);
    MadeCalm(First().t);
    CalmShape(T);
    DeadLists(T.posns[3]);
    GoDead(T, 3, 0);
    var T' := Go(p, true, T, 3, 0).0;
    CalmShape(T');
    assert ScanOn(p, T, [], 0, 0, 3, -1, false) == Scanned(T', -1, GoSlips(p, T, 3, 0));
  }

  /** And called with b alone. */
  ghost function Third(): (r: Sought)
    ensures Held(Caret(), true, r.t)
  {
    AsText();
    SecondIs();
    CalmShape(Second().t);
    Call(Caret(), Second().t, Second().initstat, [B], 0)
  }

  lemma ThirdIs()
    ensures !Third().found && !Third().t.reset
  {
    var p := Caret();
    AsText();
    SecondIs();
    hide Caret, Table, Held, Quiet, Home, Entry, EntryState, IsText, Second, Go, GoSlips;
    var T := Second().t;
    CalmShape(T);
    DeadLists([]);
    GoDead(T, 2, B);
    var T' := Go(p, true, T, 2, B).0;
    CalmShape(T');
    assert ScanOn(p, T, [B], 0, 0, 2, -1, false) == Scanned(T', -1, GoSlips(p, T, 2, B));
    DeadLists(T'.posns[2]);
    GoDead(T', 2, 0);
    var T2 := Go(p, true, T', 2, 0).0;
    CalmShape(T2);
    var slip := GoSlips(p, T, 2, B);
    var slip' := slip || GoSlips(p, T', 2, 0);
    assert ScanOn(p, T', [B], 1, 1, 2, -1, slip) == Scanned(T2, -1, slip');
    assert SearchOn(p, T2, [B], 0, 2, 2, -1, 2, slip') == Sought(T2, 2, false, 2, -1, slip');
    assert SearchOn(p, T', [B], 0, 1, 2, -1, 2, slip) == Sought(T2, 2, false, 2, -1, slip');
  }

  lemma CaretThere()
    ensures LeftmostLongest(Caret(), [B], true, 0, 0, 1)
  {
    var p := Caret();
    hide Caret;
    CaretLang([HAT, B]);
    assert WordOf([B], true, 0, 1, false) == [HAT, B];
    assert MatchAt(p, [B], true, 0, 1);
  }

  /** ^b matches b; after the two other calls the automaton does not find it. */
  lemma CaretLost()
    ensures !First().found && !Second().found
    ensures !Third().found && Occurs(Caret(), [B], true) && LeftmostLongest(Caret(), [B], true, 0, 0, 1)
  {
    hide Caret, First, Second, Third, MatchAt;
    FirstIs();
    SecondIs();
    ThirdIs();
    CaretThere();
    assert MatchAt(Caret(), [B], true, 0, 1);
  }

  /** The three calls of the automaton object itself. */
  method Show() returns (found: bool, patbeg: nat, patlen: int)
    ensures !found && LeftmostLongest(Caret(), [B], true, 0, 0, 1)
  {
    hide Table, AwkRun.Call, Held, Based, Keeps, Occurs, LeftmostLongest, Closed, Home, Entry, Initial, AllLists,
        Caret, MatchAt, IsText, Bare, EntryState, As;
    var p := Caret();
    AsText();
    CaretEntry();
    ClosedFamilyExists(p, true);
    var f := new Fa(p, true, AllLists(|Table(p)|));
    ghost var hats, slip;
    found, patbeg, patlen, hats, slip := f.Pmatch(As(NSTATES));
    found, patbeg, patlen, hats, slip := f.Pmatch([]);
    found, patbeg, patlen, hats, slip := f.Pmatch([B]);
    CaretLost();
  }
}
