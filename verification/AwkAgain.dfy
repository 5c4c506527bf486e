/**
 gsub takes the middle of a text for its start (usr/src/cmd/awk/run.c and b.c). The expression is
 ^b, or thirty-two a's; the text is thirty-two a's and b. The a's recycle the table, so the search
 for the next match makes it anew and begins in the state that has read ^: the b is replaced, too.
 */
module AwkAgain {
  import opened AwkRegex
  import opened AwkFollow
  import opened AwkDfa
  import opened AwkSearch
  import opened AwkRun
  import opened AwkFa
  import opened AwkLimits
  import opened AwkSlip
  import opened AwkCaret
  import opened AwkHits
  import opened AwkBuffer
  import opened AwkGsub

  // ----- the expression -----

  function Again(): Re {
    Or(Cat(Leaf(0, Char(HAT)), Leaf(0, Char(B))), Literal(NSTATES - 1))
  }

  lemma AgainLang(w: Word)
    ensures Lang(Again(), w) <==> w == [HAT, B] || AllA(w, NSTATES)
  {
    hide Literal, AllA;
    HatLang(w);
    LiteralLang(NSTATES - 1, w);
  }

  lemma AgainProper()
    ensures Proper(Again())
  {
    LiteralProper(NSTATES - 1);
  }

  /** ^ makes a difference, so the initial state is not state 2. */
  lemma AgainEntry()
    ensures Proper(Again()) && EntryState(Again()) == 3
  {
    hide Again, Table, Bare, BareHat, Scanning, ScanningHat;
    AgainProper();
    StartSets(Again());
    BareAccepts(Again(), [B]);
    BareHatAccepts(Again(), [B]);
    AgainLang([B]);
    assert [HAT] + [B] == [HAT, B];
    AgainLang([HAT, B]);
  }

  /** The a's and b. */
  function AsB(): (t: seq<nat>)
    ensures |t| == NSTATES + 1 && t[NSTATES] == B && (forall k | 0 <= k < NSTATES :: t[k] == A) && IsText(t)
  {
    As(NSTATES) + [B]
  }

  /** In that text the expression matches the a's alone. */
  lemma AsMatch(i: nat, j: nat)
    requires i <= j <= NSTATES + 1
    ensures MatchAt(Again(), AsB(), true, i, j) <==> i == 0 && j == NSTATES
  {
    hide Again, Lang, AllA;
    AsMatchWord(i, j, false, false);
    AsMatchWord(i, j, false, true);
    if i == 0 {
      AsMatchWord(i, j, true, false);
      AsMatchWord(i, j, true, true);
    }
  }

  lemma AsMatchWord(i: nat, j: nat, hat: bool, nul: bool)
    requires i <= j <= NSTATES + 1 && (hat ==> i == 0)
    ensures Lang(Again(), WordOf(AsB(), hat, i, j, nul)) <==> !hat && !nul && i == 0 && j == NSTATES
  {
    hide Again, Lang, AsB, Literal;
    var text, w := AsB(), WordOf(AsB(), hat, i, j, nul);
    AgainLang(w);
    if hat {
      assert w[0] == HAT;
      if |w| > 1 { assert w[1] == if j > 0 then A else 0; }
    } else if nul {
      assert w[|w| - 1] == 0;
    } else {
      assert w == text[i..j];
      assert |w| > 0 ==> w[0] == text[i];
      if i == 1 && |w| == NSTATES { assert w[NSTATES - 1] == B; }
      if i == 0 && j == NSTATES { assert forall m | 0 <= m < |w| :: w[m] == A; }
    }
  }

  /** b alone is matched, at the start. */
  lemma BMatch(i: nat, j: nat)
    requires i <= j <= 1
    ensures MatchAt(Again(), [B], true, i, j) <==> i == 0 && j == 1
  {
    hide Again, Lang, AllA;
    BMatchWord(i, j, false, false);
    BMatchWord(i, j, false, true);
    if i == 0 {
      BMatchWord(i, j, true, false);
      BMatchWord(i, j, true, true);
    }
  }

  lemma BMatchWord(i: nat, j: nat, hat: bool, nul: bool)
    requires i <= j <= 1 && (hat ==> i == 0)
    ensures Lang(Again(), WordOf([B], hat, i, j, nul)) <==> hat && !nul && i == 0 && j == 1
  {
    hide Again, Lang;
    var w := WordOf([B], hat, i, j, nul);
    AgainLang(w);
    if nul { assert w[|w| - 1] == 0; }
    if i == 0 && j == 1 { assert [B][0..1] == [B]; }
  }

  // ----- the sets along the a's -----

  ghost function Afterwards(k: nat): set<nat>
    requires k <= NSTATES
  {
    Upto(Again(), AsB(), true, 0, k)
  }

  lemma RestIn(k: nat, j: nat)
    requires k <= NSTATES && j <= NSTATES
    ensures var w := AsB()[0..k] + As(NSTATES - j);
            Lang(Again(), w) || Lang(Again(), [HAT] + w) <==> k == j
  {
    hide Again, Lang, As, AsB;
    var w := AsB()[0..k] + As(NSTATES - j);
    AgainLang(w);
    AgainLang([HAT] + w);
    assert forall i | 0 <= i < |w| :: w[i] == A;
    assert |w| == k + NSTATES - j && ([HAT] + w)[0] == HAT;
    if |w| > 0 { assert ([HAT] + w)[1] == A; }
  }

  /** From there the rest of the a's is accepted, and no other part of them. */
  lemma TellsApart(k: nat, j: nat)
    requires k <= NSTATES && j <= NSTATES
    ensures Accept(Again()) in AwkRegex.Run(Table(Again()), Afterwards(k), As(NSTATES - j)) <==> k == j
  {
    hide Again, Table, From, Lang, As, AsB, Proper, AwkRegex.Run;
    AgainProper();
    RunSplit(Table(Again()), From(Again(), true, 0), AsB()[0..k], As(NSTATES - j));
    FromAccepts(Again(), true, 0, AsB()[0..k] + As(NSTATES - j));
    RestIn(k, j);
  }

  lemma Distinct(j: nat, k: nat)
    requires j <= NSTATES && k <= NSTATES
    ensures Afterwards(k) != {} && (j != k ==> Afterwards(j) != Afterwards(k))
  {
    hide Afterwards, Table, Again, As;
    TellsApart(k, k);
    RunEmpty(Table(Again()), As(NSTATES - k));
    TellsApart(j, k);
  }

  ghost function Passed(): seq<set<nat>> {
    seq(NSTATES + 1, k requires 0 <= k <= NSTATES => Afterwards(k))
  }

  lemma PassedDiffers()
    ensures Different(Passed())
  {
    hide Afterwards;
    forall j: nat, k: nat | j <= NSTATES && k <= NSTATES
      ensures Afterwards(k) != {} && (j != k ==> Afterwards(j) != Afterwards(k)) {
      Distinct(j, k);
    }
  }

  lemma NoHatB(k: nat)
    requires 0 < k <= NSTATES + 1
    ensures var w := AsB()[0..k] + [HAT, B]; !Lang(Again(), w) && !Lang(Again(), [HAT] + w)
  {
    hide Again, Lang, AsB;
    var w := AsB()[0..k] + [HAT, B];
    AgainLang(w);
    AgainLang([HAT] + w);
    assert w[k] == HAT && ([HAT] + w)[k + 1] == HAT;
  }

  /** None of them is the set of state 2: that takes ^b. */
  lemma NotHome(k: nat)
    requires 0 < k <= NSTATES + 1
    ensures Upto(Again(), AsB(), true, 0, k) != Bare(Again())
  {
    hide Again, Table, From, Lang, Proper, AwkRegex.Run, Bare, AsB;
    var p, u := Again(), AsB()[0..k];
    AgainProper();
    RunSplit(Table(p), From(p, true, 0), u, [HAT, B]);
    FromAccepts(p, true, 0, u + [HAT, B]);
    NoHatB(k);
    BareTakesIt();
  }

  lemma BareTakesIt()
    ensures Accept(Again()) in AwkRegex.Run(Table(Again()), Bare(Again()), [HAT, B])
  {
    hide Again, Table, Lang, Proper, AwkRegex.Run, Bare;
    AgainProper();
    TableShape(Again());
    BareAccepts(Again(), [HAT, B]);
    AgainLang([HAT, B]);
  }

  // ----- the first attempt -----

  /** How many states a step can add. */
  lemma GoSize(p: Re, T: Tab, s: nat, c: nat)
    requires Held(p, true, T) && 1 <= s <= T.cur && c < HAT
    ensures var T' := Go(p, true, T, s, c).0;
            && Shape(T) && Shape(T')
            && (T.cur < NSTATES - 1 ==> T'.reset == T.reset && T'.cur <= T.cur + 1 && !GoSlips(p, T, s, c))
            && (T.cur == NSTATES - 1 ==> (T'.reset == T.reset && T'.cur == T.cur) || (T'.reset && T'.cur == 2))
            && (GoSlips(p, T, s, c) ==> s == 2)
  {
    hide Table, Lists, Links, NextList;
    HeldShape(p, true, T);
  }

  /** On a short text the table is not recycled. */
  lemma {:induction false} ScanShort(p: Re, T: Tab, text: seq<nat>, i: nat, q: nat, s: nat, len: int)
    requires Held(p, true, T) && 1 <= s <= T.cur && IsText(text) && i <= q <= |text| + 1
    requires !T.reset && T.cur + |text| - q <= NSTATES - 2
    ensures var r := ScanOn(p, T, text, i, q, s, len, false); !r.t.reset && !r.slip
    decreases |text| + 1 - q
  {
    hide Held, Go, GoSlips;
    HeldShape(p, true, T);
    if s != 1 && q <= |text| {
      var c := CharAt(text, q);
      var (T', n) := Go(p, true, T, s, c);
      GoSize(p, T, s, c);
      ScanShort(p, T', text, i, q + 1, n, if T.out[s] then q - i else len);
    }
  }

  /**
   The first attempt recycles the table after twenty-eight a's or more, and is not in state 2 then;
   what is left of the text is too short to fill the table again. So no step slips.
   */
  lemma {:induction false} ScanNoSlip(family: set<seq<nat>>, T: Tab, q: nat, s: nat, len: int)
    requires Held(Again(), true, T) && Closed(Table(Again()), family) && q <= |AsB()| + 1
    requires AttemptOn(Again(), family, T, AsB(), true, 0, q, s, 0, len, false)
    requires (if T.reset then T.cur + 27 <= q else T.cur <= 3 + q) && (q == 0 ==> s == 3)
    ensures !ScanOn(Again(), T, AsB(), 0, q, s, len, false).slip
    decreases |AsB()| + 1 - q
  {
    var p, text := Again(), AsB();
    hide Held, Go, GoSlips, Again, Table, AsB, Closed, AttemptOn;
    AttemptStates(p, family, T, text, q, s, len);
    if s != 1 && q <= |text| {
      var c := CharAt(text, q);
      var (T', n) := Go(p, true, T, s, c);
      GoSize(p, T, s, c);
      NoSlipHere(family, T, q, s, len);
      RoundOn(p, family, T, text, true, 0, q, s, 0, len, false);
      ScanNoSlip(family, T', q + 1, n, if T.out[s] then q else len);
    }
  }

  lemma AttemptStates(p: Re, family: set<seq<nat>>, T: Tab, text: seq<nat>, q: nat, s: nat, len: int)
    requires q <= |text| + 1 && AttemptOn(p, family, T, text, true, 0, q, s, 0, len, false)
    ensures Shape(T) && 1 <= s <= T.cur
    ensures !T.reset ==> T.posns[2] == Home(p, true)
    ensures q <= |text| ==> Elems(T.posns[s]) == Upto(p, text, true, 0, q)
  {
    hide Table, Home, Entry, Best, Upto, EntryState;
  }

  lemma NoSlipHere(family: set<seq<nat>>, T: Tab, q: nat, s: nat, len: int)
    requires Held(Again(), true, T) && q <= |AsB()|
    requires AttemptOn(Again(), family, T, AsB(), true, 0, q, s, 0, len, false)
    requires (if T.reset then T.cur + 27 <= q else T.cur <= 3 + q) && (q == 0 ==> s == 3)
    ensures 1 <= s <= T.cur && !GoSlips(Again(), T, s, CharAt(AsB(), q))
  {
    var p, text := Again(), AsB();
    hide Held, GoSlips, Again, Table, AsB, AttemptOn, Home, Upto, Bare;
    AttemptStates(p, family, T, text, q, s, len);
    GoSize(p, T, s, CharAt(text, q));
    if !T.reset && s == 2 {
      AgainProper();
      HomeEntry(p, true);
      NotHome(q);
    }
  }

  // ----- the two searches -----

  /** A table makeinit has just made. */
  ghost predicate Made(T: Tab) {
    var p := Again();
    Held(p, true, T) && Initial(Table(p), Home(p, true), Entry(p, true), T) && T.cur == 3
  }

  lemma MadeBegins(T: Tab, text: seq<nat>)
    requires Made(T)
    ensures !T.reset && Shape(T) && Closed(Table(Again()), AllLists(|Table(Again())|))
    ensures AttemptOn(Again(), AllLists(|Table(Again())|), T, text, true, 0, 0, 3, 0, -1, false)
  {
    var p := Again();
    AgainEntry();
    var family := AllLists(|Table(p)|);
    hide Again, Table, AllLists, Held, Home, Entry, EntryState, From, IsText, Closed, Initial, Scanning;
    ClosedFamilyExists(p, true);
    StartUnreset(p, true, T);
    FreshKeeps(p, true, family, T);
    SearchStarts(p, family, T, text, true, 3, 0, 3);
    AttemptBegins(p, family, T, text, true, 0, 3, 0, -1, 3, false);
    HeldShape(p, true, T);
  }

  /** If n characters, and no other number, match at the start, an attempt that does not slip finds them. */
  lemma AttemptFinds(T: Tab, text: seq<nat>, n: nat)
    requires Made(T) && IsText(text) && n <= |text| && !ScanOn(Again(), T, text, 0, 0, 3, -1, false).slip
    requires forall j | 0 <= j <= |text| :: MatchAt(Again(), text, true, 0, j) <==> j == n
    ensures ScanOn(Again(), T, text, 0, 0, 3, -1, false).len == n
  {
    var p, family := Again(), AllLists(|Table(Again())|);
    hide Again, Table, AllLists, Held, Closed, AttemptOn, MatchAt, ScanOn, Made;
    MadeBegins(T, text);
    HeldMade(T);
    ScanRight(p, family, T, text, true, 0, 0, 3, 0, -1, false);
    var a := ScanOn(p, T, text, 0, 0, 3, -1, false);
    assert MatchAt(p, text, true, 0, n);
    assert Outcome(p, text, true, 0, 0, a.len);
    assert a.len >= 0;
  }

  lemma HeldMade(T: Tab)
    requires Made(T)
    ensures Held(Again(), true, T) && 3 <= T.cur
  {
  }

  /** The attempt on the a's finds them and recycles the table. */
  lemma FindsAs(T: Tab)
    requires Made(T)
    ensures var a := ScanOn(Again(), T, AsB(), 0, 0, 3, -1, false); a.len == NSTATES && a.t.reset && !a.slip
  {
    var p, text, family := Again(), AsB(), AllLists(|Table(Again())|);
    hide Again, Table, AllLists, Held, Closed, AttemptOn, AsB, MatchAt, ScanOn, Live, Made;
    MadeBegins(T, text);
    HeldMade(T);
    MadeSize(T);
    ScanNoSlip(family, T, 0, 3, -1);
    forall j | 0 <= j <= |text| ensures MatchAt(p, text, true, 0, j) <==> j == NSTATES { AsMatch(0, j); }
    AttemptFinds(T, text, NSTATES);
    Recycles32(T, family);
  }

  lemma MadeSize(T: Tab)
    requires Made(T)
    ensures T.cur == 3 && !T.reset
  {
    hide Again, Table, Held, Home, Entry;
  }

  lemma Recycles32(T: Tab, family: set<seq<nat>>)
    requires Made(T) && Closed(Table(Again()), family)
    requires AttemptOn(Again(), family, T, AsB(), true, 0, 0, 3, 0, -1, false)
    ensures ScanOn(Again(), T, AsB(), 0, 0, 3, -1, false).t.reset
  {
    var p, text := Again(), AsB();
    hide Again, Table, Held, Closed, AttemptOn, AsB, ScanOn, Live, Made;
    HeldMade(T);
    var r := ScanOn(p, T, text, 0, 0, 3, -1, false);
    DeadStaysEmpty(r.t);
    PassedDiffers();
    var j := TooMany(r.t, Passed());
    forall k: nat | k <= NSTATES ensures Upto(p, text, true, 0, k) != {} { Distinct(k, k); }
    ScanVisits(p, family, T, text, true, 0, 0, 3, -1, false, j);
  }

  lemma DeadStaysEmpty(T: Tab)
    requires Held(Again(), true, T)
    ensures Shape(T) && T.posns[1] == []
  {
    hide Again, Table;
  }

  /** The attempt on b alone finds it. */
  lemma FindsB(T: Tab)
    requires Made(T)
    ensures var a := ScanOn(Again(), T, [B], 0, 0, 3, -1, false); a.len == 1 && !a.slip
  {
    hide Again, Table, Held, MatchAt, ScanOn, Made;
    HeldMade(T);
    MadeSize(T);
    ScanShort(Again(), T, [B], 0, 0, 3, -1);
    forall j | 0 <= j <= 1 ensures MatchAt(Again(), [B], true, 0, j) <==> j == 1 { BMatch(0, j); }
    AttemptFinds(T, [B], 1);
  }

  lemma RemadeMade(T: Tab)
    requires HasDead(T)
    ensures Proper(Again()) && Made(Remade(Again(), true, T))
  {
    AgainEntry();
    hide Again, Table, Home, Entry, EntryState, Initial;
  }

  lemma NewMade()
    ensures Proper(Again()) && Made(New(Again(), true))
  {
    hide Remade, Again;
    AgainProper();
    RemadeMade(Blank());
  }

  /** gsub on a new automaton, the a's and b. */
  ghost function TheRun(): AwkGsub.Run {
    AgainEntry();
    NewMade();
    HeldMade(New(Again(), true));
    Rounds(Again(), New(Again(), true), 3, AsB(), 0, false)
  }

  lemma FirstFound()
    ensures Proper(Again()) && Held(Again(), true, New(Again(), true)) && 3 <= New(Again(), true).cur
    ensures var s := Call(Again(), New(Again(), true), 3, AsB(), 0);
            s.found && s.patbeg == 0 && s.patlen == NSTATES && s.t.reset
  {
    AgainEntry();
    NewMade();
    hide Again, Table, Held, AsB, ScanOn, Made, Home, Entry, EntryState, New;
    var T := New(Again(), true);
    HeldMade(T);
    MadeSize(T);
    FindsAs(T);
  }

  lemma SecondFound(T: Tab)
    requires Held(Again(), true, T) && T.reset
    ensures var s := Call(Again(), T, 2, [B], 0); s.found && s.patbeg == 0 && s.patlen == 1
  {
    AgainEntry();
    hide Again, Table, Held, ScanOn, Made, Home, Entry, EntryState, Remade;
    CallOnReset(Again(), T, 2, [B], 0);
    RemadeMade(T);
    HeldMade(Remade(Again(), true, T));
    FindsB(Remade(Again(), true, T));
  }

  lemma TwoFinds()
    ensures TheRun().finds == [Find(0, false, 0, NSTATES), Find(NSTATES, true, NSTATES, 1)] && TheRun().off
  {
    FirstFound();
    AgainEntry();
    hide Again, Table, Held, AsB, AwkRun.Call, Rounds, EntryState, New;
    var p, text := Again(), AsB();
    var T := New(p, true);
    assert text[0..] == text && text[NSTATES..] == [B];
    RoundsAre(p, T, 3, text, 0, false);
    var s := Call(p, T, 3, text, 0);
    SecondFound(s.t);
    HeldShape(p, true, s.t);
    RoundsAre(p, s.t, 2, text, NSTATES, true);
  }

  /** The character the matches are replaced by. */
  const X: nat := 120

  lemma OnlyTheAs()
    ensures AllHits(Language(Again()), AsB(), true, [Hit(0, NSTATES)])
    ensures InOrder(AsB(), [Hit(0, NSTATES)]) && Replaced(AsB(), [X], [Hit(0, NSTATES)]) == [X, B]
  {
    var L, text, ms := Language(Again()), AsB(), [Hit(0, NSTATES)];
    hide Language, MatchIn, AsB, Again;
    forall i, j | 0 <= i <= j <= |text| ensures MatchIn(L, text, true, i, j) <==> i == 0 && j == NSTATES {
      AsMatch(i, j);
      assert MatchAt(Again(), text, true, i, j) == MatchIn(L, text, true, i, j);
    }
    assert ms[..0] == [] && Resume([]) == 0 && Resume(ms) == NSTATES;
    assert Hits(L, text, true, ms);
    OneX(text[0..NSTATES]);
    assert text[NSTATES..] == [B] && text[0..0] == [];
    assert Built(text, [X], []) == [];
    assert Built(text, [X], ms) == [X];
  }

  lemma OneX(matched: seq<nat>)
    ensures Replacement([X], matched) == [X] && Steps([X], matched) == [Plain(X)]
  {
    assert Replacement([], matched) == [] && Steps([], matched) == [];
  }

  /** The answer is xx with two replacements; only the a's are a match, and xb is due. */
  lemma TwiceReplaced()
    ensures forall f | f in TheRun().finds :: Inside(AsB(), f)
    ensures Answer(AsB(), [X], TheRun().finds) == Done([X, X], 2)
    ensures AllHits(Language(Again()), AsB(), true, [Hit(0, NSTATES)])
    ensures InOrder(AsB(), [Hit(0, NSTATES)]) && Replaced(AsB(), [X], [Hit(0, NSTATES)]) == [X, B]
  {
    OnlyTheAs();
    TwoFinds();
    hide Language, AsB, TheRun, Again, AllHits, InOrder, Replaced, Answer;
    XThenX();
  }

  lemma OneStep(f: Find)
    requires f == Find(0, false, 0, NSTATES) || f == Find(NSTATES, true, NSTATES, 1)
    ensures Inside(AsB(), f) && !Empty(AsB(), f) && FindSteps(AsB(), [X], f) == [Plain(X)]
  {
    hide AsB, Steps;
    OneX(AsB()[f.b..f.b + f.len]);
    assert Plains(AsB()[f.t..f.b]) == [];
  }

  lemma PutX(buf: Buf)
    requires buf.Has? && |buf.s| < RECSIZE - 1
    ensures Fold(buf, [Plain(X)]) == Has(buf.s + [X])
  {
    FoldSnoc(buf, [], Plain(X));
    FoldNone(buf);
    assert [] + [Plain(X)] == [Plain(X)];
  }

  lemma XThenX()
    ensures var fs := [Find(0, false, 0, NSTATES), Find(NSTATES, true, NSTATES, 1)];
            (forall f | f in fs :: Inside(AsB(), f)) && Answer(AsB(), [X], fs) == Done([X, X], 2)
  {
    hide AsB, FindSteps, AllSteps, Fold, HitsOf;
    var text, f1, f2 := AsB(), Find(0, false, 0, NSTATES), Find(NSTATES, true, NSTATES, 1);
    OneStep(f1);
    OneStep(f2);
    assert [] + [f1] == [f1] && [f1] + [f2] == [f1, f2];
    FindSnoc(text, [X], [], f1);
    FindSnoc(text, [X], [f1], f2);
    FoldFind(text, [X], [], f1);
    FoldFind(text, [X], [f1], f2);
    NoneYet(text);
    FoldNone(Has([]));
    PutX(Has([]));
    PutX(Has([] + [X]));
    assert [] + [X] + [X] == [X, X];
  }

  lemma NoneYet(text: seq<nat>)
    ensures AllSteps(text, [X], []) == [] && HitsOf(text, []) == []
  {
  }

  /** The call itself. */
  method Show() returns (r: Result)
    ensures r == Done([X, X], 2) && Replaced(AsB(), [X], [Hit(0, NSTATES)]) == [X, B]
    ensures AllHits(Language(Again()), AsB(), true, [Hit(0, NSTATES)])
  {
    hide *;
    AgainEntry();
    ClosedFamilyExists(Again(), true);
    TwiceReplaced();
    RunIs();
    var f := new Fa(Again(), true, AllLists(|Table(Again())|));
    ghost var run, hats;
    r, run, hats := Gsub(f, AsB(), [X]);
  }

  lemma RunIs()
    ensures Proper(Again()) && Held(Again(), true, New(Again(), true)) && 3 <= New(Again(), true).cur
    ensures TheRun() == Rounds(Again(), New(Again(), true), 3, AsB(), 0, false)
  {
    hide Rounds;
    AgainEntry();
    NewMade();
    HeldMade(New(Again(), true));
  }
}
