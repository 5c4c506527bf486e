/**
 gsub (usr/src/cmd/awk/run.c): pmatch searches the text from one match to the next, and text and
 replacements go into a buffer of 3072 characters. What gsub answers is stated for every table its
 automaton may have; it is the text with every match replaced when the searches answer rightly and
 the buffer takes the output.
 */
module AwkGsub {
  import opened AwkRegex
  import opened AwkRun
  import opened AwkSearch
  import opened AwkFa
  import opened AwkDfa
  import opened AwkHits
  import opened AwkBuffer

  // ----- the searches of a call -----

  /**
   A match that a search from t reported: len characters at b. After a nonempty match (mflag) an
   empty one is passed over.
   */
  datatype Find = Find(t: nat, mflag: bool, b: nat, len: nat)

  predicate Inside(text: seq<nat>, f: Find) {
    f.t <= f.b && f.b + f.len <= |text|
  }

  /** The branch for an empty match, which is never taken at the end of the text. */
  predicate Empty(text: seq<nat>, f: Find) {
    f.len == 0 && f.b < |text|
  }

  /** The match reaches the end of the text, and no further search is made. */
  predicate Last(text: seq<nat>, f: Find) {
    f.b + f.len == |text|
  }

  /** Where the next search begins. */
  function Next(text: seq<nat>, f: Find): nat {
    if Empty(text, f) then f.t + 1 else f.b + f.len
  }

  /**
   The searches of a call: what they found, the table after them, and whether one of them went off:
   it slipped, or it began past the start of the text in the state makeinit returned, after a
   recycled table, and that state has read ^.
   */
  datatype Run = Run(finds: seq<Find>, t: Tab, off: bool)

  /** pmatch on the rest of the text from t, again and again; after the first time in state 2. */
  ghost function Rounds(p: Re, T: Tab, init: nat, text: seq<nat>, t: nat, mflag: bool): (r: Run)
    requires Held(p, true, T) && (T.reset || 1 <= init <= T.cur) && IsText(text) && t <= |text|
    ensures Held(p, true, r.t) && forall f | f in r.finds :: Inside(text, f)
    decreases |text| - t
  {
    var s := Call(p, T, init, text[t..], 0);
    CallWithin(p, T, init, text[t..], 0);
    if !s.found then Run([], s.t, s.slip)
    else
      var f := Find(t, mflag, t + s.patbeg, s.patlen);
      if Last(text, f) then Run([f], s.t, s.slip)
      else
        var r := Rounds(p, s.t, 2, text, Next(text, f), !Empty(text, f));
        Run([f] + r.finds, r.t, s.slip || r.off || (s.t.reset && EntryState(p) != 2))
  }

  /** The match a search from t reported, if it did. */
  function FindAt(t: nat, mflag: bool, found: bool, b: nat, len: int): Find {
    Find(t, mflag, t + b, if found && len >= 0 then len else 0)
  }

  /** The searches from t, by the outcome of the first. */
  lemma RoundsAre(p: Re, T: Tab, init: nat, text: seq<nat>, t: nat, mflag: bool)
    requires Held(p, true, T) && (T.reset || 1 <= init <= T.cur) && IsText(text) && t <= |text|
    ensures var s, r := Call(p, T, init, text[t..], 0), Rounds(p, T, init, text, t, mflag);
            var f := FindAt(t, mflag, s.found, s.patbeg, s.patlen);
            && Shape(s.t) && (s.found ==> 0 <= s.patlen && Inside(text, f))
            && (!s.found ==> r == Run([], s.t, s.slip))
            && (s.found && Last(text, f) ==> r == Run([f], s.t, s.slip))
            && (s.found && !Last(text, f) ==>
                  && t < Next(text, f) <= |text|
                  && var r' := Rounds(p, s.t, 2, text, Next(text, f), !Empty(text, f));
                     r == Run([f] + r'.finds, r'.t, s.slip || r'.off || (s.t.reset && EntryState(p) != 2)))
  {
    hide Held, AwkRun.Call, EntryState;
    CallWithin(p, T, init, text[t..], 0);
    HeldShape(p, true, Call(p, T, init, text[t..], 0).t);
  }

  // ----- the output -----

  /** What is put into the buffer for a match. */
  function FindSteps(text: seq<nat>, repl: seq<nat>, f: Find): seq<Unit>
    requires Inside(text, f)
  {
    if Empty(text, f) then (if f.mflag then [] else Steps(repl, [])) + [Checked(text[f.t])]
    else Plains(text[f.t..f.b]) + Steps(repl, text[f.b..f.b + f.len])
  }

  function AllSteps(text: seq<nat>, repl: seq<nat>, fs: seq<Find>): seq<Unit>
    requires forall f | f in fs :: Inside(text, f)
  {
    if fs == [] then []
    else AllSteps(text, repl, fs[..|fs| - 1]) + FindSteps(text, repl, fs[|fs| - 1])
  }

  /** Up to where the matches have dealt with the text. */
  function Reached(text: seq<nat>, fs: seq<Find>): (t: nat)
    requires forall f | f in fs :: Inside(text, f)
    ensures t <= |text|
  {
    if fs == [] then 0 else
    var f := fs[|fs| - 1];
    assert f in fs && Inside(text, f);
    Next(text, f)
  }

  /** What is replaced for a match: an empty match right after a nonempty one is not. */
  function HitOf(text: seq<nat>, f: Find): seq<Hit> {
    if !Empty(text, f) then [Hit(f.b, f.len)] else if f.mflag then [] else [Hit(f.t, 0)]
  }

  /** The matches that are replaced. */
  function HitsOf(text: seq<nat>, fs: seq<Find>): seq<Hit> {
    if fs == [] then [] else HitsOf(text, fs[..|fs| - 1]) + HitOf(text, fs[|fs| - 1])
  }

  /** The whole output for these matches. */
  function Output(text: seq<nat>, repl: seq<nat>, fs: seq<Find>): seq<nat>
    requires forall f | f in fs :: Inside(text, f)
  {
    Flat(AllSteps(text, repl, fs)) + text[Reached(text, fs)..]
  }

  predicate Ended(text: seq<nat>, fs: seq<Find>) {
    fs != [] && Last(text, fs[|fs| - 1])
  }

  datatype Result = Done(text: seq<nat>, num: nat) | TooBig | Overrun

  /** What gsub answers for these matches: the rest of the text is copied up to its NUL without a look at the room. */
  function Answer(text: seq<nat>, repl: seq<nat>, fs: seq<Find>): Result
    requires forall f | f in fs :: Inside(text, f)
  {
    if fs == [] then Done(text, 0) else
    match Fold(Has([]), AllSteps(text, repl, fs))
    case Past => Overrun
    case Full => TooBig
    case Has(s) =>
      if Ended(text, fs) then Done(s, |HitsOf(text, fs)|) else Close(s, text[Reached(text, fs)..], |HitsOf(text, fs)|)
  }

  function Close(s: seq<nat>, rest: seq<nat>, num: nat): Result {
    if |s| + |rest| + 1 > RECSIZE then Overrun else if |s| + |rest| + 1 == RECSIZE then TooBig else Done(s + rest, num)
  }

  // ----- which answer when -----

  /** The steps put in the buffer by themselves: the rest of the text comes after them. */
  lemma FullAtEnd(text: seq<nat>, repl: seq<nat>, fs: seq<Find>)
    requires fs != [] && (forall f | f in fs :: Inside(text, f)) && !Ended(text, fs)
    requires Reached(text, fs) == |text| && |Flat(AllSteps(text, repl, fs))| >= RECSIZE
    ensures SomeLate(AllSteps(text, repl, fs))
  {
    var f := fs[|fs| - 1];
    var us := AllSteps(text, repl, fs);
    assert Empty(text, f) && us[|us| - 1] == Checked(text[f.t]);
    assert us == us[..|us| - 1] + [us[|us| - 1]];
    FoldSnoc(Full, us[..|us| - 1], us[|us| - 1]);
    assert Late(us, |us| - 1);
  }

  /** The four answers, by the length of the output, where it ends and what straddles the end of the buffer. */
  lemma Answers(text: seq<nat>, repl: seq<nat>, fs: seq<Find>)
    requires forall f | f in fs :: Inside(text, f)
    ensures var us, all, num := AllSteps(text, repl, fs), Output(text, repl, fs), |HitsOf(text, fs)|;
            var r, ended := Answer(text, repl, fs), Ended(text, fs);
            && (fs == [] ==> r == Done(text, 0) && all == text && num == 0)
            && (fs != [] ==>
                  && (r == Done(all, num) <==> |all| <= RECSIZE - 2 || (|all| == RECSIZE - 1 && ended))
                  && (r == TooBig <==> if SomeStraddles(us) then !Bursts(us)
                                       else SomeLate(us) || (|all| == RECSIZE - 1 && !ended))
                  && (r == Overrun <==> if SomeStraddles(us) then Bursts(us)
                                        else !SomeLate(us) && |all| >= RECSIZE && !ended)
                  && (|all| >= RECSIZE ==> (r == Done(all[..RECSIZE - 1], num) <==>
                                              ended && !SomeStraddles(us) && !SomeLate(us))))
  {
    var us := AllSteps(text, repl, fs);
    if fs == [] {
      assert Output(text, repl, fs) == text;
    } else {
      hide Fold, Flat, SomeStraddles, SomeLate, Bursts, AllSteps;
      FoldIs(us);
      LateLong(us);
      if !Ended(text, fs) && Reached(text, fs) == |text| && |Flat(us)| >= RECSIZE { FullAtEnd(text, repl, fs); }
      assert |Output(text, repl, fs)| == |Flat(us)| + |text| - Reached(text, fs);
      assert Ended(text, fs) ==> Output(text, repl, fs) == Flat(us);
    }
  }

  // ----- when the searches answer rightly -----

  /** The matches are the right ones, and the output is the text with every match replaced. */
  ghost predicate Right(L: iset<Word>, text: seq<nat>, hats: bool, repl: seq<nat>, fs: seq<Find>) {
    var ms := HitsOf(text, fs);
    && (forall f | f in fs :: Inside(text, f) && FirstMatchFrom(L, text, hats, f.t, f.b, f.len))
    && AllHits(L, text, hats, ms) && InOrder(text, ms) && Output(text, repl, fs) == Replaced(text, repl, ms)
    && (Ended(text, fs) <==> ms != [] && PastHits(ms) == |text|) && (fs == [] <==> ms == [])
  }

  /** The matches so far are the right ones up to t, and so is the output. */
  ghost predicate Midway(L: iset<Word>, text: seq<nat>, hats: bool, repl: seq<nat>, fs: seq<Find>, t: nat,
                         mflag: bool) {
    var ms := HitsOf(text, fs);
    && (forall f | f in fs :: Inside(text, f) && FirstMatchFrom(L, text, hats, f.t, f.b, f.len))
    && Progress(L, text, hats, ms, t, mflag) && InOrder(text, ms) && PastHits(ms) <= t == Reached(text, fs)
    && Flat(AllSteps(text, repl, fs)) == Sofar(text, repl, ms, t) && !Ended(text, fs) && (fs == [] <==> ms == [])
  }

  lemma Start(L: iset<Word>, text: seq<nat>, hats: bool, repl: seq<nat>)
    ensures Midway(L, text, hats, repl, [], 0, false)
  {
    assert text[0..0] == [];
  }

  lemma FindSnoc(text: seq<nat>, repl: seq<nat>, fs: seq<Find>, f: Find)
    requires (forall g | g in fs :: Inside(text, g)) && Inside(text, f)
    ensures var gs := fs + [f];
            && (forall g | g in gs :: Inside(text, g)) && Reached(text, gs) == Next(text, f)
            && (Ended(text, gs) <==> Last(text, f))
            && Flat(AllSteps(text, repl, gs)) == Flat(AllSteps(text, repl, fs)) + Flat(FindSteps(text, repl, f))
            && HitsOf(text, gs) == HitsOf(text, fs) + HitOf(text, f)
  {
    var gs := fs + [f];
    assert gs[..|fs|] == fs && gs[|fs|] == f;
    FoldOn(Full, AllSteps(text, repl, fs), FindSteps(text, repl, f));
  }

  lemma FindFlat(text: seq<nat>, repl: seq<nat>, f: Find)
    requires Inside(text, f)
    ensures Flat(FindSteps(text, repl, f)) ==
            if Empty(text, f) then (if f.mflag then [] else Replacement(repl, [])) + [text[f.t]]
            else text[f.t..f.b] + Replacement(repl, text[f.b..f.b + f.len])
  {
    hide Fold, Put, Flat, Steps, Plains, Replacement;
    FlatNone();
    if Empty(text, f) {
      var us := if f.mflag then [] else Steps(repl, []);
      StepsFlat(repl, []);
      FoldSnoc(Full, us, Checked(text[f.t]));
    } else {
      PlainsFlat(text[f.t..f.b]);
      StepsFlat(repl, text[f.b..f.b + f.len]);
      FoldOn(Full, Plains(text[f.t..f.b]), Steps(repl, text[f.b..f.b + f.len]));
    }
  }

  lemma EmptyOutput(text: seq<nat>, repl: seq<nat>, ms: seq<Hit>, t: nat, mflag: bool)
    requires InOrder(text, ms) && PastHits(ms) <= t < |text|
    ensures var ms' := ms + if mflag then [] else [Hit(t, 0)];
            && InOrder(text, ms') && PastHits(ms') <= t + 1
            && Sofar(text, repl, ms', t + 1) ==
               Sofar(text, repl, ms, t) + ((if mflag then [] else Replacement(repl, [])) + [text[t]])
  {
    assert text[t..t + 1] == [text[t]];
    if mflag {
      assert ms + [] == ms && [] + [text[t]] == [text[t]];
      SofarOn(text, repl, ms, t, t + 1);
    } else {
      EmptyReplaced(text, repl, ms, t);
      SofarOn(text, repl, ms + [Hit(t, 0)], t, t + 1);
    }
  }

  lemma EmptyReplaced(text: seq<nat>, repl: seq<nat>, ms: seq<Hit>, t: nat)
    requires InOrder(text, ms) && PastHits(ms) <= t < |text|
    ensures InOrder(text, ms + [Hit(t, 0)]) && PastHits(ms + [Hit(t, 0)]) == t
    ensures Sofar(text, repl, ms + [Hit(t, 0)], t) == Sofar(text, repl, ms, t) + Replacement(repl, [])
  {
    SofarHit(text, repl, ms, t, Hit(t, 0));
    assert text[t..t] == [];
    assert Sofar(text, repl, ms, t) + [] == Sofar(text, repl, ms, t);
  }

  /** A match is dealt with and the search goes on. */
  lemma MidwayNext(L: iset<Word>, text: seq<nat>, hats: bool, repl: seq<nat>, fs: seq<Find>, f: Find)
    requires Midway(L, text, hats, repl, fs, f.t, f.mflag) && FirstMatchFrom(L, text, hats, f.t, f.b, f.len)
    requires Inside(text, f) && !Last(text, f)
    ensures f.t < Next(text, f) <= |text| && Midway(L, text, hats, repl, fs + [f], Next(text, f), !Empty(text, f))
  {
    var ms := HitsOf(text, fs);
    hide AllHits, Hits, NothingBetween, InOrder, Sofar, Built, HitsOf, AllSteps, FindSteps, Flat, Replacement, Progress,
        FirstMatchFrom, Empty, Next;
    FindSnoc(text, repl, fs, f);
    MidwayProgress(L, text, hats, ms, f);
    MidwayOutput(L, text, hats, repl, ms, f);
    FindFlat(text, repl, f);
  }

  lemma MidwayOutput(L: iset<Word>, text: seq<nat>, hats: bool, repl: seq<nat>, ms: seq<Hit>, f: Find)
    requires InOrder(text, ms) && PastHits(ms) <= f.t && FirstMatchFrom(L, text, hats, f.t, f.b, f.len)
    requires Inside(text, f) && !Last(text, f)
    ensures var ms' := ms + HitOf(text, f);
            && InOrder(text, ms') && PastHits(ms') <= Next(text, f) <= |text|
            && Sofar(text, repl, ms', Next(text, f)) == Sofar(text, repl, ms, f.t) +
               if Empty(text, f) then (if f.mflag then [] else Replacement(repl, [])) + [text[f.t]]
               else text[f.t..f.b] + Replacement(repl, text[f.b..f.b + f.len])
  {
    hide InOrder, Sofar, Replacement, FirstMatchFrom, PastHits;
    if Empty(text, f) {
      EmptyIsHere(L, text, hats, f.t, f.b);
      EmptyOutput(text, repl, ms, f.t, f.mflag);
    } else {
      SofarHit(text, repl, ms, f.t, Hit(f.b, f.len));
      assert Sofar(text, repl, ms, f.t) + (text[f.t..f.b] + Replacement(repl, text[f.b..f.b + f.len])) ==
             Sofar(text, repl, ms, f.t) + text[f.t..f.b] + Replacement(repl, text[f.b..f.b + f.len]);
    }
  }

  lemma MidwayProgress(L: iset<Word>, text: seq<nat>, hats: bool, ms: seq<Hit>, f: Find)
    requires Progress(L, text, hats, ms, f.t, f.mflag) && FirstMatchFrom(L, text, hats, f.t, f.b, f.len)
    requires Inside(text, f) && !Last(text, f)
    ensures var ms' := ms + HitOf(text, f);
            Progress(L, text, hats, ms', Next(text, f), !Empty(text, f)) && ms' != []
    ensures f.t < Next(text, f) <= |text|
  {
    hide Hits, NothingBetween, FirstMatchFrom;
    if Empty(text, f) {
      EmptyIsHere(L, text, hats, f.t, f.b);
      if f.mflag {
        assert ms + [] == ms;
        EmptySkipped(L, text, hats, ms, f.t);
      } else {
        EmptyCounted(L, text, hats, ms, f.t);
      }
    } else {
      Taken(L, text, hats, ms, f.t, f.mflag, f.b, f.len);
    }
  }

  /** The match reaches the end of the text. */
  lemma MidwayLast(L: iset<Word>, text: seq<nat>, hats: bool, repl: seq<nat>, fs: seq<Find>, f: Find)
    requires Midway(L, text, hats, repl, fs, f.t, f.mflag) && FirstMatchFrom(L, text, hats, f.t, f.b, f.len)
    requires Inside(text, f) && Last(text, f)
    ensures Right(L, text, hats, repl, fs + [f])
  {
    var ms, m := HitsOf(text, fs), Hit(f.b, f.len);
    hide AllHits, Hits, NothingBetween, InOrder, Sofar, Built, HitsOf, AllSteps, FindSteps, Flat, Replacement, Progress,
        FirstMatchFrom, Replaced;
    FindSnoc(text, repl, fs, f);
    FindFlat(text, repl, f);
    Taken(L, text, hats, ms, f.t, f.mflag, f.b, f.len);
    SofarHit(text, repl, ms, f.t, m);
    ReplacedIsSofar(text, repl, ms + [m]);
    var s, x, y := Sofar(text, repl, ms, f.t), text[f.t..f.b], Replacement(repl, text[f.b..f.b + f.len]);
    assert s + (x + y) == s + x + y;
    assert text[|text|..] == [] && Output(text, repl, fs + [f]) == s + x + y;
  }

  /** No match is left. */
  lemma MidwayNone(L: iset<Word>, text: seq<nat>, hats: bool, repl: seq<nat>, fs: seq<Find>, t: nat, mflag: bool)
    requires Midway(L, text, hats, repl, fs, t, mflag) && NoneFrom(L, text, hats, t)
    ensures Right(L, text, hats, repl, fs)
  {
    var ms := HitsOf(text, fs);
    hide Hits, NothingBetween, HitsOf, AllSteps, FindSteps, Flat, FirstMatchFrom;
    Exhausted(L, text, hats, ms, t, mflag);
    SofarOn(text, repl, ms, t, |text|);
    assert text[t..|text|] == text[t..];
    ReplacedIsSofar(text, repl, ms);
  }

  /** The answer in terms of the list of hits: whole, cut without an error, an error, or past the end of the buffer. */
  lemma AnswersHits(L: iset<Word>, text: seq<nat>, hats: bool, repl: seq<nat>, fs: seq<Find>, ms: seq<Hit>)
    requires Right(L, text, hats, repl, fs) && AllHits(L, text, hats, ms)
    ensures ms == HitsOf(text, fs) && InOrder(text, ms)
    ensures var us, all, num := AllSteps(text, repl, fs), Replaced(text, repl, ms), |ms|;
            var r, ended := Answer(text, repl, fs), PastHits(ms) == |text|;
            && (r == Done(all, num) <==> ms == [] || |all| <= RECSIZE - 2 || (|all| == RECSIZE - 1 && ended))
            && (ms != [] && |all| >= RECSIZE ==>
                  (r == Done(all[..RECSIZE - 1], num) <==> ended && !SomeStraddles(us) && !SomeLate(us)))
            && (ms != [] ==>
                  && (r == TooBig <==> if SomeStraddles(us) then !Bursts(us)
                                       else SomeLate(us) || (|all| == RECSIZE - 1 && !ended))
                  && (r == Overrun <==> if SomeStraddles(us) then Bursts(us)
                                        else !SomeLate(us) && |all| >= RECSIZE && !ended))
  {
    hide AllHits, Output, AllSteps, SomeStraddles, SomeLate, Bursts, Replaced, HitsOf, Answer;
    AllHitsUnique(L, text, hats, ms, HitsOf(text, fs));
    Answers(text, repl, fs);
  }

  predicate AllPlain(us: seq<Unit>) {
    forall k | 0 <= k < |us| :: us[k].Plain?
  }

  lemma AllPlainBoth(us: seq<Unit>, vs: seq<Unit>)
    requires AllPlain(us) && AllPlain(vs)
    ensures AllPlain(us + vs)
  {
  }

  /** Without & in the replacement and without empty matches nothing straddles the end of the buffer. */
  lemma PlainOnly(text: seq<nat>, repl: seq<nat>, fs: seq<Find>)
    requires AMP !in repl && forall f | f in fs :: Inside(text, f) && !Empty(text, f)
    ensures !SomeStraddles(AllSteps(text, repl, fs)) && !SomeLate(AllSteps(text, repl, fs))
  {
    hide AllSteps;
    PlainSteps(text, repl, fs);
  }

  lemma {:induction false} PlainSteps(text: seq<nat>, repl: seq<nat>, fs: seq<Find>)
    requires AMP !in repl && forall f | f in fs :: Inside(text, f) && !Empty(text, f)
    ensures AllPlain(AllSteps(text, repl, fs))
  {
    if fs != [] {
      var f := fs[|fs| - 1];
      assert Inside(text, f) && !Empty(text, f);
      PlainSteps(text, repl, fs[..|fs| - 1]);
      PlainRepl(repl, text[f.b..f.b + f.len]);
      hide AllPlain, Steps, Plains, Empty;
      PlainText(text[f.t..f.b]);
      AllPlainBoth(Plains(text[f.t..f.b]), Steps(repl, text[f.b..f.b + f.len]));
      AllPlainBoth(AllSteps(text, repl, fs[..|fs| - 1]), FindSteps(text, repl, f));
    } else {
      assert AllSteps(text, repl, fs) == [];
    }
  }

  lemma PlainText(s: seq<nat>)
    ensures AllPlain(Plains(s))
  {
  }

  lemma {:induction false} PlainRepl(repl: seq<nat>, matched: seq<nat>)
    requires AMP !in repl
    ensures AllPlain(Steps(repl, matched))
  {
    if repl != [] { PlainRepl(repl[1..], matched); }
  }

  // ----- a call -----

  /** The states that a call may leave: the searches begin in state 2 after the first. */
  ghost predicate Able(p: Re, family: set<seq<nat>>, T: Tab, init: nat) {
    && Held(p, true, T) && Keeps(p, true, family, T) && (init == EntryState(p) || init == 2)
    && Closed(Table(p), family) && Home(p, true) in family && Entry(p, true) in family
  }

  lemma AbleSearch(p: Re, family: set<seq<nat>>, T: Tab, init: nat, text: seq<nat>)
    requires Able(p, family, T, init) && IsText(text)
    ensures Proper(p) && Held(p, true, T) && (T.reset || 1 <= init <= T.cur)
    ensures var s := Call(p, T, init, text, 0);
            && Able(p, family, s.t, 2) && (|family| <= NSTATES - 1 ==> !s.t.reset && !s.slip)
            && (s.initstat == EntryState(p) || s.initstat == 2)
            && (!s.slip ==> if s.found then 0 <= s.patlen &&
                                            LeftmostLongest(p, text, T.reset ||
                                                init == EntryState(p), 0, s.patbeg, s.patlen)
                            else NoMatch(p, text, T.reset || init == EntryState(p), 0))
  {
    hide Table, Home, Entry, EntryState, Based, AwkRun.Call, Closed, LeftmostLongest, NoMatch, Lists, Links;
    CallRight(p, family, T, init, text, 0);
  }

  /** The searches leave a table that further calls can begin with; with at most 31 lists none goes off. */
  lemma {:induction false} RoundsAble(p: Re, family: set<seq<nat>>, T: Tab, init: nat, text: seq<nat>, t: nat,
                                      mflag: bool)
    requires Able(p, family, T, init) && IsText(text) && t <= |text|
    ensures Held(p, true, T) && (T.reset || 1 <= init <= T.cur)
    ensures var r := Rounds(p, T, init, text, t, mflag);
            Able(p, family, r.t, 2) && (|family| <= NSTATES - 1 ==> !r.off && !r.t.reset)
    decreases |text| - t
  {
    hide Able, Held, AwkRun.Call, LeftmostLongest, NoMatch, EntryState, Rounds;
    AbleSearch(p, family, T, init, text[t..]);
    RoundsAre(p, T, init, text, t, mflag);
    var s := Call(p, T, init, text[t..], 0);
    if s.found {
      var f := Find(t, mflag, t + s.patbeg, s.patlen);
      if !Last(text, f) { RoundsAble(p, family, s.t, 2, text, Next(text, f), !Empty(text, f)); }
    }
  }

  /** What a search that answers rightly adds to the matches so far. */
  lemma RoundRight(p: Re, text: seq<nat>, repl: seq<nat>, hats: bool, fs: seq<Find>, t: nat, mflag: bool, here: bool,
                   found: bool, b: nat, len: int)
    requires Proper(p) && t <= |text| && Midway(Language(p), text, hats, repl, fs, t, mflag)
    requires if t == 0 then here == hats else (here ==> EntryState(p) == 2)
    requires if found then 0 <= len && LeftmostLongest(p, text[t..], here, 0, b, len)
             else NoMatch(p, text[t..], here, 0)
    ensures !found ==> Right(Language(p), text, hats, repl, fs)
    ensures found ==> 0 <= len && t + b + len <= |text|
    ensures var f := Find(t, mflag, t + b, if found then len else 0);
            && (found && Last(text, f) ==> Right(Language(p), text, hats, repl, fs + [f]))
            && (found && !Last(text, f) ==> t < Next(text, f) <= |text| &&
                                            Midway(Language(p), text, hats, repl, fs + [f], Next(text, f),
                                                !Empty(text, f)))
  {
    hide Midway, Right, NoMatch, NoneFrom, Language, EntryState;
    SearchedFrom(p, text, hats, t, here, found, b, len);
    if !found {
      MidwayNone(Language(p), text, hats, repl, fs, t, mflag);
    } else {
      var f := Find(t, mflag, t + b, len);
      hide FirstMatchFrom;
      if Last(text, f) {
        MidwayLast(Language(p), text, hats, repl, fs, f);
      } else {
        MidwayNext(Language(p), text, hats, repl, fs, f);
      }
    }
  }

  /** If the searches do not go off, what they find is what is to be replaced. */
  lemma {:induction false} RoundsRight(p: Re, family: set<seq<nat>>, T: Tab, init: nat, text: seq<nat>,
                                       repl: seq<nat>, hats: bool, fs: seq<Find>, t: nat, mflag: bool)
    requires Able(p, family, T, init) && IsText(text) && t <= |text|
    requires Midway(Language(p), text, hats, repl, fs, t, mflag)
    requires var here := T.reset || init == EntryState(p); if t == 0 then here == hats else here ==> EntryState(p) == 2
    ensures Held(p, true, T) && (T.reset || 1 <= init <= T.cur)
    ensures var r := Rounds(p, T, init, text, t, mflag);
            !r.off ==> Right(Language(p), text, hats, repl, fs + r.finds)
    decreases |text| - t
  {
    hide Able, Held, Midway, Right, AwkRun.Call, LeftmostLongest, NoMatch, Language, EntryState, Rounds, Next, Empty,
        Last;
    AbleSearch(p, family, T, init, text[t..]);
    RoundsAre(p, T, init, text, t, mflag);
    var s := Call(p, T, init, text[t..], 0);
    if !Rounds(p, T, init, text, t, mflag).off {
      RoundRight(p, text, repl, hats, fs, t, mflag, T.reset || init == EntryState(p), s.found, s.patbeg, s.patlen);
      if !s.found {
        assert fs + [] == fs;
      } else {
        var f := Find(t, mflag, t + s.patbeg, s.patlen);
        if !Last(text, f) {
          RoundsRight(p, family, s.t, 2, text, repl, hats, fs + [f], Next(text, f), !Empty(text, f));
          var r := Rounds(p, s.t, 2, text, Next(text, f), !Empty(text, f));
          assert fs + ([f] + r.finds) == fs + [f] + r.finds;
        }
      }
    }
  }

  // ----- gsub -----

  datatype Turn = On | Stop(r: Result)

  /** The branch for an empty match: replace it if allowed and copy one character of the text. */
  method EmptyMatch(out: Buffer, text: seq<nat>, f: Find, repl: seq<nat>)
    requires out.Valid() && out.Value().Has? && Inside(text, f) && Empty(text, f)
    modifies out`pb, out.data
    ensures out.Valid() && out.Value() == Fold(old(out.Value()), FindSteps(text, repl, f))
  {
    hide Fold, Steps;
    ghost var was, us := out.Value(), if f.mflag then [] else Steps(repl, []);
    FoldNone(was);
    if !f.mflag {
      var ok := out.Fill(repl, []);
      NoMatchFits(was, repl);
    }
    FoldSnoc(was, us, Checked(text[f.t]));
    var ok := out.Store(text[f.t]);
  }

  /** With nothing for & to stand for, the replacement text leaves room for the NUL. */
  lemma NoMatchFits(buf: Buf, repl: seq<nat>)
    requires buf.Has? && |buf.s| < RECSIZE
    ensures var b := Fold(buf, Steps(repl, [])); b.Has? && |b.s| < RECSIZE
  {
    SmallSteps(repl);
    SmallFits(buf, Steps(repl, []));
  }

  lemma {:induction false} SmallSteps(repl: seq<nat>)
    ensures forall k | 0 <= k < |Steps(repl, [])| :: Small(Steps(repl, [])[k])
  {
    if repl != [] {
      SmallSteps(repl[1..]);
      if |repl| > 1 { SmallSteps(repl[2..]); }
    }
  }

  predicate Small(u: Unit) {
    u.Plain? || u == Whole([])
  }

  lemma {:induction false} SmallFits(buf: Buf, us: seq<Unit>)
    requires buf.Has? && |buf.s| < RECSIZE && forall k | 0 <= k < |us| :: Small(us[k])
    ensures var b := Fold(buf, us); b.Has? && |b.s| < RECSIZE
  {
    if us != [] { SmallFits(buf, us[..|us| - 1]); }
  }

  /** The other branch: copy the text up to the match and replace the match. */
  method TakeMatch(out: Buffer, text: seq<nat>, f: Find, repl: seq<nat>) returns (ok: bool)
    requires out.Valid() && out.Value().Has? && Inside(text, f) && !Empty(text, f)
    modifies out`pb, out.data
    ensures out.Valid() && (if ok then out.Value() else Past) == Fold(old(out.Value()), FindSteps(text, repl, f))
  {
    FoldOn(out.Value(), Plains(text[f.t..f.b]), Steps(repl, text[f.b..f.b + f.len]));
    PlainsFit(out.Value(), text[f.t..f.b]);
    out.Copy(text, f.t, f.b);
    ok := out.Fill(repl, text[f.b..f.b + f.len]);
  }

  lemma PlainsFit(buf: Buf, s: seq<nat>)
    requires buf.Has? && |buf.s| < RECSIZE
    ensures Fold(buf, Plains(s)).Has?
  {
    SmallFits(buf, Plains(s));
  }

  /** One match, whichever branch it is for. */
  method OneMatch(out: Buffer, text: seq<nat>, f: Find, repl: seq<nat>, num: nat) returns (turn: Turn, num': nat)
    requires out.Valid() && out.Value().Has? && Inside(text, f)
    modifies out`pb, out.data
    ensures out.Valid() && num' == num + |HitOf(text, f)|
    ensures var b := Fold(old(out.Value()), FindSteps(text, repl, f));
            && (turn.On? ==> !Last(text, f) && out.Value() == b && b.Has?)
            && (turn.Stop? ==> turn.r == match b case Past => Overrun case Full => TooBig case Has(s) => Done(s, num'))
            && (turn.Stop? && b.Has? ==> Last(text, f))
  {
    num' := if Empty(text, f) && f.mflag then num else num + 1;
    var ok := true;
    if Empty(text, f) {
      EmptyMatch(out, text, f, repl);
    } else {
      ok := TakeMatch(out, text, f, repl);
    }
    if !ok {
      turn := Stop(Overrun);
    } else if out.pb >= RECSIZE {
      turn := Stop(TooBig);
    } else if Last(text, f) {
      turn := Stop(Done(out.data[..out.pb], num'));
    } else {
      turn := On;
    }
  }

  /** What follows the last match is copied up to its NUL. */
  method CopyRest(out: Buffer, text: seq<nat>, t: nat, num: nat) returns (r: Result)
    requires out.Valid() && out.Value().Has? && t <= |text|
    modifies out`pb, out.data
    ensures r == Close(old(out.Value()).s, text[t..], num)
  {
    var ok := out.StoreAll(text[t..]);
    if !ok {
      return Overrun;
    }
    var len := out.pb;
    ghost var full := out.Contents();
    ok := out.Store(0);
    if !ok {
      return Overrun;
    }
    if out.pb >= RECSIZE {
      return TooBig;
    }
    assert out.data[..len] == full;
    r := Done(out.data[..len], num);
  }

  /** The searches made after the match f, which left the table T. */
  ghost function Later(p: Re, T: Tab, text: seq<nat>, f: Find): (r: Run)
    requires Held(p, true, T) && IsText(text) && Inside(text, f)
    ensures Held(p, true, r.t) && forall g | g in r.finds :: Inside(text, g)
  {
    HeldShape(p, true, T);
    if Last(text, f) then Run([], T, false) else Rounds(p, T, 2, text, Next(text, f), !Empty(text, f))
  }

  /** The searches from t on, after the one that has just been made there. */
  ghost function Left(p: Re, T: Tab, text: seq<nat>, f: Find, found: bool): (r: Run)
    requires Held(p, true, T) && IsText(text) && (found ==> Inside(text, f))
    ensures Held(p, true, r.t) && forall g | g in r.finds :: Inside(text, g)
  {
    if !found then Run([], T, false) else var r := Later(p, T, text, f); Run([f] + r.finds, r.t, r.off)
  }

  lemma RoundsLeft(p: Re, T: Tab, init: nat, text: seq<nat>, t: nat, mflag: bool)
    requires Held(p, true, T) && (T.reset || 1 <= init <= T.cur) && IsText(text) && t <= |text|
    ensures var s := Call(p, T, init, text[t..], 0);
            var f := FindAt(t, mflag, s.found, s.patbeg, s.patlen);
            && (s.found ==> 0 <= s.patlen && Inside(text, f))
            && Rounds(p, T, init, text, t, mflag).finds == Left(p, s.t, text, f, s.found).finds
            && Rounds(p, T, init, text, t, mflag).t == Left(p, s.t, text, f, s.found).t
  {
    hide Held, AwkRun.Call, Rounds, EntryState;
    RoundsAre(p, T, init, text, t, mflag);
  }

  /** The matches done have been dealt with, a search from m.t has been made, and run is what there is in all. */
  ghost predicate Going(p: Re, T: Tab, text: seq<nat>, run: Run, done: seq<Find>, m: Find, found: bool)
    requires Held(p, true, T) && IsText(text)
  {
    && (forall g | g in run.finds :: Inside(text, g)) && (forall g | g in done :: Inside(text, g))
    && (found ==> Inside(text, m)) && m.t == Reached(text, done) && !Ended(text, done)
    && run.finds == done + Left(p, T, text, m, found).finds
    && run.t == Left(p, T, text, m, found).t
  }

  lemma GoingStarts(p: Re, T: Tab, init: nat, text: seq<nat>)
    requires Held(p, true, T) && (T.reset || 1 <= init <= T.cur) && IsText(text)
    ensures var s := Call(p, T, init, text, 0);
            var f := FindAt(0, false, s.found, s.patbeg, s.patlen);
            (s.found ==> 0 <= s.patlen) && Going(p, s.t, text, Rounds(p, T, init, text, 0, false), [], f, s.found)
  {
    hide Held, AwkRun.Call, Rounds, Left;
    assert text[0..] == text;
    RoundsLeft(p, T, init, text, 0, false);
    var s := Call(p, T, init, text, 0);
    var left := Left(p, s.t, text, FindAt(0, false, s.found, s.patbeg, s.patlen), s.found);
    assert [] + left.finds == left.finds;
  }

  /** One match is dealt with, and the next search is made. */
  lemma GoingOn(p: Re, T: Tab, text: seq<nat>, run: Run, done: seq<Find>, m: Find)
    requires Held(p, true, T) && IsText(text) && Going(p, T, text, run, done, m, true) && !Last(text, m)
    ensures Shape(T) && m.t < Next(text, m) <= |text|
    ensures var s := Call(p, T, 2, text[Next(text, m)..], 0);
            var f := FindAt(Next(text, m), !Empty(text, m), s.found, s.patbeg, s.patlen);
            (s.found ==> 0 <= s.patlen) && Going(p, s.t, text, run, done + [m], f, s.found)
  {
    hide Held, AwkRun.Call, Rounds;
    HeldShape(p, true, T);
    RoundsLeft(p, T, 2, text, Next(text, m), !Empty(text, m));
    var s := Call(p, T, 2, text[Next(text, m)..], 0);
    var f := FindAt(Next(text, m), !Empty(text, m), s.found, s.patbeg, s.patlen);
    var rest := Left(p, s.t, text, f, s.found).finds;
    assert (done + [m])[|done|] == m;
    assert done + ([m] + rest) == done + [m] + rest;
  }

  /** The answer when no further match is found. */
  lemma Closes(p: Re, T: Tab, text: seq<nat>, repl: seq<nat>, run: Run, done: seq<Find>, m: Find, s: seq<nat>, num: nat)
    requires Held(p, true, T) && IsText(text) && Going(p, T, text, run, done, m, false) && done != []
    requires Fold(Has([]), AllSteps(text, repl, done)) == Has(s) && num == |HitsOf(text, done)|
    ensures Answer(text, repl, run.finds) == Close(s, text[m.t..], num) && run.t == T
  {
    hide Held;
    assert done + [] == done;
  }

  /** The answer when the match m is the last, or when the buffer does not take its output. */
  lemma Stops(p: Re, T: Tab, text: seq<nat>, repl: seq<nat>, run: Run, done: seq<Find>, m: Find, b: Buf, num: nat)
    requires Held(p, true, T) && IsText(text) && Going(p, T, text, run, done, m, true)
    requires b == Fold(Fold(Has([]), AllSteps(text, repl, done)), FindSteps(text, repl, m))
    requires num == |HitsOf(text, done)| + |HitOf(text, m)| && (b.Has? ==> Last(text, m))
    ensures Answer(text, repl, run.finds) ==
            match b case Past => Overrun case Full => TooBig case Has(s) => Done(s, num)
    ensures b.Has? ==> run.t == T
  {
    hide Held, Rounds, AllSteps, FindSteps, HitsOf, HitOf, Fold, Reached, Flat, Next, Empty;
    var gs := done + [m];
    FindSnoc(text, repl, done, m);
    FoldFind(text, repl, done, m);
    var rest := Later(p, T, text, m).finds;
    assert done + ([m] + rest) == gs + rest;
    if b.Has? {
      assert gs + [] == gs;
    } else {
      FoldMore(text, repl, gs, rest);
    }
  }

  lemma FoldFind(text: seq<nat>, repl: seq<nat>, fs: seq<Find>, f: Find)
    requires (forall g | g in fs :: Inside(text, g)) && Inside(text, f)
    ensures forall g | g in fs + [f] :: Inside(text, g)
    ensures Fold(Has([]), AllSteps(text, repl, fs + [f])) ==
            Fold(Fold(Has([]), AllSteps(text, repl, fs)), FindSteps(text, repl, f))
  {
    hide FindSteps, Inside, Put;
    var gs := fs + [f];
    assert gs[..|fs|] == fs && gs[|fs|] == f;
    FoldOn(Has([]), AllSteps(text, repl, fs), FindSteps(text, repl, f));
  }

  /** Once the buffer is full or past its end, it stays so. */
  lemma {:induction false} FoldMore(text: seq<nat>, repl: seq<nat>, fs: seq<Find>, gs: seq<Find>)
    requires forall f | f in fs + gs :: Inside(text, f)
    requires (forall f | f in fs :: Inside(text, f)) && !Fold(Has([]), AllSteps(text, repl, fs)).Has?
    ensures Fold(Has([]), AllSteps(text, repl, fs + gs)) == Fold(Has([]), AllSteps(text, repl, fs))
    decreases |gs|
  {
    if gs == [] {
      assert fs + gs == fs;
    } else {
      var n := |gs| - 1;
      var hs := fs + gs[..n];
      assert fs + gs == hs + [gs[n]] && (hs + [gs[n]])[..|hs|] == hs;
      forall f | f in hs ensures Inside(text, f) { assert f in fs + gs; }
      FoldMore(text, repl, fs, gs[..n]);
      assert gs[n] in fs + gs;
      FoldOn(Has([]), AllSteps(text, repl, hs), FindSteps(text, repl, gs[n]));
      Stays(Fold(Has([]), AllSteps(text, repl, hs)), FindSteps(text, repl, gs[n]));
    }
  }

  /** The state between matches: what the buffer holds, and what has been counted. */
  ghost predicate Filled(out: Buffer, text: seq<nat>, repl: seq<nat>, done: seq<Find>, num: nat)
    reads out, out.data
  {
    && (forall g | g in done :: Inside(text, g))
    && out.Valid() && out.Value().Has? && out.Value() == Fold(Has([]), AllSteps(text, repl, done))
    && num == |HitsOf(text, done)|
  }

  lemma FilledMore(out: Buffer, text: seq<nat>, repl: seq<nat>, done: seq<Find>, m: Find, was: Buf, num: nat)
    requires (forall g | g in done :: Inside(text, g)) && Inside(text, m) && out.Valid() && out.Value().Has?
    requires was == Fold(Has([]), AllSteps(text, repl, done)) && num == |HitsOf(text, done)| + |HitOf(text, m)|
    requires out.Value() == Fold(was, FindSteps(text, repl, m))
    ensures Filled(out, text, repl, done + [m], num)
  {
    hide AllSteps, FindSteps, Fold, HitsOf, HitOf;
    FoldFind(text, repl, done, m);
    FindSnoc(text, repl, done, m);
  }

  /** The next search, in state 2. */
  method SearchNext(f: Fa, text: seq<nat>, m: Find, ghost run: Run, ghost done: seq<Find>)
      returns (found: bool, b: nat, len: int)
    requires f.Valid() && f.anchor && IsText(text) && f.initstat == 2 && f.Callable(f.T(), 2)
    requires Going(f.user, f.T(), text, run, done, m, true) && !Last(text, m)
    modifies f, f.posns, f.out, f.gototab
    ensures f.Valid() && f.initstat == 2 && f.Callable(f.T(), 2) && (found ==> 0 <= len)
    ensures m.t < Next(text, m) <= |text|
    ensures Going(f.user, f.T(), text, run, done + [m], FindAt(Next(text, m), !Empty(text, m), found, b, len), found)
  {
    hide AwkRun.Call, Held, Keeps, Occurs, LeftmostLongest, Going, FindAt, Table, EntryState, Home, Entry, Closed;
    GoingOn(f.user, f.T(), text, run, done, m);
    ghost var hats, slip;
    CallWithin(f.user, f.T(), 2, text[Next(text, m)..], 0);
    found, b, len, hats, slip := f.Pmatch(text[Next(text, m)..]);
    f.CanCall();
  }

  /** The loop of gsub, entered with the first match. */
  method ReplaceAll(f: Fa, text: seq<nat>, repl: seq<nat>, b0: nat, len0: int, ghost run: Run) returns (r: Result)
    requires f.Valid() && f.anchor && IsText(text) && f.initstat == 2 && 0 <= len0 && f.Callable(f.T(), 2)
    requires Going(f.user, f.T(), text, run, [], FindAt(0, false, true, b0, len0), true)
    modifies f, f.posns, f.out, f.gototab
    ensures f.Valid() && f.initstat == 2 && forall g | g in run.finds :: Inside(text, g)
    ensures r == Answer(text, repl, run.finds) && (r.Done? ==> f.T() == run.t)
  {
    hide Rounds, Left, Held, Keeps, Fold, AllSteps, FindSteps, HitsOf, HitOf, Reached, Answer, Close, Table, Closed,
        Home,
        Entry, EntryState, Ended;
    var out := new Buffer();
    var found, b, len, t, mflag, num := true, b0, len0, 0, false, 0;
    ghost var done: seq<Find> := [];
    FilledNone(out, text, repl);
    while found
      invariant f.Valid() && f.initstat == 2 && f.Callable(f.T(), 2) && fresh(out) && fresh(out.data)
      invariant Filled(out, text, repl, done, num) && (found ==> 0 <= len) && (!found ==> done != [])
      invariant t <= |text|
      invariant Going(f.user, f.T(), text, run, done, FindAt(t, mflag, found, b, len), found)
      decreases |text| - t, found
    {
      var m := Find(t, mflag, t + b, len);
      assert m == FindAt(t, mflag, found, b, len);
      ghost var was := out.Value();
      var turn;
      turn, num := OneMatch(out, text, m, repl, num);
      if turn.Stop? {
        Stops(f.user, f.T(), text, repl, run, done, m, Fold(was, FindSteps(text, repl, m)), num);
        return turn.r;
      }
      FilledMore(out, text, repl, done, m, was, num);
      found, b, len := SearchNext(f, text, m, run, done);
      t, mflag := Next(text, m), !Empty(text, m);
      done := done + [m];
    }
    Closes(f.user, f.T(), text, repl, run, done, FindAt(t, mflag, found, b, len), out.Value().s, num);
    r := CopyRest(out, text, t, num);
  }

  lemma FilledNone(out: Buffer, text: seq<nat>, repl: seq<nat>)
    requires out.Valid() && out.Value() == Has([])
    ensures Filled(out, text, repl, [], 0)
  {
  }

  /**
   gsub. Its searches are those of Rounds and its answer is what they make of the buffer. If none of
   them goes off, the matches are the right ones; whether ^ may match at the start depends on the
   state the automaton is in.
   */
  method Gsub(f: Fa, text: seq<nat>, repl: seq<nat>) returns (r: Result, ghost run: Run, ghost hats: bool)
    requires f.Valid() && f.anchor && IsText(text)
    modifies f, f.posns, f.out, f.gototab
    ensures f.Valid() && f.Callable(old(f.T()), old(f.initstat))
    ensures run == Rounds(f.user, old(f.T()), old(f.initstat), text, 0, false)
    ensures r == Answer(text, repl, run.finds)
    ensures r.Done? ==> f.T() == run.t && f.initstat == Call(f.user, old(f.T()), old(f.initstat), text, 0).initstat
    ensures hats == (old(f.reset) || old(f.initstat) == EntryState(f.user))
    ensures !run.off ==> Right(Language(f.user), text, hats, repl, run.finds)
    ensures |f.family| <= NSTATES - 1 ==> !run.off
  {
    hide AwkRun.Call, Rounds, Left, Held, Keeps, Answer, Occurs, LeftmostLongest, Table, Closed, Home, Entry,
        EntryState,
        Right, Language;
    f.CanCall();
    run := Rounds(f.user, f.T(), f.initstat, text, 0, false);
    hats := f.reset || f.initstat == EntryState(f.user);
    Start(Language(f.user), text, hats, repl);
    RoundsAble(f.user, f.family, f.T(), f.initstat, text, 0, false);
    RoundsRight(f.user, f.family, f.T(), f.initstat, text, repl, hats, [], 0, false);
    assert [] + run.finds == run.finds;
    GoingStarts(f.user, f.T(), f.initstat, text);
    var found, b, len;
    ghost var here, slip;
    found, b, len, here, slip := f.Pmatch(text);
    if !found {
      NoFinds(f.user, f.T(), text, repl, run, FindAt(0, false, found, b, len));
      return Done(text, 0), run, hats;
    }
    var tempstat := f.initstat;
    f.initstat := 2;
    f.CanCall();
    r := ReplaceAll(f, text, repl, b, len, run);
    if r.Done? {
      f.initstat := tempstat;
    }
  }

  lemma NoFinds(p: Re, T: Tab, text: seq<nat>, repl: seq<nat>, run: Run, m: Find)
    requires Held(p, true, T) && IsText(text) && Going(p, T, text, run, [], m, false)
    ensures Answer(text, repl, run.finds) == Done(text, 0) && run.t == T
  {
    hide Held;
  }
}
