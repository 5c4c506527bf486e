/**
 gsub cuts its result off without a word (usr/src/cmd/awk/run.c): every a of a text of 1536 is
 replaced by bb, which makes 3072 characters, and gsub answers with 3071 and the count 1536. With
 other characters behind the a's it runs past the end of its buffer instead.
 */
module AwkCut {
  import opened AwkRegex
  import opened AwkFollow
  import opened AwkRun
  import opened AwkSearch
  import opened AwkFa
  import opened AwkDfa
  import opened AwkLimits
  import opened AwkHits
  import opened AwkBuffer
  import opened AwkGsub

  const A: nat := 97
  const B: nat := 98

  function Copies(c: nat, n: nat): (s: seq<nat>)
    ensures |s| == n && forall k | 0 <= k < n :: s[k] == c
  {
    seq(n, _ => c)
  }

  /** The expression a. */
  function JustA(): Re {
    Leaf(0, Char(A))
  }

  lemma TableOfA()
    ensures Proper(JustA()) && |Table(JustA())| == 3 && Table(JustA())[1].sym == Char(A)
    ensures Table(JustA())[2].sym == Final
    ensures FollowSet(Table(JustA())[1].ctx) == {2} && Bare(JustA()) == {1}
  {
    var p := JustA();
    TableShape(p);
    ZeroOnlyFollowsZero(p);
    assert Points(User(p), CatRight(AfterUser(p))) == [At(Char(A), CatRight(AfterUser(p)))];
    assert FollowSet(BeforeUser(p)) == {1};
  }

  /** The lists that can occur. */
  function FewLists(): set<seq<nat>> {
    {[], [1], [2]}
  }

  lemma NextLists(c: nat)
    ensures var pts := Table(JustA());
            && NextList(pts, [], c) == [] && NextList(pts, [2], c) == []
            && NextList(pts, [1], c) == if c == A then [2] else []
  {
    var pts := Table(JustA());
    TableOfA();
    hide Table;
    StepNone(pts, c);
    DescNone(|pts|);
    assert Elems([1]) == {1} && Elems([2]) == {2};
    StepOne(pts, 1, c);
    StepOne(pts, 2, c);
    DescOf(pts, {2}, [2]);
  }

  lemma HomeOfA()
    ensures Proper(JustA()) && Home(JustA(), true) == Entry(JustA(), true) == [1]
  {
    var p := JustA();
    TableOfA();
    hide Table, Bare, Scanning, Proper;
    BareHatSplits(p);
    StepOne(Table(p), 1, HAT);
    assert BareHat(p) == {1};
    assert Elems([1]) == {1};
    DescOf(Table(p), {1}, [1]);
  }

  lemma AFits()
    ensures Proper(JustA()) && Fits(JustA(), true, FewLists())
  {
    hide Table, Home, Entry, NextList;
    HomeOfA();
    forall l, c: nat | l in FewLists() && c <= HAT ensures NextList(Table(JustA()), l, c) in FewLists() {
      NextLists(c);
    }
  }

  // ----- the matches -----

  /** n a's and m b's. */
  function Ab(n: nat, m: nat): (t: seq<nat>)
    ensures |t| == n + m && IsText(t)
    ensures (forall k | 0 <= k < n :: t[k] == A) && forall k | n <= k < n + m :: t[k] == B
  {
    Copies(A, n) + Copies(B, m)
  }

  lemma AMatches(text: seq<nat>, hats: bool, i: nat, j: nat)
    requires i <= j <= |text|
    ensures MatchIn(Language(JustA()), text, hats, i, j) <==> j == i + 1 && text[i] == A
  {
    var L := Language(JustA());
    assert forall w: Word :: w in L <==> w == [A];
    assert WordOf(text, false, i, j, false) == text[i..j];
    if j == i + 1 { assert text[i..j] == [text[i]]; }
    assert WordOf(text, true, i, j, false)[0] == HAT && WordOf(text, true, i, j, true)[0] == HAT;
    assert WordOf(text, false, i, j, true)[j - i] == 0;
  }

  /** Every a by itself. */
  function Each(n: nat): (ms: seq<Hit>)
    ensures |ms| == n && forall k | 0 <= k < n :: ms[k] == Hit(k, 1)
  {
    seq(n, k requires 0 <= k < n => Hit(k, 1))
  }

  lemma EachPrefix(n: nat, k: nat)
    requires k <= n
    ensures Each(n)[..k] == Each(k) && Resume(Each(k)) == PastHits(Each(k)) == k
  {
  }

  lemma AllOfThem(n: nat, m: nat, hats: bool)
    ensures AllHits(Language(JustA()), Ab(n, m), hats, Each(n))
  {
    var L, text := Language(JustA()), Ab(n, m);
    hide Language, MatchIn, Each, Ab;
    forall i, j | 0 <= i <= j <= n + m ensures MatchIn(L, text, hats, i, j) <==> j == i + 1 && i < n {
      AMatches(text, hats, i, j);
    }
    forall k | 0 <= k < n ensures NextHit(L, text, hats, Each(n)[..k], Each(n)[k]) {
      EachPrefix(n, k);
    }
    EachPrefix(n, n);
    assert Each(n)[..n] == Each(n);
  }

  /** The replacement text bb. */
  const BB: seq<nat> := [B, B]

  lemma EachReplacement()
    ensures Replacement(BB, [A]) == BB
  {
    assert BB[1..] == [B] && Replacement([B], [A]) == [B];
  }

  lemma EachMore(n: nat, m: nat, k: nat)
    requires 0 < k <= n
    ensures Each(k) == Each(k - 1) + [Hit(k - 1, 1)] && PastHits(Each(k - 1)) == k - 1
    ensures Ab(n, m)[k - 1..k] == [A] && Ab(n, m)[k - 1..k - 1] == []
    ensures Copies(B, 2 * k) == Copies(B, 2 * (k - 1)) + [] + BB
  {
  }

  lemma {:induction false} EachBuilt(n: nat, m: nat, k: nat)
    requires k <= n
    ensures Built(Ab(n, m), BB, Each(k)) == Copies(B, 2 * k)
  {
    if k > 0 {
      hide Each, Built, PastHits, Replacement, Copies, Ab;
      EachBuilt(n, m, k - 1);
      EachMore(n, m, k);
      EachReplacement();
      BuiltSnoc(Ab(n, m), BB, Each(k - 1), Hit(k - 1, 1));
    }
  }

  lemma EachReplaced(n: nat, m: nat)
    ensures InOrder(Ab(n, m), Each(n)) && Replaced(Ab(n, m), BB, Each(n)) == Copies(B, 2 * n + m)
  {
    forall k | 0 <= k < n ensures PastHits(Each(n)[..k]) <= Each(n)[k].b { EachPrefix(n, k); }
    EachPrefix(n, n);
    EachBuilt(n, m, n);
    assert Ab(n, m)[n..] == Copies(B, m) && Copies(B, 2 * n) + Copies(B, m) == Copies(B, 2 * n + m);
  }

  // ----- the call -----

  lemma NothingStraddles(n: nat, m: nat, hats: bool, fs: seq<Find>)
    requires Right(Language(JustA()), Ab(n, m), hats, BB, fs)
    ensures forall f | f in fs :: Inside(Ab(n, m), f)
    ensures var us := AllSteps(Ab(n, m), BB, fs); !SomeStraddles(us) && !SomeLate(us)
  {
    var L, text := Language(JustA()), Ab(n, m);
    hide Language, MatchIn, Answer, Replaced, Ab, AllSteps, SomeStraddles, SomeLate;
    forall f | f in fs ensures Inside(text, f) && !Empty(text, f) {
      AMatches(text, hats, f.b, f.b + f.len);
    }
    PlainOnly(text, BB, fs);
  }

  lemma CopiesCut(c: nat, n: nat, k: nat)
    requires k <= n
    ensures Copies(c, n)[..k] == Copies(c, k)
  {
  }

  /**
   Every call of gsub on n a's and m b's with the replacement bb. After a's alone the result is cut from 1536 on,
   and nothing says so; with b's behind them the buffer is overrun instead.
   */
  lemma Outcome(n: nat, m: nat, hats: bool, fs: seq<Find>)
    requires 0 < n && Right(Language(JustA()), Ab(n, m), hats, BB, fs)
    ensures Answer(Ab(n, m), BB, fs) ==
            if m == 0 then Done(Copies(B, if 2 * n < RECSIZE then 2 * n else RECSIZE - 1), n)
            else if 2 * n + m < RECSIZE - 1 then Done(Copies(B, 2 * n + m), n)
            else if 2 * n + m == RECSIZE - 1 then TooBig
            else Overrun
  {
    hide *;
    NothingStraddles(n, m, hats, fs);
    AllOfThem(n, m, hats);
    EachReplaced(n, m);
    EachPrefix(n, n);
    AnswersHits(Language(JustA()), Ab(n, m), hats, BB, fs, Each(n));
    Cases(Answer(Ab(n, m), BB, fs), 2 * n + m, n, m == 0);
  }

  lemma Cases(r: Result, n: nat, num: nat, ended: bool)
    requires r == Done(Copies(B, n), num) <==> n <= RECSIZE - 2 || (n == RECSIZE - 1 && ended)
    requires n >= RECSIZE ==> (r == Done(Copies(B, n)[..RECSIZE - 1], num) <==> ended)
    requires (r == TooBig <==> n == RECSIZE - 1 && !ended) && (r == Overrun <==> n >= RECSIZE && !ended)
    ensures r == if ended then Done(Copies(B, if n < RECSIZE then n else RECSIZE - 1), num)
                 else if n < RECSIZE - 1 then Done(Copies(B, n), num)
                 else if n == RECSIZE - 1 then TooBig
                 else Overrun
  {
    if n >= RECSIZE { CopiesCut(B, n, RECSIZE - 1); }
  }

  lemma CutAt(hats: bool, fs: seq<Find>)
    requires Right(Language(JustA()), Ab(1536, 0), hats, BB, fs)
    ensures Answer(Ab(1536, 0), BB, fs) == Done(Copies(B, 3071), 1536)
  {
    hide Right, Answer, Copies, Language, Ab;
    Outcome(1536, 0, hats, fs);
  }

  lemma OverrunAt(hats: bool, fs: seq<Find>)
    requires Right(Language(JustA()), Ab(1, 3070), hats, BB, fs)
    ensures Answer(Ab(1, 3070), BB, fs) == Overrun
  {
    hide Right, Answer, Copies, Language, Ab;
    Outcome(1, 3070, hats, fs);
  }

  /** The calls themselves: of 3072 characters that are due one is missing, or the NUL goes behind the buffer. */
  method Show() returns (r: Result, r': Result)
    ensures r == Done(Copies(B, 3071), 1536) && r' == Overrun
  {
    hide *;
    AFits();
    FitsHolds(JustA(), true, FewLists());
    var f := new Fa(JustA(), true, FewLists());
    ghost var run, hats;
    r, run, hats := Gsub(f, Ab(1536, 0), BB);
    CutAt(hats, run.finds);
    r', run, hats := Gsub(f, Ab(1, 3070), BB);
    OverrunAt(hats, run.finds);
  }

  lemma FitsHolds(p: Re, anchor: bool, family: set<seq<nat>>)
    requires Fits(p, anchor, family)
    ensures Closed(Table(p), family) && Home(p, anchor) in family && Entry(p, anchor) in family
    ensures |family| <= NSTATES - 1
  {
  }
}
