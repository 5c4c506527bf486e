/**
 A search of awk (pmatch in usr/src/cmd/awk/b.c) that recycles its table in state 2. The
 expression is thirty a's, or zq. Twenty-nine a's fill the table; when the next start reads z in
 state 2 the table is recycled, and the new state 2, which waits for q, goes to itself on z. So
 zzq after the a's is taken for a match. With zq after the a's the same slip does no harm.
 */
module AwkSlip {
  import opened AwkRegex
  import opened AwkFollow
  import opened AwkDfa
  import opened AwkSearch
  import opened AwkRun
  import opened AwkFa
  import opened AwkLimits

  const A: nat := 97
  const Q: nat := 113
  const Z: nat := 122

  /** How many a's fill the table: states 1 and 2 are there already. */
  const BUSY: nat := NSTATES - 3

  // ----- the expression and its leaves -----

  /** k + 1 a's. */
  function Literal(k: nat): Re {
    if k == 0 then Leaf(0, Char(A)) else Cat(Literal(k - 1), Leaf(0, Char(A)))
  }

  /** k + 1 a's, or zq. */
  function Slipping(k: nat): Re {
    Or(Literal(k), Cat(Leaf(0, Char(Z)), Leaf(0, Char(Q))))
  }

  lemma {:induction false} LiteralProper(k: nat)
    ensures Proper(Literal(k)) && Leaves(Literal(k)) == k + 1 && !Nullable(Literal(k))
    ensures forall base: nat :: FirstSet(Numbered(Literal(k), base)) == {base} && !Nullable(Numbered(Literal(k), base))
  {
    if k > 0 { LiteralProper(k - 1); }
  }

  /** Every a but the last is followed by the next; the last by what follows the literal. */
  lemma {:induction false} LiteralPoints(k: nat, base: nat, ctx: Ctx)
    ensures AsInOrder(Points(Numbered(Literal(k), base), ctx), k, base, FollowSet(ctx))
  {
    if k == 0 {
      OneInOrder(base, ctx);
    } else {
      hide FollowSet, AsInOrder, Points, Numbered, Proper, FirstSet, Nullable;
      var before := CatLeft(Leaf(base + k, Char(A)), ctx);
      var l := Literal(k - 1);
      LiteralProper(k - 1);
      LiteralPoints(k - 1, base, before);
      BeforeLeaf(base + k, ctx);
      AsInOrderMore(Points(Numbered(l, base), before), k, base, ctx);
      CatLeafPoints(l, k, base, ctx);
    }
  }

  lemma CatLeafPoints(l: Re, k: nat, base: nat, ctx: Ctx)
    requires Leaves(l) == k
    ensures Points(Numbered(Cat(l, Leaf(0, Char(A))), base), ctx) ==
            Points(Numbered(l, base), CatLeft(Leaf(base + k, Char(A)), ctx)) + [At(Char(A), CatRight(ctx))]
  {
  }

  lemma OneInOrder(base: nat, ctx: Ctx)
    ensures AsInOrder([At(Char(A), ctx)], 0, base, FollowSet(ctx))
  {
  }

  ghost predicate AsInOrder(u: seq<At>, k: nat, base: nat, last: set<nat>) {
    && |u| == k + 1
    && (forall j | 0 <= j <= k :: u[j].sym == Char(A))
    && (forall j | 0 <= j < k :: FollowSet(u[j].ctx) == {base + j + 1})
    && FollowSet(u[k].ctx) == last
  }

  lemma BeforeLeaf(q: nat, ctx: Ctx)
    ensures FollowSet(CatLeft(Leaf(q, Char(A)), ctx)) == {q} && FollowSet(CatRight(ctx)) == FollowSet(ctx)
  {
  }

  lemma AsInOrderMore(u: seq<At>, k: nat, base: nat, ctx: Ctx)
    requires 0 < k && AsInOrder(u, k - 1, base, {base + k})
    ensures AsInOrder(u + [At(Char(A), CatRight(ctx))], k, base, FollowSet(ctx))
  {
    hide FollowSet;
    BeforeLeaf(0, ctx);
  }

  function Tail(k: nat): Re {
    Cat(Leaf(k + 2, Char(Z)), Leaf(k + 3, Char(Q)))
  }

  lemma SlippingUser(k: nat)
    ensures Proper(Slipping(k)) && Leaves(Slipping(k)) == k + 3
    ensures User(Slipping(k)) == Or(Numbered(Literal(k), 1), Tail(k))
    ensures FirstSet(User(Slipping(k))) == {1, k + 2} && !Nullable(User(Slipping(k)))
  {
    LiteralProper(k);
    hide Literal;
    assert Numbered(Slipping(k).right, k + 2) == Tail(k);
    OrUser(Literal(k), Slipping(k).right, k);
  }

  lemma OrUser(l: Re, r: Re, k: nat)
    requires Leaves(l) == k + 1 && Numbered(r, k + 2) == Tail(k)
    requires FirstSet(Numbered(l, 1)) == {1} && !Nullable(Numbered(l, 1))
    ensures User(Or(l, r)) == Or(Numbered(l, 1), Tail(k))
    ensures FirstSet(User(Or(l, r))) == {1, k + 2} && !Nullable(User(Or(l, r)))
  {
    assert FirstSet(Tail(k)) == {k + 2};
  }

  lemma TailPoints(k: nat, ctx: Ctx)
    ensures var u := Points(Tail(k), ctx);
            && |u| == 2 && u[0].sym == Char(Z) && u[1].sym == Char(Q)
            && FollowSet(u[0].ctx) == {k + 3} && FollowSet(u[1].ctx) == FollowSet(ctx)
  {
    var last := Leaf(k + 3, Char(Q));
    assert Points(Tail(k), ctx) == Points(Leaf(k + 2, Char(Z)), CatLeft(last, ctx)) + Points(last, CatRight(ctx));
  }

  /** Positions 1..k+1 are the a's, k+2 is z, k+3 is q and k+4 the end. */
  ghost predicate Chain(pts: seq<At>, k: nat) {
    && |pts| == k + 5 && pts[k + 4].sym == Final
    && (forall j | 1 <= j <= k + 1 :: pts[j].sym == Char(A))
    && (forall j | 1 <= j <= k :: FollowSet(pts[j].ctx) == {j + 1})
    && pts[k + 2].sym == Char(Z) && FollowSet(pts[k + 2].ctx) == {k + 3}
    && pts[k + 3].sym == Char(Q) && FollowSet(pts[k + 3].ctx) == {k + 4}
  }

  lemma SlippingTable(k: nat)
    ensures Proper(Slipping(k)) && Bare(Slipping(k)) == {1, k + 2} && EntryState(Slipping(k)) == 2
    ensures Chain(Table(Slipping(k)), k)
  {
    hide Table, Chain, Points, Slipping;
    var p := Slipping(k);
    SlippingUser(k);
    ZeroOnlyFollowsZero(p);
    SlippingChain(k);
    NoHat(p, k);
  }

  lemma SlippingChain(k: nat)
    ensures Chain(Table(Slipping(k)), k)
  {
    var p := Slipping(k);
    SlippingUser(k);
    TableShape(p);
    hide Table, Slipping, User, Proper, Numbered;
    var ctx := CatRight(AfterUser(p));
    var u, v := Points(Numbered(Literal(k), 1), InOr(ctx)), Points(Tail(k), InOr(ctx));
    LiteralPoints(k, 1, InOr(ctx));
    TailPoints(k, InOr(ctx));
    assert Points(User(p), ctx) == u + v;
    assert FollowSet(InOr(ctx)) == FollowSet(AfterUser(p)) == {k + 4};
    ChainOf(Table(p), Table(p)[0], u, v, Table(p)[k + 4], k);
  }

  lemma ChainOf(pts: seq<At>, all: At, u: seq<At>, v: seq<At>, fin: At, k: nat)
    requires pts == [all] + (u + v) + [fin] && fin.sym == Final && |u| == k + 1 && |v| == 2
    requires forall j | 0 <= j <= k :: u[j].sym == Char(A)
    requires forall j | 0 <= j < k :: FollowSet(u[j].ctx) == {1 + j + 1}
    requires v[0].sym == Char(Z) && v[1].sym == Char(Q) && FollowSet(v[0].ctx) == {k + 3} &&
             FollowSet(v[1].ctx) == {k + 4}
    ensures Chain(pts, k)
  {
    hide FollowSet;
    forall j | 1 <= j <= k + 1 ensures pts[j] == u[j - 1] {}
    assert pts[k + 2] == v[0] && pts[k + 3] == v[1];
  }

  lemma NoHat(p: Re, k: nat)
    requires Proper(p) && Chain(Table(p), k) && Bare(p) == {1, k + 2}
    ensures EntryState(p) == 2
  {
    hide Chain, Step, Table, Scanning, ScanningHat;
    StartSets(p);
    BareHatSplits(p);
    NoneOnHat(Table(p), k);
    assert BareHat(p) == Bare(p);
  }

  lemma NoneOnHat(pts: seq<At>, k: nat)
    requires Chain(pts, k)
    ensures Step(pts, {1, k + 2}, HAT) == {}
  {
    assert {1, k + 2} == {1} + {k + 2};
    StepUnion(pts, {1}, {k + 2}, HAT);
    StepOne(pts, 1, HAT);
    StepOne(pts, k + 2, HAT);
  }

  // ----- lists -----

  lemma NextOfOne(pts: seq<At>, q: nat, r: nat, c: nat)
    requires q < |pts| && r < |pts| && Matches(pts[q].sym, c) && FollowSet(pts[q].ctx) == {r}
    ensures NextList(pts, [q], c) == [r]
  {
    StepOne(pts, q, c);
    assert Elems([q]) == {q} && Elems([r]) == {r};
    DescOf(pts, {r}, [r]);
  }

  lemma NextOfNone(pts: seq<At>, q: nat, c: nat)
    requires q < |pts| && !Matches(pts[q].sym, c)
    ensures NextList(pts, [q], c) == []
  {
    StepOne(pts, q, c);
    assert Elems([q]) == {q};
    DescNone(|pts|);
  }

  lemma NextOfTwo(pts: seq<At>, q: nat, q': nat, r: nat, c: nat)
    requires q < |pts| && q' < |pts| && r < |pts| && FollowSet(pts[q].ctx) == {r}
    requires Matches(pts[q].sym, c) && !Matches(pts[q'].sym, c)
    ensures NextList(pts, [q, q'], c) == [r] && NextList(pts, [q', q], c) == [r]
  {
    StepTwo(pts, q, q', c);
    assert Elems([q, q']) == {q', q} && Elems([q', q]) == {q', q} && Elems([r]) == {r};
    DescOf(pts, {r}, [r]);
  }

  // ----- filling the table -----

  /** States 3..cur are the single positions 2..cur-1, each reached from the one before by a; none goes on by z. */
  ghost predicate Filling(T: Tab) {
    && Shape(T) && !T.reset && T.posns[1] == [] && T.posns[2] == [BUSY + 2, 1]
    && (forall s | 3 <= s <= T.cur :: T.posns[s] == [s - 1])
    && (forall s | 2 <= s <= T.cur :: !T.out[s])
    && (forall s | 2 <= s < T.cur :: T.go[s][A] == s + 1) && T.go[T.cur][A] == 0
    && (forall s | 3 <= s <= T.cur :: T.go[s][Z] <= 1) && T.go[2][Z] == 0
  }

  ghost predicate Ours(p: Re, T: Tab) {
    Held(p, true, T) && Chain(Table(p), BUSY) && Accept(p) == BUSY + 4
  }

  lemma ReadA(p: Re, T: Tab, s: nat)
    requires Ours(p, T) && Filling(T) && 2 <= s <= T.cur && s < NSTATES - 1
    ensures var (T', n) := Go(p, true, T, s, A);
            Filling(T') && n == s + 1 && T'.cur == (if s < T.cur then T.cur else s + 1) && !GoSlips(p, T, s, A)
  {
    hide Held, Chain;
    HeldShape(p, true, T);
    if s == T.cur {
      AfterA(Table(p), s, T.posns[s]);
      Added(p, T, s);
    }
  }

  lemma AfterA(pts: seq<At>, s: nat, l: seq<nat>)
    requires Chain(pts, BUSY) && 2 <= s < NSTATES - 1 && l == if s == 2 then [BUSY + 2, 1] else [s - 1]
    ensures NextList(pts, l, A) == [s] && |pts| == BUSY + 5
  {
    hide NextList;
    if s == 2 { NextOfTwo(pts, 1, BUSY + 2, 2, A); } else { NextOfOne(pts, s - 1, s, A); }
  }

  lemma Added(p: Re, T: Tab, s: nat)
    requires Filling(T) && T.cur == s < NSTATES - 1
    ensures var (T', n) := Enter(T, s, A, [s], false);
            Filling(T') && n == T'.cur == s + 1 && !Recycles(T, [s])
  {
    assert forall k | 1 <= k <= T.cur :: T.posns[k] != [s];
  }

  lemma ReadZ(p: Re, T: Tab, s: nat)
    requires Ours(p, T) && Filling(T) && 3 <= s <= T.cur
    ensures var (T', n) := Go(p, true, T, s, Z);
            Filling(T') && n == 1 && T'.cur == T.cur && !GoSlips(p, T, s, Z)
  {
    hide Held, Chain;
    HeldShape(p, true, T);
    AfterZ(Table(p), s);
    assert Find(T.posns, 1, T.cur, []) == 1;
  }

  lemma AfterZ(pts: seq<At>, s: nat)
    requires Chain(pts, BUSY) && 3 <= s < NSTATES
    ensures NextList(pts, [s - 1], Z) == []
  {
    NextOfNone(pts, s - 1, Z);
  }

  /** n a's and what comes after them. */
  function Text(n: nat, rest: seq<nat>): (t: seq<nat>)
    ensures |t| == n + |rest| && (forall k | 0 <= k < n :: t[k] == A) &&
            (forall k | 0 <= k < |rest| :: t[n + k] == rest[k])
  {
    seq(n, _ => A) + rest
  }

  /** A start among the a's, but not after the last of them, ends in failure and leaves the table as full as it gets. */
  lemma {:induction false} FailedStart(p: Re, T: Tab, text: seq<nat>, i: nat, q: nat)
    requires Ours(p, T) && Filling(T) && IsText(text) && BUSY < |text| && text[BUSY] == Z
    requires (forall k | 0 <= k < BUSY :: text[k] == A) && i < BUSY && i <= q <= BUSY && 2 + q - i <= T.cur
    ensures var a := ScanOn(p, T, text, i, q, 2 + q - i, -1, false);
            Filling(a.t) && a.len == -1 && !a.slip && T.cur <= a.t.cur && 2 + BUSY - i <= a.t.cur
    decreases BUSY - q
  {
    hide Held, Chain, Go, GoSlips;
    var s := 2 + q - i;
    HeldShape(p, true, T);
    if q < BUSY {
      ReadA(p, T, s);
      FailedStart(p, Go(p, true, T, s, A).0, text, i, q + 1);
    } else {
      ReadZ(p, T, s);
    }
  }

  lemma {:induction false} FailedStarts(p: Re, T: Tab, text: seq<nat>, b: nat) returns (T': Tab)
    requires Ours(p, T) && Filling(T) && IsText(text) && BUSY < |text| && text[BUSY] == Z
    requires (forall k | 0 <= k < BUSY :: text[k] == A) && b <= BUSY && (b > 0 ==> T.cur == NSTATES - 1)
    ensures Ours(p, T') && Filling(T') && T'.cur == NSTATES - 1
    ensures SearchOn(p, T, text, 0, b, 2, -1, 2, false) == SearchOn(p, T', text, 0, BUSY, 2, -1, 2, false)
    decreases BUSY - b
  {
    T' := T;
    if b < BUSY {
      FailedStart(p, T, text, b, b);
      T' := FailedStarts(p, ScanOn(p, T, text, b, b, 2, -1, false).t, text, b + 1);
    }
  }

  // ----- the slip -----

  /** State 2 waits for q and goes to itself on z. */
  ghost predicate Slipped(T: Tab) {
    && Shape(T) && T.reset && T.cur == 2 && T.posns[1] == [] && T.posns[2] == [BUSY + 3]
    && !T.out[2] && T.go[2][Z] == 2 && T.go[2][Q] == 0
  }

  lemma ReadZSlips(p: Re, T: Tab)
    requires Ours(p, T) && Filling(T) && T.cur == NSTATES - 1
    ensures var (T', n) := Go(p, true, T, 2, Z);
            Slipped(T') && n == 2 && GoSlips(p, T, 2, Z)
  {
    var pts := Table(p);
    NextOfTwo(pts, BUSY + 2, 1, BUSY + 3, Z);
    NextOfNone(pts, BUSY + 3, Z);
    assert forall k | 1 <= k <= T.cur :: T.posns[k] != [BUSY + 3];
    assert Find(T.posns, 1, T.cur, [BUSY + 3]) == 0;
  }

  /** From the new state 2, q leads to an accepting state that nothing leaves. */
  lemma ReadQ(p: Re, T: Tab)
    requires Ours(p, T) && Slipped(T)
    ensures var (T', n) := Go(p, true, T, 2, Q);
            n == 3 && T'.out[3] && Go(p, true, T', 3, 0).1 == 1
  {
    var pts := Table(p);
    NextOfOne(pts, BUSY + 3, BUSY + 4, Q);
    NextOfNone(pts, BUSY + 4, 0);
    assert Find(T.posns, 3, 2, [BUSY + 4]) == Find(T.posns, 2, 2, [BUSY + 4]) == 0;
    var (T', n) := Go(p, true, T, 2, Q);
    assert Find(T'.posns, 1, T'.cur, []) == 1;
  }

  lemma ScanQ(p: Re, T: Tab, text: seq<nat>, i: nat)
    requires Ours(p, T) && Slipped(T) && IsText(text) && i < |text| && text[|text| - 1] == Q
    ensures ScanOn(p, T, text, i, |text| - 1, 2, -1, true).len == |text| - i
  {
    hide Held, Go, GoSlips;
    var n := |text|;
    ReadQ(p, T);
    var T' := Go(p, true, T, 2, Q).0;
    HeldShape(p, true, T');
    var T2 := Go(p, true, T', 3, 0).0;
    assert ScanOn(p, T2, text, i, n + 1, 1, n - i, true).len == n - i;
    assert ScanOn(p, T', text, i, n, 3, -1, true).len == n - i;
  }

  lemma ScanZ(p: Re, T: Tab, text: seq<nat>, i: nat, q: nat)
    requires Ours(p, T) && Slipped(T) && IsText(text) && i <= q < |text| && text[q] == Z
    ensures ScanOn(p, T, text, i, q, 2, -1, true) == ScanOn(p, T, text, i, q + 1, 2, -1, true)
  {
    assert Go(p, true, T, 2, Z) == (T, 2);
  }

  /** What a search answers when the a's are followed by one z or two and then, last, q. */
  lemma LastStart(p: Re, T: Tab, text: seq<nat>)
    requires Ours(p, T) && Filling(T) && T.cur == NSTATES - 1 && IsText(text)
    requires text == Text(BUSY, [Z, Q]) || text == Text(BUSY, [Z, Z, Q])
    ensures var r := SearchOn(p, T, text, 0, BUSY, 2, -1, 2, false);
            r.found && r.patbeg == BUSY && r.patlen == |text| - BUSY && r.slip
  {
    hide Held, Go, GoSlips;
    var rest := text[BUSY..];
    assert text[BUSY] == rest[0] && text[BUSY + 1] == rest[1] && text[|text| - 1] == rest[|rest| - 1];
    ReadZSlips(p, T);
    var T' := Go(p, true, T, 2, Z).0;
    assert ScanOn(p, T, text, BUSY, BUSY, 2, -1, false) == ScanOn(p, T', text, BUSY, BUSY + 1, 2, -1, true);
    if |text| == BUSY + 3 { ScanZ(p, T', text, BUSY, BUSY + 1); }
    ScanQ(p, T', text, BUSY);
  }

  // ----- what the expression matches -----

  predicate AllA(w: Word, n: nat) {
    |w| == n && forall m | 0 <= m < |w| :: w[m] == A
  }

  lemma {:induction false} LiteralLang(k: nat, w: Word)
    ensures Lang(Literal(k), w) <==> AllA(w, k + 1)
    decreases k
  {
    hide AllA;
    AllALong(w, k + 1);
    if k == 0 {
      OneA(w);
    } else {
      var one := Leaf(0, Char(A));
      if Lang(Literal(k), w) {
        var i := CatElim(Literal(k - 1), one, w);
        LiteralLang(k - 1, w[..i]);
        OneA(w[i..]);
        AllASplit(w, i, k);
      }
      if |w| == k + 1 && AllA(w, k + 1) {
        AllASplit(w, k, k);
        LiteralLang(k - 1, w[..k]);
        OneA(w[k..]);
        CatIntro(Literal(k - 1), one, w, k);
      }
    }
  }

  lemma CatElim(l: Re, r: Re, w: Word) returns (i: nat)
    requires Lang(Cat(l, r), w)
    ensures i <= |w| && Lang(l, w[..i]) && Lang(r, w[i..])
  {
    i :| 0 <= i <= |w| && Lang(l, w[..i]) && Lang(r, w[i..]);
  }

  lemma AllALong(w: Word, n: nat)
    ensures AllA(w, n) ==> |w| == n
  {
  }

  lemma OneA(w: Word)
    ensures Lang(Leaf(0, Char(A)), w) <==> AllA(w, 1)
  {
  }

  lemma AllASplit(w: Word, i: nat, k: nat)
    requires i <= |w|
    ensures AllA(w[..i], k) && AllA(w[i..], 1) ==> AllA(w, k + 1)
    ensures AllA(w, k + 1) && i == k ==> AllA(w[..i], k) && AllA(w[i..], 1)
  {
    assert w == w[..i] + w[i..];
  }

  lemma ZqLang(w: Word)
    ensures Lang(Cat(Leaf(0, Char(Z)), Leaf(0, Char(Q))), w) <==> w == [Z, Q]
  {
    if w == [Z, Q] {
      assert w[..1] == [Z] && w[1..] == [Q];
    }
  }

  lemma SlippingLang(k: nat, w: Word)
    ensures Lang(Slipping(k), w) <==> w == [Z, Q] || AllA(w, k + 1)
  {
    LiteralLang(k, w);
    ZqLang(w);
  }

  /** In a text with no a from character k on, the expression matches exactly where zq stands. */
  lemma OnlyZq(k: nat, text: seq<nat>, i: nat, j: nat)
    requires IsText(text) && i <= j <= |text| && k < |text| && forall m | k <= m < |text| :: text[m] != A
    ensures MatchAt(Slipping(k), text, true, i, j) <==> j == i + 2 && text[i] == Z && text[i + 1] == Q
  {
    hide Lang, WordOf, Slipping, IsText;
    OnlyZqWord(k, text, i, j, false, false);
    OnlyZqWord(k, text, i, j, false, true);
    OnlyZqWord(k, text, i, j, true, false);
    OnlyZqWord(k, text, i, j, true, true);
  }

  lemma OnlyZqWord(k: nat, text: seq<nat>, i: nat, j: nat, hat: bool, nul: bool)
    requires i <= j <= |text| && k < |text| && forall m | k <= m < |text| :: text[m] != A
    ensures Lang(Slipping(k), WordOf(text, hat, i, j, nul)) <==>
            !hat && !nul && j == i + 2 && text[i] == Z && text[i + 1] == Q
  {
    hide Lang, Slipping;
    var w := WordOf(text, hat, i, j, nul);
    SlippingLang(k, w);
    if hat {
      assert w[0] == HAT;
    } else if nul {
      assert w[|w| - 1] == 0;
    } else {
      assert w == text[i..j];
      if j == i + 2 { assert w == [text[i], text[i + 1]]; }
      if |w| == k + 1 {
        var m := if i <= k then k - i else 0;
        assert w[m] == text[i + m];
      }
    }
  }

  // ----- the two searches -----

  /** The table a search begins with in a new automaton of the expression. */
  ghost predicate NewTable(T: Tab) {
    var p := Slipping(BUSY);
    Held(p, true, T) && Initial(Table(p), Home(p, true), Entry(p, true), T)
  }

  lemma HomeList()
    ensures var p := Slipping(BUSY);
            Home(p, true) == Entry(p, true) == [BUSY + 2, 1] && Chain(Table(p), BUSY) && Accept(p) == BUSY + 4
  {
    hide Table, Slipping, BareHat, Bare, Chain, Scanning, EntryState, Leaves, Proper, Numbered, FirstSet, User,
        Nullable;
    var p := Slipping(BUSY);
    SlippingTable(BUSY);
    SlippingUser(BUSY);
    ChainLong(Table(p));
    HomeEntry(p, true);
    assert Elems([BUSY + 2, 1]) == {1, BUSY + 2};
    DescOf(Table(p), {1, BUSY + 2}, [BUSY + 2, 1]);
  }

  lemma ChainLong(pts: seq<At>)
    requires Chain(pts, BUSY)
    ensures |pts| == BUSY + 5
  {
  }

  lemma NewTableFills(T: Tab)
    requires NewTable(T)
    ensures Ours(Slipping(BUSY), T) && Filling(T) && T.cur == 2
  {
    hide Table, Slipping, Held, Home, Entry, Chain;
    HomeList();
    HeldShape(Slipping(BUSY), true, T);
    HeldOut(Slipping(BUSY), T);
  }

  lemma HeldOut(p: Re, T: Tab)
    requires Held(p, true, T) && 2 <= T.cur
    ensures Good(Table(p), T) && (T.out[2] <==> Accept(p) in T.posns[2]) && T.posns[1] == []
  {
    hide Table;
    OutIsAccept(p, T, 2);
  }

  lemma Reported(T: Tab, text: seq<nat>)
    requires NewTable(T) && (text == Text(BUSY, [Z, Q]) || text == Text(BUSY, [Z, Z, Q]))
    ensures IsText(text)
    ensures var r := SearchOn(Slipping(BUSY), T, text, 0, 0, 2, -1, 2, false);
            r.found && r.patbeg == BUSY && r.patlen == |text| - BUSY && r.slip
  {
    hide Held, NewTable, Chain, Filling, Slipping, SearchOn;
    var p, rest := Slipping(BUSY), text[BUSY..];
    assert forall k | BUSY <= k < |text| :: text[k] == rest[k - BUSY];
    NewTableFills(T);
    var T' := FailedStarts(p, T, text, 0);
    LastStart(p, T', text);
  }

  /** The text of an example, with zq at b only. */
  ghost predicate ZqAt(text: seq<nat>, b: nat) {
    && |text| == b + 2 && BUSY <= b <= BUSY + 1 && IsText(text)
    && (forall m | BUSY <= m < |text| :: text[m] != A)
    && text[b] == Z && (forall m | 0 <= m < |text| :: text[m] == Q <==> m == b + 1)
  }

  lemma ZqThere(text: seq<nat>, b: nat)
    requires (b == BUSY && text == Text(BUSY, [Z, Q])) || (b == BUSY + 1 && text == Text(BUSY, [Z, Z, Q]))
    ensures ZqAt(text, b)
  {
    hide Text;
    var rest := if b == BUSY then [Z, Q] else [Z, Z, Q];
    assert text[b] == rest[b - BUSY] && text[b + 1] == rest[b + 1 - BUSY];
    forall m | 0 <= m < |text|
      ensures (m < BUSY ==> text[m] == A) && (BUSY <= m < b ==> text[m] == Z) && 0 < text[m] < HAT {
      if m >= BUSY { assert text[BUSY + (m - BUSY)] == rest[m - BUSY]; }
    }
  }

  lemma OnlyZqHere(text: seq<nat>, b: nat)
    requires (b == BUSY && text == Text(BUSY, [Z, Q])) || (b == BUSY + 1 && text == Text(BUSY, [Z, Z, Q]))
    ensures IsText(text)
    ensures forall i, j | 0 <= i <= j <= |text| :: MatchAt(Slipping(BUSY), text, true, i, j) <==> i == b && j == b + 2
  {
    hide MatchAt, Slipping, Text;
    ZqThere(text, b);
    forall i, j | 0 <= i <= j <= |text| ensures MatchAt(Slipping(BUSY), text, true, i, j) <==> i == b && j == b + 2 {
      OnlyZq(BUSY, text, i, j);
    }
  }

  /** A new automaton of the expression, called with one of the two texts. */
  ghost function FirstCall(rest: seq<nat>): (r: Sought)
    requires rest == [Z, Q] || rest == [Z, Z, Q]
  {
    var p := Slipping(BUSY);
    SlippingTable(BUSY);
    OnlyZqHere(Text(BUSY, rest), BUSY + |rest| - 2);
    Call(p, New(p, true), EntryState(p), Text(BUSY, rest), 0)
  }

  lemma FirstAnswer(rest: seq<nat>)
    requires rest == [Z, Q] || rest == [Z, Z, Q]
    ensures var r := FirstCall(rest); r.slip && r.found && r.patbeg == BUSY && r.patlen == |rest|
  {
    hide Slipping, SearchOn, Table, Held, Text, Initial;
    SlippingTable(BUSY);
    OnlyZqHere(Text(BUSY, rest), BUSY + |rest| - 2);
    NotReset(New(Slipping(BUSY), true));
    Reported(New(Slipping(BUSY), true), Text(BUSY, rest));
  }

  lemma NotReset(T: Tab)
    requires NewTable(T)
    ensures !T.reset
  {
  }

  /** aaa...azzq: pmatch reports zzq, although only zq matches. */
  lemma WrongAnswer()
    ensures var p, text, r := Slipping(BUSY), Text(BUSY, [Z, Z, Q]), FirstCall([Z, Z, Q]);
            && r.slip && r.found && r.patbeg == BUSY && r.patlen == 3
            && !MatchAt(p, text, true, BUSY, BUSY + 3) && LeftmostLongest(p, text, true, 0, BUSY + 1, 2)
  {
    hide Slipping, MatchAt, FirstCall;
    FirstAnswer([Z, Z, Q]);
    OnlyZqHere(Text(BUSY, [Z, Z, Q]), BUSY + 1);
  }

  /** aaa...azq: the same slip, and the answer is right. No slip is enough for right answers, but not necessary. */
  lemma RightAnswer()
    ensures var p, text, r := Slipping(BUSY), Text(BUSY, [Z, Q]), FirstCall([Z, Q]);
            && r.slip && r.found && r.patbeg == BUSY && r.patlen == 2
            && LeftmostLongest(p, text, true, 0, BUSY, 2)
  {
    hide Slipping, MatchAt, FirstCall;
    FirstAnswer([Z, Q]);
    OnlyZqHere(Text(BUSY, [Z, Q]), BUSY);
  }

  /** The wrong answer from the automaton object itself. */
  method Show() returns (found: bool, patbeg: nat, patlen: int)
    ensures found && patbeg == BUSY && patlen == 3
    ensures !MatchAt(Slipping(BUSY), Text(BUSY, [Z, Z, Q]), true, patbeg, patbeg + patlen)
  {
    hide Table, AwkRun.Call, Held, Based, Keeps, Occurs, LeftmostLongest, Closed, Home, Entry, Initial, AllLists,
        Slipping, MatchAt, Text, IsText, Bare, EntryState, Chain;
    var p, text := Slipping(BUSY), Text(BUSY, [Z, Z, Q]);
    SlippingTable(BUSY);
    ClosedFamilyExists(p, true);
    OnlyZqHere(text, BUSY + 1);
    var f := new Fa(p, true, AllLists(|Table(p)|));
    ghost var hats, slip;
    found, patbeg, patlen, hats, slip := f.Pmatch(text);
    WrongAnswer();
  }
}
