/**
 The regular expressions of awk (usr/src/cmd/awk/b.c): parse trees, the language a tree
 denotes, and the automaton whose states are sets of leaf positions.

 A node's parent pointer is modelled by the context the node stands in: following `up`
 in a `Ctx` is following parent() in the source.
 */
module AwkRegex {

  const NCHARS: nat := 129
  const HAT: nat := NCHARS - 1
  const END: int := -1

  /** The value of a leaf. A class is the text that cclenter left behind. */
  datatype Sym = Char(c: nat) | Dot | All | Ccl(cls: seq<nat>) | Nccl(cls: seq<nat>) | Final

  datatype Re =
    | Leaf(pos: nat, sym: Sym)
    | Star(r: Re)
    | Plus(r: Re)
    | Quest(r: Re)
    | Cat(left: Re, right: Re)
    | Or(left: Re, right: Re)

  datatype Ctx =
    | Root
    | InStar(child: Re, up: Ctx)
    | InPlus(child: Re, up: Ctx)
    | InQuest(up: Ctx)
    | InOr(up: Ctx)
    | CatLeft(right: Re, up: Ctx)
    | CatRight(up: Ctx)

  type Word = seq<int>

  // ----- leaves and symbols -----

  /** member(c, s): a scan of a NUL-terminated class. */
  predicate Member(c: int, cls: seq<nat>) {
    c != 0 && c in cls
  }

  /** The test cgoto applies to a leaf, with the end of the match as the only symbol FINAL takes. */
  predicate Matches(s: Sym, c: int) {
    match s
    case Char(v) => c == v
    case Dot => c != 0 && c != HAT && c != END
    case All => c != 0 && c != END
    case Ccl(cls) => Member(c, cls)
    case Nccl(cls) => !Member(c, cls) && c != 0 && c != HAT && c != END
    case Final => c == END
  }

  predicate EmptyClass(s: Sym) {
    s.Ccl? && s.cls == []
  }

  // ----- the language of a tree -----

  /** What a tree denotes; an empty class stands for the empty string. */
  ghost predicate Lang(t: Re, w: Word)
    decreases t, 0
  {
    match t
    case Leaf(_, s) => if EmptyClass(s) then w == [] else |w| == 1 && Matches(s, w[0])
    case Star(r) => StarLang(r, w)
    case Plus(r) => exists i | 0 <= i <= |w| :: Lang(r, w[..i]) && StarLang(r, w[i..])
    case Quest(r) => w == [] || Lang(r, w)
    case Cat(l, r) => exists i | 0 <= i <= |w| :: Lang(l, w[..i]) && Lang(r, w[i..])
    case Or(l, r) => Lang(l, w) || Lang(r, w)
  }

  ghost predicate StarLang(r: Re, w: Word)
    decreases r, 1 + |w|
  {
    w == [] || exists i | 0 < i <= |w| :: Lang(r, w[..i]) && StarLang(r, w[i..])
  }

  /** What may follow a subtree in its context. */
  ghost predicate Cont(ctx: Ctx, w: Word)
    decreases ctx
  {
    match ctx
    case Root => w == []
    case InStar(c, up) => exists i | 0 <= i <= |w| :: StarLang(c, w[..i]) && Cont(up, w[i..])
    case InPlus(c, up) => exists i | 0 <= i <= |w| :: StarLang(c, w[..i]) && Cont(up, w[i..])
    case CatLeft(r, up) => exists i | 0 <= i <= |w| :: Lang(r, w[..i]) && Cont(up, w[i..])
    case InQuest(up) => Cont(up, w)
    case InOr(up) => Cont(up, w)
    case CatRight(up) => Cont(up, w)
  }

  // ----- first and follow -----

  /** Whether first() reports that p matches the empty string. */
  predicate Nullable(t: Re) {
    match t
    case Leaf(_, s) => EmptyClass(s)
    case Star(_) => true
    case Quest(_) => true
    case Plus(r) => Nullable(r)
    case Cat(l, r) => Nullable(l) && Nullable(r)
    case Or(l, r) => Nullable(l) || Nullable(r)
  }

  function FirstSet(t: Re): set<nat> {
    match t
    case Leaf(p, _) => {p}
    case Star(r) => FirstSet(r)
    case Plus(r) => FirstSet(r)
    case Quest(r) => FirstSet(r)
    case Cat(l, r) => FirstSet(l) + (if Nullable(l) then FirstSet(r) else {})
    case Or(l, r) => FirstSet(r) + FirstSet(l)
  }

  function FollowSet(ctx: Ctx): set<nat> {
    match ctx
    case Root => {}
    case InStar(c, up) => FirstSet(c) + FollowSet(up)
    case InPlus(c, up) => FirstSet(c) + FollowSet(up)
    case InQuest(up) => FollowSet(up)
    case InOr(up) => FollowSet(up)
    case CatLeft(r, up) => FirstSet(r) + (if Nullable(r) then FollowSet(up) else {})
    case CatRight(up) => FollowSet(up)
  }

  // ----- positions -----

  datatype At = At(sym: Sym, ctx: Ctx)

  function Leaves(t: Re): nat {
    match t
    case Leaf(_, _) => 1
    case Star(r) => Leaves(r)
    case Plus(r) => Leaves(r)
    case Quest(r) => Leaves(r)
    case Cat(l, r) => Leaves(l) + Leaves(r)
    case Or(l, r) => Leaves(l) + Leaves(r)
  }

  /** penter: the leaves of t are numbered from base upward, left to right. */
  function Numbered(t: Re, base: nat): Re {
    match t
    case Leaf(_, s) => Leaf(base, s)
    case Star(r) => Star(Numbered(r, base))
    case Plus(r) => Plus(Numbered(r, base))
    case Quest(r) => Quest(Numbered(r, base))
    case Cat(l, r) => Cat(Numbered(l, base), Numbered(r, base + Leaves(l)))
    case Or(l, r) => Or(Numbered(l, base), Numbered(r, base + Leaves(l)))
  }

  /** The table point[]: the leaves of t in order, each with the context it stands in. */
  function Points(t: Re, ctx: Ctx): (pts: seq<At>)
    ensures |pts| == Leaves(t)
  {
    match t
    case Leaf(_, s) => [At(s, ctx)]
    case Star(r) => Points(r, InStar(r, ctx))
    case Plus(r) => Points(r, InPlus(r, ctx))
    case Quest(r) => Points(r, InQuest(ctx))
    case Cat(l, r) => Points(l, CatLeft(r, ctx)) + Points(r, CatRight(ctx))
    case Or(l, r) => Points(l, InOr(ctx)) + Points(r, InOr(ctx))
  }

  /** Every leaf of t, seen in ctx, is what the table says at its number. */
  ghost predicate Placed(t: Re, ctx: Ctx, pts: seq<At>) {
    match t
    case Leaf(p, s) => p < |pts| && pts[p] == At(s, ctx)
    case Star(r) => Placed(r, InStar(r, ctx), pts)
    case Plus(r) => Placed(r, InPlus(r, ctx), pts)
    case Quest(r) => Placed(r, InQuest(ctx), pts)
    case Cat(l, r) => Placed(l, CatLeft(r, ctx), pts) && Placed(r, CatRight(ctx), pts)
    case Or(l, r) => Placed(l, InOr(ctx), pts) && Placed(r, InOr(ctx), pts)
  }

  ghost predicate CtxPlaced(ctx: Ctx, pts: seq<At>) {
    match ctx
    case Root => true
    case InStar(c, up) => Placed(c, ctx, pts) && CtxPlaced(up, pts)
    case InPlus(c, up) => Placed(c, ctx, pts) && CtxPlaced(up, pts)
    case CatLeft(r, up) => Placed(r, CatRight(up), pts) && CtxPlaced(up, pts)
    case InQuest(up) => CtxPlaced(up, pts)
    case InOr(up) => CtxPlaced(up, pts)
    case CatRight(up) => CtxPlaced(up, pts)
  }

  /** The points of a numbered subtree appear in the table from its base on. */
  ghost predicate HoldsAt(pts: seq<At>, base: nat, part: seq<At>) {
    base + |part| <= |pts| && forall k | 0 <= k < |part| :: pts[base + k] == part[k]
  }

  lemma {:induction false} NumberedIsPlaced(t: Re, base: nat, ctx: Ctx, pts: seq<At>)
    requires HoldsAt(pts, base, Points(Numbered(t, base), ctx))
    ensures Placed(Numbered(t, base), ctx, pts)
  {
    hide HoldsAt;
    match t
    case Leaf(_, s) => HoldsOne(pts, base, At(s, ctx));
    case Star(r) => NumberedIsPlaced(r, base, InStar(Numbered(r, base), ctx), pts);
    case Plus(r) => NumberedIsPlaced(r, base, InPlus(Numbered(r, base), ctx), pts);
    case Quest(r) => NumberedIsPlaced(r, base, InQuest(ctx), pts);
    case Cat(l, r) =>
      var l', r' := Numbered(l, base), Numbered(r, base + Leaves(l));
      LeavesNumbered(l, base);
      HoldsSplit(pts, base, Points(l', CatLeft(r', ctx)), Points(r', CatRight(ctx)));
      NumberedIsPlaced(l, base, CatLeft(r', ctx), pts);
      NumberedIsPlaced(r, base + Leaves(l), CatRight(ctx), pts);
    case Or(l, r) =>
      var l', r' := Numbered(l, base), Numbered(r, base + Leaves(l));
      LeavesNumbered(l, base);
      HoldsSplit(pts, base, Points(l', InOr(ctx)), Points(r', InOr(ctx)));
      NumberedIsPlaced(l, base, InOr(ctx), pts);
      NumberedIsPlaced(r, base + Leaves(l), InOr(ctx), pts);
  }

  lemma LeavesNumbered(t: Re, base: nat)
    ensures Leaves(Numbered(t, base)) == Leaves(t)
  {
  }

  lemma HoldsOne(pts: seq<At>, base: nat, a: At)
    requires HoldsAt(pts, base, [a])
    ensures base < |pts| && pts[base] == a
  {
    assert pts[base + 0] == [a][0];
  }

  lemma HoldsSplit(pts: seq<At>, base: nat, a: seq<At>, b: seq<At>)
    requires HoldsAt(pts, base, a + b)
    ensures HoldsAt(pts, base, a) && HoldsAt(pts, base + |a|, b)
  {
    forall k | 0 <= k < |a| ensures pts[base + k] == a[k] { assert (a + b)[k] == a[k]; }
    forall k | 0 <= k < |b| ensures pts[base + |a| + k] == b[k] { assert (a + b)[|a| + k] == b[k]; }
  }

  // ----- the position automaton against the language -----

  /** Leaf q takes the first symbol of w and the rest of w may follow it. */
  ghost predicate Starts(pts: seq<At>, q: nat, w: Word) {
    q < |pts| && w != [] && Matches(pts[q].sym, w[0]) && Cont(pts[q].ctx, w[1..])
  }

  ghost predicate SomeStarts(pts: seq<At>, qs: set<nat>, w: Word) {
    exists q | q in qs :: Starts(pts, q, w)
  }

  /** first() reports a tree as matching the empty string exactly when it does. */
  lemma {:induction false} NullableIsEmptyWord(t: Re)
    ensures Nullable(t) <==> Lang(t, [])
  {
    match t
    case Leaf(_, _) =>
    case Star(_) =>
    case Quest(_) =>
    case Plus(r) =>
      NullableIsEmptyWord(r);
      var w: Word := [];
      assert w[..0] == [] && w[0..] == [];
    case Cat(l, r) =>
      NullableIsEmptyWord(l);
      NullableIsEmptyWord(r);
      var w: Word := [];
      assert w[..0] == [] && w[0..] == [];
    case Or(l, r) =>
      NullableIsEmptyWord(l);
      NullableIsEmptyWord(r);
  }

  lemma ContSplit(ctx: Ctx, w: Word, i: nat)
    requires i <= |w| && Cont(if ctx.CatLeft? || ctx.InStar? || ctx.InPlus? then ctx.up else Root, w[i..])
    requires ctx.CatLeft? || ctx.InStar? || ctx.InPlus?
    requires if ctx.CatLeft? then Lang(ctx.right, w[..i]) else StarLang(ctx.child, w[..i])
    ensures Cont(ctx, w)
  {
  }

  lemma SomeStartsMore(pts: seq<At>, S: set<nat>, S': set<nat>, w: Word)
    requires SomeStarts(pts, S, w) && S <= S'
    ensures SomeStarts(pts, S', w)
  {
  }

  /** A nonempty word of t followed by something allowed in ctx starts at a first leaf of t. */
  lemma {:induction false} LangStarts(t: Re, ctx: Ctx, pts: seq<At>, w: Word, i: nat)
    requires Placed(t, ctx, pts)
    requires 0 < i <= |w| && Lang(t, w[..i]) && Cont(ctx, w[i..])
    ensures SomeStarts(pts, FirstSet(t), w)
    decreases t, 0
  {
    hide Matches;
    match t
    case Leaf(p, s) =>
      assert i == 1;
      assert Starts(pts, p, w);
    case Star(r) => ChunkStarts(r, InStar(r, ctx), pts, w, i);
    case Plus(r) =>
      var k :| 0 <= k <= i && Lang(r, w[..i][..k]) && StarLang(r, w[..i][k..]);
      if k == 0 {
        assert w[..i][0..] == w[..i];
        ChunkStarts(r, InPlus(r, ctx), pts, w, i);
      } else {
        StarThenCont(InPlus(r, ctx), w, k, i);
        assert w[..i][..k] == w[..k];
        LangStarts(r, InPlus(r, ctx), pts, w, k);
      }
    case Quest(r) => LangStarts(r, InQuest(ctx), pts, w, i);
    case Cat(l, r) =>
      var k :| 0 <= k <= i && Lang(l, w[..i][..k]) && Lang(r, w[..i][k..]);
      assert w[..i][..k] == w[..k];
      if k == 0 {
        NullableIsEmptyWord(l);
        assert w[..i][0..] == w[..i];
        LangStarts(r, CatRight(ctx), pts, w, i);
        SomeStartsMore(pts, FirstSet(r), FirstSet(t), w);
      } else {
        assert w[k..][..i - k] == w[..i][k..] && w[k..][i - k..] == w[i..];
        ContSplit(CatLeft(r, ctx), w[k..], i - k);
        LangStarts(l, CatLeft(r, ctx), pts, w, k);
        SomeStartsMore(pts, FirstSet(l), FirstSet(t), w);
      }
    case Or(l, r) =>
      if Lang(l, w[..i]) {
        LangStarts(l, InOr(ctx), pts, w, i);
        SomeStartsMore(pts, FirstSet(l), FirstSet(t), w);
      } else {
        LangStarts(r, InOr(ctx), pts, w, i);
        SomeStartsMore(pts, FirstSet(r), FirstSet(t), w);
      }
  }

  /** The same for a nonempty run of repetitions of r inside a * or + node. */
  lemma ChunkStarts(r: Re, ctx: Ctx, pts: seq<At>, w: Word, i: nat)
    requires (ctx.InStar? || ctx.InPlus?) && ctx.child == r
    requires Placed(r, ctx, pts)
    requires 0 < i <= |w| && StarLang(r, w[..i]) && Cont(ctx.up, w[i..])
    ensures SomeStarts(pts, FirstSet(r), w)
    decreases r, 1
  {
    var k :| 0 < k <= i && Lang(r, w[..i][..k]) && StarLang(r, w[..i][k..]);
    assert w[..i][..k] == w[..k];
    StarThenCont(ctx, w, k, i);
    LangStarts(r, ctx, pts, w, k);
  }

  lemma StarThenCont(ctx: Ctx, w: Word, k: nat, i: nat)
    requires ctx.InStar? || ctx.InPlus?
    requires k <= i <= |w| && StarLang(ctx.child, w[..i][k..]) && Cont(ctx.up, w[i..])
    ensures Cont(ctx, w[k..])
  {
    assert w[k..][..i - k] == w[..i][k..] && w[k..][i - k..] == w[i..];
    ContSplit(ctx, w[k..], i - k);
  }

  /** Conversely, a word that starts at a first leaf of t begins with a nonempty word of t. */
  lemma {:induction false} StartsLang(t: Re, ctx: Ctx, pts: seq<At>, w: Word, q: nat) returns (i: nat)
    requires Placed(t, ctx, pts)
    requires q in FirstSet(t) && Starts(pts, q, w)
    ensures 0 < i <= |w| && Lang(t, w[..i]) && Cont(ctx, w[i..])
    decreases t
  {
    match t
    case Leaf(p, s) =>
      i := 1;
      assert w[..1] == [w[0]];
    case Star(r) =>
      var k := StartsLang(r, InStar(r, ctx), pts, w, q);
      i := JoinStar(InStar(r, ctx), w, k);
    case Plus(r) =>
      var k := StartsLang(r, InPlus(r, ctx), pts, w, q);
      i := JoinPlus(r, ctx, w, k);
    case Quest(r) => i := StartsLang(r, InQuest(ctx), pts, w, q);
    case Cat(l, r) =>
      if q in FirstSet(l) {
        var k := StartsLang(l, CatLeft(r, ctx), pts, w, q);
        i := JoinCat(l, r, ctx, w, k);
      } else {
        i := StartsLang(r, CatRight(ctx), pts, w, q);
        NullableIsEmptyWord(l);
        EmptyThen(l, r, w[..i]);
      }
    case Or(l, r) =>
      if q in FirstSet(l) {
        i := StartsLang(l, InOr(ctx), pts, w, q);
      } else {
        i := StartsLang(r, InOr(ctx), pts, w, q);
      }
  }

  lemma CatIntro(l: Re, r: Re, w: Word, k: nat)
    requires k <= |w| && Lang(l, w[..k]) && Lang(r, w[k..])
    ensures Lang(Cat(l, r), w)
  {
  }

  lemma PlusIntro(r: Re, w: Word, k: nat)
    requires k <= |w| && Lang(r, w[..k]) && StarLang(r, w[k..])
    ensures Lang(Plus(r), w)
  {
  }

  lemma StarIntro(r: Re, w: Word, k: nat)
    requires 0 < k <= |w| && Lang(r, w[..k]) && StarLang(r, w[k..])
    ensures StarLang(r, w)
  {
  }

  lemma Slices(w: Word, k: nat, j: nat)
    requires k + j <= |w|
    ensures w[..k + j][..k] == w[..k]
    ensures w[..k + j][k..] == w[k..][..j]
    ensures w[k + j..] == w[k..][j..]
  {
  }

  lemma EmptyThen(l: Re, r: Re, w: Word)
    requires Lang(l, []) && Lang(r, w)
    ensures Lang(Cat(l, r), w)
  {
    assert w[..0] == [] && w[0..] == w;
    CatIntro(l, r, w, 0);
  }

  lemma JoinCat(l: Re, r: Re, ctx: Ctx, w: Word, k: nat) returns (i: nat)
    requires k <= |w| && Lang(l, w[..k]) && Cont(CatLeft(r, ctx), w[k..])
    ensures k <= i <= |w| && Lang(Cat(l, r), w[..i]) && Cont(ctx, w[i..])
  {
    var j :| 0 <= j <= |w[k..]| && Lang(r, w[k..][..j]) && Cont(ctx, w[k..][j..]);
    i := k + j;
    Slices(w, k, j);
    CatIntro(l, r, w[..i], k);
  }

  lemma JoinPlus(r: Re, ctx: Ctx, w: Word, k: nat) returns (i: nat)
    requires k <= |w| && Lang(r, w[..k]) && Cont(InPlus(r, ctx), w[k..])
    ensures k <= i <= |w| && Lang(Plus(r), w[..i]) && Cont(ctx, w[i..])
  {
    var j :| 0 <= j <= |w[k..]| && StarLang(r, w[k..][..j]) && Cont(ctx, w[k..][j..]);
    i := k + j;
    Slices(w, k, j);
    PlusIntro(r, w[..i], k);
  }

  lemma JoinStar(ctx: Ctx, w: Word, k: nat) returns (i: nat)
    requires ctx.InStar? || ctx.InPlus?
    requires 0 < k <= |w| && Lang(ctx.child, w[..k]) && Cont(ctx, w[k..])
    ensures 0 < i <= |w| && StarLang(ctx.child, w[..i]) && Cont(ctx.up, w[i..])
  {
    var j :| 0 <= j <= |w[k..]| && StarLang(ctx.child, w[k..][..j]) && Cont(ctx.up, w[k..][j..]);
    i := k + j;
    Slices(w, k, j);
    StarIntro(ctx.child, w[..i], k);
  }

  /** follow() collects exactly the leaves at which something allowed after a node can start. */
  lemma {:induction false} FollowIsCont(ctx: Ctx, pts: seq<At>, w: Word)
    requires CtxPlaced(ctx, pts) && w != []
    ensures Cont(ctx, w) <==> SomeStarts(pts, FollowSet(ctx), w)
    decreases ctx
  {
    match ctx
    case Root =>
    case InQuest(up) => FollowIsCont(up, pts, w);
    case InOr(up) => FollowIsCont(up, pts, w);
    case CatRight(up) => FollowIsCont(up, pts, w);
    case InStar(c, up) => FollowIsCont(up, pts, w); FollowLoop(ctx, pts, w); FollowLoopBack(ctx, pts, w);
    case InPlus(c, up) => FollowIsCont(up, pts, w); FollowLoop(ctx, pts, w); FollowLoopBack(ctx, pts, w);
    case CatLeft(r, up) => FollowIsCont(up, pts, w); FollowRight(ctx, pts, w); FollowRightBack(ctx, pts, w);
  }

  lemma FollowRight(ctx: Ctx, pts: seq<At>, w: Word)
    requires ctx.CatLeft? && CtxPlaced(ctx, pts) && w != []
    ensures Cont(ctx, w) ==> SomeStarts(pts, FirstSet(ctx.right), w) || (Nullable(ctx.right) && Cont(ctx.up, w))
  {
    if Cont(ctx, w) {
      var i :| 0 <= i <= |w| && Lang(ctx.right, w[..i]) && Cont(ctx.up, w[i..]);
      if i == 0 {
        NullableIsEmptyWord(ctx.right);
        assert w[0..] == w;
      } else {
        LangStarts(ctx.right, CatRight(ctx.up), pts, w, i);
      }
    }
  }

  lemma FollowRightBack(ctx: Ctx, pts: seq<At>, w: Word)
    requires ctx.CatLeft? && CtxPlaced(ctx, pts) && w != []
    ensures SomeStarts(pts, FirstSet(ctx.right), w) || (Nullable(ctx.right) && Cont(ctx.up, w)) ==> Cont(ctx, w)
  {
    if SomeStarts(pts, FirstSet(ctx.right), w) {
      var q :| q in FirstSet(ctx.right) && Starts(pts, q, w);
      var i := StartsLang(ctx.right, CatRight(ctx.up), pts, w, q);
    } else if Nullable(ctx.right) && Cont(ctx.up, w) {
      NullableIsEmptyWord(ctx.right);
      assert w[0..] == w && w[..0] == [];
      ContSplit(ctx, w, 0);
    }
  }

  lemma FollowLoop(ctx: Ctx, pts: seq<At>, w: Word)
    requires ctx.InStar? || ctx.InPlus?
    requires CtxPlaced(ctx, pts) && w != []
    ensures Cont(ctx, w) ==> Cont(ctx.up, w) || SomeStarts(pts, FirstSet(ctx.child), w)
  {
    if Cont(ctx, w) {
      var i :| 0 <= i <= |w| && StarLang(ctx.child, w[..i]) && Cont(ctx.up, w[i..]);
      if i == 0 {
        assert w[0..] == w;
      } else {
        ChunkStarts(ctx.child, ctx, pts, w, i);
      }
    }
  }

  lemma FollowLoopBack(ctx: Ctx, pts: seq<At>, w: Word)
    requires ctx.InStar? || ctx.InPlus?
    requires CtxPlaced(ctx, pts) && w != []
    ensures Cont(ctx.up, w) || SomeStarts(pts, FirstSet(ctx.child), w) ==> Cont(ctx, w)
  {
    if Cont(ctx.up, w) {
      assert w[0..] == w && w[..0] == [];
      ContSplit(ctx, w, 0);
    } else if SomeStarts(pts, FirstSet(ctx.child), w) {
      var q :| q in FirstSet(ctx.child) && Starts(pts, q, w);
      var k := StartsLang(ctx.child, ctx, pts, w, q);
      var i := JoinStar(ctx, w, k);
      ContSplit(ctx, w, i);
    }
  }

  // ----- runs of the position automaton -----

  /** What cgoto collects into setvec: the follow sets of the members of S that match c. */
  ghost function Step(pts: seq<At>, S: set<nat>, c: int): set<nat> {
    set q, r | q in S && q < |pts| && Matches(pts[q].sym, c) && r in FollowSet(pts[q].ctx) :: r
  }

  ghost function Run(pts: seq<At>, S: set<nat>, w: Word): set<nat>
    decreases |w|
  {
    if w == [] then S else Run(pts, Step(pts, S, w[0]), w[1..])
  }

  lemma {:induction false} RunSnoc(pts: seq<At>, S: set<nat>, w: Word, c: int)
    ensures Run(pts, S, w + [c]) == Step(pts, Run(pts, S, w), c)
    decreases |w|
  {
    if w == [] {
      assert (w + [c])[1..] == [];
    } else {
      assert (w + [c])[1..] == w[1..] + [c];
      RunSnoc(pts, Step(pts, S, w[0]), w[1..], c);
    }
  }

  lemma {:induction false} RunEmpty(pts: seq<At>, w: Word)
    ensures Run(pts, {}, w) == {}
  {
    if w != [] {
      assert Step(pts, {}, w[0]) == {};
      RunEmpty(pts, w[1..]);
    }
  }

  /** The table of an expression: FINAL is the last leaf and nothing follows it. */
  ghost predicate Coherent(pts: seq<At>) {
    && pts != []
    && (forall q | 0 <= q < |pts| :: CtxPlaced(pts[q].ctx, pts))
    && (forall q | 0 <= q < |pts| :: pts[q].sym.Final? <==> q == |pts| - 1)
    && pts[|pts| - 1].ctx == CatRight(Root)
  }

  lemma StepStarts(pts: seq<At>, S: set<nat>, c: int, w: Word)
    requires Coherent(pts) && w != []
    ensures SomeStarts(pts, S, [c] + w) <==> SomeStarts(pts, Step(pts, S, c), w)
  {
    var v := [c] + w;
    assert v[1..] == w;
    if SomeStarts(pts, S, v) {
      var q :| q in S && Starts(pts, q, v);
      FollowIsCont(pts[q].ctx, pts, w);
      var r :| r in FollowSet(pts[q].ctx) && Starts(pts, r, w);
      assert r in Step(pts, S, c);
    }
    if SomeStarts(pts, Step(pts, S, c), w) {
      var r :| r in Step(pts, S, c) && Starts(pts, r, w);
      var q: nat :| q in S && q < |pts| && Matches(pts[q].sym, c) && r in FollowSet(pts[q].ctx);
      FollowIsCont(pts[q].ctx, pts, w);
      assert Starts(pts, q, v);
    }
  }

  /** A run ends in a set holding FINAL exactly when the word, ended, starts in the first set. */
  lemma {:induction false} RunAccepts(pts: seq<At>, S: set<nat>, w: Word)
    requires Coherent(pts)
    ensures |pts| - 1 in Run(pts, S, w) <==> SomeStarts(pts, S, w + [END])
    decreases |w|
  {
    if w == [] {
      assert w + [END] == [END];
      if |pts| - 1 in S { assert Starts(pts, |pts| - 1, [END]); }
    } else {
      RunAccepts(pts, Step(pts, S, w[0]), w[1..]);
      StepStarts(pts, S, w[0], w[1..] + [END]);
      assert [w[0]] + (w[1..] + [END]) == w + [END];
    }
  }

  // ----- the tree mkdfa builds around the user's expression -----

  function Whole(p: Re): Re {
    Cat(Cat(Star(Leaf(0, All)), p), Leaf(0, Final))
  }

  function Table(p: Re): seq<At> {
    Points(Numbered(Whole(p), 0), Root)
  }

  /** The user's leaves are numbered from 1, position 0 is the leading ALL. */
  function User(p: Re): Re {
    Numbered(p, 1)
  }

  function AfterUser(p: Re): Ctx {
    CatLeft(Leaf(1 + Leaves(p), Final), Root)
  }

  function BeforeUser(p: Re): Ctx {
    CatLeft(User(p), AfterUser(p))
  }

  function BeforeAll(p: Re): Ctx {
    InStar(Leaf(0, All), BeforeUser(p))
  }

  /** f->re[0].lfollow: the follow set of the leading ALL. */
  ghost function Scanning(p: Re): set<nat> {
    FollowSet(BeforeAll(p))
  }

  /** Position 0 left out. */
  ghost function Bare(p: Re): set<nat> {
    Scanning(p) - {0}
  }

  ghost function ScanningHat(p: Re): set<nat> {
    Step(Table(p), Scanning(p), HAT)
  }

  ghost function BareHat(p: Re): set<nat> {
    ScanningHat(p) - {0}
  }

  /** Trees reparse can build: no FINAL inside, and no ALL. */
  predicate Proper(p: Re) {
    match p
    case Leaf(_, s) => !s.Final? && !s.All?
    case Star(r) => Proper(r)
    case Plus(r) => Proper(r)
    case Quest(r) => Proper(r)
    case Cat(l, r) => Proper(l) && Proper(r)
    case Or(l, r) => Proper(l) && Proper(r)
  }

  lemma TableShape(p: Re)
    ensures Table(p) == [At(All, BeforeAll(p))] + Points(User(p), CatRight(AfterUser(p))) + [At(Final, CatRight(Root))]
    ensures |Table(p)| == 2 + Leaves(p)
  {
    LeavesNumbered(p, 1);
    var body, all, fin := Cat(Star(Leaf(0, All)), User(p)), Star(Leaf(0, All)), Leaf(1 + Leaves(p), Final);
    WholeNumbered(p);
    assert Table(p) == Points(body, AfterUser(p)) + Points(fin, CatRight(Root));
    assert Points(body, AfterUser(p)) == Points(all, BeforeUser(p)) + Points(User(p), CatRight(AfterUser(p)));
    assert Points(all, BeforeUser(p)) == Points(Leaf(0, All), BeforeAll(p));
  }

  lemma WholeNumbered(p: Re)
    ensures Numbered(Whole(p), 0) == Cat(Cat(Star(Leaf(0, All)), User(p)), Leaf(1 + Leaves(p), Final))
  {
    var body := Cat(Star(Leaf(0, All)), p);
    assert Leaves(Star(Leaf(0, All))) == 1;
    assert Numbered(body, 0) == Cat(Numbered(Star(Leaf(0, All)), 0), User(p));
    assert Leaves(body) == 1 + Leaves(p);
  }

  /** The contexts of the leaves of t are well placed when t and its own context are. */
  lemma {:induction false} PointsPlaced(t: Re, ctx: Ctx, pts: seq<At>)
    requires Placed(t, ctx, pts) && CtxPlaced(ctx, pts)
    ensures forall k | 0 <= k < Leaves(t) :: CtxPlaced(Points(t, ctx)[k].ctx, pts)
  {
    match t
    case Leaf(_, _) =>
    case Star(r) => PointsPlaced(r, InStar(r, ctx), pts);
    case Plus(r) => PointsPlaced(r, InPlus(r, ctx), pts);
    case Quest(r) => PointsPlaced(r, InQuest(ctx), pts);
    case Cat(l, r) => PointsPlaced(l, CatLeft(r, ctx), pts); PointsPlaced(r, CatRight(ctx), pts);
    case Or(l, r) => PointsPlaced(l, InOr(ctx), pts); PointsPlaced(r, InOr(ctx), pts);
  }

  lemma {:induction false} PointsProper(t: Re, ctx: Ctx, base: nat)
    requires Proper(t)
    ensures forall k | 0 <= k < Leaves(Numbered(t, base)) ::
              !Points(Numbered(t, base), ctx)[k].sym.Final? && !Points(Numbered(t, base), ctx)[k].sym.All?
  {
    match t
    case Leaf(_, _) =>
    case Star(r) => PointsProper(r, InStar(Numbered(r, base), ctx), base);
    case Plus(r) => PointsProper(r, InPlus(Numbered(r, base), ctx), base);
    case Quest(r) => PointsProper(r, InQuest(ctx), base);
    case Cat(l, r) =>
      PointsProper(l, CatLeft(Numbered(r, base + Leaves(l)), ctx), base);
      PointsProper(r, CatRight(ctx), base + Leaves(l));
    case Or(l, r) =>
      PointsProper(l, InOr(ctx), base);
      PointsProper(r, InOr(ctx), base + Leaves(l));
  }

  lemma TableCoherent(p: Re)
    requires Proper(p)
    ensures Coherent(Table(p))
  {
    var pts, t := Table(p), Numbered(Whole(p), 0);
    LeavesNumbered(Whole(p), 0);
    NumberedIsPlaced(Whole(p), 0, Root, pts);
    PointsPlaced(t, Root, pts);
    TableShape(p);
    LeavesNumbered(p, 1);
    PointsProper(p, CatRight(AfterUser(p)), 1);
  }

  /** Follow sets stay inside the table. */
  lemma {:induction false} FirstInTable(t: Re, ctx: Ctx, pts: seq<At>)
    requires Placed(t, ctx, pts)
    ensures forall q | q in FirstSet(t) :: q < |pts|
  {
    match t
    case Leaf(_, _) =>
    case Star(r) => FirstInTable(r, InStar(r, ctx), pts);
    case Plus(r) => FirstInTable(r, InPlus(r, ctx), pts);
    case Quest(r) => FirstInTable(r, InQuest(ctx), pts);
    case Cat(l, r) => FirstInTable(l, CatLeft(r, ctx), pts); FirstInTable(r, CatRight(ctx), pts);
    case Or(l, r) => FirstInTable(l, InOr(ctx), pts); FirstInTable(r, InOr(ctx), pts);
  }

  lemma {:induction false} FollowInTable(ctx: Ctx, pts: seq<At>)
    requires CtxPlaced(ctx, pts)
    ensures forall q | q in FollowSet(ctx) :: q < |pts|
  {
    match ctx
    case Root =>
    case InStar(c, up) => FirstInTable(c, ctx, pts); FollowInTable(up, pts);
    case InPlus(c, up) => FirstInTable(c, ctx, pts); FollowInTable(up, pts);
    case InQuest(up) => FollowInTable(up, pts);
    case InOr(up) => FollowInTable(up, pts);
    case CatLeft(r, up) => FirstInTable(r, CatRight(up), pts); FollowInTable(up, pts);
    case CatRight(up) => FollowInTable(up, pts);
  }

  lemma {:induction false} FirstFrom(t: Re, base: nat)
    ensures forall q | q in FirstSet(Numbered(t, base)) :: base <= q
    ensures FirstSet(Numbered(t, base)) != {}
  {
    match t
    case Leaf(_, _) => assert base in FirstSet(Numbered(t, base));
    case Star(r) => FirstFrom(r, base);
    case Plus(r) => FirstFrom(r, base);
    case Quest(r) => FirstFrom(r, base);
    case Cat(l, r) => FirstFrom(l, base); FirstFrom(r, base + Leaves(l));
    case Or(l, r) => FirstFrom(l, base); FirstFrom(r, base + Leaves(l));
  }

  ghost predicate NoneFollowsZero(pts: seq<At>) {
    forall k | 0 <= k < |pts| :: 0 !in FollowSet(pts[k].ctx)
  }

  lemma NoneFollowsZeroBoth(a: seq<At>, b: seq<At>)
    requires NoneFollowsZero(a) && NoneFollowsZero(b)
    ensures NoneFollowsZero(a + b)
  {
  }

  /** Nothing inside the user's expression leads back to position 0. */
  lemma {:induction false} ZeroNeverFollows(t: Re, base: nat, ctx: Ctx)
    requires 0 < base && 0 !in FollowSet(ctx)
    ensures NoneFollowsZero(Points(Numbered(t, base), ctx))
  {
    hide NoneFollowsZero, FirstSet, Nullable;
    match t
    case Leaf(_, s) => OneNotFollowedByZero(s, ctx);
    case Star(r) => FirstFrom(r, base); ZeroNeverFollows(r, base, InStar(Numbered(r, base), ctx));
    case Plus(r) => FirstFrom(r, base); ZeroNeverFollows(r, base, InPlus(Numbered(r, base), ctx));
    case Quest(r) => ZeroNeverFollows(r, base, InQuest(ctx));
    case Cat(l, r) =>
      var l', r' := Numbered(l, base), Numbered(r, base + Leaves(l));
      FirstFrom(r, base + Leaves(l));
      ZeroNeverFollows(l, base, CatLeft(r', ctx));
      ZeroNeverFollows(r, base + Leaves(l), CatRight(ctx));
      NoneFollowsZeroBoth(Points(l', CatLeft(r', ctx)), Points(r', CatRight(ctx)));
    case Or(l, r) =>
      var l', r' := Numbered(l, base), Numbered(r, base + Leaves(l));
      ZeroNeverFollows(l, base, InOr(ctx));
      ZeroNeverFollows(r, base + Leaves(l), InOr(ctx));
      NoneFollowsZeroBoth(Points(l', InOr(ctx)), Points(r', InOr(ctx)));
  }

  lemma OneNotFollowedByZero(s: Sym, ctx: Ctx)
    requires 0 !in FollowSet(ctx)
    ensures NoneFollowsZero([At(s, ctx)])
  {
  }

  lemma ZeroOnlyFollowsZero(p: Re)
    ensures forall q | 0 < q < |Table(p)| :: 0 !in FollowSet(Table(p)[q].ctx)
    ensures Scanning(p) == {0} + FollowSet(BeforeUser(p)) && 0 !in FollowSet(BeforeUser(p))
    ensures Bare(p) == FollowSet(BeforeUser(p)) && Bare(p) != {}
  {
    TableShape(p);
    LeavesNumbered(p, 1);
    FirstFrom(p, 1);
    ZeroNeverFollows(p, 1, CatRight(AfterUser(p)));
  }

  /** Renumbering leaves does not change the language. */
  lemma {:induction false} LangNumbered(t: Re, base: nat, w: Word)
    ensures Lang(Numbered(t, base), w) <==> Lang(t, w)
    decreases t, 0
  {
    match t
    case Leaf(_, _) =>
    case Star(r) => StarNumbered(r, base, w);
    case Plus(r) =>
      forall i | 0 <= i <= |w| ensures Lang(Numbered(r, base), w[..i]) == Lang(r, w[..i])
                               ensures StarLang(Numbered(r, base), w[i..]) == StarLang(r, w[i..]) {
        LangNumbered(r, base, w[..i]);
        StarNumbered(r, base, w[i..]);
      }
    case Quest(r) => LangNumbered(r, base, w);
    case Cat(l, r) =>
      forall i | 0 <= i <= |w| ensures Lang(Numbered(l, base), w[..i]) == Lang(l, w[..i])
                               ensures Lang(Numbered(r, base + Leaves(l)), w[i..]) == Lang(r, w[i..]) {
        LangNumbered(l, base, w[..i]);
        LangNumbered(r, base + Leaves(l), w[i..]);
      }
    case Or(l, r) =>
      LangNumbered(l, base, w);
      LangNumbered(r, base + Leaves(l), w);
  }

  lemma {:induction false} StarNumbered(r: Re, base: nat, w: Word)
    ensures StarLang(Numbered(r, base), w) <==> StarLang(r, w)
    decreases r, 1 + |w|
  {
    forall i | 0 < i <= |w| ensures Lang(Numbered(r, base), w[..i]) == Lang(r, w[..i])
                            ensures StarLang(Numbered(r, base), w[i..]) == StarLang(r, w[i..]) {
      LangNumbered(r, base, w[..i]);
      StarNumbered(r, base, w[i..]);
    }
  }

  lemma EndCont(q: nat, u: Word)
    ensures Cont(CatLeft(Leaf(q, Final), Root), u) <==> u == [END]
  {
    var fin, ctx := Leaf(q, Final), CatLeft(Leaf(q, Final), Root);
    if Cont(ctx, u) {
      var j :| 0 <= j <= |u| && Lang(fin, u[..j]) && Cont(Root, u[j..]);
      assert u == u[..j];
    }
    if u == [END] {
      assert u[..1] == u && u[1..] == [];
      ContSplit(ctx, u, 1);
    }
  }

  lemma UserCont(p: Re, v: Word)
    ensures Cont(BeforeUser(p), v + [END]) <==> Lang(p, v)
  {
    LangNumbered(p, 1, v);
    ThenEnd(User(p), 1 + Leaves(p), v);
  }

  lemma ThenEnd(t: Re, q: nat, v: Word)
    ensures Cont(CatLeft(t, CatLeft(Leaf(q, Final), Root)), v + [END]) <==> Lang(t, v)
  {
    var w, after := v + [END], CatLeft(Leaf(q, Final), Root);
    assert w[..|v|] == v && w[|v|..] == [END];
    EndCont(q, [END]);
    if Lang(t, v) { ContSplit(CatLeft(t, after), w, |v|); }
    if Cont(CatLeft(t, after), w) {
      var i :| 0 <= i <= |w| && Lang(t, w[..i]) && Cont(after, w[i..]);
      EndCont(q, w[i..]);
      assert i == |v|;
    }
  }

  /** From the sets without position 0 the automaton accepts exactly the user's language. */
  lemma BareAccepts(p: Re, w: Word)
    requires Proper(p)
    ensures |Table(p)| - 1 in Run(Table(p), Bare(p), w) <==> Lang(p, w)
  {
    TableCoherent(p);
    ZeroOnlyFollowsZero(p);
    TableShape(p);
    RunAccepts(Table(p), Bare(p), w);
    BeforeUserPlaced(p);
    FollowIsCont(BeforeUser(p), Table(p), w + [END]);
    UserCont(p, w);
  }

  lemma BeforeUserPlaced(p: Re)
    requires Proper(p)
    ensures CtxPlaced(BeforeUser(p), Table(p))
  {
    TableCoherent(p);
    TableShape(p);
    assert CtxPlaced(Table(p)[0].ctx, Table(p));
  }

  /** At the start of a text the word may also be read with a HAT in front. */
  lemma BareHatAccepts(p: Re, w: Word)
    requires Proper(p)
    ensures |Table(p)| - 1 in Run(Table(p), BareHat(p), w) <==> Lang(p, w) || Lang(p, [HAT] + w)
  {
    BareHatSplits(p);
    RunUnion(p, Bare(p), Step(Table(p), Bare(p), HAT), w);
    BareAccepts(p, w);
    HatStepAccepts(p, w);
  }

  lemma HatStepAccepts(p: Re, w: Word)
    requires Proper(p)
    ensures |Table(p)| - 1 in Run(Table(p), Step(Table(p), Bare(p), HAT), w) <==> Lang(p, [HAT] + w)
  {
    var v := [HAT] + w;
    assert v[0] == HAT && v[1..] == w;
    BareAccepts(p, v);
  }

  lemma RunUnion(p: Re, S: set<nat>, S': set<nat>, w: Word)
    requires Proper(p)
    ensures var pts := Table(p);
            |pts| - 1 in Run(pts, S + S', w) <==> |pts| - 1 in Run(pts, S, w) || |pts| - 1 in Run(pts, S', w)
  {
    TableCoherent(p);
    RunAccepts(Table(p), S, w);
    RunAccepts(Table(p), S', w);
    RunAccepts(Table(p), S + S', w);
    SomeStartsUnion(Table(p), S, S', w + [END]);
  }

  lemma SomeStartsUnion(pts: seq<At>, S: set<nat>, S': set<nat>, w: Word)
    ensures SomeStarts(pts, S + S', w) <==> SomeStarts(pts, S, w) || SomeStarts(pts, S', w)
  {
  }

  lemma BareHatSplits(p: Re)
    requires Proper(p)
    ensures ScanningHat(p) == {0} + Bare(p) + Step(Table(p), Bare(p), HAT)
    ensures BareHat(p) == Bare(p) + Step(Table(p), Bare(p), HAT)
  {
    hide Numbered, Points, Leaves, FollowSet, FirstSet, Step;
    TableShape(p);
    ZeroOnlyFollowsZero(p);
    ZeroNotStepped(p, Bare(p), HAT);
    StepWithZero(Table(p), Bare(p), HAT);
  }

  lemma StepWithZero(pts: seq<At>, B: set<nat>, c: int)
    requires pts != [] && Matches(pts[0].sym, c) && FollowSet(pts[0].ctx) == {0} + B
    ensures Step(pts, {0} + B, c) == {0} + B + Step(pts, B, c)
  {
    StepUnion(pts, {0}, B, c);
    StepOne(pts, 0, c);
  }

  lemma ZeroNotStepped(p: Re, S: set<nat>, c: int)
    requires 0 !in S
    ensures 0 !in Step(Table(p), S, c)
  {
    ZeroOnlyFollowsZero(p);
  }

  lemma StepUnion(pts: seq<At>, S: set<nat>, S': set<nat>, c: int)
    ensures Step(pts, S + S', c) == Step(pts, S, c) + Step(pts, S', c)
  {
  }

  lemma StepOne(pts: seq<At>, q: nat, c: int)
    requires q < |pts|
    ensures Step(pts, {q}, c) == if Matches(pts[q].sym, c) then FollowSet(pts[q].ctx) else {}
  {
  }

  predicate NoNul(w: Word) {
    forall k | 0 <= k < |w| :: w[k] != 0 && w[k] != END
  }

  /** Some suffix of w, with no NUL before it, is a word of p. */
  ghost predicate SuffixIn(p: Re, w: Word) {
    exists i | 0 <= i <= |w| :: SuffixAt(p, w, i)
  }

  ghost predicate SuffixAt(p: Re, w: Word, i: nat)
    requires i <= |w|
  {
    NoNul(w[..i]) && Lang(p, w[i..])
  }

  lemma {:induction false} AllStar(q: nat, w: Word)
    ensures StarLang(Leaf(q, All), w) <==> NoNul(w)
    decreases |w|
  {
    if w != [] {
      AllStar(q, w[1..]);
      assert w[..1] == [w[0]];
      assert NoNul(w) <==> w[0] != 0 && w[0] != END && NoNul(w[1..]) by {
        assert forall k | 0 < k < |w| :: w[k] == w[1..][k - 1];
      }
      if StarLang(Leaf(q, All), w) {
        var i :| 0 < i <= |w| && Lang(Leaf(q, All), w[..i]) && StarLang(Leaf(q, All), w[i..]);
        assert i == 1;
      }
    }
  }

  /** With position 0 kept, a suffix of the word is enough. */
  lemma ScanningAccepts(p: Re, w: Word)
    requires Proper(p)
    ensures |Table(p)| - 1 in Run(Table(p), Scanning(p), w) <==> SuffixIn(p, w)
  {
    TableCoherent(p);
    TableShape(p);
    RunAccepts(Table(p), Scanning(p), w);
    FollowIsCont(BeforeAll(p), Table(p), w + [END]);
    AllCont(p, w);
  }

  lemma AllCont(p: Re, w: Word)
    ensures Cont(BeforeAll(p), w + [END]) <==> SuffixIn(p, w)
  {
    var v := w + [END];
    forall i | 0 <= i <= |w|
      ensures SuffixAt(p, w, i) <==> StarLang(Leaf(0, All), v[..i]) && Cont(BeforeUser(p), v[i..]) {
      AllStar(0, w[..i]);
      assert v[..i] == w[..i] && v[i..] == w[i..] + [END];
      UserCont(p, w[i..]);
    }
    NotAllEnd(w);
    assert v[..|v|] == v;
    if SuffixIn(p, w) {
      var i: nat :| i <= |w| && SuffixAt(p, w, i);
      ContSplit(BeforeAll(p), v, i);
    }
  }

  lemma NotAllEnd(w: Word)
    ensures !StarLang(Leaf(0, All), w + [END])
  {
    AllStar(0, w + [END]);
    assert (w + [END])[|w|] == END;
  }

  lemma ScanningHatAccepts(p: Re, w: Word)
    requires Proper(p)
    ensures |Table(p)| - 1 in Run(Table(p), ScanningHat(p), w) <==> Lang(p, [HAT] + w) || SuffixIn(p, w)
  {
    var v := [HAT] + w;
    assert v[1..] == w;
    assert Run(Table(p), Scanning(p), v) == Run(Table(p), ScanningHat(p), w);
    ScanningAccepts(p, v);
    forall i | 0 <= i <= |w| ensures SuffixAt(p, v, i + 1) <==> SuffixAt(p, w, i) {
      assert v[i + 1..] == w[i..];
      assert v[..i + 1] == [HAT] + w[..i];
      assert NoNul(v[..i + 1]) <==> NoNul(w[..i]) by {
        assert forall k | 0 <= k < i :: v[..i + 1][k + 1] == w[..i][k];
      }
    }
    assert SuffixAt(p, v, 0) <==> Lang(p, v) by { assert v[0..] == v; }
    if SuffixIn(p, v) {
      var i: nat :| i <= |v| && SuffixAt(p, v, i);
      if i > 0 { assert SuffixAt(p, w, i - 1); }
    }
    if SuffixIn(p, w) {
      var i: nat :| i <= |w| && SuffixAt(p, w, i);
      assert SuffixAt(p, v, i + 1);
    }
  }
}
