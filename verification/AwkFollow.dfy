/**
 Building the tables of an automaton: penter, first, follow and cfoll of
 usr/src/cmd/awk/b.c, which mark leaves in the shared array setvec.
 */
module AwkFollow {
  import opened AwkRegex

  /** One entry of f->re: the leaf at a position and the positions that can follow it. */
  datatype Row = Row(sym: Sym, lfollow: seq<nat>)

  // ----- position lists -----

  /** The members of S below n, in descending order. */
  function Desc(S: set<nat>, n: nat): (l: seq<nat>)
    ensures forall q | q in l :: q in S && q < n
    ensures forall q | q in S && q < n :: q in l
    ensures forall i, j | 0 <= i < j < |l| :: l[i] > l[j]
  {
    if n == 0 then [] else
    var rest := Desc(S, n - 1);
    assert forall j | 0 <= j < |rest| :: rest[j] in rest;
    if n - 1 in S then [n - 1] + rest else rest
  }

  function Elems(l: seq<nat>): set<nat> {
    set q | q in l
  }

  lemma DescElems(S: set<nat>, n: nat)
    requires forall q | q in S :: q < n
    ensures Elems(Desc(S, n)) == S
  {
  }

  /** Sorted lists name their sets: what cgoto relies on when it compares lists. */
  lemma DescNamesSet(S: set<nat>, S': set<nat>, n: nat)
    requires (forall q | q in S :: q < n) && (forall q | q in S' :: q < n)
    ensures Desc(S, n) == Desc(S', n) <==> S == S'
  {
    DescElems(S, n);
    DescElems(S', n);
  }

  /** Leaving out position 0 is dropping the last entry. */
  lemma {:induction false} DescDropZero(S: set<nat>, n: nat)
    requires 0 < n && 0 in S
    ensures Desc(S, n) != [] && Desc(S, n)[..|Desc(S, n)| - 1] == Desc(S - {0}, n)
  {
    if n == 1 {
      assert Desc(S, 0) == [] && Desc(S - {0}, 0) == [];
      assert Desc(S - {0}, 1) == [];
    } else {
      DescDropZero(S, n - 1);
      assert n - 1 in S <==> n - 1 in S - {0};
    }
  }

  lemma {:induction false} DescTop(S: set<nat>, n: nat)
    requires 0 < n
    ensures n - 1 in S <==> Desc(S, n) != [] && Desc(S, n)[0] == n - 1
  {
    assert n - 1 in S ==> Desc(S, n)[0] == n - 1;
    assert Desc(S, n) != [] ==> Desc(S, n)[0] in Desc(S, n);
  }

  // ----- where the climb of follow() may start -----

  /** The climb from a node in ctx ends below the root: some right part on the way is not nullable. */
  predicate Stops(ctx: Ctx) {
    match ctx
    case Root => false
    case InStar(_, up) => Stops(up)
    case InPlus(_, up) => Stops(up)
    case InQuest(up) => Stops(up)
    case InOr(up) => Stops(up)
    case CatLeft(r, up) => !Nullable(r) || Stops(up)
    case CatRight(up) => Stops(up)
  }

  /** follow() can be called at every leaf of v without running past the root. */
  predicate Followable(v: Re, ctx: Ctx) {
    match v
    case Leaf(_, s) => s.Final? || Stops(ctx)
    case Star(r) => Followable(r, InStar(r, ctx))
    case Plus(r) => Followable(r, InPlus(r, ctx))
    case Quest(r) => Followable(r, InQuest(ctx))
    case Cat(l, r) => Followable(l, CatLeft(r, ctx)) && Followable(r, CatRight(ctx))
    case Or(l, r) => Followable(l, InOr(ctx)) && Followable(r, InOr(ctx))
  }

  lemma {:induction false} StopsFollowable(v: Re, ctx: Ctx)
    requires Stops(ctx)
    ensures Followable(v, ctx)
  {
    match v
    case Leaf(_, _) =>
    case Star(r) => StopsFollowable(r, InStar(r, ctx));
    case Plus(r) => StopsFollowable(r, InPlus(r, ctx));
    case Quest(r) => StopsFollowable(r, InQuest(ctx));
    case Cat(l, r) => StopsFollowable(l, CatLeft(r, ctx)); StopsFollowable(r, CatRight(ctx));
    case Or(l, r) => StopsFollowable(l, InOr(ctx)); StopsFollowable(r, InOr(ctx));
  }

  /** The tree mkdfa builds never sends follow() past its root. */
  lemma WholeFollowable(p: Re)
    ensures Followable(Numbered(Whole(p), 0), Root)
  {
    WholeNumbered(p);
    StopsFollowable(User(p), CatRight(AfterUser(p)));
    assert Stops(BeforeUser(p)) && Stops(BeforeAll(p));
    assert Followable(Star(Leaf(0, All)), BeforeUser(p));
    assert Followable(Cat(Star(Leaf(0, All)), User(p)), AfterUser(p));
  }

  lemma UnionAssoc(A: set<nat>, B: set<nat>, C: set<nat>)
    ensures (A + B) + C == A + (B + C)
  {
  }

  ghost predicate Below(S: set<nat>, n: nat) {
    forall q | q in S :: q < n
  }

  lemma BelowPart(S: set<nat>, S': set<nat>, n: nat)
    requires S <= S' && Below(S', n)
    ensures Below(S, n)
  {
  }

  ghost function Marks(v: seq<bool>): set<nat> {
    set i | 0 <= i < |v| && v[i]
  }

  lemma MarksUpdate(v: seq<bool>, q: nat)
    requires q < |v|
    ensures Marks(v[q := true]) == Marks(v) + {q}
  {
  }

  // ----- the statics of b.c that build the tables -----

  class Builder {
    var poscnt: nat
    const setvec: array<bool>
    var setcnt: nat
    const re: array<Row>

    constructor (n: nat)
      ensures poscnt == 0
      ensures setvec.Length == n && re.Length == n && fresh(setvec) && fresh(re)
    {
      poscnt, setcnt := 0, 0;
      setvec := new bool[n](_ => false);
      re := new Row[n](_ => Row(Final, []));
    }

    /** The leaves marked in setvec. */
    ghost function Marked(): set<nat>
      reads setvec
    {
      Marks(setvec[..])
    }

    ghost predicate Counted()
      reads this, setvec
    {
      setcnt == |Marked()|
    }

    method Penter(t: Re) returns (n: Re)
      modifies this`poscnt
      ensures n == Numbered(t, old(poscnt))
      ensures poscnt == old(poscnt) + Leaves(t)
      decreases t
    {
      match t
      case Leaf(_, s) =>
        n := Leaf(poscnt, s);
        poscnt := poscnt + 1;
      case Star(r) => var m := Penter(r); n := Star(m);
      case Plus(r) => var m := Penter(r); n := Plus(m);
      case Quest(r) => var m := Penter(r); n := Quest(m);
      case Cat(l, r) => var a := Penter(l); var b := Penter(r); n := Cat(a, b);
      case Or(l, r) => var a := Penter(l); var b := Penter(r); n := Or(a, b);
    }

    method Mark(q: nat)
      requires Counted() && q < setvec.Length
      modifies this`setcnt, setvec
      ensures Counted() && Marked() == old(Marked()) + {q}
    {
      ghost var was := setvec[..];
      if !setvec[q] {
        setvec[q] := true;
        setcnt := setcnt + 1;
        MarksUpdate(was, q);
        assert setvec[..] == was[q := true];
      } else {
        assert q in Marks(was);
      }
    }

    /** Adds the first leaves of p to setvec; 0 when p matches the empty string, else 1. */
    method First(p: Re) returns (b: int)
      requires Counted() && Below(FirstSet(p), setvec.Length)
      modifies this`setcnt, setvec
      ensures Counted() && Marked() == old(Marked()) + FirstSet(p)
      ensures b == if Nullable(p) then 0 else 1
      decreases p, 1
    {
      match p
      case Leaf(q, s) =>
        assert q in FirstSet(p);
        Mark(q);
        b := if s.Ccl? && s.cls == [] then 0 else 1;
      case Plus(r) =>
        BelowPart(FirstSet(r), FirstSet(p), setvec.Length);
        b := First(r);
      case Star(r) =>
        BelowPart(FirstSet(r), FirstSet(p), setvec.Length);
        var x := First(r);
        b := 0;
      case Quest(r) =>
        BelowPart(FirstSet(r), FirstSet(p), setvec.Length);
        var x := First(r);
        b := 0;
      case Cat(l, r) =>
        b := FirstOfCat(l, r);
      case Or(l, r) =>
        BelowPart(FirstSet(l), FirstSet(p), setvec.Length);
        BelowPart(FirstSet(r), FirstSet(p), setvec.Length);
        var x := First(r);
        b := First(l);
        b := if b == 0 || x == 0 then 0 else 1;
        UnionAssoc(old(Marked()), FirstSet(r), FirstSet(l));
    }

    /** The CAT case: the right part only counts when the left one can be empty. */
    method FirstOfCat(l: Re, r: Re) returns (b: int)
      requires Counted() && Below(FirstSet(Cat(l, r)), setvec.Length)
      modifies this`setcnt, setvec
      ensures Counted() && Marked() == old(Marked()) + FirstSet(Cat(l, r))
      ensures b == if Nullable(l) && Nullable(r) then 0 else 1
      decreases Cat(l, r), 0
    {
      BelowPart(FirstSet(l), FirstSet(Cat(l, r)), setvec.Length);
      b := First(l);
      if b == 0 {
        BelowPart(FirstSet(r), FirstSet(Cat(l, r)), setvec.Length);
        b := First(r);
        UnionAssoc(old(Marked()), FirstSet(l), FirstSet(r));
      }
    }

    /** Adds the leaves that can follow a node standing in ctx, climbing by parent pointers. */
    method Follow(final: bool, ctx: Ctx)
      requires Counted() && Below(FollowSet(ctx), setvec.Length)
      requires final || Stops(ctx)
      modifies this`setcnt, setvec
      ensures Counted()
      ensures Marked() == old(Marked()) + if final then {} else FollowSet(ctx)
      decreases ctx, 0
    {
      if final {
        return;
      }
      match ctx
      case InStar(c, up) => Again(c, up);
      case InPlus(c, up) => Again(c, up);
      case InQuest(up) => Follow(false, up);
      case InOr(up) => Follow(false, up);
      case CatLeft(r, up) => Beside(r, up);
      case CatRight(up) => Follow(false, up);
    }

    /** The child c of a * or + node may come again, or what follows the node. */
    method Again(c: Re, up: Ctx)
      requires Counted() && Below(FirstSet(c) + FollowSet(up), setvec.Length) && Stops(up)
      modifies this`setcnt, setvec
      ensures Counted() && Marked() == old(Marked()) + (FirstSet(c) + FollowSet(up))
      decreases up, 1
    {
      BelowPart(FirstSet(c), FirstSet(c) + FollowSet(up), setvec.Length);
      BelowPart(FollowSet(up), FirstSet(c) + FollowSet(up), setvec.Length);
      var x := First(c);
      Follow(false, up);
      UnionAssoc(old(Marked()), FirstSet(c), FollowSet(up));
    }

    /** The right sibling r comes next, and what follows the node when r can be empty. */
    method Beside(r: Re, up: Ctx)
      requires Counted() && Below(FollowSet(CatLeft(r, up)), setvec.Length) && Stops(CatLeft(r, up))
      modifies this`setcnt, setvec
      ensures Counted() && Marked() == old(Marked()) + FollowSet(CatLeft(r, up))
      decreases up, 1
    {
      BelowPart(FirstSet(r), FollowSet(CatLeft(r, up)), setvec.Length);
      var x := First(r);
      if x == 0 {
        BelowPart(FollowSet(up), FollowSet(CatLeft(r, up)), setvec.Length);
        Follow(false, up);
        UnionAssoc(old(Marked()), FirstSet(r), FollowSet(up));
      }
    }

    /** Fills f->re for every leaf of v; nothing else in f->re changes. */
    method Cfoll(v: Re, ctx: Ctx, ghost pts: seq<At>)
      requires |pts| == setvec.Length == re.Length
      requires Placed(v, ctx, pts) && CtxPlaced(ctx, pts) && Followable(v, ctx)
      requires forall q | 0 <= q < |pts| && pts[q].sym.Final? :: FollowSet(pts[q].ctx) == {}
      modifies this`setcnt, setvec, re
      ensures forall q | 0 <= q < re.Length :: re[q] == if q in Positions(v) then RowAt(pts, q) else old(re[q])
      decreases v
    {
      match v
      case Leaf(q, s) =>
        forall i | 0 <= i < setvec.Length { setvec[i] := false; }
        setcnt := 0;
        assert Marks(setvec[..]) == {};
        FollowInTable(ctx, pts);
        Follow(s.Final?, ctx);
        assert Marked() == FollowSet(ctx);
        var l := ListOf(setvec);
        re[q] := Row(s, l);
      case Star(r) => Cfoll(r, InStar(r, ctx), pts);
      case Plus(r) => Cfoll(r, InPlus(r, ctx), pts);
      case Quest(r) => Cfoll(r, InQuest(ctx), pts);
      case Cat(l, r) => Cfoll(l, CatLeft(r, ctx), pts); Cfoll(r, CatRight(ctx), pts);
      case Or(l, r) => Cfoll(l, InOr(ctx), pts); Cfoll(r, InOr(ctx), pts);
    }
  }

  /** The marked positions as a list, highest first. */
  method ListOf(setvec: array<bool>) returns (l: seq<nat>)
    ensures l == Desc(Marks(setvec[..]), setvec.Length)
  {
    l := [];
    var i := setvec.Length;
    ghost var marks := Marks(setvec[..]);
    while i > 0
      invariant 0 <= i <= setvec.Length
      invariant l + Desc(marks, i) == Desc(marks, setvec.Length)
    {
      i := i - 1;
      DescHead(marks, l, i);
      if setvec[i] {
        l := l + [i];
      }
    }
  }

  lemma DescHead(S: set<nat>, l: seq<nat>, i: nat)
    ensures l + Desc(S, i + 1) == (if i in S then l + [i] else l) + Desc(S, i)
  {
    if i in S {
      assert l + ([i] + Desc(S, i)) == (l + [i]) + Desc(S, i);
    }
  }

  function Positions(t: Re): set<nat> {
    match t
    case Leaf(p, _) => {p}
    case Star(r) => Positions(r)
    case Plus(r) => Positions(r)
    case Quest(r) => Positions(r)
    case Cat(l, r) => Positions(l) + Positions(r)
    case Or(l, r) => Positions(l) + Positions(r)
  }

  ghost function RowAt(pts: seq<At>, q: nat): Row
    requires q < |pts|
  {
    Row(pts[q].sym, Desc(FollowSet(pts[q].ctx), |pts|))
  }

  /** f->re as it must be for the table pts. */
  ghost predicate RowsOf(re: seq<Row>, pts: seq<At>) {
    |re| == |pts| && forall q | 0 <= q < |pts| :: re[q] == RowAt(pts, q)
  }

  lemma {:induction false} NumberedPositions(t: Re, base: nat)
    ensures forall q :: q in Positions(Numbered(t, base)) <==> base <= q < base + Leaves(t)
  {
    match t
    case Leaf(_, _) =>
    case Star(r) => NumberedPositions(r, base);
    case Plus(r) => NumberedPositions(r, base);
    case Quest(r) => NumberedPositions(r, base);
    case Cat(l, r) => NumberedPositions(l, base); NumberedPositions(r, base + Leaves(l));
    case Or(l, r) => NumberedPositions(l, base); NumberedPositions(r, base + Leaves(l));
  }

  /** mkdfa up to cfoll: f->re describes the table of the whole tree. */
  method BuildRows(p: Re) returns (rows: seq<Row>)
    requires Proper(p)
    ensures RowsOf(rows, Table(p))
  {
    var n := Leaves(Whole(p));
    var b := new Builder(n);
    var t := b.Penter(Whole(p));
    LeavesNumbered(Whole(p), 0);
    NumberedIsPlaced(Whole(p), 0, Root, Table(p));
    WholeFollowable(p);
    TableCoherent(p);
    b.Cfoll(t, Root, Table(p));
    NumberedPositions(Whole(p), 0);
    rows := b.re[..];
  }
}
