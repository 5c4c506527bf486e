/**
 A finite family of lists that transitions do not leave always exists, so an automaton can be made
 for every expression; a small one rules slips out; lists are named by their members.
 */
module AwkLimits {
  import opened AwkRegex
  import opened AwkFollow
  import opened AwkDfa
  import opened AwkSearch
  import opened AwkRun

  /** Every descending list of positions below n. */
  ghost function AllLists(n: nat): set<seq<nat>> {
    if n == 0 then {[]} else
    var shorter := AllLists(n - 1);
    shorter + set l | l in shorter :: [n - 1] + l
  }

  lemma {:induction false} DescInAll(S: set<nat>, n: nat)
    ensures Desc(S, n) in AllLists(n)
  {
    if n > 0 { DescInAll(S, n - 1); }
  }

  /** Some finite family is closed and holds the initial lists, so an automaton can always be made. */
  lemma ClosedFamilyExists(p: Re, anchor: bool)
    requires Proper(p)
    ensures var family := AllLists(|Table(p)|);
            Closed(Table(p), family) && Home(p, anchor) in family && Entry(p, anchor) in family
  {
    var pts := Table(p);
    var family := AllLists(|pts|);
    forall l, c | l in family && 0 <= c <= HAT ensures NextList(pts, l, c) in family {
      DescInAll(Step(pts, Elems(l), c), |pts|);
    }
    DescNone(|pts|);
    DescInAll({}, |pts|);
    DescInAll(if anchor then Bare(p) else Scanning(p), |pts|);
    DescInAll(if anchor then BareHat(p) else ScanningHat(p), |pts|);
  }

  // ----- expressions that fit the table -----

  /** A family of at most 31 lists that holds the initial ones and that transitions do not leave. */
  ghost predicate Fits(p: Re, anchor: bool, family: set<seq<nat>>) {
    Closed(Table(p), family) && Home(p, anchor) in family && Entry(p, anchor) in family && |family| <= NSTATES - 1
  }

  /** Few enough lists: a new automaton never slips in a search, whatever the text. */
  lemma FewListsNoSlip(p: Re, text: seq<nat>, family: set<seq<nat>>)
    requires Proper(p) && IsText(text) && Fits(p, true, family)
    ensures !Call(p, New(p, true), EntryState(p), text, 0).slip
  {
    hide Table, Home, Entry, Initial, SearchOn, Held;
    var T, s := New(p, true), EntryState(p);
    StartUnreset(p, true, T);
    FreshKeeps(p, true, family, T);
    SearchStarts(p, family, T, text, true, s, 0, s);
    SearchRight(p, family, T, text, true, 0, s, 0, -1, s, false);
  }

  lemma FewListsNoSlipMatch(p: Re, text: seq<nat>, family: set<seq<nat>>)
    requires Proper(p) && IsText(text) && Fits(p, false, family)
    ensures !CallMatch(p, New(p, false), text).slip
  {
    hide Table, Home, Entry, Initial, MatchOn, Held;
    var T := New(p, false);
    StartUnreset(p, false, T);
    FreshKeeps(p, false, family, T);
    MatchStarts(p, family, T, text);
    MatchRight(p, family, T, text, 0, EntryState(p), false);
  }

  lemma StartUnreset(p: Re, anchor: bool, T: Tab)
    requires Held(p, anchor, T) && Initial(Table(p), Home(p, anchor), Entry(p, anchor), T)
    ensures !T.reset && Spare(p, anchor, T)
  {
  }

  // ----- lists by their members -----

  lemma StepTwo(pts: seq<At>, q: nat, r: nat, c: int)
    requires q < |pts| && r < |pts| && Matches(pts[q].sym, c) && !Matches(pts[r].sym, c)
    ensures Step(pts, {r, q}, c) == FollowSet(pts[q].ctx)
  {
    assert {r, q} == {q} + {r};
    StepUnion(pts, {q}, {r}, c);
    StepOne(pts, q, c);
    StepOne(pts, r, c);
  }

  /** A descending list is the list of its members. */
  lemma DescOf(pts: seq<At>, S: set<nat>, l: seq<nat>)
    requires Elems(l) == S && (forall i, j | 0 <= i < j < |l| :: l[i] > l[j]) && forall q | q in l :: q < |pts|
    ensures Desc(S, |pts|) == l
  {
    SortedUnique(Desc(S, |pts|), l);
  }

  lemma SomeElem(b: seq<nat>)
    ensures b != [] ==> Elems(b) != {}
  {
    if b != [] { assert b[0] in Elems(b); }
  }

  lemma {:induction false} SortedUnique(a: seq<nat>, b: seq<nat>)
    requires Elems(a) == Elems(b)
    requires (forall i, j | 0 <= i < j < |a| :: a[i] > a[j]) && (forall i, j | 0 <= i < j < |b| :: b[i] > b[j])
    ensures a == b
    decreases |a|
  {
    if a == [] {
      SomeElem(b);
    } else {
      assert a[0] in Elems(b) && b != [] && b[0] in Elems(a);
      assert a[0] == b[0];
      assert forall q :: q in Elems(a[1..]) <==> q in Elems(a) && q != a[0];
      assert forall q :: q in Elems(b[1..]) <==> q in Elems(b) && q != b[0];
      assert Elems(a[1..]) == Elems(b[1..]);
      SortedUnique(a[1..], b[1..]);
    }
  }
}
