/**
 The lazily built automaton of awk (usr/src/cmd/awk/b.c): makeinit, cgoto and the table they
 keep, in which a state is the descending list of the leaf positions it stands for.

 `Tab` is the value of that table; the functions on it say what the methods of `Fa` do to
 the arrays, and the lemmas say what the table means.
 */
module AwkDfa {
  import opened AwkRegex
  import opened AwkFollow

  const NSTATES: nat := 32

  datatype Tab = Tab(posns: seq<seq<nat>>, out: seq<bool>, go: seq<seq<nat>>, cur: nat, reset: bool)

  // ----- the meaning of a table -----

  /** The list of the state that state l goes to on c. */
  ghost function NextList(pts: seq<At>, l: seq<nat>, c: int): seq<nat> {
    Desc(Step(pts, Elems(l), c), |pts|)
  }

  ghost predicate Shape(T: Tab) {
    && |T.posns| == |T.out| == |T.go| == NSTATES
    && (forall s | 0 <= s < NSTATES :: |T.go[s]| == NCHARS)
    && 2 <= T.cur < NSTATES
  }

  /** A list cgoto could have built for the table pts. */
  ghost predicate IsList(pts: seq<At>, l: seq<nat>) {
    l == Desc(Elems(l), |pts|)
  }

  /** The live states 1..cur: sorted lists, all different, with the right accept marks. */
  ghost predicate Lists(pts: seq<At>, T: Tab)
    requires Shape(T)
  {
    && (forall s | 1 <= s <= T.cur :: IsList(pts, T.posns[s]))
    && (forall s | 1 <= s <= T.cur :: T.out[s] <==> |pts| - 1 in T.posns[s])
    && (forall s, s' | 1 <= s < s' <= T.cur :: T.posns[s] != T.posns[s'])
    && T.posns[1] == []
  }

  /** Transitions of live states lead to live states; state 1 only to itself. */
  ghost predicate Links(T: Tab)
    requires Shape(T)
  {
    && (forall s, c | 1 <= s <= T.cur && 0 <= c < NCHARS :: T.go[s][c] <= T.cur)
    && (forall c | 0 <= c < NCHARS :: T.go[1][c] <= 1)
  }

  ghost predicate Good(pts: seq<At>, T: Tab) {
    Shape(T) && Lists(pts, T) && Links(T)
  }

  /** Every recorded transition of a live state on a text character is the right one. */
  ghost predicate Faithful(pts: seq<At>, T: Tab)
    requires Good(pts, T)
  {
    forall s, c | 1 <= s <= T.cur && 0 <= c < HAT && T.go[s][c] != 0 ::
      T.posns[T.go[s][c]] == NextList(pts, T.posns[s], c)
  }

  // ----- cgoto on tables -----

  /** The scan for a live state with list l; 0 when there is none. */
  function Find(posns: seq<seq<nat>>, i: nat, cur: nat, l: seq<nat>): (r: nat)
    requires cur < |posns|
    ensures r == 0 ==> forall k | 1 <= k && i <= k <= cur :: posns[k] != l
    ensures r != 0 ==> i <= r <= cur && posns[r] == l
    decreases cur + 1 - i
  {
    if i > cur then 0 else if i > 0 && posns[i] == l then i else Find(posns, i + 1, cur, l)
  }

  function ZeroRow(): (r: seq<nat>)
    ensures |r| == NCHARS && forall c | 0 <= c < NCHARS :: r[c] == 0
  {
    seq(NCHARS, _ => 0)
  }

  function SetGo(go: seq<seq<nat>>, s: nat, c: nat, n: nat): seq<seq<nat>>
    requires s < |go| && c < |go[s]|
  {
    var row: seq<nat> := go[s][c := n];
    go[s := row]
  }

  /** The table after cgoto found that state s goes on c to the state with list l, and that state. */
  function Enter(T: Tab, s: nat, c: nat, l: seq<nat>, fin: bool): (Tab, nat)
    requires Shape(T) && s < NSTATES && c < NCHARS
  {
    var i := Find(T.posns, 1, T.cur, l);
    if i != 0 then (T.(go := SetGo(T.go, s, c, i)), i)
    else
      var full := T.cur >= NSTATES - 1;
      var n := if full then 2 else T.cur + 1;
      var posns := if full then T.posns[..2] + seq(NSTATES - 2, _ => []) else T.posns;
      var go := T.go[n := ZeroRow()];
      (Tab(posns[n := l], T.out[n := fin], SetGo(go, s, c, n), n, T.reset || full), n)
  }

  /** The table is full and the state is new, so numbering starts again at 2. */
  predicate Recycles(T: Tab, l: seq<nat>)
    requires Shape(T)
  {
    T.cur >= NSTATES - 1 && Find(T.posns, 1, T.cur, l) == 0
  }

  /** Recycling while in state 2: row 2 is cleared first and then given the old state's transition. */
  ghost predicate Slips(pts: seq<At>, T: Tab, s: nat, c: nat, l: seq<nat>)
    requires Shape(T)
  {
    Recycles(T, l) && s == 2 && NextList(pts, l, c) != l
  }

  lemma DescCanon(S: set<nat>, n: nat)
    ensures Desc(Elems(Desc(S, n)), n) == Desc(S, n)
  {
    var S' := set q | q in S && q < n;
    assert Elems(Desc(S, n)) == S';
    DescCut(S, n, n);
  }

  lemma {:induction false} DescCut(S: set<nat>, n: nat, m: nat)
    requires n <= m
    ensures Desc(S, n) == Desc((set q | q in S && q < m), n)
  {
    if n > 0 { DescCut(S, n - 1, m); }
  }

  /** cgoto keeps the table well formed and answers with the state it was asked for. */
  lemma EnterGood(pts: seq<At>, T: Tab, s: nat, c: nat, l: seq<nat>)
    requires Good(pts, T) && 1 <= s <= T.cur && c < NCHARS
    requires l == NextList(pts, T.posns[s], c)
    ensures var (T', n) := Enter(T, s, c, l, |pts| - 1 in l);
            && Good(pts, T') && 1 <= n <= T'.cur && T'.posns[n] == l
            && T'.reset == (T.reset || Recycles(T, l))
            && T'.posns[..2] == T.posns[..2] && T'.out[..2] == T.out[..2]
            && (!Recycles(T, l) ==> T.cur <= T'.cur && forall k | 1 <= k <= T.cur :: T'.posns[k] == T.posns[k])
  {
    DescCanon(Step(pts, Elems(T.posns[s]), c), |pts|);
    StepNone(pts, c);
    hide NextList, Desc, Elems;
    assert T.posns[1] == [];
    if Find(T.posns, 1, T.cur, l) != 0 {
      EnterKnown(pts, T, s, c, Find(T.posns, 1, T.cur, l));
    } else {
      assert s != 1;
      if Recycles(T, l) {
        EnterRecycled(pts, T, s, c, l);
      } else {
        EnterNew(pts, T, s, c, l);
      }
    }
  }

  lemma EnterRecycled(pts: seq<At>, T: Tab, s: nat, c: nat, l: seq<nat>)
    requires Good(pts, T) && 1 < s <= T.cur && c < NCHARS && IsList(pts, l) && Recycles(T, l)
    ensures var (T', n) := Enter(T, s, c, l, |pts| - 1 in l);
            Good(pts, T') && n == 2 && T'.posns[..2] == T.posns[..2] && T'.out[..2] == T.out[..2]
  {
    hide Desc, Elems, Lists, Links;
    var T' := Enter(T, s, c, l, |pts| - 1 in l).0;
    RecycledHeads(T, T', s, c, l, |pts| - 1 in l);
    FindMisses(T.posns, 1, T.cur, l);
    RecycledLists(pts, T, T', l);
    RecycledLinks(T, T', s, c);
  }

  lemma FindMisses(posns: seq<seq<nat>>, i: nat, cur: nat, l: seq<nat>)
    requires cur < |posns| && Find(posns, i, cur, l) == 0
    ensures forall k | 1 <= k && i <= k <= cur :: posns[k] != l
  {
  }

  lemma RecycledHeads(T: Tab, T': Tab, s: nat, c: nat, l: seq<nat>, fin: bool)
    requires Shape(T) && s < NSTATES && c < NCHARS && Recycles(T, l) && T' == Enter(T, s, c, l, fin).0
    ensures Shape(T') && T'.cur == 2 && T'.posns[..2] == T.posns[..2] && T'.out[..2] == T.out[..2]
    ensures T'.posns[1] == T.posns[1] && T'.posns[2] == l && T'.out[1] == T.out[1] && T'.out[2] == fin
    ensures T'.go == SetGo(T.go[2 := ZeroRow()], s, c, 2)
  {
  }

  lemma RecycledLists(pts: seq<At>, T: Tab, T': Tab, l: seq<nat>)
    requires Shape(T) && Lists(pts, T) && IsList(pts, l) && T.posns[1] != l
    requires Shape(T') && T'.cur == 2 && T'.posns[1] == T.posns[1] && T'.posns[2] == l
    requires T'.out[1] == T.out[1] && (T'.out[2] <==> |pts| - 1 in l)
    ensures Lists(pts, T')
  {
    hide IsList;
  }

  lemma RecycledLinks(T: Tab, T': Tab, s: nat, c: nat)
    requires Shape(T) && Links(T) && 1 < s <= T.cur && c < NCHARS
    requires Shape(T') && T'.cur == 2 && T'.go == SetGo(T.go[2 := ZeroRow()], s, c, 2)
    ensures Links(T')
  {
    assert T'.go[1] == T.go[1];
  }

  lemma EnterKnown(pts: seq<At>, T: Tab, s: nat, c: nat, i: nat)
    requires Good(pts, T) && 1 <= s <= T.cur && c < NCHARS && 1 <= i <= T.cur && (s == 1 ==> i == 1)
    ensures Good(pts, T.(go := SetGo(T.go, s, c, i)))
  {
  }

  lemma EnterNew(pts: seq<At>, T: Tab, s: nat, c: nat, l: seq<nat>)
    requires Good(pts, T) && 1 < s <= T.cur && c < NCHARS
    requires IsList(pts, l) && Find(T.posns, 1, T.cur, l) == 0 && T.cur < NSTATES - 1
    ensures Good(pts, Enter(T, s, c, l, |pts| - 1 in l).0)
  {
    hide Desc, Elems, Links, Lists;
    var T' := Enter(T, s, c, l, |pts| - 1 in l).0;
    NewLists(pts, T, T', l);
    NewLinks(T, T', s, c);
  }

  lemma NewLists(pts: seq<At>, T: Tab, T': Tab, l: seq<nat>)
    requires Shape(T) && Lists(pts, T) && T.cur < NSTATES - 1
    requires IsList(pts, l) && forall k | 1 <= k <= T.cur :: T.posns[k] != l
    requires Shape(T') && T'.cur == T.cur + 1 && T'.posns == T.posns[T.cur + 1 := l]
    requires T'.out == T.out[T.cur + 1 := |pts| - 1 in l]
    ensures Lists(pts, T')
  {
    hide Desc, Elems;
    assert forall k | 1 <= k <= T.cur :: T'.posns[k] == T.posns[k] && T'.out[k] == T.out[k];
  }

  lemma NewLinks(T: Tab, T': Tab, s: nat, c: nat)
    requires Shape(T) && Links(T) && 1 < s <= T.cur && c < NCHARS && T.cur < NSTATES - 1
    requires Shape(T') && T'.cur == T.cur + 1 && T'.go == SetGo(T.go[T.cur + 1 := ZeroRow()], s, c, T.cur + 1)
    ensures Links(T')
  {
    forall k, c' | 1 <= k <= T'.cur && 0 <= c' < NCHARS ensures T'.go[k][c'] <= T'.cur {
      if k <= T.cur && !(k == s && c' == c) { assert T'.go[k][c'] == T.go[k][c']; }
    }
    assert T'.go[1] == T.go[1];
  }

  lemma {:induction false} DescNone(n: nat)
    ensures Desc({}, n) == []
  {
    if n > 0 { DescNone(n - 1); }
  }

  lemma StepNone(pts: seq<At>, c: int)
    ensures NextList(pts, [], c) == []
  {
    assert Step(pts, Elems([]), c) == {};
    DescNone(|pts|);
  }

  /**
   cgoto keeps a faithful table faithful in every case but one: it recycles the table while
   in state 2, and the new state 2 does not go to itself on the character just read.
   */
  lemma EnterFaithful(pts: seq<At>, T: Tab, s: nat, c: nat, l: seq<nat>)
    requires Good(pts, T) && Faithful(pts, T) && 1 <= s <= T.cur && c < HAT
    requires l == NextList(pts, T.posns[s], c)
    ensures var (T', n) := Enter(T, s, c, l, |pts| - 1 in l);
            Good(pts, T') && (Faithful(pts, T') <==> !Slips(pts, T, s, c, l))
  {
    hide NextList, Find, Lists, Links;
    EnterGood(pts, T, s, c, l);
    var (T', n) := Enter(T, s, c, l, |pts| - 1 in l);
    if Recycles(T, l) {
      RecycledFaithful(pts, T, s, c, l);
    } else {
      AddedFaithful(pts, T, T', s, c, n);
    }
  }

  lemma AddedFaithful(pts: seq<At>, T: Tab, T': Tab, s: nat, c: nat, n: nat)
    requires Good(pts, T) && Faithful(pts, T) && Good(pts, T') && 1 <= s <= T.cur <= T'.cur && c < HAT
    requires forall k | 1 <= k <= T.cur :: T'.posns[k] == T.posns[k]
    requires n <= T'.cur && T'.posns[n] == NextList(pts, T.posns[s], c)
    requires if T'.cur == T.cur then T'.go == SetGo(T.go, s, c, n)
             else T'.cur == T.cur + 1 && T'.go == SetGo(T.go[T'.cur := ZeroRow()], s, c, n)
    ensures Faithful(pts, T')
  {
    hide NextList, Lists;
  }

  lemma RecycledFaithful(pts: seq<At>, T: Tab, s: nat, c: nat, l: seq<nat>)
    requires Good(pts, T) && Faithful(pts, T) && 1 <= s <= T.cur && c < HAT
    requires l == NextList(pts, T.posns[s], c) && Recycles(T, l)
    requires Good(pts, Enter(T, s, c, l, |pts| - 1 in l).0)
    ensures Faithful(pts, Enter(T, s, c, l, |pts| - 1 in l).0) <==> !Slips(pts, T, s, c, l)
  {
    var T' := Enter(T, s, c, l, |pts| - 1 in l).0;
    StepNone(pts, c);
    assert s != 1;
    assert T'.go[1] == T.go[1];
    FaithfulOfTwo(pts, T, T');
    if s == 2 { assert T'.go[2][c] == 2; }
  }

  /** State 1 stays faithful when every other state is given up. */
  lemma FaithfulOfTwo(pts: seq<At>, T: Tab, T': Tab)
    requires Good(pts, T) && Good(pts, T') && T'.cur == 2 && T'.go[1] == T.go[1]
    ensures forall c | 0 <= c < HAT && T'.go[1][c] != 0 :: T'.posns[T'.go[1][c]] == NextList(pts, T'.posns[1], c)
  {
    forall c | 0 <= c < HAT && T'.go[1][c] != 0
      ensures T'.posns[T'.go[1][c]] == NextList(pts, T'.posns[1], c) {
      StepNone(pts, c);
    }
  }

  // ----- tables that never fill up -----

  /** A set of lists that transitions do not leave. */
  ghost predicate Closed(pts: seq<At>, family: set<seq<nat>>) {
    [] in family && forall l, c | l in family && 0 <= c <= HAT :: NextList(pts, l, c) in family
  }

  ghost predicate Within(T: Tab, family: set<seq<nat>>)
    requires Shape(T)
  {
    forall s | 1 <= s <= T.cur :: T.posns[s] in family
  }

  /** A full table holds as many different lists as it has live states. */
  lemma {:induction false} LiveLists(posns: seq<seq<nat>>, cur: nat) returns (L: set<seq<nat>>)
    requires cur < |posns| && forall s, s' | 1 <= s < s' <= cur :: posns[s] != posns[s']
    ensures |L| == cur && forall l | l in L :: exists s | 1 <= s <= cur :: posns[s] == l
    ensures forall s | 1 <= s <= cur :: posns[s] in L
  {
    if cur == 0 {
      L := {};
    } else {
      var L' := LiveLists(posns, cur - 1);
      L := L' + {posns[cur]};
    }
  }

  lemma SubsetSize<T>(A: set<T>, B: set<T>)
    requires A <= B
    ensures |A| <= |B|
  {
    assert B == A + (B - A);
  }

  /** If the lists that can occur are few enough, the table is never recycled. */
  lemma SmallFamilyNeverRecycles(pts: seq<At>, T: Tab, s: nat, c: nat, family: set<seq<nat>>)
    requires Good(pts, T) && Closed(pts, family) && Within(T, family) && 1 <= s <= T.cur && c <= HAT
    requires |family| <= NSTATES - 1
    ensures !Recycles(T, NextList(pts, T.posns[s], c))
  {
    var l := NextList(pts, T.posns[s], c);
    if Recycles(T, l) {
      var L := LiveLists(T.posns, T.cur);
      assert l !in L;
      assert T.posns[s] in family;
      SubsetSize(L + {l}, family);
      assert false;
    }
  }

  lemma EnterWithin(pts: seq<At>, T: Tab, s: nat, c: nat, family: set<seq<nat>>)
    requires Good(pts, T) && Closed(pts, family) && Within(T, family) && 1 <= s <= T.cur && c <= HAT
    ensures var l := NextList(pts, T.posns[s], c);
            var (T', n) := Enter(T, s, c, l, |pts| - 1 in l);
            Shape(T') && Within(T', family)
  {
    EnterGood(pts, T, s, c, NextList(pts, T.posns[s], c));
  }
}
