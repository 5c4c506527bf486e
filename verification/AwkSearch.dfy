/**
 What the searches match, pmatch and nematch of awk (usr/src/cmd/awk/b.c) look for, the runs
 they make over the table of states, and why those runs find it. A text is the characters
 before its NUL, each in 1..127.
 */
module AwkSearch {
  import opened AwkRegex
  import opened AwkFollow
  import opened AwkDfa

  // ----- what the searches look for -----

  predicate IsText(text: seq<nat>) {
    forall k | 0 <= k < |text| :: 0 < text[k] < HAT
  }

  /** The character at k, within the text or at its NUL. */
  function CharAt(text: seq<nat>, k: nat): nat {
    if k < |text| then text[k] else 0
  }

  /** text[i..j], perhaps with the HAT read before it or the NUL read after it. */
  function WordOf(text: seq<nat>, hat: bool, i: nat, j: nat, nul: bool): Word
    requires i <= j <= |text|
  {
    (if hat then [HAT] else []) + text[i..j] + (if nul then [0] else [])
  }

  /** text[i..j] is in L: ^ may hold only where hats allows it, at 0, and $ only at the end. */
  ghost predicate MatchIn(L: iset<Word>, text: seq<nat>, hats: bool, i: nat, j: nat)
    requires i <= j <= |text|
  {
    || WordOf(text, false, i, j, false) in L
    || (hats && i == 0 && WordOf(text, true, i, j, false) in L)
    || (j == |text| && WordOf(text, false, i, j, true) in L)
    || (hats && i == 0 && j == |text| && WordOf(text, true, i, j, true) in L)
  }

  ghost function Language(p: Re): iset<Word> {
    iset w: Word | Lang(p, w)
  }

  /** p matches text[i..j]. */
  ghost predicate MatchAt(p: Re, text: seq<nat>, hats: bool, i: nat, j: nat)
    requires i <= j <= |text|
  {
    MatchIn(Language(p), text, hats, i, j)
  }

  ghost predicate Occurs(p: Re, text: seq<nat>, hats: bool) {
    exists i, j | 0 <= i <= j <= |text| :: MatchAt(p, text, hats, i, j)
  }

  /** b is the first place where a match of at least min characters starts, and len its longest. */
  ghost predicate LeftmostLongest(p: Re, text: seq<nat>, hats: bool, min: nat, b: nat, len: nat) {
    && b + len <= |text| && min <= len
    && MatchAt(p, text, hats, b, b + len)
    && (forall j | b + len < j <= |text| :: !MatchAt(p, text, hats, b, j))
    && NoneBefore(p, text, hats, min, b)
  }

  /** No start before b has a match of at least min characters. */
  ghost predicate NoneBefore(p: Re, text: seq<nat>, hats: bool, min: nat, b: nat) {
    forall i, j | 0 <= i < b && i + min <= j <= |text| :: !MatchAt(p, text, hats, i, j)
  }

  ghost predicate NoMatch(p: Re, text: seq<nat>, hats: bool, min: nat) {
    NoneBefore(p, text, hats, min, |text| + 1)
  }

  // ----- the sets of positions along a text -----

  ghost function From(p: Re, hats: bool, i: nat): set<nat> {
    if hats && i == 0 then BareHat(p) else Bare(p)
  }

  ghost function Upto(p: Re, text: seq<nat>, hats: bool, i: nat, k: nat): set<nat>
    requires i <= k <= |text|
  {
    Run(Table(p), From(p, hats, i), text[i..k])
  }

  ghost function ToEnd(p: Re, text: seq<nat>, hats: bool, i: nat): set<nat>
    requires i <= |text|
  {
    Step(Table(p), Upto(p, text, hats, i, |text|), 0)
  }

  ghost function Accept(p: Re): nat {
    1 + Leaves(p)
  }

  /** A match shows as the accept position after text[i..j], or after the NUL that follows it. */
  lemma UptoMatches(p: Re, text: seq<nat>, hats: bool, i: nat, j: nat)
    requires Proper(p) && i <= j <= |text|
    ensures MatchAt(p, text, hats, i, j) <==>
            Accept(p) in Upto(p, text, hats, i, j) || (j == |text| && Accept(p) in ToEnd(p, text, hats, i))
  {
    TableShape(p);
    var u := text[i..j];
    FromAccepts(p, hats, i, u);
    assert WordOf(text, false, i, j, false) == u && WordOf(text, true, i, j, false) == [HAT] + u;
    if j == |text| {
      FromAccepts(p, hats, i, u + [0]);
      RunSnoc(Table(p), From(p, hats, i), u, 0);
      assert WordOf(text, false, i, j, true) == u + [0] && WordOf(text, true, i, j, true) == [HAT] + (u + [0]);
    }
  }

  lemma FromAccepts(p: Re, hats: bool, i: nat, w: Word)
    requires Proper(p)
    ensures Accept(p) in Run(Table(p), From(p, hats, i), w) <==>
            Lang(p, w) || (hats && i == 0 && Lang(p, [HAT] + w))
  {
    TableShape(p);
    BareAccepts(p, w);
    BareHatAccepts(p, w);
  }

  lemma UptoStep(p: Re, text: seq<nat>, hats: bool, i: nat, k: nat)
    requires i <= k < |text|
    ensures Upto(p, text, hats, i, k + 1) == Step(Table(p), Upto(p, text, hats, i, k), text[k])
  {
    assert text[i..k + 1] == text[i..k] + [text[k]];
    RunSnoc(Table(p), From(p, hats, i), text[i..k], text[k]);
  }

  /** Once no position is left there is no longer match: stopping at state 1 loses nothing. */
  lemma DeadEnd(p: Re, text: seq<nat>, hats: bool, i: nat, k: nat)
    requires Proper(p) && i <= k <= |text| && Upto(p, text, hats, i, k) == {}
    ensures forall j | k <= j <= |text| :: !MatchAt(p, text, hats, i, j)
  {
    forall j | k <= j <= |text| ensures !MatchAt(p, text, hats, i, j) {
      assert text[i..j] == text[i..k] + text[k..j];
      RunSplit(Table(p), From(p, hats, i), text[i..k], text[k..j]);
      RunEmpty(Table(p), text[k..j]);
      UptoMatches(p, text, hats, i, j);
    }
  }

  lemma {:induction false} RunSplit(pts: seq<At>, S: set<nat>, u: Word, v: Word)
    ensures Run(pts, S, u + v) == Run(pts, Run(pts, S, u), v)
    decreases |u|
  {
    if u == [] {
      assert u + v == v;
    } else {
      assert (u + v)[1..] == u[1..] + v;
      RunSplit(pts, Step(pts, S, u[0]), u[1..], v);
    }
  }

  // ----- bounds -----

  ghost predicate InTable(S: set<nat>, pts: seq<At>) {
    forall q | q in S :: q < |pts|
  }

  lemma StepInTable(p: Re, S: set<nat>, c: int)
    requires Proper(p)
    ensures InTable(Step(Table(p), S, c), Table(p))
  {
    var pts := Table(p);
    TableCoherent(p);
    forall r | r in Step(pts, S, c) ensures r < |pts| {
      var q: nat :| q in S && q < |pts| && Matches(pts[q].sym, c) && r in FollowSet(pts[q].ctx);
      FollowInTable(pts[q].ctx, pts);
    }
  }

  lemma StartsInTable(p: Re)
    requires Proper(p)
    ensures InTable(Scanning(p), Table(p)) && InTable(ScanningHat(p), Table(p))
  {
    TableCoherent(p);
    TableShape(p);
    FollowInTable(Table(p)[0].ctx, Table(p));
    StepInTable(p, Scanning(p), HAT);
  }

  // ----- the lists of the initial states -----

  ghost function Home(p: Re, anchor: bool): seq<nat> {
    Desc(if anchor then Bare(p) else Scanning(p), |Table(p)|)
  }

  ghost function Entry(p: Re, anchor: bool): seq<nat> {
    Desc(if anchor then BareHat(p) else ScanningHat(p), |Table(p)|)
  }

  /** The state makeinit returns: 2 when no leaf matches ^ at the start, else 3. */
  ghost function EntryState(p: Re): nat {
    if Scanning(p) == ScanningHat(p) then 2 else 3
  }

  lemma HomeEntry(p: Re, anchor: bool)
    requires Proper(p)
    ensures Home(p, anchor) != [] && Entry(p, anchor) != []
    ensures Home(p, anchor) == Entry(p, anchor) <==> EntryState(p) == 2
    ensures Elems(Home(p, anchor)) == if anchor then Bare(p) else Scanning(p)
    ensures Elems(Entry(p, anchor)) == if anchor then BareHat(p) else ScanningHat(p)
  {
    hide Table, Scanning, ScanningHat, Bare, BareHat, Proper;
    StartsInTable(p);
    StartSets(p);
    if anchor {
      StartLists(Bare(p), BareHat(p), |Table(p)|);
    } else {
      StartLists(Scanning(p), ScanningHat(p), |Table(p)|);
    }
  }

  lemma StartSets(p: Re)
    requires Proper(p)
    ensures Bare(p) != {} && Bare(p) <= BareHat(p) && 0 !in BareHat(p)
    ensures Scanning(p) == {0} + Bare(p) && ScanningHat(p) == {0} + BareHat(p)
    ensures Bare(p) == BareHat(p) <==> EntryState(p) == 2
  {
    ZeroOnlyFollowsZero(p);
    BareHatSplits(p);
    ZeroApart(Scanning(p), ScanningHat(p));
  }

  lemma ZeroApart(S: set<nat>, S': set<nat>)
    requires 0 in S && 0 in S'
    ensures S == {0} + (S - {0}) && S' == {0} + (S' - {0})
    ensures S == S' <==> S - {0} == S' - {0}
  {
  }

  lemma StartLists(S: set<nat>, S': set<nat>, n: nat)
    requires S != {} && S <= S' && forall q | q in S' :: q < n
    ensures Desc(S, n) != [] && Desc(S', n) != []
    ensures Desc(S, n) == Desc(S', n) <==> S == S'
    ensures Elems(Desc(S, n)) == S && Elems(Desc(S', n)) == S'
  {
    var q :| q in S;
    assert q in Desc(S, n) && q in Desc(S', n);
    DescNamesSet(S, S', n);
    DescElems(S, n);
    DescElems(S', n);
  }

  // ----- the tables makeinit goes through -----

  /** State 1 is the dead state. */
  ghost predicate HasDead(T: Tab) {
    && |T.posns| == |T.out| == |T.go| == NSTATES
    && (forall s | 0 <= s < NSTATES :: |T.go[s]| == NCHARS)
    && T.posns[1] == [] && !T.out[1] && (forall c | 0 <= c < NCHARS :: T.go[1][c] <= 1)
  }

  /** Only state 2 exists, with list home and no transitions yet. */
  ghost predicate OnlyHome(pts: seq<At>, home: seq<nat>, T: Tab) {
    && HasDead(T) && T.cur == 2 && !T.reset
    && T.posns[2] == home && (forall c | 0 <= c < NCHARS :: T.go[2][c] == 0)
    && (T.out[2] <==> |pts| - 1 in home)
  }

  /** State 2 has list home, the last state list entry, and neither has a transition on a text character. */
  ghost predicate Initial(pts: seq<At>, home: seq<nat>, entry: seq<nat>, T: Tab) {
    && Good(pts, T) && !T.reset && T.cur == (if home == entry then 2 else 3)
    && T.posns[2] == home && T.posns[T.cur] == entry
    && (forall s, c | 2 <= s <= T.cur && 0 <= c < HAT :: T.go[s][c] == 0)
  }

  lemma OnlyHomeGood(pts: seq<At>, home: seq<nat>, T: Tab)
    requires OnlyHome(pts, home, T) && home != [] && IsList(pts, home)
    ensures Good(pts, T)
  {
    DescNone(|pts|);
    assert Elems(T.posns[1]) == {};
  }

  lemma FindOfTwo(posns: seq<seq<nat>>, l: seq<nat>)
    requires |posns| > 2 && posns[1] != l
    ensures Find(posns, 1, 2, l) == if posns[2] == l then 2 else 0
  {
    assert Find(posns, 1, 2, l) == Find(posns, 2, 2, l);
    assert Find(posns, 3, 2, l) == 0;
  }

  lemma HatState(pts: seq<At>, home: seq<nat>, entry: seq<nat>, T: Tab)
    requires OnlyHome(pts, home, T) && home != [] && IsList(pts, home)
    requires entry == NextList(pts, home, HAT) && entry != []
    ensures var (T', n) := Enter(T, 2, HAT, entry, |pts| - 1 in entry);
            Initial(pts, home, entry, T') && n == T'.cur && T'.posns[..2] == T.posns[..2]
  {
    OnlyHomeGood(pts, home, T);
    EnterGood(pts, T, 2, HAT, entry);
    FindOfTwo(T.posns, entry);
    var (T', n) := Enter(T, 2, HAT, entry, |pts| - 1 in entry);
    if entry == T.posns[2] {
      assert T' == T.(go := SetGo(T.go, 2, HAT, 2));
    } else {
      assert T'.go == SetGo(T.go[3 := ZeroRow()], 2, HAT, 3);
    }
  }

  /** Putting other lists, with the same accept marks, in the initial states keeps the table well formed. */
  lemma ReplaceInitial(pts: seq<At>, home: seq<nat>, entry: seq<nat>, T: Tab,
                       home': seq<nat>, entry': seq<nat>, T': Tab)
    requires Initial(pts, home, entry, T) && IsList(pts, home') && IsList(pts, entry') && home' != [] && entry' != []
    requires (home == entry <==> home' == entry')
    requires (|pts| - 1 in home <==> |pts| - 1 in home') && (|pts| - 1 in entry <==> |pts| - 1 in entry')
    requires Shape(T') && T'.cur == T.cur && !T'.reset && T'.go == T.go
    requires forall s | 1 <= s <= T.cur :: T'.out[s] == T.out[s]
    requires T'.posns[1] == T.posns[1] && T'.posns[2] == home' && T'.posns[T.cur] == entry'
    ensures Initial(pts, home', entry', T')
  {
    assert Links(T');
    forall s | 1 <= s <= T'.cur
      ensures IsList(pts, T'.posns[s]) && (T'.out[s] <==> |pts| - 1 in T'.posns[s]) {
      if s == 1 {
        DescNone(|pts|);
        assert Elems(T'.posns[1]) == {};
      }
    }
  }

  lemma InitialFaithful(pts: seq<At>, home: seq<nat>, entry: seq<nat>, T: Tab)
    requires Initial(pts, home, entry, T)
    ensures Faithful(pts, T)
  {
    forall s, c | 1 <= s <= T.cur && 0 <= c < HAT && T.go[s][c] != 0
      ensures T.posns[T.go[s][c]] == NextList(pts, T.posns[s], c) {
      assert s == 1;
      StepNone(pts, c);
    }
  }

  lemma HomeToHat(p: Re, T: Tab)
    requires Proper(p) && OnlyHome(Table(p), Home(p, false), T)
    ensures Good(Table(p), T) && NextList(Table(p), T.posns[2], HAT) == Entry(p, false)
    ensures var (T', n) := Enter(T, 2, HAT, Entry(p, false), Accept(p) in Entry(p, false));
            Initial(Table(p), Home(p, false), Entry(p, false), T') && n == T'.cur && HasDead(T')
  {
    hide Table, Scanning, EntryState, Proper, Lists, Links, IsList;
    HomeEntry(p, false);
    StartsCanon(p, false);
    TableShape(p);
    OnlyHomeGood(Table(p), Home(p, false), T);
    HatState(Table(p), Home(p, false), Entry(p, false), T);
  }

  lemma GoodHasDead(pts: seq<At>, T: Tab)
    requires Good(pts, T)
    ensures HasDead(T) && (T.out[2] <==> |pts| - 1 in T.posns[2])
  {
  }

  /** What leaving out position 0 makes of the initial table. */
  lemma Unscanned(p: Re, T: Tab, T': Tab)
    requires Proper(p) && Initial(Table(p), Home(p, false), Entry(p, false), T)
    requires Shape(T') && T'.cur == T.cur && !T'.reset && T'.go == T.go
    requires forall s | 1 <= s <= T.cur :: T'.out[s] == T.out[s]
    requires T'.posns[1] == T.posns[1] && T'.posns[2] == Home(p, true) && T'.posns[T.cur] == Entry(p, true)
    ensures Initial(Table(p), Home(p, true), Entry(p, true), T') && HasDead(T')
    ensures T'.out[2] <==> Accept(p) in Home(p, true)
  {
    hide Table, Desc, Elems, Scanning, ScanningHat, Bare, BareHat, EntryState, Proper, Home, Entry, IsList, Lists,
        Links;
    HomeEntry(p, false);
    HomeEntry(p, true);
    StartsCanon(p, true);
    SameAccept(p);
    TableShape(p);
    ReplaceInitial(Table(p), Home(p, false), Entry(p, false), T, Home(p, true), Entry(p, true), T');
    GoodHasDead(Table(p), T');
  }

  lemma StartsCanon(p: Re, anchor: bool)
    requires Proper(p)
    ensures IsList(Table(p), Home(p, anchor)) && IsList(Table(p), Entry(p, anchor))
  {
    HomeEntry(p, anchor);
  }

  lemma SameAccept(p: Re)
    requires Proper(p)
    ensures Accept(p) in Home(p, false) <==> Accept(p) in Home(p, true)
    ensures Accept(p) in Entry(p, false) <==> Accept(p) in Entry(p, true)
  {
    hide Table, Desc, Scanning, ScanningHat, EntryState, Proper, Home, Entry, Bare, BareHat;
    StartSets(p);
    HomeEntry(p, false);
    HomeEntry(p, true);
    assert Accept(p) in Home(p, false) <==> Accept(p) in Elems(Home(p, false));
    assert Accept(p) in Home(p, true) <==> Accept(p) in Elems(Home(p, true));
    assert Accept(p) in Entry(p, false) <==> Accept(p) in Elems(Entry(p, false));
    assert Accept(p) in Entry(p, true) <==> Accept(p) in Elems(Entry(p, true));
  }

  lemma DropZero(p: Re)
    requires Proper(p)
    ensures Home(p, false) != [] && Home(p, false)[..|Home(p, false)| - 1] == Home(p, true)
    ensures Entry(p, false) != [] && Entry(p, false)[..|Entry(p, false)| - 1] == Entry(p, true)
  {
    StartSets(p);
    TableShape(p);
    DescDropZero(Scanning(p), |Table(p)|);
    DescDropZero(ScanningHat(p), |Table(p)|);
  }

  /** The characters match reads: the text and its NUL. */
  function Fed(text: seq<nat>): Word {
    text + [0]
  }

  ghost function Prefix(p: Re, text: seq<nat>, q: nat): set<nat>
    requires q <= |text| + 1
  {
    Run(Table(p), ScanningHat(p), Fed(text)[..q])
  }

  lemma NothingFed(p: Re, text: seq<nat>)
    ensures Prefix(p, text, 0) == ScanningHat(p)
  {
    assert Fed(text)[..0] == [];
  }

  lemma Answered(p: Re, text: seq<nat>, q: nat, found: bool)
    requires Proper(p) && IsText(text) && q <= |text| + 1 && (found || q == |text| + 1)
    requires (found <==> Accept(p) in Prefix(p, text, q)) && forall k | 0 <= k < q :: Accept(p) !in Prefix(p, text, k)
    ensures found <==> Occurs(p, text, true)
  {
    FedMatches(p, text);
  }

  lemma PrefixStep(p: Re, text: seq<nat>, q: nat)
    requires q <= |text|
    ensures Prefix(p, text, q + 1) == Step(Table(p), Prefix(p, text, q), CharAt(text, q))
  {
    assert Fed(text)[..q + 1] == Fed(text)[..q] + [CharAt(text, q)];
    RunSnoc(Table(p), ScanningHat(p), Fed(text)[..q], CharAt(text, q));
  }

  /** Some prefix of what is read is accepted exactly when the text contains a match. */
  lemma FedMatches(p: Re, text: seq<nat>)
    requires Proper(p) && IsText(text)
    ensures Occurs(p, text, true) <==> exists k | 0 <= k <= |text| + 1 :: Accept(p) in Prefix(p, text, k)
  {
    TableShape(p);
    var n := |text|;
    forall k | 0 <= k <= n + 1
      ensures Accept(p) in Prefix(p, text, k) <==>
              Lang(p, [HAT] + Fed(text)[..k]) || SuffixIn(p, Fed(text)[..k]) {
      ScanningHatAccepts(p, Fed(text)[..k]);
    }
    if k: nat :| k <= n + 1 && Accept(p) in Prefix(p, text, k) {
      PrefixOccurs(p, text, k);
    }
    if i: nat, j: nat :| i <= j <= n && MatchAt(p, text, true, i, j) {
      var k := OccursPrefix(p, text, i, j);
    }
  }

  lemma PrefixOccurs(p: Re, text: seq<nat>, k: nat)
    requires IsText(text) && k <= |text| + 1
    requires Lang(p, [HAT] + Fed(text)[..k]) || SuffixIn(p, Fed(text)[..k])
    ensures Occurs(p, text, true)
  {
    var n, w := |text|, Fed(text)[..k];
    var j, nul := if k <= n then k else n, k > n;
    if Lang(p, [HAT] + w) {
      assert WordOf(text, true, 0, j, nul) == [HAT] + w;
      assert MatchAt(p, text, true, 0, j);
    } else {
      var i: nat :| i <= |w| && SuffixAt(p, w, i);
      assert nul ==> !NoNul(w) by {
        if nul { assert w[n] == 0; }
      }
      assert w[..|w|] == w;
      assert WordOf(text, false, i, j, nul) == w[i..];
      assert MatchAt(p, text, true, i, j);
    }
  }

  lemma OccursPrefix(p: Re, text: seq<nat>, i: nat, j: nat) returns (k: nat)
    requires IsText(text) && i <= j <= |text| && MatchAt(p, text, true, i, j)
    ensures k <= |text| + 1 && (Lang(p, [HAT] + Fed(text)[..k]) || SuffixIn(p, Fed(text)[..k]))
  {
    assert MatchIn(Language(p), text, true, i, j);
    var nul := !(Lang(p, WordOf(text, false, i, j, false)) || (i == 0 && Lang(p, WordOf(text, true, i, j, false))));
    assert nul ==> j == |text|;
    k := if nul then |text| + 1 else j;
    var w := Fed(text)[..k];
    assert WordOf(text, false, i, j, nul) == w[i..];
    assert i == 0 ==> WordOf(text, true, i, j, nul) == [HAT] + w;
    assert NoNul(w[..i]);
    assert SuffixAt(p, w, i) <==> Lang(p, w[i..]);
  }

  /** patlen is the longest match from p that ends before q and is long enough, if there is one. */
  ghost predicate Best(p: Re, text: seq<nat>, hats: bool, i: nat, q: nat, min: nat, patlen: int)
    requires i <= q <= |text| + 1
  {
    if patlen < min then forall j | i + min <= j < q && j <= |text| :: !Plain(p, text, hats, i, j)
    else
      && i + patlen < q && i + patlen <= |text| && Plain(p, text, hats, i, i + patlen)
      && forall j | i + patlen < j < q && j <= |text| :: !Plain(p, text, hats, i, j)
  }

  /** Accepted before the NUL is looked at. */
  ghost predicate Plain(p: Re, text: seq<nat>, hats: bool, i: nat, j: nat)
    requires i <= j <= |text|
  {
    Accept(p) in Upto(p, text, hats, i, j)
  }

  lemma NothingRead(p: Re, text: seq<nat>, hats: bool, i: nat, min: nat, len: int)
    requires i <= |text| && len < min
    ensures Best(p, text, hats, i, i, min, len) && Upto(p, text, hats, i, i) == From(p, hats, i)
  {
    assert text[i..i] == [];
  }

  lemma BestStep(p: Re, text: seq<nat>, hats: bool, i: nat, q: nat, min: nat, patlen: int)
    requires i <= q <= |text| && Best(p, text, hats, i, q, min, patlen)
    ensures Best(p, text, hats, i, q + 1, min, if Accept(p) in Upto(p, text, hats, i, q) then q - i else patlen)
    ensures Step(Table(p), Upto(p, text, hats, i, q), CharAt(text, q)) ==
            if q < |text| then Upto(p, text, hats, i, q + 1) else ToEnd(p, text, hats, i)
  {
    if q < |text| { UptoStep(p, text, hats, i, q); }
  }

  /** The outcome of one attempt: the longest match from i if it is long enough. */
  ghost predicate Outcome(p: Re, text: seq<nat>, hats: bool, i: nat, min: nat, patlen: int)
    requires i <= |text|
  {
    if patlen < min then forall j | i + min <= j <= |text| :: !MatchAt(p, text, hats, i, j)
    else
      && i + patlen <= |text| && MatchAt(p, text, hats, i, i + patlen)
      && forall j | i + patlen < j <= |text| :: !MatchAt(p, text, hats, i, j)
  }

  /** What the outcome at start b adds to what is known of the starts before it. */
  lemma OutcomeAt(p: Re, text: seq<nat>, hats: bool, min: nat, b: nat, patlen: int)
    requires b <= |text| && NoneBefore(p, text, hats, min, b) && Outcome(p, text, hats, b, min, patlen)
    ensures if patlen < min then NoneBefore(p, text, hats, min, b + 1)
            else LeftmostLongest(p, text, hats, min, b, patlen)
  {
  }

  /** No position is left after q - 1 characters (or after the NUL): the best so far is the best. */
  lemma Concluded(p: Re, text: seq<nat>, hats: bool, i: nat, q: nat, min: nat, patlen: int)
    requires Proper(p) && i <= |text| && i <= q <= |text| + 1 && Best(p, text, hats, i, q, min, patlen)
    requires (if q <= |text| then Upto(p, text, hats, i, q) else ToEnd(p, text, hats, i)) == {}
    ensures Outcome(p, text, hats, i, min, patlen)
  {
    forall j | i <= j <= |text| ensures MatchAt(p, text, hats, i, j) <==> j < q && Plain(p, text, hats, i, j) {
      UptoMatches(p, text, hats, i, j);
      if q <= |text| { DeadEnd(p, text, hats, i, q); }
    }
  }

  /** The NUL has been read: a match of $ counts with the text up to its end. */
  lemma Ended(p: Re, text: seq<nat>, hats: bool, i: nat, min: nat, patlen: int)
    requires Proper(p) && i <= |text|
    requires if Accept(p) in ToEnd(p, text, hats, i) then patlen == |text| - i
             else Best(p, text, hats, i, |text| + 1, min, patlen)
    ensures Outcome(p, text, hats, i, min, patlen)
  {
    forall j | i <= j <= |text|
      ensures MatchAt(p, text, hats, i, j) <==>
              Plain(p, text, hats, i, j) || (j == |text| && Accept(p) in ToEnd(p, text, hats, i)) {
      UptoMatches(p, text, hats, i, j);
    }
  }

  /** State 2 rebuilt from state 0, with every other state but the dead one gone. */
  lemma Rebuilt(p: Re, T: Tab, T': Tab)
    requires Proper(p) && Good(Table(p), T)
    requires Shape(T') && T'.cur == 2 && T'.posns[1] == [] && T'.posns[2] == Home(p, true)
    requires T'.go[1] == T.go[1] && T'.out[1] == T.out[1] && T'.go[2] == ZeroRow() &&
             (T'.out[2] <==> Accept(p) in Home(p, true))
    ensures Good(Table(p), T') && Faithful(Table(p), T')
  {
    TableShape(p);
    HomeEntry(p, true);
    StartsCanon(p, true);
    RebuiltGood(Table(p), Home(p, true), T, T');
    FaithfulOfTwo(Table(p), T, T');
  }

  lemma RebuiltGood(pts: seq<At>, home: seq<nat>, T: Tab, T': Tab)
    requires Good(pts, T) && IsList(pts, home) && home != []
    requires Shape(T') && T'.cur == 2 && T'.posns[1] == [] && T'.posns[2] == home
    requires T'.go[1] == T.go[1] && T'.out[1] == T.out[1] && T'.go[2] == ZeroRow() && (T'.out[2] <==> |pts| - 1 in home)
    ensures Good(pts, T')
  {
    hide Desc;
    DescNone(|pts|);
    assert Elems(T'.posns[1]) == {};
    assert T.posns[1] == [];
  }

  lemma StepSnoc(pts: seq<At>, p: seq<nat>, i: nat, c: int)
    requires i < |p| && p[i] < |pts|
    ensures Step(pts, Elems(p[..i + 1]), c) ==
            Step(pts, Elems(p[..i]), c) + if Matches(pts[p[i]].sym, c) then FollowSet(pts[p[i]].ctx) else {}
  {
    assert p[..i + 1] == p[..i] + [p[i]];
    assert Elems(p[..i + 1]) == Elems(p[..i]) + {p[i]};
    StepUnion(pts, Elems(p[..i]), {p[i]}, c);
    StepOne(pts, p[i], c);
  }

  lemma RowElems(p: Re, k: nat)
    requires Proper(p) && k < |Table(p)|
    ensures Elems(Desc(FollowSet(Table(p)[k].ctx), |Table(p)|)) == FollowSet(Table(p)[k].ctx)
  {
    TableCoherent(p);
    FollowInTable(Table(p)[k].ctx, Table(p));
    DescElems(FollowSet(Table(p)[k].ctx), |Table(p)|);
  }
}
