/**
 The automaton object of awk (struct fa) and the three searches over it: match, pmatch and
 nematch (usr/src/cmd/awk/b.c). The searches are the runs of AwkSearch over the arrays.
 */
module AwkFa {
  import opened AwkRegex
  import opened AwkFollow
  import opened AwkDfa
  import opened AwkSearch
  import opened AwkRun

  // ----- the automaton object -----

  class Fa {
    ghost const user: Re
    const anchor: bool
    const re: seq<Row>
    const accept: nat
    ghost const family: set<seq<nat>>

    var initstat: nat
    var curstat: nat
    var reset: bool
    const posns: array<seq<nat>>
    const out: array<bool>
    const gototab: array<seq<nat>>

    ghost predicate Frame() {
      && Proper(user) && RowsOf(re, Table(user)) && accept == Accept(user)
      && posns.Length == out.Length == gototab.Length == NSTATES && posns != gototab
      && Closed(Table(user), family) && Home(user, anchor) in family && Entry(user, anchor) in family
    }

    ghost function T(): Tab
      reads this, posns, out, gototab
    {
      Tab(posns[..], out[..], gototab[..], curstat, reset)
    }

    ghost predicate Running()
      reads this, posns, out, gototab
    {
      Frame() && Keeps(user, anchor, family, T())
    }

    ghost predicate Valid()
      reads this, posns, out, gototab
    {
      Running() && (initstat == EntryState(user) || (anchor && initstat == 2))
    }

    /** When few enough lists can occur the table is never recycled. */
    lemma FewLists()
      requires Running()
      ensures |family| <= NSTATES - 1 ==> !reset
    {
    }

    /** Marks in setvec the positions that can follow a position of list p matching c. */
    method Collect(p: seq<nat>, c: nat) returns (setvec: array<bool>)
      requires Frame() && forall q | q in p :: q <= accept
      ensures fresh(setvec) && setvec.Length == accept + 1
      ensures Marks(setvec[..]) == Step(Table(user), Elems(p), c)
    {
      TableShape(user);
      setvec := new bool[accept + 1](_ => false);
      assert Marks(setvec[..]) == {};
      var i := 0;
      while i < |p|
        invariant 0 <= i <= |p|
        invariant Marks(setvec[..]) == Step(Table(user), Elems(p[..i]), c)
      {
        var k := p[i];
        assert k in p;
        StepSnoc(Table(user), p, i, c);
        if Matches(re[k].sym, c) {
          MarkAll(setvec, re[k].lfollow);
          RowElems(user, k);
        }
        i := i + 1;
      }
      assert p[..|p|] == p;
    }

    /** The loop over one follow list. */
    method MarkAll(setvec: array<bool>, q: seq<nat>)
      requires forall r | r in q :: r < setvec.Length
      modifies setvec
      ensures Marks(setvec[..]) == old(Marks(setvec[..])) + Elems(q)
    {
      var j := 0;
      while j < |q|
        invariant 0 <= j <= |q|
        invariant Marks(setvec[..]) == old(Marks(setvec[..])) + Elems(q[..j])
      {
        assert q[j] in q;
        ghost var was := setvec[..];
        setvec[q[j]] := true;
        MarksUpdate(was, q[j]);
        assert setvec[..] == was[q[j] := true];
        assert q[..j + 1] == q[..j] + [q[j]];
        j := j + 1;
      }
      assert q[..|q|] == q;
    }

    /** The live state whose list is l; 0 when there is none. */
    method Known(l: seq<nat>) returns (r: nat)
      requires Frame() && Shape(T())
      ensures r == Find(T().posns, 1, curstat, l)
    {
      ghost var lists := posns[..];
      var i := 1;
      while i <= curstat
        invariant 1 <= i <= curstat + 1
        invariant Find(lists, 1, curstat, l) == Find(lists, i, curstat, l)
      {
        if posns[i] == l {
          return i;
        }
        i := i + 1;
      }
      r := 0;
    }

    /** Makes room for a new state, giving up all states from 2 on when the table is full. */
    method Room()
      requires Frame() && Shape(T())
      modifies this`curstat, this`reset, posns
      ensures curstat == if old(curstat) >= NSTATES - 1 then 2 else old(curstat) + 1
      ensures reset == (old(reset) || old(curstat) >= NSTATES - 1)
      ensures posns[..] == if old(curstat) >= NSTATES - 1 then old(posns[..2]) + seq(NSTATES - 2, _ => [])
              else old(posns[..])
    {
      if curstat >= NSTATES - 1 {
        curstat := 2;
        reset := true;
        var i := 2;
        while i < NSTATES
          modifies posns
          invariant 2 <= i <= NSTATES
          invariant posns[..2] == old(posns[..2]) && forall k | 2 <= k < i :: posns[k] == []
        {
          posns[i] := [];
          i := i + 1;
        }
        assert posns[..] == old(posns[..2]) + seq(NSTATES - 2, _ => []);
      } else {
        curstat := curstat + 1;
      }
    }

    /** The state to go to from s on c, entered in the table. */
    method Cgoto(s: nat, c: nat) returns (ns: nat, ghost slip: bool)
      requires Frame() && Good(Table(user), T()) && 1 <= s <= curstat && c < NCHARS
      modifies this`curstat, this`reset, posns, out, gototab
      ensures var l := NextList(Table(user), old(T()).posns[s], c);
              && (T(), ns) == Enter(old(T()), s, c, l, accept in l)
              && slip == Slips(Table(user), old(T()), s, c, l)
    {
      ghost var t := T();
      var tmpset, fin := Target(s, c);
      slip := Slips(Table(user), t, s, c, tmpset);
      var i := Known(tmpset);
      if i != 0 {
        assert gototab[s] == t.go[s];
        gototab[s] := gototab[s][c := i];
        ns := i;
        assert gototab[..] == SetGo(t.go, s, c, i);
      } else {
        Room();
        ns := curstat;
        assert Shape(T());
        Add(s, c, tmpset, fin);
      }
    }

    /** The positions that follow state s on c as a list, and whether the accept position is among them. */
    method Target(s: nat, c: nat) returns (tmpset: seq<nat>, fin: bool)
      requires Frame() && Good(Table(user), T()) && 1 <= s <= curstat && c < NCHARS
      ensures tmpset == NextList(Table(user), T().posns[s], c) && (fin <==> accept in tmpset)
    {
      TableShape(user);
      var p := posns[s];
      assert p == T().posns[s];
      var setvec := Collect(p, c);
      tmpset := ListOf(setvec);
      fin := setvec[accept];
      assert fin <==> accept in Marks(setvec[..]);
    }

    /** Writes the entries of the state just numbered. */
    method Add(s: nat, c: nat, tmpset: seq<nat>, fin: bool)
      requires Frame() && Shape(T()) && s < NSTATES && c < NCHARS
      modifies posns, out, gototab
      ensures T() == Tab(old(posns[..])[curstat := tmpset], old(out[..])[curstat := fin],
                         SetGo(old(gototab[..])[curstat := ZeroRow()], s, c, curstat), curstat, reset)
    {
      ghost var t := T();
      assert |ZeroRow()| == NCHARS && |t.go[s]| == NCHARS && t.go[s] == gototab[s];
      gototab[curstat] := ZeroRow();
      assert gototab[..] == t.go[curstat := ZeroRow()];
      assert gototab[s] == t.go[curstat := ZeroRow()][s];
      gototab[s] := gototab[s][c := curstat];
      assert gototab[..] == SetGo(t.go[curstat := ZeroRow()], s, c, curstat);
      posns[curstat] := tmpset;
      assert posns[..] == t.posns[curstat := tmpset];
      out[curstat] := fin;
      assert out[..] == t.out[curstat := fin];
    }
  
    /** What makeinit needs of the arrays. */
    ghost predicate Rooted()
      reads this, posns, out, gototab
    {
      HasDead(T())
    }

    ghost predicate Fresh(anchored: bool)
      reads this, posns, out, gototab
    {
      Initial(Table(user), Home(user, anchored), Entry(user, anchored), T())
    }

    /** Sets the table back to its initial states. */
    method MakeInit() returns (s: nat)
      requires Frame() && Rooted()
      modifies this`curstat, this`reset, posns, out, gototab
      ensures T() == Remade(user, anchor, old(T())) && s == curstat
    {
      WithHomeIs(user, T());
      FillHome();
      curstat := HatHome();
      if anchor {
        Unscan();
      }
      s := curstat;
    }

    /** The head of makeinit: state 2 becomes the follow list of position 0. */
    method FillHome()
      requires Frame() && Rooted()
      modifies this`curstat, this`reset, posns, out, gototab
      ensures T() == WithHome(user, old(T()))
    {
      ghost var t := T();
      curstat := 2;
      reset := false;
      TableShape(user);
      HomeEntry(user, false);
      var lf := re[0].lfollow;
      assert re[0] == RowAt(Table(user), 0);
      assert lf == Home(user, false);
      DescTop(Scanning(user), |Table(user)|);
      posns[2] := lf;
      out[2] := lf[0] == accept;
      gototab[2] := ZeroRow();
      assert T() == WithHome(user, t);
    }

    method HatHome() returns (s: nat)
      requires Frame() && OnlyHome(Table(user), Home(user, false), T())
      modifies this`curstat, this`reset, posns, out, gototab
      ensures T() == WithHat(user, old(T())) && s == curstat && Fresh(false)
    {
      HomeToHat(user, T());
      ghost var slip;
      s, slip := Cgoto(2, HAT);
    }

    /** The tail of makeinit for anchored automata: leaves out position 0. */
    method Unscan()
      requires Frame() && anchor && Fresh(false)
      modifies posns, out
      ensures T() == Scanless(user, true, old(T()))
    {
      hide Table, Lists, Links, Closed, RowsOf, Proper, Scanning, ScanningHat, Bare, BareHat, Home, Entry, IsList,
          EntryState;
      ghost var t := T();
      DropZero(user);
      HomeEntry(user, true);
      assert posns[2] == t.posns[2] && posns[curstat] == t.posns[curstat] && out[2] == t.out[2];
      posns[2] := posns[2][..|posns[2]| - 1];
      posns[0] := posns[2];
      out[0] := out[2];
      if curstat != 2 {
        posns[curstat] := posns[curstat][..|posns[curstat]| - 1];
      }
      assert T() == Scanless(user, true, t);
    }

    // ----- one step of a search -----

    /** The object stands for a table a run can go over. */
    ghost predicate Ready()
      reads this, posns, out, gototab
    {
      Frame() && Held(user, anchor, T())
    }

    /** The next state: the one recorded in gototab, else the one cgoto finds. */
    method Move(s: nat, c: nat) returns (ns: nat, ghost slip: bool)
      requires Ready() && 1 <= s <= curstat && c < HAT
      modifies this`curstat, this`reset, posns, out, gototab
      ensures Ready() && (T(), ns) == Go(user, anchor, old(T()), s, c)
      ensures slip == GoSlips(user, old(T()), s, c)
    {
      TableShape(user);
      assert T().go[s] == gototab[s];
      ns := gototab[s][c];
      slip := false;
      if ns == 0 {
        EnterHeld(user, anchor, T(), s, c);
        ns, slip := Cgoto(s, c);
      }
    }

    /** out[s], read before the next character. */
    method Accepting(s: nat) returns (b: bool)
      requires Frame() && s < NSTATES
      ensures b == T().out[s]
    {
      b := out[s];
    }

    // ----- starting and restarting a search -----

    /** The state a search starts in: the initial states are remade if the table was recycled. */
    method Start() returns (s: nat)
      requires Valid()
      modifies this`curstat, this`reset, posns, out, gototab
      ensures Running() && Ready() && Based(user, anchor, T()) && !reset && 1 <= s <= curstat
      ensures if old(reset) then HasDead(old(T())) && s == EntryState(user) && T() == Remade(user, anchor, old(T()))
              else s == initstat && T() == old(T())
    {
      if reset {
        GoodHasDead(Table(user), T());
        s := MakeInit();
        FreshKeeps(user, anchor, family, T());
      } else {
        s := initstat;
      }
    }

    /** The tail of pmatch's loop: back to state 2, rebuilt from state 0 if the table was recycled. */
    method Restart() returns (s: nat)
      requires Ready() && anchor
      modifies this`initstat, this`curstat, posns, out, gototab
      ensures Ready() && T() == RestartOn(user, old(T())) && s == 2
      ensures initstat == if reset then 2 else old(initstat)
    {
      s := 2;
      if reset {
        Rebuild();
      }
    }

    method Rebuild()
      requires Ready() && anchor && reset
      modifies this`initstat, this`curstat, posns, out, gototab
      ensures Ready() && T() == RestartOn(user, old(T())) && initstat == 2
    {
      hide Table, Lists, Links, Closed, RowsOf, Home, Entry, Accept, Held;
      HeldShape(user, true, T());
      ghost var t := T();
      ghost var lists := posns[..];
      var i := 2;
      while i <= curstat
        modifies posns
        invariant 2 <= i <= curstat + 1
        invariant forall k | 0 <= k < NSTATES :: posns[k] == if 2 <= k < i then [] else lists[k]
      {
        posns[i] := [];
        i := i + 1;
      }
      assert posns[..] == Dropped(lists, curstat);
      posns[2] := posns[0];
      initstat, curstat := 2, 2;
      out[2] := out[0];
      gototab[2] := ZeroRow();
      assert T() == RestartOn(user, t);
    }

    // ----- pmatch and nematch -----

    /** One round of the inner loop. */
    method Round(text: seq<nat>, p: nat, q: nat, s0: nat, len: int, ghost slip0: bool)
        returns (s: nat, patlen: int, ghost slip: bool)
      requires Ready() && anchor && IsText(text) && p <= q <= |text| && 1 < s0 <= curstat
      modifies this`curstat, this`reset, posns, out, gototab
      ensures Ready() && 1 <= s <= curstat
      ensures ScanOn(user, old(T()), text, p, q, s0, len, slip0) == ScanOn(user, T(), text, p, q + 1, s, patlen, slip)
    {
      var acc := Accepting(s0);
      patlen := if acc then q - p else len;
      ghost var bad;
      s, bad := Move(s0, CharAt(text, q));
      slip := slip0 || bad;
    }

    /** One attempt, at start p: the inner loop, left in state 1 or after the NUL. */
    method Scan(text: seq<nat>, p: nat, s0: nat, len: int, ghost slip0: bool) returns (patlen: int, ghost slip: bool)
      requires Ready() && anchor && IsText(text) && p <= |text| && 1 <= s0 <= curstat
      modifies this`curstat, this`reset, posns, out, gototab
      ensures Ready()
      ensures Scanned(T(), patlen, slip) == ScanOn(user, old(T()), text, p, p, s0, len, slip0)
    {
      var s, q := s0, p;
      patlen, slip := len, slip0;
      while q <= |text| && s != 1
        invariant p <= q <= |text| + 1 && Ready() && 1 <= s <= curstat
        invariant ScanOn(user, old(T()), text, p, p, s0, len, slip0) == ScanOn(user, T(), text, p, q, s, patlen, slip)
        decreases |text| + 1 - q
      {
        s, patlen, slip := Round(text, p, q, s, patlen, slip);
        q := q + 1;
      }
      var acc := Accepting(s);
      if s != 1 && acc {
        patlen := q - p - 1;
      }
    }

    /** One start: the attempt there and, if it finds nothing long enough, the return to state 2. */
    method Attempt(text: seq<nat>, min: nat, p: nat, s0: nat, len: int, ghost slip0: bool)
        returns (found: bool, patlen: int, s: nat, ghost slip: bool)
      requires Ready() && anchor && IsText(text) && p + min <= |text| && 1 <= s0 <= curstat
      modifies this`initstat, this`curstat, this`reset, posns, out, gototab
      ensures Ready() && 1 <= s <= curstat && found == (patlen >= min)
      ensures var r := SearchOn(user, old(T()), text, min, p, s0, len, old(initstat), slip0);
              if found then r == Sought(T(), initstat, true, p, patlen, slip)
              else r == SearchOn(user, T(), text, min, p + 1, s, patlen, initstat, slip)
    {
      patlen, slip := Scan(text, p, s0, len, slip0);
      found := patlen >= min;
      s := 2;
      if !found {
        s := Restart();
      }
    }

    /** The loop over the starts. */
    method Seek(text: seq<nat>, min: nat, s0: nat) returns (found: bool, patbeg: nat, patlen: int, ghost slip: bool)
      requires Ready() && anchor && IsText(text) && min <= 1 && 1 <= s0 <= curstat
      modifies this`initstat, this`curstat, this`reset, posns, out, gototab
      ensures Ready()
      ensures Sought(T(), initstat, found, patbeg, patlen, slip) ==
              SearchOn(user, old(T()), text, min, 0, s0, -1, old(initstat), false)
    {
      hide Held, RowsOf, Closed, Home, Entry, ScanOn, RestartOn;
      var s := s0;
      found, patbeg, patlen, slip := false, 0, -1, false;
      while patbeg + min <= |text|
        invariant patbeg <= |text| + 1 && Ready() && 1 <= s <= curstat && !found
        invariant SearchOn(user, old(T()), text, min, 0, s0, -1, old(initstat), false) ==
                  SearchOn(user, T(), text, min, patbeg, s, patlen, initstat, slip)
        decreases |text| + 1 - patbeg
      {
        found, patlen, s, slip := Attempt(text, min, patbeg, s, patlen, slip);
        if found {
          return;
        }
        patbeg := patbeg + 1;
      }
    }

    /**
     The call is the one that Call describes. It finds the leftmost match and, there, the longest,
     unless it slips. A match of ^ counts at the start of the text when hats holds: the search
     begins in the state makeinit returned.
     */
    method Search(text: seq<nat>, min: nat)
        returns (found: bool, patbeg: nat, patlen: int, ghost hats: bool, ghost slip: bool)
      requires Valid() && anchor && IsText(text) && min <= 1
      modifies this`initstat, this`curstat, this`reset, posns, out, gototab
      ensures Valid() && (slip ==> reset) && (!reset ==> initstat == old(initstat))
      ensures Callable(old(T()), old(initstat))
      ensures Sought(T(), initstat, found, patbeg, patlen, slip) == Call(user, old(T()), old(initstat), text, min)
      ensures hats == (old(reset) || old(initstat) == EntryState(user))
      ensures found ==> min <= patlen && patbeg + patlen <= |text|
      ensures !slip ==> if found then LeftmostLongest(user, text, hats, min, patbeg, patlen)
              else NoMatch(user, text, hats, min)
    {
      hats := reset || initstat == EntryState(user);
      var s := Start();
      SearchStarts(user, family, T(), text, hats, s, min, initstat);
      SearchRight(user, family, T(), text, hats, 0, s, min, -1, initstat, false);
      found, patbeg, patlen, slip := Seek(text, min, s);
    }

    /** A table and an initial state that a call can begin with. */
    ghost predicate Callable(t: Tab, init: nat) {
      Held(user, anchor, t) && (t.reset || 1 <= init <= t.cur)
    }

    /** What earlier calls leave is such a table. */
    lemma CanCall()
      requires Valid() && anchor
      ensures Callable(T(), initstat)
    {
      hide Table, Lists, Links, Home, Entry;
    }

    /** Search for a match of any length. */
    method Pmatch(text: seq<nat>)
        returns (found: bool, patbeg: nat, patlen: int, ghost hats: bool, ghost slip: bool)
      requires Valid() && anchor && IsText(text)
      modifies this`initstat, this`curstat, this`reset, posns, out, gototab
      ensures Valid() && (slip ==> reset) && (!reset ==> initstat == old(initstat))
      ensures Callable(old(T()), old(initstat))
      ensures Sought(T(), initstat, found, patbeg, patlen, slip) == Call(user, old(T()), old(initstat), text, 0)
      ensures hats == (old(reset) || old(initstat) == EntryState(user))
      ensures found ==> 0 <= patlen && patbeg + patlen <= |text|
      ensures !slip ==> (found <==> Occurs(user, text, hats))
      ensures !slip && found ==> LeftmostLongest(user, text, hats, 0, patbeg, patlen)
    {
      found, patbeg, patlen, hats, slip := Search(text, 0);
    }

    /** Search for a match of one character or more. */
    method Nematch(text: seq<nat>)
        returns (found: bool, patbeg: nat, patlen: int, ghost hats: bool, ghost slip: bool)
      requires Valid() && anchor && IsText(text)
      modifies this`initstat, this`curstat, this`reset, posns, out, gototab
      ensures Valid() && (slip ==> reset) && (!reset ==> initstat == old(initstat))
      ensures Callable(old(T()), old(initstat))
      ensures Sought(T(), initstat, found, patbeg, patlen, slip) == Call(user, old(T()), old(initstat), text, 1)
      ensures hats == (old(reset) || old(initstat) == EntryState(user))
      ensures found ==> 0 < patlen && patbeg + patlen <= |text|
      ensures !slip ==> if found then LeftmostLongest(user, text, hats, 1, patbeg, patlen)
              else NoMatch(user, text, hats, 1)
    {
      found, patbeg, patlen, hats, slip := Search(text, 1);
    }

    // ----- match -----

    /** The loop of match, entered with the state it starts in. */
    method Read(text: seq<nat>, s0: nat) returns (found: bool, ghost slip: bool)
      requires Ready() && !anchor && IsText(text) && 1 <= s0 <= curstat
      modifies this`curstat, this`reset, posns, out, gototab
      ensures Ready() && Matched(T(), found, slip) == MatchOn(user, old(T()), text, 0, s0, false)
    {
      hide Held, RowsOf, Closed, Home, Entry, Go, GoSlips;
      HeldShape(user, anchor, T());
      var s, q := s0, 0;
      slip := false;
      found := Accepting(s);
      while q <= |text| && !found
        invariant q <= |text| + 1 && Ready() && 1 <= s <= curstat < NSTATES && found == T().out[s]
        invariant MatchOn(user, old(T()), text, 0, s0, false) == MatchOn(user, T(), text, q, s, slip)
        decreases |text| + 1 - q, !found
      {
        s, slip := ReadOne(text, q, s, slip);
        found := Accepting(s);
        q := q + 1;
      }
    }

    method ReadOne(text: seq<nat>, q: nat, s0: nat, ghost slip0: bool) returns (s: nat, ghost slip: bool)
      requires Ready() && !anchor && IsText(text) && q <= |text| && 1 <= s0 <= curstat && !T().out[s0]
      modifies this`curstat, this`reset, posns, out, gototab
      ensures Ready() && 1 <= s <= curstat < NSTATES
      ensures MatchOn(user, old(T()), text, q, s0, slip0) == MatchOn(user, T(), text, q + 1, s, slip)
    {
      ghost var bad;
      s, bad := Move(s0, CharAt(text, q));
      slip := slip0 || bad;
    }

    /** Whether the text contains a match, unless the run slips. */
    method Match(text: seq<nat>) returns (found: bool, ghost slip: bool)
      requires Valid() && !anchor && IsText(text)
      modifies this`curstat, this`reset, posns, out, gototab
      ensures Valid() && (slip ==> reset)
      ensures Callable(old(T()), EntryState(user))
      ensures Matched(T(), found, slip) == CallMatch(user, old(T()), text)
      ensures !slip ==> (found <==> Occurs(user, text, true))
    {
      var s := Start();
      MatchStarts(user, family, T(), text);
      MatchRight(user, family, T(), text, 0, s, false);
      found, slip := Read(text, s);
    }

    // ----- mkdfa -----

    /** The automaton of p, with the initial states made. */
    constructor (p: Re, anchor: bool, ghost family: set<seq<nat>>)
      requires Proper(p)
      requires Closed(Table(p), family) && Home(p, anchor) in family && Entry(p, anchor) in family
      ensures Valid() && !reset && initstat == EntryState(p) && T() == New(p, anchor)
      ensures user == p && this.anchor == anchor && this.family == family
      ensures fresh(posns) && fresh(out) && fresh(gototab)
    {
      var rows := BuildRows(p);
      TableShape(p);
      user := p;
      this.anchor := anchor;
      this.family := family;
      re := rows;
      accept := |rows| - 1;
      initstat, curstat, reset := 2, 2, false;
      posns := new seq<nat>[NSTATES](_ => []);
      out := new bool[NSTATES](_ => false);
      gototab := new seq<nat>[NSTATES](_ => ZeroRow());
      new;
      assert T() == Blank();
      Begin();
    }

    /** The call of makeinit that mkdfa ends with. */
    method Begin()
      requires Frame() && Rooted()
      modifies this`initstat, this`curstat, this`reset, posns, out, gototab
      ensures Valid() && !reset && initstat == EntryState(user) && T() == Remade(user, anchor, old(T()))
    {
      var s := MakeInit();
      FreshKeeps(user, anchor, family, T());
      initstat := s;
    }
  }
}
