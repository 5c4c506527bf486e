/**
 anlwrk (usr/src/cmd/bnu/anlwrk.c): the lines of a work file are handed out one by one, and the
 number of the line in progress is kept in a bookmark file, so that after a crash the work goes on
 from there. The program may stop between any two of its steps.
 */
module Bookmark {
  /** The bookmark file: a number, something else, or no such file. */
  datatype Mark = Absent | Unreadable | Count(k: nat)

  datatype File = Present | Unlinked | Corrupt

  /**
   Where the program stands, with acount and the number of lines read: not running, between calls,
   with a line read, with the bookmark opened anew and so empty, with the bookmark settled, at the
   end of the file, with the file unlinked, and done with it.
   */
  datatype At = Down | Ready(acount: nat, pos: nat) | HasLine(acount: nat, pos: nat) | Emptied(acount: nat, pos: nat)
              | Marked(acount: nat, pos: nat) | AtEnd | Removed | Done

  /** lines says of each line whether it is well formed; handed are those handed out, in order. */
  datatype State = State(lines: seq<bool>, file: File, mark: Mark, at: At, handed: seq<nat>)

  /** wrote: whether the bookmark could be opened; kept: what a crash leaves of a number being written. */
  datatype Action = Step(wrote: bool) | Crash(kept: Mark)

  /** The lines to skip, as read from the bookmark. */
  function Skip(m: Mark): nat {
    if m.Count? then m.k else 0
  }

  function Least(a: nat, b: nat): nat {
    if a < b then a else b
  }

  /** What a crash may leave in the bookmark: nothing readable, or the first digits of the number. */
  predicate CrashLeaves(s: State, kept: Mark) {
    if s.at.Emptied? then kept == Unreadable || (kept.Count? && kept.k <= s.at.acount) else kept == s.mark
  }

  predicate Enabled(s: State, a: Action) {
    if a.Crash? then s.at != Done && CrashLeaves(s, a.kept) else s.at != Done && (s.at == Down ==> s.file == Present)
  }

  function Next(s: State, a: Action): State
    requires Enabled(s, a)
  {
    if a.Crash? then s.(at := Down, mark := a.kept)
    else
      match s.at
      case Down => s.(at := Ready(Skip(s.mark), Least(Skip(s.mark), |s.lines|)))
      case Ready(acount, pos) =>
        if pos >= |s.lines| then s.(at := AtEnd)
        else if s.lines[pos] then s.(at := HasLine(acount, pos))
        else s.(file := Corrupt, at := Removed)
      case HasLine(acount, pos) =>
        if a.wrote then s.(mark := Unreadable, at := Emptied(acount, pos)) else s.(at := Marked(acount, pos))
      case Emptied(acount, pos) => s.(mark := Count(acount), at := Marked(acount, pos))
      case Marked(acount, pos) => s.(handed := s.handed + [pos], at := Ready(acount + 1, pos + 1))
      case AtEnd => s.(file := Unlinked, at := Removed)
      case Removed => s.(mark := Absent, at := Done)
      case Done => s
  }

  /** A new file has no bookmark. */
  predicate Initial(s: State) {
    s.file == Present && s.mark == Absent && s.at == Down && s.handed == []
  }

  predicate AllBefore(p: nat, handed: seq<nat>) {
    forall k: nat | k < p :: k in handed
  }

  /** The line in progress is the one after those read, and all before it, and before the bookmark, were handed out. */
  predicate Inv(s: State) {
    && Skip(s.mark) <= |s.lines| && AllBefore(Skip(s.mark), s.handed)
    && (match s.at
       case Down => true
       case Ready(acount, pos) =>
         s.file == Present && acount == pos <= |s.lines| && Skip(s.mark) <= pos && AllBefore(pos, s.handed)
       case HasLine(acount, pos) => InProgress(s, acount, pos)
       case Emptied(acount, pos) => InProgress(s, acount, pos) && s.mark == Unreadable
       case Marked(acount, pos) => InProgress(s, acount, pos)
       case AtEnd => s.file == Present && AllBefore(|s.lines|, s.handed)
       case Removed => s.file != Present
       case Done => s.file != Present)
    && (s.file == Unlinked ==> AllBefore(|s.lines|, s.handed))
  }

  predicate InProgress(s: State, acount: nat, pos: nat) {
    s.file == Present && acount == pos < |s.lines| && s.lines[pos] && Skip(s.mark) <= pos && AllBefore(pos, s.handed)
  }

  lemma NextInv(s: State, a: Action)
    requires Inv(s) && Enabled(s, a)
    ensures Inv(Next(s, a)) && Next(s, a).lines == s.lines && s.handed <= Next(s, a).handed
  {
    if s.at.Marked? && a.Step? {
      var pos := s.at.pos;
      assert (s.handed + [pos])[|s.handed|] == pos;
      assert forall k | k in s.handed :: k in s.handed + [pos];
    }
  }

  ghost predicate Follows(s: State, t: State) {
    exists a :: Enabled(s, a) && t == Next(s, a)
  }

  /** Every run of steps and crashes, from a new file on. */
  ghost predicate Run(r: seq<State>)
    decreases |r|
  {
    r != [] &&
    if |r| == 1 then Initial(r[0])
    else Run(r[..|r| - 1]) && Follows(r[|r| - 2], r[|r| - 1])
  }

  lemma {:induction false} RunInv(r: seq<State>)
    requires Run(r)
    ensures Inv(r[|r| - 1])
    decreases |r|
  {
    var n := |r| - 1;
    if n > 0 {
      RunInv(r[..n]);
      assert r[..n][n - 1] == r[n - 1];
      var a :| Enabled(r[n - 1], a) && r[n] == Next(r[n - 1], a);
      NextInv(r[n - 1], a);
    }
  }

  /** The file is only unlinked when all its lines were handed out. */
  lemma UnlinkedAfterAll(r: seq<State>)
    requires Run(r) && r[|r| - 1].file == Unlinked
    ensures var s := r[|r| - 1]; forall k: nat | k < |s.lines| :: k in s.handed
  {
    RunInv(r);
  }

  /** The bookmark is at or below the line in progress, and no line before that was passed over. */
  lemma BookmarkBelow(r: seq<State>)
    requires Run(r)
    ensures var s := r[|r| - 1];
            (s.at.HasLine? || s.at.Emptied? || s.at.Marked?) ==>
              Skip(s.mark) <= s.at.pos && forall k: nat | k < s.at.pos :: k in s.handed
  {
    RunInv(r);
  }

  // ----- the work gets done -----

  function Steps(s: State, n: nat): State
    decreases n
  {
    if n == 0 || s.at == Done || (s.at == Down && s.file != Present) then s else Steps(Next(s, Step(true)), n - 1)
  }

  function Left(s: State): nat {
    var n := |s.lines|;
    match s.at
    case Down => 4 * n + 4
    case Ready(_, pos) => if pos <= n then 4 * (n - pos) + 3 else 3
    case HasLine(_, pos) => if pos < n then 4 * (n - pos) + 2 else 2
    case Emptied(_, pos) => if pos < n then 4 * (n - pos) + 1 else 1
    case Marked(_, pos) => if pos < n then 4 * (n - pos) else 0
    case AtEnd => 2
    case Removed => 1
    case Done => 0
  }

  /**
   Left alone long enough, the program hands out what is left of a well-formed file, each line that is
   not behind once, and unlinks it.
   */
  lemma {:induction false} GetsDone(s: State, n: nat)
    requires Inv(s) && (forall k | 0 <= k < |s.lines| :: s.lines[k]) && s.file != Corrupt && n >= Left(s)
    ensures var t := Steps(s, n); t.file == Unlinked && t.lines == s.lines && AllBefore(|s.lines|, t.handed)
    ensures forall l | 0 <= l < |s.lines| :: Times(Steps(s, n), l) == Times(s, l) + One(!Behind(s, l))
    decreases n
  {
    if s.at != Done && (s.at == Down ==> s.file == Present) {
      NextInv(s, Step(true));
      assert Left(Next(s, Step(true))) < Left(s);
      GetsDone(Next(s, Step(true)), n - 1);
      forall l | 0 <= l < |s.lines| ensures Times(Steps(s, n), l) == Times(s, l) + One(!Behind(s, l)) {
        StepTimes(s, Step(true), l);
      }
    }
  }

  // ----- one call -----

  /** anlwrk as it runs: fp and acount are kept between calls, the rest is on disk. */
  class Reader {
    const lines: seq<bool>
    var file: File
    var mark: Mark
    var open: bool
    var pos: nat
    var acount: nat
    ghost var handed: seq<nat>

    constructor (lines: seq<bool>, mark: Mark)
      ensures this.lines == lines && S() == State(lines, Present, mark, Down, [])
    {
      this.lines, file, this.mark, open, pos, acount, handed := lines, Present, mark, false, 0, 0, [];
    }

    /** Between calls. */
    ghost function S(): State
      reads this
    {
      State(lines, file, mark, if file != Present then Done else if open then Ready(acount, pos) else Down, handed)
    }

    /** The file is opened and the lines before the bookmark are skipped. */
    method Open()
      requires file == Present && !open
      modifies this`open, this`pos, this`acount
      ensures open && S() == Next(old(S()), Step(true))
    {
      open, acount, pos := true, if mark.Count? then mark.k else 0, 0;
      var i := 0;
      while i < acount && pos < |lines|
        invariant open && acount == Skip(mark) && i == pos <= |lines| && pos <= acount
      {
        pos := pos + 1;
        i := i + 1;
      }
    }

    /**
     A call: the number of the line handed out, or that there is none; wrote is whether the bookmark can be
     written. A new reader starts with the line the bookmark names, or with the first if there is no number
     in it.
     */
    method Call(wrote: bool) returns (got: bool, line: nat)
      requires file == Present
      modifies this
      ensures exists n: nat :: n <= 5 && S() == StepsWith(old(S()), n, wrote)
      ensures got ==> file == Present && open && line + 1 == pos && handed == old(handed) + [line]
      ensures !got ==> S().at == Done && handed == old(handed)
      ensures !old(open) && old(mark).Count? && old(mark).k < |lines| && lines[old(mark).k] ==>
                got && line == old(mark).k && mark == old(mark) && acount == pos
      ensures !old(open) && !old(mark).Count? && |lines| > 0 && lines[0] ==>
                got && line == 0 && acount == pos && mark == if wrote then Count(0) else old(mark)
      ensures old(open) && old(pos) < |lines| && lines[old(pos)] ==>
                got && line == old(pos) && acount == old(acount) + 1 &&
                mark == if wrote then Count(old(acount)) else old(mark)
      ensures got ==> line < |lines| && lines[line]
    {
      ghost var s := S();
      ghost var n := 0;
      if !open {
        Open();
        n := 1;
        assert S() == StepsWith(s, 1, wrote) by { OneStep(s, wrote); }
      }
      ghost var t := S();
      line := pos;
      if pos >= |lines| {
        file, mark := Unlinked, Absent;
        got := false;
        EndSteps(t, wrote);
        StepsAdd(s, n, 3, wrote);
        return;
      }
      if !lines[pos] {
        file, mark := Corrupt, Absent;
        got := false;
        BadSteps(t, wrote);
        StepsAdd(s, n, 2, wrote);
        return;
      }
      if wrote { mark := Count(acount); }
      handed := handed + [pos];
      pos := pos + 1;
      acount := acount + 1;
      got := true;
      GoodSteps(t, wrote);
      StepsAdd(s, n, if wrote then 4 else 3, wrote);
    }
  }

  // ----- how often a line is handed out -----

  predicate GoodUpTo(lines: seq<bool>, n: nat) {
    n <= |lines| && forall k | 0 <= k < n :: lines[k]
  }

  /** Line l is behind: the program is past it, or the bookmark says so, or the file is done with. */
  predicate Behind(s: State, l: nat) {
    if s.file != Present then GoodUpTo(s.lines, l + 1)
    else
      match s.at
      case Down => s.mark.Count? && l < s.mark.k
      case Ready(_, pos) => l < pos
      case HasLine(_, pos) => l < pos
      case Emptied(_, pos) => l < pos
      case Marked(_, pos) => l < pos
      case AtEnd => true
      case Removed => true
      case Done => true
  }

  /** A crash comes when line l is behind, and leaves no number above l in the bookmark. */
  predicate Falls(s: State, t: State, l: nat) {
    t.at == Down && Behind(s, l) && !Behind(t, l)
  }

  function FallsIn(r: seq<State>, l: nat): nat
    decreases |r|
  {
    if |r| < 2 then 0
    else FallsIn(r[..|r| - 1], l) + if Falls(r[|r| - 2], r[|r| - 1], l) then 1 else 0
  }

  function Times(s: State, l: nat): nat {
    multiset(s.handed)[l]
  }

  function One(b: bool): nat {
    if b then 1 else 0
  }

  /** Neither the bookmark nor the program is past a line that is not well formed. */
  predicate NoBadBehind(s: State) {
    && (s.mark.Count? ==> GoodUpTo(s.lines, s.mark.k))
    && (s.at.Ready? || s.at.HasLine? || s.at.Emptied? || s.at.Marked? ==> GoodUpTo(s.lines, s.at.pos))
    && (s.at.AtEnd? || s.file == Unlinked ==> GoodUpTo(s.lines, |s.lines|))
  }

  lemma NextNoBad(s: State, a: Action)
    requires Inv(s) && NoBadBehind(s) && Enabled(s, a)
    ensures NoBadBehind(Next(s, a))
  {
  }

  /** A step hands line l out exactly when it comes to be behind. */
  lemma StepTimes(s: State, a: Action, l: nat)
    requires Inv(s) && NoBadBehind(s) && Enabled(s, a) && l < |s.lines|
    ensures var t := Next(s, a);
            Times(t, l) + One(Behind(s, l)) == Times(s, l) + One(Behind(t, l)) + One(Falls(s, t, l))
  {
  }

  lemma {:induction false} RunNoBad(r: seq<State>)
    requires Run(r)
    ensures NoBadBehind(r[|r| - 1])
    decreases |r|
  {
    var n := |r| - 1;
    if n > 0 {
      RunNoBad(r[..n]);
      RunInv(r[..n]);
      assert r[..n][n - 1] == r[n - 1];
      var a :| Enabled(r[n - 1], a) && r[n] == Next(r[n - 1], a);
      NextNoBad(r[n - 1], a);
    }
  }

  /** Each line has been handed out once for each crash it fell to, and once more if it is behind. */
  lemma {:induction false} HandedTimes(r: seq<State>, l: nat)
    requires Run(r) && l < |r[0].lines|
    ensures var s := r[|r| - 1]; s.lines == r[0].lines && Times(s, l) == FallsIn(r, l) + One(Behind(s, l))
    decreases |r|
  {
    var n := |r| - 1;
    if n > 0 {
      HandedTimes(r[..n], l);
      RunNoBad(r[..n]);
      RunInv(r[..n]);
      assert r[..n][n - 1] == r[n - 1];
      var a :| Enabled(r[n - 1], a) && r[n] == Next(r[n - 1], a);
      NextInv(r[n - 1], a);
      StepTimes(r[n - 1], a, l);
    }
  }

  /** Every bookmark is written, and no crash comes in the middle of that. */
  predicate Written(s: State, t: State) {
    (s.at.HasLine? ==> !t.at.Marked?) && (s.at.Emptied? ==> t.at.Marked?)
  }

  predicate AllWritten(r: seq<State>) {
    forall i | 0 < i < |r| :: Written(r[i - 1], r[i])
  }

  function LinesRead(s: State): nat {
    match s.at
    case Ready(_, pos) => pos
    case HasLine(_, pos) => pos
    case AtEnd => |s.lines|
    case _ => 0
  }

  /** The bookmark names the line in progress, or the one before it, which was then the last handed out. */
  predicate MarkClose(s: State) {
    && (s.mark == Unreadable ==> s.at.Emptied?)
    && (s.at.Ready? || s.at.HasLine? || s.at.AtEnd? ==>
      || s.mark == Count(LinesRead(s))
      || (s.mark == Absent && LinesRead(s) == 0)
      || (s.handed != [] && s.mark == Count(s.handed[|s.handed| - 1]) && s.mark.k + 1 == LinesRead(s)))
    && (s.at.Marked? ==> s.mark == Count(s.at.pos))
  }

  lemma NextClose(s: State, a: Action)
    requires Inv(s) && MarkClose(s) && Enabled(s, a) && Written(s, Next(s, a))
    ensures MarkClose(Next(s, a))
  {
  }

  /** Then only the line handed out last can fall, and it falls when the crash comes before the next is marked. */
  lemma {:induction false} OnlyLastFalls(r: seq<State>, i: nat, l: nat)
    requires Run(r) && AllWritten(r) && i + 1 < |r| && l < |r[i].lines| && Falls(r[i], r[i + 1], l)
    ensures r[i].handed != [] && l == r[i].handed[|r[i].handed| - 1]
    ensures (r[i].at.Ready? || r[i].at.HasLine? || r[i].at.AtEnd?) && l + 1 == LinesRead(r[i])
  {
    RunPrefix(r, i + 1);
    RunInv(r[..i + 1]);
    RunClose(r[..i + 1]);
    RunPrefix(r, i + 2);
    assert r[..i + 2][..i + 1] == r[..i + 1] && r[..i + 1][i] == r[i];
    assert Follows(r[..i + 2][i], r[..i + 2][i + 1]);
    var a :| Enabled(r[i], a) && r[i + 1] == Next(r[i], a);
    assert Written(r[i + 1 - 1], r[i + 1]);
  }

  lemma {:induction false} RunPrefix(r: seq<State>, n: nat)
    requires Run(r) && 0 < n <= |r|
    ensures Run(r[..n])
    decreases |r|
  {
    if n == |r| {
      assert r[..n] == r;
    } else {
      RunPrefix(r[..|r| - 1], n);
      assert r[..|r| - 1][..n] == r[..n];
    }
  }

  lemma {:induction false} RunClose(r: seq<State>)
    requires Run(r) && AllWritten(r)
    ensures MarkClose(r[|r| - 1])
    decreases |r|
  {
    var n := |r| - 1;
    if n > 0 {
      RunClose(r[..n]);
      RunInv(r[..n]);
      assert r[..n][n - 1] == r[n - 1];
      var a :| Enabled(r[n - 1], a) && r[n] == Next(r[n - 1], a);
      NextClose(r[n - 1], a);
    }
  }

  /** A reader that stops after k lines: the next one begins with the last of them again. */
  method Resume(lines: seq<bool>, k: nat) returns (line: nat, last: nat)
    requires 0 < k <= |lines| && GoodUpTo(lines, |lines|)
    ensures line == last == k - 1
  {
    var first := new Reader(lines, Absent);
    var i, got := 0, true;
    last := 0;
    while i < k
      invariant i <= k && first.file == Present && (first.open <==> i > 0)
      invariant if i > 0 then first.pos == first.acount == i && first.mark == Count(i - 1) && last == i - 1
                else first.mark == Absent
    {
      got, last := first.Call(true);
      i := i + 1;
    }
    var second := new Reader(lines, first.mark);
    got, line := second.Call(true);
  }

  // ----- the steps of a call -----

  /** n steps, with the bookmark written each time or not at all. */
  function StepsWith(s: State, n: nat, wrote: bool): State
    decreases n
  {
    if n == 0 || s.at == Done || (s.at == Down && s.file != Present) then s
        else StepsWith(Next(s, Step(wrote)), n - 1, wrote)
  }

  lemma OneStep(s: State, wrote: bool)
    requires s.at == Down && s.file == Present
    ensures StepsWith(s, 1, wrote) == Next(s, Step(true)) == Next(s, Step(wrote))
  {
    assert StepsWith(Next(s, Step(wrote)), 0, wrote) == Next(s, Step(wrote));
  }

  lemma {:induction false} StepsAdd(s: State, n: nat, k: nat, wrote: bool)
    ensures StepsWith(StepsWith(s, n, wrote), k, wrote) == StepsWith(s, n + k, wrote)
    decreases n
  {
    if n > 0 && s.at != Done && !(s.at == Down && s.file != Present) {
      StepsAdd(Next(s, Step(wrote)), n - 1, k, wrote);
    }
  }

  lemma EndSteps(s: State, wrote: bool)
    requires s.at.Ready? && s.at.pos >= |s.lines|
    ensures StepsWith(s, 3, wrote) == s.(file := Unlinked, mark := Absent, at := Done)
  {
    var s1 := Next(s, Step(wrote));
    var s2 := Next(s1, Step(wrote));
    assert StepsWith(s2, 1, wrote) == Next(s2, Step(wrote));
    assert StepsWith(s1, 2, wrote) == StepsWith(s2, 1, wrote);
  }

  lemma BadSteps(s: State, wrote: bool)
    requires s.at.Ready? && s.at.pos < |s.lines| && !s.lines[s.at.pos]
    ensures StepsWith(s, 2, wrote) == s.(file := Corrupt, mark := Absent, at := Done)
  {
    var s1 := Next(s, Step(wrote));
    assert StepsWith(s1, 1, wrote) == Next(s1, Step(wrote));
  }

  lemma GoodSteps(s: State, wrote: bool)
    requires s.at.Ready? && s.at.pos < |s.lines| && s.lines[s.at.pos]
    ensures StepsWith(s, if wrote then 4 else 3, wrote)
         == s.(mark := if wrote then Count(s.at.acount) else s.mark, handed := s.handed + [s.at.pos],
             at := Ready(s.at.acount + 1, s.at.pos + 1))
  {
    var s1 := Next(s, Step(wrote));
    var s2 := Next(s1, Step(wrote));
    var s3 := Next(s2, Step(wrote));
    assert StepsWith(s3, 1, wrote) == Next(s3, Step(wrote)) && StepsWith(s3, 0, wrote) == s3;
    assert StepsWith(s2, 2, wrote) == StepsWith(s3, 1, wrote) && StepsWith(s2, 1, wrote) == StepsWith(s3, 0, wrote);
    assert StepsWith(s1, 3, wrote) == StepsWith(s2, 2, wrote) && StepsWith(s1, 2, wrote) == StepsWith(s2, 1, wrote);
  }
}
