/**
 From the text of a pattern to the lines it matches: compile (usr/src/head/regexp.h) leaves the
 elements the pattern stands for, and step finds where they match.
 */
module EdPattern {
  import opened EdProgram
  import opened EdAdvance
  import opened EdCompile
  import opened EdCompiler
  import opened EdSpelling
  import opened EdReading

  /** e is what p asks for; a class or character is one by the set of characters it accepts. */
  ghost predicate PieceMeans(p: Piece, e: Elem) {
    match p
    case Char(x, q) => exists a :: e == CharElem(a, q) && AtomOk(a) && forall c :: Accepts(a, c) <==> Denotes(x, c)
    case GroupStart => e.Open?
    case GroupEnd => e.Close?
    case BackRef(k) => e == Back(k)
    case LineEnd => e == Dollar
  }

  lemma CharMeans(pat: seq<byte>, at: nat, x: OneChar, q: Count, end: nat, eof: byte, place: Place)
    requires PieceAt(pat, at, Char(x, q), end, eof, place)
    ensures PieceMeans(Char(x, q), CharElem(AtomOf(x), q))
  {
    var mid: nat :| CharAt(pat, at, x, mid, eof, place) && CountAt(pat, mid, q, end, eof);
    forall c ensures AtomOk(AtomOf(x)) && (Accepts(AtomOf(x), c) <==> Denotes(x, c)) {
      AtomMeans(pat, at, x, mid, eof, place, c);
    }
  }

  function GroupsAfter(p: Piece, g: Groups): Groups
    requires p == GroupEnd ==> g.stack != []
  {
    if p == GroupStart then Begun(g) else if p == GroupEnd then Ended(g) else g
  }

  lemma FirstElement(ps: seq<Piece>, g: Groups)
    requires ps != [] && Elements(ps, g).Accepted?
    ensures (ps[0] == GroupEnd ==> g.stack != []) && Elements(ps[1..], GroupsAfter(ps[0], g)).Accepted?
    ensures var prog := Elements(ps, g).prog;
            && prog != [] && prog[1..] == Elements(ps[1..], GroupsAfter(ps[0], g)).prog
            && if ps[0].Char? then prog[0] == CharElem(AtomOf(ps[0].x), ps[0].q) else PieceMeans(ps[0], prog[0])
  {
  }

  /** The elements of a spelled pattern are its pieces in order, and End. */
  lemma {:induction false} ElementsMean(pat: seq<byte>, at: nat, ps: seq<Piece>, end: nat, eof: byte, place: Place,
                                        g: Groups)
    requires PiecesAt(pat, at, ps, end, eof, place) && Elements(ps, g).Accepted?
    ensures var prog := Elements(ps, g).prog;
            |prog| == |ps| + 1 && prog[|ps|] == End && forall i | 0 <= i < |ps| :: PieceMeans(ps[i], prog[i])
    decreases |ps|
  {
    hide PieceMeans, PieceAt, CharElem, GroupsAfter;
    if ps != [] {
      hide Elements;
      var mid: nat :| PieceAt(pat, at, ps[0], mid, eof, place) &&
          PiecesAt(pat, mid, ps[1..], end, eof, PlaceAfter(ps[0]));
      FirstElement(ps, g);
      ElementsMean(pat, mid, ps[1..], end, eof, PlaceAfter(ps[0]), GroupsAfter(ps[0], g));
      if ps[0].Char? { CharMeans(pat, at, ps[0].x, ps[0].q, mid, eof, place); }
      var prog := Elements(ps, g).prog;
      forall i | 0 <= i < |ps| ensures PieceMeans(ps[i], prog[i]) {
        if i > 0 { assert ps[i] == ps[1..][i - 1] && prog[i] == prog[1..][i - 1]; }
      }
    }
  }

  // ----- groups -----

  /** The groups before element i of all are those of g. */
  ghost predicate GroupsAre(all: seq<Elem>, i: nat, g: Groups)
    requires i <= |all|
  {
    && g.begun <= NBRA
    && (forall k :: k in Opened(all, i) <==> 0 <= k < g.begun)
    && (forall k :: k in Closed(all, i) <==> 0 <= k < g.begun && k !in g.stack)
    && (forall x, y | 0 <= x < y < |g.stack| :: g.stack[x] != g.stack[y])
    && (forall x | 0 <= x < |g.stack| :: g.stack[x] < g.begun)
  }

  lemma GroupsBegun(all: seq<Elem>, i: nat, g: Groups)
    requires i < |all| && GroupsAre(all, i, g) && g.begun < NBRA && all[i] == Open(g.begun)
    ensures GroupsAre(all, i + 1, Begun(g)) && ElemOk(all, i)
  {
    var h := Begun(g);
    assert Opened(all, i + 1) == Opened(all, i) + {g.begun};
    assert Closed(all, i + 1) == Closed(all, i);
    assert forall x | 0 <= x < |g.stack| :: h.stack[x] == g.stack[x];
    assert forall k :: k in h.stack <==> k in g.stack || k == g.begun;
  }

  lemma GroupsEnded(all: seq<Elem>, i: nat, g: Groups)
    requires i < |all| && GroupsAre(all, i, g) && g.stack != [] && all[i] == Close(g.stack[|g.stack| - 1])
    ensures GroupsAre(all, i + 1, Ended(g)) && ElemOk(all, i)
  {
    var top := |g.stack| - 1;
    assert g.stack == g.stack[..top] + [g.stack[top]];
    assert Opened(all, i + 1) == Opened(all, i);
    assert Closed(all, i + 1) == Closed(all, i) + {g.stack[top]};
    assert forall k :: k in Ended(g).stack <==> k in g.stack && k != g.stack[top];
  }

  /** Elements of a spelled pattern are in order, but for references to a group that is still open. */
  lemma {:induction false} OthersOk(pat: seq<byte>, at: nat, ps: seq<Piece>, end: nat, eof: byte, place: Place,
                                    g: Groups, all: seq<Elem>, i: nat)
    requires PiecesAt(pat, at, ps, end, eof, place) && Elements(ps, g).Accepted?
    requires i <= |all| && all[i..] == Elements(ps, g).prog && GroupsAre(all, i, g)
    ensures forall j | i <= j < |all| :: if all[j].Back? then all[j].k < NBRA else ElemOk(all, j)
    decreases |ps|
  {
    assert all[i] == all[i..][0];
    if ps != [] {
      var mid: nat :| PieceAt(pat, at, ps[0], mid, eof, place) &&
          PiecesAt(pat, mid, ps[1..], end, eof, PlaceAfter(ps[0]));
      assert all[i + 1..] == all[i..][1..];
      FirstOk(pat, at, ps, mid, eof, place, g, all, i);
      OthersOk(pat, mid, ps[1..], end, eof, PlaceAfter(ps[0]), GroupsAfter(ps[0], g), all, i + 1);
    }
  }

  lemma FirstOk(pat: seq<byte>, at: nat, ps: seq<Piece>, mid: nat, eof: byte, place: Place, g: Groups, all: seq<Elem>,
                i: nat)
    requires ps != [] && PieceAt(pat, at, ps[0], mid, eof, place) && Elements(ps, g).Accepted?
    requires i < |all| && all[i] == Elements(ps, g).prog[0] && GroupsAre(all, i, g)
    ensures if all[i].Back? then all[i].k < NBRA else ElemOk(all, i)
    ensures GroupsAre(all, i + 1, GroupsAfter(ps[0], g))
  {
    match ps[0]
    case Char(x, q) =>
      CharOk(pat, at, x, q, mid, eof, place, all, i);
      GroupsSame(all, i, g);
    case GroupStart => GroupsBegun(all, i, g);
    case GroupEnd => GroupsEnded(all, i, g);
    case BackRef(k) => GroupsSame(all, i, g);
    case LineEnd => GroupsSame(all, i, g);
  }

  lemma GroupsSame(all: seq<Elem>, i: nat, g: Groups)
    requires i < |all| && GroupsAre(all, i, g) && !all[i].Open? && !all[i].Close?
    ensures GroupsAre(all, i + 1, g)
  {
    assert Opened(all, i + 1) == Opened(all, i) && Closed(all, i + 1) == Closed(all, i);
  }

  lemma CharOk(pat: seq<byte>, at: nat, x: OneChar, q: Count, mid: nat, eof: byte, place: Place, all: seq<Elem>, i: nat)
    requires PieceAt(pat, at, Char(x, q), mid, eof, place) && i < |all| && all[i] == CharElem(AtomOf(x), q)
    ensures ElemOk(all, i)
  {
    var m: nat :| CharAt(pat, at, x, m, eof, place) && CountAt(pat, m, q, mid, eof);
    AtomMeans(pat, at, x, m, eof, place, 0);
    assert q.Between? ==> Value(0, q.lo) <= Value(0, q.hi);
  }

  const NOGROUPS: Groups := Groups(0, [], 0)

  /** compile takes references to a group still open; otherwise what it accepts is in order. */
  lemma OkUnlessOpen(pat: seq<byte>, at: nat, ps: seq<Piece>, end: nat, eof: byte, place: Place)
    requires PiecesAt(pat, at, ps, end, eof, place) && Elements(ps, NOGROUPS).Accepted?
    ensures var prog := Elements(ps, NOGROUPS).prog;
            ProgOk(prog) <==> forall j | 0 <= j < |prog| && prog[j].Back? :: prog[j].k in Closed(prog, j)
  {
    var prog := Elements(ps, NOGROUPS).prog;
    ElementsMean(pat, at, ps, end, eof, place, NOGROUPS);
    assert prog[0..] == prog;
    OthersOk(pat, at, ps, end, eof, place, NOGROUPS, prog, 0);
    BackOk(prog);
  }

  lemma BackOk(prog: seq<Elem>)
    requires prog != [] && prog[|prog| - 1] == End
    requires forall j | 0 <= j < |prog| :: if prog[j].Back? then prog[j].k < NBRA else ElemOk(prog, j)
    ensures ProgOk(prog) <==> forall j | 0 <= j < |prog| && prog[j].Back? :: prog[j].k in Closed(prog, j)
  {
    if ProgOk(prog) {
      forall j | 0 <= j < |prog| && prog[j].Back? ensures prog[j].k in Closed(prog, j) {
        assert ElemOk(prog, j);
      }
    }
  }

  // ----- whole patterns -----

  /** The text up to end spells ps, after a circumflex if anchored, and ends there. */
  ghost predicate Spells(a: Args, ps: seq<Piece>, anchored: bool, end: nat) {
    && EofOk(a.eof) && a.eof != CARET && Ends(a, end)
    && PiecesAt(a.pat, if anchored then 1 else 0, ps, end, a.eof, First)
    && (if anchored then IsAt(a.pat, 0, CARET) else ps != [] && !IsAt(a.pat, 0, CARET))
  }

  lemma NoNewline(pat: seq<byte>, at: nat, p: Piece, end: nat, eof: byte, place: Place)
    requires PieceAt(pat, at, p, end, eof, place)
    ensures pat[at] != NEWLINE
  {
    if p.Char? {
      var mid: nat :| CharAt(pat, at, p.x, mid, eof, place) && CountAt(pat, mid, p.q, end, eof);
    }
  }

  lemma StartsPattern(a: Args, before: bool, ps: seq<Piece>, anchored: bool, end: nat)
    requires Spells(a, ps, anchored, end)
    ensures Compile(a, before) ==
            Made(Rounds(a, Initial(anchored)), anchored)
  {
    hide Rounds;
    if !anchored {
      var mid: nat :|
        PieceAt(a.pat, 0, ps[0], mid, a.eof, First) && PiecesAt(a.pat, mid, ps[1..], end, a.eof, PlaceAfter(ps[0]));
      NoNewline(a.pat, 0, ps[0], mid, a.eof, First);
    }
  }

  /** What compile makes of a spelled pattern, whatever the buffer: its elements, its error, error 50, or a fault. */
  lemma CompileMeans(a: Args, before: bool, ps: seq<Piece>, anchored: bool, end: nat)
    requires Spells(a, ps, anchored, end)
    ensures match Bounded(ps, NOGROUPS, 0, a.room)
            case Rejected(e) => Compile(a, before) == CompileError(e)
            case Accepted(prog) =>
              var r := Compile(a, before);
              r.Program? && r.circf == anchored && Decodes(r.code, 0, prog, 0)
  {
    hide Rounds, Bounded;
    StartsPattern(a, before, ps, anchored, end);
    var o := Bounded(ps, NOGROUPS, 0, a.room);
    PiecesRead(a, Initial(anchored), ps, NOGROUPS, end, First, []);
    if o.Accepted? { assert [] + o.prog == o.prog; }
  }

  /**
   A pattern without errors compiles if and only if its pieces and the end mark fit the buffer. If
   not, a byte is stored behind the buffer exactly when some piece breaks; otherwise it is error 50.
   */
  lemma CompileFits(a: Args, before: bool, ps: seq<Piece>, anchored: bool, end: nat)
    requires Spells(a, ps, anchored, end) && Elements(ps, NOGROUPS).Accepted?
    ensures TotalSize(ps) < a.room ==>
              Bounded(ps, NOGROUPS, 0, a.room) == Elements(ps, NOGROUPS) && Compile(a, before).Program?
    ensures Compile(a, before) == CompileError(Behind) <==> SomeBreaks(ps, 0, a.room)
    ensures Compile(a, before) == CompileError(Code(50)) <==> TotalSize(ps) >= a.room && !SomeBreaks(ps, 0, a.room)
  {
    hide SomeBreaks, Compile, Bounded, Elements;
    CompileMeans(a, before, ps, anchored, end);
    BoundedIs(ps, NOGROUPS, 0, a.room);
    BoundedBehind(ps, NOGROUPS, 0, a.room);
    FitsSize(ps, 0, a.room);
  }

  lemma {:induction false} DecodesSame(code: seq<byte>, at: nat, p: seq<Elem>, q: seq<Elem>, i: nat, k: nat)
    requires Decodes(code, at, p, i) && Decodes(code, at, q, i) && i <= k < |p| && k < |q|
    ensures p[k] == q[k]
    decreases k - i
  {
    if i < k { DecodesSame(code, Decode(code, at).next, p, q, i + 1, k); }
  }

  /** However the text of a pattern is read as pieces, it stands for the same elements. */
  lemma SpellingsAgree(a: Args, ps: seq<Piece>, anchored: bool, end: nat, qs: seq<Piece>, anchored': bool, end': nat)
    requires Spells(a, ps, anchored, end) && Elements(ps, NOGROUPS).Accepted?
    requires Spells(a, qs, anchored', end') && Elements(qs, NOGROUPS).Accepted?
    ensures anchored == anchored' && Elements(ps, NOGROUPS) == Elements(qs, NOGROUPS)
  {
    hide Elements, Compile, Bounded, PiecesAt, SomeBreaks, TotalSize;
    var b := a.(room := TotalSize(ps) + TotalSize(qs) + 1);
    CompileMeans(b, true, ps, anchored, end);
    CompileFits(b, true, ps, anchored, end);
    CompileMeans(b, true, qs, anchored', end');
    CompileFits(b, true, qs, anchored', end');
    var p, q := Elements(ps, NOGROUPS).prog, Elements(qs, NOGROUPS).prog;
    EndsOnce(b, ps, anchored, end);
    EndsOnce(b, qs, anchored', end');
    var code := Compile(b, true).code;
    forall k: nat | k < |p| && k < |q| ensures p[k] == q[k] { DecodesSame(code, 0, p, q, 0, k); }
    EndTogether(p, q);
  }

  /** Only the last element is the end mark. */
  ghost predicate EndLast(prog: seq<Elem>) {
    prog != [] && forall k | 0 <= k < |prog| :: prog[k] == End <==> k == |prog| - 1
  }

  lemma EndTogether(p: seq<Elem>, q: seq<Elem>)
    requires EndLast(p) && EndLast(q) && forall k | 0 <= k < |p| && k < |q| :: p[k] == q[k]
    ensures p == q
  {
    var k := if |p| < |q| then |p| - 1 else |q| - 1;
    assert p[k] == q[k];
  }

  lemma EndsOnce(a: Args, ps: seq<Piece>, anchored: bool, end: nat)
    requires Spells(a, ps, anchored, end) && Elements(ps, NOGROUPS).Accepted?
    ensures EndLast(Elements(ps, NOGROUPS).prog)
  {
    hide Elements;
    ElementsMean(a.pat, if anchored then 1 else 0, ps, end, a.eof, First, NOGROUPS);
    forall k | 0 <= k < |ps| ensures Elements(ps, NOGROUPS).prog[k] != End {
      assert PieceMeans(ps[k], Elements(ps, NOGROUPS).prog[k]);
    }
  }

  /** Nothing matches before p, nor after it up to last. */
  ghost predicate NoMatch(prog: seq<Elem>, line: seq<byte>, from: nat, last: int, locs: int)
    requires ProgOk(prog) && last <= |line|
  {
    forall p: nat | from <= p <= last :: !Matches(prog, line, p, locs)
  }

  /** The leftmost place where prog matches, and the end of the match made there, the greedy-first one. */
  ghost predicate Leftmost(prog: seq<Elem>, line: seq<byte>, anchored: bool, locs: int, ok: bool, loc1: nat, loc2: nat)
    requires ProgOk(prog)
  {
    if ok then
      && loc1 <= |line| && (anchored ==> loc1 == 0) && NoMatch(prog, line, 0, loc1 - 1, locs)
      && Greedy(prog, 0, line, loc1, locs, NoGroups()).Found?
      && Greedy(prog, 0, line, loc1, locs, NoGroups()).end == loc2
    else NoMatch(prog, line, 0, if anchored then 0 else |line|, locs)
  }

  /** What a caller gets for a pattern that compiles. */
  method Find(a: Args, line: seq<byte>, locs: int, ghost ps: seq<Piece>, ghost anchored: bool, ghost end: nat)
      returns (ok: bool, loc1: nat, loc2: nat, ghost f: Found, ghost cs: seq<nat>)
    requires Spells(a, ps, anchored, end) && TotalSize(ps) < a.room && LineOk(line)
    requires Elements(ps, NOGROUPS).Accepted? && ProgOk(Elements(ps, NOGROUPS).prog)
    ensures Leftmost(Elements(ps, NOGROUPS).prog, line, anchored, locs, ok, loc1, loc2)
    ensures ok ==> f.Found? && f.end == loc2
    ensures ok ==> Best(Elements(ps, NOGROUPS).prog, 0, line, loc1, locs, NoGroups(), f, cs)
  {
    hide Spells, Elements, Compile, ProgOk, Decodes, Best, Matches, Agree, Greedy;
    CompileMeans(a, true, ps, anchored, end);
    CompileMeans(a, false, ps, anchored, end);
    CompileFits(a, true, ps, anchored, end);
    var compiler := new Compiler(a.room);
    var r := compiler.Run(a);
    ok, loc1, loc2, f, cs := Look(compiler, line, locs, Elements(ps, NOGROUPS).prog);
  }

  /** step, with the program and circf as compile left them. */
  method Look(compiler: Compiler, line: seq<byte>, locs: int, ghost prog: seq<Elem>)
      returns (ok: bool, loc1: nat, loc2: nat, ghost f: Found, ghost cs: seq<nat>)
    requires compiler.ep <= compiler.buf.Length && Decodes(compiler.buf[..compiler.ep], 0, prog, 0)
    requires LineOk(line) && ProgOk(prog)
    ensures Leftmost(prog, line, compiler.circf, locs, ok, loc1, loc2)
    ensures ok ==> f.Found? && f.end == loc2 && Best(prog, 0, line, loc1, locs, NoGroups(), f, cs)
  {
    hide ProgOk, Decodes, Best, Matches, Agree, Greedy;
    var matcher := new Matcher(compiler.buf[..compiler.ep], compiler.circf, locs);
    ok, f, cs := matcher.Step(line, prog);
    assert matcher.circf == compiler.circf && matcher.locs == locs;
    assert !ok ==> forall p | 0 <= p <= |line| && (matcher.circf ==> p == 0) :: !Matches(prog, line, p, matcher.locs);
    loc1, loc2 := matcher.loc1, matcher.loc2;
  }

  /**
   After a pattern has been compiled, an empty one leaves it in place, and step finds what that
   pattern finds.
   */
  method FindAgain(a: Args, again: Args, line: seq<byte>, locs: int, ghost ps: seq<Piece>, ghost anchored: bool,
                   ghost end: nat)
      returns (r: Compiled, ok: bool, loc1: nat, loc2: nat, ghost f: Found, ghost cs: seq<nat>)
    requires Spells(a, ps, anchored, end) && TotalSize(ps) < a.room && LineOk(line)
    requires Elements(ps, NOGROUPS).Accepted? && ProgOk(Elements(ps, NOGROUPS).prog)
    requires EmptyPattern(again) && again.room == a.room
    ensures r == NoPattern && Leftmost(Elements(ps, NOGROUPS).prog, line, anchored, locs, ok, loc1, loc2)
    ensures ok ==> Best(Elements(ps, NOGROUPS).prog, 0, line, loc1, locs, NoGroups(), f, cs)
  {
    hide Spells, Elements, ProgOk, Decodes, Best, Matches, Agree, Greedy, Rounds, TotalSize;
    CompileMeans(a, false, ps, anchored, end);
    CompileFits(a, false, ps, anchored, end);
    var compiler := new Compiler(a.room);
    r := compiler.Run(a);
    hide Compile;
    ghost var code := compiler.buf[..compiler.ep];
    r := compiler.Run(again);
    assert compiler.buf[..compiler.ep] == code;
    EmptyAgain(again, true);
    ok, loc1, loc2, f, cs := Look(compiler, line, locs, Elements(ps, NOGROUPS).prog);
  }

  lemma EmptyAgain(a: Args, before: bool)
    requires EmptyPattern(a) && a.room > 0
    ensures Compile(a, before) == if before || a.sed then NoPattern else CompileError(Code(41))
  {
  }

  // ----- a reference to a group that is still open -----

  const SLASH: byte := 47
  const LETTER_A: byte := 97

  /** A reference to a group that is still open, in the pattern \(\(a\)\1\). */
  function OpenReference(): seq<byte> {
    [BACKSLASH, LPAREN, BACKSLASH, LPAREN, LETTER_A, BACKSLASH, RPAREN, BACKSLASH, ONE, BACKSLASH, RPAREN, SLASH]
  }

  function OpenReferencePieces(): seq<Piece> {
    [GroupStart, GroupStart, Char(Lit(LETTER_A), Once), GroupEnd, BackRef(0), GroupEnd]
  }

  lemma PiecesCons(pat: seq<byte>, at: nat, p: Piece, mid: nat, rest: seq<Piece>, end: nat, eof: byte, place: Place)
    requires PieceAt(pat, at, p, mid, eof, place) && PiecesAt(pat, mid, rest, end, eof, PlaceAfter(p))
    ensures PiecesAt(pat, at, [p] + rest, end, eof, place)
  {
    var ps := [p] + rest;
    assert ps[1..] == rest && PieceAt(pat, at, ps[0], mid, eof, place);
  }

  lemma OpenReferenceTail()
    ensures PiecesAt(OpenReference(), 5, [GroupEnd] + ([BackRef(0)] + ([GroupEnd] + [])), 11, SLASH, Elsewhere)
  {
    var pat := OpenReference();
    hide PiecesAt;
    PiecesNone(pat, 11, SLASH, AfterMark);
    PiecesCons(pat, 9, GroupEnd, 11, [], 11, SLASH, Elsewhere);
    PiecesCons(pat, 7, BackRef(0), 9, [GroupEnd] + [], 11, SLASH, AfterMark);
    PiecesCons(pat, 5, GroupEnd, 7, [BackRef(0)] + ([GroupEnd] + []), 11, SLASH, Elsewhere);
  }

  lemma OpenReferenceSpelled(room: nat)
    ensures Spells(Args(OpenReference(), SLASH, false, room), OpenReferencePieces(), false, 11)
  {
    var pat, a := OpenReference(), Char(Lit(LETTER_A), Once);
    var r3 := [GroupEnd] + ([BackRef(0)] + ([GroupEnd] + []));
    hide PiecesAt, Spells;
    OpenReferenceTail();
    assert CharAt(pat, 4, Lit(LETTER_A), 5, SLASH, AfterMark) && CountAt(pat, 5, Once, 5, SLASH);
    PiecesCons(pat, 4, a, 5, r3, 11, SLASH, AfterMark);
    PiecesCons(pat, 2, GroupStart, 4, [a] + r3, 11, SLASH, AfterMark);
    PiecesCons(pat, 0, GroupStart, 2, [GroupStart] + ([a] + r3), 11, SLASH, First);
    assert [GroupStart] + ([GroupStart] + ([a] + r3)) == OpenReferencePieces();
    SpellsIs(Args(pat, SLASH, false, room), OpenReferencePieces(), 11);
  }

  lemma PiecesNone(pat: seq<byte>, at: nat, eof: byte, place: Place)
    ensures PiecesAt(pat, at, [], at, eof, place)
  {
  }

  lemma SpellsIs(a: Args, ps: seq<Piece>, end: nat)
    requires EofOk(a.eof) && a.eof != CARET && Ends(a, end) && PiecesAt(a.pat, 0, ps, end, a.eof, First)
    requires ps != [] && !IsAt(a.pat, 0, CARET)
    ensures Spells(a, ps, false, end)
  {
  }

  lemma ElementsCons(p: Piece, rest: seq<Piece>, g: Groups)
    ensures p == GroupStart && g.begun < NBRA ==>
              Elements([p] + rest, g) == Prepend(Open(g.begun), Elements(rest, Begun(g)))
    ensures p == GroupEnd && g.stack != [] ==>
              Elements([p] + rest, g) == Prepend(Close(g.stack[|g.stack| - 1]), Elements(rest, Ended(g)))
    ensures p.BackRef? && p.k < g.closed ==> Elements([p] + rest, g) == Prepend(Back(p.k), Elements(rest, g))
    ensures p.Char? ==> Elements([p] + rest, g) == Prepend(CharElem(AtomOf(p.x), p.q), Elements(rest, g))
  {
    assert ([p] + rest)[1..] == rest;
  }

  lemma LastElements()
    ensures Elements([BackRef(0)] + ([GroupEnd] + []), Groups(2, [0], 1)) == Accepted([Back(0), Close(0), End])
  {
    var g := Groups(2, [0], 1);
    ElementsCons(GroupEnd, [], g);
    assert Ended(g) == Groups(2, [], 2);
    ElementsCons(BackRef(0), [GroupEnd] + [], g);
  }

  lemma MiddleElements(rest: seq<Piece>, more: seq<Elem>)
    requires Elements(rest, Groups(2, [0], 1)) == Accepted(more)
    ensures Elements([Char(Lit(LETTER_A), Once)] + ([GroupEnd] + rest), Groups(2, [0, 1], 0))
         == Accepted([One(Chr(LETTER_A)), Close(1)] + more)
  {
    var g := Groups(2, [0, 1], 0);
    ElementsCons(GroupEnd, rest, g);
    assert Ended(g) == Groups(2, [0], 1);
    ElementsCons(Char(Lit(LETTER_A), Once), [GroupEnd] + rest, g);
    assert [One(Chr(LETTER_A))] + ([Close(1)] + more) == [One(Chr(LETTER_A)), Close(1)] + more;
  }

  lemma FirstElements(rest: seq<Piece>, more: seq<Elem>)
    requires Elements(rest, Groups(2, [0, 1], 0)) == Accepted(more)
    ensures Elements([GroupStart] + ([GroupStart] + rest), NOGROUPS) == Accepted([Open(0), Open(1)] + more)
  {
    var g := Groups(1, [0], 0);
    assert Begun(NOGROUPS) == g && Begun(g) == Groups(2, [0, 1], 0);
    ElementsCons(GroupStart, rest, g);
    ElementsCons(GroupStart, [GroupStart] + rest, NOGROUPS);
    assert [Open(0)] + ([Open(1)] + more) == [Open(0), Open(1)] + more;
  }

  lemma OpenReferenceElements()
    ensures Elements(OpenReferencePieces(), NOGROUPS)
         == Accepted([Open(0), Open(1)] + ([One(Chr(LETTER_A)), Close(1)] + [Back(0), Close(0), End]))
  {
    var last := [BackRef(0)] + ([GroupEnd] + []);
    var middle := [Char(Lit(LETTER_A), Once)] + ([GroupEnd] + last);
    LastElements();
    MiddleElements(last, [Back(0), Close(0), End]);
    FirstElements(middle, [One(Chr(LETTER_A)), Close(1)] + [Back(0), Close(0), End]);
    assert OpenReferencePieces() == [GroupStart] + ([GroupStart] + middle);
  }

  lemma OpenReferenceBad(ps: seq<Piece>)
    requires ps == OpenReferencePieces()
    ensures Elements(ps, NOGROUPS).Accepted? && !ProgOk(Elements(ps, NOGROUPS).prog)
  {
    OpenReferenceElements();
    var prog := Elements(ps, NOGROUPS).prog;
    NotClosedYet(prog);
    assert !ElemOk(prog, 4);
  }

  /** compile counts closed groups only, so it accepts a reference to a group that is not one of them. */
  lemma OpenReferenceAccepted(a: Args, ps: seq<Piece>, before: bool)
    requires a == Args(OpenReference(), SLASH, false, a.room) && a.room > 12 && ps == OpenReferencePieces()
    ensures Spells(a, ps, false, 11) && Compile(a, before).Program?
    ensures Elements(ps, NOGROUPS).Accepted? && !ProgOk(Elements(ps, NOGROUPS).prog)
  {
    OpenReferenceSpelled(a.room);
    OpenReferenceBad(ps);
    OpenReferenceSize(ps);
    CompileFits(a, before, ps, false, 11);
  }

  lemma OpenReferenceSize(ps: seq<Piece>)
    requires ps == OpenReferencePieces()
    ensures TotalSize(ps) == 12
  {
    assert TotalSize(ps[6..]) == 0;
    assert TotalSize(ps[5..]) == 2;
    assert TotalSize(ps[4..]) == 4;
    assert TotalSize(ps[3..]) == 6;
    assert TotalSize(ps[2..]) == 8;
    assert TotalSize(ps[1..]) == 10;
  }

  lemma NotClosedYet(prog: seq<Elem>)
    requires prog == [Open(0), Open(1), One(Chr(LETTER_A)), Close(1), Back(0), Close(0), End]
    ensures prog[4].Back? && prog[4].k !in Closed(prog, 4)
  {
    assert Closed(prog, 0) == {};
    assert Closed(prog, 1) == {};
    assert Closed(prog, 2) == {};
    assert Closed(prog, 3) == {};
    assert Closed(prog, 4) == {1};
  }

  // ----- a byte behind the buffer -----

  /** So many dots and an a. */
  function DotsA(n: nat): (pat: seq<byte>)
    ensures |pat| == n + 2 && (forall k | 0 <= k < n :: pat[k] == DOT) && pat[n] == LETTER_A && pat[n + 1] == SLASH
  {
    seq(n, _ => DOT) + [LETTER_A, SLASH]
  }

  function DotsPieces(n: nat): (ps: seq<Piece>)
    ensures |ps| == n + 1 && (forall k | 0 <= k < n :: ps[k] == Char(Dot, Once)) && ps[n] == Char(Lit(LETTER_A), Once)
  {
    seq(n, _ => Char(Dot, Once)) + [Char(Lit(LETTER_A), Once)]
  }

  lemma {:induction false} DotsSpelled(n: nat, k: nat, place: Place)
    requires k <= n
    ensures PiecesAt(DotsA(n), k, DotsPieces(n)[k..], n + 1, SLASH, place)
    decreases n - k
  {
    var pat, ps := DotsA(n), DotsPieces(n);
    if k == n {
      assert CharAt(pat, n, Lit(LETTER_A), n + 1, SLASH, place) && CountAt(pat, n + 1, Once, n + 1, SLASH);
      PiecesCons(pat, n, ps[n], n + 1, [], n + 1, SLASH, place);
      assert ps[n..] == [ps[n]] + [];
    } else {
      DotsSpelled(n, k + 1, Elsewhere);
      assert CharAt(pat, k, Dot, k + 1, SLASH, place) && CountAt(pat, k + 1, Once, k + 1, SLASH);
      PiecesCons(pat, k, ps[k], k + 1, ps[k + 1..], n + 1, SLASH, place);
      assert ps[k..] == [ps[k]] + ps[k + 1..];
    }
  }

  lemma {:induction false} DotsElements(n: nat, k: nat)
    requires k <= n
    ensures Elements(DotsPieces(n)[k..], NOGROUPS).Accepted?
    decreases n - k
  {
    var ps := DotsPieces(n);
    assert ps[k..] == [ps[k]] + ps[k + 1..];
    ElementsCons(ps[k], ps[k + 1..], NOGROUPS);
    if k < n { DotsElements(n, k + 1); } else { assert ps[k + 1..] == []; }
  }

  lemma {:induction false} DotsSize(n: nat, k: nat)
    requires k <= n
    ensures TotalSize(DotsPieces(n)[..k]) == k
  {
    if k > 0 {
      DotsSize(n, k - 1);
      SizeSnoc(DotsPieces(n)[..k - 1], Char(Dot, Once));
      assert DotsPieces(n)[..k] == DotsPieces(n)[..k - 1] + [Char(Dot, Once)];
    }
  }

  lemma {:induction false} SizeSnoc(ps: seq<Piece>, p: Piece)
    ensures TotalSize(ps + [p]) == TotalSize(ps) + PieceSize(p)
    decreases |ps|
  {
    if ps == [] {
      assert ([] + [p])[1..] == [];
    } else {
      assert (ps + [p])[1..] == ps[1..] + [p];
      SizeSnoc(ps[1..], p);
    }
  }

  /** A pattern of dots that leave one byte of the buffer, and an a, whatever the size of the buffer. */
  lemma BehindShown(room: nat, before: bool)
    requires 0 < room
    ensures Compile(Args(DotsA(room - 1), SLASH, false, room), before) == CompileError(Behind)
  {
    var n, ps := room - 1, DotsPieces(room - 1);
    var a := Args(DotsA(n), SLASH, false, room);
    hide Compile, Elements, DotsA, DotsPieces;
    DotsSpelled(n, 0, First);
    DotsElements(n, 0);
    assert ps[0..] == ps;
    DotsSize(n, n);
    assert Breaks(ps[n], 0 + TotalSize(ps[..n]), room);
    CompileFits(a, before, ps, false, n + 1);
  }

  /** compile itself, with a buffer of that size. */
  method ShowBehind(room: nat) returns (r: Compiled)
    requires 0 < room
    ensures r == CompileError(Behind)
  {
    hide Compile;
    var compiler := new Compiler(room);
    r := compiler.Run(Args(DotsA(room - 1), SLASH, false, room));
    BehindShown(room, false);
    BehindShown(room, true);
  }
}
