/**
 step and advance of usr/src/head/regexp.h: the interpreter of compiled patterns, over the bytes
 of the program and the pointers lp and ep. The bracket lists are shared by all the recursive
 calls, so a failed attempt leaves its own entries behind.
 */
module EdAdvance {
  import opened EdProgram

  // ----- from bytes to elements -----

  datatype Decoded = Bad | Decoded(e: Elem, next: nat)

  function RangeOf(a: Atom, code: seq<byte>, at: nat): Decoded {
    if at + 2 > |code| then Bad else
    var low, high := Num(code[at]), Num(code[at + 1]);
    Decoded(Rep(a, low, if high == 255 then low + 20000 else high), at + 2)
  }

  /** The element at ep, as advance reads it; Bad for an opcode it has no case for. */
  function Decode(code: seq<byte>, ep: nat): Decoded {
    if ep >= |code| then Bad else
    var op := code[ep];
    if op == CCEOF then Decoded(End, ep + 1)
    else if op == CDOL then Decoded(Dollar, ep + 1)
    else if op == CDOT then Decoded(One(Any), ep + 1)
    else if op == CDOT | STAR then Decoded(Rep(Any, 0, -1), ep + 1)
    else if op == CDOT | RNGE then RangeOf(Any, code, ep + 1)
    else if ep + 1 >= |code| then Bad
    else if op == CCHR then Decoded(One(Chr(code[ep + 1])), ep + 2)
    else if op == CCHR | STAR then Decoded(Rep(Chr(code[ep + 1]), 0, -1), ep + 2)
    else if op == CCHR | RNGE then RangeOf(Chr(code[ep + 1]), code, ep + 2)
    else if op == CBRA then Decoded(Open(Num(code[ep + 1])), ep + 2)
    else if op == CKET then Decoded(Close(Num(code[ep + 1])), ep + 2)
    else if op == CBACK then Decoded(Back(Num(code[ep + 1])), ep + 2)
    else
      var kind := if op in {CCL, CCL | STAR, CCL | RNGE} then CCL
                  else if op in {NCCL, NCCL | STAR, NCCL | RNGE} then NCCL else CXCL;
      var width := if kind == CXCL then 32 else 16;
      if ep + 1 + width > |code| then Bad else
      var a := Map(kind, code[ep + 1..ep + 1 + width]);
      if op == kind then Decoded(One(a), ep + 1 + width)
      else if op == kind | STAR then Decoded(Rep(a, 0, -1), ep + 1 + width)
      else if op == kind | RNGE then RangeOf(a, code, ep + 1 + width)
      else Bad
  }

  /** From ep on the code is elements i, i + 1, ... of prog. */
  ghost predicate Decodes(code: seq<byte>, ep: nat, prog: seq<Elem>, i: nat)
    decreases |prog| - i
  {
    && i < |prog| && Decode(code, ep).Decoded? && Decode(code, ep).e == prog[i]
    && (i + 1 < |prog| ==> Decodes(code, Decode(code, ep).next, prog, i + 1))
  }

  // ----- what a failed attempt leaves behind does not matter -----

  lemma {:induction false} GroupsGrow(prog: seq<Elem>, i: nat, j: nat)
    requires i <= j <= |prog|
    ensures Opened(prog, i) <= Opened(prog, j) && Closed(prog, i) <= Closed(prog, j)
    decreases j - i
  {
    if i < j { GroupsGrow(prog, i, j - 1); }
  }

  lemma {:induction false} ClosedOpened(prog: seq<Elem>, i: nat)
    requires ProgOk(prog) && i <= |prog|
    ensures Closed(prog, i) <= Opened(prog, i) && forall k | k in Opened(prog, i) :: k < NBRA
  {
    if i > 0 {
      ClosedOpened(prog, i - 1);
      assert ElemOk(prog, i - 1);
    }
  }

  /** The groups known before element i are the same in both. */
  ghost predicate Agree(env: Env, env': Env, prog: seq<Elem>, i: nat)
    requires i <= |prog|
  {
    && EnvShape(env) && EnvShape(env')
    && (forall k | k in Opened(prog, i) && k < NBRA :: env.bra[k] == env'.bra[k])
    && (forall k | k in Closed(prog, i) && k < NBRA :: env.ket[k] == env'.ket[k])
  }

  ghost predicate SameFound(r: Found, r': Found, prog: seq<Elem>) {
    if r.Found? then r'.Found? && r.end == r'.end && Agree(r.env, r'.env, prog, |prog|) else r' == Nothing
  }

  lemma AgreeStep(env: Env, env': Env, prog: seq<Elem>, i: nat)
    requires i < |prog| && Agree(env, env', prog, i) && !prog[i].Open? && !prog[i].Close?
    ensures Agree(env, env', prog, i + 1)
  {
  }

  lemma AgreeTrans(a: Env, b: Env, c: Env, prog: seq<Elem>, i: nat, j: nat)
    requires i <= j <= |prog| && Agree(a, b, prog, j) && Agree(b, c, prog, i)
    ensures Agree(a, c, prog, i)
  {
    GroupsGrow(prog, i, j);
  }

  lemma AgreeOpen(env: Env, env': Env, prog: seq<Elem>, i: nat, lp: nat)
    requires ProgOk(prog) && i < |prog| && Agree(env, env', prog, i) && prog[i].Open? && prog[i].k < NBRA
    ensures Agree(env.(bra := env.bra[prog[i].k := lp]), env'.(bra := env'.bra[prog[i].k := lp]), prog, i + 1)
  {
  }

  lemma AgreeClose(env: Env, env': Env, prog: seq<Elem>, i: nat, lp: nat)
    requires ProgOk(prog) && i < |prog| && Agree(env, env', prog, i) && prog[i].Close? && prog[i].k < NBRA
    ensures Agree(env.(ket := env.ket[prog[i].k := lp]), env'.(ket := env'.ket[prog[i].k := lp]), prog, i + 1)
  {
  }

  lemma {:induction false} GreedyAgree(prog: seq<Elem>, i: nat, line: seq<byte>, lp: nat, locs: int, env: Env,
                                       env': Env)
    requires ProgOk(prog) && i < |prog| && lp <= |line| && Agree(env, env', prog, i)
    ensures SameFound(Greedy(prog, i, line, lp, locs, env), Greedy(prog, i, line, lp, locs, env'), prog)
    decreases |prog| - i, 1, 0
  {
    assert ElemOk(prog, i);
    match prog[i]
    case One(a) =>
      AgreeStep(env, env', prog, i);
      if lp < |line| && Accepts(a, line[lp]) { GreedyAgree(prog, i + 1, line, lp + 1, locs, env, env'); }
    case Rep(a, lo, hi) =>
      var m := RunLength(a, line, lp, hi);
      if lo <= m { DownAgree(prog, i, line, lp + lo, lp + m, locs, env, env'); }
    case Dollar =>
      AgreeStep(env, env', prog, i);
      if lp == |line| { GreedyAgree(prog, i + 1, line, lp, locs, env, env'); }
    case Open(k) =>
      AgreeOpen(env, env', prog, i, lp);
      GreedyAgree(prog, i + 1, line, lp, locs, env.(bra := env.bra[k := lp]), env'.(bra := env'.bra[k := lp]));
    case Close(k) =>
      AgreeClose(env, env', prog, i, lp);
      GreedyAgree(prog, i + 1, line, lp, locs, env.(ket := env.ket[k := lp]), env'.(ket := env'.ket[k := lp]));
    case Back(k) =>
      AgreeStep(env, env', prog, i);
      ClosedOpened(prog, i);
      assert env.bra[k] == env'.bra[k] && env.ket[k] == env'.ket[k];
      if SameText(line, env, k, lp) { GreedyAgree(prog, i + 1, line, lp + (env.ket[k] - env.bra[k]), locs, env, env'); }
    case End => AgreeStep(env, env', prog, i);
  }

  lemma {:induction false} DownAgree(prog: seq<Elem>, i: nat, line: seq<byte>, from: nat, e: nat, locs: int, env: Env,
                                     env': Env)
    requires ProgOk(prog) && i + 1 < |prog| && prog[i].Rep? && from <= e <= |line| && Agree(env, env', prog, i)
    ensures SameFound(Down(prog, i, line, from, e, locs, env), Down(prog, i, line, from, e, locs, env'), prog)
    decreases |prog| - i, 0, e - from
  {
    AgreeStep(env, env', prog, i);
    if e != locs {
      GreedyAgree(prog, i + 1, line, e, locs, env, env');
      if Greedy(prog, i + 1, line, e, locs, env) == Nothing && e > from { DownAgree(prog, i, line, from, e - 1, locs,
          env, env'); }
    }
  }

  /** A group that is closed holds a piece of the line before lp. */
  ghost predicate GroupsIn(env: Env, prog: seq<Elem>, i: nat, lp: nat)
    requires EnvShape(env) && i <= |prog|
  {
    && (forall k | k in Opened(prog, i) && k < NBRA :: env.bra[k] <= lp)
    && (forall k | k in Closed(prog, i) && k < NBRA :: env.bra[k] <= env.ket[k] <= lp)
  }

  lemma GroupsStep(env: Env, prog: seq<Elem>, i: nat, lp: nat, lp': nat)
    requires EnvShape(env) && i < |prog| && GroupsIn(env, prog, i, lp) && lp <= lp' && !prog[i].Open? && !prog[i].Close?
    ensures GroupsIn(env, prog, i + 1, lp')
  {
  }

  /** Entering a group: its start is where we are, and no group before it is touched. */
  lemma GroupsOpen(env: Env, prog: seq<Elem>, i: nat, lp: nat)
    requires EnvShape(env) && i < |prog| && GroupsIn(env, prog, i, lp) && prog[i].Open? && prog[i].k < NBRA
    requires ProgOk(prog) && prog[i].k !in Opened(prog, i)
    ensures var env' := env.(bra := env.bra[prog[i].k := lp]);
            GroupsIn(env', prog, i + 1, lp) && Agree(env', env, prog, i)
  {
    ClosedOpened(prog, i);
  }

  lemma GroupsClose(env: Env, prog: seq<Elem>, i: nat, lp: nat)
    requires EnvShape(env) && i < |prog| && GroupsIn(env, prog, i, lp) && prog[i].Close? && prog[i].k < NBRA
    requires prog[i].k in Opened(prog, i) && prog[i].k !in Closed(prog, i)
    ensures var env' := env.(ket := env.ket[prog[i].k := lp]);
            GroupsIn(env', prog, i + 1, lp) && Agree(env', env, prog, i)
  {
  }

  // ----- the loops over one repeated character -----

  lemma {:induction false} RunSplit(a: Atom, line: seq<byte>, lp: nat, lo: nat, hi: int)
    requires AtomOk(a) && lp <= |line| && (hi < 0 || lo <= hi)
    ensures RunLength(a, line, lp, lo) == lo ==>
              lp + lo <= |line| &&
              RunLength(a, line, lp, hi) == lo + RunLength(a, line, lp + lo, if hi < 0 then hi else hi - lo)
    ensures RunLength(a, line, lp, lo) < lo ==> RunLength(a, line, lp, hi) < lo
    decreases lo
  {
    if lo > 0 && lp < |line| && Accepts(a, line[lp]) {
      RunSplit(a, line, lp + 1, lo - 1, if hi < 0 then hi else hi - 1);
    }
  }

  /** The characters that must match. */
  method Low(a: Atom, line: seq<byte>, lp0: nat, low0: nat) returns (ok: bool, lp: nat)
    requires AtomOk(a) && lp0 <= |line|
    ensures ok <==> RunLength(a, line, lp0, low0) == low0
    ensures ok ==> lp == lp0 + low0 <= |line|
  {
    lp := lp0;
    var low := low0;
    while low > 0
      invariant lp0 <= lp <= |line| && low <= low0 && lp - lp0 == low0 - low
      invariant RunLength(a, line, lp0, low0) == (lp - lp0) + RunLength(a, line, lp, low)
    {
      low := low - 1;
      if !Accepts(a, At(line, lp)) {
        return false, lp + 1;
      }
      lp := lp + 1;
    }
    ok := true;
  }

  /** The characters that may match, as many as there are; lp ends up one past the first that is not taken. */
  method Size(a: Atom, line: seq<byte>, lp0: nat, size0: nat) returns (lp: nat)
    requires AtomOk(a) && lp0 <= |line|
    ensures lp == lp0 + RunLength(a, line, lp0, size0) + 1
  {
    lp := lp0;
    var size: int := size0;
    while true
      invariant lp0 <= lp <= |line| && 0 <= size <= size0
      invariant RunLength(a, line, lp0, size0) == (lp - lp0) + RunLength(a, line, lp, size)
      decreases size
    {
      size := size - 1;
      if size < 0 {
        break;
      }
      lp := lp + 1;
      if !Accepts(a, At(line, lp - 1)) {
        return;
      }
    }
    lp := lp + 1;
  }

  /** As many characters as match; lp ends up one past the first that does not. */
  method Run(a: Atom, line: seq<byte>, lp0: nat) returns (lp: nat)
    requires AtomOk(a) && lp0 <= |line|
    ensures lp == lp0 + RunLength(a, line, lp0, -1) + 1
  {
    lp := lp0;
    while Accepts(a, At(line, lp))
      invariant lp0 <= lp <= |line|
      invariant RunLength(a, line, lp0, -1) == (lp - lp0) + RunLength(a, line, lp, -1)
      decreases |line| - lp
    {
      lp := lp + 1;
    }
    lp := lp + 1;
  }

  /** The loops before label star: lp one past the most characters, curlp after the fewest. */
  method Span(a: Atom, line: seq<byte>, lp0: nat, lo: nat, hi: int) returns (ok: bool, lp: nat, curlp: nat)
    requires AtomOk(a) && lp0 <= |line| && (hi < 0 || lo <= hi)
    ensures ok <==> lo <= RunLength(a, line, lp0, hi)
    ensures ok ==> curlp == lp0 + lo && lp == lp0 + RunLength(a, line, lp0, hi) + 1
  {
    if hi < 0 && lo == 0 {
      lp := Run(a, line, lp0);
      return true, lp, lp0;
    }
    RunSplit(a, line, lp0, lo, hi);
    ok, lp := Low(a, line, lp0, lo);
    curlp := lp;
    if ok {
      if hi < 0 { lp := Run(a, line, curlp); } else { lp := Size(a, line, curlp, hi - lo); }
    }
  }

  /** Whether the ct characters at bbeg stand at lp too, as far as a NUL in both. */
  method Ecmp(line: seq<byte>, b: nat, lp: nat, ct: nat) returns (same: bool)
    requires LineOk(line) && b + ct <= |line| && lp <= |line|
    ensures same <==> lp + ct <= |line| && line[b..b + ct] == line[lp..lp + ct]
  {
    var k := 0;
    while k < ct && At(line, b + k) == At(line, lp + k)
      invariant 0 <= k <= ct && lp + k <= |line| && line[b..b + k] == line[lp..lp + k]
    {
      assert line[b + k] != 0;
      assert line[b..b + k + 1] == line[b..b + k] + [line[b + k]];
      assert line[lp..lp + k + 1] == line[lp..lp + k] + [line[lp + k]];
      k := k + 1;
    }
    same := k == ct;
    if !same && lp + ct <= |line| {
      assert line[b..b + ct][k] == line[b + k] && line[lp..lp + ct][k] == line[lp + k];
    }
  }

  // ----- advance and step -----

  class Matcher {
    const code: seq<byte>
    const braslist: array<nat>
    const braelist: array<nat>
    var loc1: nat
    var loc2: nat
    var locs: int
    var circf: bool

    constructor (code: seq<byte>, circf: bool, locs: int)
      ensures Valid() && this.code == code && this.circf == circf && this.locs == locs && fresh(braslist) &&
              fresh(braelist)
    {
      this.code, this.circf, this.locs := code, circf, locs;
      braslist := new nat[NBRA];
      braelist := new nat[NBRA];
    }

    ghost predicate Valid()
    {
      braslist.Length == NBRA && braelist.Length == NBRA && braslist != braelist
    }

    ghost function Brackets(): Env
      reads braslist, braelist
    {
      Env(braslist[..], braelist[..])
    }

    ghost predicate GroupsSet(prog: seq<Elem>, i: nat, lp: nat)
      requires Valid() && i <= |prog|
      reads braslist, braelist
    {
      GroupsIn(Brackets(), prog, i, lp)
    }

    /** The cases of advance without a repeat: what to do with element j, and where it leaves lp. */
    method Single(line: seq<byte>, lp0: nat, e: Elem, ghost prog: seq<Elem>, ghost j: nat) returns (ok: bool, lp: nat)
      requires Valid() && LineOk(line) && lp0 <= |line| && ProgOk(prog) && j + 1 < |prog|
      requires prog[j] == e && !e.Rep? && ElemOk(prog, j) && GroupsSet(prog, j, lp0)
      modifies braslist, braelist
      ensures Agree(Brackets(), old(Brackets()), prog, j)
      ensures ok ==> lp <= |line| && GroupsSet(prog, j + 1, lp)
      ensures Greedy(prog, j, line, lp0, locs, old(Brackets())) ==
              if ok then Greedy(prog, j + 1, line, lp, locs, Brackets()) else Nothing
    {
      lp := lp0;
      ok := true;
      match e {
        case One(a) =>
          lp := lp + 1;
          ok := Accepts(a, At(line, lp - 1));
          GroupsStep(Brackets(), prog, j, lp0, lp);
        case Dollar =>
          ok := At(line, lp) == 0;
          GroupsStep(Brackets(), prog, j, lp0, lp);
        case Open(k) =>
          ghost var was := Brackets();
          GroupsOpen(was, prog, j, lp);
          braslist[k] := lp;
          assert Brackets() == was.(bra := was.bra[k := lp]);
        case Close(k) =>
          ghost var was := Brackets();
          GroupsClose(was, prog, j, lp);
          braelist[k] := lp;
          assert Brackets() == was.(ket := was.ket[k := lp]);
        case Back(k) =>
          ClosedOpened(prog, j);
          var bbeg := braslist[k];
          var ct := braelist[k] - bbeg;
          ok := Ecmp(line, bbeg, lp, ct);
          lp := lp + ct;
          GroupsStep(Brackets(), prog, j, lp0, lp);
      }
    }

    /**
     advance from element i of the program at lp: 1 exactly when the greedy search finds a match.
     Then loc2 is its end and the brackets are its groups; else the groups before i are intact.
     */
    method Advance(line: seq<byte>, lp0: nat, ep0: nat, ghost prog: seq<Elem>, ghost i: nat) returns (ok: bool)
      requires Valid() && LineOk(line) && lp0 <= |line| && ProgOk(prog) && Decodes(code, ep0, prog, i)
      requires GroupsSet(prog, i, lp0)
      modifies this`loc2, braslist, braelist
      ensures ok <==> Greedy(prog, i, line, lp0, locs, old(Brackets())).Found?
      ensures ok ==> var r := Greedy(prog, i, line, lp0, locs, old(Brackets()));
                     loc2 == r.end && Agree(Brackets(), r.env, prog, |prog|)
      ensures !ok ==> Agree(Brackets(), old(Brackets()), prog, i)
      decreases |prog| - i, 1, 0
    {
      var lp: nat, ep: nat := lp0, ep0;
      ghost var j := i;
      ghost var goal := Greedy(prog, i, line, lp0, locs, old(Brackets()));
      while true
        invariant i <= j < |prog| && lp <= |line| && Decodes(code, ep, prog, j)
        invariant GroupsSet(prog, j, lp) && Greedy(prog, j, line, lp, locs, Brackets()) == goal
        invariant Agree(Brackets(), old(Brackets()), prog, i)
        decreases |prog| - j
      {
        assert ElemOk(prog, j);
        var d := Decode(code, ep);
        ghost var was := Brackets();
        if d.e == End {
          loc2 := lp;
          return true;
        }
        assert j + 1 < |prog|;
        if d.e.Rep? {
          ok := Repeat(line, lp, d.e.a, d.e.lo, d.e.hi, d.next, prog, j);
          if !ok { AgreeTrans(Brackets(), was, old(Brackets()), prog, i, j); }
          return;
        }
        ok, lp := Single(line, lp, d.e, prog, j);
        AgreeTrans(Brackets(), was, old(Brackets()), prog, i, j);
        if !ok {
          return;
        }
        ep := d.next;
        j := j + 1;
      }
    }

    /** The cases with a repeat: run over the characters, then the loop at label star. */
    method Repeat(line: seq<byte>, lp0: nat, a: Atom, lo: nat, hi: int, ep: nat, ghost prog: seq<Elem>, ghost j: nat)
        returns (ok: bool)
      requires Valid() && LineOk(line) && lp0 <= |line| && ProgOk(prog) && j + 1 < |prog| &&
               Decodes(code, ep, prog, j + 1)
      requires prog[j] == Rep(a, lo, hi) && ElemOk(prog, j) && GroupsSet(prog, j, lp0)
      modifies this`loc2, braslist, braelist
      ensures ok <==> Greedy(prog, j, line, lp0, locs, old(Brackets())).Found?
      ensures ok ==> var r := Greedy(prog, j, line, lp0, locs, old(Brackets()));
                     loc2 == r.end && Agree(Brackets(), r.env, prog, |prog|)
      ensures !ok ==> Agree(Brackets(), old(Brackets()), prog, j)
      decreases |prog| - j, 0, 1
    {
      var lp, curlp;
      ok, lp, curlp := Span(a, line, lp0, lo, hi);
      if !ok {
        return;
      }
      ok := Star(line, lp, curlp, ep, prog, j);
    }

    /** Giving back one character after another until the rest matches; a place equal to locs ends the search. */
    method Star(line: seq<byte>, lp0: nat, curlp: nat, ep: nat, ghost prog: seq<Elem>, ghost j: nat) returns (ok: bool)
      requires Valid() && LineOk(line) && curlp < lp0 <= |line| + 1 && ProgOk(prog) && j + 1 < |prog| &&
               Decodes(code, ep, prog, j + 1)
      requires prog[j].Rep? && GroupsSet(prog, j, curlp)
      modifies this`loc2, braslist, braelist
      ensures ok <==> Down(prog, j, line, curlp, lp0 - 1, locs, old(Brackets())).Found?
      ensures ok ==> var r := Down(prog, j, line, curlp, lp0 - 1, locs, old(Brackets()));
                     loc2 == r.end && Agree(Brackets(), r.env, prog, |prog|)
      ensures !ok ==> Agree(Brackets(), old(Brackets()), prog, j)
      decreases |prog| - j, 0, 0
    {
      var lp := lp0;
      ghost var env := Brackets();
      ClosedOpened(prog, j);
      while true
        invariant curlp < lp <= lp0
        invariant Agree(Brackets(), env, prog, j) && GroupsSet(prog, j, curlp)
        invariant Down(prog, j, line, curlp, lp0 - 1, locs, env) == Down(prog, j, line, curlp, lp - 1, locs, env)
        decreases lp
      {
        lp := lp - 1;
        if lp == locs {
          return false;
        }
        AgreeStep(Brackets(), env, prog, j);
        GreedyAgree(prog, j + 1, line, lp, locs, Brackets(), env);
        ok := Advance(line, lp, ep, prog, j + 1);
        if ok {
          return;
        }
        if lp <= curlp {
          return false;
        }
      }
    }
  
    ghost predicate Ready(prog: seq<Elem>)
    {
      Valid() && ProgOk(prog) && Decodes(code, 0, prog, 0)
    }

    /**
     step: the first place where advance succeeds (only the start of the line when circf is set),
     and there the match advance finds. The test of the first character skips no match.
     */
    method Step(line: seq<byte>, ghost prog: seq<Elem>) returns (ok: bool, ghost r: Found, ghost cs: seq<nat>)
      requires Ready(prog) && LineOk(line)
      modifies this`loc1, this`loc2, braslist, braelist
      ensures ok ==> loc1 <= |line| && (circf ==> loc1 == 0) && Reported(prog, line, loc1, r, cs)
      ensures ok ==> forall p | 0 <= p < loc1 :: !Matches(prog, line, p, locs)
      ensures !ok ==> forall p | 0 <= p <= |line| && (circf ==> p == 0) :: !Matches(prog, line, p, locs)
    {
      var p1 := 0;
      if circf {
        loc1 := p1;
        ok, r, cs := Try(line, p1, prog);
        return;
      }
      if code[0] == CCHR {
        var c := code[1];
        while true
          invariant 0 <= p1 <= |line| && forall p | 0 <= p < p1 :: !Matches(prog, line, p, locs)
          decreases |line| - p1
        {
          if At(line, p1) != c {
            OtherFirst(line, p1, prog);
          } else {
            ok, r, cs := Try(line, p1, prog);
            if ok {
              loc1 := p1;
              return;
            }
          }
          if At(line, p1) == 0 {
            return false, Nothing, [];
          }
          p1 := p1 + 1;
        }
      }
      while true
        invariant 0 <= p1 <= |line| && forall p | 0 <= p < p1 :: !Matches(prog, line, p, locs)
        decreases |line| - p1
      {
        ok, r, cs := Try(line, p1, prog);
        if ok {
          loc1 := p1;
          return;
        }
        if At(line, p1) == 0 {
          return;
        }
        p1 := p1 + 1;
      }
    }

    /** A program that begins with a character matches only where that character stands. */
    lemma OtherFirst(line: seq<byte>, p: nat, prog: seq<Elem>)
      requires Ready(prog) && LineOk(line) && p <= |line| && code[0] == CCHR && At(line, p) != code[1]
      ensures !Matches(prog, line, p, locs)
    {
      assert ElemOk(prog, 0) && prog[0] == One(Chr(code[1]));
    }

    /** loc2 and the brackets are those of the greedy-first match at p. */
    ghost predicate Reported(prog: seq<Elem>, line: seq<byte>, p: nat, r: Found, cs: seq<nat>)
      requires ProgOk(prog) && p <= |line|
      reads this, braslist, braelist
    {
      && r.Found? && r == Greedy(prog, 0, line, p, locs, NoGroups()) && Best(prog, 0, line, p, locs, NoGroups(), r, cs)
      && loc2 == r.end && Agree(Brackets(), r.env, prog, |prog|)
    }

    /** advance(p1, p2) from the start of the program. */
    method Try(line: seq<byte>, p1: nat, ghost prog: seq<Elem>) returns (ok: bool, ghost r: Found, ghost cs: seq<nat>)
      requires Ready(prog) && LineOk(line) && p1 <= |line|
      modifies this`loc2, braslist, braelist
      ensures ok <==> Matches(prog, line, p1, locs)
      ensures ok ==> Reported(prog, line, p1, r, cs)
    {
      assert Opened(prog, 0) == {} && Closed(prog, 0) == {};
      GreedyAgree(prog, 0, line, p1, locs, Brackets(), NoGroups());
      r := Greedy(prog, 0, line, p1, locs, NoGroups());
      cs := GreedyIsBest(prog, 0, line, p1, locs, NoGroups());
      ok := Advance(line, p1, 0, prog, 0);
    }
  }

  function NoGroups(): Env {
    Env(seq(NBRA, _ => 0), seq(NBRA, _ => 0))
  }

  /** Some choice of repeat counts makes the program match at p. */
  ghost predicate Matches(prog: seq<Elem>, line: seq<byte>, p: nat, locs: int)
    requires ProgOk(prog) && p <= |line|
  {
    exists cs :: Walk(prog, 0, line, p, locs, NoGroups(), cs) != Nothing
  }
}
