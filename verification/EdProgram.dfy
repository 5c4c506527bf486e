/**
 Compiled patterns of ed and sed (usr/src/head/regexp.h): the byte program, the elements it
 decodes to, and what it means for a program to match a line.
 */
module EdProgram {
  type byte = bv8

  const CBRA: byte := 2
  const CCHR: byte := 4
  const CDOT: byte := 8
  const CCL: byte := 12
  const CXCL: byte := 16
  const CDOL: byte := 20
  const CCEOF: byte := 22
  const CKET: byte := 24
  const CBACK: byte := 36
  const NCCL: byte := 40
  const STAR: byte := 1
  const RNGE: byte := 3
  const NBRA: nat := 9

  // ----- elements -----

  /** What one character is tested against: a character, any but NUL, or a bitmap (kind CCL, NCCL or CXCL). */
  datatype Atom = Chr(c: byte) | Any | Map(kind: byte, bits: seq<byte>)

  /** hi < 0 is no limit. */
  datatype Elem =
    | One(a: Atom) | Rep(a: Atom, lo: nat, hi: int) | Dollar
    | Open(k: nat) | Close(k: nat) | Back(k: nat) | End

  /** bittab[c & 07]. */
  function Bit(c: byte): byte {
    (1 as bv8) << (c & 7)
  }

  /** The number a byte holds. */
  function Num(b: byte): nat {
    if b == 0 then 0 else 1 + Num(b - 1)
  }

  /** What is left of a number stored in a byte. */
  function Byte(k: nat): byte {
    if k == 0 then 0 else Byte(k - 1) + 1
  }

  lemma {:induction false} NumIs(b: byte)
    ensures Num(b) == b as int
  {
    if b != 0 { NumIs(b - 1); }
  }

  lemma {:induction false} NumSame(b: byte, c: byte)
    ensures Num(b) == Num(c) <==> b == c
  {
    if b != 0 && c != 0 { NumSame(b - 1, c - 1); }
  }

  lemma {:induction false} NumByte(k: nat)
    requires k < 256
    ensures Num(Byte(k)) == k
  {
    if k > 0 {
      NumByte(k - 1);
      NotLast(Byte(k - 1));
    }
  }

  lemma NotLast(b: byte)
    requires Num(b) < 255
    ensures b + 1 != 0
  {
    NumIs(255);
  }

  /** c >> 3. */
  function Slot(c: byte): (r: nat)
    ensures r < 32 && (c & 0x80 == 0 ==> r < 16)
  {
    NumIs(c >> 3);
    Num(c >> 3)
  }

  /** ISTHERE(c) in the bitmap bits. */
  predicate IsThere(bits: seq<byte>, c: byte)
    requires |bits| == 32 || (|bits| == 16 && c & 0x80 == 0)
  {
    bits[Slot(c)] & Bit(c) != 0
  }

  /** Bitmaps compile builds: 16 bytes, or 32 for CXCL. */
  predicate MapOk(kind: byte, bits: seq<byte>) {
    ((kind == CCL || kind == NCCL) && |bits| == 16) || (kind == CXCL && |bits| == 32)
  }

  predicate AtomOk(a: Atom) {
    match a
    case Chr(c) => c != 0
    case Any => true
    case Map(kind, bits) => MapOk(kind, bits) && !Accepts(a, 0)
  }

  /** The test advance applies to one character. */
  predicate Accepts(a: Atom, c: byte)
    requires a.Map? ==> MapOk(a.kind, a.bits)
  {
    match a
    case Chr(d) => c == d
    case Any => c != 0
    case Map(kind, bits) =>
      if kind == CXCL then IsThere(bits, c)
      else if kind == NCCL then !(c & 0x80 == 0 && IsThere(bits, c))
      else c & 0x80 == 0 && IsThere(bits, c)
  }

  // ----- programs -----

  /** Groups opened, and closed, before element i. */
  function Opened(prog: seq<Elem>, i: nat): set<nat>
    requires i <= |prog|
  {
    if i == 0 then {} else Opened(prog, i - 1) + if prog[i - 1].Open? then {prog[i - 1].k} else {}
  }

  function Closed(prog: seq<Elem>, i: nat): set<nat>
    requires i <= |prog|
  {
    if i == 0 then {} else Closed(prog, i - 1) + if prog[i - 1].Close? then {prog[i - 1].k} else {}
  }

  predicate ElemOk(prog: seq<Elem>, i: nat)
    requires i < |prog|
  {
    match prog[i]
    case One(a) => AtomOk(a)
    case Rep(a, lo, hi) => AtomOk(a) && (hi < 0 || lo <= hi)
    case Dollar => true
    case Open(k) => k < NBRA && k !in Opened(prog, i)
    case Close(k) => k < NBRA && k in Opened(prog, i) && k !in Closed(prog, i)
    case Back(k) => k < NBRA && k in Closed(prog, i)
    case End => i == |prog| - 1
  }

  /** Elements in order, the last one End; a back-reference is to a group already closed. */
  predicate ProgOk(prog: seq<Elem>) {
    prog != [] && prog[|prog| - 1] == End && forall i | 0 <= i < |prog| :: ElemOk(prog, i)
  }

  // ----- lines -----

  predicate LineOk(line: seq<byte>) {
    forall k | 0 <= k < |line| :: line[k] != 0
  }

  /** The character at lp, within the line or at its NUL. */
  function At(line: seq<byte>, lp: nat): byte {
    if lp < |line| then line[lp] else 0
  }

  /** How many characters from lp on a takes, at most limit if limit is not negative. */
  function RunLength(a: Atom, line: seq<byte>, lp: nat, limit: int): (r: nat)
    requires AtomOk(a) && lp <= |line|
    ensures lp + r <= |line| && (limit >= 0 ==> r <= limit)
    ensures forall k | lp <= k < lp + r :: Accepts(a, line[k])
    ensures (limit < 0 || r < limit) ==> lp + r == |line| || !Accepts(a, line[lp + r])
    decreases |line| - lp
  {
    if limit == 0 || lp == |line| || !Accepts(a, line[lp]) then 0
    else 1 + RunLength(a, line, lp + 1, if limit < 0 then limit else limit - 1)
  }

  /** braslist and braelist. */
  datatype Env = Env(bra: seq<nat>, ket: seq<nat>)

  predicate EnvShape(env: Env) {
    |env.bra| == NBRA && |env.ket| == NBRA
  }

  /** ecmp(bbeg, lp, ct) for the group's text. */
  predicate SameText(line: seq<byte>, env: Env, k: nat, lp: nat)
    requires EnvShape(env) && k < NBRA && lp <= |line|
  {
    var b, e := env.bra[k], env.ket[k];
    b <= e <= |line| && lp + (e - b) <= |line| && line[b..e] == line[lp..lp + (e - b)]
  }

  datatype Found = Nothing | Found(end: nat, env: Env)

  /** locs cuts off the repeat counts that end at or before it, when the repeat reaches it. */
  predicate Reaches(locs: int, from: nat, top: nat, e: nat) {
    !(from <= locs <= top && e <= locs)
  }

  /**
   The match a list of repeat counts spells out from element i at lp, one count for each repeat.
   */
  function Walk(prog: seq<Elem>, i: nat, line: seq<byte>, lp: nat, locs: int, env: Env, cs: seq<nat>): (r: Found)
    requires ProgOk(prog) && i < |prog| && lp <= |line| && EnvShape(env)
    ensures r.Found? ==> EnvShape(r.env) && lp <= r.end <= |line|
    decreases |prog| - i
  {
    assert ElemOk(prog, i);
    match prog[i]
    case One(a) => if lp < |line| && Accepts(a, line[lp]) then Walk(prog, i + 1, line, lp + 1, locs, env, cs)
        else Nothing
    case Rep(a, lo, hi) =>
      var m := RunLength(a, line, lp, hi);
      if cs != [] && lo <= cs[0] <= m && Reaches(locs, lp + lo, lp + m, lp + cs[0])
      then Walk(prog, i + 1, line, lp + cs[0], locs, env, cs[1..]) else Nothing
    case Dollar => if lp == |line| then Walk(prog, i + 1, line, lp, locs, env, cs) else Nothing
    case Open(k) => Walk(prog, i + 1, line, lp, locs, env.(bra := env.bra[k := lp]), cs)
    case Close(k) => Walk(prog, i + 1, line, lp, locs, env.(ket := env.ket[k := lp]), cs)
    case Back(k) =>
      if SameText(line, env, k, lp) then Walk(prog, i + 1, line, lp + (env.ket[k] - env.bra[k]), locs, env, cs)
          else Nothing
    case End => if cs == [] then Found(lp, env) else Nothing
  }

  /** The search of advance: at every repeat the largest count first. */
  function Greedy(prog: seq<Elem>, i: nat, line: seq<byte>, lp: nat, locs: int, env: Env): (r: Found)
    requires ProgOk(prog) && i < |prog| && lp <= |line| && EnvShape(env)
    ensures r.Found? ==> EnvShape(r.env) && lp <= r.end <= |line|
    decreases |prog| - i, 1, 0
  {
    assert ElemOk(prog, i);
    match prog[i]
    case One(a) => if lp < |line| && Accepts(a, line[lp]) then Greedy(prog, i + 1, line, lp + 1, locs, env) else Nothing
    case Rep(a, lo, hi) =>
      var m := RunLength(a, line, lp, hi);
      if m < lo then Nothing else Down(prog, i, line, lp + lo, lp + m, locs, env)
    case Dollar => if lp == |line| then Greedy(prog, i + 1, line, lp, locs, env) else Nothing
    case Open(k) => Greedy(prog, i + 1, line, lp, locs, env.(bra := env.bra[k := lp]))
    case Close(k) => Greedy(prog, i + 1, line, lp, locs, env.(ket := env.ket[k := lp]))
    case Back(k) =>
      if SameText(line, env, k, lp) then Greedy(prog, i + 1, line, lp + (env.ket[k] - env.bra[k]), locs, env)
          else Nothing
    case End => Found(lp, env)
  }

  /** The loop at label star, from e down to from. */
  function Down(prog: seq<Elem>, i: nat, line: seq<byte>, from: nat, e: nat, locs: int, env: Env): (r: Found)
    requires ProgOk(prog) && i + 1 < |prog| && from <= e <= |line| && EnvShape(env)
    ensures r.Found? ==> EnvShape(r.env) && from <= r.end <= |line|
    decreases |prog| - i, 0, e - from
  {
    if e == locs then Nothing else
    var r := Greedy(prog, i + 1, line, e, locs, env);
    if r.Found? || e == from then r else Down(prog, i, line, from, e - 1, locs, env)
  }

  // ----- the search finds the best list of counts -----

  /** b has the larger count at the first repeat where the two differ. */
  ghost predicate Before(a: seq<nat>, b: seq<nat>) {
    exists k | 0 <= k < |a| && k < |b| :: a[..k] == b[..k] && a[k] < b[k]
  }

  lemma BeforeCons(x: nat, a: seq<nat>, b: seq<nat>)
    requires Before(a, b)
    ensures Before([x] + a, [x] + b)
  {
    var k :| 0 <= k < |a| && k < |b| && a[..k] == b[..k] && a[k] < b[k];
    assert ([x] + a)[..k + 1] == [x] + a[..k] && ([x] + b)[..k + 1] == [x] + b[..k];
  }

  lemma BeforeHead(x: nat, y: nat, a: seq<nat>, b: seq<nat>)
    requires x < y
    ensures Before([x] + a, [y] + b)
  {
    assert ([x] + a)[..0] == ([y] + b)[..0];
  }

  /** What advance finds is the match for the greedy-first counts, and it finds one if there is any. */
  ghost predicate Best(prog: seq<Elem>, i: nat, line: seq<byte>, lp: nat, locs: int, env: Env, r: Found, cs: seq<nat>)
    requires ProgOk(prog) && i < |prog| && lp <= |line| && EnvShape(env)
  {
    if r == Nothing then forall c :: Walk(prog, i, line, lp, locs, env, c) == Nothing
    else
      && Walk(prog, i, line, lp, locs, env, cs) == r
      && forall c :: Walk(prog, i, line, lp, locs, env, c) != Nothing ==> c == cs || Before(c, cs)
  }

  lemma {:induction false} GreedyIsBest(prog: seq<Elem>, i: nat, line: seq<byte>, lp: nat, locs: int, env: Env)
      returns (cs: seq<nat>)
    requires ProgOk(prog) && i < |prog| && lp <= |line| && EnvShape(env)
    ensures Best(prog, i, line, lp, locs, env, Greedy(prog, i, line, lp, locs, env), cs)
    decreases |prog| - i, 1, 0
  {
    assert ElemOk(prog, i);
    cs := [];
    match prog[i]
    case One(a) => if lp < |line| && Accepts(a, line[lp]) { cs := GreedyIsBest(prog, i + 1, line, lp + 1, locs, env); }
    case Rep(a, lo, hi) =>
      var m := RunLength(a, line, lp, hi);
      if lo <= m { cs := DownIsBest(prog, i, line, lp, locs, env, lp + m); }
    case Dollar => if lp == |line| { cs := GreedyIsBest(prog, i + 1, line, lp, locs, env); }
    case Open(k) => cs := GreedyIsBest(prog, i + 1, line, lp, locs, env.(bra := env.bra[k := lp]));
    case Close(k) => cs := GreedyIsBest(prog, i + 1, line, lp, locs, env.(ket := env.ket[k := lp]));
    case Back(k) =>
      if SameText(line, env, k, lp) { cs := GreedyIsBest(prog, i + 1, line, lp + (env.ket[k] - env.bra[k]), locs,
          env); }
    case End =>
  }

  /** Best among the counts that end the repeat at e or before. */
  ghost predicate BestUpTo(prog: seq<Elem>, i: nat, line: seq<byte>, lp: nat, locs: int, env: Env, e: nat, r: Found,
                           cs: seq<nat>)
    requires ProgOk(prog) && i < |prog| && lp <= |line| && EnvShape(env)
  {
    if r == Nothing then forall c | c != [] && lp + c[0] <= e :: Walk(prog, i, line, lp, locs, env, c) == Nothing
    else
      && cs != [] && lp + cs[0] <= e && Walk(prog, i, line, lp, locs, env, cs) == r
      && forall c | c != [] && lp + c[0] <= e ::
           Walk(prog, i, line, lp, locs, env, c) != Nothing ==> c == cs || Before(c, cs)
  }

  lemma LowerCount(prog: seq<Elem>, i: nat, line: seq<byte>, lp: nat, locs: int, env: Env, e: nat, rest: seq<nat>,
                   c: seq<nat>)
    requires ProgOk(prog) && i + 1 < |prog| && lp <= e <= |line| && EnvShape(env) && prog[i].Rep?
    requires c != [] && lp + c[0] <= e && Walk(prog, i, line, lp, locs, env, c) != Nothing
    requires forall c' :: Walk(prog, i + 1, line, e, locs, env, c') != Nothing ==> c' == rest || Before(c', rest)
    ensures c == [e - lp] + rest || Before(c, [e - lp] + rest)
  {
    assert ElemOk(prog, i);
    assert c == [c[0]] + c[1..];
    if lp + c[0] == e {
      assert Walk(prog, i + 1, line, e, locs, env, c[1..]) != Nothing;
      if c[1..] != rest { BeforeCons(c[0], c[1..], rest); }
    } else {
      BeforeHead(c[0], e - lp, c[1..], rest);
    }
  }

  lemma TopCount(prog: seq<Elem>, i: nat, line: seq<byte>, lp: nat, locs: int, env: Env, e: nat, r: Found,
                 rest: seq<nat>)
    requires ProgOk(prog) && i + 1 < |prog| && lp <= e <= |line| && EnvShape(env) && prog[i].Rep? && ElemOk(prog, i)
    requires lp + prog[i].lo <= e <= lp + RunLength(prog[i].a, line, lp, prog[i].hi) && e != locs
    requires !(e < locs <= lp + RunLength(prog[i].a, line, lp, prog[i].hi) && lp + prog[i].lo <= locs)
    requires r.Found? && Best(prog, i + 1, line, e, locs, env, r, rest)
    ensures BestUpTo(prog, i, line, lp, locs, env, e, r, [e - lp] + rest)
  {
    var cs := [e - lp] + rest;
    assert cs[1..] == rest;
    forall c | c != [] && lp + c[0] <= e && Walk(prog, i, line, lp, locs, env, c) != Nothing ensures c == cs ||
        Before(c, cs) {
      LowerCount(prog, i, line, lp, locs, env, e, rest, c);
    }
  }

  lemma {:induction false} DownIsBest(prog: seq<Elem>, i: nat, line: seq<byte>, lp: nat, locs: int, env: Env, e: nat)
      returns (cs: seq<nat>)
    requires ProgOk(prog) && i < |prog| && lp <= |line| && EnvShape(env) && prog[i].Rep?
    requires ElemOk(prog, i) && lp + prog[i].lo <= e <= lp + RunLength(prog[i].a, line, lp, prog[i].hi)
    requires !(e < locs <= lp + RunLength(prog[i].a, line, lp, prog[i].hi) && lp + prog[i].lo <= locs)
    ensures BestUpTo(prog, i, line, lp, locs, env, e, Down(prog, i, line, lp + prog[i].lo, e, locs, env), cs)
    decreases |prog| - i, 0, e
  {
    var lo := prog[i].lo;
    cs := [];
    if e == locs {
      return;
    }
    var rest := GreedyIsBest(prog, i + 1, line, e, locs, env);
    var r := Greedy(prog, i + 1, line, e, locs, env);
    if r.Found? {
      cs := [e - lp] + rest;
      TopCount(prog, i, line, lp, locs, env, e, r, rest);
    } else if e > lp + lo {
      cs := DownIsBest(prog, i, line, lp, locs, env, e - 1);
    }
  }
}
