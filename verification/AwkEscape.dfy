/**
 What the tokens of a pattern are, and what a backslash makes of the bytes behind it, said without
 the scanner of usr/src/cmd/awk/b.c: relex reads exactly these tokens.
 */
module AwkEscape {
  import opened AwkParse
  import opened AwkGrammar

  // ----- escapes -----

  /** The letters that stand for a control character behind a backslash. */
  predicate Control(c: nat, v: nat) {
    || (c == Byte('b') && v == 8)
    || (c == Byte('t') && v == 9)
    || (c == Byte('n') && v == 10)
    || (c == Byte('f') && v == 12)
    || (c == Byte('r') && v == 13)
  }

  /** The number that n digits from i on are in octal; 8 and 9 count as digits. */
  function Octal3(s: Text, i: nat, n: nat): int
    requires 0 < n <= 3 && i + n <= |s|
  {
    var d := seq(n, k requires 0 <= k < n => s[i + k] - Byte('0'));
    if n == 1 then d[0] else if n == 2 then 8 * d[0] + d[1] else 64 * d[0] + 8 * d[1] + d[2]
  }

  /**
   The n bytes from i on mean v behind a backslash: one to three digits, as many as there are; one of
   the five letters; or any other byte, which means itself.
   */
  predicate EscapeAt(s: Text, i: nat, n: nat, v: nat) {
    && 0 < n <= 3 && i + n <= |s|
    && if IsDigit(s[i]) then
         && (forall k | i <= k < i + n :: IsDigit(s[k])) && (n == 3 || !IsDigit(Peek(s, i + n)))
         && v == Octal3(s, i, n)
       else
         n == 1 && if s[i] in [Byte('b'), Byte('t'), Byte('n'), Byte('f'), Byte('r')] then Control(s[i], v)
             else v == s[i]
  }

  /** The scanner reads an escape as what it means. */
  lemma EscapeIs(s: Text, i: nat, n: nat, v: nat)
    requires i < |s|
    ensures EscapeAt(s, i, n, v) <==> Escape(s, i) == (v, i + n)
  {
    var two := IsDigit(s[i]) && IsDigit(Peek(s, i + 1));
    if 0 < n <= 3 && i + n <= |s| {
      assert IsDigit(s[i]) ==> (EscapeAt(s, i, n, v) ==> (forall k | i <= k < i + n :: IsDigit(s[k])));
    }
  }

  // ----- tokens -----

  predicate Special(c: nat) {
    c in [Byte('|'), Byte('*'), Byte('+'), Byte('?'), Byte('.'), Byte('^'), Byte('$'), Byte('('), Byte(')'),
          Byte('\\'), Byte('[')]
  }

  /** The sign of a token that is one. */
  function Sign(tok: Tok): Option<nat> {
    match tok
    case TOr => Some(Byte('|'))
    case TStar => Some(Byte('*'))
    case TPlus => Some(Byte('+'))
    case TQuest => Some(Byte('?'))
    case TDot => Some(Byte('.'))
    case THat => Some(Byte('^'))
    case TDollar => Some(Byte('$'))
    case TOpen => Some(Byte('('))
    case TClose => Some(Byte(')'))
    case _ => None
  }

  /** A class in brackets from i to j, its text beginning at k. */
  predicate ClassAt(s: Text, k: nat, w: Text, j: nat) {
    k + |w| + 1 == j <= |s| && s[k..j - 1] == w && s[j - 1] == Byte(']') && Clean(w) && |w| < CBUF
  }

  /** The token tok stands from i to j. A backslash that is last takes the NUL for its character. */
  ghost predicate TokAt(s: Text, i: nat, tok: Tok, j: nat) {
    match tok
    case TEnd => i == j == |s|
    case TChar(v) =>
      && i < |s|
      && if s[i] != Byte('\\') then !Special(s[i]) && v == s[i] && j == i + 1
         else if i + 1 == |s| then v == 0 && j == i + 2
         else i + 1 < j && EscapeAt(s, i + 1, j - i - 1, v)
    case TCcl(w) => i < |s| && s[i] == Byte('[') && Peek(s, i + 1) != Byte('^') && ClassAt(s, i + 1, w, j)
    case TNccl(w) => i < |s| && s[i] == Byte('[') && Peek(s, i + 1) == Byte('^') && ClassAt(s, i + 2, w, j)
    case _ => i < |s| && Some(s[i]) == Sign(tok) && j == i + 1
  }

  /** The scan of a clean text, in brackets, stops at the bracket behind it. */
  lemma {:induction false} CleanEnd(s: Text, i: nat, w: Text)
    requires Clean(w) && i + |w| < |s| && s[i..i + |w|] == w && s[i + |w|] == Byte(']')
    ensures ClassEnd(s, i) == i + |w|
    decreases |w|
  {
    if w != [] {
      assert s[i] == s[i..i + |w|][0];
      if w[0] == Byte('\\') {
        assert s[i + 1] == s[i..i + |w|][1];
        assert s[i + 2..i + |w|] == s[i..i + |w|][2..];
        CleanEnd(s, i + 2, w[2..]);
      } else {
        assert s[i + 1..i + |w|] == s[i..i + |w|][1..];
        CleanEnd(s, i + 1, w[1..]);
      }
    }
  }

  lemma ClassReads(s: Text, i: nat, w: Text)
    requires Clean(w) && |w| < CBUF && i + |w| < |s| && s[i..i + |w|] == w && s[i + |w|] == Byte(']')
    ensures ClassBody(s, i, []) == Lexed(TCcl(w), i + |w| + 1)
  {
    CleanEnd(s, i, w);
    ClassBodyIs(s, i);
  }

  lemma SlicePoints(s: Text, i: nat, w: Text)
    requires i + |w| <= |s| && s[i..i + |w|] == w
    ensures forall j | 0 <= j < |w| :: s[i + j] == w[j]
    ensures w != [] ==> s[i] == w[0]
  {
    forall j | 0 <= j < |w| ensures s[i + j] == w[j] { assert s[i..i + |w|][j] == w[j]; }
    assert w != [] ==> s[i + 0] == w[0];
  }

  lemma ClassReadsIff(s: Text, k: nat, w: Text, j: nat)
    requires k <= |s|
    ensures ClassBody(s, k, []) == Lexed(TCcl(w), j) <==> ClassAt(s, k, w, j)
  {
    if ClassAt(s, k, w, j) {
      ClassReads(s, k, w);
    }
    if ClassBody(s, k, []) == Lexed(TCcl(w), j) {
      ClassBodyIs(s, k);
      EndIsClean(s, k);
    }
  }

  /** relex reads a token exactly where it stands. */
  lemma RelexIs(s: Text, i: nat, tok: Tok, j: nat)
    requires 0 !in s && i <= |s|
    ensures Relex(s, i) == Lexed(tok, j) <==> TokAt(s, i, tok, j)
  {
    hide ClassAt, Escape, EscapeAt, ClassBody;
    if i < |s| {
      assert s[i] in s;
      if s[i] == Byte('\\') {
        BackslashIs(s, i, tok, j);
      } else if s[i] == Byte('[') {
        BracketIs(s, i, tok, j);
      }
    }
  }

  lemma BackslashIs(s: Text, i: nat, tok: Tok, j: nat)
    requires i < |s| && s[i] == Byte('\\')
    ensures Relex(s, i) == Lexed(tok, j) <==> TokAt(s, i, tok, j)
  {
    if i + 1 < |s| && tok.TChar? && j > i + 1 { EscapeIs(s, i + 1, j - i - 1, tok.v); }
  }

  lemma BracketIs(s: Text, i: nat, tok: Tok, j: nat)
    requires 0 !in s && i < |s| && s[i] == Byte('[')
    ensures Relex(s, i) == Lexed(tok, j) <==> TokAt(s, i, tok, j)
  {
    hide ClassAt;
    if tok.TCcl? { ClassReadsIff(s, i + 1, tok.text, j); }
    if tok.TNccl? && i + 2 <= |s| { ClassReadsIff(s, i + 2, tok.text, j); }
  }

  /** An escape by itself, as a pattern and as the text of a class; a class keeps eight bits of it. */
  lemma EscapeRead(p: Text, n: nat, v: nat)
    requires |p| == n + 1 && p[0] == Byte('\\') && EscapeAt(p, 1, n, v)
    ensures Relex(p, 0) == Lexed(TChar(v), n + 1)
    ensures Cclenter(p) == Some(if v % 256 == 0 then [] else [v % 256])
  {
    EscapeIs(p, 1, n, v);
    hide Escape, EscapeAt;
    assert [] + [v % 256] == [v % 256];
    assert Expand(p, n + 1, [v % 256]) == Some([v % 256]);
    assert Expand(p, 0, []) == Some([v % 256]);
    CutOne(v % 256);
  }

  lemma CutOne(v: nat)
    ensures UpToNul([v]) == if v == 0 then [] else [v]
  {
    assert [v][1..] == [] && UpToNul([]) == [];
  }
}
