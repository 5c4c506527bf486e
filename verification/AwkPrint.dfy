/**
 Printing a tree as a pattern, and the theorem that reparse (usr/src/cmd/awk/b.c) reads the same
 tree back: postfix operators bind tighter than concatenation, concatenation tighter than |,
 and both group to the left.
 */
module AwkPrint {
  import opened AwkRegex
  import opened AwkParse
  import opened AwkEscape
  import opened AwkSyntax
  import opened AwkGrammar

  // ----- a tree in the grammar -----

  /** Some text for a class that has one. */
  ghost function Spelling(cls: Text, negated: bool): (w: Text)
    requires HasText(cls, negated)
    ensures ClassText(w, cls, negated)
  {
    var w: Text :| ClassText(w, cls, negated);
    w
  }

  /**
   The tree with the parentheses it needs: where the operand binds less tightly than its place, 0 under |,
   1 under concatenation, 2 under a postfix. ^ gets them always.
   */
  ghost function Written(t: Re, level: nat): Cst
    requires Spellable(t)
    decreases t, 1
  {
    if Loose(t) > 2 - level then Paren(Bare(t)) else Bare(t)
  }

  function Loose(t: Re): int {
    if t.Or? then 2 else if t.Cat? then 1 else 0
  }

  ghost function Bare(t: Re): Cst
    requires Spellable(t)
    decreases t, 0
  {
    match t
    case Leaf(_, s) => LeafOf(s)
    case Star(r) => Post(Written(r, 2), TStar)
    case Plus(r) => Post(Written(r, 2), TPlus)
    case Quest(r) => Post(Written(r, 2), TQuest)
    case Cat(l, r) => Seq(Written(l, 1), Written(r, 2))
    case Or(l, r) => Bar(Written(l, 0), Written(r, 1))
  }

  ghost function LeafOf(s: Sym): Cst
    requires SpellableSym(s)
  {
    match s
    case Char(c) => if c == 0 then One(TDollar) else if c == HAT then Paren(One(THat)) else One(TChar(c))
    case Dot => One(TDot)
    case Ccl(cls) => One(TCcl(Spelling(cls, false)))
    case Nccl(cls) => One(TNccl(Spelling(cls, true)))
  }

  /** It is in the grammar and stands for the tree. */
  lemma {:induction false} WrittenIs(t: Re, level: nat)
    requires Spellable(t) && level <= 2
    ensures Good(Written(t, level)) && Meaning(Written(t, level)) == t && Toks(Written(t, level))[0] != THat
    ensures (level > 0 ==> !Written(t, level).Bar?) && (level > 1 ==> !Written(t, level).Seq?)
    ensures AllOk(Toks(Written(t, level)))
    decreases t, 0
  {
    match t {
      case Leaf(_, s) => LeafIs(s);
      case Star(r) => PostIs(r, TStar);
      case Plus(r) => PostIs(r, TPlus);
      case Quest(r) => PostIs(r, TQuest);
      case Cat(l, r) =>
        WrittenIs(l, 1);
        WrittenIs(r, 2);
        SeqFirst(Written(l, 1), Written(r, 2));
      case Or(l, r) =>
        WrittenIs(l, 0);
        WrittenIs(r, 1);
        BarFirst(Written(l, 0), Written(r, 1));
    }
    if Loose(t) > 2 - level { GroupOk(Toks(Bare(t))); }
  }

  lemma {:induction false} PostIs(r: Re, op: Tok)
    requires Spellable(r) && Postfix(op)
    ensures var c := Post(Written(r, 2), op);
            && Good(c) && Meaning(c) == Apply(op, r) && Toks(c)[0] != THat && AllOk(Toks(c))
    decreases r, 1
  {
    WrittenIs(r, 2);
    OneOk(op);
    AllOkBoth(Toks(Written(r, 2)), [op]);
  }

  lemma SeqFirst(l: Cst, r: Cst)
    requires AllOk(Toks(l)) && AllOk(Toks(r))
    ensures Toks(Seq(l, r))[0] == Toks(l)[0] && AllOk(Toks(Seq(l, r)))
  {
    AllOkBoth(Toks(l), Toks(r));
  }

  lemma BarFirst(l: Cst, r: Cst)
    requires AllOk(Toks(l)) && AllOk(Toks(r))
    ensures Toks(Bar(l, r))[0] == Toks(l)[0] && AllOk(Toks(Bar(l, r)))
  {
    OneOk(TOr);
    AllOkBoth([TOr], Toks(r));
    AllOkBoth(Toks(l), [TOr] + Toks(r));
  }

  // ----- the text of the tokens -----

  /** The digits of a three-digit escape; the first two go up to 9 only when they must. */
  function Digits(c: nat): (d: Text)
    requires c <= MAXCHAR
    ensures |d| == 3 && (forall k | 0 <= k < 3 :: IsDigit(d[k]))
    ensures c == 64 * (d[0] - Byte('0')) + 8 * (d[1] - Byte('0')) + (d[2] - Byte('0'))
  {
    var hi := if c / 64 > 9 then 9 else c / 64;
    var rest := c - 64 * hi;
    var mid := if rest / 8 > 9 then 9 else rest / 8;
    [Byte('0') + hi, Byte('0') + mid, Byte('0') + (rest - 8 * mid)]
  }

  function TokText(t: Tok): Text
    requires TokOk(t)
  {
    match t
    case TEnd => []
    case TOr => [Byte('|')]
    case TStar => [Byte('*')]
    case TPlus => [Byte('+')]
    case TQuest => [Byte('?')]
    case TDot => [Byte('.')]
    case THat => [Byte('^')]
    case TDollar => [Byte('$')]
    case TOpen => [Byte('(')]
    case TClose => [Byte(')')]
    case TChar(c) =>
      if c == 0 || c >= 256 then [Byte('\\')] + Digits(c) else if Special(c) then [Byte('\\'), c] else [c]
    case TCcl(w) => [Byte('[')] + w + [Byte(']')]
    case TNccl(w) => [Byte('['), Byte('^')] + w + [Byte(']')]
  }

  /** Tokens relex can return, but the end. */
  predicate AllOk(ts: seq<Tok>) {
    forall k | 0 <= k < |ts| :: ts[k] != TEnd && TokOk(ts[k])
  }

  function TextOf(ts: seq<Tok>): Text
    requires AllOk(ts)
  {
    if ts == [] then [] else TokText(ts[0]) + TextOf(ts[1..])
  }

  lemma AllOkBoth(a: seq<Tok>, b: seq<Tok>)
    requires AllOk(a) && AllOk(b)
    ensures AllOk(a + b)
  {
  }

  lemma OneOk(t: Tok)
    requires t != TEnd && TokOk(t)
    ensures AllOk([t])
  {
  }

  lemma GroupOk(b: seq<Tok>)
    requires AllOk(b)
    ensures AllOk([TOpen] + (b + [TClose]))
  {
    OneOk(TOpen);
    OneOk(TClose);
    AllOkBoth(b, [TClose]);
    AllOkBoth([TOpen], b + [TClose]);
  }

  lemma LeafIs(s: Sym)
    requires SpellableSym(s)
    ensures var c := LeafOf(s);
            Good(c) && Tight(c) && Meaning(c) == Leaf(0, s) && Toks(c)[0] != THat && AllOk(Toks(c))
  {
    if s == Char(HAT) { GroupOk([THat]); }
  }

  /** relex reads the text of a token back. */
  lemma RelexReads(s: Text, i: nat, t: Tok)
    requires t != TEnd && TokOk(t) && i + |TokText(t)| <= |s| && s[i..i + |TokText(t)|] == TokText(t)
    ensures Relex(s, i) == Lexed(t, i + |TokText(t)|)
  {
    var w := TokText(t);
    SlicePoints(s, i, w);
    if t.TCcl? || t.TNccl? {
      BracketReads(s, i, t);
    } else if t.TChar? {
      CharReads(s, i, t.v);
    }
  }

  lemma CharReads(s: Text, i: nat, c: nat)
    requires c <= MAXCHAR && i + |TokText(TChar(c))| <= |s| && s[i..i + |TokText(TChar(c))|] == TokText(TChar(c))
    ensures Relex(s, i) == Lexed(TChar(c), i + |TokText(TChar(c))|)
  {
    var w := TokText(TChar(c));
    SlicePoints(s, i, w);
    if c == 0 || c >= 256 {
      var d := Digits(c);
      assert w[1] == d[0] && w[2] == d[1] && w[3] == d[2];
      assert s[i + 1] == d[0] && s[i + 2] == d[1] && s[i + 3] == d[2];
      assert Escape(s, i + 1) == (c, i + 4);
    } else if Special(c) {
      assert s[i + 1] == w[1] == c;
    }
  }

  lemma BracketReads(s: Text, i: nat, t: Tok)
    requires (t.TCcl? || t.TNccl?) && TokOk(t) && i + |TokText(t)| <= |s| && s[i..i + |TokText(t)|] == TokText(t)
    ensures Relex(s, i) == Lexed(t, i + |TokText(t)|)
  {
    hide Clean, IsBytes, ClassBody;
    var w, d := TokText(t), if t.TNccl? then 2 else 1;
    SlicePoints(s, i, w);
    assert s[i + d..i + d + |t.text|] == s[i..i + |w|][d..d + |t.text|] == t.text;
    assert s[i + (|w| - 1)] == w[|w| - 1];
    assert s[i + 1] == w[1];
    ClassReads(s, i + d, t.text);
  }

  lemma TextSplits(s: Text, i: nat, w: Text, rest: Text)
    requires i <= |s| && s[i..] == w + rest
    ensures i + |w| <= |s| && s[i..i + |w|] == w && s[i + |w|..] == rest
  {
    assert s[i..][..|w|] == s[i..i + |w|];
    assert s[i..][|w|..] == s[i + |w|..];
  }

  lemma AtNul(s: Text, i: nat)
    requires i == |s|
    ensures Relex(s, i) == Lexed(TEnd, i)
  {
  }

  /** relex goes over the text of tokens to its end. */
  lemma {:induction false} TextWalks(s: Text, i: nat, ts: seq<Tok>)
    requires AllOk(ts) && i <= |s| && s[i..] == TextOf(ts)
    ensures Relex(s, i).Lexed? && Walk(s, Relex(s, i).tok, Relex(s, i).at, ts) == Some((TEnd, |s|))
    decreases |ts|
  {
    hide Relex, TokText, TokOk;
    if ts == [] {
      AtNul(s, i);
    } else {
      var w := TokText(ts[0]);
      TextSplits(s, i, w, TextOf(ts[1..]));
      RelexReads(s, i, ts[0]);
      TextWalks(s, i + |w|, ts[1..]);
    }
  }

  lemma {:induction false} TextIsBytes(ts: seq<Tok>)
    requires AllOk(ts)
    ensures IsBytes(TextOf(ts))
    decreases |ts|
  {
    if ts != [] { TextIsBytes(ts[1..]); }
  }

  // ----- the round trip -----

  /** The tree as a pattern, with the parentheses and escapes it needs. */
  ghost function Print(t: Re): Text
    requires Spellable(t)
  {
    WrittenIs(t, 0);
    TextOf(Toks(Written(t, 0)))
  }

  /** Printing a tree and parsing the text gives the same tree. */
  lemma PrintParse(t: Re)
    requires Spellable(t)
    ensures IsBytes(Print(t)) && Reparse(Print(t)) == Tree(t)
  {
    var s, c := Print(t), Written(t, 0);
    WrittenIs(t, 0);
    TextIsBytes(Toks(c));
    assert s[0..] == s;
    TextWalks(s, 0, Toks(c));
    var l := Relex(s, 0);
    WalkHead(s, l.tok, l.at, Toks(c));
    RegexpReads(s, c, l.tok, l.at, TEnd, |s|);
  }

  /** The trees that can be printed are exactly those reparse returns for some pattern. */
  lemma Parseable(t: Re)
    ensures Spellable(t) <==> exists s :: IsBytes(s) && Reparse(s) == Tree(t)
  {
    if Spellable(t) { PrintParse(t); }
    if s :| IsBytes(s) && Reparse(s) == Tree(t) { ReparseTree(s); }
  }

  // ----- classes that have a text -----

  /** A class spelled with a three-digit octal escape for every character. */
  function Octal(cls: Text): Text {
    if cls == [] then [] else Octal(cls[..|cls| - 1]) + OctalByte(cls[|cls| - 1])
  }

  function OctalByte(c: nat): Text {
    [Byte('\\'), Byte('0') + c / 64 % 8, Byte('0') + c / 8 % 8, Byte('0') + c % 8]
  }

  lemma OctalByteReads(p: Text, i: nat, c: nat)
    requires c < 256 && i + 4 <= |p| && p[i..i + 4] == OctalByte(c)
    ensures p[i] == Byte('\\') && Escape(p, i + 1) == (c, i + 4)
  {
    assert p[i] == p[i..i + 4][0] && p[i + 1] == p[i..i + 4][1] && p[i + 2] == p[i..i + 4][2] &&
        p[i + 3] == p[i..i + 4][3];
    assert c == 64 * (c / 64 % 8) + 8 * (c / 8 % 8) + c % 8;
  }

  lemma {:induction false} OctalLength(cls: Text)
    ensures |Octal(cls)| == 4 * |cls|
    decreases |cls|
  {
    if cls != [] { OctalLength(cls[..|cls| - 1]); }
  }

  lemma {:induction false} OctalAt(cls: Text, k: nat)
    requires k < |cls|
    ensures |Octal(cls)| == 4 * |cls| && Octal(cls)[4 * k..4 * k + 4] == OctalByte(cls[k])
    decreases |cls|
  {
    OctalLength(cls);
    var init := cls[..|cls| - 1];
    OctalLength(init);
    if k < |init| {
      OctalAt(init, k);
      assert Octal(cls)[4 * k..4 * k + 4] == Octal(init)[4 * k..4 * k + 4];
    }
  }

  lemma ExpandStep(p: Text, i: nat, c: nat, chars: Text)
    requires c < 256 && i + 4 <= |p| && p[i..i + 4] == OctalByte(c) && |chars| < MAXLIN - 1
    ensures Expand(p, i, chars) == Expand(p, i + 4, chars + [c])
  {
    OctalByteReads(p, i, c);
  }

  lemma {:induction false} ExpandOctal(cls: Text, k: nat)
    requires k <= |cls| < MAXLIN && forall c | c in cls :: 0 < c < 256
    ensures |Octal(cls)| == 4 * |cls| && Expand(Octal(cls), 4 * k, cls[..k]) == Some(cls)
    decreases |cls| - k
  {
    OctalLength(cls);
    if k == |cls| {
      assert cls[..k] == cls;
    } else {
      OctalAt(cls, k);
      assert cls[k] in cls;
      ExpandStep(Octal(cls), 4 * k, cls[k], cls[..k]);
      ExpandOctal(cls, k + 1);
      assert cls[..k + 1] == cls[..k] + [cls[k]];
    }
  }

  lemma {:induction false} UpToNulAll(t: Text)
    requires 0 !in t
    ensures UpToNul(t) == t
  {
    if t != [] { UpToNulAll(t[1..]); }
  }

  /** cclenter decodes the spelling of a class to the class. */
  lemma CclenterOctal(cls: Text)
    requires |cls| < MAXLIN && forall c | c in cls :: 0 < c < 256
    ensures Cclenter(Octal(cls)) == Some(cls)
  {
    ExpandOctal(cls, 0);
    assert cls[..0] == [];
    UpToNulAll(cls);
  }

  lemma {:induction false} CleanOctal(cls: Text, w: Text)
    requires Clean(w)
    ensures Clean(Octal(cls) + w)
    decreases |cls|
  {
    if cls == [] {
      assert Octal(cls) + w == w;
    } else {
      var init, c := cls[..|cls| - 1], cls[|cls| - 1];
      CleanByte(c, w);
      CleanOctal(init, OctalByte(c) + w);
      assert Octal(cls) + w == Octal(init) + (OctalByte(c) + w);
    }
  }

  lemma CleanByte(c: nat, w: Text)
    requires Clean(w)
    ensures Clean(OctalByte(c) + w)
  {
    var t := OctalByte(c) + w;
    assert t[3..][1..] == w && t[2..][1..] == t[3..];
    assert Clean(t[3..]) && Clean(t[2..]);
  }

  lemma {:induction false} OctalBytes(cls: Text)
    ensures IsBytes(Octal(cls))
    decreases |cls|
  {
    if cls != [] { OctalBytes(cls[..|cls| - 1]); }
  }

  /** Any class of up to 37 members can be spelled: in octal it takes four bytes for each. */
  lemma SmallClass(cls: Text, negated: bool)
    requires 4 * |cls| < CBUF && forall c | c in cls :: 0 < c < 256
    ensures HasText(cls, negated)
  {
    var w := Octal(cls);
    CclenterOctal(cls);
    CleanOctal(cls, []);
    OctalBytes(cls);
    OctalLength(cls);
    assert w + [] == w;
    if cls != [] {
      OctalAt(cls, 0);
      assert w[0] == w[0..4][0];
    }
    assert ClassText(w, cls, negated);
  }

  /** x-y in a class stands for the characters from x to y. */
  lemma RangeMembers(x: nat, y: nat)
    requires 0 < x <= y < 256
    requires x !in [Byte('\\'), Byte('-')] && y !in [Byte('\\')]
    requires y - x < MAXLIN - 1
    ensures Cclenter([x, Byte('-'), y]).Some?
    ensures forall c :: c in Cclenter([x, Byte('-'), y]).value <==> x <= c <= y
  {
    var p := [x, Byte('-'), y];
    RangeFromIs(x, y);
    assert Peek(p, 0) == x && [] + [x] == [x];
    assert Expand(p, 0, []) == Expand(p, 1, [x]);
    assert Expand(p, 1, [x]) == Expand(p, 3, [x] + RangeFrom(x, y));
    UpToNulAll([x] + RangeFrom(x, y));
  }

  lemma {:induction false} RangeFromIs(c: nat, hi: nat)
    requires c <= hi
    ensures |RangeFrom(c, hi)| == hi - c && forall d :: d in RangeFrom(c, hi) <==> c < d <= hi
    decreases hi - c
  {
    if c < hi { RangeFromIs(c + 1, hi); }
  }

  /**
   What the text of a class denotes from i on, last being the character before: an escape means what
   EscapeAt says, of which eight bits are kept; a dash after a character, unless it comes last, and the
   character behind it stand for all that lie above the one and not above the other; anything else is
   itself. A NUL ends the class.
   */
  ghost predicate InClass(p: Text, i: nat, last: nat, d: nat)
    decreases |p| - i, 1
  {
    var c := Peek(p, i);
    i < |p| && c != 0 &&
    if c == Byte('\\') then exists n: nat, v: nat :: InEscape(p, i, n, v, d)
    else if c == Byte('-') && last != 0 && Peek(p, i + 1) != 0 then
      var hi := Peek(p, i + 1);
      last < d <= hi || InClass(p, i + 2, if last < hi then hi else last, d)
    else d == c || InClass(p, i + 1, c, d)
  }

  /** The n bytes behind the backslash at i mean v, and d is that or stands for something behind them. */
  ghost predicate InEscape(p: Text, i: nat, n: nat, v: nat, d: nat)
    requires i < |p|
    decreases |p| - i, 0
  {
    EscapeAt(p, i + 1, n, v) && v % 256 != 0 && (d == v % 256 || InClass(p, i + 1 + n, v % 256, d))
  }

  lemma InClassEscape(p: Text, i: nat, last: nat, d: nat)
    requires i < |p| && p[i] == Byte('\\')
    ensures var (v, at) := Escape(p, i + 1);
            InClass(p, i, last, d) <==> v % 256 != 0 && (d == v % 256 || InClass(p, at, v % 256, d))
  {
    var (v, at) := Escape(p, i + 1);
    if i + 1 < |p| {
      EscapeIs(p, i + 1, at - i - 1, v);
      if n: nat, u: nat :| InEscape(p, i, n, u, d) { EscapeIs(p, i + 1, n, u); }
      if v % 256 != 0 && (d == v % 256 || InClass(p, at, v % 256, d)) { assert InEscape(p, i, at - i - 1, v, d); }
    }
  }

  lemma {:induction false} UpToNulMore(chars: Text, more: Text, d: nat)
    requires 0 !in chars
    ensures d in UpToNul(chars + more) <==> d in chars || d in UpToNul(more)
    decreases |chars|
  {
    if chars == [] {
      assert chars + more == more;
    } else {
      assert (chars + more)[1..] == chars[1..] + more;
      UpToNulMore(chars[1..], more, d);
    }
  }

  /** The table of characters only grows. */
  lemma {:induction false} ExpandGrows(p: Text, i: nat, chars: Text)
    requires Expand(p, i, chars).Some?
    ensures chars <= Expand(p, i, chars).value
    decreases |p| - i
  {
    var c := Peek(p, i);
    if i < |p| && c != 0 {
      if c == Byte('\\') {
        var (v, at) := Escape(p, i + 1);
        ExpandGrows(p, at, chars + [v % 256]);
      } else if c == Byte('-') && chars != [] && chars[|chars| - 1] != 0 && Peek(p, i + 1) != 0 {
        ExpandGrows(p, i + 2, chars + RangeFrom(chars[|chars| - 1], Peek(p, i + 1)));
      } else {
        ExpandGrows(p, i + 1, chars + [c]);
      }
    }
  }

  function LastOf(chars: Text): nat {
    if chars == [] then 0 else chars[|chars| - 1]
  }

  lemma {:induction false} RangeLast(c: nat, hi: nat)
    requires c < hi
    ensures RangeFrom(c, hi) != [] && LastOf(RangeFrom(c, hi)) == hi && 0 !in RangeFrom(c, hi)
    decreases hi - c
  {
    if c + 1 < hi { RangeLast(c + 1, hi); }
  }

  lemma {:induction false} ExpandMembers(p: Text, i: nat, chars: Text, d: nat)
    requires 0 !in chars && Expand(p, i, chars).Some?
    ensures d in UpToNul(Expand(p, i, chars).value) <==> d in chars || InClass(p, i, LastOf(chars), d)
    decreases |p| - i
  {
    var c := Peek(p, i);
    if i >= |p| || c == 0 {
      UpToNulAll(chars);
    } else if c == Byte('\\') {
      InClassEscape(p, i, LastOf(chars), d);
      var (v, at) := Escape(p, i + 1);
      if v % 256 == 0 {
        CutAtNul(p, at, chars, d);
      } else {
        ExpandMembers(p, at, chars + [v % 256], d);
      }
    } else if c == Byte('-') && chars != [] && Peek(p, i + 1) != 0 {
      assert chars[|chars| - 1] in chars;
      RangeMore(p, i, chars, d);
    } else {
      ExpandMembers(p, i + 1, chars + [c], d);
    }
  }

  /** A NUL among the characters hides those behind it. */
  lemma CutAtNul(p: Text, at: nat, chars: Text, d: nat)
    requires 0 !in chars && Expand(p, at, chars + [0]).Some?
    ensures d in UpToNul(Expand(p, at, chars + [0]).value) <==> d in chars
  {
    ExpandGrows(p, at, chars + [0]);
    var all := Expand(p, at, chars + [0]).value;
    var more := all[|chars|..];
    assert all == chars + more && more[0] == 0;
    UpToNulMore(chars, more, d);
  }

  lemma {:induction false} RangeMore(p: Text, i: nat, chars: Text, d: nat)
    requires 0 !in chars && chars != [] && Expand(p, i, chars).Some?
    requires i < |p| && Peek(p, i) == Byte('-') && Peek(p, i + 1) != 0 && LastOf(chars) != 0
    ensures d in UpToNul(Expand(p, i, chars).value) <==> d in chars || InClass(p, i, LastOf(chars), d)
    decreases |p| - i, 0
  {
    var last, hi := LastOf(chars), Peek(p, i + 1);
    var more := RangeFrom(last, hi);
    if last < hi {
      RangeLast(last, hi);
      RangeFromIs(last, hi);
    } else {
      assert chars + more == chars;
    }
    ExpandMembers(p, i + 2, chars + more, d);
  }

  /** The members of a class are what its text denotes, whatever the text. */
  lemma ClassMembers(p: Text, d: nat)
    requires Cclenter(p).Some?
    ensures d in Cclenter(p).value <==> InClass(p, 0, 0, d)
  {
    ExpandMembers(p, 0, [], d);
  }
}
