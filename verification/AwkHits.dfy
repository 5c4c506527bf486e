/**
 What gsub (usr/src/cmd/awk/run.c) is to replace: the leftmost-longest matches of a text, one
 after another, and the text with all of them replaced. An empty match right after a nonempty one
 does not count.
 */
module AwkHits {
  import opened AwkRegex
  import opened AwkRun
  import opened AwkSearch
  import opened AwkDfa

  const AMP: nat := 38
  const BACKSLASH: nat := 92

  // ----- what is replaced -----

  datatype Hit = Hit(b: nat, len: nat)

  /** Where the search goes on after the hits so far. */
  function Resume(ms: seq<Hit>): nat {
    if ms == [] then 0 else var m := ms[|ms| - 1]; if m.len == 0 then m.b + 1 else m.b + m.len
  }

  /** The last hit was not empty, so an empty match at Resume does not count. */
  predicate Adjacent(ms: seq<Hit>) {
    ms != [] && ms[|ms| - 1].len > 0
  }

  /** A match of text[b..j] that may be replaced after the hits ms. */
  ghost predicate Counts(L: iset<Word>, text: seq<nat>, hats: bool, ms: seq<Hit>, b: nat, j: nat)
    requires b <= j <= |text|
  {
    MatchIn(L, text, hats, b, j) && !(j == b == Resume(ms) && Adjacent(ms))
  }

  ghost predicate NothingBetween(L: iset<Word>, text: seq<nat>, hats: bool, ms: seq<Hit>, lo: nat, hi: nat) {
    forall b, j | lo <= b < hi && b <= j <= |text| :: !Counts(L, text, hats, ms, b, j)
  }

  /** m is the first match that counts after ms, at its longest. */
  ghost predicate NextHit(L: iset<Word>, text: seq<nat>, hats: bool, ms: seq<Hit>, m: Hit) {
    && Resume(ms) <= m.b && m.b + m.len <= |text|
    && Counts(L, text, hats, ms, m.b, m.b + m.len)
    && (forall j | m.b + m.len < j <= |text| :: !MatchIn(L, text, hats, m.b, j))
    && NothingBetween(L, text, hats, ms, Resume(ms), m.b)
  }

  ghost predicate Hits(L: iset<Word>, text: seq<nat>, hats: bool, ms: seq<Hit>) {
    forall k | 0 <= k < |ms| :: NextHit(L, text, hats, ms[..k], ms[k])
  }

  /** All the matches gsub is to replace, in order. */
  ghost predicate AllHits(L: iset<Word>, text: seq<nat>, hats: bool, ms: seq<Hit>) {
    Hits(L, text, hats, ms) && NothingBetween(L, text, hats, ms, Resume(ms), |text| + 1)
  }

  lemma NextHitUnique(L: iset<Word>, text: seq<nat>, hats: bool, ms: seq<Hit>, m: Hit, m': Hit)
    requires NextHit(L, text, hats, ms, m) && NextHit(L, text, hats, ms, m')
    ensures m == m'
  {
  }

  lemma NothingLeft(L: iset<Word>, text: seq<nat>, hats: bool, ms: seq<Hit>, m: Hit)
    requires NothingBetween(L, text, hats, ms, Resume(ms), |text| + 1)
    ensures !NextHit(L, text, hats, ms, m)
  {
  }

  lemma TakeOneMore(ms: seq<Hit>, n: nat)
    requires 0 < n <= |ms|
    ensures ms[..n] == ms[..n - 1] + [ms[n - 1]]
  {
  }

  lemma SameNext(L: iset<Word>, text: seq<nat>, hats: bool, ms: seq<Hit>, ms': seq<Hit>, k: nat)
    requires Hits(L, text, hats, ms) && Hits(L, text, hats, ms') && k < |ms| && k < |ms'| && ms[..k] == ms'[..k]
    ensures ms[k] == ms'[k]
  {
    assert NextHit(L, text, hats, ms[..k], ms[k]) && NextHit(L, text, hats, ms'[..k], ms'[k]);
    NextHitUnique(L, text, hats, ms[..k], ms[k], ms'[k]);
  }

  lemma {:induction false} HitsPrefix(L: iset<Word>, text: seq<nat>, hats: bool, ms: seq<Hit>, ms': seq<Hit>, n: nat)
    requires Hits(L, text, hats, ms) && Hits(L, text, hats, ms') && n <= |ms| && n <= |ms'|
    ensures ms[..n] == ms'[..n]
  {
    if n > 0 {
      HitsPrefix(L, text, hats, ms, ms', n - 1);
      SameNext(L, text, hats, ms, ms', n - 1);
      TakeOneMore(ms, n);
      TakeOneMore(ms', n);
    }
  }

  /** There is only one such list. */
  lemma AllHitsUnique(L: iset<Word>, text: seq<nat>, hats: bool, ms: seq<Hit>, ms': seq<Hit>)
    requires AllHits(L, text, hats, ms) && AllHits(L, text, hats, ms')
    ensures ms == ms'
  {
    NotLonger(L, text, hats, ms, ms');
    NotLonger(L, text, hats, ms', ms);
    HitsPrefix(L, text, hats, ms, ms', |ms|);
    assert ms[..|ms|] == ms && ms'[..|ms'|] == ms';
  }

  lemma NotLonger(L: iset<Word>, text: seq<nat>, hats: bool, ms: seq<Hit>, ms': seq<Hit>)
    requires AllHits(L, text, hats, ms) && Hits(L, text, hats, ms')
    ensures |ms'| <= |ms|
  {
    if |ms'| > |ms| {
      HitsPrefix(L, text, hats, ms, ms', |ms|);
      assert ms[..|ms|] == ms;
      NothingLeft(L, text, hats, ms, ms'[|ms|]);
    }
  }

  // ----- what it is replaced with -----

  /** The replacement text for a matched string: & stands for it, \& for an ampersand. */
  function Replacement(repl: seq<nat>, matched: seq<nat>): seq<nat> {
    if repl == [] then []
    else if repl[0] == BACKSLASH && |repl| > 1 && repl[1] == AMP then [AMP] + Replacement(repl[2..], matched)
    else if repl[0] == AMP then matched + Replacement(repl[1..], matched)
    else [repl[0]] + Replacement(repl[1..], matched)
  }

  /** A replacement text is made of parts: the matched string, an ampersand with a backslash, other characters. */
  datatype Part = TheMatch | Ampersand | Other(c: nat)

  /** A character is no ampersand, and a backslash before the matched string would take it away. */
  predicate PartsOk(ps: seq<Part>) {
    forall k | 0 <= k < |ps| && ps[k].Other? ::
      ps[k].c != AMP && (ps[k].c == BACKSLASH && k + 1 < |ps| ==> ps[k + 1] != TheMatch)
  }

  function PartText(p: Part): seq<nat> {
    match p case TheMatch => [AMP] case Ampersand => [BACKSLASH, AMP] case Other(c) => [c]
  }

  function PartsText(ps: seq<Part>): seq<nat> {
    if ps == [] then [] else PartText(ps[0]) + PartsText(ps[1..])
  }

  function PartMeant(p: Part, matched: seq<nat>): seq<nat> {
    match p case TheMatch => matched case Ampersand => [AMP] case Other(c) => [c]
  }

  function Meant(ps: seq<Part>, matched: seq<nat>): seq<nat> {
    if ps == [] then [] else PartMeant(ps[0], matched) + Meant(ps[1..], matched)
  }

  lemma PartsOkTail(ps: seq<Part>)
    requires PartsOk(ps) && ps != []
    ensures PartsOk(ps[1..])
  {
    forall k | 0 <= k < |ps[1..]| && ps[1..][k].Other?
      ensures ps[1..][k].c != AMP && (ps[1..][k].c == BACKSLASH && k + 1 < |ps[1..]| ==> ps[1..][k + 1] != TheMatch)
    {
      assert ps[1..][k] == ps[k + 1] && (k + 1 < |ps[1..]| ==> ps[1..][k + 1] == ps[k + 2]);
    }
  }

  lemma PartsHead(ps: seq<Part>)
    requires PartsOk(ps)
    ensures PartsText(ps) != [] && PartsText(ps)[0] == AMP <==> ps != [] && ps[0] == TheMatch
  {
  }

  /** Each part of the replacement text gives what it stands for. */
  lemma {:induction false} ReplacementIs(ps: seq<Part>, matched: seq<nat>)
    requires PartsOk(ps)
    ensures Replacement(PartsText(ps), matched) == Meant(ps, matched)
    decreases |ps|
  {
    if ps != [] {
      PartsOkTail(ps);
      PartsHead(ps[1..]);
      var text, rest := PartsText(ps), PartsText(ps[1..]);
      assert text[if ps[0] == Ampersand then 2 else 1..] == rest;
      if rest != [] && !ps[0].Ampersand? { assert text[1] == rest[0]; }
      ReplacementIs(ps[1..], matched);
    }
  }

  /** Every text is made of such parts. */
  lemma {:induction false} PartsExist(repl: seq<nat>) returns (ps: seq<Part>)
    ensures PartsOk(ps) && PartsText(ps) == repl
    decreases |repl|
  {
    ps := [];
    if repl != [] {
      var escaped := repl[0] == BACKSLASH && |repl| > 1 && repl[1] == AMP;
      var p := if escaped then Ampersand else if repl[0] == AMP then TheMatch else Other(repl[0]);
      var rest := PartsExist(repl[if escaped then 2 else 1..]);
      PartsHead(rest);
      ps := [p] + rest;
      assert ps[1..] == rest;
      forall k | 0 < k < |ps| ensures ps[k] == rest[k - 1] {}
      assert PartsOk(ps) by {
        forall k | 0 <= k < |ps| && ps[k].Other?
          ensures ps[k].c != AMP && (ps[k].c == BACKSLASH && k + 1 < |ps| ==> ps[k + 1] != TheMatch)
        {
          if k > 0 { assert ps[k] == rest[k - 1]; }
        }
      }
    }
  }

  function PastHits(ms: seq<Hit>): nat {
    if ms == [] then 0 else ms[|ms| - 1].b + ms[|ms| - 1].len
  }

  predicate InOrder(text: seq<nat>, ms: seq<Hit>) {
    forall k | 0 <= k < |ms| :: PastHits(ms[..k]) <= ms[k].b && ms[k].b + ms[k].len <= |text|
  }

  /** The output up to the end of the last hit: text between hits kept, hits (in order) replaced. */
  function Built(text: seq<nat>, repl: seq<nat>, ms: seq<Hit>): seq<nat>
    decreases |ms|
  {
    if ms == [] then [] else
    var init, m := ms[..|ms| - 1], ms[|ms| - 1];
    if PastHits(init) <= m.b && m.b + m.len <= |text|
    then Built(text, repl, init) + text[PastHits(init)..m.b] + Replacement(repl, text[m.b..m.b + m.len])
    else []
  }

  function Replaced(text: seq<nat>, repl: seq<nat>, ms: seq<Hit>): seq<nat>
    requires InOrder(text, ms)
  {
    assert PastHits(ms) <= |text| by { if ms != [] { assert ms[|ms| - 1].b + ms[|ms| - 1].len <= |text|; } }
    Built(text, repl, ms) + text[PastHits(ms)..]
  }

  lemma HitsInOrder(L: iset<Word>, text: seq<nat>, hats: bool, ms: seq<Hit>)
    requires Hits(L, text, hats, ms)
    ensures InOrder(text, ms)
  {
    forall k | 0 <= k < |ms| ensures PastHits(ms[..k]) <= ms[k].b && ms[k].b + ms[k].len <= |text| {
      assert NextHit(L, text, hats, ms[..k], ms[k]);
    }
  }

  lemma HitsSnoc(L: iset<Word>, text: seq<nat>, hats: bool, ms: seq<Hit>, m: Hit)
    requires Hits(L, text, hats, ms) && NextHit(L, text, hats, ms, m)
    ensures Hits(L, text, hats, ms + [m])
  {
    forall k | 0 <= k < |ms + [m]| ensures NextHit(L, text, hats, (ms + [m])[..k], (ms + [m])[k]) {
      assert (ms + [m])[..k] == if k < |ms| then ms[..k] else ms;
    }
  }

  lemma BuiltSnoc(text: seq<nat>, repl: seq<nat>, ms: seq<Hit>, m: Hit)
    requires PastHits(ms) <= m.b && m.b + m.len <= |text|
    ensures Built(text, repl, ms + [m]) == Built(text, repl, ms) + text[PastHits(ms)..m.b] +
            Replacement(repl, text[m.b..m.b + m.len])
  {
    var all := ms + [m];
    assert all[..|ms|] == ms && all[|ms|] == m;
  }

  // ----- matches of a suffix -----

  /** A word with a HAT in front is only in L if the word is. */
  ghost predicate HatFree(L: iset<Word>) {
    forall w | [HAT] + w in L :: w in L
  }

  lemma NoHatLanguage(p: Re)
    requires Proper(p) && EntryState(p) == 2
    ensures HatFree(Language(p))
  {
    forall w: Word | [HAT] + w in Language(p) ensures w in Language(p) {
      StartSets(p);
      BareAccepts(p, w);
      BareHatAccepts(p, w);
    }
  }

  lemma WithHat(text: seq<nat>, i: nat, j: nat, nul: bool)
    requires i <= j <= |text|
    ensures WordOf(text, true, i, j, nul) == [HAT] + WordOf(text, false, i, j, nul)
  {
  }

  /** Where nothing reads ^, allowing it changes nothing. */
  lemma NoHatNeeded(L: iset<Word>, text: seq<nat>, i: nat, j: nat)
    requires i <= j <= |text| && HatFree(L)
    ensures MatchIn(L, text, true, i, j) <==> MatchIn(L, text, false, i, j)
  {
    WithHat(text, i, j, false);
    WithHat(text, i, j, true);
  }

  /** A match in the rest of the text is a match of the text. */
  lemma SuffixMatch(L: iset<Word>, text: seq<nat>, hats: bool, t: nat, i: nat, j: nat)
    requires t <= |text| && i <= j <= |text| - t && (t == 0 || !hats)
    ensures MatchIn(L, text[t..], hats, i, j) <==> MatchIn(L, text, hats, t + i, t + j)
  {
    assert text[t..][i..j] == text[t + i..t + j];
    assert WordOf(text[t..], false, i, j, false) == WordOf(text, false, t + i, t + j, false);
    assert WordOf(text[t..], false, i, j, true) == WordOf(text, false, t + i, t + j, true);
    assert WordOf(text[t..], true, i, j, false) == WordOf(text, true, t + i, t + j, false);
    assert WordOf(text[t..], true, i, j, true) == WordOf(text, true, t + i, t + j, true);
  }

  /** Past the start of the text ^ does not match, so it does not matter whether it may. */
  lemma HatsOnlyAtStart(L: iset<Word>, text: seq<nat>, i: nat, j: nat)
    requires 0 < i <= j <= |text|
    ensures MatchIn(L, text, true, i, j) <==> MatchIn(L, text, false, i, j)
  {
  }

  /** An empty match away from both ends can be had anywhere. */
  lemma EmptyEverywhere(L: iset<Word>, text: seq<nat>, hats: bool, i: nat, k: nat)
    requires 0 < i < |text| && k <= |text| && MatchIn(L, text, hats, i, i)
    ensures MatchIn(L, text, hats, k, k)
  {
    assert WordOf(text, false, i, i, false) == [] && WordOf(text, false, k, k, false) == [];
  }

  // ----- one match after another -----

  /** The first match of the text from t on, at its longest, whether or not it counts. */
  ghost predicate FirstMatchFrom(L: iset<Word>, text: seq<nat>, hats: bool, t: nat, b: nat, len: nat) {
    && t <= b && b + len <= |text| && MatchIn(L, text, hats, b, b + len)
    && (forall j | b + len < j <= |text| :: !MatchIn(L, text, hats, b, j))
    && (forall i, j | t <= i < b && i <= j <= |text| :: !MatchIn(L, text, hats, i, j))
  }

  ghost predicate NoneFrom(L: iset<Word>, text: seq<nat>, hats: bool, t: nat) {
    forall i, j | t <= i <= j <= |text| :: !MatchIn(L, text, hats, i, j)
  }

  /** pmatch on the rest of the text, in a state that has not read ^ unless this is the start. */
  lemma SearchedFrom(p: Re, text: seq<nat>, hats: bool, t: nat, here: bool, found: bool, b: nat, len: int)
    requires Proper(p) && t <= |text| && (if t == 0 then here == hats else (here ==> EntryState(p) == 2))
    requires if found then 0 <= len && LeftmostLongest(p, text[t..], here, 0, b, len)
             else NoMatch(p, text[t..], here, 0)
    ensures if found then 0 <= len && FirstMatchFrom(Language(p), text, hats, t, t + b, len)
            else NoneFrom(Language(p), text, hats, t)
  {
    if t > 0 && here { NoHatLanguage(p); }
    if found {
      FoundFrom(p, text, hats, t, here, b, len);
    } else {
      forall i, j | t <= i <= j <= |text| ensures !MatchIn(Language(p), text, hats, i, j) {
        SearchedAt(Language(p), text, hats, t, here, i, j);
        assert !MatchAt(p, text[t..], here, i - t, j - t);
      }
    }
  }

  lemma FoundFrom(p: Re, text: seq<nat>, hats: bool, t: nat, here: bool, b: nat, len: nat)
    requires t <= |text| && (if t == 0 then here == hats else (here ==> HatFree(Language(p))))
    requires LeftmostLongest(p, text[t..], here, 0, b, len)
    ensures FirstMatchFrom(Language(p), text, hats, t, t + b, len)
  {
    SearchedAt(Language(p), text, hats, t, here, t + b, t + b + len);
    var B := t + b;
    forall j | B + len < j <= |text| ensures !MatchIn(Language(p), text, hats, B, j) {
      SearchedAt(Language(p), text, hats, t, here, B, j);
      assert !MatchAt(p, text[t..], here, b, j - t);
    }
    forall i, j | t <= i < B && i <= j <= |text| ensures !MatchIn(Language(p), text, hats, i, j) {
      SearchedAt(Language(p), text, hats, t, here, i, j);
      assert !MatchAt(p, text[t..], here, i - t, j - t);
    }
  }

  lemma SearchedAt(L: iset<Word>, text: seq<nat>, hats: bool, t: nat, here: bool, i: nat, j: nat)
    requires t <= i <= j <= |text| && (if t == 0 then here == hats else (here ==> HatFree(L)))
    ensures MatchIn(L, text, hats, i, j) <==> MatchIn(L, text[t..], here, i - t, j - t)
  {
    if t == 0 {
      assert text[0..] == text;
    } else {
      HatsOnlyAtStart(L, text, i, j);
      SuffixMatch(L, text, false, t, i - t, j - t);
      if here { NoHatNeeded(L, text[t..], i - t, j - t); }
    }
  }

  /** The hits ms are the first ones, and none that counts starts between them and t. */
  ghost predicate Progress(L: iset<Word>, text: seq<nat>, hats: bool, ms: seq<Hit>, t: nat, mflag: bool) {
    && Hits(L, text, hats, ms) && Resume(ms) <= t <= |text|
    && NothingBetween(L, text, hats, ms, Resume(ms), t)
    && (mflag <==> Adjacent(ms) && t == Resume(ms))
    && (Adjacent(ms) ==> Resume(ms) < |text|)
  }

  lemma EmptyIsHere(L: iset<Word>, text: seq<nat>, hats: bool, t: nat, b: nat)
    requires FirstMatchFrom(L, text, hats, t, b, 0) && b < |text|
    ensures b == t
  {
    if t < b {
      EmptyEverywhere(L, text, hats, b, t);
    }
  }

  lemma EmptyCounted(L: iset<Word>, text: seq<nat>, hats: bool, ms: seq<Hit>, t: nat)
    requires Progress(L, text, hats, ms, t, false) && FirstMatchFrom(L, text, hats, t, t, 0) && t < |text|
    ensures Progress(L, text, hats, ms + [Hit(t, 0)], t + 1, false)
  {
    HitsSnoc(L, text, hats, ms, Hit(t, 0));
  }

  lemma EmptySkipped(L: iset<Word>, text: seq<nat>, hats: bool, ms: seq<Hit>, t: nat)
    requires Progress(L, text, hats, ms, t, true) && FirstMatchFrom(L, text, hats, t, t, 0) && t < |text|
    ensures Progress(L, text, hats, ms, t + 1, false)
  {
  }

  lemma Taken(L: iset<Word>, text: seq<nat>, hats: bool, ms: seq<Hit>, t: nat, mflag: bool, b: nat, len: nat)
    requires Progress(L, text, hats, ms, t, mflag) && FirstMatchFrom(L, text, hats, t, b, len) &&
             (len > 0 || b == |text|)
    ensures Hits(L, text, hats, ms + [Hit(b, len)])
    ensures b + len < |text| ==> Progress(L, text, hats, ms + [Hit(b, len)], b + len, true)
    ensures b + len == |text| ==> AllHits(L, text, hats, ms + [Hit(b, len)])
  {
    HitsSnoc(L, text, hats, ms, Hit(b, len));
  }

  lemma Exhausted(L: iset<Word>, text: seq<nat>, hats: bool, ms: seq<Hit>, t: nat, mflag: bool)
    requires Progress(L, text, hats, ms, t, mflag) && NoneFrom(L, text, hats, t)
    ensures AllHits(L, text, hats, ms)
  {
  }

  // ----- the output along the way -----

  /** The output once the text up to t has been dealt with. */
  function Sofar(text: seq<nat>, repl: seq<nat>, ms: seq<Hit>, t: nat): seq<nat>
    requires PastHits(ms) <= t <= |text|
  {
    Built(text, repl, ms) + text[PastHits(ms)..t]
  }

  lemma InOrderSnoc(text: seq<nat>, ms: seq<Hit>, m: Hit)
    requires InOrder(text, ms) && PastHits(ms) <= m.b && m.b + m.len <= |text|
    ensures InOrder(text, ms + [m]) && PastHits(ms + [m]) == m.b + m.len
  {
    var all := ms + [m];
    forall k | 0 <= k < |all| ensures PastHits(all[..k]) <= all[k].b && all[k].b + all[k].len <= |text| {
      assert all[..k] == if k < |ms| then ms[..k] else ms;
    }
  }

  lemma SofarHit(text: seq<nat>, repl: seq<nat>, ms: seq<Hit>, t: nat, m: Hit)
    requires InOrder(text, ms) && PastHits(ms) <= t <= m.b && m.b + m.len <= |text|
    ensures InOrder(text, ms + [m]) && PastHits(ms + [m]) == m.b + m.len
    ensures Sofar(text, repl, ms + [m], m.b + m.len) ==
            Sofar(text, repl, ms, t) + text[t..m.b] + Replacement(repl, text[m.b..m.b + m.len])
  {
    InOrderSnoc(text, ms, m);
    BuiltSnoc(text, repl, ms, m);
    var e, B, x := m.b + m.len, Built(text, repl, ms), Replacement(repl, text[m.b..m.b + m.len]);
    hide Built, Replacement, InOrder;
    assert text[e..e] == [];
    assert text[PastHits(ms)..m.b] == text[PastHits(ms)..t] + text[t..m.b];
    Assoc4(B, text[PastHits(ms)..t], text[t..m.b], x);
    assert Built(text, repl, ms + [m]) + [] == Built(text, repl, ms + [m]);
  }

  lemma Assoc4(a: seq<nat>, b: seq<nat>, c: seq<nat>, d: seq<nat>)
    ensures a + (b + c) + d == a + b + c + d
  {
  }

  lemma SofarOn(text: seq<nat>, repl: seq<nat>, ms: seq<Hit>, t: nat, t': nat)
    requires InOrder(text, ms) && PastHits(ms) <= t <= t' <= |text|
    ensures Sofar(text, repl, ms, t') == Sofar(text, repl, ms, t) + text[t..t']
  {
    assert text[PastHits(ms)..t'] == text[PastHits(ms)..t] + text[t..t'];
  }

  lemma ReplacedIsSofar(text: seq<nat>, repl: seq<nat>, ms: seq<Hit>)
    requires InOrder(text, ms) && PastHits(ms) <= |text|
    ensures Replaced(text, repl, ms) == Sofar(text, repl, ms, |text|)
  {
    assert text[PastHits(ms)..|text|] == text[PastHits(ms)..];
  }

  // ----- there is such a list -----

  lemma {:induction false} LongestMatch(L: iset<Word>, text: seq<nat>, hats: bool, b: nat, j: nat) returns (k: nat)
    requires b <= j <= |text| && MatchIn(L, text, hats, b, j)
    ensures b <= k <= |text| && MatchIn(L, text, hats, b, k)
    ensures forall j' | k < j' <= |text| :: !MatchIn(L, text, hats, b, j')
    decreases |text| - j
  {
    if j': nat :| j < j' <= |text| && MatchIn(L, text, hats, b, j') {
      k := LongestMatch(L, text, hats, b, j');
    } else {
      k := j;
    }
  }

  lemma {:induction false} FirstMatch(L: iset<Word>, text: seq<nat>, hats: bool, t: nat) returns (b: nat, len: nat)
    requires t <= |text| && !NoneFrom(L, text, hats, t)
    ensures FirstMatchFrom(L, text, hats, t, b, len)
    decreases |text| - t
  {
    if j: nat :| t <= j <= |text| && MatchIn(L, text, hats, t, j) {
      var k := LongestMatch(L, text, hats, t, j);
      b, len := t, k - t;
    } else {
      b, len := FirstMatch(L, text, hats, t + 1);
    }
  }

  lemma {:induction false} HitsFrom(L: iset<Word>, text: seq<nat>, hats: bool, done: seq<Hit>, t: nat, mflag: bool)
      returns (ms: seq<Hit>)
    requires Progress(L, text, hats, done, t, mflag)
    ensures AllHits(L, text, hats, ms)
    decreases |text| - t
  {
    if NoneFrom(L, text, hats, t) {
      Exhausted(L, text, hats, done, t, mflag);
      return done;
    }
    var b, len := FirstMatch(L, text, hats, t);
    if len == 0 && b < |text| {
      EmptyIsHere(L, text, hats, t, b);
      if mflag {
        EmptySkipped(L, text, hats, done, t);
        ms := HitsFrom(L, text, hats, done, t + 1, false);
      } else {
        EmptyCounted(L, text, hats, done, t);
        ms := HitsFrom(L, text, hats, done + [Hit(t, 0)], t + 1, false);
      }
    } else {
      Taken(L, text, hats, done, t, mflag, b, len);
      if b + len == |text| {
        ms := done + [Hit(b, len)];
      } else {
        ms := HitsFrom(L, text, hats, done + [Hit(b, len)], b + len, true);
      }
    }
  }

  /** Every text has exactly one list of hits. */
  lemma AllHitsExist(L: iset<Word>, text: seq<nat>, hats: bool) returns (ms: seq<Hit>)
    ensures AllHits(L, text, hats, ms) && forall ms' | AllHits(L, text, hats, ms') :: ms' == ms
  {
    ms := HitsFrom(L, text, hats, [], 0, false);
    forall ms' | AllHits(L, text, hats, ms') ensures ms' == ms {
      AllHitsUnique(L, text, hats, ms, ms');
    }
  }
}
