/**
 The output buffer of gsub (usr/src/cmd/awk/run.c): 3072 characters, of which some steps look at the
 room that is left and some do not. What a list of such steps leaves in it, in closed form.
 */
module AwkBuffer {
  import opened AwkHits

  const RECSIZE: nat := 3 * 1024

  /**
   A step of the output. A plain character is stored while there is room for a NUL behind it, and
   dropped otherwise. A character after an empty match is stored at once, and then a full buffer is
   an error. The match that & stands for is stored whole if there is room for one character and a NUL.
   */
  datatype Unit = Plain(c: nat) | Checked(c: nat) | Whole(m: seq<nat>)

  /** What is in the buffer; or it is full, or it has been written past its end. */
  datatype Buf = Has(s: seq<nat>) | Full | Past

  function Piece(u: Unit): seq<nat> {
    match u
    case Plain(c) => [c]
    case Checked(c) => [c]
    case Whole(m) => m
  }

  /** The output the steps are for. */
  function Flat(us: seq<Unit>): seq<nat> {
    if us == [] then [] else Flat(us[..|us| - 1]) + Piece(us[|us| - 1])
  }

  function Put(buf: Buf, u: Unit): Buf {
    if !buf.Has? then buf else
    var s := buf.s;
    match u
    case Plain(c) => if |s| < RECSIZE - 1 then Has(s + [c]) else buf
    case Checked(c) => if |s| < RECSIZE - 1 then Has(s + [c]) else Full
    case Whole(m) =>
      if |s| >= RECSIZE - 1 then buf
      else if |s| + |m| > RECSIZE then Past
      else if |s| + |m| == RECSIZE then Full
      else Has(s + m)
  }

  function Fold(buf: Buf, us: seq<Unit>): Buf {
    if us == [] then buf else Put(Fold(buf, us[..|us| - 1]), us[|us| - 1])
  }

  lemma FoldSnoc(buf: Buf, us: seq<Unit>, u: Unit)
    ensures Fold(buf, us + [u]) == Put(Fold(buf, us), u)
    ensures Flat(us + [u]) == Flat(us) + Piece(u)
  {
    assert (us + [u])[..|us|] == us;
  }

  lemma {:induction false} FoldOn(buf: Buf, us: seq<Unit>, vs: seq<Unit>)
    ensures Fold(buf, us + vs) == Fold(Fold(buf, us), vs)
    ensures Flat(us + vs) == Flat(us) + Flat(vs)
    decreases |vs|
  {
    hide Put, Piece;
    if vs == [] {
      assert us + vs == us;
      assert Flat(us) + [] == Flat(us);
    } else {
      var vs', v := vs[..|vs| - 1], vs[|vs| - 1];
      FoldOn(buf, us, vs');
      assert us + vs == us + vs' + [v];
      FoldSnoc(buf, us + vs', v);
      assert Flat(us) + (Flat(vs') + Piece(v)) == Flat(us) + Flat(vs') + Piece(v);
    }
  }

  lemma FlatCons(u: Unit, us: seq<Unit>)
    ensures Flat([u] + us) == Piece(u) + Flat(us)
  {
    FoldOn(Full, [u], us);
    FoldSnoc(Full, [], u);
    assert [] + [u] == [u];
  }

  // ----- where the steps leave the buffer -----

  /** Where step k begins in the output. */
  function Begin(us: seq<Unit>, k: nat): nat
    requires k <= |us|
  {
    |Flat(us[..k])|
  }

  /** A match for & that begins where it may, and fills the buffer or goes past its end. */
  predicate Straddles(us: seq<Unit>, k: nat)
    requires k < |us|
  {
    us[k].Whole? && Begin(us, k) < RECSIZE - 1 && Begin(us, k) + |us[k].m| >= RECSIZE
  }

  /** A character after an empty match that takes the last place of the buffer, or finds it taken. */
  predicate Late(us: seq<Unit>, k: nat)
    requires k < |us|
  {
    us[k].Checked? && Begin(us, k) >= RECSIZE - 1
  }

  predicate SomeStraddles(us: seq<Unit>) {
    exists k | 0 <= k < |us| :: Straddles(us, k)
  }

  predicate SomeLate(us: seq<Unit>) {
    exists k | 0 <= k < |us| :: Late(us, k)
  }

  /** A match for & goes past the end of the buffer. */
  predicate Bursts(us: seq<Unit>) {
    exists k | 0 <= k < |us| :: Straddles(us, k) && Begin(us, k) + |us[k].m| > RECSIZE
  }

  function Cut(s: seq<nat>): seq<nat> {
    if |s| < RECSIZE then s else s[..RECSIZE - 1]
  }

  lemma SnocFacts(us: seq<Unit>, u: Unit)
    ensures var vs := us + [u];
            && (SomeStraddles(vs) <==> SomeStraddles(us) || Straddles(vs, |us|))
            && (SomeLate(vs) <==> SomeLate(us) || Late(vs, |us|))
            && (Bursts(vs) <==> Bursts(us) || (Straddles(vs, |us|) && |Flat(us)| + |Piece(u)| > RECSIZE))
            && Begin(vs, |us|) == |Flat(us)|
  {
    var vs := us + [u];
    assert vs[..|us|] == us;
    forall k | 0 <= k < |us| ensures Begin(vs, k) == Begin(us, k) && vs[k] == us[k] {
      assert vs[..k] == us[..k];
    }
    forall k | 0 <= k < |us| ensures Straddles(vs, k) == Straddles(us, k) && Late(vs, k) == Late(us, k) {}
  }

  lemma {:induction false} FlatGrows(us: seq<Unit>, k: nat)
    requires k < |us|
    ensures Begin(us, k) + |Piece(us[k])| <= |Flat(us)|
    decreases |us|
  {
    var n := |us| - 1;
    if k < n {
      FlatGrows(us[..n], k);
      assert us[..n][..k] == us[..k];
    }
  }

  /** What the steps leave: past the end, full, or the output cut to leave room for the NUL. */
  lemma {:induction false} FoldIs(us: seq<Unit>)
    ensures Fold(Has([]), us) == if Bursts(us) then Past
                                else if SomeStraddles(us) || SomeLate(us) then Full
                                else Has(Cut(Flat(us)))
  {
    if us != [] {
      var n := |us| - 1;
      var vs, u := us[..n], us[n];
      assert us == vs + [u];
      FoldIs(vs);
      FoldSnoc(Has([]), vs, u);
      SnocFacts(vs, u);
      LateLong(vs);
      hide Bursts, SomeStraddles, SomeLate, Fold, Flat;
    }
  }

  /** Where a step is late or straddles, the output is long. */
  lemma LateLong(us: seq<Unit>)
    ensures SomeStraddles(us) || SomeLate(us) ==> |Flat(us)| >= RECSIZE
    ensures Bursts(us) ==> SomeStraddles(us)
  {
    hide Flat;
    if k: nat :| k < |us| && (Straddles(us, k) || Late(us, k)) {
      FlatGrows(us, k);
    }
  }

  // ----- the replacement text -----

  function Plains(s: seq<nat>): seq<Unit> {
    seq(|s|, k requires 0 <= k < |s| => Plain(s[k]))
  }

  lemma {:induction false} PlainsFlat(s: seq<nat>)
    ensures Flat(Plains(s)) == s
  {
    if s != [] {
      var n := |s| - 1;
      PlainsFlat(s[..n]);
      assert Plains(s)[..n] == Plains(s[..n]);
      assert s == s[..n] + [s[n]];
    }
  }

  /** The loop over the replacement text. */
  function Steps(repl: seq<nat>, matched: seq<nat>): seq<Unit> {
    if repl == [] then []
    else if repl[0] == BACKSLASH && |repl| > 1 && repl[1] == AMP then [Plain(AMP)] + Steps(repl[2..], matched)
    else if repl[0] == AMP then [Whole(matched)] + Steps(repl[1..], matched)
    else [Plain(repl[0])] + Steps(repl[1..], matched)
  }

  /** Each part is one step, the matched string as a whole. */
  function UnitsOf(ps: seq<Part>, matched: seq<nat>): (r: seq<Unit>)
    ensures |r| == |ps|
  {
    seq(|ps|, k requires 0 <= k < |ps| =>
        match ps[k] case TheMatch => Whole(matched) case Ampersand => Plain(AMP) case Other(c) => Plain(c))
  }

  lemma {:induction false} StepsAre(ps: seq<Part>, matched: seq<nat>)
    requires PartsOk(ps)
    ensures Steps(PartsText(ps), matched) == UnitsOf(ps, matched)
    decreases |ps|
  {
    if ps != [] {
      PartsOkTail(ps);
      PartsHead(ps[1..]);
      var text, rest := PartsText(ps), PartsText(ps[1..]);
      assert text[if ps[0] == Ampersand then 2 else 1..] == rest;
      if rest != [] && !ps[0].Ampersand? { assert text[1] == rest[0]; }
      StepsAre(ps[1..], matched);
      assert UnitsOf(ps, matched) == [UnitsOf(ps, matched)[0]] + UnitsOf(ps[1..], matched);
    }
  }

  lemma {:induction false} StepsFlat(repl: seq<nat>, matched: seq<nat>)
    ensures Flat(Steps(repl, matched)) == Replacement(repl, matched)
  {
    hide Flat;
    if repl == [] {
      FlatNone();
    } else {
      var n := if repl[0] == BACKSLASH && |repl| > 1 && repl[1] == AMP then 2 else 1;
      StepsFlat(repl[n..], matched);
      FlatCons(Steps(repl, matched)[0], Steps(repl[n..], matched));
    }
  }

  lemma FlatNone()
    ensures Flat([]) == []
  {
  }

  lemma PlainsSplit(text: seq<nat>, from: nat, s: nat, end: nat, buf: Buf)
    requires from <= s <= end <= |text|
    ensures Fold(buf, Plains(text[from..end])) == Fold(Fold(buf, Plains(text[from..s])), Plains(text[s..end]))
  {
    assert Plains(text[from..end]) == Plains(text[from..s]) + Plains(text[s..end]);
    FoldOn(buf, Plains(text[from..s]), Plains(text[s..end]));
  }

  lemma PlainsSnoc(text: seq<nat>, from: nat, s: nat, buf: Buf)
    requires from <= s < |text|
    ensures Fold(buf, Plains(text[from..s + 1])) == Put(Fold(buf, Plains(text[from..s])), Plain(text[s]))
  {
    assert Plains(text[from..s + 1]) == Plains(text[from..s]) + [Plain(text[s])];
    FoldSnoc(buf, Plains(text[from..s]), Plain(text[s]));
  }

  /** One step more of the replacement text. */
  lemma StepOn(buf: Buf, done: seq<Unit>, u: Unit, rest: seq<Unit>)
    ensures done + ([u] + rest) == done + [u] + rest
    ensures Fold(buf, done + [u]) == Put(Fold(buf, done), u)
    ensures !Fold(buf, done + [u]).Has? ==> Fold(buf, done + [u] + rest) == Fold(buf, done + [u])
  {
    hide Put;
    FoldSnoc(buf, done, u);
    FoldOn(buf, done + [u], rest);
    if !Fold(buf, done + [u]).Has? { Stays(Fold(buf, done + [u]), rest); }
  }

  // ----- the buffer itself -----

  /** buf and pb. A character past its end is not stored: the call reports it. */
  class Buffer {
    const data: array<nat>
    var pb: nat

    ghost predicate Valid()
      reads this
    {
      data.Length == RECSIZE && pb <= RECSIZE
    }

    ghost function Contents(): seq<nat>
      requires Valid()
      reads this, data
    {
      data[..pb]
    }

    /** The buffer as Fold describes it, unless it has been written past its end. */
    ghost function Value(): Buf
      requires Valid()
      reads this, data
    {
      if pb == RECSIZE then Full else Has(Contents())
    }

    constructor ()
      ensures Valid() && Value() == Has([]) && fresh(data)
    {
      data := new nat[RECSIZE](_ => 0);
      pb := 0;
    }

    /** One more character at pb. */
    method Store(c: nat) returns (ok: bool)
      requires Valid()
      modifies this`pb, data
      ensures Valid() && ok == (old(pb) < RECSIZE)
      ensures Contents() == if ok then old(Contents()) + [c] else old(Contents())
    {
      ok := pb < RECSIZE;
      if ok {
        data[pb] := c;
        pb := pb + 1;
      }
    }

    /** A stretch of the text is copied, as far as the buffer leaves room for a NUL. */
    method Copy(text: seq<nat>, from: nat, end: nat)
      requires Valid() && Value().Has? && from <= end <= |text|
      modifies this`pb, data
      ensures Valid() && Value() == Fold(old(Value()), Plains(text[from..end]))
    {
      var s := from;
      ghost var was := Value();
      while s < end && pb < RECSIZE - 1
        invariant from <= s <= end && Valid() && Value().Has?
        invariant Value() == Fold(was, Plains(text[from..s]))
      {
        var ok := Store(text[s]);
        PlainsSnoc(text, from, s, was);
        s := s + 1;
      }
      if s < end {
        PlainsSplit(text, from, s, end, was);
        Stays(Value(), Plains(text[s..end]));
      }
    }

    /** The whole match is copied, without a look at the room. */
    method StoreAll(matched: seq<nat>) returns (ok: bool)
      requires Valid()
      modifies this`pb, data
      ensures Valid() && ok == (old(pb) + |matched| <= RECSIZE)
      ensures ok ==> Contents() == old(Contents()) + matched
    {
      var q := 0;
      while q < |matched|
        invariant 0 <= q <= |matched| && Valid() && Contents() == old(Contents()) + matched[..q]
      {
        ok := Store(matched[q]);
        if !ok {
          return;
        }
        assert matched[..q + 1] == matched[..q] + [matched[q]];
        q := q + 1;
      }
      ok := true;
    }

    /** One round of the loop over the replacement text; copying the match for & is not bounded. */
    method FillOne(repl: seq<nat>, i: nat, matched: seq<nat>) returns (next: nat, ok: bool, ghost u: Unit)
      requires Valid() && i < |repl| && pb < RECSIZE - 1
      modifies this`pb, data
      ensures Valid() && i < next <= |repl|
      ensures Steps(repl[i..], matched) == [u] + Steps(repl[next..], matched)
      ensures (if ok then Value() else Past) == Put(old(Value()), u)
    {
      ghost var rest := repl[i..];
      assert rest[0] == repl[i] && (i + 1 < |repl| ==> rest[1] == repl[i + 1]);
      assert rest[1..] == repl[i + 1..];
      if repl[i] == BACKSLASH && i + 1 < |repl| && repl[i + 1] == AMP {
        assert rest[2..] == repl[i + 2..];
        u := Plain(AMP);
        ok := Store(AMP);
        next := i + 2;
      } else if repl[i] == AMP {
        u := Whole(matched);
        ok := StoreAll(matched);
        next := i + 1;
      } else {
        u := Plain(repl[i]);
        ok := Store(repl[i]);
        next := i + 1;
      }
    }

    /** The loop over the replacement text. */
    method Fill(repl: seq<nat>, matched: seq<nat>) returns (ok: bool)
      requires Valid() && Value().Has?
      modifies this`pb, data
      ensures Valid() && (if ok then Value() else Past) == Fold(old(Value()), Steps(repl, matched))
    {
      hide Fold, Put, Steps;
      var i := 0;
      ghost var was, all := Value(), Steps(repl, matched);
      ghost var done: seq<Unit> := [];
      ok := true;
      assert repl[0..] == repl && done + all == all;
      FoldNone(was);
      while i < |repl| && pb < RECSIZE - 1
        invariant 0 <= i <= |repl| && Valid() && Value() == Fold(was, done)
        invariant all == done + Steps(repl[i..], matched)
      {
        ghost var u;
        i, ok, u := FillOne(repl, i, matched);
        StepOn(was, done, u, Steps(repl[i..], matched));
        done := done + [u];
        if !ok {
          return;
        }
      }
      FoldOn(was, done, Steps(repl[i..], matched));
      StepsUnchecked(repl[i..], matched);
      if i == |repl| { FoldNone(Value()); } else { Stays(Value(), Steps(repl[i..], matched)); }
    }
  }

  lemma FoldNone(buf: Buf)
    ensures Fold(buf, []) == buf
  {
  }

  predicate Unchecked(us: seq<Unit>) {
    forall k | 0 <= k < |us| :: !us[k].Checked?
  }

  lemma {:induction false} StepsUnchecked(repl: seq<nat>, matched: seq<nat>)
    ensures Unchecked(Steps(repl, matched)) && (repl == [] ==> Steps(repl, matched) == [])
  {
    if repl != [] {
      StepsUnchecked(repl[1..], matched);
      if |repl| > 1 { StepsUnchecked(repl[2..], matched); }
    }
  }

  /** With no room for a character and a NUL, nothing more is stored. */
  lemma {:induction false} Stays(buf: Buf, us: seq<Unit>)
    requires buf.Has? ==> Unchecked(us) && |buf.s| >= RECSIZE - 1
    ensures Fold(buf, us) == buf
  {
    if us != [] { Stays(buf, us[..|us| - 1]); }
  }
}
