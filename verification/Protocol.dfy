/**
 Choosing a protocol for the line: the lists of protocol letters edited in place
 (usr/src/cmd/bnu/conn.c) and the exchange of startup (usr/src/cmd/bnu/cntrl.c).
 */
module Protocol {
  // ----- lists of protocols as text -----

  /** A letter and its parenthesised parameters, if it has any. */
  datatype Entry = Entry(letter: char, params: string)

  /** A group ends with its first closing parenthesis. */
  predicate IsGroup(p: string) {
    |p| >= 2 && p[0] == '(' && p[|p| - 1] == ')' && forall k | 0 < k < |p| - 1 :: p[k] != ')'
  }

  predicate EntryOk(e: Entry) {
    e.letter != '(' && (e.params == "" || IsGroup(e.params))
  }

  predicate Ok(es: seq<Entry>) {
    forall k | 0 <= k < |es| :: EntryOk(es[k])
  }

  function Text(e: Entry): (r: string)
    ensures |r| == 1 + |e.params| && r[0] == e.letter
  {
    [e.letter] + e.params
  }

  function Spell(es: seq<Entry>): string {
    if es == [] then "" else Text(es[0]) + Spell(es[1..])
  }

  function Letters(es: seq<Entry>): (r: string)
    ensures |r| == |es| && forall k | 0 <= k < |es| :: r[k] == es[k].letter
  {
    seq(|es|, k requires 0 <= k < |es| => es[k].letter)
  }

  predicate Has(es: seq<Entry>, c: char) {
    exists k | 0 <= k < |es| :: es[k].letter == c
  }

  // ----- what the editing does to entries -----

  function Remove(es: seq<Entry>, c: char): (r: seq<Entry>)
    ensures |r| <= |es| && (Ok(es) ==> Ok(r))
  {
    if es == [] then []
    else (if es[0].letter == c then [] else [es[0]]) + Remove(es[1..], c)
  }

  function Index(es: seq<Entry>, c: char): (r: nat)
    ensures r <= |es| && (r < |es| ==> es[r].letter == c)
    ensures forall k | 0 <= k < r :: es[k].letter != c
  {
    if es == [] then 0 else if es[0].letter == c then 0 else 1 + Index(es[1..], c)
  }

  /** An entry without parameters takes those of e. */
  function Given(was: Entry, e: Entry): Entry {
    if was.params == "" then was.(params := e.params) else was
  }

  /** A new entry goes to the end; parameters are added to an entry without any. */
  function Merge(es: seq<Entry>, e: Entry): (r: seq<Entry>)
    ensures Ok(es) && EntryOk(e) ==> Ok(r)
  {
    if es == [] then [e]
    else if es[0].letter == e.letter then [Given(es[0], e)] + es[1..]
    else [es[0]] + Merge(es[1..], e)
  }

  // ----- the scanning functions -----

  /** What follows an entry does not begin with a group. */
  predicate NoGroup(s: string) {
    s == "" || s[0] != '('
  }

  lemma SpellNoGroup(es: seq<Entry>)
    requires Ok(es)
    ensures NoGroup(Spell(es))
  {
  }

  /** From i on, s is the text of es. */
  predicate IsAt(s: string, i: nat, es: seq<Entry>) {
    i <= |s| && s[i..] == Spell(es) && Ok(es)
  }

  /** nextProto: past the group at i, if there is one. */
  method NextProto(s: string, i: nat, ghost group: string, ghost post: string) returns (j: nat)
    requires i <= |s| && s[i..] == group + post && (group == "" || IsGroup(group)) && (group == "" ==> NoGroup(post))
    ensures j == i + |group| <= |s| && s[i..j] == group && s[j..] == post
  {
    j := i;
    assert i < |s| ==> s[i] == s[i..][0];
    if i < |s| && s[i] == '(' {
      while j < |s|
        invariant i <= j < i + |group|
        decreases |s| - j
      {
        assert s[j] == s[i..][j - i] == group[j - i];
        j := j + 1;
        if s[j - 1] == ')' { break; }
      }
    }
    assert s[i..j] == s[i..][..j - i] && s[j..] == s[i..][j - i..];
  }

  /** At the start of an entry there is no group to pass. */
  method NextEntry(s: string, i: nat, ghost es: seq<Entry>) returns (j: nat)
    requires IsAt(s, i, es)
    ensures j == i
  {
    SpellNoGroup(es);
    j := NextProto(s, i, "", Spell(es));
  }

  /** Past the entry at j, the first of es. */
  method Skip(s: string, j: nat, ghost es: seq<Entry>) returns (k: nat)
    requires IsAt(s, j, es) && es != []
    ensures j < k <= |s| && s[j] == es[0].letter && s[j..k] == Text(es[0]) && IsAt(s, k, es[1..])
  {
    SpellNoGroup(es[1..]);
    assert s[j] == s[j..][0];
    assert s[j + 1..] == s[j..][1..] == es[0].params + Spell(es[1..]);
    k := NextProto(s, j + 1, es[0].params, Spell(es[1..]));
    assert s[j..k] == [s[j]] + s[j + 1..k];
  }

  /** findProto: where the entry with letter c begins, or the end. */
  method FindProto(s: string, from: nat, c: char, ghost es: seq<Entry>) returns (j: nat)
    requires IsAt(s, from, es)
    ensures from <= j <= |s| && IsAt(s, j, es[Index(es, c)..]) && (j == |s| <==> Index(es, c) == |es|)
  {
    j := NextEntry(s, from, es);
    ghost var k := 0;
    while j < |s| && s[j] != c
      invariant from <= j && k <= |es| && IsAt(s, j, es[k..])
      invariant Index(es, c) == k + Index(es[k..], c)
      decreases |es| - k
    {
      j := Skip(s, j, es[k..]);
      assert es[k..][1..] == es[k + 1..];
      k := k + 1;
    }
    if j < |s| { assert s[j] == s[j..][0]; }
  }

  // ----- the editing functions -----

  /** The entry at j is removed: what follows it is moved down over it, and the search goes on at the same place. */
  method DropFirst(s: string, j: nat, ghost es: seq<Entry>) returns (s': string, j': nat)
    requires IsAt(s, j, es) && es != []
    ensures j' == j <= |s'| && s'[..j] == s[..j] && IsAt(s', j, es[1..])
  {
    var k := Skip(s, j, es);
    s' := s[..j] + s[k..];
    j' := NextEntry(s', j, es[1..]);
  }

  lemma SpellCons(e: Entry, es: seq<Entry>, front: string)
    ensures front + Spell([e] + es) == front + Text(e) + Spell(es)
  {
    assert ([e] + es)[1..] == es;
  }

  /** removeProto, from the entry at from on. */
  method RemoveProto(s0: string, from: nat, c: char, ghost es: seq<Entry>) returns (s: string)
    requires IsAt(s0, from, es)
    ensures from <= |s| && s[..from] == s0[..from] && IsAt(s, from, Remove(es, c))
  {
    s := s0;
    var j := NextEntry(s, from, es);
    ghost var rest := es;
    while j < |s|
      invariant from <= j <= |s| && s[..from] == s0[..from] && IsAt(s, j, rest)
      invariant s[from..j] + Spell(Remove(rest, c)) == Spell(Remove(es, c))
      decreases |rest|
    {
      s, j := RemoveOne(s, from, j, c, rest);
      rest := rest[1..];
    }
    assert s[from..j] == s[from..];
  }

  method RemoveOne(s: string, from: nat, j: nat, c: char, ghost es: seq<Entry>) returns (s': string, j': nat)
    requires from <= j <= |s| && IsAt(s, j, es) && es != []
    ensures from <= j' <= |s'| && s'[..from] == s[..from] && IsAt(s', j', es[1..])
    ensures s'[from..j'] + Spell(Remove(es[1..], c)) == s[from..j] + Spell(Remove(es, c))
  {
    assert s[j] == s[j..][0];
    if s[j] == c {
      s', j' := DropFirst(s, j, es);
      assert s'[from..j] == s'[..j][from..] && s[from..j] == s[..j][from..];
      assert s'[..from] == s'[..j][..from] && s[..from] == s[..j][..from];
      assert Remove(es, c) == Remove(es[1..], c);
    } else {
      s' := s;
      j' := Skip(s, j, es);
      assert s[from..j'] == s[from..j] + s[j..j'];
      SpellCons(es[0], Remove(es[1..], c), s[from..j]);
    }
  }

  lemma SpellHead(e: Entry, es: seq<Entry>)
    ensures Spell([e] + es) == Text(e) + Spell(es)
  {
    assert ([e] + es)[1..] == es;
  }

  /** mergeProto: the entry at f of source into the entries from i on. */
  method MergeProto(s: string, i: nat, source: string, f: nat, ghost es: seq<Entry>, ghost fs: seq<Entry>)
      returns (r: string)
    requires IsAt(s, i, es) && IsAt(source, f, fs) && fs != []
    ensures i <= |r| && r[..i] == s[..i] && IsAt(r, i, Merge(es, fs[0]))
  {
    var c := source[f];
    assert c == source[f..][0];
    var j := NextEntry(s, i, es);
    ghost var rest := es;
    while j < |s| && s[j] != c
      invariant i <= j <= |s| && IsAt(s, j, rest)
      invariant s[i..j] + Spell(Merge(rest, fs[0])) == Spell(Merge(es, fs[0]))
      decreases |rest|
    {
      j := PassOne(s, i, j, rest, fs[0]);
      rest := rest[1..];
    }
    assert j < |s| ==> s[j] == s[j..][0];
    r := MergeHere(s, j, source, f, rest, fs);
    Glue(s, r, i, j);
  }

  method PassOne(s: string, i: nat, j: nat, ghost es: seq<Entry>, ghost e: Entry) returns (k: nat)
    requires i <= j < |s| && IsAt(s, j, es) && s[j] != e.letter
    ensures i <= k <= |s| && es != [] && IsAt(s, k, es[1..])
    ensures s[i..k] + Spell(Merge(es[1..], e)) == s[i..j] + Spell(Merge(es, e))
  {
    assert s[j] == s[j..][0];
    k := Skip(s, j, es);
    assert s[i..k] == s[i..j] + s[j..k];
    SpellCons(es[0], Merge(es[1..], e), s[i..j]);
  }

  /** r agrees with s up to j. */
  lemma Glue(s: string, r: string, i: nat, j: nat)
    requires i <= j <= |s| && j <= |r| && r[..j] == s[..j]
    ensures r[..i] == s[..i] && r[i..] == s[i..j] + r[j..]
  {
    assert r[..i] == r[..j][..i] && s[..i] == s[..j][..i];
    assert r[i..j] == r[..j][i..] && s[i..j] == s[..j][i..];
  }

  /** What mergeProto does where it stopped: at the letter, or at the end. */
  method MergeHere(s: string, j: nat, source: string, f: nat, ghost es: seq<Entry>, ghost fs: seq<Entry>)
      returns (r: string)
    requires IsAt(s, j, es) && IsAt(source, f, fs) && fs != [] && (es != [] ==> es[0].letter == fs[0].letter)
    ensures j <= |r| && r[..j] == s[..j] && r[j..] == Spell(Merge(es, fs[0]))
  {
    var next := Skip(source, f, fs);
    if j == |s| {
      SpellHead(fs[0], []);
      r := s[..j] + source[f..next];
    } else {
      assert source[f + 1..next] == source[f..next][1..];
      assert source[f + 1..] == source[f + 1..next] + source[next..];
      r := MergeParams(s, j, source, f + 1, next, es, fs);
      SpellHead(Given(es[0], fs[0]), es[1..]);
    }
  }

  lemma GroupThere(s: string, i: nat, group: string, es: seq<Entry>)
    requires i <= |s| && s[i..] == group + Spell(es) && Ok(es) && (group == "" || IsGroup(group))
    ensures i < |s| && s[i] == '(' <==> group != ""
  {
    SpellNoGroup(es);
    assert i < |s| ==> s[i] == s[i..][0];
  }

  method Insert(s: string, k: nat, what: string) returns (r: string)
    requires k <= |s|
    ensures |r| == |s| + |what| && r[..k] == s[..k] && r[k..] == what + s[k..]
  {
    r := s[..k] + what + s[k..];
  }

  lemma AfterLetter(s: string, j: nat, es: seq<Entry>)
    requires IsAt(s, j, es) && es != []
    ensures j < |s| && s[j] == es[0].letter && s[j + 1..] == es[0].params + Spell(es[1..])
  {
    assert s[j] == s[j..][0];
    assert s[j + 1..] == s[j..][1..];
  }

  /** The group from f to next goes in after the letter at j, unless there is one already. */
  method MergeParams(s: string, j: nat, source: string, f: nat, next: nat, ghost es: seq<Entry>,
                     ghost fs: seq<Entry>) returns (r: string)
    requires IsAt(s, j, es) && es != [] && fs != [] && Ok(fs)
    requires f <= next <= |source| && source[f..next] == fs[0].params && source[f..] == fs[0].params + Spell(fs[1..])
    ensures j <= |r| && r[..j] == s[..j] && r[j..] == Text(Given(es[0], fs[0])) + Spell(es[1..])
  {
    AfterLetter(s, j, es);
    hide Spell, IsGroup;
    GroupThere(s, j + 1, es[0].params, es[1..]);
    GroupThere(source, f, fs[0].params, fs[1..]);
    r := s;
    if !(j + 1 < |s| && s[j + 1] == '(') && f < |source| && source[f] == '(' {
      r := Insert(s, j + 1, source[f..next]);
    }
    assert r[j + 1..] == Given(es[0], fs[0]).params + Spell(es[1..]);
    Glue(s, r, j, j + 1);
    assert s[j..j + 1] == [es[0].letter];
  }

  // ----- what the lists mean -----

  predicate Distinct(s: string) {
    forall i, j | 0 <= i < j < |s| :: s[i] != s[j]
  }

  function Narrowed(e: Entry, want: seq<Entry>): (r: seq<Entry>)
    ensures |r| <= 1 && (EntryOk(e) && Ok(want) ==> Ok(r))
  {
    var k := Index(want, e.letter);
    if k < |want| then [Given(e, want[k])] else []
  }

  /** Entries whose letter want does not have are dropped; the others get want's parameters if they have none. */
  function Narrow(es: seq<Entry>, want: seq<Entry>): (r: seq<Entry>)
    ensures |r| <= |es| && (Ok(es) && Ok(want) ==> Ok(r))
  {
    if es == [] then [] else Narrowed(es[0], want) + Narrow(es[1..], want)
  }

  /** The entries of want that are compiled in, put into es one by one. */
  function Collect(es: seq<Entry>, want: seq<Entry>, valid: string): (r: seq<Entry>)
    ensures Ok(es) && Ok(want) ==> Ok(r)
    decreases |want|
  {
    if want == [] then es
    else Collect(if want[0].letter in valid then Merge(es, want[0]) else es, want[1..], valid)
  }

  /** _Protocol as entries, and the list of valid letters. */
  datatype Lists = Lists(chosen: seq<Entry>, valid: string)

  predicate Sound(l: Lists) {
    Ok(l.chosen) && (forall k | 0 <= k < |l.valid| :: l.valid[k] != '(') &&
        (l.chosen != [] ==> Distinct(l.valid) && l.valid == Letters(l.chosen))
  }

  /** addProto. */
  function Add(l: Lists, want: seq<Entry>): Lists {
    if want == [] then l
    else if l.chosen == [] then
      var es := Collect([], want, l.valid);
      Lists(es, if es == [] then l.valid else Letters(es))
    else
      var es := Narrow(l.chosen, want);
      Lists(es, Letters(es))
  }

  // ----- addProto and protoString -----

  function Plain(v: string): (r: seq<Entry>)
    ensures |r| == |v| && forall k | 0 <= k < |v| :: r[k] == Entry(v[k], "")
  {
    seq(|v|, k requires 0 <= k < |v| => Entry(v[k], ""))
  }

  lemma {:induction false} SpellPlain(v: string)
    ensures Spell(Plain(v)) == v
    decreases |v|
  {
    if v != "" {
      SpellPlain(v[1..]);
      assert Plain(v)[1..] == Plain(v[1..]);
    }
  }

  class Conn {
    var protocol: string
    var valid: string

    constructor (compiled: string)
      ensures protocol == "" && valid == compiled
    {
      protocol, valid := "", compiled;
    }

    ghost predicate Holds(l: Lists)
      reads this
    {
      protocol == Spell(l.chosen) && valid == l.valid && Sound(l)
    }

    /** The last lines of addProto: the letters of _Protocol become the valid list. */
    method CopyLetters(ghost es: seq<Entry>)
      requires protocol == Spell(es) && Ok(es)
      modifies this`valid
      ensures valid == Letters(es)
    {
      var j := NextEntry(protocol, 0, es);
      valid := "";
      ghost var k := 0;
      while j < |protocol|
        invariant k <= |es| && IsAt(protocol, j, es[k..]) && valid == Letters(es)[..k]
        decreases |es| - k
      {
        assert protocol[j] == protocol[j..][0];
        valid := valid + [protocol[j]];
        j := Skip(protocol, j, es[k..]);
        assert es[k..][1..] == es[k + 1..];
        k := k + 1;
      }
    }

    /** addProto when nothing has been chosen yet. */
    method AddFirst(desired: string, ghost want: seq<Entry>)
      requires protocol == "" && desired == Spell(want) && Ok(want)
      requires forall k | 0 <= k < |valid| :: valid[k] != '('
      modifies this`protocol
      ensures protocol == Spell(Collect([], want, valid))
    {
      var j := NextEntry(desired, 0, want);
      ghost var rest, es := want, [];
      SpellPlain(valid);
      while j < |desired|
        invariant IsAt(desired, j, rest) && IsAt(protocol, 0, es)
        invariant Collect(es, rest, valid) == Collect([], want, valid)
        decreases |rest|
      {
        assert desired[j] == desired[j..][0];
        var f := FindProto(valid, 0, desired[j], Plain(valid));
        if f != |valid| {
          protocol := MergeProto(protocol, 0, desired, j, es, rest);
          es := Merge(es, rest[0]);
        }
        j := Skip(desired, j, rest);
        rest := rest[1..];
      }
    }

    /** The letter at j is not wanted: it leaves both lists. */
    method DropLetter(j: nat, ghost rest: seq<Entry>, ghost x: string)
      requires IsAt(protocol, j, rest) && rest != [] && valid == x + Letters(rest) && Distinct(valid) &&
               Ok(Plain(valid))
      modifies this
      ensures j <= |protocol| && protocol[..j] == old(protocol[..j]) && IsAt(protocol, j, rest[1..])
      ensures valid == x + Letters(rest[1..]) && Distinct(valid) && Ok(Plain(valid))
    {
      assert protocol[j] == protocol[j..][0];
      var c := protocol[j];
      LettersCons(rest);
      valid := DropValid(valid, c, x, Letters(rest[1..]));
      DistinctSuffix(Letters(rest), x);
      RemoveDistinct(rest);
      protocol := RemoveProto(protocol, j, c, rest);
    }

    /** The letter at j is wanted: it gets the parameters at w in desired, and is passed. */
    method KeepLetter(j: nat, desired: string, w: nat, ghost rest: seq<Entry>, ghost fs: seq<Entry>) returns (j': nat)
      requires IsAt(protocol, j, rest) && rest != [] && IsAt(desired, w, fs) && fs != [] &&
               fs[0].letter == rest[0].letter
      modifies this`protocol
      ensures j <= j' <= |protocol| && protocol[..j'] == old(protocol[..j]) + Text(Given(rest[0], fs[0]))
      ensures IsAt(protocol, j', rest[1..])
    {
      protocol := MergeProto(protocol, j, desired, w, rest, fs);
      ghost var es := [Given(rest[0], fs[0])] + rest[1..];
      assert es[1..] == rest[1..];
      j' := Skip(protocol, j, es);
      assert protocol[..j'] == protocol[..j] + protocol[j..j'];
    }

    /** addProto when there is a choice already: the loop over _Protocol. */
    method AddMore(desired: string, ghost es: seq<Entry>, ghost want: seq<Entry>)
      requires IsAt(protocol, 0, es) && desired == Spell(want) && Ok(want) && valid == Letters(es) && Distinct(valid)
      modifies this
      ensures protocol == Spell(Narrow(es, want)) && valid == Letters(Narrow(es, want)) && Distinct(valid)
    {
      var j: nat := NextEntry(protocol, 0, es);
      ghost var done: seq<Entry>, rest := [], es;
      StartNarrow(es, want);
      assert Midway(j, done, rest);
      hide Midway, NarrowedTo;
      while j < |protocol|
        invariant Midway(j, done, rest) && NarrowedTo(done, rest, es, want)
        decreases |rest|
      {
        MidwayMore(j, done, rest);
        StepNarrow(done, rest, es, want);
        j, done := NarrowOne(j, desired, done, rest, want);
        rest := rest[1..];
      }
      MidwayDone(j, done, rest, es, want);
    }

    lemma MidwayMore(j: nat, done: seq<Entry>, rest: seq<Entry>)
      requires Midway(j, done, rest) && j < |protocol|
      ensures rest != []
    {
    }

    lemma MidwayDone(j: nat, done: seq<Entry>, rest: seq<Entry>, es: seq<Entry>, want: seq<Entry>)
      requires Midway(j, done, rest) && j >= |protocol| && NarrowedTo(done, rest, es, want)
      ensures protocol == Spell(Narrow(es, want)) && valid == Letters(Narrow(es, want)) && Distinct(valid)
    {
      NothingLeft(done, rest, want);
      assert protocol == protocol[..j];
    }

    /** addProto. */
    method AddProto(desired: string, ghost l: Lists, ghost want: seq<Entry>)
      requires Holds(l) && desired == Spell(want) && Ok(want)
      modifies this
      ensures Holds(Add(l, want))
    {
      if desired == "" { return; }
      if protocol != "" {
        AddMore(desired, l.chosen, want);
        if protocol != "" { CopyLetters(Narrow(l.chosen, want)); }
        LettersOk(Narrow(l.chosen, want));
      } else {
        AddFirst(desired, want);
        ghost var es := Collect([], want, valid);
        CollectDistinct([], want, valid);
        if protocol != "" { CopyLetters(es); }
        LettersOk(es);
      }
    }

    /** protoString: valid comes in as the letters that are compiled in, and goes out as those to offer. */
    method ProtoString(sys: string, dev: string, cfg: string, ghost s: seq<Entry>, ghost d: seq<Entry>,
                       ghost c: seq<Entry>)
      requires sys == Spell(s) && dev == Spell(d) && cfg == Spell(c) && Ok(s) && Ok(d) && Ok(c)
      requires Distinct(valid) && forall k | 0 <= k < |valid| :: valid[k] != '('
      modifies this
      ensures valid == Offered([s, d, c], old(valid))
      ensures var l := AddAll(Lists([], old(valid)), [s, d, c]); protocol == if l.chosen != [] then Spell(l.chosen)
              else old(valid)
    {
      var save := valid;
      protocol := "";
      ghost var l := Lists([], valid);
      if sys != "" { AddProto(sys, l, s); }
      if dev != "" { AddProto(dev, Add(l, s), d); }
      if cfg != "" { AddProto(cfg, Add(Add(l, s), d), c); }
      AddThree(l, s, d, c);
      if protocol == "" {
        valid := save;
        protocol := save;
      }
    }

    /** fptcl: the protocol for both; _Protocol then begins with it and its parameters. */
    method Choose(str: string, ghost es: seq<Entry>) returns (f: Pick)
      requires protocol == Spell(es) && Ok(es)
      modifies this`protocol
      ensures f == FirstCommon(valid, str)
      ensures f.Pick? ==> protocol == Spell(es[Index(es, f.c)..])
    {
      f := Fptcl(str, valid);
      if f.Pick? {
        var j := FindProto(protocol, 0, f.c, es);
        protocol := protocol[j..];
      }
    }

    /** startup as master: what it answers to the slave's list, and the protocol it has started. */
    method MasterStartup(theirs: string, compiled: string, turnsOn: bool, ghost es: seq<Entry>)
        returns (reply: string, started: Pick)
      requires protocol == Spell(es) && Ok(es)
      modifies this`protocol
      ensures var f := FirstCommon(valid, theirs); reply == Reply(f) && started == Started(f, compiled, turnsOn)
    {
      var f := Choose(theirs, es);
      if f == NoPick {
        return "N", NoPick;
      }
      reply := [f.c];
      started := Stptcl(f.c, compiled, turnsOn);
    }

    /** startup as slave, after the reply. */
    method SlaveStartup(reply: string, compiled: string, turnsOn: bool, ghost es: seq<Entry>) returns (started: Pick)
      requires protocol == Spell(es) && Ok(es)
      modifies this`protocol
      ensures started == Started(FirstCommon(valid, reply), compiled, turnsOn)
    {
      var f := Choose(reply, es);
      if f == NoPick {
        return NoPick;
      }
      started := Stptcl(f.c, compiled, turnsOn);
    }

    /** In the loop over _Protocol: done is behind, rest to come, and valid has the letters of both. */
    ghost predicate Midway(j: nat, done: seq<Entry>, rest: seq<Entry>)
      reads this
    {
      && IsAt(protocol, j, rest) && protocol[..j] == Spell(done)
      && valid == Letters(done) + Letters(rest) && Distinct(valid) && Ok(Plain(valid))
    }

    method NarrowOne(j: nat, desired: string, ghost done: seq<Entry>, ghost rest: seq<Entry>, ghost want: seq<Entry>)
        returns (j': nat, ghost done': seq<Entry>)
      requires Midway(j, done, rest) && rest != [] && desired == Spell(want) && Ok(want)
      modifies this
      ensures Midway(j', done', rest[1..]) && done' == done + Narrowed(rest[0], want)
    {
      assert protocol[j] == protocol[j..][0];
      var w := FindProto(desired, 0, protocol[j], want);
      done' := done + Narrowed(rest[0], want);
      if w == |desired| {
        DropLetter(j, rest, Letters(done));
        j' := j;
        assert done' == done;
      } else {
        ghost var fs := want[Index(want, rest[0].letter)..];
        j' := KeepLetter(j, desired, w, rest, fs);
        SpellSnoc(done, Given(rest[0], fs[0]));
        LettersMove(done, rest, Given(rest[0], fs[0]));
      }
    }
  }

  lemma NothingLeft(done: seq<Entry>, rest: seq<Entry>, want: seq<Entry>)
    requires Spell(rest) == ""
    ensures rest == [] && done + Narrow(rest, want) == done && Letters(done) + Letters(rest) == Letters(done)
  {
  }

  /** Of es, done is what has been kept and rest is still to be gone through. */
  predicate NarrowedTo(done: seq<Entry>, rest: seq<Entry>, es: seq<Entry>, want: seq<Entry>) {
    done + Narrow(rest, want) == Narrow(es, want)
  }

  lemma StartNarrow(es: seq<Entry>, want: seq<Entry>)
    ensures NarrowedTo([], es, es, want)
  {
  }

  lemma StepNarrow(done: seq<Entry>, rest: seq<Entry>, es: seq<Entry>, want: seq<Entry>)
    requires rest != [] && NarrowedTo(done, rest, es, want)
    ensures NarrowedTo(done + Narrowed(rest[0], want), rest[1..], es, want)
  {
  }

  lemma LettersMove(done: seq<Entry>, rest: seq<Entry>, g: Entry)
    requires rest != [] && g.letter == rest[0].letter
    ensures Letters(done) + Letters(rest) == Letters(done + [g]) + Letters(rest[1..])
  {
  }

  /** The list of letters without c. */
  method DropValid(valid: string, c: char, ghost x: string, ghost y: string) returns (v: string)
    requires valid == x + ([c] + y) && Distinct(valid) && Ok(Plain(valid))
    ensures v == x + y && Distinct(v) && Ok(Plain(v))
  {
    SpellPlain(valid);
    v := RemoveProto(valid, 0, c, Plain(valid));
    RemoveLetter(x, c, y, valid);
    SpellPlain(x + y);
    DistinctWithout(x, c, y);
  }

  lemma DistinctWithout(x: string, c: char, y: string)
    requires Distinct(x + ([c] + y))
    ensures Distinct(x + y)
  {
    var v := x + ([c] + y);
    forall i, j | 0 <= i < j < |x + y| ensures (x + y)[i] != (x + y)[j] {
      var i', j' := if i < |x| then i else i + 1, if j < |x| then j else j + 1;
      assert (x + y)[i] == v[i'] && (x + y)[j] == v[j'];
    }
  }

  lemma DistinctSuffix(y: string, x: string)
    requires Distinct(x + y)
    ensures Distinct(y)
  {
    forall i, j | 0 <= i < j < |y| ensures y[i] != y[j] {
      assert (x + y)[|x| + i] == y[i] && (x + y)[|x| + j] == y[j];
    }
  }

  lemma LettersCons(es: seq<Entry>)
    requires es != []
    ensures Letters(es) == [es[0].letter] + Letters(es[1..])
  {
  }

  lemma {:induction false} SpellSnoc(es: seq<Entry>, e: Entry)
    ensures Spell(es + [e]) == Spell(es) + Text(e)
    decreases |es|
  {
    hide Text;
    if es == [] {
      assert [] + [e] == [e];
      SpellHead(e, []);
    } else {
      SpellSnoc(es[1..], e);
      SpellHead(es[0], es[1..] + [e]);
      assert es + [e] == [es[0]] + (es[1..] + [e]);
    }
  }

  lemma {:induction false} RemoveAbsent(es: seq<Entry>, c: char)
    requires forall k | 0 <= k < |es| :: es[k].letter != c
    ensures Remove(es, c) == es
    decreases |es|
  {
    if es != [] { RemoveAbsent(es[1..], c); }
  }

  lemma RemoveDistinct(es: seq<Entry>)
    requires es != [] && Distinct(Letters(es))
    ensures Remove(es, es[0].letter) == es[1..]
  {
    RemoveAbsent(es[1..], es[0].letter);
  }

  lemma {:induction false} RemoveOnly(es: seq<Entry>, k: nat, c: char)
    requires k < |es| && forall i | 0 <= i < |es| :: es[i].letter == c <==> i == k
    ensures Remove(es, c) == es[..k] + es[k + 1..]
    decreases k
  {
    if k == 0 {
      RemoveAbsent(es[1..], c);
    } else {
      RemoveOnly(es[1..], k - 1, c);
      assert es[..k] + es[k + 1..] == [es[0]] + (es[1..][..k - 1] + es[1..][k..]);
    }
  }

  lemma RemoveLetter(x: string, c: char, y: string, v: string)
    requires v == x + ([c] + y) && Distinct(v)
    ensures Remove(Plain(v), c) == Plain(x + y)
  {
    var k := |x|;
    assert v[k] == c;
    RemoveOnly(Plain(v), k, c);
    assert Plain(v)[..k] + Plain(v)[k + 1..] == Plain(x + y);
  }

  lemma LettersOk(es: seq<Entry>)
    requires Ok(es)
    ensures forall k | 0 <= k < |es| :: Letters(es)[k] != '('
  {
  }

  lemma AddThree(l: Lists, s: seq<Entry>, d: seq<Entry>, c: seq<Entry>)
    ensures AddAll(l, [s, d, c]) == Add(Add(Add(l, s), d), c)
  {
    assert [s, d, c][1..] == [d, c] && [d, c][1..] == [c];
    assert AddAll(Add(Add(l, s), d), [c]) == Add(Add(Add(l, s), d), c);
  }

  // ----- which letters are offered -----

  /** The lists from Systems, Devices and the configuration, one after the other. */
  function AddAll(l: Lists, lists: seq<seq<Entry>>): Lists
    decreases |lists|
  {
    if lists == [] then l else AddAll(Add(l, lists[0]), lists[1..])
  }

  /** The letters to offer. */
  function Offered(lists: seq<seq<Entry>>, compiled: string): string {
    var l := AddAll(Lists([], compiled), lists);
    if l.chosen != [] then Letters(l.chosen) else compiled
  }

  lemma {:induction false} MergeLetters(es: seq<Entry>, e: Entry)
    ensures Letters(Merge(es, e)) == if e.letter in Letters(es) then Letters(es) else Letters(es) + [e.letter]
    decreases |es|
  {
    if es != [] {
      MergeLetters(es[1..], e);
      LettersCons(es);
      if es[0].letter != e.letter { LettersCons(Merge(es, e)); }
    }
  }

  lemma {:induction false} CollectDistinct(es: seq<Entry>, want: seq<Entry>, valid: string)
    requires Distinct(Letters(es))
    ensures Distinct(Letters(Collect(es, want, valid)))
    decreases |want|
  {
    if want != [] {
      MergeLetters(es, want[0]);
      CollectDistinct(if want[0].letter in valid then Merge(es, want[0]) else es, want[1..], valid);
    }
  }

  lemma {:induction false} CollectLetters(es: seq<Entry>, want: seq<Entry>, valid: string, c: char)
    ensures c in Letters(Collect(es, want, valid)) <==> c in Letters(es) || (c in valid && c in Letters(want))
    decreases |want|
  {
    if want != [] {
      MergeLetters(es, want[0]);
      LettersCons(want);
      CollectLetters(if want[0].letter in valid then Merge(es, want[0]) else es, want[1..], valid, c);
    }
  }

  lemma {:induction false} NarrowLetters(es: seq<Entry>, want: seq<Entry>, c: char)
    ensures c in Letters(Narrow(es, want)) <==> c in Letters(es) && c in Letters(want)
    decreases |es|
  {
    if es != [] {
      NarrowLetters(es[1..], want, c);
      LettersCons(es);
      NarrowCase(es, want);
    }
  }

  lemma NarrowCase(es: seq<Entry>, want: seq<Entry>)
    requires es != []
    ensures Letters(Narrow(es, want))
         == (if es[0].letter in Letters(want) then [es[0].letter] else "") + Letters(Narrow(es[1..], want))
  {
    IndexHas(want, es[0].letter);
    LettersAppend(Narrowed(es[0], want), Narrow(es[1..], want));
    assert Letters(Narrowed(es[0], want)) == if es[0].letter in Letters(want) then [es[0].letter] else "";
  }

  lemma IndexHas(es: seq<Entry>, c: char)
    ensures Index(es, c) < |es| <==> c in Letters(es)
  {
    var k := Index(es, c);
    if k < |es| { assert Letters(es)[k] == c; }
  }

  lemma LettersAppend(x: seq<Entry>, y: seq<Entry>)
    ensures Letters(x + y) == Letters(x) + Letters(y)
  {
  }

  /** c is in every list that is not empty. */
  predicate Kept(lists: seq<seq<Entry>>, c: char) {
    forall j | 0 <= j < |lists| && lists[j] != [] :: c in Letters(lists[j])
  }

  predicate Usable(want: seq<Entry>, compiled: string) {
    exists c :: c in compiled && c in Letters(want)
  }

  /** The first list with a letter that is compiled in has c, and so has every later list that is not empty. */
  predicate Wanted(lists: seq<seq<Entry>>, compiled: string, c: char)
    decreases |lists|
  {
    lists != [] &&
    if Usable(lists[0], compiled) then c in compiled && c in Letters(lists[0]) && Kept(lists[1..], c)
    else Wanted(lists[1..], compiled, c)
  }

  /** A choice made is only ever narrowed; one that is lost stays lost. */
  lemma {:induction false} NarrowedBy(l: Lists, lists: seq<seq<Entry>>, c: char)
    requires l.chosen == [] ==> l.valid == ""
    ensures c in Letters(AddAll(l, lists).chosen) <==> c in Letters(l.chosen) && Kept(lists, c)
    decreases |lists|
  {
    if lists != [] {
      if l.chosen == [] {
        NoneCollected(lists[0]);
      } else {
        NarrowLetters(l.chosen, lists[0], c);
      }
      NarrowedBy(Add(l, lists[0]), lists[1..], c);
    }
  }

  lemma {:induction false} NoneCollected(want: seq<Entry>)
    ensures Collect([], want, "") == []
    decreases |want|
  {
    if want != [] { NoneCollected(want[1..]); }
  }

  /** What is chosen has exactly the letters wanted. */
  lemma {:induction false} ChosenLetters(lists: seq<seq<Entry>>, compiled: string, c: char)
    ensures c in Letters(AddAll(Lists([], compiled), lists).chosen) <==> Wanted(lists, compiled, c)
    decreases |lists|
  {
    if lists != [] {
      var l := Add(Lists([], compiled), lists[0]);
      if Usable(lists[0], compiled) {
        var u :| u in compiled && u in Letters(lists[0]);
        CollectLetters([], lists[0], compiled, u);
        CollectLetters([], lists[0], compiled, c);
        NarrowedBy(l, lists[1..], c);
      } else {
        NothingUsable(lists[0], compiled);
        ChosenLetters(lists[1..], compiled, c);
      }
    }
  }

  lemma NothingUsable(want: seq<Entry>, compiled: string)
    requires !Usable(want, compiled)
    ensures Collect([], want, compiled) == []
  {
    var es := Collect([], want, compiled);
    if es != [] {
      CollectLetters([], want, compiled, Letters(es)[0]);
    }
  }

  // ----- their order and their parameters -----

  /** Letters come in the order they first come in want. */
  predicate InOrder(s: string, want: seq<Entry>) {
    forall x, y | 0 <= x < y < |s| :: Index(want, s[x]) < Index(want, s[y])
  }

  /** After the first k entries of want have been gone through. */
  predicate Gathered(s: string, want: seq<Entry>, k: nat, valid: string)
    requires k <= |want|
  {
    && InOrder(s, want)
    && (forall x | 0 <= x < |s| :: Index(want, s[x]) < k)
    && (forall i | 0 <= i < k && want[i].letter in valid :: want[i].letter in s)
  }

  lemma AppendOrder(s: string, c: char, want: seq<Entry>)
    requires InOrder(s, want) && forall x | 0 <= x < |s| :: Index(want, s[x]) < Index(want, c)
    ensures InOrder(s + [c], want)
  {
    var t := s + [c];
    forall x, y | 0 <= x < y < |t| ensures Index(want, t[x]) < Index(want, t[y]) {
      assert t[x] == s[x];
      if y < |s| { assert t[y] == s[y]; }
    }
  }

  lemma GatherOne(s: string, want: seq<Entry>, k: nat, valid: string)
    requires k < |want| && Gathered(s, want, k, valid) && want[k].letter in valid && want[k].letter !in s
    ensures Gathered(s + [want[k].letter], want, k + 1, valid)
  {
    var c := want[k].letter;
    IndexIs(want, c, k);
    AppendOrder(s, c, want);
    var t := s + [c];
    forall x | 0 <= x < |t| ensures Index(want, t[x]) < k + 1 {
      if x < |s| { assert t[x] == s[x]; }
    }
  }

  lemma IndexIs(es: seq<Entry>, c: char, k: nat)
    requires k < |es| && es[k].letter == c && forall i | 0 <= i < k :: es[i].letter != c
    ensures Index(es, c) == k
  {
  }

  lemma {:induction false} CollectInOrder(es: seq<Entry>, want: seq<Entry>, k: nat, valid: string)
    requires k <= |want| && Gathered(Letters(es), want, k, valid)
    ensures InOrder(Letters(Collect(es, want[k..], valid)), want)
    decreases |want| - k
  {
    if k < |want| {
      var e := want[k];
      var es' := if e.letter in valid then Merge(es, e) else es;
      MergeLetters(es, e);
      if e.letter in valid && e.letter !in Letters(es) { GatherOne(Letters(es), want, k, valid); }
      assert want[k..][1..] == want[k + 1..];
      assert Gathered(Letters(es'), want, k + 1, valid);
      CollectInOrder(es', want, k + 1, valid);
    }
  }

  /** s without some of its letters. */
  predicate Within(s: string, t: string)
    decreases |t|
  {
    s == "" || (t != "" && ((s[0] == t[0] && Within(s[1..], t[1..])) || Within(s, t[1..])))
  }

  lemma {:induction false} NarrowWithin(es: seq<Entry>, want: seq<Entry>)
    ensures Within(Letters(Narrow(es, want)), Letters(es))
    decreases |es|
  {
    if es != [] {
      NarrowWithin(es[1..], want);
      LettersCons(es);
      NarrowCase(es, want);
      var s, t := Letters(Narrow(es[1..], want)), Letters(es[1..]);
      assert ([es[0].letter] + s)[1..] == s && ([es[0].letter] + t)[1..] == t;
      assert "" + s == s;
    }
  }

  lemma {:induction false} WithinOrder(s: string, t: string, want: seq<Entry>)
    requires Within(s, t) && InOrder(t, want)
    ensures InOrder(s, want) && forall x | 0 <= x < |s| :: s[x] in t
    decreases |t|
  {
    if s != "" {
      assert forall x | 0 < x < |t| :: Index(want, t[0]) < Index(want, t[x]);
      TailOrder(t, want);
      if s[0] == t[0] && Within(s[1..], t[1..]) {
        WithinOrder(s[1..], t[1..], want);
        forall x, y | 0 <= x < y < |s| ensures Index(want, s[x]) < Index(want, s[y]) {
          assert s[y] == s[1..][y - 1];
          if x > 0 { assert s[x] == s[1..][x - 1]; }
        }
      } else {
        WithinOrder(s, t[1..], want);
      }
    }
  }

  lemma TailOrder(t: string, want: seq<Entry>)
    requires t != "" && InOrder(t, want)
    ensures InOrder(t[1..], want)
  {
    forall x, y | 0 <= x < y < |t[1..]| ensures Index(want, t[1..][x]) < Index(want, t[1..][y]) {
      assert t[1..][x] == t[x + 1] && t[1..][y] == t[y + 1];
    }
  }

  /** The list that decides the order: the first with a letter that is compiled in. */
  function Deciding(lists: seq<seq<Entry>>, compiled: string): seq<Entry>
    decreases |lists|
  {
    if lists == [] then [] else if Usable(lists[0], compiled) then lists[0] else Deciding(lists[1..], compiled)
  }

  lemma {:induction false} NarrowedInOrder(l: Lists, lists: seq<seq<Entry>>, want: seq<Entry>)
    requires (l.chosen == [] ==> l.valid == "") && InOrder(Letters(l.chosen), want)
    ensures InOrder(Letters(AddAll(l, lists).chosen), want)
    decreases |lists|
  {
    if lists != [] {
      if l.chosen == [] {
        NoneCollected(lists[0]);
      } else {
        NarrowWithin(l.chosen, lists[0]);
        WithinOrder(Letters(Narrow(l.chosen, lists[0])), Letters(l.chosen), want);
      }
      NarrowedInOrder(Add(l, lists[0]), lists[1..], want);
    }
  }

  lemma {:induction false} ChosenInOrder(lists: seq<seq<Entry>>, compiled: string)
    ensures InOrder(Letters(AddAll(Lists([], compiled), lists).chosen), Deciding(lists, compiled))
    decreases |lists|
  {
    if lists != [] {
      if Usable(lists[0], compiled) {
        var u :| u in compiled && u in Letters(lists[0]);
        CollectLetters([], lists[0], compiled, u);
        CollectInOrder([], lists[0], 0, compiled);
        assert lists[0][0..] == lists[0];
        NarrowedInOrder(Add(Lists([], compiled), lists[0]), lists[1..], lists[0]);
      } else {
        NothingUsable(lists[0], compiled);
        ChosenInOrder(lists[1..], compiled);
      }
    }
  }

  /** A group of parameters stands after the same letter in one of the lists. */
  predicate FromPool(es: seq<Entry>, pool: set<Entry>) {
    forall k | 0 <= k < |es| :: es[k].params == "" || es[k] in pool
  }

  lemma {:induction false} MergeGiven(es: seq<Entry>, e: Entry, pool: set<Entry>)
    requires FromPool(es, pool) && e in pool
    ensures FromPool(Merge(es, e), pool)
    decreases |es|
  {
    if es != [] && es[0].letter != e.letter { MergeGiven(es[1..], e, pool); }
  }

  lemma {:induction false} CollectGiven(es: seq<Entry>, want: seq<Entry>, valid: string, pool: set<Entry>)
    requires FromPool(es, pool) && forall k | 0 <= k < |want| :: want[k] in pool
    ensures FromPool(Collect(es, want, valid), pool)
    decreases |want|
  {
    if want != [] {
      MergeGiven(es, want[0], pool);
      CollectGiven(if want[0].letter in valid then Merge(es, want[0]) else es, want[1..], valid, pool);
    }
  }

  lemma {:induction false} NarrowGiven(es: seq<Entry>, want: seq<Entry>, pool: set<Entry>)
    requires FromPool(es, pool) && forall k | 0 <= k < |want| :: want[k] in pool
    ensures FromPool(Narrow(es, want), pool)
    decreases |es|
  {
    if es != [] { NarrowGiven(es[1..], want, pool); }
  }

  lemma {:induction false} ChosenGiven(l: Lists, lists: seq<seq<Entry>>, pool: set<Entry>)
    requires FromPool(l.chosen, pool)
    requires forall j | 0 <= j < |lists| :: forall k | 0 <= k < |lists[j]| :: lists[j][k] in pool
    ensures FromPool(AddAll(l, lists).chosen, pool)
    decreases |lists|
  {
    if lists != [] {
      assert forall k | 0 <= k < |lists[0]| :: lists[0][k] in pool;
      if l.chosen == [] { CollectGiven([], lists[0], l.valid, pool); } else { NarrowGiven(l.chosen, lists[0], pool); }
      ChosenGiven(Add(l, lists[0]), lists[1..], pool);
    }
  }

  // ----- startup -----

  datatype Pick = NoPick | Pick(c: char)

  /** The first letter of valid that is in str. */
  function FirstCommon(valid: string, str: string): Pick {
    if valid == "" then NoPick else if valid[0] in str then Pick(valid[0]) else FirstCommon(valid[1..], str)
  }

  /** fptcl. */
  method Fptcl(str: string, valid: string) returns (r: Pick)
    ensures r == FirstCommon(valid, str)
  {
    var l := 0;
    while l < |valid|
      invariant 0 <= l <= |valid| && FirstCommon(valid, str) == FirstCommon(valid[l..], str)
    {
      assert valid[l..][1..] == valid[l + 1..];
      if valid[l] in str {
        return Pick(valid[l]);
      }
      l := l + 1;
    }
    assert valid[l..] == "";
    return NoPick;
  }

  lemma {:induction false} FirstCommonIs(valid: string, str: string)
    ensures FirstCommon(valid, str) == NoPick <==> forall c :: c in valid ==> c !in str
    ensures FirstCommon(valid, str).Pick? ==>
              var c := FirstCommon(valid, str).c;
              c in str && exists k :: 0 <= k < |valid| && valid[k] == c && forall i | 0 <= i < k :: valid[i] !in str
    decreases |valid|
  {
    if valid != "" && valid[0] !in str {
      FirstCommonIs(valid[1..], str);
      if FirstCommon(valid, str).Pick? {
        var k :| 0 <= k < |valid[1..]| && valid[1..][k] == FirstCommon(valid, str).c &&
            forall i | 0 <= i < k :: valid[1..][i] !in str;
        assert valid[k + 1] == FirstCommon(valid, str).c;
        forall i | 0 <= i < k + 1 ensures valid[i] !in str { if i > 0 { assert valid[i] == valid[1..][i - 1]; } }
      }
    }
  }

  /** stptcl: the letter must be compiled in, and the protocol must turn on. */
  function Stptcl(c: char, compiled: string, turnsOn: bool): Pick {
    if c in compiled && turnsOn then Pick(c) else NoPick
  }

  function Reply(f: Pick): string {
    if f == NoPick then "N" else [f.c]
  }

  function Started(f: Pick, compiled: string, turnsOn: bool): Pick {
    if f == NoPick then NoPick else Stptcl(f.c, compiled, turnsOn)
  }

  /**
   With lists as protoString leaves them: if they share a letter, each side that can turn on the
   first such letter of the master's list starts that one; if not, neither starts any.
   */
  lemma StartupAgrees(master: string, slave: string, mc: string, sc: string, mOn: bool, sOn: bool)
    requires (forall c :: c in master ==> c in mc) && (forall c :: c in slave ==> c in sc) && 'N' !in slave
    ensures var f := FirstCommon(master, slave);
            && Started(f, mc, mOn) == (if mOn then f else NoPick)
            && Started(FirstCommon(slave, Reply(f)), sc, sOn) == if sOn then f else NoPick
  {
    var f := FirstCommon(master, slave);
    FirstCommonIs(master, slave);
    FirstCommonIs(slave, Reply(f));
  }

  /** What protoString offers is compiled in, without repetition. */
  lemma OfferedCompiled(lists: seq<seq<Entry>>, compiled: string, c: char)
    requires Distinct(compiled)
    ensures Distinct(Offered(lists, compiled)) && (c in Offered(lists, compiled) ==> c in compiled)
  {
    ChosenLetters(lists, compiled, c);
    WantedCompiled(lists, compiled, c);
    ChosenDistinct(lists, compiled);
  }

  lemma {:induction false} WantedCompiled(lists: seq<seq<Entry>>, compiled: string, c: char)
    ensures Wanted(lists, compiled, c) ==> c in compiled
    decreases |lists|
  {
    if lists != [] { WantedCompiled(lists[1..], compiled, c); }
  }

  /** Letters in order cannot repeat. */
  lemma ChosenDistinct(lists: seq<seq<Entry>>, compiled: string)
    ensures Distinct(Letters(AddAll(Lists([], compiled), lists).chosen))
  {
    ChosenInOrder(lists, compiled);
  }

  /** What one side wants and has: its three lists, the letters compiled in, and whether the protocol turns on. */
  datatype Side = Side(sys: seq<Entry>, dev: seq<Entry>, cfg: seq<Entry>, compiled: string, turnsOn: bool)

  predicate SideOk(s: Side) {
    && Ok(s.sys) && Ok(s.dev) && Ok(s.cfg)
    && Distinct(s.compiled) && forall k | 0 <= k < |s.compiled| :: s.compiled[k] != '('
  }

  function OfferOf(s: Side): string {
    Offered([s.sys, s.dev, s.cfg], s.compiled)
  }

  /** What _Protocol spells once the lists are made up. */
  ghost function EntriesOf(s: Side): seq<Entry> {
    var l := AddAll(Lists([], s.compiled), [s.sys, s.dev, s.cfg]);
    if l.chosen != [] then l.chosen else Plain(s.compiled)
  }

  lemma EntriesSpelled(s: Side)
    requires SideOk(s)
    ensures var l := AddAll(Lists([], s.compiled), [s.sys, s.dev, s.cfg]);
            Ok(EntriesOf(s)) && Spell(EntriesOf(s)) == if l.chosen != [] then Spell(l.chosen) else s.compiled
  {
    SpellPlain(s.compiled);
    AddAllOk(Lists([], s.compiled), [s.sys, s.dev, s.cfg]);
  }

  lemma {:induction false} AddAllOk(l: Lists, lists: seq<seq<Entry>>)
    requires Ok(l.chosen) && forall k | 0 <= k < |lists| :: Ok(lists[k])
    ensures Ok(AddAll(l, lists).chosen)
    decreases |lists|
  {
    if lists != [] { AddAllOk(Add(l, lists[0]), lists[1..]); }
  }

  /**
   Both sides make up their lists and run startup: if the lists share a letter, each side that can
   turn on the first such letter of the master's list starts that one; if not, neither starts any.
   */
  method Converse(master: Side, slave: Side) returns (m: Pick, s: Pick)
    requires SideOk(master) && SideOk(slave) && 'N' !in slave.compiled
    ensures var f := FirstCommon(OfferOf(master), OfferOf(slave));
            m == (if master.turnsOn then f else NoPick) && s == if slave.turnsOn then f else NoPick
  {
    var mconn := new Conn(master.compiled);
    mconn.ProtoString(Spell(master.sys), Spell(master.dev), Spell(master.cfg), master.sys, master.dev, master.cfg);
    var sconn := new Conn(slave.compiled);
    sconn.ProtoString(Spell(slave.sys), Spell(slave.dev), Spell(slave.cfg), slave.sys, slave.dev, slave.cfg);
    var reply;
    ghost var mes, ses := EntriesOf(master), EntriesOf(slave);
    EntriesSpelled(master);
    EntriesSpelled(slave);
    reply, m := mconn.MasterStartup(sconn.valid, master.compiled, master.turnsOn, mes);
    s := sconn.SlaveStartup(reply, slave.compiled, slave.turnsOn, ses);
    forall c ensures (c in OfferOf(master) ==> c in master.compiled) && (c in OfferOf(slave) ==> c in slave.compiled) {
      OfferedCompiled([master.sys, master.dev, master.cfg], master.compiled, c);
      OfferedCompiled([slave.sys, slave.dev, slave.cfg], slave.compiled, c);
    }
    StartupAgrees(OfferOf(master), OfferOf(slave), master.compiled, slave.compiled, master.turnsOn, slave.turnsOn);
  }
}
