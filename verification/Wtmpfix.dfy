/**
 wtmpfix (usr/src/cmd/acct/wtmpfix.c): in one pass over the login records it makes a list of
 intervals, one for each change of the clock, and in a second pass it adds to the time of each
 record the changes whose interval the record is in. Offsets are counted in records.
 */
module Wtmpfix {
  datatype Type = BootTime | RunLevelS | RunLevel2 | OldTime | NewTime | Other

  datatype Rec = Rec(kind: Type, time: int)

  // ----- what is to be added -----

  /** multimode when record i is looked at. */
  function Multi(recs: seq<Rec>, i: nat): nat
    requires i <= |recs|
  {
    if i == 0 then 0
    else
      var m := Multi(recs, i - 1);
      if recs[i - 1].kind == RunLevelS then 0 else if recs[i - 1].kind == RunLevel2 then m + 1 else m
  }

  /** The system is multiuser if run level 2 was entered and not left for S since. */
  lemma {:induction false} MultiIs(recs: seq<Rec>, i: nat)
    requires i <= |recs|
    ensures Multi(recs, i) != 0 <==>
            exists k | 0 <= k < i :: recs[k].kind == RunLevel2 && forall j | k < j < i :: recs[j].kind != RunLevelS
  {
    if i > 0 { MultiIs(recs, i - 1); }
  }

  /** The change of the clock at record q, counted if the system is multiuser. */
  function Change(recs: seq<Rec>, q: nat): int
    requires q < |recs|
  {
    if recs[q].kind == OldTime && Multi(recs, q) != 0 && q + 1 < |recs| then recs[q + 1].time - recs[q].time else 0
  }

  /** The changes from record q up to record end, or to the next boot if that is sooner. */
  function Later(recs: seq<Rec>, q: nat, end: nat): int
    requires end <= |recs|
    decreases end - q
  {
    if q >= end || recs[q].kind == BootTime then 0 else Change(recs, q) + Later(recs, q + 1, end)
  }

  /** What a record is to have added to its time: the changes after it and before the next boot. */
  function Adjustment(recs: seq<Rec>, p: nat): int {
    Later(recs, p + 1, |recs|)
  }

  /**
   The clock does not jump any more: from a record to the new time after the next change, what passes is
   what passed until the old time.
   */
  lemma ClockSteady(recs: seq<Rec>, p: nat, q: nat)
    requires p < q && q + 1 < |recs| && recs[q].kind == OldTime && recs[q + 1].kind == NewTime && Multi(recs, q) != 0
    requires forall k | p < k < q :: recs[k].kind != OldTime && recs[k].kind != BootTime
    ensures recs[q + 1].time + Adjustment(recs, q + 1) - (recs[p].time + Adjustment(recs, p)) ==
            recs[q].time - recs[p].time
  {
    NoChange(recs, p + 1, q);
    assert Later(recs, q, |recs|) == Change(recs, q) + Later(recs, q + 1, |recs|);
    assert Later(recs, q + 1, |recs|) == Change(recs, q + 1) + Later(recs, q + 2, |recs|);
  }

  lemma {:induction false} NoChange(recs: seq<Rec>, p: nat, q: nat)
    requires p <= q <= |recs| && forall k | p <= k < q :: recs[k].kind != OldTime && recs[k].kind != BootTime
    ensures Later(recs, p, |recs|) == Later(recs, q, |recs|)
    decreases q - p
  {
    if p < q { NoChange(recs, p + 1, q); }
  }

  /** Every old time is followed by a new time. */
  predicate Paired(recs: seq<Rec>) {
    forall q | 0 <= q < |recs| && recs[q].kind == OldTime :: q + 1 < |recs| && recs[q + 1].kind == NewTime
  }

  /** The last boot before record i, or 0. */
  function LastBoot(recs: seq<Rec>, i: nat): (b: nat)
    requires i <= |recs|
    ensures b < i || b == 0
    ensures forall k | b < k < i :: recs[k].kind != BootTime
    ensures b > 0 ==> recs[b].kind == BootTime
  {
    if i == 0 then 0 else if i - 1 > 0 && recs[i - 1].kind == BootTime then i - 1 else LastBoot(recs, i - 1)
  }

  // ----- intervals -----

  datatype Interval = Interval(off1: int, off2: int, adj: int)

  function Added(vals: seq<Interval>, p: int): int {
    if vals == [] then 0
    else Added(vals[..|vals| - 1], p) + (var v := vals[|vals| - 1]; if v.off1 <= p < v.off2 then v.adj else 0)
  }

  /** The intervals made from the first i records do for each of them what is to be done so far. */
  ghost predicate Does(vals: seq<Interval>, recs: seq<Rec>, i: nat) {
    && i <= |recs| && (forall p: nat | p < i :: Added(vals, p) == Later(recs, p + 1, i))
    && forall k | 0 <= k < |vals| :: vals[k].off2 < i || vals[k].adj == 0
  }

  lemma {:induction false} LaterMore(recs: seq<Rec>, q: nat, i: nat)
    requires i < |recs| && q <= i
    ensures Later(recs, q, i + 1)
         == Later(recs, q, i) + if (forall k | q <= k <= i :: recs[k].kind != BootTime) then Change(recs, i) else 0
    decreases i - q
  {
    if q < i && recs[q].kind != BootTime {
      LaterMore(recs, q + 1, i);
    }
  }

  /** The list after a record that is not a change. */
  lemma DoesSame(vals: seq<Interval>, recs: seq<Rec>, i: nat)
    requires Does(vals, recs, i) && i < |recs| && Change(recs, i) == 0
    ensures Does(vals, recs, i + 1)
  {
    forall p: nat | p < i + 1 ensures Added(vals, p) == Later(recs, p + 1, i + 1) {
      if p < i { LaterMore(recs, p + 1, i); } else { NoneAt(vals, p); }
    }
  }

  lemma {:induction false} NoneAt(vals: seq<Interval>, p: nat)
    requires forall k | 0 <= k < |vals| :: vals[k].off2 <= p || vals[k].adj == 0
    ensures Added(vals, p) == 0
    decreases |vals|
  {
    if vals != [] { NoneAt(vals[..|vals| - 1], p); }
  }

  /** A record before a change gains it if and only if no boot comes between. */
  lemma LaterChange(recs: seq<Rec>, p: nat, i: nat)
    requires p < i < |recs| && recs[i].kind == OldTime
    ensures Later(recs, p + 1, i + 1) == Later(recs, p + 1, i) + if LastBoot(recs, i) <= p then Change(recs, i) else 0
  {
    var b := LastBoot(recs, i);
    LaterMore(recs, p + 1, i);
    if p < b { assert recs[b].kind == BootTime; }
  }

  /** The list after a change: an interval from the last boot to it. */
  lemma DoesChange(vals: seq<Interval>, recs: seq<Rec>, i: nat)
    requires Does(vals, recs, i) && i < |recs| && recs[i].kind == OldTime
    ensures Does(vals + [Interval(LastBoot(recs, i), i, Change(recs, i))], recs, i + 1)
  {
    hide Change, LastBoot;
    var v := Interval(LastBoot(recs, i), i, Change(recs, i));
    var r := vals + [v];
    assert r[..|vals|] == vals;
    forall p: nat | p < i + 1 ensures Added(r, p) == Later(recs, p + 1, i + 1) {
      assert Added(r, p) == Added(vals, p) + if v.off1 <= p < v.off2 then v.adj else 0;
      if p < i { LaterChange(recs, p, i); } else { NoneAt(vals, p); }
    }
  }

  // ----- the list -----

  class Dtab {
    var off1: int
    var off2: int
    var adj: int
    var ndp: Dtab?

    constructor (off1: int)
      ensures this.off1 == off1 && off2 == 0 && adj == 0 && ndp == null
    {
      this.off1, off2, adj, ndp := off1, 0, 0, null;
    }
  }

  class Fixer {
    var Fdp: Dtab?
    var Ldp: Dtab?
    var recno: nat
    var multimode: nat
    ghost var nodes: seq<Dtab>
    ghost var vals: seq<Interval>

    /** The nodes from Fdp to Ldp hold the intervals, and the last one is still open. */
    ghost predicate Valid()
      reads this, nodes
    {
      && |nodes| == |vals| && (forall j, k | 0 <= j < k < |nodes| :: nodes[j] != nodes[k])
      && (if nodes == [] then Fdp == null && Ldp == null
          else Fdp == nodes[0] && Ldp == nodes[|nodes| - 1] && vals[|nodes| - 1].adj == 0)
      && (forall k | 0 <= k < |nodes| :: Interval(nodes[k].off1, nodes[k].off2, nodes[k].adj) == vals[k])
      && (forall k | 0 < k < |nodes| :: nodes[k - 1].ndp == nodes[k])
      && (nodes != [] ==> nodes[|nodes| - 1].ndp == null)
    }

    constructor ()
      ensures Valid() && nodes == [] && vals == [] && recno == 0 && multimode == 0
    {
      Fdp, Ldp, recno, multimode, nodes, vals := null, null, 0, 0, [], [];
    }

    /** The open interval begins at p. */
    method Mkdtab(p: int)
      requires Valid()
      modifies this`Fdp, this`Ldp, this`nodes, this`vals, Ldp
      ensures Valid() && (Ldp == old(Ldp) || fresh(Ldp))
      ensures old(nodes) == [] ==> vals == [Interval(p, 0, 0)]
      ensures old(nodes) != [] ==>
                nodes == old(nodes) && vals == old(vals)[|old(vals)| - 1 := old(vals)[|old(vals)| - 1].(off1 := p)]
    {
      var dp := Ldp;
      if dp == null {
        dp := new Dtab(p);
        Fdp, Ldp := dp, dp;
        nodes, vals := [dp], [Interval(p, 0, 0)];
      }
      dp.off1 := p;
      vals := vals[|vals| - 1 := vals[|vals| - 1].(off1 := p)];
    }

    /** The open interval ends at p with the change from w1 to w2, and another one is open from where it began. */
    method Setdtab(p: int, w1: int, w2: int)
      requires Valid() && nodes != []
      modifies this`Ldp, this`nodes, this`vals, Ldp
      ensures Valid() && (Ldp == old(Ldp) || fresh(Ldp))
      ensures var last := old(vals)[|old(vals)| - 1];
              vals == old(vals)[..|old(vals)| - 1] + [Interval(last.off1, p, w2 - w1), Interval(last.off1, 0, 0)]
    {
      var dp := Ldp;
      dp.off2 := p;
      dp.adj := w2 - w1;
      Ldp := new Dtab(dp.off1);
      dp.ndp := Ldp;
      ghost var n := |vals| - 1;
      nodes, vals := nodes + [Ldp], vals[..n] + [Interval(dp.off1, p, w2 - w1), Interval(dp.off1, 0, 0)];
    }

    /** The changes of all intervals p is in are added to the time. */
    method Adjust(p: int, time0: int) returns (time: int)
      requires Valid()
      ensures time == time0 + Added(vals, p)
    {
      time := time0;
      var dp := Fdp;
      ghost var k := 0;
      while dp != null
        invariant k <= |nodes| && dp == (if k < |nodes| then nodes[k] else null)
        invariant time == time0 + Added(vals[..k], p)
        decreases |nodes| - k
      {
        assert vals[..k + 1][..k] == vals[..k];
        if dp.adj != 0 && dp.off1 <= p < dp.off2 {
          time := time + dp.adj;
        }
        assert k + 1 < |nodes| ==> nodes[k + 1 - 1].ndp == nodes[k + 1];
        dp := dp.ndp;
        k := k + 1;
      }
      assert vals[..k] == vals;
    }

    /**
     The first i records have gone through: the closed intervals do what is due, the open one begins at the
     last boot.
     */
    ghost predicate Scanned(recs: seq<Rec>, i: nat)
      reads this, nodes
    {
      && Valid() && i <= |recs| && recno == i && multimode == Multi(recs, i)
      && if i == 0 then vals == []
         else vals != [] && Does(Closed(), recs, i) && vals[|vals| - 1] == Interval(LastBoot(recs, i), 0, 0)
    }

    ghost function Closed(): seq<Interval>
      reads this
      requires vals != []
    {
      vals[..|vals| - 1]
    }

    /** The list before a record is looked at: a new interval begins with the first record and with each boot. */
    method Boot(kind: Type, ghost recs: seq<Rec>)
      requires Scanned(recs, recno) && recno < |recs| && recs[recno].kind == kind
      modifies this`Fdp, this`Ldp, this`nodes, this`vals, Ldp
      ensures Ldp == old(Ldp) || fresh(Ldp)
      ensures Valid() && vals != [] && Does(Closed(), recs, recno) &&
              vals[|vals| - 1] == Interval(LastBoot(recs, recno + 1), 0, 0)
    {
      if recno == 0 || kind == BootTime {
        Mkdtab(recno);
      }
    }

    /** The list is ready for record i, which comes next: only its own part is missing. */
    ghost predicate Ready(recs: seq<Rec>, i: nat)
      reads this, nodes
    {
      && Valid() && i < |recs| && recno == i && multimode == Multi(recs, i)
      && vals != [] && Does(Closed(), recs, i) && vals[|vals| - 1] == Interval(LastBoot(recs, i + 1), 0, 0)
    }

    /** A record that does not change the clock. */
    method Pass(kind: Type, ghost recs: seq<Rec>)
      requires Ready(recs, recno) && recs[recno].kind == kind && kind != OldTime
      modifies this`recno, this`multimode
      ensures recno == old(recno) + 1 && Scanned(recs, recno)
    {
      hide Later, Does, LastBoot;
      DoesSame(Closed(), recs, recno);
      if kind == RunLevelS { multimode := 0; }
      if kind == RunLevel2 { multimode := multimode + 1; }
      recno := recno + 1;
    }

    /** A change of the clock, which is two records. */
    method Shift(w1: int, w2: int, ghost recs: seq<Rec>)
      requires Ready(recs, recno) && recs[recno] == Rec(OldTime, w1)
      requires recno + 1 < |recs| && recs[recno + 1] == Rec(NewTime, w2)
      modifies this, Ldp
      ensures recno == old(recno) + 2 && Scanned(recs, recno) && (Ldp == old(Ldp) || fresh(Ldp))
    {
      hide Later, Does;
      NoBoot(recs, recno);
      ghost var i, closed := recno, Closed();
      DoesPair(closed, recs, i);
      if multimode != 0 {
        Setdtab(recno, w1, w2);
        assert Closed() == closed + [Interval(LastBoot(recs, i), i, Change(recs, i))];
      }
      recno := recno + 2;
    }

    /** One record, or an old time and the new time after it; false if that is missing. */
    method ScanOne(file: seq<Rec>, j: nat, ghost recs: seq<Rec>, ghost base: nat) returns (ok: bool, next: nat)
      requires j < |file| && base + |file| <= |recs| && recs[base..base + |file|] == file && Scanned(recs, base + j)
      modifies this, Ldp
      ensures ok <==> (file[j].kind == OldTime ==> j + 1 < |file| && file[j + 1].kind == NewTime)
      ensures Ldp == old(Ldp) || fresh(Ldp)
      ensures ok ==>
                && Scanned(recs, base + next) && j < next <= |file|
                && next == j + if file[j].kind == OldTime then 2 else 1
    {
      hide Scanned, Ready;
      var r := file[j];
      assert recs[base + j] == r && (j + 1 < |file| ==> recs[base + j + 1] == file[j + 1]);
      Begin(r.kind, recs, base + j);
      ok, next := true, j + 1;
      if r.kind != OldTime {
        Pass(r.kind, recs);
        return;
      }
      if j + 1 >= |file| || file[j + 1].kind != NewTime { return false, next; }
      Shift(r.time, file[j + 1].time, recs);
      next := j + 2;
    }

    /** scanfile: the records of a file are taken in and go to the temporary file. */
    method ScanFile(file: seq<Rec>, ghost recs: seq<Rec>, ghost base: nat) returns (ok: bool, tmp: seq<Rec>)
      requires base + |file| <= |recs| && recs[base..base + |file|] == file && Scanned(recs, base)
      modifies this, Ldp
      ensures Ldp == old(Ldp) || fresh(Ldp)
      ensures ok <==> Paired(file)
      ensures ok ==> Scanned(recs, base + |file|) && tmp == file
    {
      hide Scanned;
      var j := 0;
      tmp := [];
      while j < |file|
        invariant j <= |file| && Scanned(recs, base + j) && tmp == file[..j] && (Ldp == old(Ldp) || fresh(Ldp))
        invariant forall q | 0 <= q < j && file[q].kind == OldTime :: q + 1 < |file| && file[q + 1].kind == NewTime
      {
        var next;
        ok, next := ScanOne(file, j, recs, base);
        if !ok { return; }
        tmp := tmp + file[j..next];
        j := next;
      }
      ok := true;
    }

    /** The second pass: each record of the temporary file gains what its offset is due. */
    method AdjustAll(tmp: seq<Rec>) returns (out: seq<Rec>)
      requires Valid()
      ensures |out| == |tmp| && forall p | 0 <= p < |tmp| :: out[p] == tmp[p].(time := tmp[p].time + Added(vals, p))
    {
      out := [];
      for p := 0 to |tmp|
        invariant |out| == p && forall k | 0 <= k < p :: out[k] == tmp[k].(time := tmp[k].time + Added(vals, k))
      {
        var time := Adjust(p, tmp[p].time);
        out := out + [tmp[p].(time := time)];
      }
    }

    method SecondPass(tmp: seq<Rec>) returns (out: seq<Rec>)
      requires Scanned(tmp, |tmp|)
      ensures |out| == |tmp| && forall p | 0 <= p < |tmp| :: out[p] == tmp[p].(time := tmp[p].time + Adjustment(tmp, p))
    {
      out := AdjustAll(tmp);
      forall p | 0 <= p < |tmp| ensures Added(vals, p) == Adjustment(tmp, p) { OpenAddsNothing(vals, p); }
    }

    method Begin(kind: Type, ghost recs: seq<Rec>, ghost i: nat)
      requires Scanned(recs, i) && i < |recs| && recs[i].kind == kind
      modifies this`Fdp, this`Ldp, this`nodes, this`vals, Ldp
      ensures Ready(recs, i) && recno == i && (Ldp == old(Ldp) || fresh(Ldp))
    {
      Boot(kind, recs);
    }
  }

  lemma NoBoot(recs: seq<Rec>, i: nat)
    requires i + 1 < |recs| && recs[i].kind == OldTime && recs[i + 1].kind == NewTime
    ensures LastBoot(recs, i + 1) == LastBoot(recs, i) && LastBoot(recs, i + 2) == LastBoot(recs, i)
    ensures Multi(recs, i + 2) == Multi(recs, i)
    ensures Change(recs, i) == if Multi(recs, i) != 0 then recs[i + 1].time - recs[i].time else 0
  {
  }

  /** The list after the two records of a change. */
  lemma DoesPair(vals: seq<Interval>, recs: seq<Rec>, i: nat)
    requires Does(vals, recs, i) && i + 1 < |recs| && recs[i].kind == OldTime && recs[i + 1].kind == NewTime
    ensures Multi(recs, i) != 0 ==> Does(vals + [Interval(LastBoot(recs, i), i, Change(recs, i))], recs, i + 2)
    ensures Multi(recs, i) == 0 ==> Does(vals, recs, i + 2)
  {
    hide Does, Later;
    if Multi(recs, i) != 0 {
      DoesChange(vals, recs, i);
      DoesSame(vals + [Interval(LastBoot(recs, i), i, Change(recs, i))], recs, i + 1);
    } else {
      DoesSame(vals, recs, i);
      DoesSame(vals, recs, i + 1);
    }
  }

  function Concat(files: seq<seq<Rec>>): seq<Rec> {
    if files == [] then [] else Concat(files[..|files| - 1]) + files[|files| - 1]
  }

  lemma {:induction false} ConcatPart(files: seq<seq<Rec>>, k: nat)
    requires k < |files|
    ensures var b := |Concat(files[..k])|;
            b + |files[k]| <= |Concat(files)| && Concat(files)[b..b + |files[k]|] == files[k] &&
                |Concat(files[..k + 1])| == b + |files[k]|
    decreases |files|
  {
    var n := |files| - 1;
    assert files[..k + 1][..k] == files[..k];
    if k < n {
      assert files[..n][..k] == files[..k] && files[..n][..k + 1] == files[..k + 1];
      ConcatPart(files[..n], k);
    } else {
      assert files[..k + 1] == files;
    }
  }

  /** An open interval adds nothing. */
  lemma OpenAddsNothing(vals: seq<Interval>, p: nat)
    requires vals != [] && vals[|vals| - 1].adj == 0
    ensures Added(vals, p) == Added(vals[..|vals| - 1], p)
  {
  }

  /**
   Both passes: if every old time has its new time, each record has added to its time the changes
   of the clock that follow it, made while the system was multiuser, up to the next boot.
   */
  method Fix(files: seq<seq<Rec>>) returns (ok: bool, out: seq<Rec>)
    ensures ok <==> forall k | 0 <= k < |files| :: Paired(files[k])
    ensures ok ==> var recs := Concat(files);
                   |out| == |recs| &&
                   forall p | 0 <= p < |recs| :: out[p] == recs[p].(time := recs[p].time + Adjustment(recs, p))
  {
    var fixer := new Fixer();
    assert fixer.Scanned(Concat(files), 0);
    hide Fixer.Scanned, Adjustment;
    ghost var recs := Concat(files);
    var tmp := [];
    out := [];
    for k := 0 to |files|
      invariant fresh(fixer) && (fixer.Ldp != null ==> fresh(fixer.Ldp))
      invariant tmp == Concat(files[..k]) && |tmp| <= |recs| && fixer.Scanned(recs, |tmp|)
      invariant forall i | 0 <= i < k :: Paired(files[i])
    {
      ConcatPart(files, k);
      assert files[..k + 1][..k] == files[..k];
      var part;
      ok, part := fixer.ScanFile(files[k], recs, |tmp|);
      if !ok { return; }
      tmp := tmp + part;
    }
    assert files[..|files|] == files;
    out := fixer.SecondPass(tmp);
    ok := true;
  }
}
