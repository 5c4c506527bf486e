/**
 The work of uucico (usr/src/cmd/bnu/anlwrk.c): the list of work files found, kept sorted in
 fixed arrays, and the reading of a work file with a bookmark that survives a crash.
 */
module Anlwrk {
  import Strings

  // ----- the sorted list -----

  const LLEN: nat := 50

  predicate AtMost(a: string, b: string) {
    !Strings.Less(b, a)
  }

  predicate Sorted(s: seq<string>) {
    forall i, j | 0 <= i < j < |s| :: AtMost(s[i], s[j])
  }

  /** Where x goes: after all that are less. */
  function Place(s: seq<string>, x: string): (i: nat)
    ensures i <= |s| && (i > 0 ==> Strings.Less(s[i - 1], x)) && forall k | i <= k < |s| :: AtMost(x, s[k])
  {
    if s == [] || Strings.Less(s[|s| - 1], x) then |s| else Place(s[..|s| - 1], x)
  }

  /** x in its place, and the last of more than LLEN left out. */
  function Inserted(s: seq<string>, x: string): (r: seq<string>)
    requires |s| <= LLEN
    ensures |r| == if |s| < LLEN then |s| + 1 else LLEN
  {
    var i := Place(s, x);
    if |s| < LLEN then s[..i] + [x] + s[i..] else if i == LLEN then s else s[..i] + [x] + s[i..LLEN - 1]
  }

  function InsertedAll(xs: seq<string>): (r: seq<string>)
    ensures |r| == if |xs| < LLEN then |xs| else LLEN
  {
    if xs == [] then [] else Inserted(InsertedAll(xs[..|xs| - 1]), xs[|xs| - 1])
  }

  lemma PlaceSorted(s: seq<string>, x: string)
    requires Sorted(s)
    ensures forall k | 0 <= k < Place(s, x) :: AtMost(s[k], x)
  {
    var i := Place(s, x);
    forall k | 0 <= k < i ensures AtMost(s[k], x) {
      Strings.Order(s[i - 1], x, s[k]);
      Strings.Order(x, s[k], s[i - 1]);
      if k < i - 1 { assert AtMost(s[k], s[i - 1]); }
    }
  }

  /** r has the least of all that were inserted, and d the others. */
  ghost predicate Least(r: seq<string>, d: multiset<string>, xs: seq<string>) {
    Sorted(r) && multiset(xs) == multiset(r) + d && forall a, b | a in r && b in d :: AtMost(a, b)
  }

  lemma Chain(a: string, b: string, c: string)
    ensures AtMost(a, a) && (AtMost(a, b) && AtMost(b, c) ==> AtMost(a, c))
  {
    Strings.Order(a, b, c);
    Strings.Order(c, a, b);
    Strings.Order(b, c, a);
  }

  lemma InsertedSorted(s: seq<string>, x: string)
    requires |s| <= LLEN && Sorted(s)
    ensures Sorted(Inserted(s, x))
  {
    hide Strings.Less;
    PlaceSorted(s, x);
  }

  /** A name that goes in while there is room, or after all others, or before the last, which then goes out. */
  lemma RoomLeast(r: seq<string>, xs: seq<string>, x: string)
    requires |r| < LLEN && Least(r, multiset{}, xs)
    ensures Least(Inserted(r, x), multiset{}, xs + [x])
  {
    hide AtMost, Place;
    InsertedSorted(r, x);
    var i := Place(r, x);
    assert r == r[..i] + r[i..];
    assert multiset(xs + [x]) == multiset(xs) + multiset{x};
    assert multiset(Inserted(r, x)) == multiset(r[..i]) + multiset{x} + multiset(r[i..]);
  }

  lemma OutLeast(r: seq<string>, d: multiset<string>, xs: seq<string>, x: string)
    requires |r| == LLEN && Least(r, d, xs) && Place(r, x) == LLEN
    ensures Least(Inserted(r, x), d + multiset{x}, xs + [x])
  {
    PlaceSorted(r, x);
    hide AtMost, Place;
    assert multiset(xs + [x]) == multiset(xs) + multiset{x};
  }

  lemma SpillLeast(r: seq<string>, d: multiset<string>, xs: seq<string>, x: string)
    requires |r| == LLEN && Least(r, d, xs) && Place(r, x) < LLEN
    ensures Least(Inserted(r, x), d + multiset{r[LLEN - 1]}, xs + [x])
  {
    InsertedSorted(r, x);
    Spilled(r, d, x);
    hide AtMost, Place;
    SpillCount(r, x);
    var m, last := multiset(Inserted(r, x)), multiset{r[LLEN - 1]};
    assert multiset(xs + [x]) == multiset(r) + d + multiset{x} == m + last + d == m + (d + last);
  }

  lemma SpillCount(r: seq<string>, x: string)
    requires |r| == LLEN && Place(r, x) < LLEN
    ensures multiset(r) + multiset{x} == multiset(Inserted(r, x)) + multiset{r[LLEN - 1]}
  {
    hide AtMost, Place;
    var i, last := Place(r, x), r[LLEN - 1];
    assert r == r[..i] + (r[i..LLEN - 1] + [last]);
    assert multiset(Inserted(r, x)) == multiset(r[..i]) + multiset{x} + multiset(r[i..LLEN - 1]);
  }

  lemma InsertedMember(r: seq<string>, x: string, a: string)
    requires |r| <= LLEN && a in Inserted(r, x)
    ensures a == x || a in r
  {
  }

  /** What spills over when x is put in is not less than what stays. */
  lemma Spilled(r: seq<string>, d: multiset<string>, x: string)
    requires |r| == LLEN && Sorted(r) && Place(r, x) < LLEN && forall a, b | a in r && b in d :: AtMost(a, b)
    ensures forall a, b | a in Inserted(r, x) && b in d + multiset{r[LLEN - 1]} :: AtMost(a, b)
  {
    hide AtMost, Inserted;
    var last := r[LLEN - 1];
    forall a, b | a in Inserted(r, x) && b in d + multiset{last} ensures AtMost(a, b) {
      InsertedMember(r, x, a);
      LastGreatest(r, a, x);
      Chain(a, last, b);
      Chain(last, last, last);
    }
  }

  lemma LastGreatest(r: seq<string>, a: string, x: string)
    requires |r| == LLEN && Sorted(r) && Place(r, x) < LLEN && (a == x || a in r)
    ensures AtMost(a, r[LLEN - 1])
  {
    Chain(a, a, a);
    assert AtMost(x, r[LLEN - 1]);
  }

  lemma LeastNone()
    ensures Least([], multiset{}, [])
  {
  }

  /** After any names, the list has the LLEN least of them, in order; fewer only if there were fewer. */
  lemma {:induction false} KeepsLeast(xs: seq<string>) returns (d: multiset<string>)
    ensures Least(InsertedAll(xs), d, xs) && (|xs| <= LLEN ==> d == multiset{})
    decreases |xs|
  {
    hide Least, Inserted, Place;
    if xs == [] {
      d := multiset{};
      LeastNone();
    } else {
      var n := |xs| - 1;
      var r, x := InsertedAll(xs[..n]), xs[n];
      d := KeepsLeast(xs[..n]);
      assert xs == xs[..n] + [x];
      if |r| < LLEN {
        RoomLeast(r, xs[..n], x);
      } else if Place(r, x) == LLEN {
        OutLeast(r, d, xs[..n], x);
        d := d + multiset{x};
      } else {
        SpillLeast(r, d, xs[..n], x);
        d := d + multiset{r[LLEN - 1]};
      }
    }
  }

  /** A full list with the place at its end stays; otherwise x goes in between what is kept. */
  lemma InsertedIs(s: seq<string>, x: string, i: nat, t: seq<string>)
    requires |s| <= LLEN && i == Place(s, x) && t == s[..if |s| < LLEN then |s| else LLEN - 1]
    ensures i == LLEN ==> Inserted(s, x) == s
    ensures i < LLEN ==> i <= |t| && Inserted(s, x) == t[..i] + [x] + t[i..]
  {
    assert s[..|s|] == s;
  }

  class WorkList {
    const Filent: array<string>
    const Fptr: array<nat>
    var Nfiles: nat

    constructor ()
      ensures Valid() && Names() == [] && fresh(Filent) && fresh(Fptr)
    {
      Filent := new string[LLEN](_ => "");
      Fptr := new nat[LLEN](_ => 0);
      Nfiles := 0;
    }

    /** The first n pointers are to slots below limit, each to another one. */
    ghost predicate Slots(n: nat, limit: nat)
      reads Fptr
    {
      && Filent.Length == LLEN && Fptr.Length == LLEN && n <= limit <= LLEN
      && (forall k | 0 <= k < n :: Fptr[k] < limit) && (forall j, k | 0 <= j < k < n :: Fptr[j] != Fptr[k])
    }

    /** The pointers are to the first Nfiles slots, each to another one. */
    ghost predicate Valid()
      reads this, Fptr
    {
      Slots(Nfiles, Nfiles)
    }

    ghost function Names(): (r: seq<string>)
      requires Valid()
      reads this, Filent, Fptr
      ensures |r| == Nfiles
    {
      First(Nfiles, Nfiles)
    }

    /** The names the first n pointers lead to. */
    ghost function First(n: nat, limit: nat): (r: seq<string>)
      requires Slots(n, limit)
      reads Filent, Fptr
      ensures |r| == n && forall k | 0 <= k < n :: r[k] == Filent[Fptr[k]]
    {
      seq(n, k requires 0 <= k < n && Slots(n, limit) reads Filent, Fptr => Filent[Fptr[k]])
    }

    /** The place for a name, from the end on. */
    method FindPlace(file: string) returns (i: nat)
      requires Valid()
      ensures i == Place(Names(), file)
    {
      hide Strings.Less;
      i := Nfiles;
      ghost var s := Names();
      assert s[..i] == s;
      while i > 0 && !Strings.Less(Filent[Fptr[i - 1]], file)
        invariant i <= Nfiles && Place(s, file) == Place(s[..i], file)
      {
        assert s[..i][..i - 1] == s[..i - 1];
        i := i - 1;
      }
    }

    /** Pointers from i on move up to make a hole. */
    method MakeHole(n: nat, i: nat)
      requires Fptr.Length == LLEN && i <= n < LLEN
      modifies Fptr
      ensures forall k | 0 <= k < i :: Fptr[k] == old(Fptr[k])
      ensures forall k | i < k <= n :: Fptr[k] == old(Fptr[k - 1])
    {
      var j := n;
      while j > i
        invariant i <= j <= n
        invariant forall k | 0 <= k <= j :: Fptr[k] == old(Fptr[k])
        invariant forall k | j < k <= n :: Fptr[k] == old(Fptr[k - 1])
      {
        Fptr[j] := Fptr[j - 1];
        j := j - 1;
      }
    }

    /** A name in slot p, which no pointer leads to, goes in at i. */
    method PutIn(file: string, p: nat, n: nat, i: nat)
      requires Slots(n, n + 1) && i <= n < LLEN && p <= n && forall k | 0 <= k < n :: Fptr[k] != p
      modifies Filent, Fptr
      ensures Slots(n + 1, n + 1)
      ensures var s := old(First(n, n + 1)); First(n + 1, n + 1) == s[..i] + [file] + s[i..]
    {
      ghost var s := First(n, n + 1);
      Filent[p] := file;
      assert First(n, n + 1) == s;
      MakeHole(n, i);
      Fptr[i] := p;
      var r := s[..i] + [file] + s[i..];
      forall k | 0 <= k < n + 1 ensures Fptr[k] <= n && Filent[Fptr[k]] == r[k] {
        if k > i { assert Fptr[k] == old(Fptr[k - 1]); }
      }
      Apart(n, i, old(Fptr[..n]), p);
      assert First(n + 1, n + 1) == r;
    }

    lemma Apart(n: nat, i: nat, f: seq<nat>, p: nat)
      requires Fptr.Length == LLEN && i <= n < LLEN && |f| == n && p !in f && Fptr[i] == p
      requires (forall k | 0 <= k < i :: Fptr[k] == f[k]) && forall k | i < k <= n :: Fptr[k] == f[k - 1]
      requires forall j, k | 0 <= j < k < n :: f[j] != f[k]
      ensures forall j, k | 0 <= j < k < n + 1 :: Fptr[j] != Fptr[k]
    {
    }

    /** The slot a new name goes to: a free one, or that of the name that is dropped. */
    method TakeSlot() returns (p: nat)
      requires Valid()
      modifies this`Nfiles
      ensures Nfiles < LLEN && Slots(Nfiles, Nfiles + 1) && p <= Nfiles && forall k | 0 <= k < Nfiles :: Fptr[k] != p
      ensures var s := old(Names()); First(Nfiles, Nfiles + 1) == s[..if |s| < LLEN then |s| else LLEN - 1]
    {
      ghost var s := Names();
      if Nfiles == LLEN {
        Nfiles := Nfiles - 1;
        p := Fptr[Nfiles];
      } else {
        p := Nfiles;
      }
      assert First(Nfiles, Nfiles + 1) == s[..Nfiles];
    }

    method PutLast(file: string, p: nat, i: nat, ghost t: seq<string>)
      requires Slots(Nfiles, Nfiles + 1) && i <= Nfiles < LLEN && p <= Nfiles &&
               forall k | 0 <= k < Nfiles :: Fptr[k] != p
      requires First(Nfiles, Nfiles + 1) == t
      modifies this`Nfiles, Filent, Fptr
      ensures Valid() && |t| == old(Nfiles) && Names() == t[..i] + [file] + t[i..]
    {
      PutIn(file, p, Nfiles, i);
      Nfiles := Nfiles + 1;
    }

    /** insert. */
    method Insert(file: string)
      requires Valid()
      modifies this`Nfiles, Filent, Fptr
      ensures Valid() && Names() == Inserted(old(Names()), file)
    {
      ghost var s := Names();
      ghost var t := s[..if |s| < LLEN then |s| else LLEN - 1];
      var i := FindPlace(file);
      InsertedIs(s, file, i, t);
      hide Place, Inserted, Strings.Less;
      if i < LLEN {
        var p := TakeSlot();
        PutLast(file, p, i, t);
      }
    }
  }
}
