/**
 bfs keeps no copy of the file it scans, only the length of each line and where every 64th line
 begins (usr/src/cmd/bfs/bfs.c). A line is found from the one read last, or from the nearest
 recorded beginning, and read through a cache of one block.
 */
module Bfs {
  // ----- the lines of a file -----

  const NL: char := '\n'

  /** Where the line that begins at p ends: after its newline, or at the end of the file. */
  function LineEnd(file: string, p: nat): (r: nat)
    requires p <= |file|
    ensures p <= r <= |file| && (p < |file| ==> p < r)
    decreases |file| - p
  {
    if p == |file| then p else if file[p] == NL then p + 1 else LineEnd(file, p + 1)
  }

  lemma LineEndShape(file: string, p: nat)
    requires p <= |file|
    ensures forall k | p <= k < LineEnd(file, p) - 1 :: file[k] != NL
    ensures LineEnd(file, p) < |file| ==> file[LineEnd(file, p) - 1] == NL
    decreases |file| - p
  {
    if p < |file| && file[p] != NL { LineEndShape(file, p + 1); }
  }

  /** Where line n ends; lines are numbered from 1. */
  function Offset(file: string, n: nat): (r: nat)
    ensures r <= |file|
  {
    if n == 0 then 0 else LineEnd(file, Offset(file, n - 1))
  }

  /** There is a line n. */
  predicate HasLine(file: string, n: nat) {
    n >= 1 && Offset(file, n - 1) < |file|
  }

  function Length(file: string, n: nat): nat
    requires n >= 1
    ensures Offset(file, n) == Offset(file, n - 1) + Length(file, n)
  {
    Offset(file, n) - Offset(file, n - 1)
  }

  /** Line n without its newline. */
  function Line(file: string, n: nat): string
    requires HasLine(file, n)
  {
    var from, to := Offset(file, n - 1), Offset(file, n);
    if file[to - 1] == NL then file[from..to - 1] else file[from..to]
  }

  predicate Terminated(file: string, n: nat)
    requires HasLine(file, n)
  {
    file[Offset(file, n) - 1] == NL
  }

  lemma {:induction false} LinesUpTo(file: string, m: nat, n: nat)
    requires m <= n
    ensures Offset(file, m) <= Offset(file, n) && (HasLine(file, n) && m >= 1 ==> HasLine(file, m))
    decreases n - m
  {
    if m < n { LinesUpTo(file, m, n - 1); }
  }

  lemma LineEndIs(file: string, p: nat, q: nat)
    requires p < q <= |file| && (forall k | p <= k < q - 1 :: file[k] != NL) && (q == |file| || file[q - 1] == NL)
    ensures LineEnd(file, p) == q
    decreases q - p
  {
    if p + 1 < q { LineEndIs(file, p + 1, q); }
  }

  const MAXLINES: nat := 32767
  const SHORTMAX: nat := 32767

  /** What a count becomes when it is stored in 16 bits. */
  function Short(n: nat): int {
    (n + 32768) % 65536 - 32768
  }

  /** The stored lengths of lines from up to but not including end. */
  function StoredSum(file: string, from: nat, end: nat): int
    requires from >= 1
    decreases end - from
  {
    if from >= end then 0 else Short(Length(file, from)) + StoredSum(file, from + 1, end)
  }

  /** No line from up to but not including end is too long for its length to be stored. */
  predicate NoneLong(file: string, from: nat, end: nat)
    requires from >= 1
  {
    forall n: nat | from <= n < end :: Length(file, n) <= SHORTMAX
  }

  /** The stored lengths lead to the right place if and only if none of the lines is too long. */
  lemma {:induction false} StoredRight(file: string, from: nat, end: nat)
    requires 1 <= from <= end
    ensures StoredSum(file, from, end) <= Offset(file, end - 1) - Offset(file, from - 1)
    ensures StoredSum(file, from, end) == Offset(file, end - 1) - Offset(file, from - 1) <==> NoneLong(file, from, end)
    decreases end - from
  {
    if from < end {
      StoredRight(file, from + 1, end);
      ShortIs(Length(file, from));
      assert Length(file, from) == Offset(file, from) - Offset(file, from - 1);
      assert NoneLong(file, from, end) <==> Length(file, from) <= SHORTMAX && NoneLong(file, from + 1, end);
    }
  }

  lemma ShortIs(n: nat)
    ensures Short(n) <= n && (Short(n) == n <==> n <= SHORTMAX)
  {
  }

  lemma StoredOne(file: string, n: nat)
    requires n >= 1
    ensures StoredSum(file, n, n + 1) == Short(Length(file, n))
  {
    assert StoredSum(file, n + 1, n + 1) == 0;
  }

  lemma {:induction false} StoredSnoc(file: string, from: nat, end: nat)
    requires 1 <= from <= end
    ensures StoredSum(file, from, end + 1) == StoredSum(file, from, end) + Short(Length(file, end))
    decreases end - from
  {
    if from < end { StoredSnoc(file, from + 1, end); }
  }

  class Bfs {
    const file: string
    var pos: nat
    var lincnt: seq<int>
    const segblk: array<nat>
    const segoff: array<nat>
    var Dollar: nat
    var prevblk: int
    var prevoff: int
    var lprev: int
    var saveblk: int
    const savetxt: array<char>

    constructor (file: string)
      ensures this.file == file && pos == 0 && Arrays() && fresh(segblk) && fresh(segoff) && fresh(savetxt)
      ensures prevblk == prevoff == 0 && lprev == 1 && saveblk == -1
    {
      this.file := file;
      pos, Dollar, lincnt := 0, 0, [];
      prevblk, prevoff, lprev, saveblk := 0, 0, 1, -1;
      segblk := new nat[512];
      segoff := new nat[512];
      savetxt := new char[512];
    }

    ghost predicate Arrays() {
      segblk.Length == 512 && segoff.Length == 512 && savetxt.Length == 512 && segblk != segoff
    }

    /** The first seg recorded beginnings are those of lines 1, 65, ... */
    ghost predicate Segments(seg: nat)
      requires Arrays()
      reads segblk, segoff
    {
      seg <= 512 && forall k | 0 <= k < seg :: 512 * segblk[k] + segoff[k] == Offset(file, 64 * k) && segoff[k] < 512
    }

    /** The lengths of lines 1 to n are recorded, each in 16 bits. */
    ghost predicate Lengths(n: nat)
      reads this`lincnt
    {
      n < |lincnt| && forall k | 1 <= k <= n :: lincnt[k] == Short(Length(file, k))
    }

    /** How many beginnings are recorded when l lines have begun. */
    function Segs(l: nat): nat {
      (l + 63) / 64
    }

    /** bigopen has gone through the file up to p: l lines have begun, cnt characters of the last one are behind. */
    ghost predicate Scanned(p: nat, l: nat, cnt: nat, newline: bool)
      requires Arrays()
      reads this`lincnt, segblk, segoff
    {
      && p <= |file| && l <= MAXLINES && |lincnt| == l && Segments(Segs(l))
      && (forall k | 1 <= k < l :: lincnt[k] == Short(Length(file, k)))
      && if l == 0 then p == 0 && newline && cnt == 0
         else
           && Offset(file, l - 1) < p && cnt == p - Offset(file, l - 1)
           && (forall k | Offset(file, l - 1) <= k < p - 1 :: file[k] != NL)
           && newline == (file[p - 1] == NL)
    }

    /** A line begins at p when the one before it has ended there. */
    lemma LineBegins(p: nat, l: nat, cnt: nat)
      requires Arrays() && Scanned(p, l, cnt, true) && p < |file|
      ensures Offset(file, l) == p && (l > 0 ==> cnt == Length(file, l)) && HasLine(file, l + 1)
    {
      if l > 0 { LineEndIs(file, Offset(file, l - 1), p); }
    }

    /** The checkpoint for the segment that begins here. */
    method Record(s: nat, blk: nat, off: nat)
      requires Arrays() && Segments(s) && s < 512 && off < 512 && 512 * blk + off == Offset(file, 64 * s)
      modifies segblk, segoff
      ensures Segments(s + 1)
    {
      segblk[s] := blk;
      segoff[s] := off;
    }

    method BeginLine(blk: nat, off: nat, l: nat, cnt: nat)
      requires Arrays() && Scanned(512 * blk + off, l, cnt, true) && 512 * blk + off < |file| && off < 512
      modifies this`lincnt, segblk, segoff
      ensures Offset(file, l) == 512 * blk + off && |lincnt| == l + 1 && Segments(Segs(l + 1))
      ensures forall k | 1 <= k <= l :: lincnt[k] == Short(Length(file, k))
    {
      LineBegins(512 * blk + off, l, cnt);
      lincnt := lincnt + [Short(cnt)];
      if l % 64 == 0 {
        Record(l / 64, blk, off);
      }
    }

    /** The body of the inner loop, for the character at p in block blk. */
    method ScanOne(c: char, blk: nat, off: nat, l: nat, cnt: nat, newline: bool)
        returns (ok: bool, l': nat, cnt': nat, newline': bool)
      requires Arrays() && Scanned(512 * blk + off, l, cnt, newline) && 512 * blk + off < |file| && off < 512 &&
               c == file[512 * blk + off]
      modifies this`lincnt, segblk, segoff
      ensures ok ==> Scanned(512 * blk + off + 1, l', cnt', newline')
      ensures !ok ==> HasLine(file, MAXLINES + 1)
    {
      l', cnt', newline', ok := l, cnt, newline, true;
      if newline {
        LineBegins(512 * blk + off, l, cnt);
        BeginLine(blk, off, l, cnt);
        newline' := false;
        cnt' := 0;
        l' := l + 1;
        if l' > MAXLINES {
          return false, l', cnt', newline';
        }
      }
      if c == NL { newline' := true; }
      cnt' := cnt' + 1;
    }

    /** The inner loop, over the n characters of a block. */
    method ScanBlock(n: nat, blk: nat, l0: nat, cnt0: nat, newline0: bool)
        returns (ok: bool, l: nat, cnt: nat, newline: bool)
      requires Arrays() && Scanned(512 * blk, l0, cnt0, newline0) && 512 * blk + n <= |file| && n <= 512
      modifies this`lincnt, segblk, segoff
      ensures ok ==> Scanned(512 * blk + n, l, cnt, newline)
      ensures !ok ==> HasLine(file, MAXLINES + 1)
    {
      l, cnt, newline, ok := l0, cnt0, newline0, true;
      var off := 0;
      while off < n && ok
        invariant off <= n && if ok then Scanned(512 * blk + off, l, cnt, newline) else HasLine(file, MAXLINES + 1)
      {
        ok, l, cnt, newline := ScanOne(file[512 * blk + off], blk, off, l, cnt, newline);
        off := off + 1;
      }
    }

    /** The file is indexed. */
    ghost predicate Indexed()
      requires Arrays()
      reads this`lincnt, this`Dollar, segblk, segoff
    {
      && Dollar <= MAXLINES && Lengths(Dollar) && Segments(Segs(Dollar))
      && Offset(file, Dollar) == |file| && (Dollar > 0 ==> HasLine(file, Dollar))
    }

    /** bigopen, from the open file on. */
    method BigOpen() returns (ok: bool)
      requires Arrays() && pos == 0 && prevblk == prevoff == 0 && lprev == 1 && saveblk == -1
      modifies this`pos, this`lincnt, this`Dollar, segblk, segoff
      ensures ok ==> Valid()
      ensures !ok ==> HasLine(file, MAXLINES + 1)
    {
      var l, cnt, newline, blk := 0, 0, true, 0;
      lincnt := [];
      while pos < |file|
        invariant pos <= |file| && (pos < |file| ==> pos == 512 * blk) && Scanned(pos, l, cnt, newline)
        decreases |file| - pos
      {
        var n := if |file| - pos < 512 then |file| - pos else 512;
        pos := pos + n;
        ok, l, cnt, newline := ScanBlock(n, blk, l, cnt, newline);
        if !ok { return; }
        blk := blk + 1;
      }
      Finish(l, cnt, newline);
      ok := true;
    }

    /** Line l is the last so far, and its length is stored. */
    method Finish(l: nat, cnt: nat, ghost newline: bool)
      requires Arrays() && Scanned(|file|, l, cnt, newline)
      modifies this`lincnt, this`Dollar
      ensures Indexed()
    {
      LastLine(l, cnt, newline);
      lincnt := lincnt + [Short(cnt)];
      Dollar := l;
    }

    lemma LastLine(l: nat, cnt: nat, newline: bool)
      requires Arrays() && Scanned(|file|, l, cnt, newline)
      ensures Offset(file, l) == |file| && (l > 0 ==> HasLine(file, l) && cnt == Length(file, l))
    {
      if l > 0 { LineEndIs(file, Offset(file, l - 1), |file|); }
    }

    // ----- reading a line -----

    /** prevblk and prevoff are where line lprev begins. */
    ghost predicate Placed()
      reads this`prevblk, this`prevoff, this`lprev, this`Dollar
    {
      && 1 <= lprev && (lprev <= Dollar || (lprev == 1 && Dollar == 0)) && prevblk >= 0 && 0 <= prevoff < 512
      && 512 * prevblk + prevoff == Offset(file, lprev - 1)
    }

    /** savetxt is block saveblk, as far as the file goes, and the file stands after it. */
    ghost predicate Cached()
      requires Arrays()
      reads this`pos, this`saveblk, savetxt
    {
      saveblk >= 0 ==>
        && pos == (if 512 * (saveblk + 1) < |file| then 512 * (saveblk + 1) else |file|)
        && forall k | 0 <= k < 512 && 512 * saveblk + k < |file| :: savetxt[k] == file[512 * saveblk + k]
    }

    ghost predicate Valid()
      reads this, segblk, segoff, savetxt
    {
      Arrays() && Indexed() && Placed() && saveblk >= -1 && Cached()
    }

    /** Forward over lines from up to but not including end. */
    method Forward(from: int, end: int)
      requires Arrays() && Lengths(Dollar) && 1 <= from <= end <= Dollar
      modifies this`prevoff
      ensures prevoff == old(prevoff) + StoredSum(file, from, end)
    {
      var i := from;
      while i < end
        invariant from <= i <= end && prevoff == old(prevoff) + StoredSum(file, from, i)
      {
        StoredSnoc(file, from, i);
        prevoff := prevoff + lincnt[i];
        i := i + 1;
      }
    }

    /** Backward over the lines before from, down to end. */
    method Backward(from: int, end: int)
      requires Arrays() && Lengths(Dollar) && 1 <= end < from <= Dollar
      modifies this`prevoff
      ensures prevoff == old(prevoff) - StoredSum(file, end, from)
    {
      var i := from - 1;
      while i >= end
        invariant end - 1 <= i <= from - 1 && prevoff == old(prevoff) - StoredSum(file, i + 1, from)
      {
        prevoff := prevoff - lincnt[i];
        i := i - 1;
      }
    }

    /** The lines whose lengths are used on the way to line l: those between, or those after a recorded beginning. */
    function PathStart(l: int): int
      reads this`lprev
    {
      if lprev <= l <= lprev + 32 then lprev else if lprev - 32 <= l < lprev then l else 64 * ((l - 1) / 64) + 1
    }

    function PathEnd(l: int): int
      reads this`lprev
    {
      if lprev - 32 <= l < lprev then lprev else l
    }

    /** None of them is too long. */
    ghost predicate Reached(l: int)
      requires l >= 1 && lprev >= 1
      reads this`lprev
    {
      NoneLong(file, PathStart(l), PathEnd(l))
    }

    /** Near lines are reached from the last one, others from a recorded beginning. */
    method Move(l: int)
      requires Arrays() && Indexed() && Placed() && 1 <= l <= Dollar
      modifies this`prevblk, this`prevoff
      ensures 512 * prevblk + prevoff == Offset(file, l - 1) <==> Reached(l)
    {
      hide Offset, StoredSum, Short, NoneLong, Segs;
      var i := l - lprev;
      StoredRight(file, PathStart(l), PathEnd(l));
      if i == 1 {
        StoredOne(file, lprev);
        prevoff := prevoff + lincnt[lprev];
      } else if 0 <= i <= 32 {
        Forward(lprev, l);
      } else if -32 <= i < 0 {
        Backward(lprev, l);
      } else {
        FromRecorded(l);
      }
    }

    method FromRecorded(l: int)
      requires Arrays() && Indexed() && 1 <= l <= Dollar
      modifies this`prevblk, this`prevoff
      ensures var start := 64 * ((l - 1) / 64) + 1;
              512 * prevblk + prevoff == Offset(file, start - 1) + StoredSum(file, start, l)
    {
      var s := (l - 1) / 64;
      assert 64 * s + 1 <= l && s < Segs(Dollar);
      prevblk := segblk[s];
      prevoff := segoff[s];
      Forward(64 * s + 1, l);
    }

    /** The first half of bigread. */
    method Seek(l: int)
      requires Arrays() && Indexed() && Placed() && 1 <= l <= Dollar
      modifies this`prevblk, this`prevoff, this`lprev
      ensures lprev == l && (Placed() <==> old(Reached(l)))
    {
      Move(l);
      prevblk, prevoff := prevblk + prevoff / 512, prevoff % 512;
      lprev := l;
    }

    /** A read of the next block: what is left of the file, at most 512 bytes; the rest of savetxt stays. */
    method ReadBlock()
      requires Arrays() && pos <= |file|
      modifies this`pos, savetxt
      ensures pos == if old(pos) + 512 < |file| then old(pos) + 512 else |file|
      ensures forall k | 0 <= k < 512 && old(pos) + k < |file| :: savetxt[k] == file[old(pos) + k]
    {
      var n := if |file| - pos < 512 then |file| - pos else 512;
      var k := 0;
      while k < n
        invariant k <= n && pos == old(pos) && forall i | 0 <= i < k :: savetxt[i] == file[pos + i]
      {
        savetxt[k] := file[pos + k];
        k := k + 1;
      }
      pos := pos + n;
    }

    /** The block the line begins in is in the cache, or is read. */
    method Load()
      requires Valid() && Dollar > 0
      modifies this`pos, this`saveblk, savetxt
      ensures Valid() && saveblk == prevblk
    {
      if prevblk != saveblk {
        saveblk := prevblk;
        pos := 512 * prevblk;
        OffsetInside();
        ReadBlock();
      }
    }

    lemma OffsetInside()
      requires Arrays() && Indexed() && Placed() && Dollar > 0
      ensures Offset(file, lprev - 1) < |file|
    {
      LinesUpTo(file, lprev, Dollar);
    }

    /** rec has the r characters from on, as far as the file goes, and no newline. */
    ghost predicate Copied(rec: array<char>, r: nat, from: nat)
      reads rec
    {
      && r <= rec.Length
      && (forall k | 0 <= k < r && from + k < |file| :: rec[k] == file[from + k])
      && (forall k | 0 <= k < r :: rec[k] != NL)
    }

    /** If the file goes that far, character r from from on is a newline. */
    predicate Ends(r: nat, from: nat) {
      from + r < |file| ==> file[from + r] == NL
    }

    /** The inner loop: up to the newline, to the 512th character, or to the end of the block. */
    method CopyBlock(rec: array<char>, off: nat, r0: nat, ghost from: nat) returns (r: nat, newline: bool)
      requires Arrays() && Cached() && saveblk >= 0 && off <= 512 && r0 <= 511 && rec.Length >= 512 && rec != savetxt
      requires Copied(rec, r0, from) && 512 * saveblk + off == from + r0
      modifies rec
      ensures newline ==> r0 <= r <= 511 && Copied(rec, r, from) && rec[r] == '\0' && Ends(r, from)
      ensures !newline ==> Copied(rec, r, from) && r <= 512 && (r <= 511 ==> r == r0 + 512 - off)
    {
      var b := off;
      r := r0;
      while b < 512
        invariant off <= b <= 512 && r == r0 + b - off <= 511 && Copied(rec, r, from)
      {
        rec[r] := savetxt[b];
        r := r + 1;
        if rec[r - 1] == NL {
          rec[r - 1] := '\0';
          return r - 1, true;
        }
        if r > 511 {
          return r, false;
        }
        b := b + 1;
      }
      newline := false;
    }

    /** The second half of bigread. */
    method Copy(rec: array<char>, ghost from: nat) returns (len: nat, whole: bool)
      requires Arrays() && Cached() && saveblk >= 0 && 0 <= prevoff < 512 && 512 * saveblk + prevoff == from
      requires rec.Length >= 512 && rec != savetxt
      modifies this`pos, this`saveblk, savetxt, rec
      ensures Cached() && saveblk >= 0 && Copied(rec, len, from)
      ensures whole ==> len <= 511 && rec[len] == '\0' && Ends(len, from)
      ensures !whole ==> len == 512
    {
      var off := prevoff;
      len := 0;
      while true
        invariant Cached() && saveblk >= 0 && 0 <= off <= 511 && len <= 511 && Copied(rec, len, from)
        invariant 512 * saveblk + off == from + len
        decreases 512 - len
      {
        len, whole := CopyBlock(rec, off, len, from);
        if whole || len > 511 {
          return;
        }
        ReadNext(rec);
        off := 0;
      }
    }

    method ReadNext(ghost rec: array<char>)
      requires Arrays() && Cached() && saveblk >= 0 && rec != savetxt
      modifies this`pos, this`saveblk, savetxt
      ensures Cached() && saveblk == old(saveblk) + 1
    {
      ReadBlock();
      saveblk := saveblk + 1;
    }

    /**
     What rec shows of line l: if it ends with a newline and has at most 511 characters, all of it;
     otherwise its first 512.
     */
    ghost predicate Shown(rec: array<char>, len: nat, whole: bool, l: nat)
      requires HasLine(file, l)
      reads rec
    {
      var text := Line(file, l);
      && len <= rec.Length && (forall k | 0 <= k < |text| && k < len :: rec[k] == text[k]) && (whole || len == 512)
      && (Terminated(file, l) ==> if whole then rec[..len] == text else |text| >= 512 && rec[..512] == text[..512])
    }

    /** The line that stands in rec when n characters were copied. */
    lemma LineCopied(rec: array<char>, len: nat, whole: bool, l: nat)
      requires HasLine(file, l) && Copied(rec, len, Offset(file, l - 1))
      requires if whole then Ends(len, Offset(file, l - 1)) else len == 512
      ensures Shown(rec, len, whole, l)
    {
      var from, to := Offset(file, l - 1), Offset(file, l);
      LineEndShape(file, from);
      forall j | from <= j < from + len && j < |file| ensures file[j] != NL {
        assert rec[j - from] == file[from + (j - from)];
      }
      assert Terminated(file, l) ==> !(from <= to - 1 < from + len);
    }

    /** bigread, whatever was read before, for a line that the stored lengths lead to. */
    method BigRead(l: nat, rec: array<char>) returns (len: nat, whole: bool)
      requires Valid() && 1 <= l <= Dollar && Reached(l) && rec.Length >= 512 && rec != savetxt
      modifies this`pos, this`saveblk, this`prevblk, this`prevoff, this`lprev, savetxt, rec
      ensures Valid() && lprev == l && HasLine(file, l)
      ensures Shown(rec, len, whole, l) && (whole ==> len <= 511 && rec[len] == '\0')
    {
      Seek(l);
      Load();
      LinesUpTo(file, l, Dollar);
      len, whole := Copy(rec, Offset(file, l - 1));
      LineCopied(rec, len, whole, l);
    }

    ghost predicate Matches(test: string -> bool, l: nat)
    {
      HasLine(file, l) && test(Line(file, l))
    }

    ghost predicate None(test: string -> bool, from: int, end: int) {
      forall k: nat | from <= k < end :: !Matches(test, k)
    }

    /** Every line ends with a newline and fits the buffer it is searched in, with a NUL after it. */
    ghost predicate Searchable() {
      (file != "" ==> file[|file| - 1] == NL) && forall n: nat | HasLine(file, n) :: |Line(file, n)| <= 511
    }

    /** One line tried. */
    method Try(l: nat, test: string -> bool) returns (found: bool)
      requires Valid() && 1 <= l <= Dollar && Searchable()
      modifies this`pos, this`saveblk, this`prevblk, this`prevoff, this`lprev, savetxt
      ensures Valid() && (found <==> Matches(test, l))
    {
      var rec := new char[512];
      AllReached(l);
      var len, whole := BigRead(l, rec);
      AllTerminated(l);
      found := test(rec[..len]);
    }

    /** Lines that fit the buffer are all reached. */
    lemma AllReached(l: nat)
      requires Arrays() && Indexed() && Placed() && Searchable() && 1 <= l <= Dollar
      ensures Reached(l)
    {
      forall n: nat | PathStart(l) <= n < PathEnd(l) ensures Length(file, n) <= SHORTMAX {
        LinesUpTo(file, n, Dollar);
      }
    }

    lemma AllTerminated(l: nat)
      requires HasLine(file, l) && Searchable()
      ensures Terminated(file, l)
    {
      LineEndShape(file, Offset(file, l - 1));
    }

    /** The loops of hunt, forwards: lines from up to but not including end. */
    method ScanDown(from: nat, end: nat, test: string -> bool) returns (r: int)
      requires Valid() && 1 <= from <= end <= Dollar + 1 && Searchable()
      modifies this`pos, this`saveblk, this`prevblk, this`prevoff, this`lprev, savetxt
      ensures Valid()
      ensures r == -1 ==> None(test, from, end)
      ensures r != -1 ==> from <= r < end && Matches(test, r) && None(test, from, r)
    {
      var i: int, found := from, false;
      while i != end && !found
        invariant from <= i <= end && Valid() && None(test, from, i)
        invariant found ==> i < end && Matches(test, i)
        decreases end - i, if found then 0 else 1
      {
        found := Try(i, test);
        if !found {
          NoneMore(test, from, i);
          i := i + 1;
        }
      }
      r := if found then i else -1;
    }

    lemma NoneMore(test: string -> bool, from: int, i: nat)
      requires None(test, from, i) && !Matches(test, i)
      ensures None(test, from, i + 1)
    {
    }

    lemma NoneLess(test: string -> bool, i: nat, end: int)
      requires None(test, i + 1, end) && !Matches(test, i)
      ensures None(test, i, end)
    {
    }

    /** The loops of hunt, backwards: lines from down to but not including end. */
    method ScanUp(from: nat, end: nat, test: string -> bool) returns (r: int)
      requires Valid() && end <= from <= Dollar && Searchable()
      modifies this`pos, this`saveblk, this`prevblk, this`prevoff, this`lprev, savetxt
      ensures Valid()
      ensures r == -1 ==> None(test, end + 1, from + 1)
      ensures r != -1 ==> end < r <= from && Matches(test, r) && None(test, r + 1, from + 1)
    {
      var i: int, found := from, false;
      while i != end && !found
        invariant end <= i <= from && Valid() && None(test, i + 1, from + 1)
        invariant found ==> end < i && Matches(test, i)
        decreases i, if found then 0 else 1
      {
        found := Try(i, test);
        if !found {
          NoneLess(test, i, from + 1);
          i := i - 1;
        }
      }
      r := if found then i else -1;
    }

    /** hunt goes to a line of the file first, or to none; start may be what an address says. */
    predicate Starts(start: int, down: bool)
      reads this`Dollar
    {
      if down then 0 <= start <= Dollar else 1 <= start <= Dollar + 1
    }

    /**
     hunt: the nearest matching line after start, or before it; then, if wrap, from the other end up to
     start. From any other start it leaves the lines of the file at once: bad says so.
     */
    method Hunt(test: string -> bool, start: int, down: bool, wrap: bool) returns (r: int, bad: bool)
      requires Valid() && Searchable()
      modifies this`pos, this`saveblk, this`prevblk, this`prevoff, this`lprev, savetxt
      ensures Valid() && bad == !Starts(start, down)
      ensures !bad && r == -1 ==>
                if wrap then None(test, 1, Dollar + 1)
                else if down then None(test, start + 1, Dollar + 1)
                else None(test, 1, start)
      ensures !bad && r != -1 ==> 1 <= r <= Dollar && Matches(test, r)
      ensures !bad && r != -1 && down ==>
                if r > start then None(test, start + 1, r)
                else wrap && None(test, start + 1, Dollar + 1) && None(test, 1, r)
      ensures !bad && r != -1 && !down ==>
                if r < start then None(test, r + 1, start)
                else wrap && None(test, 1, start) && None(test, r + 1, Dollar + 1)
    {
      bad := !Starts(start, down);
      if bad {
        return -1, bad;
      }
      if down {
        r := ScanDown(start + 1, Dollar + 1, test);
        if r == -1 && wrap { r := ScanDown(1, start + 1, test); }
      } else {
        r := ScanUp(start - 1, 0, test);
        if r == -1 && wrap { r := ScanUp(Dollar, start - 1, test); }
      }
    }
  }
}
