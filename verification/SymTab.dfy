/**
 awk's symbol tables and arrays (usr/src/cmd/awk/tran.c): chained hash tables of cells that grow
 by rehashing in place. Each method is proved against a finite map from names to cells.
 */
module SymTab {
  const FULLTAB: nat := 2
  const GROWTAB: nat := 4
  const NSYMTAB: nat := 50
  const UNSIGNED: nat := 0x1_0000_0000

  class Cell {
    const nval: string
    var sval: string
    var fval: real
    var tval: bv32
    var cnext: Cell?

    constructor (n: string, s: string, f: real, t: bv32)
      ensures nval == n && sval == s && fval == f && tval == t && cnext == null
    {
      nval, sval, fval, tval, cnext := n, s, f, t, null;
    }
  }

  // ----- hash -----

  /** hashval after the first characters of s, as an unsigned number of 32 bits. */
  function HashVal(s: string): (r: nat)
    ensures r < UNSIGNED
  {
    if s == "" then 0 else (s[|s| - 1] as int + 31 * HashVal(s[..|s| - 1])) % UNSIGNED
  }

  function HashOf(s: string, n: nat): (r: nat)
    requires n > 0
    ensures r < n
  {
    HashVal(s) % n
  }

  method Hash(s: string, n: nat) returns (h: nat)
    requires n > 0
    ensures h == HashOf(s, n)
  {
    var hashval := 0;
    var i := 0;
    while i < |s|
      invariant 0 <= i <= |s| && hashval == HashVal(s[..i])
    {
      assert s[..i + 1][..i] == s[..i];
      hashval := (s[i] as int + 31 * hashval) % UNSIGNED;
      i := i + 1;
    }
    assert s[..i] == s;
    h := hashval % n;
  }

  // ----- chains -----

  /** nx says where the cnext of each cell points; the chain from head is ch. */
  ghost predicate Linked(nx: map<Cell, Cell?>, head: Cell?, ch: seq<Cell>)
    decreases |ch|
  {
    if ch == [] then head == null else head == ch[0] && ch[0] in nx && Linked(nx, nx[ch[0]], ch[1..])
  }

  ghost predicate AllLinked(nx: map<Cell, Cell?>, heads: seq<Cell?>, chains: seq<seq<Cell>>) {
    |heads| == |chains| && forall h | 0 <= h < |chains| :: Linked(nx, heads[h], chains[h])
  }

  /** The fields are as nx says. */
  ghost predicate Fields(nx: map<Cell, Cell?>)
    reads nx.Keys`cnext
  {
    forall c | c in nx :: c.cnext == nx[c]
  }

  /** nx has the cells of m and no others. */
  ghost predicate Covers(nx: map<Cell, Cell?>, m: map<string, Cell>) {
    (forall n | n in m :: m[n] in nx) && forall c | c in nx :: c.nval in m && m[c.nval] == c
  }

  /** The chains hold the cells of m, each in its bucket and under its own name, and no name twice. */
  ghost predicate Holds(chains: seq<seq<Cell>>, m: map<string, Cell>) {
    && |chains| > 0
    && (forall h, k | 0 <= h < |chains| && 0 <= k < |chains[h]| ::
          var c := chains[h][k]; c.nval in m && m[c.nval] == c && HashOf(c.nval, |chains|) == h)
    && (forall h, j, k | 0 <= h < |chains| && 0 <= j < k < |chains[h]| :: chains[h][j].nval != chains[h][k].nval)
    && (forall n | n in m :: m[n] in chains[HashOf(n, |chains|)] && m[n].nval == n)
  }

  /** Where s stands in its chain, or that it does not. */
  lemma Found(chains: seq<seq<Cell>>, m: map<string, Cell>, s: string, k: nat)
    requires Holds(chains, m)
    requires var ch := chains[HashOf(s, |chains|)];
             k <= |ch| && (k < |ch| ==> ch[k].nval == s) && forall i | 0 <= i < k :: ch[i].nval != s
    ensures var ch := chains[HashOf(s, |chains|)]; if k < |ch| then s in m && m[s] == ch[k] else s !in m
  {
  }

  // ----- a cell more, a cell less -----

  function Pushed(chains: seq<seq<Cell>>, h: nat, p: Cell): seq<seq<Cell>>
    requires h < |chains|
  {
    chains[h := [p] + chains[h]]
  }

  function Dropped(chains: seq<seq<Cell>>, h: nat, k: nat): seq<seq<Cell>>
    requires h < |chains| && k < |chains[h]|
  {
    chains[h := chains[h][..k] + chains[h][k + 1..]]
  }

  /** A chain keeps its links when only cells outside it get others. */
  lemma {:induction false} SameLinks(nx: map<Cell, Cell?>, ny: map<Cell, Cell?>, head: Cell?, ch: seq<Cell>)
    requires Linked(nx, head, ch) && forall c | c in ch && c in nx :: c in ny && ny[c] == nx[c]
    ensures Linked(ny, head, ch)
    decreases |ch|
  {
    if ch != [] { SameLinks(nx, ny, nx[ch[0]], ch[1..]); }
  }

  lemma LinkedPushed(nx: map<Cell, Cell?>, heads: seq<Cell?>, chains: seq<seq<Cell>>, h: nat, p: Cell)
    requires AllLinked(nx, heads, chains) && h < |chains| && forall i | 0 <= i < |chains| :: p !in chains[i]
    ensures AllLinked(nx[p := heads[h]], heads[h := p], Pushed(chains, h, p))
  {
    var ny := nx[p := heads[h]];
    forall i | 0 <= i < |chains| ensures Linked(ny, heads[h := p][i], Pushed(chains, h, p)[i]) {
      SameLinks(nx, ny, heads[i], chains[i]);
      assert ([p] + chains[h])[1..] == chains[h];
    }
  }

  lemma Without(ch: seq<Cell>, k: nat)
    requires 0 < k < |ch|
    ensures (ch[..k] + ch[k + 1..])[0] == ch[0] && (ch[..k] + ch[k + 1..])[1..] == ch[1..][..k - 1] + ch[1..][k..]
  {
  }

  /** Cell k leaves a chain when the cnext of the one before it passes over it. */
  lemma {:induction false} LinkedPast(nx: map<Cell, Cell?>, head: Cell?, ch: seq<Cell>, k: nat)
    requires Linked(nx, head, ch) && 0 < k < |ch| && ch[k - 1] !in ch[..k - 1] && ch[k - 1] !in ch[k..] && ch[k] in nx
    ensures Linked(nx[ch[k - 1] := nx[ch[k]]], head, ch[..k] + ch[k + 1..])
    decreases k
  {
    Without(ch, k);
    var tail, ny := ch[1..], nx[ch[k - 1] := nx[ch[k]]];
    if k == 1 {
      assert tail[..0] + tail[1..] == tail[1..];
      SameLinks(nx, ny, nx[ch[1]], tail[1..]);
    } else {
      LinkedPast(nx, nx[ch[0]], tail, k - 1);
    }
  }

  lemma {:induction false} LinkedMember(nx: map<Cell, Cell?>, head: Cell?, ch: seq<Cell>, k: nat)
    requires Linked(nx, head, ch) && k < |ch|
    ensures ch[k] in nx && nx[ch[k]] == (if k + 1 < |ch| then ch[k + 1] else null)
    decreases k
  {
    if k > 0 { LinkedMember(nx, nx[ch[0]], ch[1..], k - 1); }
  }

  /** The links and heads once cell k of chain h is out. */
  function LinksDropped(nx: map<Cell, Cell?>, chains: seq<seq<Cell>>, h: nat, k: nat): map<Cell, Cell?>
    requires h < |chains| && k < |chains[h]| && chains[h][k] in nx
  {
    (if k == 0 then nx else nx[chains[h][k - 1] := nx[chains[h][k]]]) - {chains[h][k]}
  }

  function HeadsDropped(nx: map<Cell, Cell?>, heads: seq<Cell?>, chains: seq<seq<Cell>>, h: nat, k: nat): seq<Cell?>
    requires |heads| == |chains| && h < |chains| && k < |chains[h]| && chains[h][k] in nx
  {
    if k == 0 then heads[h := nx[chains[h][k]]] else heads
  }

  /** A cell stands in one place only. */
  lemma OnlyThere(chains: seq<seq<Cell>>, m: map<string, Cell>, i: nat, j: nat)
    requires Holds(chains, m) && i < |chains| && j < |chains[i]|
    ensures chains[i][j] !in chains[i][j + 1..] && chains[i][j] !in chains[i][..j]
    ensures forall h | 0 <= h < |chains| && h != i :: chains[i][j] !in chains[h]
  {
  }

  lemma LinkedDropped(nx: map<Cell, Cell?>, heads: seq<Cell?>, chains: seq<seq<Cell>>, m: map<string, Cell>, h: nat,
                      k: nat)
    requires AllLinked(nx, heads, chains) && Holds(chains, m) && h < |chains| && k < |chains[h]| && chains[h][k] in nx
    ensures AllLinked(LinksDropped(nx, chains, h, k), HeadsDropped(nx, heads, chains, h, k), Dropped(chains, h, k))
  {
    OnlyThere(chains, m, h, k);
    var ny, heads', r := LinksDropped(nx, chains, h, k), HeadsDropped(nx, heads, chains, h, k), Dropped(chains, h, k);
    if k > 0 { OnlyThere(chains, m, h, k - 1); }
    forall i | 0 <= i < |r| && i != h ensures Linked(ny, heads'[i], r[i]) {
      SameLinks(nx, ny, heads[i], chains[i]);
    }
    OwnChainDropped(nx, heads[h], chains[h], k, ny);
  }

  lemma OwnChainDropped(nx: map<Cell, Cell?>, head: Cell?, ch: seq<Cell>, k: nat, ny: map<Cell, Cell?>)
    requires Linked(nx, head, ch) && k < |ch| && ch[k] in nx && ch[k] !in ch[..k] && ch[k] !in ch[k + 1..]
    requires k > 0 ==> ch[k - 1] !in ch[..k - 1] && ch[k - 1] !in ch[k..]
    requires ny == (if k == 0 then nx else nx[ch[k - 1] := nx[ch[k]]]) - {ch[k]}
    ensures Linked(ny, if k == 0 then nx[ch[0]] else head, ch[..k] + ch[k + 1..])
  {
    if k == 0 {
      assert ch[..0] + ch[1..] == ch[1..];
      SameLinks(nx, ny, nx[ch[0]], ch[1..]);
    } else {
      LinkedPast(nx, head, ch, k);
      SameLinks(nx[ch[k - 1] := nx[ch[k]]], ny, head, ch[..k] + ch[k + 1..]);
    }
  }

  lemma HoldsPushed(chains: seq<seq<Cell>>, m: map<string, Cell>, p: Cell)
    requires Holds(chains, m) && p.nval !in m
    ensures Holds(Pushed(chains, HashOf(p.nval, |chains|), p), m[p.nval := p])
    ensures forall i | 0 <= i < |chains| :: p !in chains[i]
  {
    var h0 := HashOf(p.nval, |chains|);
    var r := Pushed(chains, h0, p);
    forall n | n in m[p.nval := p] ensures m[p.nval := p][n] in r[HashOf(n, |r|)] {
      if n == p.nval { assert r[h0][0] == p; } else { assert m[n] in chains[HashOf(n, |r|)]; }
    }
  }

  lemma HoldsDropped(chains: seq<seq<Cell>>, m: map<string, Cell>, h: nat, k: nat)
    requires Holds(chains, m) && h < |chains| && k < |chains[h]|
    ensures var s := chains[h][k].nval; Holds(Dropped(chains, h, k), m - {s})
  {
    var s, r := chains[h][k].nval, Dropped(chains, h, k);
    forall n | n in m - {s} ensures m[n] in r[HashOf(n, |r|)] {
      StillThere(chains, m, h, k, n);
    }
  }

  lemma StillThere(chains: seq<seq<Cell>>, m: map<string, Cell>, h: nat, k: nat, n: string)
    requires Holds(chains, m) && h < |chains| && k < |chains[h]| && n in m && n != chains[h][k].nval
    ensures m[n] in Dropped(chains, h, k)[HashOf(n, |chains|)]
  {
    var i := HashOf(n, |chains|);
    var j :| 0 <= j < |chains[i]| && chains[i][j] == m[n];
    var r := Dropped(chains, h, k);
    if i == h { assert r[h][if j < k then j else j - 1] == m[n]; }
  }

  lemma CountMore(m: map<string, Cell>, p: Cell)
    requires p.nval !in m
    ensures |m[p.nval := p]| == |m| + 1
  {
    assert m[p.nval := p].Keys == m.Keys + {p.nval};
  }

  lemma CountLess(m: map<string, Cell>, s: string)
    requires s in m
    ensures |m - {s}| == |m| - 1
  {
    assert (m - {s}).Keys == m.Keys - {s};
  }

  /** The cell with name s in a chain, and the one before it. */
  method Search(s: string, head: Cell?, ghost ch: seq<Cell>, ghost nx: map<Cell, Cell?>)
      returns (p: Cell?, prev: Cell?, ghost k: nat)
    requires Linked(nx, head, ch) && Fields(nx)
    ensures k <= |ch| && (k < |ch| ==> ch[k].nval == s) && forall i | 0 <= i < k :: ch[i].nval != s
    ensures p == if k < |ch| then ch[k] else null
    ensures prev == if k == 0 then null else ch[k - 1]
  {
    p, prev, k := head, null, 0;
    while p != null
      invariant k <= |ch| && Linked(nx, p, ch[k..])
      invariant prev == if k == 0 then null else ch[k - 1]
      invariant forall i | 0 <= i < k :: ch[i].nval != s
      decreases |ch| - k
    {
      if p.nval == s { return; }
      prev := p;
      p := p.cnext;
      k := k + 1;
    }
  }

  /** What a table is: its chains, their links, and the map they hold. */
  datatype Model = Model(chains: seq<seq<Cell>>, nx: map<Cell, Cell?>, m: map<string, Cell>)

  // ----- growing -----

  /** moved has the cells of the chains before i, and the first j of chain i. */
  ghost predicate Progress(m: map<string, Cell>, moved: map<string, Cell>, chains: seq<seq<Cell>>, i: nat, j: nat) {
    && (forall n | n in moved :: n in m && moved[n] == m[n])
    && forall h, k | 0 <= h < |chains| && 0 <= k < |chains[h]| ::
         chains[h][k].nval in moved <==> h < i || (h == i && k < j)
  }

  lemma ProgressOne(m: map<string, Cell>, moved: map<string, Cell>, chains: seq<seq<Cell>>, i: nat, j: nat)
    requires Holds(chains, m) && Progress(m, moved, chains, i, j) && i < |chains| && j < |chains[i]|
    ensures var c := chains[i][j]; c.nval !in moved && Progress(m, moved[c.nval := c], chains, i, j + 1)
  {
    var c := chains[i][j];
    forall h, k | 0 <= h < |chains| && 0 <= k < |chains[h]|
      ensures chains[h][k].nval in moved[c.nval := c] <==> h < i || (h == i && k < j + 1)
    {
      if h != i { assert HashOf(chains[h][k].nval, |chains|) == h; }
    }
  }

  lemma ProgressDone(m: map<string, Cell>, moved: map<string, Cell>, chains: seq<seq<Cell>>)
    requires Holds(chains, m) && Progress(m, moved, chains, |chains|, 0)
    ensures moved == m
  {
    forall n | n in m ensures n in moved {
      var h := HashOf(n, |chains|);
      var k :| 0 <= k < |chains[h]| && chains[h][k] == m[n];
    }
  }

  /** The new table, as far as it has come: its heads, links and chains hold moved, and other cells are as they were. */
  ghost predicate Underway(np: array<Cell?>, nch: seq<seq<Cell>>, ny: map<Cell, Cell?>, moved: map<string, Cell>,
                           nx: map<Cell, Cell?>)
    reads np, ny.Keys`cnext, nx.Keys`cnext
  {
    && np.Length == |nch| && AllLinked(ny, np[..], nch) && Holds(nch, moved) && Covers(ny, moved) && Fields(ny)
    && forall c | c in nx && c !in ny :: c.cnext == nx[c]
  }

  /** A cell goes from the head of its old chain to the head of its new one; op is the next to go. */
  method MoveCell(np: array<Cell?>, cp: Cell, ghost i: nat, ghost j: nat, ghost chains: seq<seq<Cell>>,
                  ghost m: map<string, Cell>,
                  ghost nx: map<Cell, Cell?>, ghost nch0: seq<seq<Cell>>, ghost ny0: map<Cell, Cell?>,
                  ghost moved0: map<string, Cell>)
      returns (op: Cell?, ghost nch: seq<seq<Cell>>, ghost ny: map<Cell, Cell?>, ghost moved: map<string, Cell>)
    requires Holds(chains, m) && i < |chains| && j < |chains[i]| && Linked(nx, cp, chains[i][j..])
    requires Underway(np, nch0, ny0, moved0, nx) && Progress(m, moved0, chains, i, j)
    modifies np, cp`cnext
    ensures Linked(nx, op, chains[i][j + 1..])
    ensures |nch| == |nch0| && Underway(np, nch, ny, moved, nx) && Progress(m, moved, chains, i, j + 1)
  {
    ProgressOne(m, moved0, chains, i, j);
    HoldsPushed(nch0, moved0, cp);
    assert chains[i][j..][1..] == chains[i][j + 1..];
    op := cp.cnext;
    var nh := Hash(cp.nval, np.Length);
    ghost var heads := np[..];
    LinkedPushed(ny0, heads, nch0, nh, cp);
    cp.cnext := np[nh];
    np[nh] := cp;
    assert np[..] == heads[nh := cp];
    nch, ny, moved := Pushed(nch0, nh, cp), ny0[cp := heads[nh]], moved0[cp.nval := cp];
  }

  /** A new table without cells. */
  method EmptyTable(n: nat, ghost g: Model) returns (np: array<Cell?>, ghost nch: seq<seq<Cell>>)
    requires n > 0 && Fields(g.nx)
    ensures fresh(np) && |nch| == n && Underway(np, nch, map[], map[], g.nx) && Progress(g.m, map[], g.chains, 0, 0)
  {
    np := new Cell?[n](_ => null);
    nch := seq(n, _ => []);
  }

  /** All cells of chain i go to the new table. */
  method MoveChain(cp0: Cell?, np: array<Cell?>, ghost i: nat, ghost chains: seq<seq<Cell>>, ghost m: map<string, Cell>,
                  ghost nx: map<Cell, Cell?>, ghost nch0: seq<seq<Cell>>, ghost ny0: map<Cell, Cell?>,
                  ghost moved0: map<string, Cell>)
      returns (ghost nch: seq<seq<Cell>>, ghost ny: map<Cell, Cell?>, ghost moved: map<string, Cell>)
    requires Holds(chains, m) && i < |chains| && Linked(nx, cp0, chains[i]) && Covers(nx, m)
    requires Underway(np, nch0, ny0, moved0, nx) && Progress(m, moved0, chains, i, 0)
    modifies np, nx.Keys`cnext
    ensures |nch| == |nch0| && Underway(np, nch, ny, moved, nx) && Progress(m, moved, chains, i + 1, 0)
  {
    var cp := cp0;
    ghost var j := 0;
    nch, ny, moved := nch0, ny0, moved0;
    assert chains[i][0..] == chains[i];
    while cp != null
      invariant j <= |chains[i]| && Linked(nx, cp, chains[i][j..])
      invariant |nch| == |nch0| && Underway(np, nch, ny, moved, nx) && Progress(m, moved, chains, i, j)
      decreases |chains[i]| - j
    {
      cp, nch, ny, moved := MoveCell(np, cp, i, j, chains, m, nx, nch, ny, moved);
      j := j + 1;
    }
  }

  // ----- tables -----

  ghost predicate Models(g: Model, heads: seq<Cell?>) {
    Covers(g.nx, g.m) && Holds(g.chains, g.m) && AllLinked(g.nx, heads, g.chains)
  }

  ghost function ModelPushed(g: Model, heads: seq<Cell?>, h: nat, p: Cell): Model
    requires h < |g.chains| == |heads|
  {
    Model(Pushed(g.chains, h, p), g.nx[p := heads[h]], g.m[p.nval := p])
  }

  lemma ModelsPushed(g: Model, heads: seq<Cell?>, p: Cell)
    requires Models(g, heads) && p.nval !in g.m
    ensures var h := HashOf(p.nval, |g.chains|); Models(ModelPushed(g, heads, h, p), heads[h := p]) && p !in g.nx
  {
    hide Holds, Linked;
    HoldsPushed(g.chains, g.m, p);
    LinkedPushed(g.nx, heads, g.chains, HashOf(p.nval, |g.chains|), p);
  }

  ghost function ModelDropped(g: Model, h: nat, k: nat): Model
    requires h < |g.chains| && k < |g.chains[h]| && g.chains[h][k] in g.nx
  {
    Model(Dropped(g.chains, h, k), LinksDropped(g.nx, g.chains, h, k), g.m - {g.chains[h][k].nval})
  }

  lemma ModelsDropped(g: Model, heads: seq<Cell?>, h: nat, k: nat)
    requires Models(g, heads) && h < |g.chains| && k < |g.chains[h]| && g.chains[h][k] in g.nx
    ensures Models(ModelDropped(g, h, k), HeadsDropped(g.nx, heads, g.chains, h, k))
    ensures |ModelDropped(g, h, k).m| == |g.m| - 1
  {
    HoldsDropped(g.chains, g.m, h, k);
    LinkedDropped(g.nx, heads, g.chains, g.m, h, k);
    CoversDropped(g, h, k);
    hide Holds, Linked;
  }

  lemma CoversDropped(g: Model, h: nat, k: nat)
    requires Covers(g.nx, g.m) && Holds(g.chains, g.m) && h < |g.chains| && k < |g.chains[h]| && g.chains[h][k] in g.nx
    requires k > 0 ==> g.chains[h][k - 1] in g.nx
    ensures var d := ModelDropped(g, h, k); Covers(d.nx, d.m) && |d.m| == |g.m| - 1
  {
    CountLess(g.m, g.chains[h][k].nval);
  }

  /** Where a chain leads after cell k, and what comes before it. */
  lemma ModelMember(g: Model, heads: seq<Cell?>, h: nat, k: nat)
    requires Models(g, heads) && h < |g.chains| && k < |g.chains[h]|
    ensures var ch := g.chains[h];
            && ch[k] in g.nx && g.nx[ch[k]] == (if k + 1 < |ch| then ch[k + 1] else null)
            && (k > 0 ==> ch[k - 1] in g.nx && ch[k - 1] != ch[k])
  {
    LinkedMember(g.nx, heads[h], g.chains[h], k);
    if k > 0 {
      LinkedMember(g.nx, heads[h], g.chains[h], k - 1);
      OnlyThere(g.chains, g.m, h, k);
    }
  }

  class Array {
    var nelem: nat
    var size: nat
    var tab: array<Cell?>
    ghost var g: Model

    /** Everything but the count. */
    ghost predicate Shape()
      reads this`tab, this`size, this`g, tab, g.nx.Keys`cnext
    {
      0 < tab.Length == size == |g.chains| && Models(g, tab[..]) && Fields(g.nx)
    }

    ghost predicate Valid()
      reads this, tab, g.nx.Keys`cnext
    {
      Shape() && nelem == |g.m|
    }

    /** makesymtab. */
    constructor (n: nat)
      requires n > 0
      ensures Valid() && g.m == map[] && size == n && fresh(tab)
    {
      nelem, size := 0, n;
      tab := new Cell?[n](_ => null);
      g := Model(seq(n, _ => []), map[], map[]);
    }

    /** The cell of that name with its chain and the cell before it. */
    method Locate(s: string) returns (h: nat, p: Cell?, prev: Cell?, ghost k: nat)
      requires Shape()
      ensures h < size && k <= |g.chains[h]| && p == (if k < |g.chains[h]| then g.chains[h][k] else null)
      ensures prev == if k == 0 then null else g.chains[h][k - 1]
      ensures if p == null then s !in g.m else s in g.m && p == g.m[s] && p.nval == s
    {
      h := Hash(s, size);
      p, prev, k := Search(s, tab[h], g.chains[h], g.nx);
      Found(g.chains, g.m, s, k);
    }

    method Lookup(s: string) returns (p: Cell?)
      requires Valid()
      ensures p == if s in g.m then g.m[s] else null
    {
      hide Models;
      var h, prev;
      ghost var k;
      h, p, prev, k := Locate(s);
    }

    /** The cell of that name, or a new one at the head of its chain; then the table is not more than twice full. */
    method SetSymTab(n: string, s: string, f: real, t: bv32) returns (p: Cell)
      requires Valid()
      modifies this, tab, g.nx.Keys`cnext
      ensures Valid()
      ensures n in old(g.m) ==> p == old(g.m)[n] && g.m == old(g.m) && size == old(size)
      ensures n !in old(g.m) ==> g.m == old(g.m)[n := p]
      ensures n !in old(g.m) ==> fresh(p) && p.nval == n && p.sval == s && p.fval == f && p.tval == t
      ensures n !in old(g.m) ==> nelem <= FULLTAB * size || size == GROWTAB * old(size)
      ensures old(nelem) <= FULLTAB * old(size) ==> nelem <= FULLTAB * size
    {
      hide Models, Linked, Holds, Covers, Fields;
      var q := Lookup(n);
      if q != null { return q; }
      p := new Cell(n, s, f, t);
      nelem := nelem + 1;
      if nelem > FULLTAB * size { Rehash(); }
      CountMore(g.m, p);
      Insert(p);
    }

    /** The same cells in four times as many chains. */
    method Rehash()
      requires Shape()
      modifies this`tab, this`size, this`g, g.nx.Keys`cnext
      ensures Shape() && g.m == old(g.m) && size == GROWTAB * old(size) && fresh(tab)
    {
      hide Holds, Progress;
      var nsz := GROWTAB * size;
      ghost var heads, g0 := tab[..], g;
      var np;
      ghost var nch, ny: map<Cell, Cell?>, moved: map<string, Cell>;
      np, nch := EmptyTable(nsz, g0);
      ny, moved := map[], map[];
      for i := 0 to size
        invariant tab == old(tab) && size == old(size) && tab[..] == heads
        invariant |nch| == nsz && Underway(np, nch, ny, moved, g0.nx) && Progress(g0.m, moved, g0.chains, i, 0)
      {
        nch, ny, moved := MoveChain(tab[i], np, i, g0.chains, g0.m, g0.nx, nch, ny, moved);
      }
      ProgressDone(g0.m, moved, g0.chains);
      tab, size, g := np, nsz, Model(nch, ny, moved);
    }

    /** p becomes the first cell of its chain. */
    method Insert(p: Cell)
      requires Shape() && p.nval !in g.m
      modifies this`g, tab, p`cnext
      ensures Shape() && g.m == old(g.m)[p.nval := p]
    {
      hide Models;
      var h := Hash(p.nval, size);
      ghost var heads := tab[..];
      ModelsPushed(g, heads, p);
      p.cnext := tab[h];
      tab[h] := p;
      assert tab[..] == heads[h := p];
      g := ModelPushed(g, heads, h, p);
    }

    /** The cell of that name, if there is one, leaves the table. */
    method FreeElem(s: string)
      requires Valid()
      modifies this, tab, g.nx.Keys`cnext
      ensures Valid() && g.m == old(g.m) - {s} && size == old(size)
    {
      hide Models;
      var h, p, prev;
      ghost var k;
      h, p, prev, k := Locate(s);
      if p == null { return; }
      Unlink(h, p, prev, k);
      nelem := nelem - 1;
    }

    /** p, cell k of chain h, is passed over. */
    method Unlink(h: nat, p: Cell, prev: Cell?, ghost k: nat)
      requires Shape() && h < size && k < |g.chains[h]| && p == g.chains[h][k] &&
               prev == if k == 0 then null else g.chains[h][k - 1]
      modifies tab, g.nx.Keys`cnext, this`g
      ensures Shape() && g.m == old(g.m) - {p.nval} && |g.m| == |old(g.m)| - 1
    {
      hide Models;
      ghost var heads := tab[..];
      ModelMember(g, heads, h, k);
      ModelsDropped(g, heads, h, k);
      if prev == null {
        tab[h] := p.cnext;
      } else {
        prev.cnext := p.cnext;
      }
      assert tab[..] == HeadsDropped(g.nx, heads, g.chains, h, k);
      g := ModelDropped(g, h, k);
    }
  }
}
