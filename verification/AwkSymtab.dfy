/** awk's symbol table (tran.c): chained cells that are relinked in place when the table grows. */
module AwkSymtab {

  const FULLTAB: nat := 2
  const GROWTAB: nat := 4

  type Name = seq<nat>

  /** What hash computes in an unsigned int of 32 bits. */
  function HashValue(s: Name): nat {
    if s == [] then 0 else (s[|s| - 1] + 31 * HashValue(s[..|s| - 1])) % 0x1_0000_0000
  }

  /** Of a name of three characters, as an example. */
  lemma HashOfThree(s: Name)
    requires |s| == 3
    ensures HashValue(s) == (961 * s[0] + 31 * s[1] + s[2]) % 4294967296
  {
    var one, two := s[..1], s[..2];
    assert one[..0] == [] && two[..1] == one;
    assert HashValue(one) == s[0] % 0x1_0000_0000;
  }

  function Bucket(s: Name, n: nat): (h: nat)
    requires n > 0
    ensures h < n
  {
    HashValue(s) % n
  }

  method Hash(s: Name, n: nat) returns (h: nat)
    requires n > 0
    ensures h == Bucket(s, n)
  {
    var hashval, i := 0, 0;
    while i < |s|
      invariant i <= |s| && hashval == HashValue(s[..i])
    {
      assert s[..i + 1][..i] == s[..i];
      hashval, i := (s[i] + 31 * hashval) % 0x1_0000_0000, i + 1;
    }
    assert s[..|s|] == s;
    h := hashval % n;
  }

  class Cell {
    const nval: Name
    var sval: seq<nat>
    var fval: int
    var tval: nat
    var cnext: Cell?

    constructor (n: Name, s: seq<nat>, f: int, t: nat)
      ensures nval == n && (sval, fval, tval) == (s, f, t)
    {
      nval, sval, fval, tval, cnext := n, s, f, t, null;
    }
  }

  // ------------------------------------------------------------------ chains, as values

  /** The successor of every cell, and how far it is from the end of its chain. */
  datatype Links = Links(next: map<Cell, Cell?>, depth: map<Cell, nat>)

  predicate Sized(l: Links) { l.next.Keys == l.depth.Keys }

  /** Cell c is in the chain of its own hash: the head of that chain is at least as deep, and its successor
    * is in the same chain and less deep. */
  ghost predicate Chained(l: Links, heads: seq<Cell?>, c: Cell)
    requires Sized(l) && c in l.next && |heads| > 0
  {
    var h, n := Bucket(c.nval, |heads|), l.next[c];
    && heads[h] != null && heads[h] in l.next && l.depth[c] <= l.depth[heads[h]]
    && (n != null ==> n in l.next && Bucket(n.nval, |heads|) == h && l.depth[n] < l.depth[c])
  }

  /** Of two cells of a chain one is deeper, and its successor is not passed by the other. */
  ghost predicate Ordered(l: Links, n: nat, c: Cell, d: Cell)
    requires Sized(l) && n > 0 && c in l.next && d in l.next
  {
    Bucket(c.nval, n) == Bucket(d.nval, n) ==>
      && (l.depth[c] == l.depth[d] ==> c == d)
      && (l.depth[d] < l.depth[c] ==> l.next[c] != null && l.next[c] in l.next && l.depth[d] <= l.depth[l.next[c]])
  }

  /** The cells are linked into chains that begin at heads, each in the chain of its hash. */
  ghost predicate Linked(l: Links, heads: seq<Cell?>) {
    |heads| > 0 && Sized(l) && (HeadsIn(l, heads), AllChained(l, heads), AllOrdered(l, |heads|)) == (true, true, true)
  }

  ghost predicate HeadsIn(l: Links, heads: seq<Cell?>) {
    forall h :: 0 <= h < |heads| && heads[h] != null ==> heads[h] in l.next && Bucket(heads[h].nval, |heads|) == h
  }

  ghost predicate AllChained(l: Links, heads: seq<Cell?>)
    requires Sized(l) && |heads| > 0
  {
    forall c {:trigger Chained(l, heads, c)} :: c in l.next ==> Chained(l, heads, c)
  }

  ghost predicate AllOrdered(l: Links, n: nat)
    requires Sized(l) && n > 0
  {
    forall c, d {:trigger Ordered(l, n, c, d)} :: c in l.next && d in l.next ==> Ordered(l, n, c, d)
  }

  /** The links with c in front of its chain. */
  function Pushed(l: Links, heads: seq<Cell?>, c: Cell): Links
    requires Sized(l) && |heads| > 0
  {
    var first := heads[Bucket(c.nval, |heads|)];
    var d := if first == null || first !in l.depth then 0 else l.depth[first] + 1;
    Links(l.next[c := first], l.depth[c := d])
  }

  lemma PushChained(l: Links, heads: seq<Cell?>, c: Cell, x: Cell)
    requires Linked(l, heads) && c !in l.next && x in Pushed(l, heads, c).next
    ensures Chained(Pushed(l, heads, c), heads[Bucket(c.nval, |heads|) := c], x)
  {
    if x != c { assert Chained(l, heads, x); }
  }

  lemma PushOrdered(l: Links, heads: seq<Cell?>, c: Cell, x: Cell, y: Cell)
    requires Linked(l, heads) && c !in l.next && x in Pushed(l, heads, c).next && y in Pushed(l, heads, c).next
    ensures Ordered(Pushed(l, heads, c), |heads|, x, y)
  {
    if x != c { assert Chained(l, heads, x); }
    if y != c { assert Chained(l, heads, y); }
    if x != c && y != c { assert Ordered(l, |heads|, x, y); }
  }

  lemma PushLinked(l: Links, heads: seq<Cell?>, c: Cell)
    requires Linked(l, heads) && c !in l.next
    ensures Linked(Pushed(l, heads, c), heads[Bucket(c.nval, |heads|) := c])
  {
    var m, more := Pushed(l, heads, c), heads[Bucket(c.nval, |heads|) := c];
    assert HeadsIn(m, more);
    assert AllChained(m, more) by {
      forall x | x in m.next ensures Chained(m, more, x) { PushChained(l, heads, c, x); }
    }
    assert AllOrdered(m, |heads|) by {
      forall x, y | x in m.next && y in m.next ensures Ordered(m, |heads|, x, y) { PushOrdered(l, heads, c, x, y); }
    }
  }

  function Without(l: Links, c: Cell): Links {
    Links(map x | x in l.next && x != c :: l.next[x], map x | x in l.depth && x != c :: l.depth[x])
  }

  lemma PopChained(l: Links, heads: seq<Cell?>, c: Cell, x: Cell)
    requires Linked(l, heads) && c in l.next && heads[Bucket(c.nval, |heads|)] == c && x in l.next && x != c
    ensures Chained(Without(l, c), heads[Bucket(c.nval, |heads|) := l.next[c]], x)
  {
    assert Chained(l, heads, c) && Chained(l, heads, x);
    assert Ordered(l, |heads|, c, x) && Ordered(l, |heads|, x, c);
  }

  lemma PopOrdered(l: Links, heads: seq<Cell?>, c: Cell, x: Cell, y: Cell)
    requires Linked(l, heads) && c in l.next && heads[Bucket(c.nval, |heads|)] == c
    requires x in l.next && x != c && y in l.next && y != c
    ensures Ordered(Without(l, c), |heads|, x, y)
  {
    assert Ordered(l, |heads|, x, y);
    PopChained(l, heads, c, x);
  }

  lemma PopHeads(l: Links, heads: seq<Cell?>, c: Cell)
    requires Linked(l, heads) && c in l.next && heads[Bucket(c.nval, |heads|)] == c
    ensures HeadsIn(Without(l, c), heads[Bucket(c.nval, |heads|) := l.next[c]])
  {
    assert Chained(l, heads, c);
  }

  lemma PopAllChained(l: Links, heads: seq<Cell?>, c: Cell)
    requires Linked(l, heads) && c in l.next && heads[Bucket(c.nval, |heads|)] == c
    ensures AllChained(Without(l, c), heads[Bucket(c.nval, |heads|) := l.next[c]])
  {
    var m, more := Without(l, c), heads[Bucket(c.nval, |heads|) := l.next[c]];
    forall x | x in m.next ensures Chained(m, more, x) { PopChained(l, heads, c, x); }
  }

  lemma PopAllOrdered(l: Links, heads: seq<Cell?>, c: Cell)
    requires Linked(l, heads) && c in l.next && heads[Bucket(c.nval, |heads|)] == c
    ensures AllOrdered(Without(l, c), |heads|)
  {
    var m := Without(l, c);
    forall x, y | x in m.next && y in m.next ensures Ordered(m, |heads|, x, y) { PopOrdered(l, heads, c, x, y); }
  }

  // Without its first cell a chain is still a chain.
  lemma PopLinked(l: Links, heads: seq<Cell?>, c: Cell)
    requires Linked(l, heads) && c in l.next && heads[Bucket(c.nval, |heads|)] == c
    ensures Linked(Without(l, c), heads[Bucket(c.nval, |heads|) := l.next[c]])
  {
    PopHeads(l, heads, c);
    PopAllChained(l, heads, c);
    PopAllOrdered(l, heads, c);
  }

  /** The links with p taken out from behind its predecessor. */
  function Bypassed(l: Links, prev: Cell, p: Cell): Links
    requires p in l.next
  {
    var m := Without(l, p);
    Links(m.next[prev := l.next[p]], m.depth)
  }

  lemma BypassChained(l: Links, heads: seq<Cell?>, prev: Cell, p: Cell, x: Cell)
    requires Linked(l, heads) && prev in l.next && p in l.next && l.next[prev] == p && x in l.next && x != p
    ensures var m := Bypassed(l, prev, p); Sized(m) && x in m.next && Chained(m, heads, x)
  {
    assert Chained(l, heads, prev) && Chained(l, heads, p) && Chained(l, heads, x);
    assert Ordered(l, |heads|, x, prev) && Ordered(l, |heads|, prev, x);
    assert Bypassed(l, prev, p).next.Keys == Bypassed(l, prev, p).depth.Keys;
  }

  lemma BypassOrdered(l: Links, heads: seq<Cell?>, prev: Cell, p: Cell, x: Cell, y: Cell)
    requires Linked(l, heads) && prev in l.next && p in l.next && l.next[prev] == p
    requires x in l.next && x != p && y in l.next && y != p
    ensures var m := Bypassed(l, prev, p); Sized(m) && x in m.next && y in m.next && Ordered(m, |heads|, x, y)
  {
    BypassChained(l, heads, prev, p, x);
    assert Chained(l, heads, prev);
    assert Ordered(l, |heads|, x, y) && Ordered(l, |heads|, p, y);
    assert Ordered(l, |heads|, x, prev) && Ordered(l, |heads|, prev, x);
  }

  lemma BypassLinked(l: Links, heads: seq<Cell?>, prev: Cell, p: Cell)
    requires Linked(l, heads) && prev in l.next && p in l.next && l.next[prev] == p
    ensures Linked(Bypassed(l, prev, p), heads)
  {
    var m := Bypassed(l, prev, p);
    assert Chained(l, heads, prev) && Chained(l, heads, p);
    assert m.next.Keys == m.depth.Keys == l.next.Keys - {p};
    assert HeadsIn(m, heads);
    assert AllChained(m, heads) by {
      forall x | x in m.next ensures Chained(m, heads, x) { BypassChained(l, heads, prev, p, x); }
    }
    assert AllOrdered(m, |heads|) by {
      forall x, y | x in m.next && y in m.next ensures Ordered(m, |heads|, x, y) {
        BypassOrdered(l, heads, prev, p, x, y);
      }
    }
  }

  // ------------------------------------------------------------------ the table in the heap

  /** The fields of the cells are those of the links. */
  ghost predicate Mirrors(l: Links)
    reads l.next.Keys`cnext
  {
    forall c :: c in l.next ==> c.cnext == l.next[c]
  }

  /** No name occurs twice. */
  ghost predicate Distinct(cells: set<Cell>) {
    forall c, d :: c in cells && d in cells && c.nval == d.nval ==> c == d
  }

  /** Distinct cells by their names. */
  ghost function Named(cells: set<Cell>): map<Name, Cell>
    requires Distinct(cells)
  {
    map c | c in cells :: c.nval := c
  }

  // A new name among distinct ones.
  lemma DistinctWith(cells: set<Cell>, p: Cell)
    requires Distinct(cells) && forall c :: c in cells ==> c.nval != p.nval
    ensures Distinct(cells + {p}) && Named(cells + {p}) == Named(cells)[p.nval := p]
  {
  }

  lemma OneMore(cells: set<Cell>, p: Cell)
    requires p !in cells
    ensures |cells + {p}| == |cells| + 1
  {
  }

  lemma NotNamed(cells: set<Cell>, s: Name)
    requires Distinct(cells) && forall c :: c in cells ==> c.nval != s
    ensures Named(cells) - {s} == Named(cells)
  {
  }

  lemma DistinctWithout(cells: set<Cell>, p: Cell)
    requires Distinct(cells) && p in cells
    ensures Distinct(cells - {p}) && Named(cells - {p}) == Named(cells) - {p.nval}
  {
  }

  // Every cell called s is at p or behind it.
  ghost predicate Ahead(l: Links, n: nat, p: Cell?, s: Name)
    requires Sized(l) && n > 0
  {
    || (p == null && forall c :: c in l.next ==> c.nval != s)
    || (p != null && p in l.next && Bucket(p.nval, n) == Bucket(s, n) &&
        forall c :: c in l.next && c.nval == s ==> l.depth[c] <= l.depth[p])
  }

  lemma AheadFirst(l: Links, heads: seq<Cell?>, n: nat, p: Cell?, s: Name)
    requires Linked(l, heads) && n == |heads| && p == heads[Bucket(s, n)]
    ensures Ahead(l, n, p, s)
  {
    forall c | c in l.next && c.nval == s ensures p != null && l.depth[c] <= l.depth[p] {
      assert Chained(l, heads, c);
    }
  }

  lemma AheadNext(l: Links, heads: seq<Cell?>, n: nat, p: Cell, next: Cell?, s: Name)
    requires Linked(l, heads) && n == |heads| && Ahead(l, n, p, s) && p.nval != s && l.next[p] == next
    ensures Ahead(l, n, next, s) && (next != null ==> l.depth[next] < l.depth[p])
  {
    assert Chained(l, heads, p);
    forall c | c in l.next && c.nval == s ensures next != null && l.depth[c] <= l.depth[next] {
      assert Ordered(l, n, p, c);
    }
  }

  // prev is the cell in front of p, or p is the first of its chain.
  ghost predicate Before(l: Links, heads: seq<Cell?>, prev: Cell?, p: Cell?, h: nat) {
    || (prev == null && h < |heads| && p == heads[h])
    || (prev != null && prev in l.next && l.next[prev] == p && prev != p)
  }

  class Table {
    var nelem: nat
    var size: nat
    var tab: array<Cell?>
    ghost var links: Links

    ghost predicate Shape()
      reads this`size, this`tab, this`links, tab, links.next.Keys`cnext
    {
      size > 0 && tab.Length == size && Threaded(links, tab[..])
    }

    /** The cells in the table. */
    ghost function Cells(): set<Cell>
      reads this`links
    {
      links.next.Keys
    }

    /** The chains are right, no name occurs twice, and the count is right and not above the limit. */
    ghost predicate Valid()
      reads this, tab, links.next.Keys`cnext
    {
      Shape() && nelem == |Cells()| <= FULLTAB * size && Distinct(Cells())
    }

    /** The table as a finite map. */
    ghost function Entries(): map<Name, Cell>
      reads this`links
      requires Distinct(Cells())
    {
      Named(Cells())
    }

    constructor (n: nat)
      requires n > 0
      ensures Valid() && Cells() == {} && size == n && fresh(tab)
    {
      nelem, size, links := 0, n, Links(map[], map[]);
      tab := new Cell?[n](_ => null);
    }

    /** Finds the cell of a name (lookup). */
    method Lookup(s: Name) returns (p: Cell?)
      requires Valid()
      ensures p != null <==> exists c :: c in Cells() && c.nval == s
      ensures p != null ==> p in Cells() && p.nval == s
    {
      var h := Hash(s, size);
      p := tab[h];
      AheadFirst(links, tab[..], size, p, s);
      while p != null && p.nval != s
        invariant Ahead(links, size, p, s)
        decreases if p == null then 0 else links.depth[p] + 1
      {
        AheadNext(links, tab[..], size, p, p.cnext, s);
        p := p.cnext;
      }
    }

    /** The cell of a name, which is made if there is none (setsymtab). */
    method SetSymtab(n: Name, s: seq<nat>, f: int, t: nat) returns (p: Cell)
      requires Valid()
      modifies this, tab, Cells()`cnext
      ensures Valid() && (tab == old(tab) || fresh(tab))
      ensures n in old(Entries()) ==> p == old(Entries())[n] && Entries() == old(Entries())
      ensures n !in old(Entries()) ==>
        fresh(p) && (p.sval, p.fval, p.tval) == (s, f, t) && Entries() == old(Entries())[n := p]
    {
      var found := Lookup(n);
      if found != null { return found; }
      p := new Cell(n, s, f, t);
      Add(p);
    }

    // A new cell for a name that has none.
    method Add(p: Cell)
      requires Valid() && p !in Cells() && forall c :: c in Cells() ==> c.nval != p.nval
      modifies this, tab, Cells()`cnext, p`cnext
      ensures Valid() && (tab == old(tab) || fresh(tab))
      ensures Entries() == old(Entries())[p.nval := p]
    {
      DistinctWith(Cells(), p);
      Enter(p);
    }

    // Links in a cell.
    method Insert(p: Cell)
      requires Shape() && p !in Cells()
      modifies this`links, tab, p`cnext
      ensures Shape() && Cells() == old(Cells()) + {p}
    {
      links := Push(tab, size, p, links);
    }

    // Links in a new cell, after making room for it.
    method Enter(p: Cell)
      requires Valid() && p !in Cells()
      modifies this, tab, Cells()`cnext, p`cnext
      ensures Shape() && (tab == old(tab) || fresh(tab)) && Cells() == old(Cells()) + {p}
      ensures nelem == |Cells()| <= FULLTAB * size
    {
      ghost var more := Cells() + {p};
      OneMore(Cells(), p);
      Grow();
      assert nelem == |more|;
      Insert(p);
      assert Cells() == more;
    }

    // Counts one more element and rehashes when that makes the table too full.
    method Grow()
      requires Valid()
      modifies this`nelem, this`tab, this`size, this`links, Cells()`cnext
      ensures Shape() && (tab == old(tab) || fresh(tab)) && Cells() == old(Cells())
      ensures nelem == old(nelem) + 1 <= FULLTAB * size
    {
      nelem := nelem + 1;
      if nelem > FULLTAB * size { Rehash(); }
    }

    /** Takes the cell of a name out of the table, if there is one (freeelem). */
    method FreeElem(s: Name)
      requires Valid()
      modifies this`nelem, this`links, tab, Cells()`cnext
      ensures Valid() && tab == old(tab)
      ensures Entries() == old(Entries()) - {s}
    {
      var h := Hash(s, size);
      var prev, p := Locate(s, h);
      if p == null { NotNamed(Cells(), s); } else { Remove(prev, p, h); }
    }

    method Remove(prev: Cell?, p: Cell, h: nat)
      requires Valid() && p in Cells() && h == Bucket(p.nval, size) && Before(links, tab[..], prev, p, h)
      modifies this`nelem, this`links, tab, Cells()`cnext
      ensures Valid() && tab == old(tab)
      ensures Entries() == old(Entries()) - {p.nval}
    {
      DistinctWithout(Cells(), p);
      nelem := nelem - 1;
      Unlink(prev, p, h);
    }

    // The loop of freeelem: the cell of a name and the cell in front of it.
    method Locate(s: Name, h: nat) returns (prev: Cell?, p: Cell?)
      requires Shape() && h == Bucket(s, size)
      ensures p == null ==> forall c :: c in Cells() ==> c.nval != s
      ensures p != null ==> p in Cells() && p.nval == s && Before(links, tab[..], prev, p, h)
    {
      p, prev := tab[h], null;
      AheadFirst(links, tab[..], size, p, s);
      while p != null && p.nval != s
        invariant Ahead(links, size, p, s) && Before(links, tab[..], prev, p, h)
        decreases if p == null then 0 else links.depth[p] + 1
      {
        AheadNext(links, tab[..], size, p, p.cnext, s);
        prev, p := p, p.cnext;
      }
    }

    // Takes p out of chain h, where prev is in front of it.
    method Unlink(prev: Cell?, p: Cell, h: nat)
      requires Shape() && p in Cells() && h == Bucket(p.nval, size) && Before(links, tab[..], prev, p, h)
      modifies this`links, tab, Cells()`cnext
      ensures Shape() && Cells() == old(Cells()) - {p} && |Cells()| == old(|Cells()|) - 1
    {
      if prev == null {
        ghost var more;
        ghost var m;
        m, more := Pop(links, tab[..], p, h);
        links := m;
        tab[h] := p.cnext;
      } else {
        BypassLinked(links, tab[..], prev, p);
        links := Bypassed(links, prev, p);
        prev.cnext := p.cnext;
      }
    }

    /** Moves every cell, in place, into the chains of a larger table (rehash). */
    method Rehash()
      requires Shape()
      modifies this`tab, this`size, this`links, Cells()`cnext
      ensures Shape() && Cells() == old(Cells()) && size == GROWTAB * old(size) && fresh(tab)
    {
      var nsz := GROWTAB * size;
      var np := new Cell?[nsz](_ => null);
      ghost var moved := MoveAll(np, nsz);
      tab, size, links := np, nsz, moved;
    }

    // The outer loop of rehash.
    method MoveAll(np: array<Cell?>, nsz: nat) returns (ghost moved: Links)
      requires Shape() && nsz == np.Length > 0 && np != tab && forall i :: 0 <= i < nsz ==> np[i] == null
      modifies np, Cells()`cnext
      ensures Threaded(moved, np[..]) && moved.next.Keys == Cells()
    {
      ghost var before, rest, heads := tab[..], links, tab[..];
      moved := Links(map[], map[]);
      var i := 0;
      while i < size
        invariant tab[..] == before && i <= size == |heads|
        invariant Moving(np, Cells(), rest, moved, heads) && Emptied(before, heads, i)
      {
        rest, moved, heads := MoveChain(np, nsz, tab[i], i, Cells(), rest, moved, heads);
        i := i + 1;
      }
      AllMoved(rest, heads);
    }
  }

  // The first i of the old chains are used up and the others are as they were.
  ghost predicate Emptied(was: seq<Cell?>, heads: seq<Cell?>, i: nat) {
    |heads| == |was| && forall j :: 0 <= j < |was| ==> heads[j] == if j < i then null else was[j]
  }

  // The inner loop of rehash.
  method MoveChain(np: array<Cell?>, nsz: nat, first: Cell?, i: nat, ghost all: set<Cell>,
    ghost rest0: Links, ghost moved0: Links, ghost heads0: seq<Cell?>)
    returns (ghost rest: Links, ghost moved: Links, ghost heads: seq<Cell?>)
    requires nsz == np.Length && Moving(np, all, rest0, moved0, heads0) && i < |heads0| && heads0[i] == first
    modifies np, all`cnext
    ensures Moving(np, all, rest, moved, heads) && heads == heads0[i := null]
  {
    rest, moved, heads := rest0, moved0, heads0;
    var cp := first;
    while cp != null
      invariant Moving(np, all, rest, moved, heads) && heads == heads0[i := cp]
      decreases |rest.next|
    {
      HeadKnown(rest, heads, i);
      ghost var was := cp;
      cp, rest, moved, heads := Move(np, nsz, cp, i, all, rest, moved, heads);
      SetTwice(heads0, i, was, cp);
    }
  }

  lemma SetTwice(heads: seq<Cell?>, i: nat, c: Cell?, d: Cell?)
    requires i < |heads|
    ensures heads[i := c][i := d] == heads[i := d]
  {
  }

  lemma HeadKnown(l: Links, heads: seq<Cell?>, i: nat)
    requires Linked(l, heads) && i < |heads| && heads[i] != null
    ensures heads[i] in l.next && Bucket(heads[i].nval, |heads|) == i
  {
  }

  /** Puts a cell in front of its chain: two assignments. */
  method Push(heads: array<Cell?>, n: nat, c: Cell, ghost l: Links) returns (ghost m: Links)
    requires n == heads.Length && Threaded(l, heads[..]) && c !in l.next
    modifies heads, c`cnext
    ensures Threaded(m, heads[..]) && m.next.Keys == l.next.Keys + {c}
  {
    var h := Hash(c.nval, n);
    PushLinked(l, heads[..], c);
    m := Pushed(l, heads[..], c);
    c.cnext := heads[h];
    heads[h] := c;
  }

  /** In the middle of rehash: every cell is linked either into the old chains or into the new. */
  ghost predicate Moving(np: array<Cell?>, all: set<Cell>, rest: Links, moved: Links, heads: seq<Cell?>)
    reads np, rest.next.Keys`cnext, moved.next.Keys`cnext
  {
    Threaded(rest, heads) && Threaded(moved, np[..]) && Parted(all, rest, moved)
  }

  ghost predicate Threaded(l: Links, heads: seq<Cell?>)
    reads l.next.Keys`cnext
  {
    (Linked(l, heads), Mirrors(l)) == (true, true)
  }

  predicate Parted(all: set<Cell>, rest: Links, moved: Links) {
    rest.next.Keys + moved.next.Keys == all && rest.next.Keys !! moved.next.Keys
  }

  lemma PartedStill(all: set<Cell>, rest0: Links, moved0: Links, rest: Links, moved: Links, c: Cell)
    requires Parted(all, rest0, moved0) && c in rest0.next
    requires rest.next.Keys == rest0.next.Keys - {c} && moved.next.Keys == moved0.next.Keys + {c}
    ensures Parted(all, rest, moved)
  {
  }

  // The old chains without the cell at the head of chain i.
  lemma Pop(l: Links, heads: seq<Cell?>, c: Cell, i: nat) returns (m: Links, more: seq<Cell?>)
    requires Threaded(l, heads) && c in l.next && i < |heads| && heads[i] == c && i == Bucket(c.nval, |heads|)
    ensures Threaded(m, more) && more == heads[i := c.cnext]
    ensures m.next.Keys == l.next.Keys - {c} && |m.next| < |l.next|
  {
    PopLinked(l, heads, c);
    m, more := Without(l, c), heads[i := l.next[c]];
    assert m.next.Keys == l.next.Keys - {c};
    assert |m.next| == |m.next.Keys| && |l.next| == |l.next.Keys|;
  }

  // One turn of rehash's inner loop.
  method Move(np: array<Cell?>, nsz: nat, cp: Cell, i: nat, ghost all: set<Cell>,
    ghost rest0: Links, ghost moved0: Links, ghost heads0: seq<Cell?>)
    returns (op: Cell?, ghost rest: Links, ghost moved: Links, ghost heads: seq<Cell?>)
    requires nsz == np.Length && Moving(np, all, rest0, moved0, heads0) && i < |heads0| && heads0[i] == cp
    modifies np, cp`cnext
    ensures Moving(np, all, rest, moved, heads) && heads == heads0[i := op] && |rest.next| < |rest0.next|
  {
    op := cp.cnext;
    HeadKnown(rest0, heads0, i);
    rest, heads := Pop(rest0, heads0, cp, i);
    moved := Push(np, nsz, cp, moved0);
    PartedStill(all, rest0, moved0, rest, moved, cp);
  }

  lemma AllMoved(rest: Links, heads: seq<Cell?>)
    requires Linked(rest, heads) && forall j :: 0 <= j < |heads| ==> heads[j] == null
    ensures rest.next.Keys == {}
  {
    forall c ensures c !in rest.next {
      if c in rest.next { HeadOfChain(rest, heads, c); }
    }
  }

  lemma HeadOfChain(l: Links, heads: seq<Cell?>, c: Cell)
    requires Linked(l, heads) && c in l.next
    ensures heads[Bucket(c.nval, |heads|)] != null
  {
    assert Chained(l, heads, c);
  }
}
