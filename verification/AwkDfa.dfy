/** The lazily built subset automaton with its 32-slot state table (b.c: mkdfa, makeinit, cgoto). */
module AwkDfa {
  import opened AwkRegex
  import opened AwkPositions
  import opened AwkPattern
  import opened AwkTree
  import opened AwkSubset

  lemma ElemsSnoc(l: seq<nat>, i: nat)
    requires i < |l|
    ensures Elems(l[..i + 1]) == Elems(l[..i]) + {l[i]}
  {
  }

  // member
  method Member(c: nat, s: ClassString) returns (found: bool)
    ensures found <==> c in s
  {
    for i := 0 to |s|
      invariant c !in s[..i]
    {
      if c == s[i] { return true; }
    }
    assert s[..|s|] == s;
    found := false;
  }

  /** cgoto's test of a leaf: whether it matches the symbol c. */
  method Reads(l: Leaf, c: nat) returns (b: bool)
    ensures b <==> In([c], Unit(l))
  {
    match l
    case Final => b := false;
    case Char(v) => b := c == v;
    case Dot => b := c != 0 && c != HAT;
    case All => b := c != 0;
    case Ccl(s) => b := Member(c, s);
    case Nccl(s) =>
      var m := Member(c, s);
      b := !m && c != 0 && c != HAT;
  }

  // cgoto's first part: the successor of positions p on c, into setvec.
  method MarkSuccessor(re: seq<Row>, p: seq<nat>, c: nat, g: Globals)
    requires g.Ready() && |re| < MAXLIN && RowsStored(re) && Stored(p, |re|)
    modifies g`setcnt, g`marked, g.setvec
    ensures g.Counted(|re|) && g.marked == StepSet(re, Elems(p), c)
  {
    g.Clear(|re|);
    var i := 0;
    ghost var seen: set<nat> := {};
    while i < |p|
      invariant 0 <= i <= |p| && seen == Elems(p[..i])
      invariant g.Counted(|re|)
      invariant g.marked == StepSet(re, seen, c)
    {
      assert p[i] in p;
      StepSetAdd(re, seen, p[i], c);
      MarkRow(re[p[i]], c, g, |re|);
      ElemsSnoc(p, i);
      seen := seen + {p[i]};
      i := i + 1;
    }
    assert p[..|p|] == p;
  }

  // The positions after one leaf, if it matches c.
  method MarkRow(row: Row, c: nat, g: Globals, n: nat)
    requires g.Ready() && g.Counted(n) && Stored(row.follow, n)
    modifies g`setcnt, g`marked, g.setvec
    ensures g.Counted(n) && g.marked == old(g.marked) + if Consumes(row.leaf, c) then Elems(row.follow) else {}
  {
    var taken := Reads(row.leaf, c);
    if taken {
      MarkAll(g, row.follow, n);
    }
  }

  lemma StepSetAdd(rows: seq<Row>, s: set<nat>, i: nat, c: nat)
    requires i < |rows|
    ensures StepSet(rows, s + {i}, c) ==
            StepSet(rows, s, c) + if Consumes(rows[i].leaf, c) then Elems(rows[i].follow) else {}
  {
    var add := if Consumes(rows[i].leaf, c) then Elems(rows[i].follow) else {};
    forall j | j in StepSet(rows, s + {i}, c) ensures j in StepSet(rows, s, c) + add {
      var k :| k in s + {i} && k < |rows| && Consumes(rows[k].leaf, c) && j in rows[k].follow;
      if k == i { assert j in Elems(rows[i].follow); } else { assert k in s; }
    }
    forall j | j in add ensures j in StepSet(rows, s + {i}, c) {
      assert i in s + {i} && j in rows[i].follow;
    }
  }

  method MarkAll(g: Globals, q: seq<nat>, n: nat)
    requires g.Ready() && g.Counted(n) && forall x :: x in q ==> x < n
    modifies g`setcnt, g`marked, g.setvec
    ensures g.Counted(n) && g.marked == old(g.marked) + Elems(q)
  {
    ghost var was := g.marked;
    var j := 0;
    while j < |q|
      invariant 0 <= j <= |q| && g.Counted(n)
      invariant forall x :: x in g.marked <==> x in was || x in q[..j]
    {
      assert q[j] in q && q[..j + 1] == q[..j] + [q[j]];
      if g.setvec[q[j]] == 0 {
        g.Mark(q[j], n);
      }
      j := j + 1;
    }
    assert q[..|q|] == q;
  }

  // The list in tmpset: its length in tmpset[0], its elements after that.
  ghost function Listed(g: Globals): seq<nat>
    requires g.Ready() && g.tmpset[0] < MAXLIN
    reads g.tmpset
  {
    g.tmpset[1..g.tmpset[0] + 1]
  }

  // cgoto's second part: setvec as a descending list in tmpset.
  method ListSuccessor(g: Globals, n: nat)
    requires n < MAXLIN && g.Ready() && g.Counted(n)
    modifies g.tmpset
    ensures g.tmpset[0] == g.setcnt < MAXLIN && Listed(g) == Descending(n, g.marked)
  {
    DescendingLength(n, g.marked);
    DescendingAtMost(n, g.marked);
    g.tmpset[0] := g.setcnt;
    var j := 1;
    var i := n;
    ghost var total := Descending(n, g.marked);
    while i > 0
      invariant 0 <= i <= n && 1 <= j <= |total| + 1
      invariant Descending(i, g.marked) == total[j - 1..]
      invariant forall k :: 1 <= k < j ==> g.tmpset[k] == total[k - 1]
      invariant g.tmpset[0] == g.setcnt
    {
      i := i - 1;
      if g.setvec[i] != 0 {
        DropHead(total, j - 1, i, Descending(i, g.marked));
        g.tmpset[j] := i;
        j := j + 1;
      }
    }
    assert j == |total| + 1;
  }

  lemma DropHead(l: seq<nat>, k: nat, x: nat, rest: seq<nat>)
    requires k <= |l| && l[k..] == [x] + rest
    ensures k < |l| && l[k] == x && l[k + 1..] == rest
  {
    assert |l[k..]| == 1 + |rest|;
    assert l[k] == l[k..][0] && l[k + 1..] == l[k..][1..];
  }

  lemma {:induction false} DescendingAtMost(n: nat, s: set<nat>)
    ensures |Descending(n, s)| <= n
  {
    if n > 0 { DescendingAtMost(n - 1, s); }
  }

  method SameList(g: Globals, p: seq<nat>) returns (same: bool)
    requires g.Ready() && g.tmpset[0] < MAXLIN
    ensures same <==> p == Listed(g)
  {
    var k := g.tmpset[0];
    if k != |p| {
      return false;
    }
    var j := 1;
    while j <= k
      invariant 1 <= j <= k + 1
      invariant forall i :: 1 <= i < j ==> g.tmpset[i] == p[i - 1]
    {
      if g.tmpset[j] != p[j - 1] {
        assert Listed(g)[j - 1] != p[j - 1];
        return false;
      }
      j := j + 1;
    }
    return true;
  }

  /** The struct fa. posns[s] lists the positions of state s in descending order; the counts that
    * the program keeps in front of each list are the lengths of the sequences. */
  class Fa {
    const re: Automaton
    const gototab: array2<nat>
    const posns: array<seq<nat>>
    const out: array<bool>
    const anchor: bool
    var initstat: nat
    var curstat: nat
    var reset: bool

    // How often the table has overflowed, how often a wrong transition has been recorded, and the symbol of
    // the one that is in the table now, from slot 2 to itself, or NONE.
    ghost var overflows: nat
    ghost var wrongs: nat
    ghost var slip: int

    // mkdfa's Calloc of a zeroed struct; posns[1] becomes the empty list.
    constructor (a: Automaton, anchor: bool)
      ensures re == a && this.anchor == anchor && Sized()
      ensures fresh(gototab) && fresh(posns) && fresh(out)
      ensures !reset && overflows == 0 && wrongs == 0 && Right()
      ensures posns[1] == [] && !out[1]
      ensures forall s, c :: 0 <= s < NSTATES && 0 <= c < NCHARS ==> gototab[s, c] == 0
    {
      re := a;
      gototab := new nat[NSTATES, NCHARS]((i, j) => 0);
      posns := new seq<nat>[NSTATES](_ => []);
      out := new bool[NSTATES](_ => false);
      this.anchor := anchor;
      initstat := 0;
      curstat := 0;
      reset := false;
      overflows := 0;
      wrongs := 0;
      slip := NONE;
    }

    function Accept(): nat { |re| - 1 }

    // Every transition in the table is right.
    ghost predicate Right()
      reads this`slip
    {
      slip == NONE
    }

    /** What the struct remembers of the subset construction. */
    ghost function View(): Mem
      requires Sized() && curstat < NSTATES
      reads this`curstat, this`reset, this`initstat, this`slip, this`overflows, this`wrongs, posns
    {
      Mem(posns[..curstat + 1], slip, reset, initstat, overflows, wrongs)
    }

    // What it is filled from.
    ghost function Auto(): Machine { MachineOf(re, anchor) }

    // The list that the table should lead to from state s on symbol c.
    ghost function Led(s: nat, c: nat): seq<nat>
      requires Sized() && s < NSTATES
      reads this`slip, posns
    {
      if s == 2 && c == slip then posns[2] else Next(re, posns[s], c)
    }

    ghost predicate Sized() {
      (gototab.Length0, gototab.Length1, posns.Length, out.Length) == (NSTATES, NCHARS, NSTATES, NSTATES)
    }

    /** A live state is a stored position set, knows whether it accepts, and has transitions to live
      * states only. */
    ghost predicate StateOk(s: nat)
      requires Sized() && s < NSTATES
      reads this`curstat, gototab, posns, out
    {
      Stored(posns[s], |re|) && (out[s] <==> Accept() in posns[s]) &&
      forall c :: 0 <= c < NCHARS ==> gototab[s, c] <= if s == 1 then 1 else curstat
    }

    /** The recorded transitions of s on text symbols name the exact successor sets, the slip excepted. */
    ghost predicate RowRight(s: nat)
      requires Sized() && s < NSTATES
      reads this`slip, gototab, posns
    {
      forall c :: 0 <= c < HAT && 0 < gototab[s, c] < NSTATES ==> posns[gototab[s, c]] == Led(s, c)
    }

    // The live states are 1..curstat; state 1 is the empty set.
    ghost predicate States()
      reads this`curstat, gototab, posns, out
    {
      Sized() && 2 <= curstat < NSTATES && posns[1] == [] &&
      forall s :: 1 <= s <= curstat ==> StateOk(s)
    }

    ghost predicate TableRight()
      requires Sized() && curstat < NSTATES
      reads this`curstat, this`slip, gototab, posns
    {
      forall s :: 1 <= s <= curstat ==> RowRight(s)
    }

    // A wrong transition is there only until the table is rebuilt, which is going to happen.
    ghost predicate SlipKnown()
      requires Sized()
      reads this`slip, this`reset, gototab
    {
      slip == NONE || (0 <= slip < HAT && reset && gototab[2, slip] == 2)
    }

    ghost predicate Valid()
      reads this, gototab, posns, out
    {
      Sized() && curstat < NSTATES && (States(), Proper(View()), TableRight(), SlipKnown()) == (true, true, true, true)
    }

    // cgoto's third part: the first live state with this position list, or 0.
    method FindState(g: Globals) returns (i: nat)
      requires States() && g.Ready() && g.tmpset[0] < MAXLIN
      ensures i <= curstat
      ensures i == 0 ==> forall k :: 1 <= k <= curstat ==> posns[k] != Listed(g)
      ensures i != 0 ==> posns[i] == Listed(g)
      ensures g.tmpset[0] == 0 ==> i == 1
    {
      i := 1;
      while i <= curstat
        invariant 1 <= i <= curstat + 1
        invariant forall k :: 1 <= k < i ==> posns[k] != Listed(g)
      {
        var same := SameList(g, posns[i]);
        if same {
          return i;
        }
        i := i + 1;
      }
      i := 0;
    }

    // The successor just computed into setvec and tmpset.
    ghost predicate Pending(g: Globals, s: nat, c: nat)
      requires Sized() && s < NSTATES
      reads posns, g, g.setvec, g.tmpset
    {
      g.Ready() && g.tmpset[0] < MAXLIN && Listed(g) == Next(re, posns[s], c) &&
      (g.setvec[Accept()] != 0 <==> Accept() in Listed(g))
    }

    // Below row `below`, only the entry for s and c may have changed.
    twostate predicate OtherEntriesKept(s: nat, c: nat, below: nat)
      requires Sized()
      reads gototab
    {
      forall i, j :: 0 <= i < below && i < NSTATES && 0 <= j < NCHARS && (i != s || j != c) ==>
        gototab[i, j] == old(gototab[i, j])
    }

    method ZeroRow(s: nat)
      requires Sized() && s < NSTATES
      modifies gototab
      ensures forall c :: 0 <= c < NCHARS ==> gototab[s, c] == 0
      ensures forall i, c :: 0 <= i < NSTATES && 0 <= c < NCHARS && i != s ==> gototab[i, c] == old(gototab[i, c])
    {
      for i := 0 to NCHARS
        invariant forall c :: 0 <= c < i ==> gototab[s, c] == 0
        invariant forall k, c :: 0 <= k < NSTATES && 0 <= c < NCHARS && k != s ==> gototab[k, c] == old(gototab[k, c])
      {
        gototab[s, i] := 0;
      }
    }

    // cgoto's last part when there is room: a new state behind the live ones.
    method AddState(g: Globals, s: nat, c: nat) returns (t: nat)
      requires Valid() && 1 <= s <= curstat < NSTATES - 1 && c < NCHARS && Pending(g, s, c)
      requires g.tmpset[0] > 0 && gototab[s, c] == 0 && forall k :: 1 <= k <= curstat ==> posns[k] != Listed(g)
      modifies this`curstat, gototab, posns, out
      ensures Valid() && t == curstat == old(curstat) + 1
      ensures View() == old(View()).(lists := old(View()).lists + [Next(re, old(posns[s]), c)])
      ensures posns[t] == old(Next(re, posns[s], c))
      ensures forall k :: 0 <= k < t ==> posns[k] == old(posns[k]) && out[k] == old(out[k])
      ensures forall k :: 1 <= k < t ==> posns[k] != posns[t]
      ensures forall i :: 0 <= i < NCHARS ==> gototab[t, i] == 0
      ensures OtherEntriesKept(s, c, t)
    {
      NextStored(re, posns[s], c);
      assert s != 1 by { EmptyNext(re, c); }
      ghost var before := View();
      t := WriteState(g, s, c);
      forall k | 1 <= k < t ensures StateOk(k) {
        assert old(StateOk(k));
      }
      forall k | 1 <= k <= t ensures RowRight(k) {
        if k < t { assert old(RowRight(k)) && old(StateOk(k)); }
      }
      assert forall k :: 1 <= k < t ==> before.lists[k] == posns[k];
      ProperSnoc(before, posns[t], View());
    }

    method WriteState(g: Globals, s: nat, c: nat) returns (t: nat)
      requires Sized() && g.Ready() && g.tmpset[0] < MAXLIN && s <= curstat < NSTATES - 1 && c < NCHARS
      modifies this`curstat, gototab, posns, out
      ensures t == curstat == old(curstat) + 1 && gototab[s, c] == t && OtherEntriesKept(s, c, t)
      ensures posns[t] == Listed(g) && (out[t] <==> g.setvec[Accept()] != 0)
      ensures forall k :: 0 <= k < t ==> posns[k] == old(posns[k]) && out[k] == old(out[k])
      ensures forall i :: 0 <= i < NCHARS ==> gototab[t, i] == 0
      ensures posns[..t + 1] == old(posns[..t]) + [posns[t]]
    {
      curstat := curstat + 1;
      t := curstat;
      ZeroRow(t);
      gototab[s, c] := t;
      posns[t] := g.tmpset[1..g.tmpset[0] + 1];
      out[t] := g.setvec[Accept()] != 0;
    }

    // Every state but the empty one is dropped and slot 2 is made ready.
    method DropStates()
      requires Sized()
      modifies this`curstat, this`reset, gototab, posns
      ensures curstat == 2 && reset
      ensures posns[0] == old(posns[0]) && posns[1] == old(posns[1])
      ensures forall c :: 0 <= c < NCHARS ==> gototab[2, c] == 0 && gototab[1, c] == old(gototab[1, c])
    {
      curstat := 2;
      reset := true;
      for i := 2 to NSTATES
        modifies posns
        invariant posns[0] == old(posns[0]) && posns[1] == old(posns[1])
      {
        posns[i] := [];
      }
      ZeroRow(2);
    }

    // Slot 2 receives the list in tmpset, and the transition that led to it is recorded in row s.
    method Reoccupy(g: Globals, s: nat, c: nat)
      requires Sized() && g.Ready() && g.tmpset[0] < MAXLIN && 2 <= s < NSTATES && c < NCHARS
      modifies this`curstat, this`reset, gototab, posns, out
      ensures curstat == 2 && reset
      ensures posns[0] == old(posns[0]) && out[0] == old(out[0])
      ensures posns[1] == old(posns[1]) && out[1] == old(out[1])
      ensures posns[2] == Listed(g) && (out[2] <==> g.setvec[Accept()] != 0)
      ensures forall i :: 0 <= i < NCHARS ==> gototab[1, i] == old(gototab[1, i])
      ensures forall i :: 0 <= i < NCHARS ==> gototab[2, i] == if s == 2 && i == c then 2 else 0
    {
      DropStates();
      gototab[s, c] := 2;
      posns[2] := g.tmpset[1..g.tmpset[0] + 1];
      out[2] := g.setvec[Accept()] != 0;
    }

    // A table with one state besides the empty one.
    lemma TwoStates()
      requires Sized() && curstat == 2 && posns[1] == [] != posns[2] && StateOk(1) && StateOk(2)
      requires RowRight(1) && RowRight(2) && SlipKnown()
      ensures Valid() && View().lists == [posns[0], [], posns[2]]
    {
      assert posns[..3] == [posns[0], [], posns[2]];
    }

    // The table has overflowed, and the transition from s on c may have become a wrong one.
    twostate predicate Recycled(s: nat, c: nat)
      requires Sized()
      reads this, posns
    {
      && curstat == 2 && reset && overflows == old(overflows) + 1
      && slip == (if s == 2 && c < HAT && Next(re, posns[2], c) != posns[2] then c else NONE)
      && wrongs == old(wrongs) + if Right() then 0 else 1
    }

    // cgoto's last part when the table is full: slot 2 is recycled and every other state is dropped.
    method Recycle(g: Globals, s: nat, c: nat)
      requires Valid() && 2 <= s <= curstat && c < NCHARS && Pending(g, s, c) && Listed(g) != []
      modifies this`curstat, this`reset, this`overflows, this`wrongs, this`slip, gototab, posns, out
      ensures Valid() && Recycled(s, c) && posns[2] == old(Next(re, posns[s], c))
      ensures posns[0] == old(posns[0]) && out[0] == old(out[0])
      ensures View().lists == [old(posns[0]), [], posns[2]]
    {
      NextStored(re, posns[s], c);
      assert old(StateOk(1));
      Reoccupy(g, s, c);
      overflows := overflows + 1;
      slip := if s == 2 && c < HAT && Next(re, posns[2], c) != posns[2] then c else NONE;
      wrongs := wrongs + if Right() then 0 else 1;
      RowOfEmpty();
      TwoStates();
    }

    // cgoto when the successor is a live state already.
    method Record(s: nat, c: nat, t: nat)
      requires Valid() && 1 <= s <= curstat && c < NCHARS && 1 <= t <= curstat
      requires posns[t] == Next(re, posns[s], c) && (s == 1 ==> t == 1) && gototab[s, c] == 0
      modifies gototab
      ensures Valid() && OtherEntriesKept(s, c, NSTATES)
    {
      gototab[s, c] := t;
      forall k | 1 <= k <= curstat ensures StateOk(k) {
        assert old(StateOk(k));
      }
      forall k | 1 <= k <= curstat ensures RowRight(k) {
        assert old(RowRight(k));
      }
    }

    method Found(s: nat, c: nat, t: nat)
      requires Valid() && 1 <= s <= curstat && c < NCHARS && 1 <= t <= curstat
      requires posns[t] == Next(re, posns[s], c) && (s == 1 ==> t == 1) && gototab[s, c] == 0
      modifies gototab
      ensures Valid() && OtherEntriesKept(s, c, NSTATES)
      ensures View() == old(View()) && Moved(View(), t) == Auto().MoveTo(View(), s, c, posns[t])
    {
      SlotIs(View().lists, t);
      Record(s, c, t);
    }

    // cgoto's first two parts.
    method Compute(g: Globals, s: nat, c: nat)
      requires States() && g.Ready() && 1 <= s <= curstat
      modifies g`setcnt, g`marked, g.setvec, g.tmpset
      ensures Pending(g, s, c)
    {
      assert StateOk(s);
      MarkSuccessor(re, posns[s], c, g);
      ListSuccessor(g, |re|);
    }

    // Without an overflow, the live states stay, and at most one is added behind them.
    twostate predicate StatesKept(s: nat, c: nat, t: nat)
      requires Sized()
      reads this, gototab, posns
    {
      && (wrongs, reset, slip) == old((wrongs, reset, slip)) && OtherEntriesKept(s, c, old(curstat) + 1)
      && (forall k :: 1 <= k <= old(curstat) && k < NSTATES ==> posns[k] == old(posns[k]))
      && (|| curstat == old(curstat)
          || (t == curstat == old(curstat) + 1 < NSTATES && forall i :: 0 <= i < NCHARS ==> gototab[t, i] == 0))
    }

    /** cgoto: the state for the positions reached from state s on symbol c.
      * A full table forces slot 2 to be reused; if s is itself slot 2, the transition that is then
      * recorded belongs to the old occupant and is right for the new one only by coincidence. */
    method Goto(g: Globals, s: nat, c: nat) returns (t: nat)
      requires Valid() && g.Ready() && 1 <= s <= curstat && c < NCHARS && gototab[s, c] == 0
      modifies this`curstat, this`reset, this`overflows, this`wrongs, this`slip, gototab, posns, out
      modifies g`setcnt, g`marked, g.setvec, g.tmpset
      ensures Valid() && 1 <= t <= curstat
      ensures posns[t] == old(Next(re, posns[s], c))
      ensures posns[0] == old(posns[0]) && out[0] == old(out[0])
      ensures Moved(View(), t) == Auto().MoveTo(old(View()), s, c, old(Next(re, posns[s], c)))
      ensures overflows != old(overflows) <==>
                old(curstat) == NSTATES - 1 &&
                forall k :: 1 <= k < NSTATES ==> old(posns[k]) != old(Next(re, posns[s], c))
      ensures overflows != old(overflows) ==> t == 2 && Recycled(s, c)
      ensures overflows == old(overflows) ==> StatesKept(s, c, t)
    {
      Compute(g, s, c);
      t := Enter(g, s, c);
    }

    // cgoto's other parts.
    method Enter(g: Globals, s: nat, c: nat) returns (t: nat)
      requires Valid() && 1 <= s <= curstat && c < NCHARS && gototab[s, c] == 0 && Pending(g, s, c)
      modifies this`curstat, this`reset, this`overflows, this`wrongs, this`slip, gototab, posns, out
      ensures Valid() && 1 <= t <= curstat
      ensures posns[t] == old(Next(re, posns[s], c))
      ensures posns[0] == old(posns[0]) && out[0] == old(out[0])
      ensures Moved(View(), t) == Auto().MoveTo(old(View()), s, c, old(Next(re, posns[s], c)))
      ensures overflows != old(overflows) <==>
                old(curstat) == NSTATES - 1 &&
                forall k :: 1 <= k < NSTATES ==> old(posns[k]) != old(Next(re, posns[s], c))
      ensures overflows != old(overflows) ==> t == 2 && Recycled(s, c)
      ensures overflows == old(overflows) ==> StatesKept(s, c, t)
    {
      t := FindState(g);
      assert forall k :: 1 <= k <= curstat ==> View().lists[k] == posns[k];
      if t != 0 {
        assert s == 1 ==> t == 1 by { EmptyNext(re, c); }
        Found(s, c, t);
      } else if curstat >= NSTATES - 1 {
        assert s != 1 by { EmptyNext(re, c); }
        Recycle(g, s, c);
        t := 2;
      } else {
        t := AddState(g, s, c);
      }
    }

    // What makeinit needs of a struct that is new or is being restarted.
    ghost predicate Startable()
      reads gototab, posns, out
    {
      Sized() && posns[1] == [] && !out[1] && forall c :: 0 <= c < NCHARS ==> gototab[1, c] <= 1
    }

    // makeinit before the HAT step: slot 2 holds the start set.
    method FillStart()
      requires Startable()
      modifies this`curstat, this`reset, this`slip, gototab, posns, out
      ensures Valid() && curstat == 2 && !reset && Right() && posns[2] == StartList(re) && posns[0] == old(posns[0])
      ensures forall c :: 0 <= c < NCHARS ==> gototab[2, c] == 0
    {
      StartFacts(re);
      curstat := 2;
      out[2] := false;
      reset := false;
      slip := NONE;
      posns[2] := re[0].follow;
      if posns[2][0] == Accept() {
        out[2] := true;
      }
      ZeroRow(2);
      assert Stored([], |re|) by { NothingDescending(|re|); assert Elems([]) == {}; }
      RowOfEmpty();
      TwoStates();
    }

    // What the anchored fa keeps in slots 0 and 2, and in the slot reached by the HAT marker.
    ghost predicate AnchoredAt(t: nat)
      requires Sized() && t < NSTATES
      reads posns, out
    {
      (posns[2], posns[t]) == (AnchoredList(re), HatList(re)) && SavedStart()
    }

    // Slot 0 of an anchored fa is a copy of the anchored start state, kept for restarts.
    ghost predicate SavedStart()
      requires Sized()
      reads posns, out
    {
      (posns[0], out[0]) == (AnchoredList(re), Accept() in AnchoredList(re))
    }

    // Slot 2 holds the untrimmed start set and slot t its successor on HAT; no text has been read yet.
    ghost predicate Untrimmed(t: nat)
      requires Sized()
      reads this`curstat, gototab, posns
    {
      t == curstat == HatSlot(re) && posns[2] == StartList(re) && posns[t] == Next(re, StartList(re), HAT) &&
      forall c :: 0 <= c < HAT ==> gototab[2, c] == 0 && gototab[t, c] == 0
    }

    // makeinit for an anchored fa: position 0 is left out of the start state and of the HAT state.
    method Trim(t: nat)
      requires Valid() && Right() && Untrimmed(t)
      modifies posns, out
      ensures Valid() && AnchoredAt(t)
      ensures View().lists == MachineOf(re, true).StartLists(AnchoredList(re))
    {
      TrimmedLists(re);
      MachineFacts(re, true);
      StartListsDiffer(MachineOf(re, true), AnchoredList(re));
      TrimLists(t);
      assert StateOk(1);
      RowOfEmpty();
      assert posns[..curstat + 1] == MachineOf(re, true).StartLists(AnchoredList(re));
    }

    method TrimLists(t: nat)
      requires States() && Untrimmed(t)
      modifies posns, out
      ensures States() && AnchoredAt(t)
    {
      TrimmedLists(re);
      assert StateOk(1) && StateOk(2) && StateOk(t);
      posns[2] := posns[2][..|posns[2]| - 1];
      posns[0] := posns[2];
      out[0] := out[2];
      if curstat != 2 {
        posns[curstat] := posns[curstat][..|posns[curstat]| - 1];
      }
      forall s | 1 <= s <= curstat ensures StateOk(s) {
        assert old(StateOk(s));
      }
    }

    lemma RowOfEmpty()
      requires Sized() && posns[1] == [] && forall c :: 0 <= c < HAT ==> gototab[1, c] <= 1
      ensures RowRight(1)
    {
      forall c | 0 <= c < HAT ensures Next(re, [], c) == [] { EmptyNext(re, c); }
    }

    // makeinit's cgoto call.
    method ReadHat(g: Globals) returns (t: nat)
      requires Valid() && g.Ready() && curstat == 2 && posns[2] == StartList(re)
      requires forall c :: 0 <= c < NCHARS ==> gototab[2, c] == 0
      modifies this`curstat, this`reset, this`overflows, this`wrongs, this`slip, gototab, posns, out
      modifies g`setcnt, g`marked, g.setvec, g.tmpset
      ensures Valid() && Untrimmed(t) && reset == old(reset) && posns[0] == old(posns[0])
      ensures (overflows, wrongs, slip) == old((overflows, wrongs, slip))
    {
      HatNext(re);
      FirstMove(Auto(), View(), 2, HAT, Next(re, StartList(re), HAT));
      t := Goto(g, 2, HAT);
    }

    /** makeinit: slot 2 becomes the start state, and the state after the HAT marker is returned. Whatever
      * the table held before, every transition in it is right afterwards. */
    method MakeInit(g: Globals) returns (t: nat)
      requires Startable() && g.Ready()
      modifies this`curstat, this`reset, this`overflows, this`wrongs, this`slip, gototab, posns, out
      modifies g`setcnt, g`marked, g.setvec, g.tmpset
      ensures Valid() && t == curstat == HatSlot(re) && !reset
      ensures (overflows, wrongs) == old((overflows, wrongs)) && Right()
      ensures View().lists == Auto().StartLists(if anchor then AnchoredList(re) else old(posns[0]))
      ensures anchor ==> AnchoredAt(t)
      ensures !anchor ==> posns[t] == Next(re, StartList(re), HAT)
    {
      FillStart();
      t := ReadHat(g);
      curstat := t;
      if anchor {
        Trim(t);
      } else {
        MachineFacts(re, false);
        assert posns[..curstat + 1] == Auto().StartLists(posns[0]);
      }
    }
  }
}
