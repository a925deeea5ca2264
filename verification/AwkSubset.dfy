/** The subset construction of awk's matcher as values (b.c: cgoto, makeinit), and what the 32-slot state table
  * remembers of it. */
module AwkSubset {
  import opened AwkRegex
  import opened AwkPositions
  import opened AwkPattern
  import opened AwkTree

  const NSTATES: nat := 32

  // Every follow list of the automaton is a stored set.
  ghost predicate RowsStored(rows: seq<Row>) {
    forall i :: 0 <= i < |rows| ==> Stored(rows[i].follow, |rows|)
  }

  lemma {:induction false} NothingDescending(n: nat)
    ensures Descending(n, {}) == []
  {
    if n > 0 { NothingDescending(n - 1); }
  }

  // Position 0 is last in a descending list, so dropping the last element drops position 0.
  lemma {:induction false} DropLast(n: nat, l: seq<nat>)
    requires Stored(l, n) && 0 in l
    ensures l[|l| - 1] == 0
    ensures Stored(l[..|l| - 1], n) && Elems(l[..|l| - 1]) == Elems(l) - {0}
  {
    var s := Elems(l);
    LastIsZero(n, s);
    DescendingSnoc(n, s);
    assert forall i :: i in Elems(l) ==> i < n;
    StoredDescending(n, s - {0});
  }

  lemma {:induction false} LastIsZero(n: nat, s: set<nat>)
    requires n > 0 && 0 in s
    ensures Descending(n, s) != [] && Descending(n, s)[|Descending(n, s)| - 1] == 0
  {
    if n > 1 { LastIsZero(n - 1, s); }
  }

  lemma {:induction false} DescendingSnoc(n: nat, s: set<nat>)
    requires n > 0 && 0 in s
    ensures Descending(n, s) == Descending(n, s - {0}) + [0]
  {
    if n > 1 {
      DescendingSnoc(n - 1, s);
    } else {
      assert Descending(1, s) == [0] + Descending(0, s);
    }
  }

  // The largest position below n is first.
  lemma HeadOf(n: nat, s: set<nat>)
    requires n > 0
    ensures n - 1 in s <==> Descending(n, s) != [] && Descending(n, s)[0] == n - 1
  {
    if Descending(n, s) != [] { assert Descending(n, s)[0] in Descending(n, s); }
  }

  // The stored form of the successor of positions l on symbol c.
  ghost function Next(re: seq<Row>, l: seq<nat>, c: nat): seq<nat> {
    Descending(|re|, StepSet(re, Elems(l), c))
  }

  // Successors are position sets again.
  lemma NextStored(re: seq<Row>, l: seq<nat>, c: nat)
    requires RowsStored(re)
    ensures forall j :: j in StepSet(re, Elems(l), c) ==> j < |re|
    ensures Elems(Next(re, l, c)) == StepSet(re, Elems(l), c)
    ensures Stored(Next(re, l, c), |re|)
  {
    forall j | j in StepSet(re, Elems(l), c) ensures j < |re| {
      var i: nat :| i < |re| && j in re[i].follow;
      assert Stored(re[i].follow, |re|);
    }
    StoredDescending(|re|, StepSet(re, Elems(l), c));
  }

  // Nothing follows the empty set.
  lemma EmptyNext(re: seq<Row>, c: nat)
    ensures Next(re, [], c) == []
  {
    assert StepSet(re, Elems([]), c) == {};
    NothingDescending(|re|);
  }

  // What cgoto and makeinit rely on: stored follow lists, and an ALL leaf at position 0 that follows itself and
  // is followed by another.
  ghost predicate WellBuilt(re: seq<Row>) {
    3 <= |re| < MAXLIN && RowsStored(re) && re[0].leaf == All && 0 in re[0].follow && |re[0].follow| > 1
  }

  // The automaton of the one-leaf expression `.`.
  const DOT_ROWS: seq<Row> := [Row(All, [1, 0]), Row(Dot, [2]), Row(Final, [])]

  lemma DotWellBuilt()
    ensures WellBuilt(DOT_ROWS)
  {
    assert Descending(3, {0, 1}) == [1] + Descending(1, {0, 1}) == [1, 0];
    assert Elems([1, 0]) == {0, 1} && Elems([2]) == {2} && Elems([]) == {};
    assert Descending(3, {2}) == [2] + Descending(2, {2});
    assert Descending(2, {2}) == Descending(1, {2}) == Descending(0, {2}) == [];
    NothingDescending(3);
    assert forall i :: 0 <= i < 3 ==> Stored(DOT_ROWS[i].follow, 3);
  }

  function DotAutomaton(): (re: seq<Row>)
    ensures WellBuilt(re)
  {
    DotWellBuilt();
    DOT_ROWS
  }

  type Automaton = re: seq<Row> | WellBuilt(re) witness DotAutomaton()

  // The list of follow positions of the leading ALL leaf.
  ghost function StartList(re: Automaton): seq<nat> { re[0].follow }

  lemma StartFacts(re: Automaton)
    ensures Stored(StartList(re), |re|) && Elems(StartList(re)) == Start(re)
    ensures |StartList(re)| > 0 && StartList(re)[|StartList(re)| - 1] == 0
    ensures Stored(StartList(re)[..|StartList(re)| - 1], |re|)
    ensures Elems(StartList(re)[..|StartList(re)| - 1]) == AnchoredStart(re)
    ensures Accept(re) in StartList(re) <==> StartList(re)[0] == Accept(re)
  {
    assert 0 in Elems(StartList(re));
    DropLast(|re|, StartList(re));
    HeadOf(|re|, Elems(StartList(re)));
  }

  // The successor of the start set on HAT keeps position 0.
  lemma HatNext(re: Automaton)
    ensures Next(re, StartList(re), HAT) != [] && 0 in Next(re, StartList(re), HAT)
    ensures Elems(Next(re, StartList(re), HAT)) == StepSet(re, Start(re), HAT)
    ensures Stored(Next(re, StartList(re), HAT), |re|)
  {
    StartFacts(re);
    NextStored(re, StartList(re), HAT);
    assert 0 in StartList(re) && Consumes(re[0].leaf, HAT);
    assert 0 in Elems(Next(re, StartList(re), HAT));
  }

  // The slot makeinit finds or makes for the state after the HAT marker.
  ghost function HatSlot(re: Automaton): nat {
    if Next(re, StartList(re), HAT) == StartList(re) then 2 else 3
  }

  // The two lists without position 0.
  lemma TrimmedLists(re: Automaton)
    ensures Next(re, StartList(re), HAT) != [] && |StartList(re)| > 0
    ensures Stored(AnchoredList(re), |re|) && Elems(AnchoredList(re)) == AnchoredStart(re)
    ensures Stored(HatList(re), |re|) && Elems(HatList(re)) == HatStart(re)
    ensures Accept(re) in AnchoredList(re) <==> Accept(re) in StartList(re)
    ensures Accept(re) in HatList(re) <==> Accept(re) in Next(re, StartList(re), HAT)
  {
    StartFacts(re);
    HatNext(re);
    DropLast(|re|, Next(re, StartList(re), HAT));
    assert Accept(re) > 0;
    assert Accept(re) in AnchoredList(re) <==> Accept(re) in Elems(AnchoredList(re));
    assert Accept(re) in HatList(re) <==> Accept(re) in Elems(HatList(re));
    assert Accept(re) in StartList(re) <==> Accept(re) in Elems(StartList(re));
    var h := Next(re, StartList(re), HAT);
    assert Accept(re) in h <==> Accept(re) in Elems(h);
  }

  ghost function AnchoredList(re: Automaton): seq<nat>
  {
    if |StartList(re)| > 0 then StartList(re)[..|StartList(re)| - 1] else []
  }

  ghost function HatList(re: Automaton): seq<nat>
  {
    var h := Next(re, StartList(re), HAT);
    if |h| > 0 then h[..|h| - 1] else []
  }

  // The start lists are nonempty, and they differ unless HAT leads back to the start.
  lemma StartsApart(re: Automaton)
    ensures AnchoredList(re) != [] && HatList(re) != []
    ensures AnchoredList(re) == HatList(re) <==> StartList(re) == Next(re, StartList(re), HAT)
  {
    HatHasStart(re);
    var h := Next(re, StartList(re), HAT);
    StartFacts(re);
    HatNext(re);
    DropLast(|re|, h);
    assert StartList(re) == AnchoredList(re) + [0] && h == HatList(re) + [0];
  }

  // More than position 0 follows the start on HAT.
  lemma HatHasStart(re: Automaton)
    ensures |Next(re, StartList(re), HAT)| > 1
  {
    StartFacts(re);
    HatNext(re);
    var h, x := Next(re, StartList(re), HAT), StartList(re)[0];
    StoredOnce(|re|, StartList(re), 0);
    assert 0 in Elems(StartList(re)) && x in re[0].follow && Consumes(re[0].leaf, HAT);
    assert x in Elems(h) && 0 in Elems(h);
    var i :| 0 <= i < |h| && h[i] == x;
    var j :| 0 <= j < |h| && h[j] == 0;
    assert i != j;
  }

  lemma {:induction false} DescendingBelow(n: nat, s: set<nat>, k: nat)
    requires k < |Descending(n, s)|
    ensures Descending(n, s)[k] < n
    ensures forall j :: k < j < |Descending(n, s)| ==> Descending(n, s)[j] < Descending(n, s)[k]
  {
    if n > 0 {
      if n - 1 in s {
        if k > 0 {
          DescendingBelow(n - 1, s, k - 1);
        } else {
          forall j | 0 < j < |Descending(n, s)| ensures Descending(n, s)[j] < n - 1 {
            DescendingBelow(n - 1, s, j - 1);
          }
        }
      } else {
        DescendingBelow(n - 1, s, k);
      }
    }
  }

  // A stored list has no element twice.
  lemma StoredOnce(n: nat, l: seq<nat>, k: nat)
    requires Stored(l, n) && k + 1 < |l|
    ensures l[k] != l[|l| - 1]
  {
    DescendingBelow(n, Elems(l), k);
  }

  // ------------------------------------------------------------------ what the table remembers

  /** The position lists of the live states (list 0 is the one kept for restarts), the symbol of a wrong
    * transition from slot 2 to itself, or NONE, and the rest of the struct, with the numbers of overflows and of
    * wrong transitions so far. Transitions recorded rightly can be found again at any time and are not part
    * of it. */
  datatype Mem = Mem(lists: seq<seq<nat>>, slip: int, reset: bool, initstat: nat, overflows: nat, wrongs: nat)

  const NONE: int := -1

  predicate Differ(lists: seq<seq<nat>>) {
    forall i, j :: 1 <= i < j < |lists| ==> lists[i] != lists[j]
  }

  predicate Proper(m: Mem) { 3 <= |m.lists| <= NSTATES && m.lists[1] == [] && Differ(m.lists) }

  /** The live state with list l, or 0. */
  function Slot(lists: seq<seq<nat>>, l: seq<nat>, i: nat): (k: nat)
    requires 1 <= i <= |lists|
    ensures k < |lists| && (k != 0 ==> i <= k && lists[k] == l)
    ensures k == 0 ==> forall j :: i <= j < |lists| ==> lists[j] != l
    decreases |lists| - i
  {
    if i == |lists| then 0 else if lists[i] == l then i else Slot(lists, l, i + 1)
  }

  // A new list keeps the lists apart.
  lemma ProperSnoc(m: Mem, l: seq<nat>, more: Mem)
    requires Proper(m) && |m.lists| < NSTATES && forall k :: 1 <= k < |m.lists| ==> m.lists[k] != l
    requires more.lists == m.lists + [l]
    ensures Proper(more)
  {
  }

  lemma SlotIs(lists: seq<seq<nat>>, k: nat)
    requires 1 <= k < |lists| && Differ(lists)
    ensures Slot(lists, lists[k], 1) == k
  {
  }

  type Table = m: Mem | Proper(m) witness Mem([[], [], [0]], NONE, false, 2, 0, 0)

  /** What the table is filled from: successor lists, the plain start list and the one after HAT, and the accepting
    * position. */
  datatype Machine = Machine(next: (seq<nat>, nat) -> seq<nat>, plain: seq<nat>, hat: seq<nat>, acc: nat) {
    /** The slot makeinit finds or makes for the state after the HAT marker. */
    function HatSlot(): nat { if plain == hat then 2 else 3 }

    function Accepting(l: seq<nat>): bool { acc in l }

    /** The list that the table leads to from state s on symbol c. */
    function Follow(m: Table, s: nat, c: nat): seq<nat>
      requires s < |m.lists|
    {
      if s == 2 && c == m.slip then m.lists[2] else next(m.lists[s], c)
    }

    /** cgoto for the list l, wanted from state s on symbol c: the live state that has it, a new state, or, when
      * the table is full, slot 2 with all other states dropped. */
    function MoveTo(m: Table, s: nat, c: nat, l: seq<nat>): (x: Moved)
      ensures 1 <= x.t < |x.m.lists| && x.m.lists[x.t] == l
    {
      var k := Slot(m.lists, l, 1);
      if k != 0 then Moved(m, k)
      else if |m.lists| < NSTATES then Moved(m.(lists := m.lists + [l]), |m.lists|)
      else
        var slip := if s == 2 && c < HAT && next(l, c) != l then c else NONE;
        var wrongs := m.wrongs + if slip == NONE then 0 else 1;
        Moved(Mem([m.lists[0], [], l], slip, true, m.initstat, m.overflows + 1, wrongs), 2)
    }

    /** One transition of the program, looked up or computed. */
    function Move(m: Table, s: nat, c: nat): (x: Moved)
      requires 1 <= s < |m.lists|
      ensures 1 <= x.t < |x.m.lists| && x.m.lists[x.t] == Follow(m, s, c)
    {
      MoveTo(m, s, c, Follow(m, s, c))
    }

    /** The lists after makeinit. */
    function StartLists(kept: seq<nat>): (lists: seq<seq<nat>>) {
      [kept, [], plain] + if plain == hat then [] else [hat]
    }
  }

  datatype Moved = Moved(m: Table, t: nat)

  // The first move of a table with one state besides the empty one.
  lemma FirstMove(a: Machine, m: Table, s: nat, c: nat, l: seq<nat>)
    requires |m.lists| == 3 && l != []
    ensures a.MoveTo(m, s, c, l) ==
            if l == m.lists[2] then Moved(m, 2) else Moved(m.(lists := m.lists + [l]), 3)
  {
    if l == m.lists[2] { SlotIs(m.lists, 2); }
  }

  /** The machine of an automaton, anchored or not. */
  ghost function MachineOf(re: Automaton, anchor: bool): Machine {
    Machine((l, c) => Next(re, l, c), if anchor then AnchoredList(re) else StartList(re),
            if anchor then HatList(re) else Next(re, StartList(re), HAT), |re| - 1)
  }

  lemma MachineFacts(re: Automaton, anchor: bool)
    ensures var a := MachineOf(re, anchor);
      && (forall l, c :: a.next(l, c) == Next(re, l, c)) && a.acc == |re| - 1 && a.plain != [] && a.hat != []
      && a.HatSlot() == HatSlot(re)
  {
    StartsApart(re);
    HatHasStart(re);
  }

  lemma StartListsDiffer(a: Machine, kept: seq<nat>)
    requires a.plain != [] && a.hat != []
    ensures var l := a.StartLists(kept);
      Differ(l) && |l| == a.HatSlot() + 1 && l[..3] == [kept, [], a.plain] && l[a.HatSlot()] == a.hat
  {
  }
}
