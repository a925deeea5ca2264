/** When the state table of awk's matcher is large enough: no sequence of calls overflows it exactly when the
  * position sets that texts can reach, and the empty one, number less than NSTATES (b.c: cgoto). */
module AwkSmall {
  import opened AwkRegex
  import opened AwkSubset
  import opened AwkMatchSpec
  import opened AwkMemory

  /** The list reached from l by reading w. */
  function Run(a: Machine, l: seq<nat>, w: seq<nat>): seq<nat> {
    if w == [] then l else a.next(Run(a, l, w[..|w| - 1]), w[|w| - 1])
  }

  lemma RunSnoc(a: Machine, l: seq<nat>, w: seq<nat>, c: nat)
    ensures Run(a, l, w + [c]) == a.next(Run(a, l, w), c)
  {
    assert (w + [c])[..|w|] == w;
  }

  lemma PartIsText(text: seq<nat>, p: nat, q: nat)
    requires IsText(text) && p <= q <= |text|
    ensures IsText(text[p..q])
  {
    assert forall c :: c in text[p..q] ==> c in text;
  }

  /** The text w, or w and the terminator, leads to l from the plain start or the one after HAT. */
  predicate LedBy(a: Machine, l: seq<nat>, hat: bool, w: seq<nat>) {
    IsText(w) && (l == Run(a, FirstList(a, hat), w) || l == a.next(Run(a, FirstList(a, hat), w), NUL))
  }

  /** A scan of some text can get to l; the empty list is always counted. */
  ghost predicate Reaches(a: Machine, l: seq<nat>) { l == [] || exists hat, w :: LedBy(a, l, hat, w) }

  ghost predicate Covers(a: Machine, s: set<seq<nat>>) { forall l :: Reaches(a, l) ==> l in s }

  /** There is a slot for every list that can be reached. */
  ghost predicate Small(a: Machine) { exists s :: Covers(a, s) && |s| < NSTATES }

  /** The live states have been reached by texts, and no transition is wrong. */
  ghost predicate Visited(a: Machine, m: Table) {
    m.slip == NONE && forall k :: 1 <= k < |m.lists| ==> Reaches(a, m.lists[k])
  }

  lemma StartReached(a: Machine, hat: bool)
    ensures Reaches(a, FirstList(a, hat))
  {
    assert LedBy(a, FirstList(a, hat), hat, []);
  }

  lemma StartListsVisited(a: Machine, m: Table)
    requires m.slip == NONE && m.lists == a.StartLists(m.lists[0])
    ensures Visited(a, m)
  {
    StartReached(a, false);
    StartReached(a, true);
    assert FirstList(a, false) == a.plain && FirstList(a, true) == a.hat;
  }

  // A set that holds the start lists and the empty one and is closed under successors covers what can be reached.
  lemma ClosedCovers(a: Machine, s: set<seq<nat>>)
    requires [] in s && a.plain in s && a.hat in s && forall l, c: nat :: l in s && c < HAT ==> a.next(l, c) in s
    ensures Covers(a, s)
  {
    forall l | Reaches(a, l) ensures l in s {
      if l != [] {
        var hat, w :| LedBy(a, l, hat, w);
        ClosedRuns(a, s, FirstList(a, hat), w);
      }
    }
  }

  lemma {:induction false} ClosedRuns(a: Machine, s: set<seq<nat>>, l: seq<nat>, w: seq<nat>)
    requires l in s && IsText(w) && forall l, c: nat :: l in s && c < HAT ==> a.next(l, c) in s
    ensures Run(a, l, w) in s
  {
    if w != [] {
      PartIsText(w, 0, |w| - 1);
      assert w[|w| - 1] in w;
      ClosedRuns(a, s, l, w[..|w| - 1]);
    }
  }

  // ------------------------------------------------------------------ no overflow

  function Live(lists: seq<seq<nat>>, n: nat): (s: set<seq<nat>>)
    requires 1 <= n <= |lists|
    ensures forall l :: l in s <==> exists k :: 1 <= k < n && lists[k] == l
  {
    set k | 1 <= k < n :: lists[k]
  }

  lemma {:induction false} LiveCount(lists: seq<seq<nat>>, n: nat)
    requires 1 <= n <= |lists| && Differ(lists)
    ensures |Live(lists, n)| == n - 1
  {
    if n > 1 {
      LiveCount(lists, n - 1);
      assert Live(lists, n) == Live(lists, n - 1) + {lists[n - 1]};
    }
  }

  lemma Subset<T>(a: set<T>, b: set<T>)
    requires a <= b
    ensures |a| <= |b|
  {
    assert b == a + (b - a);
  }

  // A small machine has room for one more.
  lemma RoomLeft(a: Machine, m: Table, l: seq<nat>)
    requires Small(a) && Visited(a, m) && Reaches(a, l) && l !in Live(m.lists, |m.lists|)
    ensures |m.lists| < NSTATES
  {
    var s :| Covers(a, s) && |s| < NSTATES;
    LiveCount(m.lists, |m.lists|);
    Subset(Live(m.lists, |m.lists|) + {l}, s);
  }

  predicate Unmoved(m: Table, m': Table) { m'.overflows == m.overflows }

  lemma MoveStays(a: Machine, m: Table, s: nat, c: nat)
    requires Small(a) && Visited(a, m) && 1 <= s < |m.lists| && Reaches(a, a.next(m.lists[s], c))
    ensures var x := a.Move(m, s, c);
      Visited(a, x.m) && Unmoved(m, x.m) && x.m.lists[x.t] == a.next(m.lists[s], c)
  {
    var l := a.next(m.lists[s], c);
    if Slot(m.lists, l, 1) == 0 { RoomLeft(a, m, l); }
  }

  // A scan of text from offset p is in state s at offset q.
  predicate OnItsWay(a: Machine, m: Table, s: nat, text: seq<nat>, p: nat, q: nat, hat: bool) {
    IsText(text) && 1 <= s < |m.lists| && p <= q <= |text| && m.lists[s] == Run(a, FirstList(a, hat), text[p..q])
  }

  lemma WayGoesOn(a: Machine, m: Table, s: nat, text: seq<nat>, p: nat, q: nat, hat: bool)
    requires OnItsWay(a, m, s, text, p, q, hat)
    ensures Reaches(a, a.next(m.lists[s], At(text, q)))
    ensures q < |text| ==> Run(a, FirstList(a, hat), text[p..q + 1]) == a.next(m.lists[s], At(text, q))
  {
    PartIsText(text, p, q);
    if q < |text| {
      PartIsText(text, p, q + 1);
      assert text[p..q + 1] == text[p..q] + [text[q]];
      RunSnoc(a, FirstList(a, hat), text[p..q], text[q]);
      assert LedBy(a, a.next(m.lists[s], text[q]), hat, text[p..q + 1]);
    } else {
      assert LedBy(a, a.next(m.lists[s], NUL), hat, text[p..q]);
    }
  }

  lemma {:induction false} ScanStays(a: Machine, m: Table, s: nat, text: seq<nat>, p: nat, q: nat, noted: int,
                                     hat: bool)
    requires Small(a) && Visited(a, m) && OnItsWay(a, m, s, text, p, q, hat)
    ensures var x := ScanMem(a, m, s, text, p, q, noted); Visited(a, x.m) && Unmoved(m, x.m)
    decreases |text| - q
  {
    var n := if a.Accepting(m.lists[s]) then q - p else noted;
    var x := a.Move(m, s, At(text, q));
    WayGoesOn(a, m, s, text, p, q, hat);
    MoveStays(a, m, s, At(text, q));
    if x.t != 1 && q < |text| { ScanStays(a, x.m, x.t, text, p, q + 1, n, hat); }
  }

  lemma SteppedVisited(a: Machine, m: Table)
    requires AnchoredMem(a, m) && Visited(a, m)
    ensures Visited(a, Stepped(m)) && Unmoved(m, Stepped(m))
  {
    StartReached(a, false);
    assert FirstList(a, false) == a.plain;
  }

  lemma {:induction false} SearchStays(a: Machine, m: Table, s: nat, text: seq<nat>, p: nat, last: int, least: int,
                                       noted: int, hat: bool)
    requires Small(a) && Prepared(a, m) && Visited(a, m) && IsText(text) && p <= last + 1 <= |text| + 1
    requires 1 <= s < |m.lists| && m.lists[s] == FirstList(a, hat)
    ensures var x := SearchMem(a, m, s, text, p, last, least, noted); Visited(a, x.m) && Unmoved(m, x.m)
    decreases last + 1 - p
  {
    if p <= last {
      var x := ScanMem(a, m, s, text, p, p, noted);
      ScanLater(a, m, s, text, p, p, noted);
      SteppedPrepared(a, m, x.m);
      assert text[p..p] == [];
      ScanStays(a, m, s, text, p, p, noted, hat);
      SteppedVisited(a, x.m);
      if x.n < least { SearchStays(a, Stepped(x.m), 2, text, p + 1, last, least, x.n, false); }
    }
  }

  lemma BegunVisited(a: Machine, m: Table)
    requires a.plain != [] && a.hat != [] && Visited(a, m)
    ensures Visited(a, Begun(a, m)) && Unmoved(m, Begun(a, m))
  {
    StartListsDiffer(a, m.lists[0]);
    if m.reset { StartListsVisited(a, Begun(a, m)); }
  }

  /** pmatch does not overflow the table of a small machine. */
  lemma PMatchStaysSmall(a: Machine, m: Table, text: seq<nat>, from: nat)
    requires Small(a) && AnchoredMem(a, m) && Visited(a, m) && IsText(text) && from <= |text|
    ensures var x := PMatchMem(a, m, text, from); Visited(a, x.m) && Unmoved(m, x.m)
  {
    var hat := m.reset || m.initstat == a.HatSlot();
    BegunPrepared(a, m, hat);
    BegunVisited(a, m);
    SearchStays(a, Begun(a, m), FirstSlot(a, m), text, from, |text|, 0, -1, hat);
  }

  /** Nor does nematch. */
  lemma NEMatchStaysSmall(a: Machine, m: Table, text: seq<nat>)
    requires Small(a) && AnchoredMem(a, m) && Visited(a, m) && IsText(text)
    ensures var x := NEMatchMem(a, m, text); Visited(a, x.m) && Unmoved(m, x.m)
  {
    var hat := m.reset || m.initstat == a.HatSlot();
    BegunPrepared(a, m, hat);
    BegunVisited(a, m);
    SearchStays(a, Begun(a, m), FirstSlot(a, m), text, 0, |text| - 1, 1, -1, hat);
  }

  lemma {:induction false} ReadingStays(a: Machine, m: Table, s: nat, text: seq<nat>, p: nat)
    requires Small(a) && Visited(a, m) && OnItsWay(a, m, s, text, 0, p, true)
    ensures var x := MatchMem(a, m, s, text, p); Visited(a, x.m) && Unmoved(m, x.m)
    decreases |text| - p
  {
    if !a.Accepting(m.lists[s]) {
      var x := a.Move(m, s, At(text, p));
      WayGoesOn(a, m, s, text, 0, p, true);
      MoveStays(a, m, s, At(text, p));
      if p < |text| { ReadingStays(a, x.m, x.t, text, p + 1); }
    }
  }

  /** Nor does match. */
  lemma MatchStaysSmall(a: Machine, m: Table, text: seq<nat>)
    requires Small(a) && UnanchoredMem(a, m) && Visited(a, m) && IsText(text)
    ensures var x := WholeMatchMem(a, m, text); Visited(a, x.m) && Unmoved(m, x.m)
  {
    BegunUnanchored(a, m);
    BegunVisited(a, m);
    assert text[0..0] == [];
    ReadingStays(a, Begun(a, m), FirstSlot(a, m), text, 0);
  }

  // ------------------------------------------------------------------ overflow

  /** A call of pmatch on a whole text, from the start state that mkdfa has set or from the one that gsub sets. */
  datatype Call = Call(text: seq<nat>, hat: bool)

  function Entered(a: Machine, m: Table, hat: bool): Table { m.(initstat := if hat then a.HatSlot() else 2) }

  /** What is remembered after some calls. */
  function AfterCalls(a: Machine, m: Table, calls: seq<Call>): (x: Table)
    requires AnchoredMem(a, m)
    ensures AnchoredMem(a, x) && x.overflows >= m.overflows
    decreases |calls|
  {
    if calls == [] then m
    else
      PMatchKeeps(a, Entered(a, m, calls[0].hat), calls[0].text, 0);
      AfterCalls(a, PMatchMem(a, Entered(a, m, calls[0].hat), calls[0].text, 0).m, calls[1..])
  }

  predicate Texts(calls: seq<Call>) { forall c :: c in calls ==> IsText(c.text) }

  // Nothing but the empty list follows the empty list.
  ghost predicate DeadStays(a: Machine) { forall c :: a.next([], c) == [] }

  // Either the table has overflowed, or the old states are still there.
  predicate Grown(m: Table, m': Table) {
    m'.overflows >= m.overflows && (m'.overflows == m.overflows ==> m.lists <= m'.lists && !m'.reset)
  }

  lemma {:induction false} SearchGrows(a: Machine, m: Table, s: nat, text: seq<nat>, p: nat, last: int, least: int,
                                       noted: int)
    requires !m.reset && 1 <= s < |m.lists| && p <= last + 1 <= |text| + 1
    ensures Grown(m, SearchMem(a, m, s, text, p, last, least, noted).m)
    decreases last + 1 - p
  {
    if p <= last {
      var x := ScanMem(a, m, s, text, p, p, noted);
      ScanLater(a, m, s, text, p, p, noted);
      if x.n < least && !x.m.reset { SearchGrows(a, x.m, 2, text, p + 1, last, least, x.n); }
      if x.n < least && x.m.reset { SearchCountsOn(a, Stepped(x.m), 2, text, p + 1, last, least, x.n); }
    }
  }

  lemma {:induction false} SearchCountsOn(a: Machine, m: Table, s: nat, text: seq<nat>, p: nat, last: int,
                                          least: int, noted: int)
    requires 1 <= s < |m.lists| && p <= last + 1 <= |text| + 1
    ensures SearchMem(a, m, s, text, p, last, least, noted).m.overflows >= m.overflows
    decreases last + 1 - p
  {
    if p <= last {
      var x := ScanMem(a, m, s, text, p, p, noted);
      ScanLater(a, m, s, text, p, p, noted);
      if x.n < least { SearchCountsOn(a, Stepped(x.m), 2, text, p + 1, last, least, x.n); }
    }
  }

  lemma {:induction false} DeadRuns(a: Machine, w: seq<nat>)
    requires DeadStays(a)
    ensures Run(a, [], w) == []
  {
    if w != [] { DeadRuns(a, w[..|w| - 1]); }
  }

  lemma {:induction false} RunSplits(a: Machine, l: seq<nat>, u: seq<nat>, v: seq<nat>)
    ensures Run(a, l, u + v) == Run(a, Run(a, l, u), v)
    decreases |v|
  {
    if v == [] {
      assert u + v == u;
    } else {
      RunSplits(a, l, u, v[..|v| - 1]);
      assert (u + v)[..|u + v| - 1] == u + v[..|v| - 1];
    }
  }

  predicate Holds(m: Table, l: seq<nat>) { exists k :: 1 <= k < |m.lists| && m.lists[k] == l }

  // A scan that is in state s leaves the list of w in the table, with or without the terminator, where w is
  // what is left of the text, unless the table overflows.
  lemma {:induction false} ScanVisits(a: Machine, m: Table, s: nat, text: seq<nat>, q: nat, noted: int)
    requires DeadStays(a) && m.slip == NONE && !m.reset && 1 <= s < |m.lists| && q <= |text|
    ensures var x := ScanMem(a, m, s, text, 0, q, noted);
      x.m.overflows == m.overflows ==>
        Holds(x.m, Run(a, m.lists[s], text[q..])) && Holds(x.m, a.next(Run(a, m.lists[s], text[q..]), NUL))
    decreases |text| - q
  {
    var n := if a.Accepting(m.lists[s]) then q else noted;
    var x := a.Move(m, s, At(text, q));
    MoveVisits(a, m, s, At(text, q));
    if q < |text| {
      RunFrom(a, m.lists[s], text, q);
      if x.t == 1 {
        DeadRuns(a, text[q + 1..]);
      } else {
        ScanLater(a, x.m, x.t, text, 0, q + 1, n);
        if x.m.overflows == m.overflows { ScanVisits(a, x.m, x.t, text, q + 1, n); }
      }
    } else {
      assert text[q..] == [];
    }
  }

  // A move to a list and from it leaves both in the table, unless the table overflows.
  lemma MoveVisits(a: Machine, m: Table, s: nat, c: nat)
    requires m.slip == NONE && !m.reset && 1 <= s < |m.lists|
    ensures var x := a.Move(m, s, c);
      && 1 <= x.t < |x.m.lists| && x.m.lists[x.t] == a.next(m.lists[s], c) && x.m.overflows >= m.overflows
      && Holds(x.m, a.next(m.lists[s], c))
      && (x.m.overflows == m.overflows ==> x.m.slip == NONE && !x.m.reset && Holds(x.m, m.lists[s]))
  {
    var x := a.Move(m, s, c);
    MoveLater(a, m, s, c);
    assert x.m.lists[x.t] == a.next(m.lists[s], c);
    assert x.m.overflows == m.overflows ==> x.m.lists[s] == m.lists[s];
  }

  lemma RunFrom(a: Machine, l: seq<nat>, text: seq<nat>, q: nat)
    requires q < |text|
    ensures Run(a, l, text[q..]) == Run(a, a.next(l, text[q]), text[q + 1..])
  {
    assert text[q..] == [text[q]] + text[q + 1..];
    RunSplits(a, l, [text[q]], text[q + 1..]);
    assert Run(a, l, [text[q]]) == a.next(Run(a, l, []), text[q]);
  }

  // A list that is not in the table but can be reached: the call on its text adds states, or overflows.
  lemma CallAdds(a: Machine, m: Table, l: seq<nat>, hat: bool, w: seq<nat>)
    requires DeadStays(a) && AnchoredMem(a, m) && !m.reset && LedBy(a, l, hat, w) && !Holds(m, l)
    ensures var x := PMatchMem(a, Entered(a, m, hat), w, 0).m;
      x.overflows > m.overflows || (!x.reset && |x.lists| > |m.lists|)
  {
    var b := Entered(a, m, hat);
    BegunPrepared(a, b, hat);
    var x := ScanMem(a, b, FirstSlot(a, b), w, 0, 0, -1);
    ScanLater(a, b, FirstSlot(a, b), w, 0, 0, -1);
    ScanVisits(a, b, FirstSlot(a, b), w, 0, -1);
    assert w[0..] == w;
    assert x.m.overflows == m.overflows ==> Holds(x.m, l);
    CallGoesOn(a, x, w);
    if x.m.overflows == m.overflows { Longer(m, x.m, l); }
  }

  // What the scans after the first one leave of the table.
  lemma CallGoesOn(a: Machine, x: Scan, w: seq<nat>)
    ensures var y := if x.n >= 0 then x.m else SearchMem(a, Stepped(x.m), 2, w, 1, |w|, 0, x.n).m;
      y.overflows >= x.m.overflows && (!x.m.reset ==> Grown(x.m, y))
  {
    if x.n < 0 {
      SearchCountsOn(a, Stepped(x.m), 2, w, 1, |w|, 0, x.n);
      if !x.m.reset { SearchGrows(a, x.m, 2, w, 1, |w|, 0, x.n); }
    }
  }

  lemma Longer(m: Table, m': Table, l: seq<nat>)
    requires m.lists <= m'.lists && !Holds(m, l) && Holds(m', l)
    ensures |m'.lists| > |m.lists|
  {
    assert forall k :: 1 <= k < |m.lists| ==> m'.lists[k] == m.lists[k];
  }

  lemma SomeNotHeld(a: Machine, m: Table) returns (l: seq<nat>, hat: bool, w: seq<nat>)
    requires !Small(a)
    ensures LedBy(a, l, hat, w) && !Holds(m, l)
  {
    var s := Live(m.lists, |m.lists|);
    LiveCount(m.lists, |m.lists|);
    assert !Covers(a, s);
    l :| Reaches(a, l) && l !in s;
    assert !Holds(m, l);
    assert Holds(m, m.lists[1]);
    hat, w :| LedBy(a, l, hat, w);
  }

  /** When more lists can be reached than there are slots, some calls make the table overflow. */
  lemma {:induction false} MustOverflow(a: Machine, m: Table) returns (calls: seq<Call>)
    requires DeadStays(a) && AnchoredMem(a, m) && !m.reset && !Small(a)
    ensures Texts(calls) && AfterCalls(a, m, calls).overflows > m.overflows
    decreases NSTATES - |m.lists|
  {
    var l, hat, w := SomeNotHeld(a, m);
    var b := Entered(a, m, hat);
    var x := PMatchMem(a, b, w, 0).m;
    PMatchKeeps(a, b, w, 0);
    CallAdds(a, m, l, hat, w);
    var rest := [];
    if x.overflows == m.overflows { rest := MustOverflow(a, x); }
    calls := [Call(w, hat)] + rest;
    assert calls[1..] == rest;
  }

  lemma {:induction false} CallsStay(a: Machine, m: Table, calls: seq<Call>)
    requires Small(a) && AnchoredMem(a, m) && Visited(a, m) && Texts(calls)
    ensures AfterCalls(a, m, calls).overflows == m.overflows
    decreases |calls|
  {
    if calls != [] {
      var b := Entered(a, m, calls[0].hat);
      assert IsText(calls[0].text) && Visited(a, b);
      PMatchKeeps(a, b, calls[0].text, 0);
      PMatchStaysSmall(a, b, calls[0].text, 0);
      CallsStay(a, PMatchMem(a, b, calls[0].text, 0).m, calls[1..]);
    }
  }

  ghost predicate NeverOverflows(a: Machine, m: Table)
    requires AnchoredMem(a, m)
  {
    forall calls :: Texts(calls) ==> AfterCalls(a, m, calls).overflows == m.overflows
  }

  lemma MachineDies(re: Automaton, anchor: bool)
    ensures DeadStays(MachineOf(re, anchor))
  {
    forall c: nat ensures Next(re, [], c) == [] { EmptyNext(re, c); }
  }

  /** The exact condition: no sequence of calls overflows the table of an anchored automaton exactly when the
    * lists that texts reach, and the empty one, number less than NSTATES. */
  lemma NoOverflowWhenSmall(re: Automaton, m: Table)
    requires AnchoredMem(MachineOf(re, true), m) && !m.reset && Visited(MachineOf(re, true), m)
    ensures NeverOverflows(MachineOf(re, true), m) <==> Small(MachineOf(re, true))
  {
    var a := MachineOf(re, true);
    MachineDies(re, true);
    if Small(a) {
      forall calls | Texts(calls) ensures AfterCalls(a, m, calls).overflows == m.overflows { CallsStay(a, m, calls); }
    } else {
      var calls := MustOverflow(a, m);
    }
  }
}
