/** A pattern with more states than the table has slots, and what pmatch then answers (b.c: cgoto, pmatch). */
module AwkOverflow {
  import opened AwkRegex
  import opened AwkPositions
  import opened AwkPattern
  import opened AwkTree
  import opened AwkSubset
  import opened AwkDfa
  import opened AwkMatchSpec
  import opened AwkMemory
  import opened AwkJudge
  import opened AwkSmall
  import opened AwkMatch

  // ------------------------------------------------------------------ states that a language keeps apart

  /** Each character c of cs comes with a word that completes it to a word of r, and that completes neither
    * nothing, nor any other of the characters, nor c read twice. */
  ghost predicate Apart(r: Re, cs: seq<nat>, ws: seq<seq<nat>>) {
    |cs| == |ws| && forall i :: 0 <= i < |cs| ==> ApartAt(r, cs, ws[i], i)
  }

  ghost predicate ApartAt(r: Re, cs: seq<nat>, w: seq<nat>, i: nat)
    requires i < |cs|
  {
    cs[i] < HAT && In([cs[i]] + w, r) && !In(w, r) && !In([cs[i]] + ([cs[i]] + w), r) &&
    forall j :: 0 <= j < |cs| && j != i ==> !In([cs[j]] + w, r)
  }

  // l is the stored form of the anchored start.
  ghost predicate StartsAt(re: Automaton, r: Re, l: seq<nat>) {
    Compiled(re, r) && Elems(l) == AnchoredStart(re)
  }

  // From the state after c, the words are accepted that complete c.
  lemma AcceptsAfter(re: Automaton, r: Re, l: seq<nat>, c: nat, w: seq<nat>)
    requires StartsAt(re, r, l)
    ensures Accepts(re, Elems(Next(re, l, c)), w) <==> In([c] + w, r)
    ensures Accepts(re, Elems(Next(re, Next(re, l, c), c)), w) <==> In([c] + ([c] + w), r)
  {
    NextStored(re, l, c);
    NextStored(re, Next(re, l, c), c);
    StepThenAccepts(re, Elems(l), c, w);
    StepThenAccepts(re, Elems(Next(re, l, c)), c, w);
    StepThenAccepts(re, Elems(l), c, [c] + w);
    AnchoredAccepts(re, r, [c] + w);
    AnchoredAccepts(re, r, [c] + ([c] + w));
  }

  lemma {:induction false} NothingAccepted(re: seq<Row>, w: seq<nat>)
    ensures !Accepts(re, {}, w)
    decreases |w|
  {
    if |re| > 0 && w != [] {
      assert StepSet(re, {}, w[0]) == {};
      NothingAccepted(re, w[1..]);
    }
  }

  /** The states after the characters differ from one another, from the start and from the empty state, and
    * none follows itself on its own character. */
  lemma StatesApart(re: Automaton, r: Re, l: seq<nat>, cs: seq<nat>, ws: seq<seq<nat>>, i: nat)
    requires StartsAt(re, r, l) && Apart(r, cs, ws) && i < |cs|
    ensures Next(re, l, cs[i]) != [] && Next(re, l, cs[i]) != l
    ensures Next(re, Next(re, l, cs[i]), cs[i]) != Next(re, l, cs[i])
    ensures forall j :: 0 <= j < |cs| && j != i ==> Next(re, l, cs[j]) != Next(re, l, cs[i])
  {
    var w := ws[i];
    assert ApartAt(r, cs, w, i);
    AcceptsAfter(re, r, l, cs[i], w);
    AnchoredAccepts(re, r, w);
    NothingAccepted(re, w);
    assert Elems([]) == {};
    forall j | 0 <= j < |cs| && j != i ensures Next(re, l, cs[j]) != Next(re, l, cs[i]) {
      AcceptsAfter(re, r, l, cs[j], w);
    }
  }

  // One character leads to a list that texts reach.
  lemma CharacterReaches(a: Machine, c: nat)
    requires c < HAT
    ensures Reaches(a, a.next(a.plain, c))
  {
    var l := a.next(a.plain, c);
    assert Run(a, a.plain, []) == a.plain;
    if c == NUL {
      assert LedBy(a, l, false, []);
    } else {
      RunSnoc(a, a.plain, [], c);
      assert [] + [c] == [c];
      assert LedBy(a, l, false, [c]);
    }
  }

  // The empty list, the start and the states after the characters.
  ghost function ApartLists(re: Automaton, l: seq<nat>, cs: seq<nat>): seq<seq<nat>> {
    [[], [], l] + seq(|cs|, i requires 0 <= i < |cs| => Next(re, l, cs[i]))
  }

  lemma ApartReached(re: Automaton, cs: seq<nat>, k: nat)
    requires 1 <= k < |cs| + 3 && (k >= 3 ==> cs[k - 3] < HAT)
    ensures Reaches(MachineOf(re, true), ApartLists(re, AnchoredList(re), cs)[k])
  {
    MachineFacts(re, true);
    StartReached(MachineOf(re, true), false);
    if k >= 3 { CharacterReaches(MachineOf(re, true), cs[k - 3]); }
  }

  lemma ApartDiffer(re: Automaton, r: Re, l: seq<nat>, cs: seq<nat>, ws: seq<seq<nat>>, i: nat, j: nat)
    requires StartsAt(re, r, l) && l != [] && Apart(r, cs, ws) && 1 <= i < j < |cs| + 3
    ensures ApartLists(re, l, cs)[i] != ApartLists(re, l, cs)[j]
  {
    if j > 2 { StatesApart(re, r, l, cs, ws, j - 3); }
  }

  /** A pattern that keeps 30 characters apart has too many states for the table, and so some calls overflow it. */
  lemma ApartIsNotSmall(re: Automaton, r: Re, cs: seq<nat>, ws: seq<seq<nat>>)
    requires Compiled(re, r) && Apart(r, cs, ws) && |cs| >= NSTATES - 2
    ensures !Small(MachineOf(re, true))
  {
    var l := AnchoredList(re);
    TrimmedLists(re);
    StartsApart(re);
    var lists := ApartLists(re, l, cs);
    forall k | 1 <= k < |lists| ensures Reaches(MachineOf(re, true), lists[k]) {
      if k >= 3 { assert ApartAt(r, cs, ws[k - 3], k - 3); }
      ApartReached(re, cs, k);
    }
    forall i, j | 1 <= i < j < |lists| ensures lists[i] != lists[j] { ApartDiffer(re, r, l, cs, ws, i, j); }
    ManyReached(MachineOf(re, true), lists);
  }

  lemma ManyReached(a: Machine, lists: seq<seq<nat>>)
    requires |lists| > NSTATES && Differ(lists) && forall k :: 1 <= k < |lists| ==> Reaches(a, lists[k])
    ensures !Small(a)
  {
    LiveCount(lists, |lists|);
    forall s | Covers(a, s) ensures |s| >= NSTATES {
      Subset(Live(lists, |lists|), s);
    }
  }

  // ------------------------------------------------------------------ the pattern

  const LETTERS: nat := 29
  const X: nat := 94

  /** The alternatives `AA`, `BB`, and so on, n of them. */
  function Doubles(n: nat): Re
    requires n > 0
  {
    var double := Cat(Unit(Char(64 + n)), Unit(Char(64 + n)));
    if n == 1 then double else Or(Doubles(n - 1), double)
  }

  function CaretX(): Re { Cat(Unit(Char(HAT)), Unit(Char(X))) }

  /** `AA|BB|...` with n alternatives, and one more that can match at the beginning only: `^` and character X. */
  function Crowd(n: nat): Re
    requires n > 0
  {
    Or(Doubles(n), CaretX())
  }

  lemma DoubleWord(c: nat, d: nat, w: seq<nat>)
    ensures In(w, Cat(Unit(Char(c)), Unit(Char(d)))) <==> w == [c, d]
  {
    if In(w, Cat(Unit(Char(c)), Unit(Char(d)))) {
      var k := CatElim(w, Unit(Char(c)), Unit(Char(d)));
      assert w == w[..k] + w[k..];
    }
    if w == [c, d] {
      CatIntro([c], [d], Unit(Char(c)), Unit(Char(d)));
    }
  }

  lemma {:induction false} DoublesWords(n: nat, w: seq<nat>)
    requires n > 0
    ensures In(w, Doubles(n)) <==> |w| == 2 && w[0] == w[1] && 64 < w[0] <= 64 + n
    ensures NoFinal(Doubles(n)) && Leaves(Doubles(n)) == 2 * n
  {
    DoubleWord(64 + n, 64 + n, w);
    assert |w| == 2 && w[0] == w[1] == 64 + n ==> w == [64 + n, 64 + n];
    var double := Cat(Unit(Char(64 + n)), Unit(Char(64 + n)));
    assert NoFinal(double) && Leaves(double) == 2;
    if n > 1 { DoublesWords(n - 1, w); }
  }

  lemma CrowdWords(n: nat, w: seq<nat>)
    requires n > 0
    ensures In(w, Crowd(n)) <==> w == [HAT, X] || (|w| == 2 && w[0] == w[1] && 64 < w[0] <= 64 + n)
    ensures NoFinal(Crowd(n)) && Leaves(Crowd(n)) == 2 * n + 2
  {
    DoublesWords(n, w);
    DoubleWord(HAT, X, w);
    assert NoFinal(CaretX()) && Leaves(CaretX()) == 2;
  }

  // ------------------------------------------------------------------ its positions

  // The letter of position i, of two for each letter.
  function LetterOf(i: nat): nat { 64 + (i + 1) / 2 }

  // Rows off..off + 2n are those of Doubles(n).
  ghost predicate DoubleRow(re: seq<Row>, off: nat, k: set<nat>, i: nat)
    requires off + i <= |re| && 1 <= i && off > 0
  {
    re[off + i - 1].leaf == Char(LetterOf(i)) && Elems(re[off + i - 1].follow) == if i % 2 == 1 then {off + i} else k
  }

  lemma {:induction false} DoublesRows(re: seq<Row>, n: nat, off: nat, k: set<nat>, i: nat)
    requires n > 0 && off > 0 && Leaves(Doubles(n)) == 2 * n && off + 2 * n <= |re| && Agrees(re, Doubles(n), off, k)
    requires 1 <= i <= 2 * n
    ensures DoubleRow(re, off, k, i)
  {
    var c := Unit(Char(64 + n));
    DoublesWords(n, []);
    if n > 1 {
      DoublesWords(n - 1, []);
      if i <= 2 * (n - 1) { DoublesRows(re, n - 1, off, k, i); }
    }
    var at := off + 2 * (n - 1);
    assert Agrees(re, Cat(c, c), at, k);
    assert Agrees(re, c, at, Enter(c, at + 1, k)) && Agrees(re, c, at + 1, k);
    assert Enter(c, at + 1, k) == {at + 1};
  }

  lemma {:induction false} DoublesFirst(n: nat, off: nat, i: nat)
    requires n > 0
    ensures i in First(Doubles(n), off) <==> off <= i < off + 2 * n && (i - off) % 2 == 0
    ensures !Nullable(Doubles(n))
  {
    DoublesWords(n, []);
    var c := Unit(Char(64 + n));
    assert First(Cat(c, c), off + 2 * (n - 1)) == {off + 2 * (n - 1)};
    if n > 1 {
      DoublesWords(n - 1, []);
      DoublesFirst(n - 1, off, i);
    }
  }

  ghost predicate DoubleRowsAre(re: seq<Row>, n: nat, k: set<nat>)
    requires 2 * n < |re|
  {
    forall i :: 1 <= i <= 2 * n ==> DoubleRow(re, 1, k, i)
  }

  /** The compiled pattern: positions 2j - 1 and 2j for letter j, then one for `^` and one for X, then the accepting
    * one. */
  ghost predicate CrowdRows(re: seq<Row>, n: nat) {
    && |re| == 2 * n + 4 && re[0].leaf == All
    && DoubleRowsAre(re, n, {2 * n + 3})
    && re[2 * n + 1].leaf == Char(HAT) && Elems(re[2 * n + 1].follow) == {2 * n + 2}
    && re[2 * n + 2].leaf == Char(X) && Elems(re[2 * n + 2].follow) == {2 * n + 3}
    && re[2 * n + 3] == Row(Final, [])
    && forall i :: i in Start(re) <==> i == 0 || i == 2 * n + 1 || (1 <= i < 2 * n && i % 2 == 1)
  }

  lemma CaretRows(re: seq<Row>, off: nat, k: set<nat>)
    requires off + 2 <= |re| && Agrees(re, CaretX(), off, k)
    ensures re[off].leaf == Char(HAT) && Elems(re[off].follow) == {off + 1}
    ensures re[off + 1].leaf == Char(X) && Elems(re[off + 1].follow) == k
  {
    var x := Unit(Char(X));
    assert Agrees(re, Unit(Char(HAT)), off, Enter(x, off + 1, k)) && Agrees(re, x, off + 1, k);
    assert Enter(x, off + 1, k) == {off + 1};
  }

  lemma CrowdCompiled(re: seq<Row>, n: nat)
    requires n > 0 && Compiled(re, Crowd(n))
    ensures CrowdRows(re, n)
  {
    CrowdWords(n, []);
    DoublesWords(n, []);
    assert Leaves(CaretX()) == 2;
    CrowdParts(re, n, {2 * n + 3});
    CaretRows(re, 2 * n + 1, {2 * n + 3});
    forall i: nat ensures i in Start(re) <==> i == 0 || i == 2 * n + 1 || (1 <= i < 2 * n && i % 2 == 1) {
      CrowdBegins(n, {2 * n + 3}, i);
    }
  }

  lemma CrowdBegins(n: nat, k: set<nat>, i: nat)
    requires n > 0
    ensures i in Enter(Crowd(n), 1, k) <==> i == 2 * n + 1 || (1 <= i < 2 * n && i % 2 == 1)
  {
    DoublesWords(n, []);
    DoublesFirst(n, 1, i);
    CaretFirst(2 * n + 1);
    EitherFirst(Doubles(n), CaretX(), 1, k, i);
  }

  lemma CaretFirst(off: nat)
    ensures First(CaretX(), off) == {off} && !Nullable(CaretX())
  {
  }

  lemma EitherFirst(d: Re, e: Re, off: nat, k: set<nat>, i: nat)
    requires !Nullable(d) && !Nullable(e)
    ensures i in Enter(Or(d, e), off, k) <==> i in First(d, off) || i in First(e, off + Leaves(d))
  {
  }

  lemma CrowdParts(re: seq<Row>, n: nat, k: set<nat>)
    requires n > 0 && |re| == 2 * n + 4 && Leaves(Doubles(n)) == 2 * n && Leaves(CaretX()) == 2
    requires Agrees(re, Crowd(n), 1, k)
    ensures DoubleRowsAre(re, n, k) && Agrees(re, CaretX(), 2 * n + 1, k)
  {
    assert Agrees(re, Doubles(n), 1, k);
    forall i | 1 <= i <= 2 * n ensures DoubleRow(re, 1, k, i) { DoublesRows(re, n, 1, k, i); }
  }

  // ------------------------------------------------------------------ its states

  // One position alone.
  lemma {:induction false} DescendingOne(n: nat, k: nat)
    requires k < n
    ensures Descending(n, {k}) == [k]
  {
    if k == n - 1 {
      NoneBelow(k, {k});
      assert Descending(n, {k}) == [k] + Descending(k, {k});
    } else {
      DescendingOne(n - 1, k);
    }
  }

  lemma {:induction false} NoneBelow(n: nat, s: set<nat>)
    requires forall i :: i in s ==> i >= n
    ensures Descending(n, s) == []
  {
    if n > 0 { NoneBelow(n - 1, s); }
  }

  // Position i alone of those in l reads c, and one position follows it.
  lemma ReadsOne(re: Automaton, l: seq<nat>, c: nat, i: nat, k: nat)
    requires i in l && i < |re| && Consumes(re[i].leaf, c) && Elems(re[i].follow) == {k} && k < |re|
    requires forall j :: j in l && j < |re| && j != i ==> !Consumes(re[j].leaf, c)
    ensures Next(re, l, c) == [k]
  {
    assert k in Elems(re[i].follow) && i in Elems(l);
    forall j ensures j in StepSet(re, Elems(l), c) <==> j == k {
      if j in StepSet(re, Elems(l), c) {
        var h :| h in Elems(l) && h < |re| && Consumes(re[h].leaf, c) && j in re[h].follow;
        assert j in Elems(re[i].follow);
      }
    }
    assert StepSet(re, Elems(l), c) == {k};
    DescendingOne(|re|, k);
  }

  // No position in l reads c.
  lemma ReadsNone(re: Automaton, l: seq<nat>, c: nat)
    requires forall j :: j in l && j < |re| ==> !Consumes(re[j].leaf, c)
    ensures Next(re, l, c) == []
  {
    assert StepSet(re, Elems(l), c) == {};
    NothingDescending(|re|);
  }

  /** Reading from the start states: each letter has a state of its own, and X matters after `^` only. */
  ghost predicate Crowded(a: Machine, n: nat) {
    && (forall j :: 1 <= j <= n ==> LetterState(a, n, j))
    && a.next(a.plain, NUL) == a.next(a.plain, X) == [] && a.next(a.hat, X) == [2 * n + 3]
    && a.next([2 * n + 3], NUL) == []
    && a.acc == 2 * n + 3 && 2 * n + 1 in a.plain && 2 * n + 1 in a.hat && a.plain != a.hat
    && !a.Accepting(a.plain) && !a.Accepting(a.hat)
  }

  // Letter j leads to the state of its second position, and only letter j leads on from there.
  ghost predicate LetterState(a: Machine, n: nat, j: nat) {
    && a.next(a.plain, 64 + j) == a.next(a.hat, 64 + j) == [2 * j]
    && a.next([2 * j], 64 + j) == [2 * n + 3] && a.next([2 * j], 65 + j) == a.next([2 * j], NUL) == []
  }

  // The positions of the two start states.
  lemma CrowdStarts(re: Automaton, n: nat, i: nat)
    requires 0 < n <= LETTERS && CrowdRows(re, n)
    ensures i in AnchoredList(re) <==> i == 2 * n + 1 || (1 <= i < 2 * n && i % 2 == 1)
    ensures i in HatList(re) <==> i == 2 * n + 1 || i == 2 * n + 2 || (1 <= i < 2 * n && i % 2 == 1)
  {
    TrimmedLists(re);
    assert i in AnchoredList(re) <==> i in Elems(AnchoredList(re));
    assert i in HatList(re) <==> i in Elems(HatList(re));
    HatFollows(re, n, i);
  }

  lemma HatFollows(re: Automaton, n: nat, i: nat)
    requires 0 < n <= LETTERS && CrowdRows(re, n)
    ensures i in StepSet(re, Start(re), HAT) <==> i in Start(re) || i == 2 * n + 2
  {
    assert Consumes(re[0].leaf, HAT) && Consumes(re[2 * n + 1].leaf, HAT) && 0 in Start(re) && 2 * n + 1 in Start(re);
    assert 2 * n + 2 in Elems(re[2 * n + 1].follow);
    if i in Start(re) { assert i in re[0].follow; }
    if i in StepSet(re, Start(re), HAT) {
      var h :| h in Start(re) && h < |re| && Consumes(re[h].leaf, HAT) && i in re[h].follow;
      assert i in Elems(re[h].follow);
      if 1 <= h < 2 * n { assert DoubleRow(re, 1, {2 * n + 3}, h); }
    }
  }

  lemma CrowdedLetter(re: Automaton, n: nat, j: nat)
    requires 1 <= j <= n <= LETTERS && CrowdRows(re, n)
    ensures LetterState(MachineOf(re, true), n, j)
  {
    MachineFacts(re, true);
    StartsReadLetter(re, n, j);
    SecondReadsLetter(re, n, j);
  }

  lemma SecondReadsLetter(re: Automaton, n: nat, j: nat)
    requires 1 <= j <= n <= LETTERS && CrowdRows(re, n)
    ensures Next(re, [2 * j], 64 + j) == [2 * n + 3] && Next(re, [2 * j], 65 + j) == Next(re, [2 * j], NUL) == []
  {
    assert DoubleRow(re, 1, {2 * n + 3}, 2 * j);
    ReadsOne(re, [2 * j], 64 + j, 2 * j, 2 * n + 3);
    ReadsNone(re, [2 * j], 65 + j);
    ReadsNone(re, [2 * j], NUL);
  }

  lemma StartsReadLetter(re: Automaton, n: nat, j: nat)
    requires 1 <= j <= n <= LETTERS && CrowdRows(re, n)
    ensures Next(re, AnchoredList(re), 64 + j) == Next(re, HatList(re), 64 + j) == [2 * j]
  {
    assert DoubleRow(re, 1, {2 * n + 3}, 2 * j - 1);
    forall i: nat | i != 2 * j - 1 && (i in AnchoredList(re) || i in HatList(re))
      ensures i < |re| && !Consumes(re[i].leaf, 64 + j)
    {
      OtherLetter(re, n, j, i);
    }
    CrowdStarts(re, n, 2 * j - 1);
    ReadsOne(re, AnchoredList(re), 64 + j, 2 * j - 1, 2 * j);
    ReadsOne(re, HatList(re), 64 + j, 2 * j - 1, 2 * j);
  }

  lemma OtherLetter(re: Automaton, n: nat, j: nat, i: nat)
    requires 1 <= j <= n <= LETTERS && CrowdRows(re, n)
    requires i != 2 * j - 1 && (i in AnchoredList(re) || i in HatList(re))
    ensures i < |re| && !Consumes(re[i].leaf, 64 + j)
  {
    CrowdStarts(re, n, i);
    if i < 2 * n { assert DoubleRow(re, 1, {2 * n + 3}, i); }
  }

  lemma CrowdIsCrowded(re: Automaton, n: nat)
    requires 1 <= n <= LETTERS && CrowdRows(re, n)
    ensures Crowded(MachineOf(re, true), n)
  {
    MachineFacts(re, true);
    forall j | 1 <= j <= n ensures LetterState(MachineOf(re, true), n, j) { CrowdedLetter(re, n, j); }
    CrowdStarts(re, n, 2 * n + 1);
    CrowdStarts(re, n, 2 * n + 2);
    CrowdStarts(re, n, 2 * n + 3);
    StartsReadOther(re, n);
    ReadsNone(re, [2 * n + 3], NUL);
  }

  lemma StartsReadOther(re: Automaton, n: nat)
    requires 1 <= n <= LETTERS && CrowdRows(re, n)
    ensures Next(re, AnchoredList(re), NUL) == Next(re, AnchoredList(re), X) == []
    ensures Next(re, HatList(re), X) == [2 * n + 3]
  {
    forall i: nat | i in AnchoredList(re) || i in HatList(re)
      ensures i < 2 * n + 3 && !Consumes(re[i].leaf, NUL) && (i != 2 * n + 2 ==> !Consumes(re[i].leaf, X))
    {
      CrowdStarts(re, n, i);
      if i < 2 * n { assert DoubleRow(re, 1, {2 * n + 3}, i); }
    }
    CrowdStarts(re, n, 2 * n + 2);
    ReadsNone(re, AnchoredList(re), NUL);
    ReadsNone(re, AnchoredList(re), X);
    ReadsOne(re, HatList(re), X, 2 * n + 2, 2 * n + 3);
  }

  // ------------------------------------------------------------------ pmatch on a crowded table

  /** All letters but the last once, one after the other, and the last one twice. */
  function Probe(): (text: seq<nat>)
    ensures |text| == LETTERS + 1 && IsText(text)
    ensures forall i :: 0 <= i < LETTERS ==> text[i] == 65 + i
    ensures text[LETTERS] == 64 + LETTERS
  {
    seq(LETTERS + 1, i => if i < LETTERS then 65 + i else 64 + LETTERS)
  }

  // The table once the first p letters have been read from the start.
  ghost predicate Loaded(a: Machine, m: Table, p: nat) {
    && |m.lists| == 4 + p && m.lists[..4] == [a.plain, [], a.plain, a.hat]
    && (forall k :: 4 <= k < 4 + p ==> m.lists[k] == [2 * (k - 3)])
    && (m.slip, m.reset, m.initstat, m.overflows, m.wrongs) == (NONE, false, 3, 0, 0)
  }

  // A move to a list that is in the table.
  lemma MoveToLive(a: Machine, m: Table, s: nat, c: nat, k: nat)
    requires 1 <= s < |m.lists| && 1 <= k < |m.lists| && a.Follow(m, s, c) == m.lists[k]
    ensures a.Move(m, s, c) == Moved(m, k)
  {
    SlotIs(m.lists, k);
  }

  // The next letter's state is not there yet.
  lemma NewLetter(a: Machine, m: Table, p: nat)
    requires Crowded(a, LETTERS) && Loaded(a, m, p)
    ensures Slot(m.lists, [2 * (p + 1)], 1) == 0
  {
    assert 2 * LETTERS + 1 !in [2 * (p + 1)];
    assert forall k :: 1 <= k < 4 ==> m.lists[k] == m.lists[..4][k];
  }

  // The state in which the scan from offset p begins.
  function ScanStart(p: nat): nat { if p == 0 then 3 else 2 }

  // A scan while there is room: one new state, and no match.
  lemma RoomyScan(a: Machine, m: Table, p: nat)
    requires Crowded(a, LETTERS) && Loaded(a, m, p) && p < LETTERS - 1
    ensures var x := ScanMem(a, m, ScanStart(p), Probe(), p, p, -1); x.n == -1 && Loaded(a, x.m, p + 1)
  {
    var s, text := ScanStart(p), Probe();
    assert m.lists[s] == m.lists[..4][s];
    assert LetterState(a, LETTERS, p + 1);
    NewLetter(a, m, p);
    var x := a.Move(m, s, 65 + p);
    assert x == Moved(m.(lists := m.lists + [[2 * (p + 1)]]), 4 + p);
    assert x.m.lists[1] == [];
    MoveToLive(a, x.m, x.t, 66 + p, 1);
    assert At(text, p) == 65 + p && At(text, p + 1) == 66 + p;
    assert ScanMem(a, x.m, x.t, text, p, p + 1, -1) == Scan(x.m, -1);
  }

  // The table that the overflow leaves in the end.
  function Emptied(a: Machine): (m: Table)
    requires a.plain != []
  {
    Mem([a.plain, [], a.plain], NONE, true, 2, 1, 1)
  }

  /** The scan that overflows: the second time, the letter leads from its state to that state again. */
  lemma FullScan(a: Machine, m: Table)
    requires Crowded(a, LETTERS) && Loaded(a, m, LETTERS - 1)
    ensures var x := ScanMem(a, m, 2, Probe(), LETTERS - 1, LETTERS - 1, -1);
      x.n == -1 && Stepped(x.m) == Emptied(a)
  {
    var text, c := Probe(), 64 + LETTERS;
    assert m.lists[2] == m.lists[..4][2] && m.lists[0] == m.lists[..4][0];
    assert LetterState(a, LETTERS, LETTERS);
    NewLetter(a, m, LETTERS - 1);
    var x := a.Move(m, 2, c);
    var full: Table := Mem([a.plain, [], [2 * LETTERS]], c, true, 3, 1, 1);
    assert x == Moved(full, 2);
    assert At(text, LETTERS - 1) == At(text, LETTERS) == c && At(text, LETTERS + 1) == NUL;
    MoveToLive(a, full, 2, c, 2);
    MoveToLive(a, full, 2, NUL, 1);
    assert ScanMem(a, full, 2, text, LETTERS - 1, LETTERS + 1, -1) == Scan(full, -1);
    assert ScanMem(a, full, 2, text, LETTERS - 1, LETTERS, -1) == Scan(full, -1);
  }

  // The scans after that find nothing either.
  lemma LastScans(a: Machine)
    requires Crowded(a, LETTERS)
    ensures SearchMem(a, Emptied(a), 2, Probe(), LETTERS, LETTERS + 1, 0, -1) == Missed(Emptied(a))
  {
    var text, m, c := Probe(), Emptied(a), 64 + LETTERS;
    assert LetterState(a, LETTERS, LETTERS);
    assert 2 * LETTERS + 1 !in [2 * LETTERS];
    var x := a.Move(m, 2, c);
    assert x.m == m.(lists := [a.plain, [], a.plain, [2 * LETTERS]]) && x.t == 3;
    MoveToLive(a, x.m, 3, NUL, 1);
    assert At(text, LETTERS) == c && At(text, LETTERS + 1) == NUL;
    assert ScanMem(a, x.m, 3, text, LETTERS, LETTERS + 1, -1) == Scan(x.m, -1);
    assert ScanMem(a, m, 2, text, LETTERS, LETTERS, -1) == Scan(x.m, -1);
    assert Stepped(x.m) == m;
    MoveToLive(a, m, 2, NUL, 1);
    assert ScanMem(a, m, 2, text, LETTERS + 1, LETTERS + 1, -1) == Scan(m, -1);
    assert Stepped(m) == m;
  }

  lemma {:induction false} ProbeMissed(a: Machine, m: Table, p: nat)
    requires Crowded(a, LETTERS) && Loaded(a, m, p) && p < LETTERS
    ensures SearchMem(a, m, ScanStart(p), Probe(), p, LETTERS + 1, 0, -1) == Missed(Emptied(a))
    decreases LETTERS - p
  {
    if p < LETTERS - 1 {
      var x := ScanMem(a, m, ScanStart(p), Probe(), p, p, -1);
      RoomyScan(a, m, p);
      assert Stepped(x.m) == x.m;
      ProbeMissed(a, x.m, p + 1);
    } else {
      FullScan(a, m);
      LastScans(a);
    }
  }

  /** pmatch with a new table does not find the last letter's double in the probe. */
  lemma ProbeNotFound(a: Machine, m: Table)
    requires Crowded(a, LETTERS) && Loaded(a, m, 0) && AnchoredMem(a, m)
    ensures PMatchMem(a, m, Probe(), 0) == Missed(Emptied(a))
  {
    ProbeMissed(a, m, 0);
  }

  /** The call after that finds X at the beginning of a text, and the one that follows does not: with it the table
    * has been rebuilt, but the start state to begin with is no longer the one after `^`. */
  lemma CaretLost(a: Machine)
    requires Crowded(a, LETTERS) && AnchoredMem(a, Emptied(a)) && a.hat != []
    ensures var x := PMatchMem(a, Emptied(a), [X], 0);
      && x.Found? && (x.at, x.length) == (0, 1) && AnchoredMem(a, x.m)
      && !x.m.reset && x.m.initstat == 2 && PMatchMem(a, x.m, [X], 0).Missed?
  {
    var f: seq<nat> := [2 * LETTERS + 3];
    var b: Table := Begun(a, Emptied(a));
    assert b.lists == [a.plain, [], a.plain, a.hat] && FirstSlot(a, Emptied(a)) == 3;
    assert 2 * LETTERS + 1 !in f;
    var x := a.Move(b, 3, X);
    assert x == Moved(b.(lists := [a.plain, [], a.plain, a.hat, f]), 4);
    MoveToLive(a, x.m, 4, NUL, 1);
    assert At([X], 0) == X && At([X], 1) == NUL;
    assert ScanMem(a, x.m, 4, [X], 0, 1, -1) == Scan(x.m, 1);
    assert ScanMem(a, b, 3, [X], 0, 0, -1) == Scan(x.m, 1);
    MoveToLive(a, x.m, 2, X, 1);
    MoveToLive(a, x.m, 2, NUL, 1);
    assert ScanMem(a, x.m, 2, [X], 0, 0, -1) == Scan(x.m, -1);
    assert ScanMem(a, x.m, 2, [X], 1, 1, -1) == Scan(x.m, -1);
    assert Stepped(x.m) == x.m;
  }

  // Where the pattern matches.
  lemma CrowdMatchAt(k: nat, text: seq<nat>, i: nat, n: nat, hat: bool)
    requires 0 < k <= LETTERS && IsText(text)
    ensures MatchAt(Crowd(k), text, i, n, hat) <==>
            i + n <= |text| &&
            (|| (n == 2 && text[i] == text[i + 1] && 64 < text[i] <= 64 + k)
             || (n == 1 && hat && text[i] == X))
  {
    if i + n <= |text| {
      var u := text[i..i + n];
      assert n >= 1 ==> u[0] == text[i] && text[i] in text;
      assert n >= 2 ==> u[1] == text[i + 1];
      CrowdWords(k, u);
      CrowdWords(k, [HAT] + u);
      CrowdWords(k, u + [NUL]);
      CrowdWords(k, [HAT] + u + [NUL]);
      assert |[HAT] + u| == n + 1 && (n == 1 ==> [HAT] + u == [HAT, text[i]]);
      assert n == 1 ==> (u + [NUL])[1] == NUL && ([HAT] + u)[1] == text[i];
      assert n == 0 ==> ([HAT] + u + [NUL])[1] == NUL;
    }
  }

  lemma ProbeMatchAt(k: nat, i: nat, n: nat, hat: bool)
    requires k == LETTERS
    ensures MatchAt(Crowd(k), Probe(), i, n, hat) <==> i == LETTERS - 1 && n == 2
  {
    CrowdMatchAt(k, Probe(), i, n, hat);
  }

  lemma CaretMatchAt(k: nat, i: nat, n: nat, hat: bool)
    requires k == LETTERS
    ensures MatchAt(Crowd(k), [X], i, n, hat) <==> i == 0 && n == 1 && hat
  {
    CrowdMatchAt(k, [X], i, n, hat);
  }

  // The only match there is, is the leftmost-longest one.
  lemma OnlyMatch(r: Re, text: seq<nat>, b: nat, n: nat)
    requires forall i: nat, m: nat, hat :: MatchAt(r, text, i, m, hat) ==> i == b && m == n
    requires MatchAt(r, text, b, n, b == 0)
    ensures LeftmostLongest(r, text, 0, true, b, n)
  {
    forall j: nat | j < b ensures !MatchesFrom(r, text, 0, true, j) {
      var hat := j == 0;
      assert forall m: nat :: !MatchAt(r, text, j, m, hat);
    }
  }

  /** Matches that there are: the double in the probe, and X at the beginning of a text. The first search and the
    * third have missed theirs. */
  ghost predicate Misled(r: Re, double: bool, first: bool, second: bool) {
    && !double && LeftmostLongest(r, Probe(), 0, true, LETTERS - 1, 2)
    && first && !second && LeftmostLongest(r, [X], 0, true, 0, 1)
  }

  lemma CrowdMatches(k: nat)
    requires k == LETTERS
    ensures Misled(Crowd(k), false, true, false)
  {
    forall i: nat, m: nat, hat | MatchAt(Crowd(k), Probe(), i, m, hat) ensures i == LETTERS - 1 && m == 2 {
      ProbeMatchAt(k, i, m, hat);
    }
    ProbeMatchAt(k, LETTERS - 1, 2, false);
    OnlyMatch(Crowd(k), Probe(), LETTERS - 1, 2);
    forall i: nat, m: nat, hat | MatchAt(Crowd(k), [X], i, m, hat) ensures i == 0 && m == 1 {
      CaretMatchAt(k, i, m, hat);
    }
    CaretMatchAt(k, 0, 1, true);
    OnlyMatch(Crowd(k), [X], 0, 1);
  }

  lemma LoadedAtStart(a: Machine, m: Table)
    requires Crowded(a, LETTERS) && AnchoredMem(a, m) && !m.reset && |m.lists| == a.HatSlot() + 1
    requires m.initstat == a.HatSlot() && m.overflows == m.wrongs == 0
    ensures Loaded(a, m, 0)
  {
  }

  // What three calls return: nothing, a match, and nothing.
  ghost predicate Fickle(a: Machine, m: Table, text: seq<nat>, later: seq<nat>)
    requires AnchoredMem(a, m)
  {
    var x := PMatchMem(a, m, text, 0);
    AnchoredMem(a, x.m) && x.Missed? && x.m.reset &&
    var y := PMatchMem(a, x.m, later, 0);
    AnchoredMem(a, y.m) && y.Found? && !y.m.reset && y.m.initstat == 2 && PMatchMem(a, y.m, later, 0).Missed?
  }

  lemma CrowdFickle(a: Machine, m: Table)
    requires Crowded(a, LETTERS) && Loaded(a, m, 0) && AnchoredMem(a, m)
    ensures Fickle(a, m, Probe(), [X])
  {
    ProbeNotFound(a, m);
    PMatchKeeps(a, m, Probe(), 0);
    CaretLost(a);
  }

  // A new automaton for r, for which three calls go that way.
  ghost predicate Rigged(f: Fa, r: Re)
    reads f, f.gototab, f.posns, f.out
  {
    && Ready(f) && Compiled(f.re, r) && StartsWith(f.Auto(), f.View(), true)
    && Fickle(f.Auto(), f.View(), Probe(), [X])
  }

  // mkdfa for such a pattern.
  method MkCrowded(p: Node, g: Globals, ghost k: nat) returns (f: Fa)
    requires p.Shape() && k == LETTERS && p.tree == Crowd(k) && g.Ready()
    modifies p.Repr, g, g.setvec, g.tmpset
    ensures fresh(f) && fresh(f.gototab) && fresh(f.posns) && fresh(f.out)
    ensures Rigged(f, p.tree)
  {
    CrowdWords(k, []);
    f := MkDfa(p, true, g);
    CrowdCompiled(f.re, k);
    CrowdIsCrowded(f.re, k);
    MachineFacts(f.re, true);
    LoadedAtStart(f.Auto(), f.View());
    CrowdFickle(f.Auto(), f.View());
  }

  method CallThrice(f: Fa, g: Globals, ghost r: Re) returns (found1: bool, found2: bool, found3: bool)
    requires Rigged(f, r) && g.Ready()
    modifies f`initstat, f`curstat, f`reset, f`overflows, f`wrongs, f`slip, f.gototab, f.posns, f.out
    modifies g`setcnt, g`marked, g.setvec, g.tmpset
    ensures Ready(f) && !found1 && found2 && !found3
  {
    var later: seq<nat> := [X];
    assert IsText(later);
    found1, found2, found3 := CallOn(f, g, r, Probe(), later);
  }

  method CallOn(f: Fa, g: Globals, ghost r: Re, text: seq<nat>, later: seq<nat>)
    returns (found1: bool, found2: bool, found3: bool)
    requires Ready(f) && Compiled(f.re, r) && StartsWith(f.Auto(), f.View(), true) && g.Ready()
    requires IsText(text) && IsText(later) && Fickle(f.Auto(), f.View(), text, later)
    modifies f`initstat, f`curstat, f`reset, f`overflows, f`wrongs, f`slip, f.gototab, f.posns, f.out
    modifies g`setcnt, g`marked, g.setvec, g.tmpset
    ensures Ready(f) && !found1 && found2 && !found3
  {
    var at, length;
    found1, at, length := PMatch(f, g, r, text, 0, true);
    found2, at, length := PMatch(f, g, r, later, 0, true);
    found3, at, length := PMatch(f, g, r, later, 0, false);
  }

  /** The state table at work: `AA|BB|...|^X`, compiled anew, misses a match that overflows its table, and two calls
    * later it no longer finds X at the beginning of a text. */
  method OverflowMisleads(p: Node, g: Globals, ghost k: nat)
    returns (f: Fa, double: bool, first: bool, second: bool)
    requires p.Shape() && k == LETTERS && p.tree == Crowd(k) && g.Ready()
    modifies p.Repr, g, g.setvec, g.tmpset
    ensures Ready(f) && Compiled(f.re, p.tree)
    ensures Misled(p.tree, double, first, second)
  {
    f := MkCrowded(p, g, k);
    double, first, second := CallThrice(f, g, p.tree);
    CrowdMatches(k);
  }
}
