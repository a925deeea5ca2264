/** The answers of awk's matchers in terms of the expression's language: they are right wherever no wrong
  * transition is recorded (b.c: match, pmatch, nematch). */
module AwkJudge {
  import opened AwkRegex
  import opened AwkPositions
  import opened AwkPattern
  import opened AwkTree
  import opened AwkSubset
  import opened AwkMatchSpec
  import opened AwkMemory

  // ------------------------------------------------------------------ what a scan finds

  /** A scan that starts with a right table and records no wrong transition notes what the positions reached tell. */
  lemma {:induction false} ScanRight(re: Automaton, anchor: bool, m: Table, s: nat, text: seq<nat>, p: nat, q: nat,
                                     start: set<nat>, before: int, noted: int)
    requires m.slip == NONE && 1 <= s < |m.lists| && p <= q <= |text|
    requires Noted(re, start, text, p, q - p, before, noted) && Elems(m.lists[s]) == Reached(re, start, text, p, q)
    ensures var x := ScanMem(MachineOf(re, anchor), m, s, text, p, q, noted);
      x.m.wrongs == m.wrongs ==> Scanned(re, start, text, p, before, x.n)
    decreases |text| - q
  {
    var a := MachineOf(re, anchor);
    var n := if a.Accepting(m.lists[s]) then q - p else noted;
    var x := a.Move(m, s, At(text, q));
    MoveLater(a, m, s, At(text, q));
    assert a.Accepting(m.lists[s]) <==> Accept(re) in Elems(m.lists[s]);
    NotedStep(re, start, text, p, q, before, noted, n);
    NextStored(re, m.lists[s], At(text, q));
    ReachedStep(re, start, text, p, q);
    assert a.Accepting(x.m.lists[x.t]) <==> Accept(re) in Elems(x.m.lists[x.t]);
    if x.t == 1 {
      assert Elems([]) == {};
      DeadEnd(re, start, text, p, q, before, n);
    } else if q == |text| {
      TextEnd(re, start, text, p, before, n, if a.Accepting(x.m.lists[x.t]) then q - p else n);
    } else {
      ScanLater(a, x.m, x.t, text, p, q + 1, n);
      if x.m.slip == NONE { ScanRight(re, anchor, x.m, x.t, text, p, q + 1, start, before, n); }
    }
  }

  /** A scan from table m ended with x; it tells rightly what matches at p. */
  ghost predicate Tells(r: Re, text: seq<nat>, p: nat, hat: bool, before: int, m: Table, x: Scan) {
    x.m.wrongs == m.wrongs ==>
      && (x.n >= 0 && x.n > before ==> LongestAt(r, text, p, x.n, hat))
      && (x.n > 0 ==> LongestAt(r, text, p, x.n, hat))
      && (x.n <= 0 ==> !NonemptyAt(r, text, p, hat)) && (x.n < 0 ==> !MatchesAt(r, text, p, hat))
  }

  lemma ScanMeans(re: Automaton, r: Re, m: Table, s: nat, text: seq<nat>, p: nat, hat: bool, before: int)
    requires Compiled(re, r) && m.slip == NONE && 1 <= s < |m.lists| && p <= |text| && -1 <= before <= 0
    requires m.lists[s] == FirstList(MachineOf(re, true), hat)
    ensures Tells(r, text, p, hat, before, m, ScanMem(MachineOf(re, true), m, s, text, p, p, before))
  {
    TrimmedLists(re);
    assert text[p..p] == [];
    ScanRight(re, true, m, s, text, p, p, StartSet(re, hat), before, before);
    var x := ScanMem(MachineOf(re, true), m, s, text, p, p, before);
    if x.m.wrongs == m.wrongs { ScannedMeans(re, r, text, p, hat, before, x.n); }
  }

  // All scans of a machine tell rightly what matches.
  ghost predicate TellsAlways(a: Machine, r: Re, text: seq<nat>) {
    forall m: Table, s: nat, p: nat, hat: bool, before: int
      {:trigger FirstList(a, hat), ScanMem(a, m, s, text, p, p, before)} ::
      m.slip == NONE && 1 <= s < |m.lists| && p <= |text| && -1 <= before <= 0 && m.lists[s] == FirstList(a, hat) ==>
      Tells(r, text, p, hat, before, m, ScanMem(a, m, s, text, p, p, before))
  }

  lemma MachineTells(re: Automaton, r: Re, text: seq<nat>)
    requires Compiled(re, r)
    ensures TellsAlways(MachineOf(re, true), r, text)
  {
    forall m: Table, s: nat, p: nat, hat: bool, before: int |
      m.slip == NONE && 1 <= s < |m.lists| && p <= |text| && -1 <= before <= 0 &&
      m.lists[s] == FirstList(MachineOf(re, true), hat)
      ensures Tells(r, text, p, hat, before, m, ScanMem(MachineOf(re, true), m, s, text, p, p, before))
    {
      ScanMeans(re, r, m, s, text, p, hat, before);
    }
  }

  lemma ThisTells(a: Machine, r: Re, text: seq<nat>, m: Table, s: nat, p: nat, hat: bool, before: int)
    requires TellsAlways(a, r, text) && m.slip == NONE && 1 <= s < |m.lists| && p <= |text| && -1 <= before <= 0
    requires m.lists[s] == FirstList(a, hat)
    ensures Tells(r, text, p, hat, before, m, ScanMem(a, m, s, text, p, p, before))
  {
  }

  // ------------------------------------------------------------------ what a search finds

  /** Offset j is judged rightly: it is not passed over if there is a match, unless it is in doubt. */
  ghost predicate JudgedAt(r: Re, text: seq<nat>, from: nat, hat: bool, p: nat, end: nat, d: set<nat>, j: int) {
    0 <= p <= j < end && j !in d ==> !MatchesFrom(r, text, from, hat, j)
  }

  ghost predicate JudgedNonemptyAt(r: Re, text: seq<nat>, hat: bool, p: nat, end: nat, d: set<nat>, j: int) {
    0 <= p <= j < end && j !in d ==> !NonemptyFrom(r, text, hat, j)
  }

  /** What is found is the longest match there, unless the offset is in doubt. */
  ghost predicate Located(r: Re, text: seq<nat>, from: nat, hat: bool, p: nat, x: Found, d: set<nat>) {
    x.Found? ==> p <= x.at <= |text| && 0 <= x.length <= |text| - x.at &&
                 (x.at !in d ==> LongestAt(r, text, x.at, x.length, hat && x.at == from))
  }

  function End(x: Found, last: nat): nat { if x.Found? then x.at else last }

  // A turn of pmatch.
  lemma PMatchTurn(a: Machine, r: Re, m: Table, s: nat, text: seq<nat>, from: nat, p: nat, hat: bool)
    returns (x: Scan, next: Table, own: set<nat>)
    requires TellsAlways(a, r, text) && Prepared(a, m) && 1 <= s < |m.lists| && from <= p <= |text|
    requires m.lists[s] == FirstList(a, hat && p == from)
    ensures x == ScanMem(a, m, s, text, p, p, -1) && next == Stepped(x.m) && Prepared(a, next)
    ensures own == if x.m.wrongs == m.wrongs then {} else {p}
    ensures x.n < 0 && p !in own ==> !MatchesFrom(r, text, from, hat, p)
    ensures x.n >= 0 && p !in own ==> LongestAt(r, text, p, x.n, hat && p == from)
  {
    x := ScanMem(a, m, s, text, p, p, -1);
    ThisTells(a, r, text, m, s, p, hat && p == from, -1);
    ScanLater(a, m, s, text, p, p, -1);
    SteppedPrepared(a, m, x.m);
    next, own := Stepped(x.m), if x.m.wrongs == m.wrongs then {} else {p};
  }

  /** pmatch: every offset is judged rightly unless its own scan records a wrong transition. */
  lemma {:induction false} PMatchJudges(a: Machine, r: Re, m: Table, s: nat, text: seq<nat>, from: nat, p: nat,
                                        hat: bool, j: nat)
    requires TellsAlways(a, r, text) && Prepared(a, m) && 1 <= s < |m.lists| && from <= p <= |text| + 1
    requires p <= |text| ==> m.lists[s] == FirstList(a, hat && p == from)
    ensures var x, d := SearchMem(a, m, s, text, p, |text|, 0, -1), Doubted(a, m, s, text, p, |text|, 0, -1);
      JudgedAt(r, text, from, hat, p, End(x, |text| + 1), d, j)
    decreases |text| + 1 - p
  {
    if p <= |text| {
      var x, next, own := PMatchTurn(a, r, m, s, text, from, p, hat);
      if x.n < 0 { PMatchJudges(a, r, next, 2, text, from, p + 1, hat, j); }
    }
  }

  lemma {:induction false} PMatchLocates(a: Machine, r: Re, m: Table, s: nat, text: seq<nat>, from: nat, p: nat,
                                         hat: bool)
    requires TellsAlways(a, r, text) && Prepared(a, m) && 1 <= s < |m.lists| && from <= p <= |text| + 1
    requires p <= |text| ==> m.lists[s] == FirstList(a, hat && p == from)
    ensures Located(r, text, from, hat, p, SearchMem(a, m, s, text, p, |text|, 0, -1),
                    Doubted(a, m, s, text, p, |text|, 0, -1))
    decreases |text| + 1 - p
  {
    if p <= |text| {
      var x, next, own := PMatchTurn(a, r, m, s, text, from, p, hat);
      if x.n < 0 {
        PMatchLocates(a, r, next, 2, text, from, p + 1, hat);
        SearchCounted(a, next, 2, text, p + 1, |text|, 0, -1);
      }
    }
  }

  // A turn of nematch.
  lemma NEMatchTurn(a: Machine, r: Re, m: Table, s: nat, text: seq<nat>, p: nat, hat: bool, noted: int)
    returns (x: Scan, next: Table, own: set<nat>)
    requires TellsAlways(a, r, text) && Prepared(a, m) && 1 <= s < |m.lists| && p < |text| && -1 <= noted <= 0
    requires m.lists[s] == FirstList(a, hat && p == 0)
    ensures x == ScanMem(a, m, s, text, p, p, noted) && next == Stepped(x.m) && Prepared(a, next)
    ensures own == (if x.m.wrongs == m.wrongs then {} else {p}) && -1 <= x.n <= |text| - p
    ensures x.n < 1 && p !in own ==> !NonemptyFrom(r, text, hat, p)
    ensures x.n >= 1 && p !in own ==> LongestAt(r, text, p, x.n, hat && p == 0)
  {
    x := ScanMem(a, m, s, text, p, p, noted);
    ThisTells(a, r, text, m, s, p, hat && p == 0, noted);
    ScanLater(a, m, s, text, p, p, noted);
    SteppedPrepared(a, m, x.m);
    next, own := Stepped(x.m), if x.m.wrongs == m.wrongs then {} else {p};
  }

  /** nematch, in the same way. */
  lemma {:induction false} NEMatchJudges(a: Machine, r: Re, m: Table, s: nat, text: seq<nat>, p: nat, hat: bool,
                                         noted: int, j: nat)
    requires TellsAlways(a, r, text) && Prepared(a, m) && 1 <= s < |m.lists| && p <= |text| && -1 <= noted <= 0
    requires p < |text| ==> m.lists[s] == FirstList(a, hat && p == 0)
    ensures var x := SearchMem(a, m, s, text, p, |text| - 1, 1, noted);
      JudgedNonemptyAt(r, text, hat, p, End(x, |text|), Doubted(a, m, s, text, p, |text| - 1, 1, noted), j)
    decreases |text| - p
  {
    if p < |text| {
      var x, next, own := NEMatchTurn(a, r, m, s, text, p, hat, noted);
      if x.n < 1 { NEMatchJudges(a, r, next, 2, text, p + 1, hat, x.n, j); }
    }
  }

  lemma {:induction false} NEMatchLocates(a: Machine, r: Re, m: Table, s: nat, text: seq<nat>, p: nat, hat: bool,
                                          noted: int)
    requires TellsAlways(a, r, text) && Prepared(a, m) && 1 <= s < |m.lists| && p <= |text| && -1 <= noted <= 0
    requires p < |text| ==> m.lists[s] == FirstList(a, hat && p == 0)
    ensures var x := SearchMem(a, m, s, text, p, |text| - 1, 1, noted);
      && Located(r, text, 0, hat, p, x, Doubted(a, m, s, text, p, |text| - 1, 1, noted))
      && (x.Found? ==> x.at < |text| && x.length > 0)
    decreases |text| - p
  {
    if p < |text| {
      var x, next, own := NEMatchTurn(a, r, m, s, text, p, hat, noted);
      if x.n < 1 {
        NEMatchLocates(a, r, next, 2, text, p + 1, hat, x.n);
        SearchCounted(a, next, 2, text, p + 1, |text| - 1, 1, x.n);
      }
    }
  }

  // ------------------------------------------------------------------ whole calls

  ghost predicate JudgedUpTo(r: Re, text: seq<nat>, from: nat, hat: bool, end: nat, d: set<nat>) {
    forall j :: JudgedAt(r, text, from, hat, from, end, d, j)
  }

  ghost predicate JudgedNonemptyUpTo(r: Re, text: seq<nat>, hat: bool, end: nat, d: set<nat>) {
    forall j :: JudgedNonemptyAt(r, text, hat, 0, end, d, j)
  }

  /** What pmatch's outcome x says, the offsets in d being in doubt. */
  ghost predicate PMatchRight(r: Re, text: seq<nat>, from: nat, hat: bool, x: Found, d: set<nat>) {
    Located(r, text, from, hat, from, x, d) && JudgedUpTo(r, text, from, hat, End(x, |text| + 1), d)
  }

  /** The outcome of a search is the leftmost-longest match, or there is none. */
  ghost predicate Answers(r: Re, text: seq<nat>, from: nat, hat: bool, found: bool, b: nat, n: int) {
    if found then n >= 0 && LeftmostLongest(r, text, from, hat, b, n) else NoMatch(r, text, from, hat)
  }

  lemma PMatchIsRight(re: Automaton, r: Re, m: Table, text: seq<nat>, from: nat, hat: bool)
    requires var a := MachineOf(re, true);
      Compiled(re, r) && AnchoredMem(a, m) && StartsWith(a, m, hat) && from <= |text|
    ensures var a := MachineOf(re, true); var x, d := PMatchMem(a, m, text, from), PMatchDoubts(a, m, text, from);
      PMatchRight(r, text, from, hat, x, d) && Counted(from, m, x, d)
  {
    var a := MachineOf(re, true);
    var b, s := Begun(a, m), FirstSlot(a, m);
    BegunPrepared(a, m, hat);
    MachineTells(re, r, text);
    var x, d := PMatchMem(a, m, text, from), PMatchDoubts(a, m, text, from);
    var end := End(x, |text| + 1);
    forall j ensures JudgedAt(r, text, from, hat, from, end, d, j) {
      if j >= 0 { PMatchJudges(a, r, b, s, text, from, from, hat, j); }
    }
    PMatchLocates(a, r, b, s, text, from, from, hat);
    SearchCounted(a, b, s, text, from, |text|, 0, -1);
  }

  // With no offset in doubt the outcome is right.
  lemma Undoubted(r: Re, text: seq<nat>, from: nat, hat: bool, x: Found, d: set<nat>)
    requires PMatchRight(r, text, from, hat, x, d) && |d| == 0 && from <= |text|
    ensures Answers(r, text, from, hat, x.Found?, if x.Found? then x.at else from, if x.Found? then x.length else -1)
  {
    forall j: nat | from <= j < End(x, |text| + 1) ensures !MatchesFrom(r, text, from, hat, j) {
      assert JudgedAt(r, text, from, hat, from, End(x, |text| + 1), d, j);
    }
  }

  /** What nematch's outcome says. */
  ghost predicate NEMatchRight(r: Re, text: seq<nat>, hat: bool, x: Found, d: set<nat>) {
    && Located(r, text, 0, hat, 0, x, d) && (x.Found? ==> x.at < |text| && x.length > 0)
    && JudgedNonemptyUpTo(r, text, hat, End(x, |text|), d)
  }

  lemma NEMatchIsRight(re: Automaton, r: Re, m: Table, text: seq<nat>, hat: bool)
    requires var a := MachineOf(re, true); Compiled(re, r) && AnchoredMem(a, m) && StartsWith(a, m, hat)
    ensures var a := MachineOf(re, true); var x, d := NEMatchMem(a, m, text), NEMatchDoubts(a, m, text);
      NEMatchRight(r, text, hat, x, d) && Counted(0, m, x, d)
  {
    var a := MachineOf(re, true);
    var b, s := Begun(a, m), FirstSlot(a, m);
    BegunPrepared(a, m, hat);
    MachineTells(re, r, text);
    var x, d := NEMatchMem(a, m, text), NEMatchDoubts(a, m, text);
    var end := End(x, |text|);
    forall j ensures JudgedNonemptyAt(r, text, hat, 0, end, d, j) {
      if j >= 0 { NEMatchJudges(a, r, b, s, text, 0, hat, -1, j); }
    }
    NEMatchLocates(a, r, b, s, text, 0, hat, -1);
    SearchCounted(a, b, s, text, 0, |text| - 1, 1, -1);
  }

  /** The outcome is the leftmost offset with a nonempty match, and the length of the longest one there. */
  ghost predicate AnswersNonempty(r: Re, text: seq<nat>, hat: bool, found: bool, b: nat, n: int) {
    if found then n > 0 && LongestAt(r, text, b, n, hat && b == 0) && NoNonemptyBefore(r, text, hat, b)
    else NoNonemptyBefore(r, text, hat, |text|)
  }

  ghost predicate NoNonemptyBefore(r: Re, text: seq<nat>, hat: bool, end: nat) {
    forall j: nat :: j < end ==> !NonemptyFrom(r, text, hat, j)
  }

  lemma UndoubtedNonempty(r: Re, text: seq<nat>, hat: bool, x: Found, d: set<nat>)
    requires NEMatchRight(r, text, hat, x, d) && |d| == 0
    ensures AnswersNonempty(r, text, hat, x.Found?, if x.Found? then x.at else 0, if x.Found? then x.length else -1)
  {
    forall j: nat | j < End(x, |text|) ensures !NonemptyFrom(r, text, hat, j) {
      assert JudgedNonemptyAt(r, text, hat, 0, End(x, |text|), d, j);
    }
  }

  // ------------------------------------------------------------------ unanchored matching

  // A text and its marker and terminator, symbol by symbol.
  lemma FramedPrefix(text: seq<nat>, q: nat)
    requires q <= |text|
    ensures Framed(text)[..q + 2] == Framed(text)[..q + 1] + [At(text, q)]
    ensures Framed(text)[..1] == [HAT]
  {
  }

  /** match, as long as no wrong transition is recorded: some prefix of HAT text NUL longer than p ends with a word
    * of r. */
  lemma {:induction false} MatchMeans(re: Automaton, r: Re, m: Table, s: nat, text: seq<nat>, p: nat)
    requires Compiled(re, r) && IsText(text) && m.slip == NONE && 1 <= s < |m.lists| && p <= |text| + 1
    requires Elems(m.lists[s]) == RunSet(re, Start(re), Framed(text)[..p + 1]) && NoneUpTo(r, text, p)
    ensures var x := MatchMem(MachineOf(re, false), m, s, text, p);
      x.m.wrongs == m.wrongs ==> (x.found <==> HasFactor(r, Framed(text)))
    decreases |text| + 1 - p
  {
    var a := MachineOf(re, false);
    UnanchoredAccepts(re, r, Framed(text)[..p + 1]);
    assert a.Accepting(m.lists[s]) <==> Accept(re) in Elems(m.lists[s]);
    if a.Accepting(m.lists[s]) {
      PrefixFound(r, text, p + 1);
    } else {
      NoneAtNext(r, text, p + 1);
      if p == |text| + 1 {
        NothingFound(r, text);
      } else {
        var x := a.Move(m, s, At(text, p));
        MoveLater(a, m, s, At(text, p));
        NextStored(re, m.lists[s], At(text, p));
        FramedPrefix(text, p);
        RunSetSnoc(re, Start(re), Framed(text)[..p + 1], At(text, p));
        MatchLater(a, x.m, x.t, text, p + 1);
        if x.m.slip == NONE { MatchMeans(re, r, x.m, x.t, text, p + 1); }
      }
    }
  }

  lemma MatchIsRight(re: Automaton, r: Re, m: Table, text: seq<nat>)
    requires var a := MachineOf(re, false); Compiled(re, r) && UnanchoredMem(a, m) && IsText(text)
    ensures var x := WholeMatchMem(MachineOf(re, false), m, text);
      x.m.wrongs == m.wrongs ==> (x.found <==> HasFactor(r, Framed(text)))
  {
    var a := MachineOf(re, false);
    BegunUnanchored(a, m);
    HatNext(re);
    FramedPrefix(text, 0);
    assert [HAT][1..] == [];
    MatchMeans(re, r, Begun(a, m), FirstSlot(a, m), text, 0);
  }
}
