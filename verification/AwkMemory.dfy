/** What the three matchers of awk do, exactly, as functions of what the state table remembers (b.c: match,
  * pmatch, nematch). Which transitions have been recorded makes no difference. */
module AwkMemory {
  import opened AwkRegex
  import opened AwkSubset
  import opened AwkMatchSpec

  /** What is remembered after a scan, and the length it noted. */
  datatype Scan = Scan(m: Table, n: int)

  /** One scan from offset p, now at offset q in state s. */
  function ScanMem(a: Machine, m: Table, s: nat, text: seq<nat>, p: nat, q: nat, noted: int): (x: Scan)
    requires 1 <= s < |m.lists| && p <= q <= |text|
    ensures x.n == noted || 0 <= x.n <= |text| - p
    decreases |text| - q
  {
    var n := if a.Accepting(m.lists[s]) then q - p else noted;
    var x := a.Move(m, s, At(text, q));
    if x.t == 1 then Scan(x.m, n)
    else if q == |text| then Scan(x.m, if a.Accepting(x.m.lists[x.t]) then q - p else n)
    else ScanMem(a, x.m, x.t, text, p, q + 1, n)
  }

  /** Starting again from the list kept, after an overflow. */
  function Stepped(m: Table): Table {
    if m.reset && m.lists[0] != [] then m.(lists := [m.lists[0], [], m.lists[0]], slip := NONE, initstat := 2) else m
  }

  /** What is remembered once the first state of a call is there, and that state. */
  function Begun(a: Machine, m: Table): Table
    requires a.plain != [] && a.hat != []
  {
    StartListsDiffer(a, m.lists[0]);
    if m.reset then m.(lists := a.StartLists(m.lists[0]), slip := NONE, reset := false) else m
  }

  function FirstSlot(a: Machine, m: Table): nat { if m.reset then a.HatSlot() else m.initstat }

  datatype Found = Found(m: Table, at: nat, length: int) | Missed(m: Table)

  /** The scans from offset p up to `last`, until one notes at least the length `least`. */
  function SearchMem(a: Machine, m: Table, s: nat, text: seq<nat>, p: nat, last: int, least: int, noted: int): Found
    requires 1 <= s < |m.lists| && p <= last + 1 <= |text| + 1
    decreases last + 1 - p
  {
    if p > last then Missed(m)
    else
      var x := ScanMem(a, m, s, text, p, p, noted);
      if x.n >= least then Found(x.m, p, x.n) else SearchMem(a, Stepped(x.m), 2, text, p + 1, last, least, x.n)
  }

  /** The offsets whose scans record a wrong transition. */
  function Doubted(a: Machine, m: Table, s: nat, text: seq<nat>, p: nat, last: int, least: int, noted: int): set<nat>
    requires 1 <= s < |m.lists| && p <= last + 1 <= |text| + 1
    decreases last + 1 - p
  {
    if p > last then {}
    else
      var x := ScanMem(a, m, s, text, p, p, noted);
      (if x.m.wrongs == m.wrongs then {} else {p}) +
      if x.n >= least then {} else Doubted(a, Stepped(x.m), 2, text, p + 1, last, least, x.n)
  }

  /** What is remembered after match, and its answer. */
  datatype Answer = Answer(m: Table, found: bool)

  /** match's loop at offset p in state s. */
  function MatchMem(a: Machine, m: Table, s: nat, text: seq<nat>, p: nat): Answer
    requires 1 <= s < |m.lists| && p <= |text| + 1
    decreases |text| + 1 - p
  {
    if a.Accepting(m.lists[s]) then Answer(m, true)
    else if p == |text| + 1 then Answer(m, false)
    else
      var x := a.Move(m, s, At(text, p));
      MatchMem(a, x.m, x.t, text, p + 1)
  }

  // ------------------------------------------------------------------ what scanning keeps

  /** m' is what becomes of m while states are only added or the table overflows. */
  predicate Later(m: Table, m': Table) {
    && m'.lists[0] == m.lists[0] && m'.initstat == m.initstat
    && m'.wrongs >= m.wrongs && (m'.wrongs == m.wrongs && m.slip == NONE ==> m'.slip == NONE)
    && (|| (m'.overflows > m.overflows && m'.reset)
        || ((m'.overflows, m'.reset, m'.slip, m'.wrongs) == (m.overflows, m.reset, m.slip, m.wrongs) &&
            |m.lists| <= |m'.lists| && forall k :: 0 <= k < |m.lists| ==> m'.lists[k] == m.lists[k]))
  }

  lemma MoveLater(a: Machine, m: Table, s: nat, c: nat)
    requires 1 <= s < |m.lists|
    ensures Later(m, a.Move(m, s, c).m)
  {
  }

  lemma {:induction false} ScanLater(a: Machine, m: Table, s: nat, text: seq<nat>, p: nat, q: nat, noted: int)
    requires 1 <= s < |m.lists| && p <= q <= |text|
    ensures Later(m, ScanMem(a, m, s, text, p, q, noted).m)
    decreases |text| - q
  {
    var n := if a.Accepting(m.lists[s]) then q - p else noted;
    var x := a.Move(m, s, At(text, q));
    MoveLater(a, m, s, At(text, q));
    if x.t != 1 && q < |text| { ScanLater(a, x.m, x.t, text, p, q + 1, n); }
  }

  lemma {:induction false} MatchLater(a: Machine, m: Table, s: nat, text: seq<nat>, p: nat)
    requires 1 <= s < |m.lists| && p <= |text| + 1
    ensures Later(m, MatchMem(a, m, s, text, p).m)
    decreases |text| + 1 - p
  {
    if !a.Accepting(m.lists[s]) && p <= |text| {
      var x := a.Move(m, s, At(text, p));
      MoveLater(a, m, s, At(text, p));
      MatchLater(a, x.m, x.t, text, p + 1);
    }
  }

  // ------------------------------------------------------------------ anchored matching

  /** The start states are in their places. */
  predicate StartsKept(a: Machine, m: Table) {
    a.HatSlot() < |m.lists| && m.lists[2] == a.plain && m.lists[a.HatSlot()] == a.hat
  }

  /** What pmatch and nematch keep of an anchored automaton between calls. */
  predicate AnchoredMem(a: Machine, m: Table) {
    && a.plain != [] && a.hat != [] && m.lists[0] == a.plain && (m.initstat == 2 || m.initstat == a.HatSlot())
    && (m.reset || (m.slip == NONE && StartsKept(a, m)))
  }

  // The same with a right table and the plain start state in slot 2: a scan can begin.
  predicate Prepared(a: Machine, m: Table) {
    AnchoredMem(a, m) && m.slip == NONE && m.lists[2] == a.plain
  }

  /** The first state: after `^`, or plain. */
  predicate StartsWith(a: Machine, m: Table, hat: bool) {
    if hat then m.reset || m.initstat == a.HatSlot() else !m.reset && m.initstat == 2
  }

  /** The list of the state that a scan begins with. */
  function FirstList(a: Machine, hat: bool): seq<nat> { if hat then a.hat else a.plain }

  lemma BegunPrepared(a: Machine, m: Table, hat: bool)
    requires AnchoredMem(a, m) && StartsWith(a, m, hat)
    ensures Prepared(a, Begun(a, m)) && !Begun(a, m).reset && Begun(a, m).wrongs == m.wrongs
    ensures 1 <= FirstSlot(a, m) < |Begun(a, m).lists| && Begun(a, m).lists[FirstSlot(a, m)] == FirstList(a, hat)
  {
    StartListsDiffer(a, m.lists[0]);
  }

  lemma SteppedPrepared(a: Machine, m: Table, m1: Table)
    requires Prepared(a, m) && Later(m, m1)
    ensures AnchoredMem(a, m1) && Prepared(a, Stepped(m1))
  {
  }

  // The first slot of a call is live.
  lemma FirstSlotLive(a: Machine, m: Table)
    requires AnchoredMem(a, m)
    ensures Prepared(a, Begun(a, m)) && 1 <= FirstSlot(a, m) < |Begun(a, m).lists|
  {
    BegunPrepared(a, m, m.reset || m.initstat == a.HatSlot());
  }

  /** pmatch, from an offset on. */
  function PMatchMem(a: Machine, m: Table, text: seq<nat>, from: nat): Found
    requires AnchoredMem(a, m) && from <= |text|
  {
    FirstSlotLive(a, m);
    SearchMem(a, Begun(a, m), FirstSlot(a, m), text, from, |text|, 0, -1)
  }

  function PMatchDoubts(a: Machine, m: Table, text: seq<nat>, from: nat): set<nat>
    requires AnchoredMem(a, m) && from <= |text|
  {
    FirstSlotLive(a, m);
    Doubted(a, Begun(a, m), FirstSlot(a, m), text, from, |text|, 0, -1)
  }

  /** nematch. */
  function NEMatchMem(a: Machine, m: Table, text: seq<nat>): Found
    requires AnchoredMem(a, m)
  {
    FirstSlotLive(a, m);
    SearchMem(a, Begun(a, m), FirstSlot(a, m), text, 0, |text| - 1, 1, -1)
  }

  function NEMatchDoubts(a: Machine, m: Table, text: seq<nat>): set<nat>
    requires AnchoredMem(a, m)
  {
    FirstSlotLive(a, m);
    Doubted(a, Begun(a, m), FirstSlot(a, m), text, 0, |text| - 1, 1, -1)
  }

  /** What match keeps of an unanchored automaton between calls. */
  predicate UnanchoredMem(a: Machine, m: Table) {
    && a.plain != [] && a.hat != [] && m.initstat == a.HatSlot()
    && (m.reset || (m.slip == NONE && a.HatSlot() < |m.lists| && m.lists[a.HatSlot()] == a.hat))
  }

  lemma BegunUnanchored(a: Machine, m: Table)
    requires UnanchoredMem(a, m)
    ensures var b := Begun(a, m);
      && UnanchoredMem(a, b) && !b.reset && b.slip == NONE && b.wrongs == m.wrongs
      && 1 <= FirstSlot(a, m) < |b.lists| && b.lists[FirstSlot(a, m)] == a.hat
  {
    StartListsDiffer(a, m.lists[0]);
  }

  /** match. */
  function WholeMatchMem(a: Machine, m: Table, text: seq<nat>): Answer
    requires UnanchoredMem(a, m)
  {
    BegunUnanchored(a, m);
    MatchMem(a, Begun(a, m), FirstSlot(a, m), text, 0)
  }

  lemma MatchKeeps(a: Machine, m: Table, text: seq<nat>)
    requires UnanchoredMem(a, m)
    ensures UnanchoredMem(a, WholeMatchMem(a, m, text).m) && Called(m, WholeMatchMem(a, m, text).m)
  {
    BegunUnanchored(a, m);
    MatchLater(a, Begun(a, m), FirstSlot(a, m), text, 0);
  }

  /** What becomes of the memory in a call: the table has overflowed, or the next call will start as this one. */
  predicate Called(m: Table, m': Table) {
    && m'.wrongs >= m.wrongs && (m'.initstat == m.initstat || m'.initstat == 2)
    && (|| (m'.overflows > m.overflows && m'.reset)
        || ((m'.overflows, m'.wrongs, m'.initstat) == (m.overflows, m.wrongs, m.initstat) && !m'.reset))
  }

  lemma PMatchKeeps(a: Machine, m: Table, text: seq<nat>, from: nat)
    requires AnchoredMem(a, m) && from <= |text|
    ensures AnchoredMem(a, PMatchMem(a, m, text, from).m) && Called(m, PMatchMem(a, m, text, from).m)
  {
    FirstSlotLive(a, m);
    SearchKeeps(a, Begun(a, m), FirstSlot(a, m), text, from, |text|, 0, -1);
  }

  lemma NEMatchKeeps(a: Machine, m: Table, text: seq<nat>)
    requires AnchoredMem(a, m)
    ensures AnchoredMem(a, NEMatchMem(a, m, text).m) && Called(m, NEMatchMem(a, m, text).m)
  {
    FirstSlotLive(a, m);
    SearchKeeps(a, Begun(a, m), FirstSlot(a, m), text, 0, |text| - 1, 1, -1);
  }

  /** What becomes of the memory in a search. */
  predicate Searched(m: Table, m': Table) {
    && m'.wrongs >= m.wrongs && m'.overflows >= m.overflows && (m'.initstat == m.initstat || m'.initstat == 2)
    && (|| (m'.overflows > m.overflows && m'.reset)
        || (m'.overflows, m'.wrongs, m'.reset) == (m.overflows, m.wrongs, m.reset))
    && (!m'.reset ==> m'.initstat == m.initstat)
  }

  lemma {:induction false} SearchKeeps(a: Machine, m: Table, s: nat, text: seq<nat>, p: nat, last: int, least: int,
                                       noted: int)
    requires Prepared(a, m) && 1 <= s < |m.lists| && p <= last + 1 <= |text| + 1
    ensures var x := SearchMem(a, m, s, text, p, last, least, noted); AnchoredMem(a, x.m) && Searched(m, x.m)
    decreases last + 1 - p
  {
    if p <= last {
      var x := ScanMem(a, m, s, text, p, p, noted);
      ScanLater(a, m, s, text, p, p, noted);
      SteppedPrepared(a, m, x.m);
      if x.n < least { SearchKeeps(a, Stepped(x.m), 2, text, p + 1, last, least, x.n); }
    }
  }

  // There are no more doubtful offsets than wrong transitions.
  predicate Counted(p: nat, m: Table, x: Found, doubtful: set<nat>) {
    |doubtful| <= x.m.wrongs - m.wrongs && forall j :: j in doubtful ==> p <= j
  }

  lemma CountedBefore(p: nat, m: Table, m1: Table, x: Found, later: set<nat>, doubtful: set<nat>)
    requires Counted(p + 1, m1, x, later) && m1.wrongs >= m.wrongs
    requires doubtful == (if m1.wrongs == m.wrongs then {} else {p}) + later
    ensures Counted(p, m, x, doubtful)
  {
  }

  lemma {:induction false} SearchCounted(a: Machine, m: Table, s: nat, text: seq<nat>, p: nat, last: int, least: int,
                                         noted: int)
    requires Prepared(a, m) && 1 <= s < |m.lists| && p <= last + 1 <= |text| + 1
    ensures Counted(p, m, SearchMem(a, m, s, text, p, last, least, noted),
                    Doubted(a, m, s, text, p, last, least, noted))
    decreases last + 1 - p
  {
    if p <= last {
      var x := ScanMem(a, m, s, text, p, p, noted);
      ScanLater(a, m, s, text, p, p, noted);
      SteppedPrepared(a, m, x.m);
      if x.n < least {
        var next := Stepped(x.m);
        SearchCounted(a, next, 2, text, p + 1, last, least, x.n);
        CountedBefore(p, m, next, SearchMem(a, next, 2, text, p + 1, last, least, x.n),
                      Doubted(a, next, 2, text, p + 1, last, least, x.n),
                      Doubted(a, m, s, text, p, last, least, noted));
      }
    }
  }
}
