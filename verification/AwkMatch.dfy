/** Running the lazy automaton over a text (b.c: mkdfa, match, pmatch, nematch). The methods do exactly what
  * AwkMemory says, and so their answers mean what AwkJudge proves. */
module AwkMatch {
  import opened AwkRegex
  import opened AwkPositions
  import opened AwkPattern
  import opened AwkTree
  import opened AwkSubset
  import opened AwkDfa
  import opened AwkMatchSpec
  import opened AwkMemory
  import opened AwkJudge
  import opened AwkSmall

  /** The part of every matching loop that looks up or computes one transition. */
  method Advance(f: Fa, g: Globals, s: nat, c: nat) returns (t: nat)
    requires f.Valid() && g.Ready() && 1 <= s <= f.curstat && c < HAT
    modifies f`curstat, f`reset, f`overflows, f`wrongs, f`slip, f.gototab, f.posns, f.out
    modifies g`setcnt, g`marked, g.setvec, g.tmpset
    ensures f.Valid() && f.out[0] == old(f.out[0])
    ensures Moved(f.View(), t) == f.Auto().Move(old(f.View()), s, c)
  {
    assert f.StateOk(s) && f.RowRight(s);
    t := f.gototab[s, c];
    if t != 0 {
      SlotIs(f.View().lists, t);
    } else {
      t := f.Goto(g, s, c);
    }
  }

  lemma AtIsSymbol(text: seq<nat>, i: nat)
    requires IsText(text)
    ensures At(text, i) < HAT && (At(text, i) == NUL <==> i >= |text|)
  {
    if i < |text| { assert text[i] in text; }
  }

  // What is left to do in a scan: q has passed the terminator, or there is more to read.
  ghost function RestOfScan(a: Machine, m: Table, s: nat, text: seq<nat>, p: nat, q: nat, noted: int): Scan
    requires 1 <= s < |m.lists| && p <= q <= |text| + 1
  {
    if q <= |text| then ScanMem(a, m, s, text, p, q, noted)
    else Scan(m, if a.Accepting(m.lists[s]) then q - p - 1 else noted)
  }

  lemma RestStep(a: Machine, m: Table, s: nat, text: seq<nat>, p: nat, q: nat, noted: int)
    requires 1 <= s < |m.lists| && p <= q <= |text|
    ensures var n, x := if a.Accepting(m.lists[s]) then q - p else noted, a.Move(m, s, At(text, q));
      RestOfScan(a, m, s, text, p, q, noted) ==
      if x.t == 1 then Scan(x.m, n) else RestOfScan(a, x.m, x.t, text, p, q + 1, n)
  {
  }

  // A scan is at offset q in state s, and its outcome will be `whole`.
  ghost predicate Scanning(f: Fa, s: nat, text: seq<nat>, p: nat, q: nat, noted: int, whole: Scan)
    requires p <= q <= |text| + 1
    reads f, f.gototab, f.posns, f.out
  {
    f.Valid() && 1 <= s <= f.curstat && whole == RestOfScan(f.Auto(), f.View(), s, text, p, q, noted)
  }

  // One turn of the inner loop: note acceptance at offset q, then read the symbol there.
  method ReadOne(f: Fa, g: Globals, text: seq<nat>, p: nat, q: nat, s: nat, noted: int, ghost whole: Scan)
    returns (t: nat, patlen: int)
    requires g.Ready() && IsText(text) && p <= q <= |text| && Scanning(f, s, text, p, q, noted, whole)
    modifies f`curstat, f`reset, f`overflows, f`wrongs, f`slip, f.gototab, f.posns, f.out
    modifies g`setcnt, g`marked, g.setvec, g.tmpset
    ensures f.out[0] == old(f.out[0])
    ensures t == 1 ==> f.Valid() && whole == Scan(f.View(), patlen)
    ensures t != 1 ==> Scanning(f, t, text, p, q + 1, patlen, whole)
  {
    assert f.StateOk(s);
    RestStep(f.Auto(), f.View(), s, text, p, q, noted);
    patlen := noted;
    if f.out[s] {
      patlen := q - p;
    }
    AtIsSymbol(text, q);
    t := Advance(f, g, s, At(text, q));
  }

  /** The inner loop of pmatch and nematch: run from state s0 over text[p..] and the terminator, noting
    * the last offset at which the state accepts. patlen keeps its old value if there is none. */
  method ScanFrom(f: Fa, g: Globals, text: seq<nat>, p: nat, s0: nat, patlen0: int) returns (patlen: int)
    requires f.Valid() && g.Ready() && 1 <= s0 <= f.curstat && IsText(text) && p <= |text|
    modifies f`curstat, f`reset, f`overflows, f`wrongs, f`slip, f.gototab, f.posns, f.out
    modifies g`setcnt, g`marked, g.setvec, g.tmpset
    ensures f.Valid() && f.out[0] == old(f.out[0])
    ensures Scan(f.View(), patlen) == ScanMem(f.Auto(), old(f.View()), s0, text, p, p, patlen0)
  {
    ghost var whole := ScanMem(f.Auto(), f.View(), s0, text, p, p, patlen0);
    var s := s0;
    var q := p;
    patlen := patlen0;
    while q <= |text|
      invariant p <= q <= |text| + 1 && f.out[0] == old(f.out[0]) && Scanning(f, s, text, p, q, patlen, whole)
    {
      s, patlen := ReadOne(f, g, text, p, q, s, patlen, whole);
      if s == 1 {
        return;
      }
      q := q + 1;
    }
    assert f.StateOk(s);
    if f.out[s] {
      patlen := q - p - 1;
    }
  }

  /** What pmatch and nematch keep true of an anchored fa between calls. */
  ghost predicate Ready(f: Fa)
    reads f, f.gototab, f.posns, f.out
  {
    f.Valid() && f.anchor && f.SavedStart() && AnchoredMem(f.Auto(), f.View())
  }

  /** What match keeps true of an unanchored fa between calls. */
  ghost predicate ReadyUnanchored(f: Fa)
    reads f, f.gototab, f.posns, f.out
  {
    f.Valid() && !f.anchor && UnanchoredMem(f.Auto(), f.View())
  }

  // The first state of a call: rebuilt after an overflow, remembered otherwise.
  method FirstState(f: Fa, g: Globals) returns (s: nat)
    requires f.Valid() && (f.anchor ==> f.SavedStart()) && g.Ready()
    requires f.Auto().plain != [] && f.Auto().hat != []
    modifies f`curstat, f`reset, f`overflows, f`wrongs, f`slip, f.gototab, f.posns, f.out
    modifies g`setcnt, g`marked, g.setvec, g.tmpset
    ensures f.Valid() && (f.anchor ==> f.SavedStart())
    ensures f.View() == Begun(f.Auto(), old(f.View())) && s == FirstSlot(f.Auto(), old(f.View()))
  {
    MachineFacts(f.re, f.anchor);
    if f.reset {
      assert f.StateOk(1);
      s := f.MakeInit(g);
    } else {
      s := f.initstat;
    }
  }

  // The step to the next offset: state 2, rebuilt from slot 0 if the table has overflowed.
  method NextStart(f: Fa)
    requires f.Valid() && f.SavedStart()
    modifies f`initstat, f`curstat, f`slip, f.gototab, f.posns, f.out
    ensures f.Valid() && f.SavedStart() && f.View() == Stepped(old(f.View()))
  {
    StartsApart(f.re);
    if f.reset {
      Restore(f);
    }
  }

  // The part of pmatch and nematch that starts the table again from slot 0.
  method Restore(f: Fa)
    requires f.States() && f.SavedStart()
    modifies f`initstat, f`curstat, f`slip, f.gototab, f.posns, f.out
    ensures f.Valid() && f.Right() && f.SavedStart() && f.posns[0] == old(f.posns[0])
    ensures f.initstat == 2 && f.View().lists == [f.posns[0], [], f.posns[0]]
  {
    TrimmedLists(f.re);
    StartsApart(f.re);
    assert f.StateOk(1);
    ghost var saved := f.posns[0];
    for i := 2 to f.curstat + 1
      modifies f.posns
      invariant f.posns[0] == saved && f.posns[1] == []
    {
      f.posns[i] := [];
    }
    f.posns[2] := f.posns[0];
    f.initstat := 2;
    f.curstat := 2;
    f.out[2] := f.out[0];
    f.ZeroRow(2);
    f.slip := NONE;
    f.RowOfEmpty();
    f.TwoStates();
  }

  // What a call returns, as one value.
  function Returned(m: Table, found: bool, patbeg: nat, patlen: int): Found {
    if found then Found(m, patbeg, patlen) else Missed(m)
  }

  // The search is at offset p in state s, and its outcome will be `whole`.
  ghost predicate Searching(f: Fa, s: nat, text: seq<nat>, p: nat, last: int, least: int, noted: int, whole: Found)
    requires p <= last + 1 <= |text| + 1
    reads f, f.gototab, f.posns, f.out
  {
    f.Valid() && f.SavedStart() && 1 <= s <= f.curstat &&
    whole == SearchMem(f.Auto(), f.View(), s, text, p, last, least, noted)
  }

  // pmatch's outer loop, entered with state s0.
  method TryOffsets(f: Fa, g: Globals, text: seq<nat>, from: nat, s0: nat, ghost whole: Found)
    returns (found: bool, patbeg: nat, patlen: int)
    requires g.Ready() && IsText(text) && from <= |text| && Searching(f, s0, text, from, |text|, 0, -1, whole)
    modifies f`initstat, f`curstat, f`reset, f`overflows, f`wrongs, f`slip, f.gototab, f.posns, f.out
    modifies g`setcnt, g`marked, g.setvec, g.tmpset
    ensures f.Valid() && f.SavedStart() && Returned(f.View(), found, patbeg, patlen) == whole
  {
    var s := s0;
    patbeg := from;
    patlen := -1;
    var p := from;
    while p <= |text|
      invariant from <= p <= |text| + 1 && Searching(f, s, text, p, |text|, 0, patlen, whole)
    {
      patlen := TryAt(f, g, text, p, s, patlen, |text|, 0, whole);
      if patlen >= 0 {
        patbeg := p;
        return true, patbeg, patlen;
      }
      s := 2;
      p := p + 1;
    }
    return false, patbeg, patlen;
  }

  // One turn of the outer loops: a scan and, unless it notes at least the length wanted, the step to the next
  // offset.
  method TryAt(f: Fa, g: Globals, text: seq<nat>, p: nat, s: nat, patlen0: int, ghost last: int, least: int,
               ghost whole: Found) returns (patlen: int)
    requires g.Ready() && IsText(text) && p <= last <= |text| && Searching(f, s, text, p, last, least, patlen0, whole)
    modifies f`initstat, f`curstat, f`reset, f`overflows, f`wrongs, f`slip, f.gototab, f.posns, f.out
    modifies g`setcnt, g`marked, g.setvec, g.tmpset
    ensures patlen >= least ==> f.Valid() && f.SavedStart() && whole == Found(f.View(), p, patlen)
    ensures patlen < least ==> Searching(f, 2, text, p + 1, last, least, patlen, whole)
  {
    ScanLater(f.Auto(), f.View(), s, text, p, p, patlen0);
    patlen := ScanFrom(f, g, text, p, s, patlen0);
    if patlen < least {
      NextStart(f);
    }
  }

  /** pmatch: the leftmost-longest match at or after from. Each offset is judged rightly unless a wrong
    * transition was recorded in the scan that started there, whatever happened before that scan; which
    * offsets these are is a function of what the table held. */
  method PMatch(f: Fa, g: Globals, ghost r: Re, text: seq<nat>, from: nat, ghost hat: bool)
    returns (found: bool, patbeg: nat, patlen: int)
    requires Ready(f) && StartsWith(f.Auto(), f.View(), hat) && g.Ready()
    requires Compiled(f.re, r) && IsText(text) && from <= |text|
    modifies f`initstat, f`curstat, f`reset, f`overflows, f`wrongs, f`slip, f.gototab, f.posns, f.out
    modifies g`setcnt, g`marked, g.setvec, g.tmpset
    ensures Ready(f) && Called(old(f.View()), f.View())
    ensures found ==> from <= patbeg && 0 <= patlen <= |text| - patbeg
    ensures Returned(f.View(), found, patbeg, patlen) == PMatchMem(f.Auto(), old(f.View()), text, from)
    ensures var doubtful := PMatchDoubts(f.Auto(), old(f.View()), text, from);
      && PMatchRight(r, text, from, hat, Returned(f.View(), found, patbeg, patlen), doubtful)
      && |doubtful| <= f.wrongs - old(f.wrongs)
    ensures f.wrongs == old(f.wrongs) ==> Answers(r, text, from, hat, found, patbeg, patlen)
    ensures Small(f.Auto()) && Visited(f.Auto(), old(f.View())) ==>
              && Visited(f.Auto(), f.View()) && (f.overflows, f.wrongs) == old((f.overflows, f.wrongs))
              && Answers(r, text, from, hat, found, patbeg, patlen)
  {
    PMatchKeeps(f.Auto(), f.View(), text, from);
    PMatchIsRight(f.re, r, f.View(), text, from, hat);
    FirstSlotLive(f.Auto(), f.View());
    ghost var was := f.View();
    var s := FirstState(f, g);
    found, patbeg, patlen := TryOffsets(f, g, text, from, s, PMatchMem(f.Auto(), was, text, from));
    ghost var x, doubtful := Returned(f.View(), found, patbeg, patlen), PMatchDoubts(f.Auto(), was, text, from);
    if |doubtful| == 0 { Undoubted(r, text, from, hat, x, doubtful); }
    if Small(f.Auto()) && Visited(f.Auto(), was) { PMatchStaysSmall(f.Auto(), was, text, from); }
  }

  // nematch's outer loop, entered with state s0.
  method TryNonempty(f: Fa, g: Globals, text: seq<nat>, s0: nat, ghost whole: Found)
    returns (found: bool, patbeg: nat, patlen: int)
    requires g.Ready() && IsText(text) && Searching(f, s0, text, 0, |text| - 1, 1, -1, whole)
    modifies f`initstat, f`curstat, f`reset, f`overflows, f`wrongs, f`slip, f.gototab, f.posns, f.out
    modifies g`setcnt, g`marked, g.setvec, g.tmpset
    ensures f.Valid() && f.SavedStart() && Returned(f.View(), found, patbeg, patlen) == whole
  {
    var s := s0;
    patbeg := 0;
    patlen := -1;
    var p := 0;
    while p < |text|
      invariant 0 <= p <= |text| && Searching(f, s, text, p, |text| - 1, 1, patlen, whole)
    {
      patlen := TryAt(f, g, text, p, s, patlen, |text| - 1, 1, whole);
      if patlen > 0 {
        patbeg := p;
        return true, patbeg, patlen;
      }
      s := 2;
      p := p + 1;
    }
    return false, patbeg, patlen;
  }

  /** nematch: the leftmost offset at which a nonempty match exists, and its greatest length, with the same
    * provisos. */
  method NEMatch(f: Fa, g: Globals, ghost r: Re, text: seq<nat>, ghost hat: bool)
    returns (found: bool, patbeg: nat, patlen: int)
    requires Ready(f) && StartsWith(f.Auto(), f.View(), hat) && g.Ready() && Compiled(f.re, r) && IsText(text)
    modifies f`initstat, f`curstat, f`reset, f`overflows, f`wrongs, f`slip, f.gototab, f.posns, f.out
    modifies g`setcnt, g`marked, g.setvec, g.tmpset
    ensures Ready(f) && Called(old(f.View()), f.View())
    ensures found ==> 0 < patlen <= |text| - patbeg
    ensures Returned(f.View(), found, patbeg, patlen) == NEMatchMem(f.Auto(), old(f.View()), text)
    ensures var doubtful := NEMatchDoubts(f.Auto(), old(f.View()), text);
      && NEMatchRight(r, text, hat, Returned(f.View(), found, patbeg, patlen), doubtful)
      && |doubtful| <= f.wrongs - old(f.wrongs)
    ensures f.wrongs == old(f.wrongs) ==> AnswersNonempty(r, text, hat, found, patbeg, patlen)
    ensures Small(f.Auto()) && Visited(f.Auto(), old(f.View())) ==>
              && Visited(f.Auto(), f.View()) && (f.overflows, f.wrongs) == old((f.overflows, f.wrongs))
              && AnswersNonempty(r, text, hat, found, patbeg, patlen)
  {
    NEMatchKeeps(f.Auto(), f.View(), text);
    NEMatchIsRight(f.re, r, f.View(), text, hat);
    FirstSlotLive(f.Auto(), f.View());
    ghost var was := f.View();
    var s := FirstState(f, g);
    found, patbeg, patlen := TryNonempty(f, g, text, s, NEMatchMem(f.Auto(), was, text));
    ghost var x, doubtful := Returned(f.View(), found, patbeg, patlen), NEMatchDoubts(f.Auto(), was, text);
    if |doubtful| == 0 { UndoubtedNonempty(r, text, hat, x, doubtful); }
    if Small(f.Auto()) && Visited(f.Auto(), was) { NEMatchStaysSmall(f.Auto(), was, text); }
  }

  /** match: whether some factor of the text, framed by its marker and terminator, is a word of r. */
  method Match(f: Fa, g: Globals, ghost r: Re, text: seq<nat>) returns (found: bool)
    requires ReadyUnanchored(f) && g.Ready() && Compiled(f.re, r) && IsText(text)
    modifies f`initstat, f`curstat, f`reset, f`overflows, f`wrongs, f`slip, f.gototab, f.posns, f.out
    modifies g`setcnt, g`marked, g.setvec, g.tmpset
    ensures ReadyUnanchored(f) && Called(old(f.View()), f.View())
    ensures Answer(f.View(), found) == WholeMatchMem(f.Auto(), old(f.View()), text)
    ensures f.wrongs == old(f.wrongs) ==> (found <==> HasFactor(r, Framed(text)))
    ensures Small(f.Auto()) && Visited(f.Auto(), old(f.View())) ==>
              && Visited(f.Auto(), f.View()) && (f.overflows, f.wrongs) == old((f.overflows, f.wrongs))
              && (found <==> HasFactor(r, Framed(text)))
  {
    MatchKeeps(f.Auto(), f.View(), text);
    MatchIsRight(f.re, r, f.View(), text);
    BegunUnanchored(f.Auto(), f.View());
    ghost var was := f.View();
    var s := FirstState(f, g);
    found := ReadThrough(f, g, text, s);
    if Small(f.Auto()) && Visited(f.Auto(), was) { MatchStaysSmall(f.Auto(), was, text); }
  }

  // match's loop, entered with state s0.
  method ReadThrough(f: Fa, g: Globals, text: seq<nat>, s0: nat) returns (found: bool)
    requires f.Valid() && g.Ready() && 1 <= s0 <= f.curstat && IsText(text)
    modifies f`curstat, f`reset, f`overflows, f`wrongs, f`slip, f.gototab, f.posns, f.out
    modifies g`setcnt, g`marked, g.setvec, g.tmpset
    ensures f.Valid() && Answer(f.View(), found) == MatchMem(f.Auto(), old(f.View()), s0, text, 0)
  {
    ghost var whole := MatchMem(f.Auto(), f.View(), s0, text, 0);
    var s := s0;
    assert f.StateOk(s);
    if f.out[s] {
      return true;
    }
    var p := 0;
    while p <= |text|
      invariant 0 <= p <= |text| + 1 && f.Valid() && 1 <= s <= f.curstat && !f.out[s]
      invariant whole == MatchMem(f.Auto(), f.View(), s, text, p)
    {
      assert f.StateOk(s);
      AtIsSymbol(text, p);
      s := Advance(f, g, s, At(text, p));
      assert f.StateOk(s);
      p := p + 1;
      if f.out[s] {
        return true;
      }
    }
    assert f.StateOk(s);
    return false;
  }

  /** mkdfa: compile the parse tree p and set up the automaton, anchored or not. */
  method MkDfa(p: Node, anchor: bool, g: Globals) returns (f: Fa)
    requires p.Shape() && NoFinal(p.tree) && Leaves(p.tree) + 2 < MAXLIN && g.Ready()
    modifies p.Repr, g, g.setvec, g.tmpset
    ensures fresh(f) && fresh(f.gototab) && fresh(f.posns) && fresh(f.out)
    ensures f.anchor == anchor && Compiled(f.re, p.tree)
    ensures f.Right() && !f.reset && f.overflows == f.wrongs == 0 && f.curstat == HatSlot(f.re)
    ensures if anchor then Ready(f) && StartsWith(f.Auto(), f.View(), true) else ReadyUnanchored(f)
    ensures Visited(f.Auto(), f.View())
  {
    var re := BuildRows(p, g);
    CompiledWellBuilt(re[..], p.tree);
    f := SetUp(re[..], anchor, g);
  }

  // More than one position follows the ALL leaf: itself and what r starts with.
  lemma CompiledWellBuilt(re: seq<Row>, r: Re)
    requires Compiled(re, r) && Leaves(r) + 2 < MAXLIN && RowsStored(re)
    ensures WellBuilt(re)
  {
    SomethingFirst(r, 1);
    var i :| i in First(r, 1);
    assert 0 in Elems(re[0].follow) && i in Elems(re[0].follow);
    var j :| 0 <= j < |re[0].follow| && re[0].follow[j] == 0;
    var k :| 0 <= k < |re[0].follow| && re[0].follow[k] == i;
    assert j != k;
  }

  lemma {:induction false} SomethingFirst(r: Re, off: nat)
    ensures First(r, off) != {}
  {
    match r
    case Unit(_) =>
    case Star(b) => SomethingFirst(b, off);
    case Plus(b) => SomethingFirst(b, off);
    case Quest(b) => SomethingFirst(b, off);
    case Cat(a, _) => SomethingFirst(a, off);
    case Or(a, _) => SomethingFirst(a, off);
  }

  // The automaton for rows that have been built.
  method SetUp(re: Automaton, anchor: bool, g: Globals) returns (f: Fa)
    requires g.Ready()
    modifies g, g.setvec, g.tmpset
    ensures fresh(f) && fresh(f.gototab) && fresh(f.posns) && fresh(f.out)
    ensures f.anchor == anchor && f.re == re
    ensures f.Right() && !f.reset && f.overflows == f.wrongs == 0 && f.curstat == HatSlot(f.re)
    ensures if anchor then Ready(f) && StartsWith(f.Auto(), f.View(), true) else ReadyUnanchored(f)
    ensures Visited(f.Auto(), f.View())
  {
    f := new Fa(re, anchor);
    f.initstat := f.MakeInit(g);
    MachineFacts(re, anchor);
    StartListsDiffer(f.Auto(), f.posns[0]);
    StartListsVisited(f.Auto(), f.View());
  }
}
