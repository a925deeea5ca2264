/** gsub (run.c), turn by turn, against the substitution of its matches. */
module AwkGsub {
  import opened AwkRegex
  import opened AwkPattern
  import opened AwkTree
  import opened AwkSubset
  import opened AwkDfa
  import opened AwkMatchSpec
  import opened AwkMemory
  import opened AwkJudge
  import opened AwkSmall
  import opened AwkMatch
  import opened AwkSubstitute

  // ------------------------------------------------------------------ the copying loops

  // The replacement for m has been put behind buf, which may have been overrun.
  predicate Copied(buf: seq<nat>, repl: seq<nat>, m: seq<nat>, pb: seq<nat>) {
    if Overruns(repl, m, |buf|) then |pb| > ROOM else pb == Held(buf + Expand(repl, m))
  }

  /** gsub's copying loop: append repl with the match m filled in, as far as the buffer allows. */
  method Append(buf: seq<nat>, repl: seq<nat>, m: seq<nat>) returns (pb: seq<nat>)
    requires |buf| <= ROOM
    ensures Copied(buf, repl, m, pb)
  {
    pb := buf;
    var sptr := 0;
    assert repl[0..] == repl;
    while sptr < |repl| && |pb| < RECSIZE - 1
      invariant 0 <= sptr <= |repl|
      invariant pb + Expand(repl[sptr..], m) == buf + Expand(repl, m)
      invariant if |pb| > ROOM then Overruns(repl, m, |buf|)
                else Overruns(repl, m, |buf|) == Overruns(repl[sptr..], m, |pb|)
      decreases |repl| - sptr
    {
      ghost var rest := repl[sptr..];
      if repl[sptr] == BACKSLASH && sptr + 1 < |repl| && repl[sptr + 1] == AMPERSAND {
        assert rest[2..] == repl[sptr + 2..];
        sptr := sptr + 1;
        pb := pb + [repl[sptr]];
        sptr := sptr + 1;
      } else if repl[sptr] == AMPERSAND {
        assert rest[1..] == repl[sptr + 1..];
        sptr := sptr + 1;
        pb := pb + m;
      } else {
        assert rest[1..] == repl[sptr + 1..];
        pb := pb + [repl[sptr]];
        sptr := sptr + 1;
      }
    }
    if |pb| <= ROOM && Overruns(repl[sptr..], m, |pb|) { OverrunsBeyond(repl[sptr..], m, |pb|); }
  }

  // gsub's loop that copies the text before a match.
  method CopyText(buf: seq<nat>, text: seq<nat>, t: nat, stop: nat) returns (pb: seq<nat>)
    requires t <= stop <= |text| && |buf| <= ROOM
    ensures pb == Held(buf + text[t..stop])
  {
    pb := buf;
    var sptr := t;
    while sptr < stop && |pb| < RECSIZE - 1
      invariant t <= sptr <= stop && pb == buf + text[t..sptr] && |pb| <= ROOM
    {
      pb := pb + [text[sptr]];
      sptr := sptr + 1;
    }
    HeldPart(buf, text, t, sptr, stop);
  }

  lemma HeldPart(buf: seq<nat>, text: seq<nat>, t: nat, q: nat, stop: nat)
    requires t <= q <= stop <= |text| && |buf| + (q - t) <= ROOM && (q == stop || |buf| + (q - t) == ROOM)
    ensures Held(buf + text[t..stop]) == buf + text[t..q]
  {
    assert text[t..stop] == text[t..q] + text[q..stop];
    assert buf + text[t..stop] == (buf + text[t..q]) + text[q..stop];
  }

  // ------------------------------------------------------------------ the program's turns

  /** What one turn of gsub's loop leads to: more text to look at, the end of the text, or a full buffer. */
  datatype Turn = More(pb: seq<nat>, t: nat, after: bool, num: nat) | End(pb: seq<nat>, num: nat) | Full

  // What a turn is to lead to.
  predicate TurnFor(repl: seq<nat>, text: seq<nat>, t: nat, b: nat, n: nat, buf: seq<nat>, num: nat, g: Move, x: Turn)
    requires t <= b && b + n <= |text|
  {
    match g
    case Go(piece, k, next, afterNext) =>
      x == if Passable(repl, text, t, b, n, |buf|, g) then More(Held(buf + piece), next, afterNext, num + k) else Full
    case Stop(s) =>
      x.End? && x.num == num + 1 &&
      if Overruns(repl, text[b..b + n], |buf| + (b - t)) then |x.pb| > ROOM else x.pb == Held(buf + s.out)
  }

  lemma {:induction false} NothingOverruns(repl: seq<nat>, k: nat)
    ensures !Overruns(repl, [], k)
  {
    if repl != [] {
      NothingOverruns(repl[1..], k);
      NothingOverruns(repl[1..], k + 1);
      if |repl| > 1 { NothingOverruns(repl[2..], k + 1); }
    }
  }

  // An empty match before the end of the text: one character is copied.
  method TurnEmpty(repl: seq<nat>, text: seq<nat>, t: nat, after: bool, buf: seq<nat>, num: nat) returns (x: Turn)
    requires t < |text| && |buf| <= ROOM
    ensures TurnFor(repl, text, t, t, 0, buf, num, CutAt(repl, text, t, after, t, 0), x)
  {
    var pb, n := buf, num;
    assert text[t..t] == [];
    if !after {
      n := n + 1;
      NothingOverruns(repl, |buf|);
      pb := Append(pb, repl, []);
      assert [] + Expand(repl, []) == Expand(repl, []);
      assert buf + (Expand(repl, []) + [text[t]]) == (buf + Expand(repl, [])) + [text[t]];
    }
    pb := pb + [text[t]];
    x := if |pb| >= RECSIZE then Full else More(pb, t + 1, false, n);
  }

  // The text before the match and its replacement have been copied.
  lemma PieceCopied(repl: seq<nat>, text: seq<nat>, t: nat, b: nat, n: nat, buf: seq<nat>, copied: seq<nat>,
                    pb: seq<nat>)
    requires t <= b && b + n <= |text| && |buf| <= ROOM
    requires copied == Held(buf + text[t..b]) && Copied(copied, repl, text[b..b + n], pb)
    ensures if Overruns(repl, text[b..b + n], |buf| + (b - t)) then |pb| > ROOM
            else pb == Held(buf + (text[t..b] + Expand(repl, text[b..b + n])))
  {
    var m := text[b..b + n];
    HeldOn(buf + text[t..b], Expand(repl, m));
    assert buf + text[t..b] + Expand(repl, m) == buf + (text[t..b] + Expand(repl, m));
    if Overruns(repl, m, |copied|) { OverrunsBeyond(repl, m, |copied|); }
    if Overruns(repl, m, |buf| + (b - t)) { OverrunsBeyond(repl, m, |buf| + (b - t)); }
  }

  // A nonempty match, or an empty one at the end of the text.
  method TurnMatch(repl: seq<nat>, text: seq<nat>, t: nat, after: bool, b: nat, n: nat, buf: seq<nat>, num: nat)
    returns (x: Turn)
    requires t <= b && b + n <= |text| && |buf| <= ROOM && (n > 0 || b == |text|)
    ensures TurnFor(repl, text, t, b, n, buf, num, CutAt(repl, text, t, after, b, n), x)
  {
    var copied := CopyText(buf, text, t, b);
    var pb := Append(copied, repl, text[b..b + n]);
    PieceCopied(repl, text, t, b, n, buf, copied, pb);
    if b + n == |text| {
      x := End(pb, num + 1);
    } else if |pb| >= RECSIZE {
      x := Full;
    } else {
      x := More(pb, b + n, true, num + 1);
    }
  }

  // With the first part of the text done, the buffer is ready for the rest.
  ghost predicate OnCourse(task: Task, past: seq<bool>, t: nat, after: bool, pb: seq<nat>, full: seq<nat>, num: nat) {
    Underway(task, past, t, after, full, num) && pb == Held(full)
  }

  // A turn is in step with the substitution.
  ghost predicate InStep(task: Task, hats: seq<bool>, full: seq<nat>, x: Turn) {
    match x
    case More(pb, t, after, num) => OnCourse(task, hats, t, after, pb, full, num)
    case End(pb, num) => Delivered(task, hats, if |pb| >= RECSIZE then TooBig else Done(pb, num))
    case Full => Delivered(task, hats, TooBig)
  }

  // What has been put out after a turn.
  function PutOut(full: seq<nat>, g: Move): seq<nat> { full + if g.Go? then g.piece else g.s.out }

  // The move that a match leads to.
  predicate Leads(task: Task, repl: seq<nat>, text: seq<nat>, t: nat, after: bool, hat: bool, b: nat, n: nat, k: nat)
    requires t <= b && b + n <= |text|
  {
    var g := CutAt(repl, text, t, after, b, n);
    && task.size == |text| && task.cut(t, after, hat) == g
    && task.givesUp(t, after, hat, k) == !Passable(repl, text, t, b, n, k, g)
  }

  lemma TurnInStep(task: Task, repl: seq<nat>, text: seq<nat>, past: seq<bool>, t: nat, after: bool, pb: seq<nat>,
                   full: seq<nat>, num: nat, hat: bool, b: nat, n: nat, x: Turn)
    requires t <= b && b + n <= |text| && OnCourse(task, past, t, after, pb, full, num)
    requires Leads(task, repl, text, t, after, hat, b, n, |full|) && (num > 0 || !after)
    requires TurnFor(repl, text, t, b, n, pb, num, CutAt(repl, text, t, after, b, n), x)
    ensures InStep(task, past + [hat], PutOut(full, CutAt(repl, text, t, after, b, n)), x)
  {
    var g := CutAt(repl, text, t, after, b, n);
    SameFromHeld(repl, text, t, after, b, n, full);
    if g.Stop? {
      EndInStep(task, repl, text, past, t, after, pb, full, num, hat, b, n, x);
    } else if x.Full? {
      RefusedHere(task, past, t, after, full, num, hat);
    } else {
      HeldOn(full, g.piece);
      UnderwayNext(task, past, t, after, full, num, hat);
    }
  }

  lemma EndInStep(task: Task, repl: seq<nat>, text: seq<nat>, past: seq<bool>, t: nat, after: bool, pb: seq<nat>,
                  full: seq<nat>, num: nat, hat: bool, b: nat, n: nat, x: Turn)
    requires t <= b && b + n == |text| && OnCourse(task, past, t, after, pb, full, num)
    requires Leads(task, repl, text, t, after, hat, b, n, |full|)
    requires TurnFor(repl, text, t, b, n, pb, num, CutAt(repl, text, t, after, b, n), x)
    ensures x.End? && Delivered(task, past + [hat], if |x.pb| >= RECSIZE then TooBig else Done(x.pb, x.num))
  {
    SameFromHeld(repl, text, t, after, b, n, full);
    StopsHere(task, past, t, after, full, num, hat);
    HeldOn(full, text[t..b] + Expand(repl, text[b..b + n]));
  }

  // Whether a match can be passed depends only on what the buffer holds.
  lemma SameFromHeld(repl: seq<nat>, text: seq<nat>, t: nat, after: bool, b: nat, n: nat, full: seq<nat>)
    requires t <= b && b + n <= |text|
    ensures var g := CutAt(repl, text, t, after, b, n);
      Passable(repl, text, t, b, n, |full|, g) == Passable(repl, text, t, b, n, |Held(full)|, g)
    ensures Overruns(repl, text[b..b + n], |full| + (b - t)) ==
            Overruns(repl, text[b..b + n], |Held(full)| + (b - t))
  {
    var k, j := |full| + (b - t), |Held(full)| + (b - t);
    if Overruns(repl, text[b..b + n], k) { OverrunsBeyond(repl, text[b..b + n], k); }
    if Overruns(repl, text[b..b + n], j) { OverrunsBeyond(repl, text[b..b + n], j); }
  }

  /** One turn of gsub's loop keeps in step with the substitution. */
  method TakeTurn(ghost task: Task, repl: seq<nat>, text: seq<nat>, t: nat, after: bool, b: nat, n: nat,
                  buf: seq<nat>, num: nat, ghost past: seq<bool>, ghost hat: bool, ghost full: seq<nat>)
    returns (x: Turn)
    requires t <= b && b + n <= |text| && |buf| <= ROOM && (num > 0 || !after)
    ensures x.More? ==> t < x.t <= |text| && |x.pb| <= ROOM && x.num > 0
    ensures OnCourse(task, past, t, after, buf, full, num) && Leads(task, repl, text, t, after, hat, b, n, |full|) &&
            (n == 0 && b < |text| ==> b == t) ==>
              InStep(task, past + [hat], PutOut(full, CutAt(repl, text, t, after, b, n)), x)
  {
    if n == 0 && b < |text| {
      x := TurnEmpty(repl, text, t, after, buf, num);
    } else {
      x := TurnMatch(repl, text, t, after, b, n, buf, num);
    }
    if OnCourse(task, past, t, after, buf, full, num) && Leads(task, repl, text, t, after, hat, b, n, |full|) &&
       (n == 0 && b < |text| ==> b == t) {
      TurnInStep(task, repl, text, past, t, after, buf, full, num, hat, b, n, x);
    }
  }

  // The rest of the text behind the last match.
  lemma RestDelivered(find: Finder, repl: seq<nat>, text: seq<nat>, past: seq<bool>, t: nat, after: bool, pb: seq<nat>,
                      full: seq<nat>, num: nat, hat: bool, res: Outcome)
    requires t <= |text| && OnCourse(TaskOf(find, repl, text), past, t, after, pb, full, num)
    requires find(t, hat) == Nowhere
    requires num > 0 && res == if |pb + text[t..]| + 1 >= RECSIZE then TooBig else Done(pb + text[t..], num)
    ensures Delivered(TaskOf(find, repl, text), past + [hat], res)
  {
    StopsHere(TaskOf(find, repl, text), past, t, after, full, num, hat);
  }

  // ------------------------------------------------------------------ the state table meanwhile

  // What has become of the table since `was`, the searches having had these hats.
  ghost predicate Settled(a: Machine, was: Table, now: Table, hats: seq<bool>) {
    && now.wrongs >= was.wrongs && now.overflows >= was.overflows
    && (now.overflows == was.overflows ==> now.wrongs == was.wrongs && (!was.reset ==> !now.reset && Plain(hats)))
    && (Small(a) && Visited(a, was) ==> Visited(a, now) && now.overflows == was.overflows)
  }

  lemma SettledOn(a: Machine, was: Table, m: Table, now: Table, hats: seq<bool>)
    requires Settled(a, was, m, hats) && Called(m, now)
    requires Small(a) && Visited(a, m) ==> Visited(a, now) && now.overflows == m.overflows
    ensures Settled(a, was, now, hats + [m.reset])
  {
  }

  // Where the next call starts makes no difference to that.
  lemma SettledAnyway(a: Machine, was: Table, now: Table, hats: seq<bool>, initstat: nat)
    requires Settled(a, was.(initstat := 2), now, hats)
    ensures Settled(a, was, now.(initstat := initstat), hats)
  {
  }

  lemma MatchLeads(r: Re, repl: seq<nat>, text: seq<nat>, t: nat, after: bool, hat: bool, b: nat, n: nat, k: nat)
    requires t <= b && b + n <= |text|
    ensures LeftmostLongest(r, text, t, hat, b, n) ==>
              && Leads(TaskOf(Find(r, text), repl, text), repl, text, t, after, hat, b, n, k)
              && (n == 0 && b < |text| ==> b == t)
  {
    FoundThere(r, text, t, hat, b, n);
  }

  // gsub's loop, entered after the first match has been found.
  method Substitute(f: Fa, g: Globals, ghost r: Re, repl: seq<nat>, text: seq<nat>, b: nat, n: nat)
    returns (res: Outcome, ghost hats: seq<bool>)
    requires Ready(f) && f.initstat == 2 && g.Ready() && Compiled(f.re, r) && IsText(text) && b + n <= |text|
    modifies f`initstat, f`curstat, f`reset, f`overflows, f`wrongs, f`slip, f.gototab, f.posns, f.out
    modifies g`setcnt, g`marked, g.setvec, g.tmpset
    ensures Ready(f) && Settled(f.Auto(), old(f.View()), f.View(), hats) && hats != [] && hats[0]
    ensures LeftmostLongest(r, text, 0, true, b, n) && f.wrongs == old(f.wrongs) ==>
              Delivered(TaskOf(Find(r, text), repl, text), hats, res)
  {
    var found: bool, patbeg: nat, patlen: nat := true, b, n;
    var t, after, num, pb := 0, false, 0, [];
    ghost var hat, past, full := true, [], [];
    ghost var task := TaskOf(Find(r, text), repl, text);
    ghost var right, was := LeftmostLongest(r, text, 0, true, b, n), f.View();
    AtTheStart(task);
    while found
      invariant t <= |text| && |pb| <= ROOM && (num > 0 || (found && !after))
      invariant Ready(f) && f.initstat == 2 && (past + [hat])[0] && Settled(f.Auto(), was, f.View(), past + [hat])
      invariant found ==> t <= patbeg && patbeg + patlen <= |text|
      invariant right && f.wrongs == was.wrongs ==>
        OnCourse(task, past, t, after, pb, full, num) && Answers(r, text, t, hat, found, patbeg, patlen)
      decreases |text| - t, found
    {
      MatchLeads(r, repl, text, t, after, hat, patbeg, patlen, |full|);
      var x := TakeTurn(task, repl, text, t, after, patbeg, patlen, pb, num, past, hat, full);
      full := PutOut(full, CutAt(repl, text, t, after, patbeg, patlen));
      match x {
        case Full => return TooBig, past + [hat];
        case End(pb', num') =>
          res := if |pb'| >= RECSIZE then TooBig else Done(pb', num');
          return res, past + [hat];
        case More(pb', t', after', num') =>
          pb, t, after, num := pb', t', after', num';
          past, hat := past + [hat], f.reset;
          found, patbeg, patlen := SearchOn(f, g, r, text, t, was, past);
      }
    }
    res := if |pb + text[t..]| + 1 >= RECSIZE then TooBig else Done(pb + text[t..], num);
    hats := past + [hat];
    FoundThere(r, text, t, hat, 0, 0);
    if right && f.wrongs == was.wrongs {
      RestDelivered(Find(r, text), repl, text, past, t, after, pb, full, num, hat, res);
    }
  }

  // The search for the next match.
  method SearchOn(f: Fa, g: Globals, ghost r: Re, text: seq<nat>, t: nat, ghost was: Table, ghost past: seq<bool>)
    returns (found: bool, patbeg: nat, patlen: nat)
    requires Ready(f) && f.initstat == 2 && g.Ready() && Compiled(f.re, r) && IsText(text) && t <= |text|
    requires Settled(f.Auto(), was, f.View(), past)
    modifies f`initstat, f`curstat, f`reset, f`overflows, f`wrongs, f`slip, f.gototab, f.posns, f.out
    modifies g`setcnt, g`marked, g.setvec, g.tmpset
    ensures Ready(f) && f.initstat == 2 && Settled(f.Auto(), was, f.View(), past + [old(f.reset)])
    ensures f.wrongs >= old(f.wrongs) && (found ==> t <= patbeg && patbeg + patlen <= |text|)
    ensures f.wrongs == old(f.wrongs) ==> Answers(r, text, t, old(f.reset), found, patbeg, patlen)
  {
    ghost var m := f.View();
    var len;
    found, patbeg, len := PMatch(f, g, r, text, t, f.reset);
    patlen := if found then len else 0;
    SettledOn(f.Auto(), was, m, f.View(), past);
  }

  // The part of gsub that searches on from state 2, so that `^` cannot match again.
  method WithoutHat(f: Fa, g: Globals, ghost r: Re, repl: seq<nat>, text: seq<nat>, b: nat, n: nat)
    returns (res: Outcome, ghost hats: seq<bool>)
    requires Ready(f) && g.Ready() && Compiled(f.re, r) && IsText(text) && b + n <= |text|
    modifies f`initstat, f`curstat, f`reset, f`overflows, f`wrongs, f`slip, f.gototab, f.posns, f.out
    modifies g`setcnt, g`marked, g.setvec, g.tmpset
    ensures Ready(f) && f.initstat == old(f.initstat) && hats != [] && hats[0]
    ensures Settled(f.Auto(), old(f.View()), f.View(), hats)
    ensures LeftmostLongest(r, text, 0, true, b, n) && f.wrongs == old(f.wrongs) ==>
              Delivered(TaskOf(Find(r, text), repl, text), hats, res)
  {
    ghost var was := f.View();
    var tempstat := f.initstat;
    f.initstat := 2;
    res, hats := Substitute(f, g, r, repl, text, b, n);
    SettledAnyway(f.Auto(), was, f.View(), hats, tempstat);
    f.initstat := tempstat;
  }

  /** gsub on a whole text: without a wrong transition, what is delivered is the substitution in which `^` may match
    * again where hats says so. It does so only after an overflow of the state table, and it makes no difference
    * to a pattern without `^`; an automaton small enough for its table delivers what is wanted. */
  method Gsub(f: Fa, g: Globals, ghost r: Re, repl: seq<nat>, text: seq<nat>)
    returns (res: Outcome, ghost hats: seq<bool>)
    requires Ready(f) && StartsWith(f.Auto(), f.View(), true) && g.Ready() && Compiled(f.re, r) && IsText(text)
    modifies f`initstat, f`curstat, f`reset, f`overflows, f`wrongs, f`slip, f.gototab, f.posns, f.out
    modifies g`setcnt, g`marked, g.setvec, g.tmpset
    ensures Ready(f) && hats != [] && hats[0]
    ensures f.wrongs == old(f.wrongs) ==> Delivered(TaskOf(Find(r, text), repl, text), hats, res)
    ensures f.wrongs == old(f.wrongs) && NoHat(r) ==> Delivered(TaskOf(Find(r, text), repl, text), [true], res)
    ensures f.overflows == old(f.overflows) ==>
              Delivered(TaskOf(Find(r, text), repl, text), [true], res) && !f.reset && f.initstat == old(f.initstat)
    ensures Small(f.Auto()) && Visited(f.Auto(), old(f.View())) ==>
              && Visited(f.Auto(), f.View()) && f.overflows == old(f.overflows)
              && Delivered(TaskOf(Find(r, text), repl, text), [true], res)
  {
    res, hats := GsubTurns(f, g, r, repl, text);
    HatsMatterLittle(r, repl, text, hats, res);
  }

  method GsubTurns(f: Fa, g: Globals, ghost r: Re, repl: seq<nat>, text: seq<nat>)
    returns (res: Outcome, ghost hats: seq<bool>)
    requires Ready(f) && StartsWith(f.Auto(), f.View(), true) && g.Ready() && Compiled(f.re, r) && IsText(text)
    modifies f`initstat, f`curstat, f`reset, f`overflows, f`wrongs, f`slip, f.gototab, f.posns, f.out
    modifies g`setcnt, g`marked, g.setvec, g.tmpset
    ensures Ready(f) && hats != [] && hats[0]
    ensures f.wrongs == old(f.wrongs) ==> Delivered(TaskOf(Find(r, text), repl, text), hats, res)
    ensures f.overflows == old(f.overflows) ==>
              f.wrongs == old(f.wrongs) && !f.reset && f.initstat == old(f.initstat) && Plain(hats)
    ensures Small(f.Auto()) && Visited(f.Auto(), old(f.View())) ==>
              Visited(f.Auto(), f.View()) && f.overflows == old(f.overflows)
  {
    var found, patbeg, patlen := PMatch(f, g, r, text, 0, true);
    FoundThere(r, text, 0, true, patbeg, if found then patlen else 0);
    if !found {
      res, hats := Done(text, 0), [true];
    } else {
      res, hats := WithoutHat(f, g, r, repl, text, patbeg, patlen);
    }
  }
}
