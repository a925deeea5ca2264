/** Global substitution (run.c: gsub) as a recursive function of the matches found, and what gsub's buffer lets
  * through of it. */
module AwkSubstitute {
  import opened AwkRegex
  import opened AwkMatchSpec

  const RECSIZE: nat := 3 * 1024
  const BACKSLASH: nat := 92
  const AMPERSAND: nat := 38

  /** The replacement text for a match m: `&` stands for m and `\&` for an ampersand. */
  function Expand(repl: seq<nat>, m: seq<nat>): seq<nat> {
    if repl == [] then []
    else if repl[0] == BACKSLASH && |repl| > 1 && repl[1] == AMPERSAND then [AMPERSAND] + Expand(repl[2..], m)
    else if repl[0] == AMPERSAND then m + Expand(repl[1..], m)
    else [repl[0]] + Expand(repl[1..], m)
  }

  /** What the replacement text says, in the character codes of `&` (38) and of the backslash (92): ordinary
    * characters stand for themselves, */
  lemma {:induction false} OrdinaryStands(a: seq<nat>, rest: seq<nat>, m: seq<nat>)
    requires 38 !in a && 92 !in a
    ensures Expand(a + rest, m) == a + Expand(rest, m)
  {
    if a == [] {
      assert a + rest == rest;
    } else {
      assert a == [a[0]] + a[1..] && (a + rest)[1..] == a[1..] + rest;
      OrdinaryStands(a[1..], rest, m);
    }
  }

  /** an ampersand for the match, and with a backslash before it for itself; any other backslash stands for
    * itself. */
  lemma MarksStand(x: nat, rest: seq<nat>, m: seq<nat>)
    ensures Expand([38] + rest, m) == m + Expand(rest, m)
    ensures Expand([92, 38] + rest, m) == [38] + Expand(rest, m)
    ensures x != 38 ==> Expand([92, x] + rest, m) == [92] + Expand([x] + rest, m)
    ensures Expand([92], m) == [92] && Expand([], m) == []
  {
    assert ([38] + rest)[1..] == rest && ([92, 38] + rest)[2..] == rest && ([92, x] + rest)[1..] == [x] + rest;
    var one: seq<nat> := [92];
    assert one[1..] == [];
  }

  /** A finished substitution: the new text, the number of replacements, and whether the last match
    * reached the end of the text. */
  datatype Substitution = Substitution(out: seq<nat>, count: nat, atEnd: bool) {
    function Prepend(s: seq<nat>, n: nat): Substitution { Substitution(s + out, n + count, atEnd) }
  }

  /** One move of a substitution: it ends with s, or puts out a piece of text, with k replacements in it,
    * and goes on at `next`. `after` says that a nonempty match ends where the move begins. */
  datatype Move = Stop(s: Substitution) | Go(piece: seq<nat>, k: nat, next: nat, after: bool)

  /** Where the next match is: at b with length n. */
  datatype Place = Nowhere | There(b: nat, n: nat)

  /** A search, from an offset on, at which `^` may match or not. */
  type Finder = (nat, bool) -> Place

  /** The search for the leftmost-longest match of r. */
  ghost function Find(r: Re, text: seq<nat>): Finder {
    (from: nat, hat: bool) =>
      if from > |text| || NoMatch(r, text, from, hat) then Nowhere
      else var (b, n) := First(r, text, from, hat); There(b, n)
  }

  /** The move at `from`. An empty match there is not replaced when a nonempty one has just ended. `^` can
    * match only while hat is on, that is, at the first offset only. */
  function Cut(find: Finder, repl: seq<nat>, text: seq<nat>, from: nat, after: bool, hat: bool): (g: Move)
    requires from <= |text|
    ensures g.Go? ==> from < g.next <= |text|
  {
    match find(from, hat)
    case There(b, n) =>
      if from <= b && b + n <= |text| then CutAt(repl, text, from, after, b, n)
      else Stop(Substitution(text[from..], 0, false))
    case Nowhere => Stop(Substitution(text[from..], 0, false))
  }

  // The move when the match is the one at b of length n.
  function CutAt(repl: seq<nat>, text: seq<nat>, from: nat, after: bool, b: nat, n: nat): (g: Move)
    requires from <= b && b + n <= |text|
    ensures g.Go? ==> from < g.next <= |text|
  {
    if b + n == |text| then Stop(Substitution(text[from..b] + Expand(repl, text[b..b + n]), 1, true))
    else if n > 0 then Go(text[from..b] + Expand(repl, text[b..b + n]), 1, b + n, true)
    else if after && b == from then Go([text[b]], 0, b + 1, false)
    else Go(text[from..b] + Expand(repl, []) + [text[b]], 1, b + 1, false)
  }

  /** Substituting in a text: the move at every offset, and whether gsub gives up there. */
  datatype Task = Task(cut: (nat, bool, bool) -> Move, givesUp: (nat, bool, bool, nat) -> bool, size: nat)

  function TaskOf(find: Finder, repl: seq<nat>, text: seq<nat>): Task {
    Task((from: nat, after: bool, hat: bool) =>
           if from > |text| then Stop(NOTHING) else Cut(find, repl, text, from, after, hat),
         (from: nat, after: bool, hat: bool, k: nat) =>
           from <= |text| && GivesUp(find, repl, text, from, after, hat, k),
         |text|)
  }

  const NOTHING: Substitution := Substitution([], 0, false)

  // Whether search number i may match `^`.
  predicate HatAt(hats: seq<bool>, i: nat) { i < |hats| && hats[i] }

  /** Replace the non-overlapping leftmost-longest matches in the text from `from` on, beginning with search number
    * i. In each search `^` can match at the offset where it begins only if its entry in hats says so. */
  function Replaced(task: Task, from: nat, after: bool, hats: seq<bool>, i: nat): Substitution
    decreases task.size - from
  {
    match task.cut(from, after, HatAt(hats, i))
    case Stop(s) => s
    case Go(piece, k, next, afterNext) =>
      if from < next <= task.size then Replaced(task, next, afterNext, hats, i + 1).Prepend(piece, k) else NOTHING
  }

  /** gsub gives up the substitution of the text from `from` on, k characters having been put out already: a match
    * overruns the buffer, the character after an empty match finds it full, or the text after the last match does. */
  predicate Refused(task: Task, from: nat, after: bool, hats: seq<bool>, i: nat, k: nat)
    decreases task.size - from
  {
    task.givesUp(from, after, HatAt(hats, i), k) ||
    match task.cut(from, after, HatAt(hats, i))
    case Stop(_) => false
    case Go(piece, _, next, afterNext) =>
      from < next <= task.size && Refused(task, next, afterNext, hats, i + 1, k + |piece|)
  }

  /** What gsub is to do: `^` matches at the beginning of the text only. */
  ghost function Wanted(r: Re, repl: seq<nat>, text: seq<nat>): Substitution {
    Replaced(TaskOf(Find(r, text), repl, text), 0, false, [true], 0)
  }

  /** The leftmost-longest match, when there is a match. */
  ghost function First(r: Re, text: seq<nat>, from: nat, hat: bool): (p: (nat, nat))
    requires from <= |text| && !NoMatch(r, text, from, hat)
    ensures LeftmostLongest(r, text, from, hat, p.0, p.1)
    ensures from <= p.0 && p.0 + p.1 <= |text|
  {
    var j :| from <= j <= |text| && MatchesFrom(r, text, from, hat, j);
    FirstExists(r, text, from, hat, j);
    var b, n :| LeftmostLongest(r, text, from, hat, b, n);
    (b, n)
  }

  lemma {:induction false} LongestExists(r: Re, text: seq<nat>, i: nat, n: nat, hat: bool)
    requires MatchAt(r, text, i, n, hat)
    ensures exists m :: LongestAt(r, text, i, m, hat)
    decreases |text| - n
  {
    if m: nat :| n < m <= |text| && MatchAt(r, text, i, m, hat) {
      LongestExists(r, text, i, m, hat);
    } else {
      assert LongestAt(r, text, i, n, hat);
    }
  }

  lemma {:induction false} FirstExists(r: Re, text: seq<nat>, from: nat, hat: bool, j: nat)
    requires from <= j <= |text| && MatchesFrom(r, text, from, hat, j)
    ensures exists b, n :: LeftmostLongest(r, text, from, hat, b, n)
    decreases j
  {
    if i: nat :| from <= i < j && MatchesFrom(r, text, from, hat, i) {
      FirstExists(r, text, from, hat, i);
    } else {
      var n :| 0 <= n <= |text| && MatchAt(r, text, j, n, hat && j == from);
      LongestExists(r, text, j, n, hat && j == from);
      var m :| LongestAt(r, text, j, m, hat && j == from);
      assert LeftmostLongest(r, text, from, hat, j, m);
    }
  }

  lemma FirstUnique(r: Re, text: seq<nat>, from: nat, hat: bool, b: nat, n: nat)
    requires from <= |text| && LeftmostLongest(r, text, from, hat, b, n)
    ensures !NoMatch(r, text, from, hat) && First(r, text, from, hat) == (b, n)
  {
    assert MatchesAt(r, text, b, hat && b == from);
    assert MatchesFrom(r, text, from, hat, b);
    var (c, m) := First(r, text, from, hat);
    assert MatchesAt(r, text, c, hat && c == from);
    assert MatchesFrom(r, text, from, hat, c);
  }

  lemma FoundThere(r: Re, text: seq<nat>, from: nat, hat: bool, b: nat, n: nat)
    requires from <= |text|
    ensures LeftmostLongest(r, text, from, hat, b, n) ==>
              && Find(r, text)(from, hat) == There(b, n) && from <= b && b + n <= |text|
              && (n == 0 && b < |text| ==> b == from)
    ensures NoMatch(r, text, from, hat) <==> Find(r, text)(from, hat) == Nowhere
  {
    if LeftmostLongest(r, text, from, hat, b, n) {
      FirstUnique(r, text, from, hat, b, n);
      if n == 0 && b < |text| { EmptyMatchIsFirst(r, text, from, hat, b); }
    }
  }

  // An expression that matches the empty word matches it at every offset.
  lemma EmptyMatchesEverywhere(r: Re, text: seq<nat>, from: nat, hat: bool)
    requires from <= |text| && In([], r)
    ensures MatchesFrom(r, text, from, hat, from)
  {
    assert text[from..from + 0] == [];
    assert MatchAt(r, text, from, 0, hat && from == from);
  }

  /** An empty match before the end of the text can only be at the very first offset tried. */
  lemma EmptyMatchIsFirst(r: Re, text: seq<nat>, from: nat, hat: bool, b: nat)
    requires from <= |text| && LeftmostLongest(r, text, from, hat, b, 0) && b < |text|
    ensures b == from
  {
    assert text[b..b + 0] == [];
    if In([], r) { EmptyMatchesEverywhere(r, text, from, hat); }
  }

  // ------------------------------------------------------------------ the buffer

  datatype Outcome = Done(out: seq<nat>, count: nat) | TooBig

  /** All but the last place of gsub's buffer. */
  const ROOM: nat := RECSIZE - 1

  /** What the buffer has of the text `full`. */
  function Held(full: seq<nat>): seq<nat> { if |full| <= ROOM then full else full[..ROOM] }

  lemma HeldOn(full: seq<nat>, piece: seq<nat>)
    ensures Held(Held(full) + piece) == Held(full + piece)
  {
  }

  /** A match that `&` stands for is copied whole even where the buffer ends: this happens when the replacement
    * is put out from place k on. */
  function Overruns(repl: seq<nat>, m: seq<nat>, k: nat): bool {
    if repl == [] then false
    else if repl[0] == BACKSLASH && |repl| > 1 && repl[1] == AMPERSAND then Overruns(repl[2..], m, k + 1)
    else if repl[0] == AMPERSAND then k < ROOM < k + |m| || Overruns(repl[1..], m, k + |m|)
    else Overruns(repl[1..], m, k + 1)
  }

  // There is then more than the buffer holds.
  lemma {:induction false} OverrunsBeyond(repl: seq<nat>, m: seq<nat>, k: nat)
    requires Overruns(repl, m, k)
    ensures k < ROOM < k + |Expand(repl, m)|
  {
    if repl[0] == BACKSLASH && |repl| > 1 && repl[1] == AMPERSAND {
      OverrunsBeyond(repl[2..], m, k + 1);
    } else if repl[0] == AMPERSAND {
      if !(k < ROOM < k + |m|) { OverrunsBeyond(repl[1..], m, k + |m|); }
    } else {
      OverrunsBeyond(repl[1..], m, k + 1);
    }
  }

  // It gives up at the move that begins at `from`.
  predicate GivesUp(find: Finder, repl: seq<nat>, text: seq<nat>, from: nat, after: bool, hat: bool, k: nat)
    requires from <= |text|
  {
    match find(from, hat)
    case There(b, n) =>
      if from <= b && b + n <= |text| then !Passable(repl, text, from, b, n, k, CutAt(repl, text, from, after, b, n))
      else k + (|text| - from) >= ROOM
    case Nowhere => k + (|text| - from) >= ROOM
  }

  // The move for a match does not make gsub give up.
  predicate Passable(repl: seq<nat>, text: seq<nat>, t: nat, b: nat, n: nat, k: nat, g: Move)
    requires t <= b && b + n <= |text|
  {
    if n == 0 && g.Go? then k + |g.piece| <= ROOM else !Overruns(repl, text[b..b + n], k + (b - t))
  }

  /** What gsub delivers, exactly: an error when it gives up, and otherwise the substitution, cut to the size of the
    * buffer. */
  predicate Delivered(task: Task, hats: seq<bool>, res: Outcome) {
    var s := Replaced(task, 0, false, hats, 0);
    if s.count == 0 then res == Done(s.out, 0)
    else if Refused(task, 0, false, hats, 0, 0) then res == TooBig
    else res == Done(Held(s.out), s.count)
  }

  /** When gsub's result is the whole substitution: it must fit, and one character of the buffer is lost when
    * the text goes on after the last match. */
  predicate Fits(s: Substitution, k: nat) { k + |s.out| < ROOM || (k + |s.out| == ROOM && s.atEnd) }

  // gsub, with k characters put out, accepts s exactly when it fits, or cuts it at its end.
  predicate Taken(s: Substitution, k: nat, refused: bool) {
    && (Fits(s, k) <==> !refused && k + |s.out| <= ROOM)
    && (k + |s.out| > ROOM && !s.atEnd ==> refused)
  }

  // One move: what stops is taken or not, and what goes on is refused only when it is beyond the buffer.
  predicate TakenAt(g: Move, k: nat, refused: bool) {
    match g
    case Stop(s) => Taken(s, k, refused)
    case Go(piece, _, _, _) => refused ==> k + |piece| > ROOM
  }

  lemma CutTaken(find: Finder, repl: seq<nat>, text: seq<nat>, from: nat, after: bool, hat: bool, k: nat)
    requires from <= |text|
    ensures TakenAt(Cut(find, repl, text, from, after, hat), k, GivesUp(find, repl, text, from, after, hat, k))
  {
    match find(from, hat)
    case Nowhere =>
    case There(b, n) =>
      if from <= b && b + n <= |text| && Overruns(repl, text[b..b + n], k + (b - from)) {
        OverrunsBeyond(repl, text[b..b + n], k + (b - from));
      }
  }

  // The moves at `from` lead on, and gsub gives up at them only for want of room.
  ghost predicate Fair(task: Task, from: nat) {
    forall after, hat, k: nat ::
      FairAt(task.cut(from, after, hat), task.givesUp(from, after, hat, k), task.size, from, k)
  }

  predicate FairAt(g: Move, refused: bool, size: nat, from: nat, k: nat) {
    TakenAt(g, k, refused) && (g.Go? ==> from < g.next <= size)
  }

  lemma TasksFair(find: Finder, repl: seq<nat>, text: seq<nat>, from: nat)
    requires from <= |text|
    ensures Fair(TaskOf(find, repl, text), from)
  {
    var task := TaskOf(find, repl, text);
    forall after, hat, k: nat
      ensures FairAt(task.cut(from, after, hat), task.givesUp(from, after, hat, k), task.size, from, k)
    {
      CutTaken(find, repl, text, from, after, hat, k);
    }
  }

  lemma {:induction false} AcceptedWhenFits(task: Task, from: nat, after: bool, hats: seq<bool>, i: nat, k: nat)
    requires from <= task.size && forall j: nat :: j <= task.size ==> Fair(task, j)
    ensures Taken(Replaced(task, from, after, hats, i), k, Refused(task, from, after, hats, i, k))
    decreases task.size - from
  {
    var g, refused := task.cut(from, after, HatAt(hats, i)), task.givesUp(from, after, HatAt(hats, i), k);
    assert Fair(task, from);
    assert FairAt(g, refused, task.size, from, k);
    if g.Go? { AcceptedWhenFits(task, g.next, g.after, hats, i + 1, k + |g.piece|); }
  }

  /** What is delivered is the whole substitution exactly when it fits. */
  lemma WholeWhenFits(find: Finder, repl: seq<nat>, text: seq<nat>, hats: seq<bool>, res: Outcome)
    requires Delivered(TaskOf(find, repl, text), hats, res)
    ensures var s := Replaced(TaskOf(find, repl, text), 0, false, hats, 0);
      && (res == Done(s.out, s.count) <==> s.count == 0 || Fits(s, 0))
      && (res.Done? && s.count > 0 && !Fits(s, 0) ==> s.atEnd && res == Done(s.out[..ROOM], s.count))
  {
    forall j: nat | j <= |text| ensures Fair(TaskOf(find, repl, text), j) { TasksFair(find, repl, text, j); }
    AcceptedWhenFits(TaskOf(find, repl, text), 0, false, hats, 0, 0);
  }

  // ------------------------------------------------------------------ the loop

  /** The substitution of the whole text, of which `full` and num replacements are done after searches with these
    * hats, is that of text[t..], whatever hats the later searches will have. */
  ghost predicate Underway(task: Task, past: seq<bool>, t: nat, after: bool, full: seq<nat>, num: nat) {
    forall hats :: past <= hats ==> GoesOn(task, hats, |past|, t, after, full, num)
  }

  predicate GoesOn(task: Task, hats: seq<bool>, i: nat, t: nat, after: bool, full: seq<nat>, num: nat) {
    && Replaced(task, 0, false, hats, 0) == Replaced(task, t, after, hats, i).Prepend(full, num)
    && (Refused(task, 0, false, hats, 0, 0) <==> Refused(task, t, after, hats, i, |full|))
  }

  lemma AtTheStart(task: Task)
    ensures Underway(task, [], 0, false, [], 0)
  {
    forall hats ensures GoesOn(task, hats, 0, 0, false, [], 0) {
      var s := Replaced(task, 0, false, hats, 0);
      assert [] + s.out == s.out;
    }
  }

  // One move further.
  lemma UnderwayNext(task: Task, past: seq<bool>, t: nat, after: bool, full: seq<nat>, num: nat, hat: bool)
    requires Underway(task, past, t, after, full, num)
    ensures var g := task.cut(t, after, hat);
      g.Go? && t < g.next <= task.size && !task.givesUp(t, after, hat, |full|) ==>
      Underway(task, past + [hat], g.next, g.after, full + g.piece, num + g.k)
  {
    var g := task.cut(t, after, hat);
    if g.Go? && t < g.next <= task.size && !task.givesUp(t, after, hat, |full|) {
      var done, count, i := full + g.piece, num + g.k, |past| + 1;
      forall hats | past + [hat] <= hats ensures GoesOn(task, hats, i, g.next, g.after, done, count) {
        assert past <= hats && hats[|past|] == (past + [hat])[|past|];
        MoveOn(task, hats, |past|, t, after, full, num);
      }
    }
  }

  lemma MoveOn(task: Task, hats: seq<bool>, i: nat, t: nat, after: bool, full: seq<nat>, num: nat)
    requires GoesOn(task, hats, i, t, after, full, num)
    requires var g := task.cut(t, after, HatAt(hats, i));
      g.Go? && t < g.next <= task.size && !task.givesUp(t, after, HatAt(hats, i), |full|)
    ensures var g := task.cut(t, after, HatAt(hats, i));
      GoesOn(task, hats, i + 1, g.next, g.after, full + g.piece, num + g.k)
  {
    var g := task.cut(t, after, HatAt(hats, i));
    PrependTwice(Replaced(task, g.next, g.after, hats, i + 1), full, num, g.piece, g.k);
  }

  lemma PrependTwice(s: Substitution, full: seq<nat>, num: nat, piece: seq<nat>, k: nat)
    ensures s.Prepend(piece, k).Prepend(full, num) == s.Prepend(full + piece, num + k)
  {
    assert full + (piece + s.out) == full + piece + s.out;
  }

  // gsub gives up at a match: the whole substitution is refused.
  lemma RefusedHere(task: Task, past: seq<bool>, t: nat, after: bool, full: seq<nat>, num: nat, hat: bool)
    requires Underway(task, past, t, after, full, num) && task.givesUp(t, after, hat, |full|)
    requires var g := task.cut(t, after, hat); g.Go? && t < g.next <= task.size && (num > 0 || g.k > 0)
    ensures Refused(task, 0, false, past + [hat], 0, 0) && Replaced(task, 0, false, past + [hat], 0).count > 0
  {
    assert GoesOn(task, past + [hat], |past|, t, after, full, num);
  }

  // The substitution ends with this move.
  lemma StopsHere(task: Task, past: seq<bool>, t: nat, after: bool, full: seq<nat>, num: nat, hat: bool)
    requires Underway(task, past, t, after, full, num) && task.cut(t, after, hat).Stop?
    ensures Replaced(task, 0, false, past + [hat], 0) == task.cut(t, after, hat).s.Prepend(full, num)
    ensures Refused(task, 0, false, past + [hat], 0, 0) <==> task.givesUp(t, after, hat, |full|)
  {
    assert GoesOn(task, past + [hat], |past|, t, after, full, num);
  }

  // ------------------------------------------------------------------ where `^` may match

  /** No leaf of r consumes the marker. */
  predicate NoHat(r: Re) {
    match r
    case Unit(l) => !Consumes(l, HAT)
    case Star(b) => NoHat(b)
    case Plus(b) => NoHat(b)
    case Quest(b) => NoHat(b)
    case Cat(a, b) => NoHat(a) && NoHat(b)
    case Or(a, b) => NoHat(a) && NoHat(b)
  }

  lemma {:induction false} NoHatInWords(r: Re, w: seq<nat>)
    requires NoHat(r) && In(w, r)
    ensures HAT !in w
    decreases r, |w|, 0
  {
    match r
    case Unit(l) => LeafLength(l, w);
    case Star(b) => NoHatInStar(b, w);
    case Plus(b) =>
      var k := PlusElim(w, b);
      NoHatInWords(b, w[..k]);
      NoHatInStar(b, w[k..]);
      assert w == w[..k] + w[k..];
    case Quest(b) => if w != [] { NoHatInWords(b, w); }
    case Cat(a, b) =>
      var k := CatElim(w, a, b);
      NoHatInWords(a, w[..k]);
      NoHatInWords(b, w[k..]);
      assert w == w[..k] + w[k..];
    case Or(a, b) => if In(w, a) { NoHatInWords(a, w); } else { NoHatInWords(b, w); }
  }

  lemma {:induction false} NoHatInStar(r: Re, w: seq<nat>)
    requires NoHat(r) && InStar(w, r)
    ensures HAT !in w
    decreases r, |w|, 1
  {
    if w != [] {
      var k :| 1 <= k <= |w| && In(w[..k], r) && InStar(w[k..], r);
      NoHatInWords(r, w[..k]);
      NoHatInStar(r, w[k..]);
      assert w == w[..k] + w[k..];
    }
  }

  lemma NoHatNoMatter(r: Re, text: seq<nat>, i: nat, n: nat)
    requires NoHat(r)
    ensures MatchAt(r, text, i, n, true) <==> MatchAt(r, text, i, n, false)
  {
    if i + n <= |text| {
      var u := text[i..i + n];
      assert HAT in [HAT] + u && HAT in [HAT] + u + [NUL];
      if In([HAT] + u, r) { NoHatInWords(r, [HAT] + u); }
      if In([HAT] + u + [NUL], r) { NoHatInWords(r, [HAT] + u + [NUL]); }
    }
  }

  lemma NoHatSameMatches(r: Re, text: seq<nat>, j: nat, h1: bool, h2: bool)
    requires NoHat(r)
    ensures MatchesAt(r, text, j, h1) <==> MatchesAt(r, text, j, h2)
  {
    forall n | 0 <= n <= |text| ensures MatchAt(r, text, j, n, h1) <==> MatchAt(r, text, j, n, h2) {
      NoHatNoMatter(r, text, j, n);
    }
  }

  // The first match is the same with and without the marker.
  lemma NoHatSameFirst(r: Re, text: seq<nat>, from: nat, h1: bool, h2: bool)
    requires NoHat(r) && from <= |text|
    ensures NoMatch(r, text, from, h1) <==> NoMatch(r, text, from, h2)
    ensures !NoMatch(r, text, from, h1) ==> First(r, text, from, h1) == First(r, text, from, h2)
  {
    forall j: nat ensures MatchesFrom(r, text, from, h1, j) <==> MatchesFrom(r, text, from, h2, j) {
      NoHatSameMatches(r, text, j, h1 && j == from, h2 && j == from);
    }
    if !NoMatch(r, text, from, h1) {
      var (b, n) := First(r, text, from, h1);
      NoHatSameLongest(r, text, b, n, h1 && b == from, h2 && b == from);
      FirstUnique(r, text, from, h2, b, n);
    }
  }

  lemma NoHatSameLongest(r: Re, text: seq<nat>, i: nat, n: nat, h1: bool, h2: bool)
    requires NoHat(r) && LongestAt(r, text, i, n, h1)
    ensures LongestAt(r, text, i, n, h2)
  {
    forall m: nat ensures MatchAt(r, text, i, m, h1) <==> MatchAt(r, text, i, m, h2) {
      NoHatNoMatter(r, text, i, m);
    }
  }

  // The moves at `from` are the same with and without the marker.
  ghost predicate Blind(task: Task, from: nat) {
    && (forall after :: task.cut(from, after, true) == task.cut(from, after, false))
    && forall after, k :: task.givesUp(from, after, true, k) == task.givesUp(from, after, false, k)
  }

  lemma {:induction false} BlindSubstitution(task: Task, from: nat, after: bool, h1: seq<bool>, h2: seq<bool>, i: nat,
                                             k: nat)
    requires forall j :: Blind(task, j)
    ensures Replaced(task, from, after, h1, i) == Replaced(task, from, after, h2, i)
    ensures Refused(task, from, after, h1, i, k) == Refused(task, from, after, h2, i, k)
    decreases task.size - from
  {
    assert Blind(task, from);
    var g := task.cut(from, after, HatAt(h1, i));
    if g.Go? && from < g.next <= task.size {
      BlindSubstitution(task, g.next, g.after, h1, h2, i + 1, k + |g.piece|);
    }
  }

  lemma {:induction false} SameHats(task: Task, from: nat, after: bool, h1: seq<bool>, h2: seq<bool>, i: nat, k: nat)
    requires forall j: nat :: HatAt(h1, j) == HatAt(h2, j)
    ensures Replaced(task, from, after, h1, i) == Replaced(task, from, after, h2, i)
    ensures Refused(task, from, after, h1, i, k) == Refused(task, from, after, h2, i, k)
    decreases task.size - from
  {
    var g := task.cut(from, after, HatAt(h1, i));
    if g.Go? && from < g.next <= task.size { SameHats(task, g.next, g.after, h1, h2, i + 1, k + |g.piece|); }
  }

  // The searches after the first one started without `^`.
  predicate Plain(hats: seq<bool>) { forall i :: 1 <= i < |hats| ==> !hats[i] }

  lemma HatsMatterLittle(r: Re, repl: seq<nat>, text: seq<nat>, hats: seq<bool>, res: Outcome)
    requires hats != [] && hats[0]
    ensures var task := TaskOf(Find(r, text), repl, text);
      NoHat(r) || Plain(hats) ==> (Delivered(task, hats, res) <==> Delivered(task, [true], res))
  {
    var task := TaskOf(Find(r, text), repl, text);
    if NoHat(r) {
      forall i: nat ensures Blind(task, i) {
        if i <= |text| { NoHatSameFirst(r, text, i, true, false); }
      }
      BlindSubstitution(task, 0, false, hats, [true], 0, 0);
    } else if Plain(hats) {
      SameHats(task, 0, false, hats, [true], 0, 0);
    }
  }

  // ------------------------------------------------------------------ properties of the substitution

  // A move puts out at most one replacement, and with `&` for the replacement what it has passed.
  predicate Passes(repl: seq<nat>, text: seq<nat>, from: nat, g: Move)
    requires from <= |text| && (g.Go? ==> from < g.next <= |text|)
  {
    match g
    case Stop(s) => s.count <= 1 && Restores(repl, s.out, text[from..])
    case Go(piece, k, next, _) => k <= 1 && Restores(repl, piece, text[from..next])
  }

  lemma CutAtPasses(repl: seq<nat>, text: seq<nat>, from: nat, after: bool, b: nat, n: nat)
    requires from <= b && b + n <= |text|
    ensures Passes(repl, text, from, CutAt(repl, text, from, after, b, n))
  {
    PieceRestores(repl, text, from, b, n);
    if b < |text| { EmptyPieceRestores(repl, text, from, b); }
  }

  lemma CutPasses(find: Finder, repl: seq<nat>, text: seq<nat>, from: nat, after: bool, hat: bool)
    requires from <= |text|
    ensures Passes(repl, text, from, Cut(find, repl, text, from, after, hat))
  {
    var p := find(from, hat);
    if p.There? && from <= p.b && p.b + p.n <= |text| { CutAtPasses(repl, text, from, after, p.b, p.n); }
  }

  lemma PieceRestores(repl: seq<nat>, text: seq<nat>, from: nat, b: nat, n: nat)
    requires from <= b && b + n <= |text|
    ensures Restores(repl, text[from..b] + Expand(repl, text[b..b + n]), text[from..b + n])
    ensures text[from..|text|] == text[from..]
  {
    SelfExpands(text[b..b + n]);
  }

  lemma EmptyPieceRestores(repl: seq<nat>, text: seq<nat>, from: nat, b: nat)
    requires from <= b < |text|
    ensures Restores(repl, text[from..b] + Expand(repl, []) + [text[b]], text[from..b + 1])
    ensures [text[b]] == text[b..b + 1]
  {
    SelfExpands([]);
  }

  // With `&` for the replacement, what is put out is the text itself.
  predicate Restores(repl: seq<nat>, piece: seq<nat>, text: seq<nat>) { repl == [AMPERSAND] ==> piece == text }

  lemma SelfExpands(m: seq<nat>)
    ensures Expand([AMPERSAND], m) == m
  {
    assert Expand([AMPERSAND], m) == m + Expand([], m);
  }

  /** Replacing every match by itself changes nothing, whatever is found: no character is lost or doubled. */
  lemma {:induction false} ReplacingBySelf(find: Finder, text: seq<nat>, from: nat, after: bool,
                                           hats: seq<bool>, i: nat)
    requires from <= |text|
    ensures Replaced(TaskOf(find, [AMPERSAND], text), from, after, hats, i).out == text[from..]
    decreases |text| - from
  {
    CutPasses(find, [AMPERSAND], text, from, after, HatAt(hats, i));
    var g := Cut(find, [AMPERSAND], text, from, after, HatAt(hats, i));
    if g.Go? {
      ReplacingBySelf(find, text, g.next, g.after, hats, i + 1);
      assert text[from..g.next] + text[g.next..] == text[from..];
    }
  }

  /** A text has at most one match to replace at each of its offsets and at its end. */
  lemma {:induction false} CountBounded(find: Finder, repl: seq<nat>, text: seq<nat>, from: nat, after: bool,
                                        hats: seq<bool>, i: nat)
    requires from <= |text|
    ensures Replaced(TaskOf(find, repl, text), from, after, hats, i).count <= |text| - from + 1
    decreases |text| - from
  {
    CutPasses(find, repl, text, from, after, HatAt(hats, i));
    var g := Cut(find, repl, text, from, after, HatAt(hats, i));
    if g.Go? { CountBounded(find, repl, text, g.next, g.after, hats, i + 1); }
  }

  /** The pattern `a` on the text `ab`: one replacement, and the text goes on after it. */
  lemma OneReplacement(repl: seq<nat>)
    ensures Wanted(Unit(Char(97)), repl, [97, 98]) == Substitution(Expand(repl, [97]) + [98], 1, false)
  {
    var r, text: seq<nat> := Unit(Char(97)), [97, 98];
    forall i, n, h | MatchAt(r, text, i, n, h) ensures i == 0 && n == 1 {
      assert !In([], r) && !In([HAT], r);
    }
    assert text[0..1] == [97] && In([97], r);
    assert MatchAt(r, text, 0, 1, true);
    assert LeftmostLongest(r, text, 0, true, 0, 1);
    FoundThere(r, text, 0, true, 0, 1);
    assert NoMatch(r, text, 1, false);
    assert text[1..] == [98] && text[0..0] == [];
  }

  lemma {:induction false} PlainExpands(repl: seq<nat>, m: seq<nat>)
    requires AMPERSAND !in repl && BACKSLASH !in repl
    ensures Expand(repl, m) == repl
  {
    if repl != [] {
      PlainExpands(repl[1..], m);
      assert repl == [repl[0]] + repl[1..];
    }
  }

  /** A result of RECSIZE - 1 characters, which the buffer could hold, is refused when the text goes on after
    * the last match: here for every replacement of RECSIZE - 2 ordinary characters. */
  lemma LastCharacterLost(repl: seq<nat>)
    requires |repl| == RECSIZE - 2 && AMPERSAND !in repl && BACKSLASH !in repl
    ensures var s := Wanted(Unit(Char(97)), repl, [97, 98]);
      && s.count == 1 && |s.out| == RECSIZE - 1
      && forall res :: Delivered(TaskOf(Find(Unit(Char(97)), [97, 98]), repl, [97, 98]), [true], res) <==> res == TooBig
  {
    OneReplacement(repl);
    PlainExpands(repl, [97]);
    var find: Finder := Find(Unit(Char(97)), [97, 98]);
    forall j: nat | j <= 2 ensures Fair(TaskOf(find, repl, [97, 98]), j) { TasksFair(find, repl, [97, 98], j); }
    AcceptedWhenFits(TaskOf(find, repl, [97, 98]), 0, false, [true], 0, 0);
  }
}
