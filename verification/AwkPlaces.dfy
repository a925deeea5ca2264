/** Which places of a text gsub replaces (run.c: gsub), said of the places themselves, and what that makes of some
  * patterns. */
module AwkPlaces {
  import opened AwkRegex
  import opened AwkMatchSpec
  import opened AwkSubstitute
  import opened AwkSimple

  /** A place that is replaced: n characters from b on. */
  datatype Spot = Spot(b: nat, n: nat)

  // ------------------------------------------------------------------ which places

  /** Spots do not overlap, and an empty one does not stand directly behind one that is not. */
  predicate Apart(s: Spot, u: Spot) { s.b < u.b && s.b + s.n <= u.b && (s.n > 0 && u.n == 0 ==> s.b + s.n < u.b) }

  // A match begins at k.
  ghost predicate Matched(r: Re, text: seq<nat>, k: nat) { MatchesAt(r, text, k, k == 0) }

  // The match at k is replaced or lies within s, or it is empty and stands directly behind s, which is not.
  ghost predicate Takes(r: Re, text: seq<nat>, s: Spot, k: nat) {
    || s.b == k || s.b < k < s.b + s.n
    || (s.n > 0 && k == s.b + s.n && LongestAt(r, text, k, 0, k == 0))
  }

  ghost predicate TakenBySome(r: Re, text: seq<nat>, spots: seq<Spot>, k: nat) {
    exists i :: 0 <= i < |spots| && Takes(r, text, spots[i], k)
  }

  /** The places to replace: longest matches in order and apart, `^` matching at the beginning of the text only, so
    * that every offset with a match is accounted for. */
  ghost predicate Chosen(r: Re, text: seq<nat>, spots: seq<Spot>) {
    && (forall i :: 0 <= i < |spots| ==> LongestAt(r, text, spots[i].b, spots[i].n, spots[i].b == 0))
    && (forall i, j :: 0 <= i < j < |spots| ==> Apart(spots[i], spots[j]))
    && forall k: nat :: k <= |text| && Matched(r, text, k) ==> TakenBySome(r, text, spots, k)
  }

  lemma LongestIsOne(r: Re, text: seq<nat>, k: nat, m: nat, n: nat, hat: bool)
    requires LongestAt(r, text, k, m, hat) && LongestAt(r, text, k, n, hat)
    ensures m == n && k + n <= |text| && MatchesAt(r, text, k, hat)
  {
  }

  // The next place of one choice is not before that of another.
  lemma NotBefore(r: Re, text: seq<nat>, p: seq<Spot>, q: seq<Spot>, i: nat)
    requires Chosen(r, text, p) && Chosen(r, text, q) && i < |p| && i <= |q| && p[..i] == q[..i]
    ensures i < |q| && q[i].b <= p[i].b
  {
    var k := p[i].b;
    LongestIsOne(r, text, k, p[i].n, p[i].n, k == 0);
    assert TakenBySome(r, text, q, k);
    var j :| 0 <= j < |q| && Takes(r, text, q[j], k);
    if j < i {
      assert q[j] == q[..i][j] == p[j] && Apart(p[j], p[i]);
      if k == q[j].b + q[j].n && LongestAt(r, text, k, 0, k == 0) {
        LongestIsOne(r, text, k, 0, p[i].n, k == 0);
      }
      assert false;
    }
    if i < j { assert Apart(q[i], q[j]); }
  }

  lemma SameNext(r: Re, text: seq<nat>, p: seq<Spot>, q: seq<Spot>, i: nat)
    requires Chosen(r, text, p) && Chosen(r, text, q) && i < |p| && i <= |q| && p[..i] == q[..i]
    ensures i < |q| && p[i] == q[i] && p[..i + 1] == q[..i + 1]
  {
    NotBefore(r, text, p, q, i);
    NotBefore(r, text, q, p, i);
    LongestIsOne(r, text, p[i].b, p[i].n, q[i].n, p[i].b == 0);
  }

  lemma {:induction false} SamePrefix(r: Re, text: seq<nat>, p: seq<Spot>, q: seq<Spot>, i: nat)
    requires Chosen(r, text, p) && Chosen(r, text, q) && i <= |p|
    ensures i <= |q| && p[..i] == q[..i]
  {
    if i > 0 {
      SamePrefix(r, text, p, q, i - 1);
      SameNext(r, text, p, q, i - 1);
    }
  }

  /** There is only one such choice of places. */
  lemma ChosenIsOne(r: Re, text: seq<nat>, p: seq<Spot>, q: seq<Spot>)
    requires Chosen(r, text, p) && Chosen(r, text, q)
    ensures p == q
  {
    SamePrefix(r, text, p, q, |p|);
    SamePrefix(r, text, q, p, |q|);
  }

  // ------------------------------------------------------------------ what is put in their place

  predicate InOrder(text: seq<nat>, from: nat, spots: seq<Spot>)
    decreases |spots|
  {
    if spots == [] then from <= |text|
    else from <= spots[0].b && spots[0].b + spots[0].n <= |text| && InOrder(text, spots[0].b + spots[0].n, spots[1..])
  }

  /** The text from `from` on with its spots replaced. */
  function Spliced(repl: seq<nat>, text: seq<nat>, from: nat, spots: seq<Spot>): seq<nat>
    requires InOrder(text, from, spots)
    decreases |spots|
  {
    if spots == [] then text[from..]
    else
      var b, e := spots[0].b, spots[0].b + spots[0].n;
      text[from..b] + Expand(repl, text[b..e]) + Spliced(repl, text, e, spots[1..])
  }

  // A spot in front of others.
  lemma SplicedCons(repl: seq<nat>, text: seq<nat>, from: nat, s: Spot, rest: seq<Spot>)
    requires from <= s.b && s.b + s.n <= |text| && InOrder(text, s.b + s.n, rest)
    ensures InOrder(text, from, [s] + rest)
    ensures Spliced(repl, text, from, [s] + rest) ==
            text[from..s.b] + Expand(repl, text[s.b..s.b + s.n]) + Spliced(repl, text, s.b + s.n, rest)
  {
    assert ([s] + rest)[1..] == rest;
  }

  lemma SplicedEarlier(repl: seq<nat>, text: seq<nat>, from: nat, q: nat, spots: seq<Spot>)
    requires from <= q && InOrder(text, q, spots)
    ensures q <= |text| && InOrder(text, from, spots)
    ensures Spliced(repl, text, from, spots) == text[from..q] + Spliced(repl, text, q, spots)
  {
    if spots == [] {
      assert text[from..] == text[from..q] + text[q..];
    } else {
      var s, rest := spots[0], spots[1..];
      assert spots == [s] + rest;
      SplicedCons(repl, text, from, s, rest);
      SplicedCons(repl, text, q, s, rest);
      EarlierParts(text, from, q, s.b, Expand(repl, text[s.b..s.b + s.n]), Spliced(repl, text, s.b + s.n, rest));
    }
  }

  lemma EarlierParts(text: seq<nat>, from: nat, q: nat, b: nat, c: seq<nat>, d: seq<nat>)
    requires from <= q <= b <= |text|
    ensures text[from..b] + c + d == text[from..q] + (text[q..b] + c + d)
  {
    assert text[from..b] == text[from..q] + text[q..b];
  }

  /** The substitution that puts repl for the spots of a text. */
  function Result(repl: seq<nat>, text: seq<nat>, from: nat, spots: seq<Spot>): Substitution
    requires InOrder(text, from, spots)
  {
    var last := if spots == [] then Spot(0, 0) else spots[|spots| - 1];
    Substitution(Spliced(repl, text, from, spots), |spots|, spots != [] && last.b + last.n == |text|)
  }

  // ------------------------------------------------------------------ gsub replaces those places

  // The choice for the text from `from` on, where a nonempty place may just have ended.
  ghost predicate ChosenFrom(r: Re, text: seq<nat>, from: nat, after: bool, spots: seq<Spot>) {
    && (forall i :: 0 <= i < |spots| ==>
          from <= spots[i].b && LongestAt(r, text, spots[i].b, spots[i].n, spots[i].b == 0))
    && (forall i, j :: 0 <= i < j < |spots| ==> Apart(spots[i], spots[j]))
    && (forall i :: 0 <= i < |spots| && after && spots[i].b == from ==> spots[i].n > 0)
    && forall k: nat :: from <= k <= |text| && Matched(r, text, k) ==>
         TakenBySome(r, text, spots, k) || (after && k == from && LongestAt(r, text, k, 0, k == 0))
  }

  lemma ConsTaken(r: Re, text: seq<nat>, s: Spot, rest: seq<Spot>, k: nat)
    ensures TakenBySome(r, text, [s] + rest, k) <==> Takes(r, text, s, k) || TakenBySome(r, text, rest, k)
  {
    var spots := [s] + rest;
    if TakenBySome(r, text, rest, k) {
      var i :| 0 <= i < |rest| && Takes(r, text, rest[i], k);
      assert spots[i + 1] == rest[i];
    }
    if Takes(r, text, s, k) { assert spots[0] == s; }
  }

  // A place in front of others.
  lemma ConsChosen(r: Re, text: seq<nat>, from: nat, after: bool, b: nat, n: nat, next: nat, rest: seq<Spot>)
    requires from <= b && b + n <= next && (n > 0 ==> next == b + n) && (n == 0 ==> next == b + 1)
    requires LeftmostLongest(r, text, from, from == 0, b, n) && (after && b == from ==> n > 0)
    requires ChosenFrom(r, text, next, n > 0, rest)
    ensures ChosenFrom(r, text, from, after, [Spot(b, n)] + rest)
  {
    var s := Spot(b, n);
    var spots := [s] + rest;
    forall i, j | 0 <= i < j < |spots| ensures Apart(spots[i], spots[j]) {
      assert spots[j] == rest[j - 1];
      if i > 0 { assert spots[i] == rest[i - 1]; }
    }
    forall i | 0 <= i < |spots|
      ensures from <= spots[i].b && LongestAt(r, text, spots[i].b, spots[i].n, spots[i].b == 0)
    {
      if i > 0 { assert spots[i] == rest[i - 1]; }
    }
    forall k: nat | from <= k <= |text| && Matched(r, text, k)
      ensures TakenBySome(r, text, spots, k) || (after && k == from && LongestAt(r, text, k, 0, k == 0))
    {
      ConsTaken(r, text, s, rest, k);
      if k < b { assert !MatchesFrom(r, text, from, from == 0, k); }
    }
  }

  lemma NoneChosen(r: Re, text: seq<nat>, from: nat, after: bool)
    requires NoMatch(r, text, from, from == 0)
    ensures ChosenFrom(r, text, from, after, [])
  {
    forall k: nat | from <= k <= |text| ensures !Matched(r, text, k) {
      assert !MatchesFrom(r, text, from, from == 0, k);
    }
  }

  // A place at the end of the text.
  lemma LastChosen(r: Re, text: seq<nat>, from: nat, after: bool, b: nat, n: nat)
    requires from <= b && b + n == |text| && LeftmostLongest(r, text, from, from == 0, b, n)
    requires after ==> from < |text|
    ensures ChosenFrom(r, text, from, after, [Spot(b, n)])
  {
    var spots := [Spot(b, n)];
    forall k: nat | from <= k <= |text| && Matched(r, text, k) ensures TakenBySome(r, text, spots, k) {
      assert MatchesFrom(r, text, from, from == 0, k);
      if k == |text| { AtEndEmpty(r, text); }
      assert Takes(r, text, spots[0], k);
    }
  }

  lemma AtEndEmpty(r: Re, text: seq<nat>)
    requires Matched(r, text, |text|)
    ensures LongestAt(r, text, |text|, 0, |text| == 0)
  {
  }

  // An empty match directly behind a nonempty place is left alone.
  lemma SkippedChosen(r: Re, text: seq<nat>, from: nat, rest: seq<Spot>)
    requires LongestAt(r, text, from, 0, from == 0) && ChosenFrom(r, text, from + 1, false, rest)
    ensures ChosenFrom(r, text, from, true, rest)
  {
  }

  // Going on after one move.
  lemma OneMore(repl: seq<nat>, text: seq<nat>, from: nat, b: nat, n: nat, next: nat, rest: seq<Spot>,
                piece: seq<nat>)
    requires from <= b && b + n <= next <= |text| && b + n < |text| && InOrder(text, next, rest)
    requires piece == text[from..b] + Expand(repl, text[b..b + n]) + text[b + n..next]
    ensures InOrder(text, from, [Spot(b, n)] + rest)
    ensures Result(repl, text, next, rest).Prepend(piece, 1) == Result(repl, text, from, [Spot(b, n)] + rest)
  {
    SplicedMore(repl, text, from, b, n, next, rest, piece);
    assert rest != [] ==> ([Spot(b, n)] + rest)[|rest|] == rest[|rest| - 1];
  }

  lemma SplicedMore(repl: seq<nat>, text: seq<nat>, from: nat, b: nat, n: nat, next: nat, rest: seq<Spot>,
                    piece: seq<nat>)
    requires from <= b && b + n <= next <= |text| && InOrder(text, next, rest)
    requires piece == text[from..b] + Expand(repl, text[b..b + n]) + text[b + n..next]
    ensures InOrder(text, from, [Spot(b, n)] + rest)
    ensures piece + Spliced(repl, text, next, rest) == Spliced(repl, text, from, [Spot(b, n)] + rest)
  {
    SplicedEarlier(repl, text, b + n, next, rest);
    SplicedCons(repl, text, from, Spot(b, n), rest);
    PartsJoin(text[from..b], Expand(repl, text[b..b + n]), text[b + n..next], Spliced(repl, text, next, rest));
  }

  lemma PartsJoin(a: seq<nat>, b: seq<nat>, c: seq<nat>, d: seq<nat>)
    ensures a + b + c + d == a + b + (c + d)
  {
  }

  lemma OneSkipped(repl: seq<nat>, text: seq<nat>, from: nat, rest: seq<Spot>)
    requires from < |text| && InOrder(text, from + 1, rest)
    ensures InOrder(text, from, rest)
    ensures Result(repl, text, from + 1, rest).Prepend([text[from]], 0) == Result(repl, text, from, rest)
  {
    SplicedEarlier(repl, text, from, from + 1, rest);
    assert text[from..from + 1] == [text[from]];
  }

  lemma OneLast(repl: seq<nat>, text: seq<nat>, from: nat, b: nat, n: nat)
    requires from <= b && b + n == |text|
    ensures InOrder(text, from, [Spot(b, n)])
    ensures Result(repl, text, from, [Spot(b, n)]) ==
            Substitution(text[from..b] + Expand(repl, text[b..b + n]), 1, true)
  {
    SplicedCons(repl, text, from, Spot(b, n), []);
    assert [Spot(b, n)] + [] == [Spot(b, n)] && text[|text|..] == [];
  }

  // The pieces that gsub puts out.
  lemma PieceIs(repl: seq<nat>, text: seq<nat>, from: nat, b: nat, n: nat)
    requires from <= b && b + n < |text|
    ensures var next := if n > 0 then b + n else b + 1;
      var piece := text[from..b] + Expand(repl, text[b..b + n]) + text[b + n..next];
      piece == if n > 0 then text[from..b] + Expand(repl, text[b..b + n])
               else text[from..b] + Expand(repl, []) + [text[b]]
  {
    if n == 0 { assert text[b..b] == [] && text[b..b + 1] == [text[b]]; }
  }

  /** The places of gsub's moves from `from` on, beginning with search number i. */
  function SpotsFrom(find: Finder, text: seq<nat>, from: nat, after: bool, i: nat): seq<Spot>
    requires from <= |text|
    decreases |text| - from
  {
    match find(from, i == 0)
    case Nowhere => []
    case There(b, n) =>
      if b < from || b + n > |text| then []
      else if b + n == |text| then [Spot(b, n)]
      else PlacesWith(from, after, b, n, SpotsFrom(find, text, Behind(b, n), n > 0, i + 1))
  }

  // The places when the next match is at b, and `rest` are those behind it.
  function PlacesWith(from: nat, after: bool, b: nat, n: nat, rest: seq<Spot>): seq<Spot> {
    if n == 0 && after && b == from then rest else [Spot(b, n)] + rest
  }

  function Behind(b: nat, n: nat): nat { if n > 0 then b + n else b + 1 }

  // One move, as a substitution.
  lemma MoveResult(repl: seq<nat>, text: seq<nat>, from: nat, after: bool, b: nat, n: nat, rest: seq<Spot>)
    requires from <= b && b + n < |text| && InOrder(text, Behind(b, n), rest)
    ensures var g, spots := CutAt(repl, text, from, after, b, n), PlacesWith(from, after, b, n, rest);
      && g.Go? && (g.next, g.after) == (Behind(b, n), n > 0 ) && InOrder(text, from, spots)
      && Result(repl, text, Behind(b, n), rest).Prepend(g.piece, g.k) == Result(repl, text, from, spots)
  {
    if n == 0 && after && b == from {
      OneSkipped(repl, text, from, rest);
    } else {
      PieceIs(repl, text, from, b, n);
      OneMore(repl, text, from, b, n, Behind(b, n), rest,
              text[from..b] + Expand(repl, text[b..b + n]) + text[b + n..Behind(b, n)]);
    }
  }

  // The same of a whole substitution that goes on with `whole`.
  lemma MoveReplaces(task: Task, from: nat, after: bool, i: nat, whole: Substitution)
    requires var g := task.cut(from, after, i == 0);
      && g.Go? && from < g.next <= task.size && Replaced(task, g.next, g.after, [true], i + 1) == whole
    ensures var g := task.cut(from, after, i == 0);
      Replaced(task, from, after, [true], i) == whole.Prepend(g.piece, g.k)
  {
    assert HatAt([true], i) == (i == 0);
  }

  lemma {:induction false} MovesReplace(find: Finder, repl: seq<nat>, text: seq<nat>, from: nat, after: bool, i: nat)
    requires from <= |text|
    ensures var spots := SpotsFrom(find, text, from, after, i);
      && InOrder(text, from, spots)
      && Replaced(TaskOf(find, repl, text), from, after, [true], i) == Result(repl, text, from, spots)
    decreases |text| - from
  {
    var p := find(from, i == 0);
    if p.There? && from <= p.b && p.b + p.n < |text| {
      var next, rest := Behind(p.b, p.n), SpotsFrom(find, text, Behind(p.b, p.n), p.n > 0, i + 1);
      MovesReplace(find, repl, text, next, p.n > 0, i + 1);
      MoveResult(repl, text, from, after, p.b, p.n, rest);
      MoveReplaces(TaskOf(find, repl, text), from, after, i, Result(repl, text, next, rest));
    } else {
      LastMoveReplaces(find, repl, text, from, after, i);
    }
  }

  lemma LastMoveReplaces(find: Finder, repl: seq<nat>, text: seq<nat>, from: nat, after: bool, i: nat)
    requires from <= |text|
    requires var p := find(from, i == 0); p.There? && from <= p.b ==> p.b + p.n >= |text|
    ensures var spots := SpotsFrom(find, text, from, after, i);
      && InOrder(text, from, spots)
      && Replaced(TaskOf(find, repl, text), from, after, [true], i) == Result(repl, text, from, spots)
  {
    assert HatAt([true], i) == (i == 0);
    var p := find(from, i == 0);
    if p.There? && from <= p.b && p.b + p.n == |text| { OneLast(repl, text, from, p.b, p.n); }
  }

  lemma {:induction false} MovesChoose(r: Re, text: seq<nat>, from: nat, after: bool, i: nat)
    requires from <= |text| && (after ==> from < |text|) && (i == 0 <==> from == 0)
    ensures ChosenFrom(r, text, from, after, SpotsFrom(Find(r, text), text, from, after, i))
    decreases |text| - from
  {
    var hat := i == 0;
    if NoMatch(r, text, from, hat) {
      FoundThere(r, text, from, hat, 0, 0);
      NoneChosen(r, text, from, after);
    } else {
      var (b, n) := First(r, text, from, hat);
      FoundThere(r, text, from, hat, b, n);
      if b + n == |text| {
        LastChosen(r, text, from, after, b, n);
      } else {
        MovesChoose(r, text, Behind(b, n), n > 0, i + 1);
        MoveChooses(r, text, from, after, b, n, SpotsFrom(Find(r, text), text, Behind(b, n), n > 0, i + 1));
      }
    }
  }

  lemma MoveChooses(r: Re, text: seq<nat>, from: nat, after: bool, b: nat, n: nat, rest: seq<Spot>)
    requires LeftmostLongest(r, text, from, from == 0, b, n) && ChosenFrom(r, text, Behind(b, n), n > 0, rest)
    ensures ChosenFrom(r, text, from, after, PlacesWith(from, after, b, n, rest))
  {
    if n == 0 && after && b == from {
      SkippedChosen(r, text, from, rest);
    } else {
      ConsChosen(r, text, from, after, b, n, Behind(b, n), rest);
    }
  }

  // The places of all moves.
  lemma AllMoves(r: Re, repl: seq<nat>, text: seq<nat>) returns (spots: seq<Spot>)
    ensures Chosen(r, text, spots) && InOrder(text, 0, spots) && Wanted(r, repl, text) == Result(repl, text, 0, spots)
  {
    spots := SpotsFrom(Find(r, text), text, 0, false, 0);
    MovesChoose(r, text, 0, false, 0);
    MovesReplace(Find(r, text), repl, text, 0, false, 0);
  }

  /** There always is such a choice. */
  lemma ChoiceExists(r: Re, text: seq<nat>) returns (spots: seq<Spot>)
    ensures Chosen(r, text, spots)
  {
    spots := AllMoves(r, [], text);
  }

  /** What gsub is to do is to put the replacement for the chosen places, and to count them. */
  lemma ReplacesChosen(r: Re, repl: seq<nat>, text: seq<nat>, spots: seq<Spot>)
    requires Chosen(r, text, spots)
    ensures InOrder(text, 0, spots) && Wanted(r, repl, text) == Result(repl, text, 0, spots)
  {
    var p := AllMoves(r, repl, text);
    ChosenIsOne(r, text, p, spots);
  }

  /** What gsub delivers, whenever it delivers what is wanted: the text with the chosen places replaced, and their
    * number, exactly when that fits its buffer or there are none. */
  lemma DeliversChosen(r: Re, repl: seq<nat>, text: seq<nat>, spots: seq<Spot>, res: Outcome)
    requires Chosen(r, text, spots) && Delivered(TaskOf(Find(r, text), repl, text), [true], res)
    ensures InOrder(text, 0, spots)
    ensures var s := Result(repl, text, 0, spots);
      && (res == Done(s.out, |spots|) <==>
          spots == [] || |s.out| < 3071 || (|s.out| == 3071 && s.atEnd))
      && (res.Done? ==> res.count == |spots|)
  {
    ReplacesChosen(r, repl, text, spots);
    WholeWhenFits(Find(r, text), repl, text, [true], res);
  }

  // ------------------------------------------------------------------ the pattern `c*`

  function StarOf(c: nat): Re { Star(Unit(Char(c))) }

  lemma {:induction false} StarWords(c: nat, w: seq<nat>)
    ensures InStar(w, Unit(Char(c))) <==> forall i :: 0 <= i < |w| ==> w[i] == c
    decreases |w|
  {
    var r := Unit(Char(c));
    if InStar(w, r) && w != [] {
      var k := StarElim(w, r);
      LeafLength(Char(c), w[..k]);
      StarWords(c, w[k..]);
      assert w == w[..k] + w[k..];
    }
    if w != [] && forall i :: 0 <= i < |w| ==> w[i] == c {
      StarWords(c, w[1..]);
      StarIntro([c], w[1..], r);
      assert w == [c] + w[1..];
    }
  }

  lemma StarMatch(c: nat, text: seq<nat>, i: nat, n: nat, hat: bool)
    requires NUL < c < HAT
    ensures MatchAt(StarOf(c), text, i, n, hat) <==>
            i + n <= |text| && forall k :: i <= k < i + n ==> text[k] == c
  {
    forall w | In(w, StarOf(c)) ensures HAT !in w && NUL !in w { StarWords(c, w); }
    PlainMatch(StarOf(c), text, i, n, hat);
    if i + n <= |text| {
      var u := text[i..i + n];
      StarWords(c, u);
      assert forall k :: i <= k < i + n ==> text[k] == u[k - i];
    }
  }

  // No c stands directly before offset k.
  predicate Fresh(text: seq<nat>, c: nat, k: int) { k == 0 || (1 <= k <= |text| && text[k - 1] != c) }

  // The longest match of `c*` at k is the run of c that stands there.
  lemma StarLongest(c: nat, text: seq<nat>, k: nat, n: nat, hat: bool)
    requires NUL < c < HAT && LongestAt(StarOf(c), text, k, n, hat)
    ensures k + n <= |text| && (forall i :: k <= i < k + n ==> text[i] == c)
    ensures k + n < |text| ==> text[k + n] != c
  {
    StarMatch(c, text, k, n, hat);
    StarMatch(c, text, k, n + 1, hat);
  }

  lemma StarMatchesAll(c: nat, text: seq<nat>, k: nat)
    requires NUL < c < HAT && k <= |text|
    ensures Matched(StarOf(c), text, k)
  {
    StarMatch(c, text, k, 0, k == 0);
  }

  // A place that `c*` has is at such an offset.
  lemma StarSpotFresh(c: nat, text: seq<nat>, spots: seq<Spot>, i: nat)
    requires NUL < c < HAT && Chosen(StarOf(c), text, spots) && i < |spots|
    ensures Fresh(text, c, spots[i].b) && spots[i].b <= |text|
  {
    var b := spots[i].b;
    StarLongest(c, text, b, spots[i].n, b == 0);
    if b > 0 && text[b - 1] == c {
      StarMatchesAll(c, text, b - 1);
      assert TakenBySome(StarOf(c), text, spots, b - 1);
      var j :| 0 <= j < |spots| && Takes(StarOf(c), text, spots[j], b - 1);
      StarCovers(c, text, spots[j], b - 1);
      StarBehind(c, text, spots[j], spots[i]);
      assert false;
    }
  }

  // A place that accounts for an offset with a c goes over it.
  lemma StarCovers(c: nat, text: seq<nat>, s: Spot, k: nat)
    requires NUL < c < HAT && LongestAt(StarOf(c), text, s.b, s.n, s.b == 0)
    requires k < |text| && text[k] == c && Takes(StarOf(c), text, s, k)
    ensures s.b <= k < s.b + s.n
  {
    StarLongest(c, text, s.b, s.n, s.b == 0);
  }

  // A place that begins where a run ends is empty, and so not apart from it.
  lemma StarBehind(c: nat, text: seq<nat>, s: Spot, u: Spot)
    requires NUL < c < HAT && s.b < u.b <= s.b + s.n
    requires LongestAt(StarOf(c), text, s.b, s.n, s.b == 0) && LongestAt(StarOf(c), text, u.b, u.n, u.b == 0)
    ensures !Apart(s, u)
  {
    StarLongest(c, text, s.b, s.n, s.b == 0);
    StarLongest(c, text, u.b, u.n, u.b == 0);
  }

  // Every such offset has a place.
  lemma FreshIsStarSpot(c: nat, text: seq<nat>, spots: seq<Spot>, k: nat) returns (i: nat)
    requires NUL < c < HAT && Chosen(StarOf(c), text, spots) && k <= |text| && Fresh(text, c, k)
    ensures i < |spots| && spots[i].b == k
  {
    StarMatchesAll(c, text, k);
    assert TakenBySome(StarOf(c), text, spots, k);
    i :| 0 <= i < |spots| && Takes(StarOf(c), text, spots[i], k);
    StarLongest(c, text, spots[i].b, spots[i].n, spots[i].b == 0);
  }

  function Beginnings(spots: seq<Spot>): (s: set<nat>)
    ensures forall k :: k in s <==> exists i :: 0 <= i < |spots| && spots[i].b == k
  {
    if spots == [] then {}
    else
      var init, b := spots[..|spots| - 1], spots[|spots| - 1].b;
      assert spots == init + [spots[|spots| - 1]];
      Beginnings(init) + {b}
  }

  lemma {:induction false} BeginningsCount(spots: seq<Spot>)
    requires forall i, j :: 0 <= i < j < |spots| ==> spots[i].b < spots[j].b
    ensures |Beginnings(spots)| == |spots|
  {
    if spots != [] { BeginningsCount(spots[..|spots| - 1]); }
  }

  /** The runs of c in a text, by where they begin. */
  function Runs(text: seq<nat>, c: nat): set<nat> {
    set k: nat | k < |text| && text[k] == c && Fresh(text, c, k)
  }

  /** The other characters that do not follow a c. */
  function Others(text: seq<nat>, c: nat): set<nat> {
    set k: nat | k < |text| && text[k] != c && Fresh(text, c, k)
  }

  /** gsub with the pattern `c*` makes as many replacements as there are runs of c, other characters not behind a c,
    * and one more when the text does not end with c. */
  lemma StarCount(c: nat, repl: seq<nat>, text: seq<nat>)
    requires NUL < c < HAT
    ensures Wanted(StarOf(c), repl, text).count ==
            |Runs(text, c)| + |Others(text, c)| + if text != [] && text[|text| - 1] == c then 0 else 1
  {
    var r := StarOf(c);
    var spots := ChoiceExists(r, text);
    ReplacesChosen(r, repl, text, spots);
    StarBeginnings(c, text, spots);
    forall i, j | 0 <= i < j < |spots| ensures spots[i].b < spots[j].b { assert Apart(spots[i], spots[j]); }
    BeginningsCount(spots);
    SizesAdd(Runs(text, c), Others(text, c), End(text, c));
  }

  // One more place at the end, unless a c stands there.
  function End(text: seq<nat>, c: nat): set<nat> {
    if text != [] && text[|text| - 1] == c then {} else {|text|}
  }

  lemma SizesAdd(a: set<nat>, b: set<nat>, c: set<nat>)
    requires a !! b && a !! c && b !! c
    ensures |a + b + c| == |a| + |b| + |c|
  {
  }

  lemma StarBeginnings(c: nat, text: seq<nat>, spots: seq<Spot>)
    requires NUL < c < HAT && Chosen(StarOf(c), text, spots)
    ensures Beginnings(spots) == Runs(text, c) + Others(text, c) + End(text, c)
  {
    forall k: nat ensures k in Beginnings(spots) <==> k <= |text| && Fresh(text, c, k) {
      if k <= |text| && Fresh(text, c, k) { var i := FreshIsStarSpot(c, text, spots, k); }
      if k in Beginnings(spots) {
        var i :| 0 <= i < |spots| && spots[i].b == k;
        StarSpotFresh(c, text, spots, i);
      }
    }
  }

  /** For example `b*` by `-` in `abc`: the result is `-a-c-`, with three replacements. */
  lemma StarExample(text: seq<nat>, spots: seq<Spot>)
    requires text == [97, 98, 99] && spots == [Spot(0, 0), Spot(1, 1), Spot(3, 0)]
    ensures Wanted(StarOf(98), [45], text) == Substitution([45, 97, 45, 99, 45], 3, true)
  {
    ExampleChosen(text, spots);
    ReplacesChosen(StarOf(98), [45], text, spots);
    PlainExpands([45], text[0..0]);
    PlainExpands([45], text[1..2]);
    PlainExpands([45], text[3..3]);
    OneLast([45], text, 2, 3, 0);
    SplicedCons([45], text, 0, Spot(1, 1), [Spot(3, 0)]);
    SplicedCons([45], text, 0, Spot(0, 0), [Spot(1, 1), Spot(3, 0)]);
    assert spots == [Spot(0, 0)] + [Spot(1, 1), Spot(3, 0)] && [Spot(1, 1), Spot(3, 0)] == [Spot(1, 1)] + [Spot(3, 0)];
  }

  lemma ExampleChosen(text: seq<nat>, spots: seq<Spot>)
    requires text == [97, 98, 99] && spots == [Spot(0, 0), Spot(1, 1), Spot(3, 0)]
    ensures Chosen(StarOf(98), text, spots)
  {
    forall i: nat, n: nat, hat
      ensures MatchAt(StarOf(98), text, i, n, hat) <==> i <= 3 && (n == 0 || (i == 1 && n == 1))
    {
      StarMatch(98, text, i, n, hat);
      assert n > 0 && i + n <= 3 ==> (text[i] == 98 <==> i == 1) && (text[i + n - 1] == 98 <==> i + n == 2);
    }
    assert LongestAt(StarOf(98), text, 2, 0, false);
    forall k: nat | k <= 3 ensures TakenBySome(StarOf(98), text, spots, k) {
      if k == 0 { TakenAt(StarOf(98), text, spots, k, 0); }
      else if k < 3 { TakenAt(StarOf(98), text, spots, k, 1); }
      else { TakenAt(StarOf(98), text, spots, k, 2); }
    }
  }

  lemma TakenAt(r: Re, text: seq<nat>, spots: seq<Spot>, k: nat, i: nat)
    requires i < |spots| && Takes(r, text, spots[i], k)
    ensures TakenBySome(r, text, spots, k)
  {
  }
}
