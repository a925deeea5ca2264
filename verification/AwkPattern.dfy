/** What the position automaton of a whole pattern accepts from each of the program's three start sets:
  * the unanchored start, the anchored start, and the anchored start after a `^`.
  */
module AwkPattern {
  import opened AwkRegex
  import opened AwkPositions

  /** The whole pattern: ALL* in front, FINAL behind. */
  function Full(r: Re): Re { Cat(Cat(Star(Unit(All)), r), Unit(Final)) }

  /** rows is the position automaton that mkdfa builds for expression r: position 0 is the ALL leaf,
    * r's leaves come next, FINAL is last. */
  ghost predicate Compiled(rows: seq<Row>, r: Re) {
    && |rows| == Leaves(r) + 2
    && rows[0].leaf == All && Elems(rows[0].follow) == {0} + Enter(r, 1, {|rows| - 1})
    && Agrees(rows, r, 1, {|rows| - 1})
    && rows[|rows| - 1] == Row(Final, [])
  }

  lemma NoElems(s: seq<nat>)
    ensures Elems(s) == {} ==> s == []
  {
    if s != [] { assert s[0] in Elems(s); }
  }

  // The passes over the whole tree produce exactly that.
  lemma FullCompiles(rows: seq<Row>, r: Re)
    requires |rows| == Leaves(Full(r)) && Agrees(rows, Full(r), 0, {})
    ensures Compiled(rows, r)
  {
    var acc := |rows| - 1;
    var all := Star(Unit(All));
    assert Leaves(all) == 1 && Leaves(Cat(all, r)) == 1 + Leaves(r);
    assert Enter(Unit(Final), acc, {}) == {acc};
    assert Agrees(rows, Cat(all, r), 0, {acc}) && Agrees(rows, Unit(Final), acc, {});
    var k := Enter(r, 1, {acc});
    assert Agrees(rows, all, 0, k);
    assert Agrees(rows, Unit(All), 0, First(Unit(All), 0) + k);
    NoElems(rows[acc].follow);
  }

  function Accept(rows: seq<Row>): int { |rows| - 1 }

  // The unanchored start: the followers of the ALL leaf.
  function Start(rows: seq<Row>): set<nat>
    requires |rows| > 0
  {
    Elems(rows[0].follow)
  }

  // The anchored start leaves out position 0, so no symbol can be skipped.
  function AnchoredStart(rows: seq<Row>): set<nat>
    requires |rows| > 0
  {
    Start(rows) - {0}
  }

  // The anchored start once the HAT marker has been read.
  function HatStart(rows: seq<Row>): set<nat>
    requires |rows| > 0
  {
    StepSet(rows, Start(rows), HAT) - {0}
  }

  ghost predicate Accepts(rows: seq<Row>, s: set<nat>, w: seq<nat>) {
    |rows| > 0 && Accept(rows) in RunSet(rows, s, w)
  }

  // Only the empty word is accepted from the accepting position.
  lemma AcceptingOnly(rows: seq<Row>, r: Re, w: seq<nat>)
    requires Compiled(rows, r)
    ensures Acc(rows, |rows| - 1, {|rows| - 1}, w) <==> w == []
  {
    if w == [] { assert AccFrom(rows, |rows| - 1, |rows| - 1, w); }
  }

  // Reading a word of r and stopping is reading a word of r and then accepting.
  lemma SplitsOff(rows: seq<Row>, r: Re, w: seq<nat>)
    requires Compiled(rows, r)
    ensures Splits(rows, |rows| - 1, r, {|rows| - 1}, w, 0) <==> In(w, r)
  {
    var acc := |rows| - 1;
    forall m | 0 <= m <= |w|
      ensures SplitsAt(rows, acc, r, {acc}, w, m) <==> m == |w| && In(w, r)
    {
      AcceptingOnly(rows, r, w[m..]);
      assert w[..|w|] == w;
    }
    if In(w, r) { assert SplitsAt(rows, acc, r, {acc}, w, |w|); }
  }

  /** Anchored matching: exactly the words of r are accepted. */
  lemma AnchoredAccepts(rows: seq<Row>, r: Re, w: seq<nat>)
    requires Compiled(rows, r)
    ensures Accepts(rows, AnchoredStart(rows), w) <==> In(w, r)
  {
    var acc := |rows| - 1;
    assert AnchoredStart(rows) == Enter(r, 1, {acc});
    RunIsAcc(rows, acc, AnchoredStart(rows), w);
    EnterReads(rows, acc, r, 1, {acc}, w);
    SplitsOff(rows, r, w);
  }

  // Position 0 is reached only from itself.
  lemma {:induction false} FollowersAbove(rows: seq<Row>, r: Re, off: nat, k: set<nat>, i: nat)
    requires off + Leaves(r) <= |rows| && Agrees(rows, r, off, k)
    requires off > 0 && 0 !in k && off <= i < off + Leaves(r)
    ensures 0 !in rows[i].follow
  {
    match r
    case Unit(_) =>
      assert 0 !in Elems(rows[i].follow);
    case Star(b) => FollowersAbove(rows, b, off, First(b, off) + k, i);
    case Plus(b) => FollowersAbove(rows, b, off, First(b, off) + k, i);
    case Quest(b) => FollowersAbove(rows, b, off, k, i);
    case Cat(a, b) =>
      if i < off + Leaves(a) { FollowersAbove(rows, a, off, Enter(b, off + Leaves(a), k), i); }
      else { FollowersAbove(rows, b, off + Leaves(a), k, i); }
    case Or(a, b) =>
      if i < off + Leaves(a) { FollowersAbove(rows, a, off, k, i); }
      else { FollowersAbove(rows, b, off + Leaves(a), k, i); }
  }

  lemma HatStartParts(rows: seq<Row>, r: Re)
    requires Compiled(rows, r)
    ensures HatStart(rows) == AnchoredStart(rows) + StepSet(rows, AnchoredStart(rows), HAT)
  {
    forall i: nat | 1 <= i < |rows| ensures 0 !in rows[i].follow {
      if i < |rows| - 1 { FollowersAbove(rows, r, 1, {|rows| - 1}, i); }
    }
    StepHat(rows, Start(rows));
  }

  lemma StepHat(rows: seq<Row>, s: set<nat>)
    requires |rows| > 0 && rows[0].leaf == All && 0 in s && Elems(rows[0].follow) == s
    requires forall i: nat | 1 <= i < |rows| :: 0 !in rows[i].follow
    ensures StepSet(rows, s, HAT) - {0} == (s - {0}) + StepSet(rows, s - {0}, HAT)
  {
    var lhs, rhs := StepSet(rows, s, HAT) - {0}, (s - {0}) + StepSet(rows, s - {0}, HAT);
    forall j | j in lhs ensures j in rhs {
      var i :| i in s && i < |rows| && Consumes(rows[i].leaf, HAT) && j in rows[i].follow;
      if i == 0 { assert j in Elems(rows[0].follow); } else { assert i in s - {0}; }
    }
    forall j | j in rhs ensures j in lhs {
      if j in s - {0} { assert j in rows[0].follow; }
    }
  }

  // A step and then a run is one longer run.
  lemma StepThenAccepts(rows: seq<Row>, s: set<nat>, c: nat, w: seq<nat>)
    requires |rows| > 0
    ensures Accepts(rows, StepSet(rows, s, c), w) <==> Accepts(rows, s, [c] + w)
  {
    assert ([c] + w)[1..] == w;
  }

  lemma AcceptsUnion(rows: seq<Row>, s: set<nat>, t: set<nat>, w: seq<nat>)
    ensures Accepts(rows, s + t, w) <==> Accepts(rows, s, w) || Accepts(rows, t, w)
  {
    if |rows| > 0 {
      RunIsAcc(rows, |rows| - 1, s + t, w);
      RunIsAcc(rows, |rows| - 1, s, w);
      RunIsAcc(rows, |rows| - 1, t, w);
    }
  }

  /** Anchored matching at the start of a text: the words of r, with or without `^` consumed first. */
  lemma HatAccepts(rows: seq<Row>, r: Re, w: seq<nat>)
    requires Compiled(rows, r)
    ensures Accepts(rows, HatStart(rows), w) <==> In(w, r) || In([HAT] + w, r)
  {
    HatStartParts(rows, r);
    AnchoredAccepts(rows, r, w);
    AnchoredAccepts(rows, r, [HAT] + w);
    StepThenAccepts(rows, AnchoredStart(rows), HAT, w);
    AcceptsUnion(rows, AnchoredStart(rows), StepSet(rows, AnchoredStart(rows), HAT), w);
  }

  // The words ALL* can read.
  lemma {:induction false} AllStar(w: seq<nat>)
    ensures InStar(w, Unit(All)) <==> NUL !in w
    decreases |w|
  {
    if w != [] {
      AllStar(w[1..]);
      assert w == [w[0]] + w[1..] && w[..1] == [w[0]];
      if InStar(w, Unit(All)) {
        var k := StarElim(w, Unit(All));
        assert k == 1;
      }
      if NUL !in w {
        StarIntro([w[0]], w[1..], Unit(All));
      }
    }
  }

  /** Some word of r ends w, and nothing before it is a terminator. */
  ghost predicate EndsWithWord(w: seq<nat>, r: Re) {
    exists m :: 0 <= m <= |w| && EndsAt(w, r, m)
  }

  ghost predicate EndsAt(w: seq<nat>, r: Re, m: nat)
    requires m <= |w|
  {
    NUL !in w[..m] && In(w[m..], r)
  }

  lemma SkipSplits(rows: seq<Row>, r: Re, w: seq<nat>)
    requires Compiled(rows, r)
    ensures Splits(rows, |rows| - 1, Star(Unit(All)), Enter(r, 1, {|rows| - 1}), w, 0) <==> EndsWithWord(w, r)
  {
    var acc := |rows| - 1;
    var k := Enter(r, 1, {acc});
    forall m | 0 <= m <= |w|
      ensures SplitsAt(rows, acc, Star(Unit(All)), k, w, m) <==> EndsAt(w, r, m)
    {
      AllStar(w[..m]);
      EnterReads(rows, acc, r, 1, {acc}, w[m..]);
      SplitsOff(rows, r, w[m..]);
    }
  }

  lemma EndsWithWordIsSkipThenWord(w: seq<nat>, r: Re)
    ensures EndsWithWord(w, r) <==> In(w, Cat(Star(Unit(All)), r))
  {
    forall m | 0 <= m <= |w| ensures EndsAt(w, r, m) <==> In(w[..m], Star(Unit(All))) && In(w[m..], r) {
      AllStar(w[..m]);
    }
    if EndsWithWord(w, r) {
      var m :| 0 <= m <= |w| && EndsAt(w, r, m);
      CatIntro(w[..m], w[m..], Star(Unit(All)), r);
      assert w[..m] + w[m..] == w;
    }
    if In(w, Cat(Star(Unit(All)), r)) {
      var m := CatElim(w, Star(Unit(All)), r);
      assert EndsAt(w, r, m);
    }
  }

  /** Unanchored matching: the automaton accepts exactly the words of ALL* r. */
  lemma UnanchoredAccepts(rows: seq<Row>, r: Re, w: seq<nat>)
    requires Compiled(rows, r)
    ensures Accepts(rows, Start(rows), w) <==> In(w, Cat(Star(Unit(All)), r))
    ensures Accepts(rows, Start(rows), w) <==> EndsWithWord(w, r)
  {
    var acc := |rows| - 1;
    var k := Enter(r, 1, {acc});
    assert Start(rows) == Enter(Star(Unit(All)), 0, k);
    assert Agrees(rows, Unit(All), 0, First(Unit(All), 0) + k);
    RunIsAcc(rows, acc, Start(rows), w);
    EnterReads(rows, acc, Star(Unit(All)), 0, k, w);
    SkipSplits(rows, r, w);
    EndsWithWordIsSkipThenWord(w, r);
  }
}
