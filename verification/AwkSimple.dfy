/** What simple patterns match: single classes, and patterns that begin with `^` or end with `$` (b.c: pmatch). */
module AwkSimple {
  import opened AwkRegex
  import opened AwkPositions
  import opened AwkPattern
  import opened AwkTree
  import opened AwkSubset
  import opened AwkDfa
  import opened AwkMatchSpec
  import opened AwkMemory
  import opened AwkJudge
  import opened AwkSmall
  import opened AwkMatch

  // ------------------------------------------------------------------ anchors

  /** No word of r has the marker or the terminator in it. */
  ghost predicate PlainWords(r: Re) { forall w :: In(w, r) ==> HAT !in w && NUL !in w }

  lemma MarkedWord(r: Re, u: seq<nat>)
    requires PlainWords(r)
    ensures !In([HAT] + u, r) && !In(u + [NUL], r) && !In([HAT] + u + [NUL], r)
  {
    assert HAT in [HAT] + u && NUL in u + [NUL] && NUL in [HAT] + u + [NUL];
  }

  /** Such a pattern matches where one of its words stands. */
  lemma PlainMatch(r: Re, text: seq<nat>, i: nat, n: nat, hat: bool)
    requires PlainWords(r)
    ensures MatchAt(r, text, i, n, hat) <==> i + n <= |text| && In(text[i..i + n], r)
  {
    if i + n <= |text| { MarkedWord(r, text[i..i + n]); }
  }

  // Words that begin with the marker.
  lemma CaretWord(r: Re, w: seq<nat>)
    ensures In(w, Cat(Unit(Char(HAT)), r)) <==> w != [] && w[0] == HAT && In(w[1..], r)
  {
    var caret := Unit(Char(HAT));
    if In(w, Cat(caret, r)) {
      var k := CatElim(w, caret, r);
      LeafLength(Char(HAT), w[..k]);
    }
    if w != [] && w[0] == HAT && In(w[1..], r) {
      CatIntro([HAT], w[1..], caret, r);
      assert w == [HAT] + w[1..];
    }
  }

  // Words that end with the terminator.
  lemma DollarWord(r: Re, w: seq<nat>)
    ensures In(w, Cat(r, Unit(Char(NUL)))) <==> w != [] && w[|w| - 1] == NUL && In(w[..|w| - 1], r)
  {
    var dollar := Unit(Char(NUL));
    if In(w, Cat(r, dollar)) {
      var k := CatElim(w, r, dollar);
      LeafLength(Char(NUL), w[k..]);
    }
    if w != [] && w[|w| - 1] == NUL && In(w[..|w| - 1], r) {
      CatIntro(w[..|w| - 1], [NUL], r, dollar);
      assert w == w[..|w| - 1] + [NUL];
    }
  }

  /** `^` before it: only where the marker stands. */
  lemma CaretMatch(r: Re, text: seq<nat>, i: nat, n: nat, hat: bool)
    requires PlainWords(r) && IsText(text)
    ensures MatchAt(Cat(Unit(Char(HAT)), r), text, i, n, hat) <==> hat && i + n <= |text| && In(text[i..i + n], r)
  {
    if i + n <= |text| {
      var u := text[i..i + n];
      assert n > 0 ==> u[0] in text;
      MarkedWord(r, u);
      assert ([HAT] + u)[1..] == u && ([HAT] + u + [NUL])[1..] == u + [NUL];
      CaretWord(r, u);
      CaretWord(r, [HAT] + u);
      CaretWord(r, u + [NUL]);
      CaretWord(r, [HAT] + u + [NUL]);
    }
  }

  lemma DollarSuffix(r: Re, v: seq<nat>)
    ensures In(v + [NUL], Cat(r, Unit(Char(NUL)))) <==> In(v, r)
  {
    DollarWord(r, v + [NUL]);
    assert (v + [NUL])[..|v|] == v;
  }

  /** `$` behind it: only up to the end of the text. */
  lemma DollarMatch(r: Re, text: seq<nat>, i: nat, n: nat, hat: bool)
    requires PlainWords(r) && IsText(text)
    ensures MatchAt(Cat(r, Unit(Char(NUL))), text, i, n, hat) <==> i + n == |text| && In(text[i..], r)
  {
    if i + n <= |text| {
      var u := text[i..i + n];
      if n > 0 { assert u[n - 1] == text[i + n - 1] && text[i + n - 1] in text; }
      MarkedWord(r, u);
      DollarWord(r, u);
      DollarWord(r, [HAT] + u);
      DollarSuffix(r, u);
      DollarSuffix(r, [HAT] + u);
      if i + n == |text| { assert text[i..] == u; }
    }
  }

  // ------------------------------------------------------------------ one leaf

  /** The first character of the text that the leaf matches. */
  ghost predicate FirstOfLeaf(l: Leaf, text: seq<nat>, from: nat, found: bool, b: nat, n: int) {
    if found then
      && from <= b < |text| && n == 1 && In([text[b]], Unit(l))
      && forall i :: from <= i < b ==> !In([text[i]], Unit(l))
    else forall i :: from <= i < |text| ==> !In([text[i]], Unit(l))
  }

  lemma LeafMatchAt(l: Leaf, text: seq<nat>, i: nat, n: nat, hat: bool)
    requires l != Ccl([]) && !In([HAT], Unit(l)) && !In([NUL], Unit(l))
    ensures MatchAt(Unit(l), text, i, n, hat) <==> n == 1 && i < |text| && In([text[i]], Unit(l))
  {
    if i + n <= |text| {
      var u := text[i..i + n];
      LeafLength(l, u);
      LeafLength(l, [HAT] + u);
      LeafLength(l, u + [NUL]);
      LeafLength(l, [HAT] + u + [NUL]);
      assert n == 1 ==> u == [text[i]];
      assert n == 0 ==> [HAT] + u == [HAT] && u + [NUL] == [NUL];
    }
  }

  /** A leaf by itself, other than an anchor: the right answer is the first character that it matches. */
  lemma LeafAnswers(l: Leaf, text: seq<nat>, from: nat, hat: bool, found: bool, b: nat, n: int)
    requires l != Ccl([]) && !In([HAT], Unit(l)) && !In([NUL], Unit(l)) && from <= |text|
    requires Answers(Unit(l), text, from, hat, found, b, n)
    ensures FirstOfLeaf(l, text, from, found, b, n)
  {
    forall i: nat, m: nat, h
      ensures MatchAt(Unit(l), text, i, m, h) <==> m == 1 && i < |text| && In([text[i]], Unit(l))
    {
      LeafMatchAt(l, text, i, m, h);
    }
    forall i: nat | from <= i < |text| && !MatchesFrom(Unit(l), text, from, hat, i)
      ensures !In([text[i]], Unit(l))
    {
      assert !MatchAt(Unit(l), text, i, 1, hat && i == from);
    }
  }

  // The states of such a pattern.
  lemma LeafSteps(re: Automaton, l: Leaf, c: nat)
    requires Compiled(re, Unit(l))
    ensures Next(re, [1], c) == [2] || Next(re, [1], c) == []
    ensures Next(re, [2], c) == []
  {
    assert Elems(re[1].follow) == {2} && Elems([1]) == {1} && Elems([2]) == {2};
    assert 2 in Elems(re[1].follow);
    var s := StepSet(re, {1}, c);
    forall j ensures j in s <==> j == 2 && Consumes(re[1].leaf, c) {
      if j in s { assert j in Elems(re[1].follow); }
    }
    assert s == if Consumes(re[1].leaf, c) then {2} else {};
    OneOfThree(2);
    NothingDescending(3);
    assert StepSet(re, {2}, c) == {};
  }

  lemma OneOfThree(k: nat)
    requires 1 <= k <= 2
    ensures Descending(3, {k}) == [k]
  {
    assert Descending(1, {k}) == Descending(0, {k}) == [];
    assert Descending(2, {k}) == if k == 1 then [1] + Descending(1, {k}) else Descending(1, {k});
    assert Descending(3, {k}) == if k == 2 then [2] + Descending(2, {k}) else Descending(2, {k});
  }

  lemma LeafStarts(re: Automaton, l: Leaf)
    requires Compiled(re, Unit(l)) && l != Ccl([]) && !In([HAT], Unit(l))
    ensures AnchoredList(re) == [1] && HatList(re) == [1]
  {
    TrimmedLists(re);
    LeafAfterHat(re, l);
    JustOne(AnchoredList(re));
    JustOne(HatList(re));
  }

  lemma JustOne(l: seq<nat>)
    requires Stored(l, 3) && Elems(l) == {1}
    ensures l == [1]
  {
    OneOfThree(1);
  }

  lemma LeafAfterHat(re: Automaton, l: Leaf)
    requires Compiled(re, Unit(l)) && l != Ccl([]) && !In([HAT], Unit(l))
    ensures AnchoredStart(re) == {1} && HatStart(re) == {1}
  {
    HatStartParts(re, Unit(l));
    assert Enter(Unit(l), 1, {2}) == {1};
    LeafSkipsHat(re, l);
  }

  lemma LeafSkipsHat(re: Automaton, l: Leaf)
    requires Compiled(re, Unit(l)) && !In([HAT], Unit(l))
    ensures StepSet(re, {1}, HAT) == {}
  {
  }

  /** Its automaton never needs more than three states. */
  lemma LeafIsSmall(re: Automaton, l: Leaf)
    requires Compiled(re, Unit(l)) && l != Ccl([]) && !In([HAT], Unit(l))
    ensures Small(MachineOf(re, true))
  {
    MachineFacts(re, true);
    LeafStarts(re, l);
    forall k, c: nat | k in {[], [1], [2]} ensures Next(re, k, c) in {[], [1], [2]} { LeafClosed(re, l, k, c); }
    ThreeLists(MachineOf(re, true), {[], [1], [2]});
  }

  lemma ThreeLists(a: Machine, s: set<seq<nat>>)
    requires s == {[], [1], [2]} && a.plain == a.hat == [1] && forall k, c: nat :: k in s ==> a.next(k, c) in s
    ensures Small(a)
  {
    ClosedCovers(a, s);
  }

  lemma LeafClosed(re: Automaton, l: Leaf, k: seq<nat>, c: nat)
    requires Compiled(re, Unit(l)) && k in {[], [1], [2]}
    ensures Next(re, k, c) in {[], [1], [2]}
  {
    LeafSteps(re, l, c);
    EmptyNext(re, c);
  }

  /** Searching for one leaf, for example a character class: mkdfa and pmatch find the first character that it
    * matches, in every text. */
  method FindLeaf(p: Node, g: Globals, text: seq<nat>) returns (f: Fa, found: bool, b: nat, n: int)
    requires p.Shape() && p.tree.Unit? && p.tree.leaf != Ccl([]) && !p.tree.leaf.Final? && g.Ready() && IsText(text)
    requires !In([HAT], p.tree) && !In([NUL], p.tree)
    modifies p.Repr, g, g.setvec, g.tmpset
    ensures FirstOfLeaf(p.tree.leaf, text, 0, found, b, n)
  {
    ghost var r := p.tree;
    f := MkDfa(p, true, g);
    LeafIsSmall(f.re, r.leaf);
    found, b, n := PMatch(f, g, r, text, 0, true);
    LeafAnswers(r.leaf, text, 0, true, found, b, n);
  }

  /** A class of characters finds the first one that it lists, and its complement the first that it does not. */
  lemma ClassFinds(s: ClassString, text: seq<nat>, found: bool, b: nat, n: int)
    requires IsText(text)
    ensures FirstOfLeaf(Ccl(s), text, 0, found, b, n) <==>
            if found then b < |text| && n == 1 && text[b] in s && forall i :: 0 <= i < b ==> text[i] !in s
            else forall i :: 0 <= i < |text| ==> text[i] !in s
    ensures FirstOfLeaf(Nccl(s), text, 0, found, b, n) <==>
            if found then b < |text| && n == 1 && text[b] !in s && forall i :: 0 <= i < b ==> text[i] in s
            else forall i :: 0 <= i < |text| ==> text[i] in s
  {
    forall i | 0 <= i < |text| ensures (In([text[i]], Unit(Ccl(s))) <==> text[i] in s)
                                    && (In([text[i]], Unit(Nccl(s))) <==> text[i] !in s)
    {
      assert text[i] in text;
      LeavesMatch(text[i], 0, s);
    }
  }
}
