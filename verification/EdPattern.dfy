/** Patterns of the ed-style matcher (regexp.h) as lists of items, and what it means for them to match. */
module EdPattern {
  import opened Basics

  const NUL: byte := 0
  const NEWLINE: byte := 10
  const DASH: byte := 45

  /** One step through a bracket list: a byte, or a dash and a byte that end a span. */
  datatype Elem = Single(c: byte) | To(c: byte)

  datatype Atom =
    | Lit(c: byte) | Any | Set(neg: bool, elems: seq<Elem>, dash: bool)
    | Open(k: nat) | Close(k: nat) | Back(k: nat) | End

  datatype Quant = Once | Many | Times(least: byte, most: byte)

  datatype Item = Item(atom: Atom, quant: Quant)

  datatype Option<T> = None | Some(value: T)

  // ------------------------------------------------------------------ one byte

  predicate Covers(elems: seq<Elem>, i: nat, x: int)
    requires i < |elems|
  {
    x == elems[i].c || (elems[i].To? && i > 0 && elems[i - 1].c <= x <= elems[i].c)
  }

  /** The bytes of a bracket list, before any negation. */
  predicate InList(elems: seq<Elem>, dash: bool, x: int) {
    (dash && x == DASH) || exists i: nat :: i < |elems| && Covers(elems, i, x)
  }

  predicate Simple(a: Atom) { a.Lit? || a.Any? || a.Set? }

  /** The bytes of text that an atom stands for; the terminator is never one. */
  predicate Accepts(a: Atom, x: byte) {
    x != NUL &&
    match a
    case Lit(c) => x == c
    case Any => true
    case Set(neg, elems, dash) => InList(elems, dash, x) != neg
    case _ => false
  }

  function Least(q: Quant): nat {
    match q case Once => 1 case Many => 0 case Times(least, _) => least
  }

  /** The most repetitions in a text of the given length; an open interval stops at `cap` more than its
    * least, so that a cap as large as the text is no limit. */
  function Most(cap: nat, q: Quant, length: nat): nat {
    match q
    case Once => 1
    case Many => length
    case Times(least, most) => if most == 255 then least + cap else most
  }

  // ------------------------------------------------------------------ whole patterns

  /** A text; its terminator is not part of it. */
  ghost predicate Text(t: seq<byte>) { forall i :: 0 <= i < |t| ==> t[i] != NUL }

  /** The place in a pattern of an atom that occurs there. */
  function Find(items: seq<Item>, a: Atom): (i: nat)
    ensures i <= |items|
    ensures i < |items| ==> items[i].atom == a
    ensures forall j :: 0 <= j < i ==> items[j].atom != a
  {
    if items == [] || items[0].atom == a then 0 else 1 + Find(items[1..], a)
  }

  /** Groups are opened and closed once each and referred to only after they have been opened; intervals are on
    * single-byte atoms, and stars on these and on references; the end of the text comes last. */
  ghost predicate Regular(items: seq<Item>) {
    forall i :: 0 <= i < |items| ==> RegularAt(items, i)
  }

  ghost predicate RegularAt(items: seq<Item>, i: nat)
    requires i < |items|
  {
    match items[i].atom
    case Open(k) => items[i].quant == Once && k < 9 && Find(items, Open(k)) == i
    case Close(k) => items[i].quant == Once && k < 9 && Find(items, Close(k)) == i && Find(items, Open(k)) < i
    case Back(k) => !items[i].quant.Times? && k < 9 && Find(items, Open(k)) < i
    case End => items[i].quant == Once && i == |items| - 1
    case _ => Interval(items[i].quant)
  }

  predicate Interval(q: Quant) { q.Times? ==> q.least <= q.most && q.least < 255 }

  predicate Nonzero(elems: seq<Elem>) { forall i :: 0 <= i < |elems| ==> elems[i].c != NUL }

  /** Item i can take the text from ps[i] to q, where ps says where the items before it began. */
  ghost predicate Reaches(cap: nat, items: seq<Item>, t: seq<byte>, i: nat, ps: seq<nat>, q: nat)
    requires i < |items| && i < |ps|
  {
    var p := ps[i];
    q <= |t| &&
    match items[i].atom
    case Open(_) => q == p
    case Close(_) => q == p
    case End => q == p == |t|
    case Back(k) =>
      var a, b := Find(items, Open(k)), Find(items, Close(k));
      a <= b <= i &&
      if items[i].quant.Many? then Copies(t, p, q, ps[a], ps[b]) else SameText(t, p, q, ps[a], ps[b])
    case _ => Repeats(cap, items[i], t, p, q)
  }

  predicate SameText(t: seq<byte>, p: nat, q: nat, from: nat, to: nat) {
    p <= q <= |t| && from <= to <= |t| && t[p..q] == t[from..to]
  }

  /** The text from p to q is that from `from` to `to` any number of times. */
  predicate Copies(t: seq<byte>, p: nat, q: nat, from: nat, to: nat)
    decreases q - p
  {
    p <= q <= |t| && from <= to <= |t| &&
    (p == q || (from < to && p + (to - from) <= q && SameText(t, p, p + (to - from), from, to) &&
                Copies(t, p + (to - from), q, from, to)))
  }

  predicate Repeats(cap: nat, item: Item, t: seq<byte>, p: nat, q: nat) {
    && p <= q <= |t| && Least(item.quant) <= q - p <= Most(cap, item.quant, |t|)
    && forall j :: p <= j < q ==> Accepts(item.atom, t[j])
  }

  /** The next item can take the text from the last of ps to q. */
  ghost predicate Ends(cap: nat, items: seq<Item>, t: seq<byte>, ps: seq<nat>, q: nat)
    requires 0 < |ps| <= |items|
  {
    Reaches(cap, items, t, |ps| - 1, ps, q)
  }

  ghost predicate Joined(cap: nat, items: seq<Item>, t: seq<byte>, ps: seq<nat>, i: nat)
    requires i + 1 < |ps| <= |items| + 1
  {
    Reaches(cap, items, t, i, ps, ps[i + 1])
  }

  /** The first items of a pattern, laid end to end over the text from ps[0] on. */
  ghost predicate Tiles(cap: nat, items: seq<Item>, t: seq<byte>, ps: seq<nat>) {
    && 0 < |ps| <= |items| + 1 && ps[0] <= |t|
    && forall i :: 0 <= i < |ps| - 1 ==> Joined(cap, items, t, ps, i)
  }

  /** A match of the whole pattern. */
  ghost predicate Tiling(cap: nat, items: seq<Item>, t: seq<byte>, ps: seq<nat>) {
    |ps| == |items| + 1 && Tiles(cap, items, t, ps)
  }

  /** The pattern matches somewhere beginning at p. */
  ghost predicate MatchesAt(cap: nat, items: seq<Item>, t: seq<byte>, p: nat) {
    exists ps :: Tiling(cap, items, t, ps) && ps[0] == p
  }

  // r is r' or goes further than r' where they first part.
  ghost predicate Prefers(r: seq<nat>, r': seq<nat>) {
    r == r' || exists i :: 0 <= i < |r| && i < |r'| && r[..i] == r'[..i] && r[i] > r'[i]
  }

  // ------------------------------------------------------------------ the greedy match

  /** The match that a search trying longer pieces first comes upon, given where the first items lie. */
  ghost function Best(cap: nat, items: seq<Item>, t: seq<byte>, ps: seq<nat>): Option<seq<nat>>
    requires 0 < |ps| <= |items| + 1
    decreases |items| - |ps|, |t| + 1
  {
    if |ps| == |items| + 1 then Some(ps) else BestUpTo(cap, items, t, ps, |t|)
  }

  ghost function BestUpTo(cap: nat, items: seq<Item>, t: seq<byte>, ps: seq<nat>, q: int): Option<seq<nat>>
    requires 0 < |ps| <= |items| && q <= |t|
    decreases |items| - |ps|, q
  {
    if q < 0 then None
    else if Ends(cap, items, t, ps, q) && Best(cap, items, t, ps + [q]).Some? then Best(cap, items, t, ps + [q])
    else BestUpTo(cap, items, t, ps, q - 1)
  }

  lemma ReachesMore(cap: nat, items: seq<Item>, t: seq<byte>, i: nat, ps: seq<nat>, more: seq<nat>, q: nat)
    requires i < |items| && i < |ps| <= |more| && more[..|ps|] == ps
    ensures Reaches(cap, items, t, i, ps, q) <==> Reaches(cap, items, t, i, more, q)
  {
    assert forall j :: 0 <= j < |ps| ==> more[j] == ps[j];
  }

  lemma TilesSnoc(cap: nat, items: seq<Item>, t: seq<byte>, ps: seq<nat>, q: nat)
    requires Tiles(cap, items, t, ps) && |ps| <= |items|
    ensures Tiles(cap, items, t, ps + [q]) <==> Ends(cap, items, t, ps, q)
  {
    var more := ps + [q];
    assert more[..|ps|] == ps;
    forall i | 0 <= i < |ps| - 1 ensures Joined(cap, items, t, more, i) <==> Joined(cap, items, t, ps, i) {
      ReachesMore(cap, items, t, i, ps, more, more[i + 1]);
    }
    var last := |ps| - 1;
    ReachesMore(cap, items, t, last, ps, more, q);
    assert Tiles(cap, items, t, more) ==> Joined(cap, items, t, more, last);
  }

  /** The greedy match is a match. */
  lemma {:induction false} BestTiles(cap: nat, items: seq<Item>, t: seq<byte>, ps: seq<nat>)
    requires Tiles(cap, items, t, ps)
    ensures var b := Best(cap, items, t, ps);
      b.Some? ==> Tiling(cap, items, t, b.value) && b.value[..|ps|] == ps
    decreases |items| - |ps|, |t| + 1
  {
    if |ps| <= |items| { BestUpToTiles(cap, items, t, ps, |t|); }
  }

  lemma {:induction false} BestUpToTiles(cap: nat, items: seq<Item>, t: seq<byte>, ps: seq<nat>, q: int)
    requires Tiles(cap, items, t, ps) && |ps| <= |items| && q <= |t|
    ensures var b := BestUpTo(cap, items, t, ps, q);
      b.Some? ==> Tiling(cap, items, t, b.value) && b.value[..|ps|] == ps
    decreases |items| - |ps|, q
  {
    if q >= 0 {
      if Ends(cap, items, t, ps, q) {
        TilesSnoc(cap, items, t, ps, q);
        BestTiles(cap, items, t, ps + [q]);
        var b := Best(cap, items, t, ps + [q]);
        assert b.Some? ==> b.value[..|ps|] == b.value[..|ps + [q]|][..|ps|];
      }
      BestUpToTiles(cap, items, t, ps, q - 1);
    }
  }

  /** There is a greedy match if there is any, and it is preferred to every other. */
  lemma {:induction false} BestIsPreferred(cap: nat, items: seq<Item>, t: seq<byte>, ps: seq<nat>, r: seq<nat>)
    requires Tiles(cap, items, t, ps) && Tiling(cap, items, t, r) && r[..|ps|] == ps
    ensures Best(cap, items, t, ps).Some? && Prefers(Best(cap, items, t, ps).value, r)
    decreases |items| - |ps|, |t| + 1
  {
    if |ps| <= |items| {
      var i := |ps| - 1;
      assert Joined(cap, items, t, r, i);
      BestUpToIsPreferred(cap, items, t, ps, r, |t|);
    } else {
      assert r == ps;
    }
  }

  lemma {:induction false} BestUpToIsPreferred(cap: nat, items: seq<Item>, t: seq<byte>, ps: seq<nat>, r: seq<nat>,
                                               q: int)
    requires Tiles(cap, items, t, ps) && Tiling(cap, items, t, r) && r[..|ps|] == ps
    requires |ps| <= |items| && r[|ps|] <= q <= |t|
    ensures BestUpTo(cap, items, t, ps, q).Some? && Prefers(BestUpTo(cap, items, t, ps, q).value, r)
    decreases |items| - |ps|, q
  {
    var n := |ps|;
    var b := Best(cap, items, t, ps + [q]);
    if q == r[n] {
      assert Joined(cap, items, t, r, n - 1);
      ReachesMore(cap, items, t, n - 1, ps, r, q);
      TilesSnoc(cap, items, t, ps, q);
      assert r[..n + 1] == ps + [q];
      BestIsPreferred(cap, items, t, ps + [q], r);
    } else if Ends(cap, items, t, ps, q) && b.Some? {
      TilesSnoc(cap, items, t, ps, q);
      BestTiles(cap, items, t, ps + [q]);
      assert b.value[n] == (ps + [q])[n] && b.value[..n] == b.value[..n + 1][..n] == ps;
    } else {
      BestUpToIsPreferred(cap, items, t, ps, r, q - 1);
    }
  }

  /** The greedy match beginning at p exists exactly when the pattern matches there. */
  lemma BestFinds(cap: nat, items: seq<Item>, t: seq<byte>, p: nat)
    requires p <= |t|
    ensures Best(cap, items, t, [p]).Some? <==> MatchesAt(cap, items, t, p)
    ensures Best(cap, items, t, [p]).Some? ==>
      (var b := Best(cap, items, t, [p]).value;
       Tiling(cap, items, t, b) && b[0] == p && forall r :: Tiling(cap, items, t, r) && r[0] == p ==> Prefers(b, r))
  {
    BestTiles(cap, items, t, [p]);
    forall r | Tiling(cap, items, t, r) && r[0] == p
      ensures Best(cap, items, t, [p]).Some? && Prefers(Best(cap, items, t, [p]).value, r)
    {
      assert r[..1] == [p];
      BestIsPreferred(cap, items, t, [p], r);
    }
    if Best(cap, items, t, [p]).Some? {
      var b := Best(cap, items, t, [p]).value;
      assert b[0] == b[..1][0] == p;
    }
  }

  // ------------------------------------------------------------------ open intervals

  /** What a pattern means: an interval without upper bound has none. */
  ghost predicate Means(items: seq<Item>, t: seq<byte>, p: nat) { MatchesAt(|t|, items, t, p) }

  predicate IsOpen(q: Quant) { q.Times? && q.most == 255 }

  /** No open interval takes more than `cap` repetitions above its least. */
  ghost predicate Short(cap: nat, items: seq<Item>, ps: seq<nat>) {
    |ps| == |items| + 1 && forall i :: 0 <= i < |items| ==> ShortAt(cap, items, ps, i)
  }

  predicate ShortAt(cap: nat, items: seq<Item>, ps: seq<nat>, i: nat)
    requires i < |items| && i + 1 < |ps|
  {
    Simple(items[i].atom) && IsOpen(items[i].quant) ==> ps[i + 1] <= ps[i] + items[i].quant.least + cap
  }

  lemma JoinedShort(cap: nat, items: seq<Item>, t: seq<byte>, ps: seq<nat>, i: nat)
    requires i + 1 < |ps| <= |items| + 1
    ensures Joined(cap, items, t, ps, i) <==>
            Joined(|t|, items, t, ps, i) && (ps[i + 1] > |t| || ShortAt(cap, items, ps, i))
  {
  }

  /** The matches under a cap are the matches whose open intervals stay below it. */
  lemma CapKeepsShort(cap: nat, items: seq<Item>, t: seq<byte>, ps: seq<nat>)
    ensures Tiling(cap, items, t, ps) <==> Tiling(|t|, items, t, ps) && Short(cap, items, ps)
  {
    if |ps| == |items| + 1 {
      forall i | 0 <= i < |items|
        ensures Joined(cap, items, t, ps, i) <==> Joined(|t|, items, t, ps, i) && ShortAt(cap, items, ps, i)
      {
        JoinedShort(cap, items, t, ps, i);
      }
    }
  }

  /** With a cap, a pattern matches exactly where it has a match whose open intervals stay below the cap. */
  lemma CapMatchesWhenShort(cap: nat, items: seq<Item>, t: seq<byte>, p: nat)
    ensures MatchesAt(cap, items, t, p) <==>
      exists ps :: Tiling(|t|, items, t, ps) && ps[0] == p && Short(cap, items, ps)
  {
    forall ps ensures Tiling(cap, items, t, ps) <==> Tiling(|t|, items, t, ps) && Short(cap, items, ps) {
      CapKeepsShort(cap, items, t, ps);
    }
  }

  /** In a text no longer than the cap there is no difference. */
  lemma CapAllowsShortTexts(cap: nat, items: seq<Item>, t: seq<byte>, p: nat)
    requires |t| <= cap
    ensures MatchesAt(cap, items, t, p) <==> Means(items, t, p)
  {
    forall ps ensures Tiling(cap, items, t, ps) <==> Tiling(|t|, items, t, ps) {
      CapKeepsShort(cap, items, t, ps);
      if Tiling(|t|, items, t, ps) {
        forall i | 0 <= i < |items| ensures ShortAt(cap, items, ps, i) { assert Joined(|t|, items, t, ps, i); }
      }
    }
  }

  /** How many bytes from p on an atom takes in a row. */
  function RunLength(a: Atom, t: seq<byte>, p: nat): (n: nat)
    requires p <= |t|
    ensures p + n <= |t| && (forall j :: p <= j < p + n ==> Accepts(a, t[j]))
    ensures p + n < |t| ==> !Accepts(a, t[p + n])
    decreases |t| - p
  {
    if p == |t| || !Accepts(a, t[p]) then 0 else 1 + RunLength(a, t, p + 1)
  }

  /** For one open interval: the cap changes the ends it may have exactly when more bytes than the cap
    * allows stand in a row. */
  lemma CapAllowsRun(cap: nat, items: seq<Item>, t: seq<byte>, ps: seq<nat>)
    requires 0 < |ps| <= |items| && ps[|ps| - 1] <= |t|
    requires Simple(items[|ps| - 1].atom) && IsOpen(items[|ps| - 1].quant)
    ensures (forall q: nat :: Ends(cap, items, t, ps, q) <==> Ends(|t|, items, t, ps, q))
      <==> RunLength(items[|ps| - 1].atom, t, ps[|ps| - 1]) <= items[|ps| - 1].quant.least + cap
  {
    var item, p := items[|ps| - 1], ps[|ps| - 1];
    var run := RunLength(item.atom, t, p);
    var q := p + item.quant.least + cap + 1;
    if run > item.quant.least + cap {
      assert Ends(|t|, items, t, ps, q) && !Ends(cap, items, t, ps, q);
    } else {
      forall q: nat ensures Ends(|t|, items, t, ps, q) ==> q <= p + run {
        if p + run < q <= |t| { assert !Accepts(item.atom, t[p + run]); }
      }
    }
  }

  /** a\{0,\}$ on 20001 times a: with the program's cap it does not match at the beginning, as it should. */
  lemma LongRunMissed(t: seq<byte>, items: seq<Item>)
    requires t == seq(20001, _ => 97) && items == [Item(Lit(97), Times(0, 255)), Item(End, Once)]
    ensures Means(items, t, 0) && !MatchesAt(20000, items, t, 0)
  {
    var whole := [0, 20001, 20001];
    assert Joined(|t|, items, t, whole, 0) && Joined(|t|, items, t, whole, 1);
    assert Tiling(|t|, items, t, whole);
    forall ps | Tiling(20000, items, t, ps) ensures ps[0] != 0 {
      assert Joined(20000, items, t, ps, 0) && Joined(20000, items, t, ps, 1);
    }
  }

  // ------------------------------------------------------------------ searches that come to no good

  /** How a search goes: it comes to its outcome; or it compares nothing with nothing for ever; or it goes
    * beyond the terminator of the text, or reads the end of a group that has not got one. */
  datatype Course = Sound | Endless | Astray

  /** The bytes of a list or a literal that let the terminator through. */
  predicate TakesNul(a: Atom) {
    match a
    case Lit(c) => c == NUL
    case Set(neg, elems, _) => !neg && !Nonzero(elems)
    case _ => false
  }

  // The next item is a starred reference to a group that has taken no text.
  ghost predicate Idle(items: seq<Item>, ps: seq<nat>)
    requires 0 < |ps| <= |items|
  {
    var item := items[|ps| - 1];
    item.atom.Back? && item.quant.Many? &&
    var a, b := Find(items, Open(item.atom.k)), Find(items, Close(item.atom.k));
    a <= b < |ps| && ps[a] == ps[b]
  }

  /** Item i is a reference to a group that is still open there. */
  predicate Unset(items: seq<Item>, i: nat)
    requires i < |items|
  {
    items[i].atom.Back? && !(Find(items, Open(items[i].atom.k)) <= Find(items, Close(items[i].atom.k)) < i)
  }

  // The item lets the terminator through, and would take everything from p up to it.
  predicate Overruns(cap: nat, item: Item, t: seq<byte>, p: nat) {
    && TakesNul(item.atom) && p <= |t| && |t| - p < Most(cap, item.quant, |t| + 1)
    && forall j :: p <= j < |t| ==> Accepts(item.atom, t[j])
  }

  /** How it goes with the next item. */
  ghost function Turn(cap: nat, items: seq<Item>, t: seq<byte>, ps: seq<nat>): Course
    requires 0 < |ps| <= |items|
  {
    if Unset(items, |ps| - 1) || Overruns(cap, items[|ps| - 1], t, ps[|ps| - 1]) then Astray
    else if Idle(items, ps) then Endless
    else Sound
  }

  /** How the search goes, given where the first items lie: trouble counts when it is met before a match. */
  ghost function Going(cap: nat, items: seq<Item>, t: seq<byte>, ps: seq<nat>): Course
    requires 0 < |ps| <= |items| + 1
    decreases |items| - |ps|, |t| + 1
  {
    if |ps| == |items| + 1 then Sound
    else if Turn(cap, items, t, ps) != Sound then Turn(cap, items, t, ps)
    else GoingUpTo(cap, items, t, ps, |t|)
  }

  ghost function GoingUpTo(cap: nat, items: seq<Item>, t: seq<byte>, ps: seq<nat>, q: int): Course
    requires 0 < |ps| <= |items| && q <= |t|
    decreases |items| - |ps|, q
  {
    if q < 0 then Sound
    else if Ends(cap, items, t, ps, q) && Going(cap, items, t, ps + [q]) != Sound then Going(cap, items, t, ps + [q])
    else if Ends(cap, items, t, ps, q) && Best(cap, items, t, ps + [q]).Some? then Sound
    else GoingUpTo(cap, items, t, ps, q - 1)
  }

  lemma {:induction false} TilesOrdered(cap: nat, items: seq<Item>, t: seq<byte>, ps: seq<nat>, a: nat, b: nat)
    requires Tiles(cap, items, t, ps) && a <= b < |ps|
    ensures ps[a] <= ps[b] <= |t|
    decreases b
  {
    if b > 0 {
      assert Joined(cap, items, t, ps, b - 1);
      TilesOrdered(cap, items, t, ps, if a < b then a else b - 1, b - 1);
    }
  }

  /** \(a*\)\1* does not end where no `a` stands. */
  lemma EmptyGroupHangs(cap: nat, items: seq<Item>, t: seq<byte>)
    requires items == [Item(Open(0), Once), Item(Lit(97), Many), Item(Close(0), Once), Item(Back(0), Many)]
    requires t == [] || t[0] != 97
    ensures Going(cap, items, t, [0]) == Endless
  {
    var p1: seq<nat> := [0];
    var p2 := p1 + [0];
    var p3 := p2 + [0];
    var p4 := p3 + [0];
    assert items[1..][0] == items[1] && items[1..][1..][0] == items[2];
    assert Find(items, Open(0)) == 0 && Find(items, Close(0)) == 2;
    forall r: nat | Ends(cap, items, t, p2, r) ensures r == 0 {
      assert r > 0 ==> Accepts(Lit(97), t[0]);
    }
    OnlyEnd(cap, items, t, p1, 0);
    OnlyEnd(cap, items, t, p2, 0);
    OnlyEnd(cap, items, t, p3, 0);
    assert Idle(items, p4);
  }

  // ------------------------------------------------------------------ copies of a text

  lemma {:induction false} CopiesMore(t: seq<byte>, p: nat, q: nat, from: nat, to: nat)
    requires Copies(t, p, q, from, to) && from < to && SameText(t, q, q + (to - from), from, to)
    ensures Copies(t, p, q + (to - from), from, to)
    decreases q - p
  {
    if p < q { CopiesMore(t, p + (to - from), q, from, to); }
  }

  lemma {:induction false} CopiesLess(t: seq<byte>, p: nat, q: nat, from: nat, to: nat)
    requires Copies(t, p, q, from, to) && p < q
    ensures p + (to - from) <= q && Copies(t, p, q - (to - from), from, to)
    decreases q - p
  {
    if p + (to - from) < q { CopiesLess(t, p + (to - from), q, from, to); }
  }

  // Two runs of copies differ by a whole copy at least, and none goes beyond a place where no copy follows.
  lemma {:induction false} CopiesApart(t: seq<byte>, p: nat, q: nat, r: nat, from: nat, to: nat)
    requires Copies(t, p, q, from, to) && Copies(t, p, r, from, to) && from < to
    ensures r < q ==> r + (to - from) <= q
    ensures r > q ==> SameText(t, q, q + (to - from), from, to)
    decreases q - p
  {
    if p < q && p < r { CopiesApart(t, p + (to - from), q, r, from, to); }
  }

  // ------------------------------------------------------------------ how the search may skip

  // Ends beyond `top` that cannot be reached need not be tried.
  lemma {:induction false} SkipDown(cap: nat, items: seq<Item>, t: seq<byte>, ps: seq<nat>, q: int, top: int)
    requires 0 < |ps| <= |items| && -1 <= top <= q <= |t|
    requires forall r: nat :: top < r <= q ==> !Ends(cap, items, t, ps, r)
    ensures BestUpTo(cap, items, t, ps, q) == BestUpTo(cap, items, t, ps, top)
    ensures GoingUpTo(cap, items, t, ps, q) == GoingUpTo(cap, items, t, ps, top)
    decreases q - top
  {
    if top < q { SkipDown(cap, items, t, ps, q - 1, top); }
  }

  // An item that can reach at most one end.
  lemma OnlyEnd(cap: nat, items: seq<Item>, t: seq<byte>, ps: seq<nat>, q: nat)
    requires 0 < |ps| <= |items|
    requires forall r: nat :: Ends(cap, items, t, ps, r) ==> r == q
    ensures Best(cap, items, t, ps) ==
      if Ends(cap, items, t, ps, q) then Best(cap, items, t, ps + [q]) else None
    ensures Turn(cap, items, t, ps) != Sound ||
      Going(cap, items, t, ps) == if Ends(cap, items, t, ps, q) then Going(cap, items, t, ps + [q]) else Sound
  {
    if q <= |t| {
      SkipDown(cap, items, t, ps, |t|, q);
      SkipDown(cap, items, t, ps, q - 1, -1);
    } else {
      SkipDown(cap, items, t, ps, |t|, -1);
    }
  }
}
