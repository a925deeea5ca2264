/** The interpreter of the ed-style matcher: advance and step (regexp.h). */
module EdMatch {
  import opened Basics
  import opened EdPattern
  import opened EdCode

  /** The byte at lp; the text is followed by its terminator. */
  function Char(t: seq<byte>, lp: nat): byte { if lp < |t| then t[lp] else NUL }

  /** How far an interval without upper bound goes beyond its lower bound (getrnge). */
  const CAP: nat := 20000

  // The code's test of a byte is what the item accepts, and the terminator passes as the item lets it.
  ghost predicate Tests(code: seq<byte>, ep: nat, a: Atom) {
    && Testable(code, ep) && Takes(code, ep, NUL) == TakesNul(a)
    && forall c: byte :: c != NUL ==> Takes(code, ep, c) == Accepts(a, c)
  }

  // The bytes of text from p up to q are all taken.
  predicate AllTaken(code: seq<byte>, ep: nat, t: seq<byte>, p: nat, q: nat)
    requires Testable(code, ep)
  {
    p <= q <= |t| && forall j :: p <= j < q ==> Takes(code, ep, t[j])
  }

  /** The loops of the starred operations: over the bytes taken, and one byte more. `over` tells that the
    * terminator was taken as well. */
  method RunStar(t: seq<byte>, code: seq<byte>, ep: nat, start: nat) returns (over: bool, lp: nat)
    requires Testable(code, ep) && start <= |t|
    ensures over ==> Takes(code, ep, NUL) && AllTaken(code, ep, t, start, |t|)
    ensures !over ==> lp > start && AllTaken(code, ep, t, start, lp - 1) && !Takes(code, ep, Char(t, lp - 1))
  {
    lp := start;
    while Takes(code, ep, Char(t, lp))
      invariant AllTaken(code, ep, t, start, lp)
      decreases |t| - lp
    {
      if lp == |t| { return true, lp; }
      lp := lp + 1;
    }
    over, lp := false, lp + 1;
  }

  /** The loops of the operations with an interval: `low` bytes that must be taken, then at most `more`. */
  method RunRange(t: seq<byte>, code: seq<byte>, ep: nat, start: nat, low: nat, more: nat)
    returns (over: bool, ok: bool, curlp: nat, lp: nat)
    requires Testable(code, ep) && start <= |t|
    ensures over ==> Takes(code, ep, NUL) && AllTaken(code, ep, t, start, |t|) && |t| - start < low + more
    ensures !over && ok ==>
      curlp == start + low && curlp < lp <= curlp + more + 1 && AllTaken(code, ep, t, start, lp - 1)
    ensures !over && ok ==> lp == curlp + more + 1 || !Takes(code, ep, Char(t, lp - 1))
    ensures !over && !ok ==>
      exists e :: start <= e < start + low && AllTaken(code, ep, t, start, e) && !Takes(code, ep, Char(t, e))
  {
    lp, over := start, false;
    var n: int := low;
    while n > 0
      invariant 0 <= n && lp == start + low - n && AllTaken(code, ep, t, start, lp)
    {
      if !Takes(code, ep, Char(t, lp)) { return false, false, start, lp; }
      if lp == |t| { return true, false, start, lp; }
      lp, n := lp + 1, n - 1;
    }
    curlp := lp;
    var size: int := more;
    while size > 0
      invariant 0 <= size && lp == curlp + more - size && AllTaken(code, ep, t, start, lp)
    {
      size := size - 1;
      lp := lp + 1;
      if !Takes(code, ep, Char(t, lp - 1)) { return false, true, curlp, lp; }
      if lp - 1 == |t| { return true, true, curlp, lp; }
    }
    lp := lp + 1;
    ok := true;
  }

  lemma SegTests(code: seq<byte>, items: seq<Item>, i: nat)
    requires Program(code, items) && i < |items| && Simple(items[i].atom)
    ensures Tests(code, Offset(items, i), items[i].atom)
  {
    assert LaidAt(code, items, i);
    TakesMeans(code, Offset(items, i), items[i], NUL);
    forall c: byte | c != NUL ensures Takes(code, Offset(items, i), c) == Accepts(items[i].atom, c) {
      TakesMeans(code, Offset(items, i), items[i], c);
    }
  }

  /** The bytes that the operation at ep takes up, but for an interval. */
  function Width(code: seq<byte>, ep: nat): nat
    requires ep < |code|
  {
    var op := code[ep] / 4 * 4;
    if op == CCHR then 2 else if op == CXCL then 33 else if op == CCL || op == NCCL then 17 else 1
  }

  // The operation has a star or an interval.
  predicate IsChoice(op: byte) { op % 4 != 0 && op != CBRA && op != CCEOF }

  // What the code says of the item it stands at.
  lemma Here(code: seq<byte>, items: seq<Item>, i: nat)
    requires Program(code, items) && i <= |items|
    ensures Offset(items, i) < |code|
    ensures i == |items| ==> code[Offset(items, i)] == CCEOF
    ensures i < |items| ==> RegularAt(items, i) && SegAt(code, Offset(items, i), items[i])
    ensures i < |items| ==> code[Offset(items, i)] != CCEOF
    ensures i < |items| ==> (IsChoice(code[Offset(items, i)]) <==> items[i].quant != Once)
    ensures i < |items| ==> Offset(items, i + 1) == Offset(items, i) + Size(items[i])
  {
    if i < |items| { assert LaidAt(code, items, i) && RegularAt(items, i); }
  }

  // The search from ps comes to what the search from `more` comes to.
  ghost predicate GoesOn(items: seq<Item>, t: seq<byte>, ps: seq<nat>, more: seq<nat>)
    requires 0 < |ps| <= |items| + 1 && 0 < |more| <= |items| + 1
  {
    (Best(CAP, items, t, ps), Going(CAP, items, t, ps)) == (Best(CAP, items, t, more), Going(CAP, items, t, more))
  }

  // The search from ps ends without a match.
  ghost predicate Fails(items: seq<Item>, t: seq<byte>, ps: seq<nat>)
    requires 0 < |ps| <= |items| + 1
  {
    (Best(CAP, items, t, ps), Going(CAP, items, t, ps)) == (None, Sound)
  }

  // An item that can reach one end at most: the search goes on there or fails.
  lemma OneEnd(items: seq<Item>, t: seq<byte>, ps: seq<nat>, q: nat, can: bool)
    requires Tiles(CAP, items, t, ps) && |ps| <= |items|
    requires can == Ends(CAP, items, t, ps, q) && forall r: nat :: Ends(CAP, items, t, ps, r) ==> r == q
    requires Turn(CAP, items, t, ps) == Sound
    ensures can ==> Tiles(CAP, items, t, ps + [q]) && GoesOn(items, t, ps, ps + [q])
    ensures !can ==> Fails(items, t, ps)
  {
    OnlyEnd(CAP, items, t, ps, q);
    TilesSnoc(CAP, items, t, ps, q);
  }

  // Items that take no text.
  lemma EmptyStep(items: seq<Item>, t: seq<byte>, ps: seq<nat>, can: bool)
    requires Tiles(CAP, items, t, ps) && |ps| <= |items| && ps[|ps| - 1] <= |t|
    requires var a := items[|ps| - 1].atom;
      (a.Open? && can) || (a.Close? && can) || (a.End? && can == (ps[|ps| - 1] == |t|))
    ensures var q := ps[|ps| - 1];
      && (can ==> Tiles(CAP, items, t, ps + [q]) && GoesOn(items, t, ps, ps + [q]))
      && (!can ==> Fails(items, t, ps))
  {
    OneEnd(items, t, ps, ps[|ps| - 1], can);
  }

  lemma OnceStep(items: seq<Item>, t: seq<byte>, ps: seq<nat>, can: bool)
    requires Tiles(CAP, items, t, ps) && |ps| <= |items| && ps[|ps| - 1] <= |t|
    requires Simple(items[|ps| - 1].atom) && items[|ps| - 1].quant == Once && Turn(CAP, items, t, ps) == Sound
    requires can == Accepts(items[|ps| - 1].atom, Char(t, ps[|ps| - 1]))
    ensures var q := ps[|ps| - 1] + 1;
      && (can ==> q <= |t| && Tiles(CAP, items, t, ps + [q]) && GoesOn(items, t, ps, ps + [q]))
      && (!can ==> Fails(items, t, ps))
  {
    OneEnd(items, t, ps, ps[|ps| - 1] + 1, can);
  }

  lemma BackEnds(items: seq<Item>, t: seq<byte>, ps: seq<nat>, k: nat, from: nat, ct: nat, r: nat)
    requires 0 < |ps| <= |items| && items[|ps| - 1].atom == Back(k) && !items[|ps| - 1].quant.Many?
    requires var a, b := Find(items, Open(k)), Find(items, Close(k));
      a <= b < |ps| && from == ps[a] && from + ct == ps[b] <= |t|
    ensures var p := ps[|ps| - 1];
      Ends(CAP, items, t, ps, r) <==> r == p + ct && SameText(t, p, p + ct, from, from + ct)
  {
    if SameText(t, ps[|ps| - 1], r, from, from + ct) {
      SameLength(t, ps[|ps| - 1], r, from, ct);
    }
  }

  lemma SameLength(t: seq<byte>, p: nat, q: nat, from: nat, ct: nat)
    requires SameText(t, p, q, from, from + ct)
    ensures q == p + ct
  {
    assert |t[p..q]| == |t[from..from + ct]|;
  }

  // A run of too few bytes reaches no end.
  lemma TooFew(items: seq<Item>, t: seq<byte>, ps: seq<nat>, code: seq<byte>, ep: nat)
    requires 0 < |ps| <= |items| && Tiles(CAP, items, t, ps) && Tests(code, ep, items[|ps| - 1].atom)
    requires Simple(items[|ps| - 1].atom)
    requires var p := ps[|ps| - 1];
      exists e :: p <= e < p + Least(items[|ps| - 1].quant) && AllTaken(code, ep, t, p, e) &&
                  !Takes(code, ep, Char(t, e))
    requires Text(t) && Turn(CAP, items, t, ps) == Sound
    ensures Fails(items, t, ps)
  {
    forall r: nat ensures !Ends(CAP, items, t, ps, r) {
      var p := ps[|ps| - 1];
      var e :| p <= e < p + Least(items[|ps| - 1].quant) && AllTaken(code, ep, t, p, e) && !Takes(code, ep, Char(t, e));
      assert e < |t| ==> Takes(code, ep, t[e]) == Accepts(items[|ps| - 1].atom, t[e]);
    }
    SkipDown(CAP, items, t, ps, |t|, -1);
  }

  // The ends that a run of repeated bytes leaves to try.
  lemma RunEnds(items: seq<Item>, t: seq<byte>, ps: seq<nat>, code: seq<byte>, ep: nat, curlp: nat, lp: nat)
    requires 0 < |ps| <= |items| && Tiles(CAP, items, t, ps) && Tests(code, ep, items[|ps| - 1].atom)
    requires Simple(items[|ps| - 1].atom) && Text(t)
    requires var item, p := items[|ps| - 1], ps[|ps| - 1];
      && curlp == p + Least(item.quant) < lp <= p + Most(CAP, item.quant, |t|) + 1 && AllTaken(code, ep, t, p, lp - 1)
      && (lp == p + Most(CAP, item.quant, |t|) + 1 || !Takes(code, ep, Char(t, lp - 1)))
    ensures forall r: nat :: Ends(CAP, items, t, ps, r) <==> curlp <= r < lp
  {
    var item, p := items[|ps| - 1], ps[|ps| - 1];
    assert forall j: nat :: j < |t| ==> Takes(code, ep, t[j]) == Accepts(item.atom, t[j]);
    var stop: nat := lp - 1;
    forall r: nat ensures Ends(CAP, items, t, ps, r) <==> curlp <= r < lp {
      assert p <= stop < r <= |t| && Ends(CAP, items, t, ps, r) ==> Accepts(item.atom, Char(t, stop));
    }
  }

  // A pattern that begins with a literal matches only where that byte is.
  lemma FirstByte(items: seq<Item>, t: seq<byte>, p: nat, c: byte)
    requires |items| > 0 && items[0] == Item(Lit(c), Once)
    ensures MatchesAt(CAP, items, t, p) ==> p < |t| && t[p] == c
    ensures p <= |t| && Char(t, p) != c ==> Going(CAP, items, t, [p]) == Sound
  {
    if p <= |t| && Char(t, p) != c { SkipDown(CAP, items, t, [p], |t|, -1); }
    if MatchesAt(CAP, items, t, p) {
      var ps :| Tiling(CAP, items, t, ps) && ps[0] == p;
      assert Joined(CAP, items, t, ps, 0);
    }
  }

  // At none of the places from `start` up to p does the pattern match, or come to no good.
  ghost predicate Passed(items: seq<Item>, t: seq<byte>, start: nat, p: nat) {
    forall q :: start <= q < p ==>
      !MatchesAt(CAP, items, t, q) && (q <= |t| ==> Going(CAP, items, t, [q]) == Sound)
  }

  // p is the first place that is not passed over, and the search comes to no good there.
  ghost predicate Fatal(items: seq<Item>, t: seq<byte>, circf: bool, start: nat, p: nat) {
    start <= p <= |t| && (circf ==> p == start) && Passed(items, t, start, p) && Going(CAP, items, t, [p]) != Sound
  }

  /** How it goes with step: the trouble is that of the first place that is not passed over. */
  ghost predicate StepGoes(items: seq<Item>, t: seq<byte>, circf: bool, start: nat, v: Course) {
    if v == Sound then forall p :: !Fatal(items, t, circf, start, p)
    else exists p :: Fatal(items, t, circf, start, p) && Going(CAP, items, t, [p]) == v
  }

  // The end tried decides the search.
  lemma DecidedThere(items: seq<Item>, t: seq<byte>, ps: seq<nat>, q: nat)
    requires 0 < |ps| <= |items| && q <= |t| && Ends(CAP, items, t, ps, q) && !Fails(items, t, ps + [q])
    ensures GoingUpTo(CAP, items, t, ps, q) == Going(CAP, items, t, ps + [q])
    ensures GoingUpTo(CAP, items, t, ps, q) == Sound ==>
              BestUpTo(CAP, items, t, ps, q) == Best(CAP, items, t, ps + [q]) != None
  {
  }

  // A run that takes the terminator, or does not.
  lemma RunOver(items: seq<Item>, t: seq<byte>, ps: seq<nat>, code: seq<byte>, ep: nat, stop: nat)
    requires 0 < |ps| <= |items| && Simple(items[|ps| - 1].atom) && Tests(code, ep, items[|ps| - 1].atom) && Text(t)
    requires var p, most := ps[|ps| - 1], Most(CAP, items[|ps| - 1].quant, |t| + 1);
      p <= stop <= |t| && AllTaken(code, ep, t, p, stop) && (stop - p == most || !Takes(code, ep, Char(t, stop)))
    ensures Turn(CAP, items, t, ps) == Sound
  {
    var p := ps[|ps| - 1];
    assert stop < |t| ==> Takes(code, ep, t[stop]) == Accepts(items[|ps| - 1].atom, t[stop]);
  }

  lemma RunsOver(items: seq<Item>, t: seq<byte>, ps: seq<nat>, code: seq<byte>, ep: nat)
    requires 0 < |ps| <= |items| && Simple(items[|ps| - 1].atom) && Tests(code, ep, items[|ps| - 1].atom) && Text(t)
    requires ps[|ps| - 1] <= |t| && |t| - ps[|ps| - 1] < Most(CAP, items[|ps| - 1].quant, |t| + 1)
    requires Takes(code, ep, NUL) && AllTaken(code, ep, t, ps[|ps| - 1], |t|)
    ensures Turn(CAP, items, t, ps) == Going(CAP, items, t, ps) == Astray
  {
    assert Overruns(CAP, items[|ps| - 1], t, ps[|ps| - 1]);
  }

  // What the code of a starred reference says.
  lemma StarredReference(code: seq<byte>, items: seq<Item>, i: nat)
    requires Program(code, items) && i < |items| && Offset(items, i) < |code| && code[Offset(items, i)] == CBACK + STAR
    ensures Offset(items, i) + 1 < |code| && items[i] == Item(Back(code[Offset(items, i) + 1]), Many)
    ensures RegularAt(items, i) && Offset(items, i + 1) == Offset(items, i) + 2
  {
    Here(code, items, i);
  }

  // The first loop of a starred reference.
  method RunCopies(t: seq<byte>, curlp: nat, bbeg: nat, ct: nat) returns (lp: nat)
    requires ct > 0 && curlp <= |t| && bbeg + ct <= |t|
    ensures Copies(t, curlp, lp, bbeg, bbeg + ct) && !SameText(t, lp, lp + ct, bbeg, bbeg + ct)
  {
    lp := curlp;
    while SameText(t, lp, lp + ct, bbeg, bbeg + ct)
      invariant Copies(t, curlp, lp, bbeg, bbeg + ct)
      decreases |t| - lp
    {
      CopiesMore(t, curlp, lp, bbeg, bbeg + ct);
      lp := lp + ct;
    }
  }

  // What is left to try is the copies up to lp.
  ghost predicate LeftFrom(items: seq<Item>, t: seq<byte>, ps: seq<nat>, lp: int, bbeg: nat, ct: nat)
    requires 0 < |ps| <= |items|
  {
    if lp < ps[|ps| - 1] then Fails(items, t, ps)
    else lp <= |t| && Copies(t, ps[|ps| - 1], lp, bbeg, bbeg + ct) &&
         (Best(CAP, items, t, ps), Going(CAP, items, t, ps)) ==
         (BestUpTo(CAP, items, t, ps, lp), GoingUpTo(CAP, items, t, ps, lp))
  }

  lemma LeftNext(items: seq<Item>, t: seq<byte>, ps: seq<nat>, lp: nat, bbeg: nat, ct: nat)
    requires 0 < |ps| <= |items| && ps[|ps| - 1] <= lp && ct > 0 && LeftFrom(items, t, ps, lp, bbeg, ct)
    requires forall r: nat :: Ends(CAP, items, t, ps, r) <==> Copies(t, ps[|ps| - 1], r, bbeg, bbeg + ct)
    requires Fails(items, t, ps + [lp])
    ensures LeftFrom(items, t, ps, lp - ct, bbeg, ct)
  {
    var p := ps[|ps| - 1];
    if p < lp {
      CopiesLess(t, p, lp, bbeg, bbeg + ct);
      forall r: nat | lp - ct < r <= lp - 1 ensures !Ends(CAP, items, t, ps, r) {
        if Copies(t, p, r, bbeg, bbeg + ct) { CopiesApart(t, p, lp, r, bbeg, bbeg + ct); }
      }
      SkipDown(CAP, items, t, ps, lp - 1, lp - ct);
    } else {
      SkipDown(CAP, items, t, ps, lp - 1, -1);
    }
  }

  // An interval, with getrnge's reading of its two bytes.
  method RunInterval(t: seq<byte>, code: seq<byte>, ep: nat, lp0: nat, low: byte, high: byte, ghost items: seq<Item>,
                     ghost ps: seq<nat>)
    returns (v: Course, ok: bool, curlp: nat, lp: nat)
    requires 0 < |ps| <= |items| && Tiles(CAP, items, t, ps) && lp0 == ps[|ps| - 1] <= |t| && Text(t)
    requires Tests(code, ep, items[|ps| - 1].atom) && Simple(items[|ps| - 1].atom)
    requires items[|ps| - 1].quant == Times(low, high) && low <= high
    ensures v == Turn(CAP, items, t, ps) && (v != Sound ==> Going(CAP, items, t, ps) == v)
    ensures v == Sound && !ok ==> Fails(items, t, ps)
    ensures v == Sound && ok ==> curlp == lp0 + low < lp <= lp0 + Most(CAP, Times(low, high), |t|) + 1
    ensures v == Sound && ok ==> AllTaken(code, ep, t, lp0, lp - 1)
    ensures v == Sound && ok ==>
      lp == lp0 + Most(CAP, Times(low, high), |t|) + 1 || !Takes(code, ep, Char(t, lp - 1))
  {
    var over;
    over, ok, curlp, lp := RunRange(t, code, ep, lp0, low, if high == 255 then CAP else high - low);
    if over {
      RunsOver(items, t, ps, code, ep);
      return Astray, ok, curlp, lp;
    }
    v := Sound;
    if ok {
      RunOver(items, t, ps, code, ep, lp - 1);
    } else {
      ghost var e :| lp0 <= e < lp0 + low && AllTaken(code, ep, t, lp0, e) && !Takes(code, ep, Char(t, e));
      RunOver(items, t, ps, code, ep, e);
      TooFew(items, t, ps, code, ep);
    }
  }

  /** What an entry for the end of a group holds while the group has not got one; in the program it is whatever
    * an earlier try has left. */
  const UNSET: int := -1

  // A reference still to come to a group that is open now and will be open there.
  predicate Awaited(items: seq<Item>, ps: seq<nat>, i: nat)
    requires i < |items|
  {
    Unset(items, i) && items[i].atom.k < 9 && Find(items, Open(items[i].atom.k)) + 1 < |ps|
  }

  // A reference that has been passed is to a group that was closed.
  lemma PassedIsSet(items: seq<Item>, t: seq<byte>, ps: seq<nat>, i: nat)
    requires Tiles(CAP, items, t, ps) && i + 1 < |ps|
    ensures !Unset(items, i)
  {
    assert Joined(CAP, items, t, ps, i);
  }

  class Matcher {
    var loc1: nat
    var loc2: nat
    const braslist: array<int>
    const braelist: array<int>

    ghost predicate Shape() { braslist.Length == braelist.Length == 9 && braslist != braelist }

    constructor ()
      ensures Shape() && fresh(braslist) && fresh(braelist)
    {
      loc1, loc2 := 0, 0;
      braslist, braelist := new int[9](_ => UNSET), new int[9](_ => UNSET);
    }

    /** The ends recorded are those of the groups among the items laid so far; an open group has none. */
    ghost predicate Groups(items: seq<Item>, ps: seq<nat>)
      reads braslist, braelist
    {
      && Shape() && |ps| <= |items| + 1
      && (forall i :: 0 <= i < |ps| - 1 ==> Recorded(items, ps, i))
      && (forall i {:trigger Awaited(items, ps, i)} :: 0 <= i < |items| && |ps| <= i + 1 && Awaited(items, ps, i) ==>
            braelist[items[i].atom.k] == UNSET)
    }

    ghost predicate Recorded(items: seq<Item>, ps: seq<nat>, i: nat)
      reads braslist, braelist
      requires i < |items| && i < |ps| && Shape()
    {
      match items[i].atom
      case Open(k) => k < 9 && braslist[k] == ps[i]
      case Close(k) => k < 9 && braelist[k] == ps[i]
      case _ => true
    }

    lemma GroupsPrefix(items: seq<Item>, t: seq<byte>, more: seq<nat>, ps: seq<nat>)
      requires Groups(items, more) && 0 < |ps| <= |more| && more[..|ps|] == ps && Tiles(CAP, items, t, more)
      ensures Groups(items, ps)
    {
      forall i | 0 <= i < |ps| - 1 ensures Recorded(items, ps, i) {
        assert Recorded(items, more, i) && more[i] == more[..|ps|][i];
      }
      forall i | |ps| - 1 <= i < |items| && Awaited(items, ps, i) ensures braelist[items[i].atom.k] == UNSET {
        if i < |more| - 1 { PassedIsSet(items, t, more, i); }
        assert Awaited(items, more, i);
      }
    }

    // The entry for the end of the group that an item opens has been cleared.
    ghost predicate Cleared(item: Item)
      reads braelist
      requires Shape()
    {
      item.atom.Open? ==> item.atom.k < 9 && braelist[item.atom.k] == UNSET
    }

    lemma GroupsSnoc(items: seq<Item>, ps: seq<nat>, q: nat)
      requires 0 < |ps| <= |items| && Groups(items, ps) && Recorded(items, ps, |ps| - 1) && Cleared(items[|ps| - 1])
      ensures Groups(items, ps + [q])
    {
      forall i | 0 <= i < |ps| ensures Recorded(items, ps + [q], i) {
        if i < |ps| - 1 { assert Recorded(items, ps, i); }
      }
      forall i | |ps| <= i < |items| && Awaited(items, ps + [q], i) ensures braelist[items[i].atom.k] == UNSET {
        if Find(items, Open(items[i].atom.k)) + 1 < |ps| { assert Awaited(items, ps, i); }
      }
    }

    // CBRA: the beginning of a group is recorded, and it has no end yet.
    method Begin(k: nat, lp: nat, ghost items: seq<Item>, ghost ps: seq<nat>)
      requires 0 < |ps| <= |items| && Groups(items, ps) && lp == ps[|ps| - 1] && k < 9 && Regular(items)
      requires items[|ps| - 1].atom == Open(k)
      modifies braslist, braelist
      ensures Groups(items, ps) && Recorded(items, ps, |ps| - 1) && Cleared(items[|ps| - 1])
    {
      braslist[k] := lp;
      braelist[k] := UNSET;
      forall i | 0 <= i < |ps| - 1 ensures Recorded(items, ps, i) {
        assert old(Recorded(items, ps, i)) && RegularAt(items, i) && RegularAt(items, |ps| - 1);
      }
      assert forall i :: |ps| - 1 <= i < |items| && Awaited(items, ps, i) ==> braelist[items[i].atom.k] == UNSET;
    }

    // CKET: the end of a group is recorded.
    method Finish(k: nat, lp: nat, ghost items: seq<Item>, ghost ps: seq<nat>)
      requires 0 < |ps| <= |items| && Groups(items, ps) && lp == ps[|ps| - 1] && k < 9 && Regular(items)
      requires items[|ps| - 1].atom == Close(k)
      modifies braelist
      ensures Groups(items, ps) && Recorded(items, ps, |ps| - 1)
    {
      braelist[k] := lp;
      assert RegularAt(items, |ps| - 1);
      forall i | 0 <= i < |ps| - 1 ensures Recorded(items, ps, i) {
        assert old(Recorded(items, ps, i)) && RegularAt(items, i);
      }
      forall i | |ps| - 1 <= i < |items| && Awaited(items, ps, i) ensures braelist[items[i].atom.k] == UNSET {
        assert items[i].atom.k != k;
      }
    }

    /** How it goes, and the outcome of the greedy search, ends of groups included. */
    ghost predicate Outcome(items: seq<Item>, t: seq<byte>, ps: seq<nat>, ok: bool, v: Course)
      reads this, braslist, braelist
    {
      && 0 < |ps| <= |items| + 1 && v == Going(CAP, items, t, ps)
      && (v == Sound ==> Groups(items, ps) && ok == Best(CAP, items, t, ps).Some?)
      && (v == Sound && ok ==> var b := Best(CAP, items, t, ps).value;
           |b| == |items| + 1 && loc2 == b[|items|] && Groups(items, b))
    }

    lemma OutcomeBefore(items: seq<Item>, t: seq<byte>, ps: seq<nat>, ps0: seq<nat>, ok: bool, v: Course)
      requires Outcome(items, t, ps, ok, v) && Tiles(CAP, items, t, ps)
      requires 0 < |ps0| <= |ps| && ps[..|ps0|] == ps0 && GoesOn(items, t, ps0, ps)
      ensures Outcome(items, t, ps0, ok, v)
    {
      if v == Sound { GroupsPrefix(items, t, ps, ps0); }
    }

    // The interpreter stands at item |ps| - 1, those before it lying as ps says.
    ghost predicate Standing(items: seq<Item>, t: seq<byte>, ps: seq<nat>, code: seq<byte>, lp: nat, ep: nat)
      reads braslist, braelist
    {
      && Program(code, items) && Text(t) && Tiles(CAP, items, t, ps) && Groups(items, ps)
      && lp == ps[|ps| - 1] <= |t| && ep == Offset(items, |ps| - 1)
    }

    /** Does the code from ep on match the text from lp on (advance)? The program does not come back from a search
      * that is endless, and one that goes astray is not followed. */
    method Advance(t: seq<byte>, code: seq<byte>, lp0: nat, ep0: nat, ghost items: seq<Item>, ghost ps0: seq<nat>)
      returns (ok: bool, v: Course)
      requires Standing(items, t, ps0, code, lp0, ep0)
      modifies this`loc2, braslist, braelist
      ensures Outcome(items, t, ps0, ok, v)
      decreases |items| - |ps0|, 3
    {
      var lp: nat, ep: nat := lp0, ep0;
      ghost var ps := ps0;
      while true
        invariant |ps0| <= |ps| && ps[..|ps0|] == ps0
        invariant Standing(items, t, ps, code, lp, ep)
        invariant GoesOn(items, t, ps0, ps)
        decreases |items| - |ps|
      {
        ghost var i := |ps| - 1;
        Here(code, items, i);
        if code[ep] == CCEOF {
          loc2 := lp;
          OutcomeBefore(items, t, ps, ps0, true, Sound);
          return true, Sound;
        }
        if IsChoice(code[ep]) {
          ok, v := Choose(t, code, lp, ep, items, ps);
          OutcomeBefore(items, t, ps, ps0, ok, v);
          return;
        }
        ok, v, lp, ep := Single(t, code, lp, ep, items, ps);
        if v != Sound { return; }
        if !ok {
          OutcomeBefore(items, t, ps, ps0, false, Sound);
          return false, Sound;
        }
        ps := ps + [lp];
      }
    }

    // The operations that can go on in several ways.
    method Choose(t: seq<byte>, code: seq<byte>, lp: nat, ep: nat, ghost items: seq<Item>, ghost ps: seq<nat>)
      returns (ok: bool, v: Course)
      requires Standing(items, t, ps, code, lp, ep) && |ps| <= |items| && items[|ps| - 1].quant != Once
      modifies this`loc2, braslist, braelist
      ensures Outcome(items, t, ps, ok, v)
      decreases |items| - |ps|, 2
    {
      Here(code, items, |ps| - 1);
      if code[ep] == CBACK + STAR {
        ok, v := RepeatReference(t, code, lp, ep, items, ps);
      } else {
        ok, v := Repeat(t, code, lp, ep, items, ps);
      }
    }

    // The operations that can go on in one way at most.
    method Single(t: seq<byte>, code: seq<byte>, lp0: nat, ep0: nat, ghost items: seq<Item>, ghost ps: seq<nat>)
      returns (ok: bool, v: Course, lp: nat, ep: nat)
      requires Standing(items, t, ps, code, lp0, ep0) && |ps| <= |items| && items[|ps| - 1].quant == Once
      modifies braslist, braelist
      ensures v == Turn(CAP, items, t, ps) && (v != Sound ==> Going(CAP, items, t, ps) == v)
      ensures v == Sound && ok ==> Standing(items, t, ps + [lp], code, lp, ep) && GoesOn(items, t, ps, ps + [lp])
      ensures v == Sound && !ok ==> Fails(items, t, ps) && Groups(items, ps)
    {
      ghost var i := |ps| - 1;
      Here(code, items, i);
      ok, v, lp, ep := true, Sound, lp0, ep0 + 2;
      if code[ep0] == CBRA {
        EmptyStep(items, t, ps, true);
        Begin(code[ep0 + 1], lp, items, ps);
      } else if code[ep0] == CKET {
        EmptyStep(items, t, ps, true);
        Finish(code[ep0 + 1], lp, items, ps);
      } else if code[ep0] == CDOL {
        EmptyStep(items, t, ps, lp == |t|);
        if Char(t, lp) != NUL { ok := false; return; }
        ep := ep0 + 1;
      } else if code[ep0] == CBACK {
        var ct;
        ok, v, ct := Refer(t, code[ep0 + 1], lp, items, ps);
        if v != Sound || !ok { return; }
        lp := lp + ct;
      } else {
        ok, v := Test(t, code, lp, ep0, items, ps);
        if v != Sound || !ok { return; }
        lp, ep := lp + 1, ep0 + Width(code, ep0);
      }
      GroupsSnoc(items, ps, lp);
    }

    // The test of one byte.
    method Test(t: seq<byte>, code: seq<byte>, lp: nat, ep: nat, ghost items: seq<Item>, ghost ps: seq<nat>)
      returns (ok: bool, v: Course)
      requires Standing(items, t, ps, code, lp, ep) && |ps| <= |items|
      requires items[|ps| - 1].quant == Once && Simple(items[|ps| - 1].atom)
      ensures v == Turn(CAP, items, t, ps) && (v != Sound ==> Going(CAP, items, t, ps) == v)
      ensures v == Sound && ok ==>
        lp < |t| && Tiles(CAP, items, t, ps + [lp + 1]) && GoesOn(items, t, ps, ps + [lp + 1])
      ensures v == Sound && !ok ==> Fails(items, t, ps)
    {
      SegTests(code, items, |ps| - 1);
      ok, v := Takes(code, ep, Char(t, lp)), Sound;
      if ok && lp == |t| {
        RunsOver(items, t, ps, code, ep);
        return ok, Astray;
      }
      assert lp < |t| ==> Char(t, lp) != NUL;
      RunOver(items, t, ps, code, ep, if ok then lp + 1 else lp);
      OnceStep(items, t, ps, ok);
    }

    // CBACK: is the text of group k repeated here?
    method Refer(t: seq<byte>, k: nat, lp: nat, ghost items: seq<Item>, ghost ps: seq<nat>)
      returns (same: bool, v: Course, ct: nat)
      requires Tiles(CAP, items, t, ps) && Groups(items, ps) && |ps| <= |items| && lp == ps[|ps| - 1]
      requires items[|ps| - 1] == Item(Back(k), Once) && RegularAt(items, |ps| - 1)
      ensures v == Turn(CAP, items, t, ps) && (v != Sound ==> Going(CAP, items, t, ps) == v)
      ensures v == Sound && same ==> lp + ct <= |t| && Tiles(CAP, items, t, ps + [lp + ct])
      ensures v == Sound && same ==> GoesOn(items, t, ps, ps + [lp + ct])
      ensures v == Sound && !same ==> Fails(items, t, ps)
    {
      GroupEnds(items, t, ps, k);
      if braelist[k] == UNSET { return false, Astray, 0; }
      var bbeg: nat := braslist[k];
      ct, v := braelist[k] - bbeg, Sound;
      forall r: nat ensures Ends(CAP, items, t, ps, r) <==> r == lp + ct && SameText(t, lp, lp + ct, bbeg, bbeg + ct) {
        BackEnds(items, t, ps, k, bbeg, ct, r);
      }
      OneEnd(items, t, ps, lp + ct, SameText(t, lp, lp + ct, bbeg, bbeg + ct));
      // strncmp over ct bytes: the text has no terminator inside, so it fails at the end.
      same := SameText(t, lp, lp + ct, bbeg, bbeg + ct);
    }

    // The text of the group that the next item refers to, if the group has been closed.
    lemma GroupEnds(items: seq<Item>, t: seq<byte>, ps: seq<nat>, k: nat)
      requires Tiles(CAP, items, t, ps) && Groups(items, ps) && |ps| <= |items|
      requires items[|ps| - 1].atom == Back(k) && RegularAt(items, |ps| - 1)
      ensures k < 9 && Shape()
      ensures var a, b := Find(items, Open(k)), Find(items, Close(k));
        if Unset(items, |ps| - 1) then braelist[k] == UNSET
        else a <= b < |ps| && (braslist[k], braelist[k]) == (ps[a], ps[b]) && 0 <= braslist[k] <= braelist[k] <= |t|
    {
      var i := |ps| - 1;
      var a, b := Find(items, Open(k)), Find(items, Close(k));
      if Unset(items, i) {
        assert Awaited(items, ps, i);
      } else {
        TilesOrdered(CAP, items, t, ps, a, b);
        assert Recorded(items, ps, a) && Recorded(items, ps, b);
      }
    }

    /** CBACK | STAR: the text of the group any number of times, the most tried first. Of an empty group the
      * program takes copies for ever. */
    method RepeatReference(t: seq<byte>, code: seq<byte>, lp0: nat, ep: nat, ghost items: seq<Item>,
                           ghost ps: seq<nat>)
      returns (ok: bool, v: Course)
      requires Standing(items, t, ps, code, lp0, ep) && |ps| <= |items|
      requires ep < |code| && code[ep] == CBACK + STAR
      modifies this`loc2, braslist, braelist
      ensures Outcome(items, t, ps, ok, v)
      decreases |items| - |ps|, 1
    {
      StarredReference(code, items, |ps| - 1);
      var k := code[ep + 1];
      GroupEnds(items, t, ps, k);
      if braelist[k] == UNSET { return false, Astray; }
      var bbeg: nat := braslist[k];
      var ct: nat := braelist[k] - bbeg;
      if ct == 0 { return false, Endless; }
      var lp := RunCopies(t, lp0, bbeg, ct);
      forall r: nat ensures Ends(CAP, items, t, ps, r) ==> r <= lp {
        if Copies(t, lp0, r, bbeg, bbeg + ct) { CopiesApart(t, lp0, lp, r, bbeg, bbeg + ct); }
      }
      ok, v := BacktrackCopies(t, code, lp0, lp, bbeg, ct, ep + 2, items, ps);
    }

    // Tries the rest of the code from each number of copies, the most first.
    method BacktrackCopies(t: seq<byte>, code: seq<byte>, curlp: nat, top: nat, bbeg: nat, ct: nat, ep: nat,
                           ghost items: seq<Item>, ghost ps: seq<nat>)
      returns (ok: bool, v: Course)
      requires 0 < |ps| <= |items| && Standing(items, t, ps, code, curlp, Offset(items, |ps| - 1))
      requires ep == Offset(items, |ps|) && Turn(CAP, items, t, ps) == Sound && ct > 0 && items[|ps| - 1].atom.Back?
      requires Copies(t, curlp, top, bbeg, bbeg + ct)
      requires forall r: nat :: Ends(CAP, items, t, ps, r) <==> Copies(t, ps[|ps| - 1], r, bbeg, bbeg + ct)
      requires forall r: nat :: Ends(CAP, items, t, ps, r) ==> r <= top
      modifies this`loc2, braslist, braelist
      ensures Outcome(items, t, ps, ok, v)
      decreases |items| - |ps|, 0
    {
      var lp: int := top;
      SkipDown(CAP, items, t, ps, |t|, top);
      while lp >= curlp
        invariant lp <= top && Groups(items, ps)
        invariant LeftFrom(items, t, ps, lp, bbeg, ct)
      {
        ghost var more := ps + [lp];
        TilesSnoc(CAP, items, t, ps, lp);
        GroupsSnoc(items, ps, lp);
        ok, v := Advance(t, code, lp, ep, items, more);
        if v != Sound || ok {
          DecidedThere(items, t, ps, lp);
          if v == Sound { GroupsPrefix(items, t, more, ps); }
          return;
        }
        GroupsPrefix(items, t, more, ps);
        LeftNext(items, t, ps, lp, bbeg, ct);
        lp := lp - ct;
      }
      return false, Sound;
    }

    // The starred operations and those with an interval.
    method Repeat(t: seq<byte>, code: seq<byte>, lp0: nat, ep: nat, ghost items: seq<Item>, ghost ps: seq<nat>)
      returns (ok: bool, v: Course)
      requires Standing(items, t, ps, code, lp0, ep) && |ps| <= |items|
      requires Simple(items[|ps| - 1].atom) && items[|ps| - 1].quant != Once
      modifies this`loc2, braslist, braelist
      ensures Outcome(items, t, ps, ok, v)
      decreases |items| - |ps|, 1
    {
      ghost var i := |ps| - 1;
      Here(code, items, i);
      SegTests(code, items, i);
      var curlp, lp, next;
      if code[ep] % 4 == STAR {
        curlp, next := lp0, ep + Width(code, ep);
        var over;
        over, lp := RunStar(t, code, ep, lp0);
        if over {
          RunsOver(items, t, ps, code, ep);
          return false, Astray;
        }
        RunOver(items, t, ps, code, ep, lp - 1);
      } else {
        next := ep + Width(code, ep) + 2;
        v, ok, curlp, lp := RunInterval(t, code, ep, lp0, code[next - 2], code[next - 1], items, ps);
        if v != Sound || !ok { return; }
      }
      RunEnds(items, t, ps, code, ep, curlp, lp);
      ok, v := Backtrack(t, code, curlp, lp, next, items, ps);
    }

    // Tries the rest of the code from each end that a repeated byte may have, the last first (star:).
    method Backtrack(t: seq<byte>, code: seq<byte>, curlp: nat, top: nat, ep: nat, ghost items: seq<Item>,
                     ghost ps: seq<nat>)
      returns (ok: bool, v: Course)
      requires 0 < |ps| <= |items| && Standing(items, t, ps, code, ps[|ps| - 1], Offset(items, |ps| - 1))
      requires ep == Offset(items, |ps|) && curlp < top <= |t| + 1
      requires Simple(items[|ps| - 1].atom) && Turn(CAP, items, t, ps) == Sound
      requires forall r: nat :: Ends(CAP, items, t, ps, r) <==> curlp <= r < top
      modifies this`loc2, braslist, braelist
      ensures Outcome(items, t, ps, ok, v)
      decreases |items| - |ps|, 0
    {
      var lp := top;
      SkipDown(CAP, items, t, ps, |t|, top - 1);
      while lp > curlp
        invariant curlp <= lp <= top && Groups(items, ps)
        invariant Best(CAP, items, t, ps) == BestUpTo(CAP, items, t, ps, lp - 1)
        invariant Going(CAP, items, t, ps) == GoingUpTo(CAP, items, t, ps, lp - 1)
      {
        lp := lp - 1;
        TilesSnoc(CAP, items, t, ps, lp);
        ghost var more := ps + [lp];
        GroupsSnoc(items, ps, lp);
        ok, v := Advance(t, code, lp, ep, items, more);
        if v != Sound || ok {
          DecidedThere(items, t, ps, lp);
          if v == Sound { GroupsPrefix(items, t, more, ps); }
          return;
        }
        GroupsPrefix(items, t, more, ps);
      }
      SkipDown(CAP, items, t, ps, curlp - 1, -1);
      return false, Sound;
    }

    /** loc1 and loc2 are the ends of the preferred match beginning at loc1, and the groups are its groups. */
    ghost predicate Located(items: seq<Item>, t: seq<byte>)
      reads this, braslist, braelist
    {
      exists b :: Tiling(CAP, items, t, b) && b[0] == loc1 && b[|items|] == loc2 && Groups(items, b)
        && forall r :: Tiling(CAP, items, t, r) && r[0] == loc1 ==> Prefers(b, r)
    }

    // advance at the beginning of a match.
    method AdvanceAt(t: seq<byte>, code: seq<byte>, p: nat, ghost items: seq<Item>) returns (ok: bool, v: Course)
      requires Shape() && Program(code, items) && Text(t) && p <= |t|
      modifies this, braslist, braelist
      ensures v == Going(CAP, items, t, [p])
      ensures v == Sound ==> (ok <==> MatchesAt(CAP, items, t, p))
      ensures v == Sound && ok ==> loc1 == p && Located(items, t)
    {
      loc1 := p;
      BestFinds(CAP, items, t, p);
      ok, v := Advance(t, code, p, 0, items, [p]);
    }

    /** Looks for the first place where the pattern matches (step). */
    method Step(t: seq<byte>, code: seq<byte>, circf: bool, start: nat, ghost items: seq<Item>)
      returns (ok: bool, v: Course)
      requires Shape() && Program(code, items) && Text(t) && start <= |t|
      modifies this, braslist, braelist
      ensures StepGoes(items, t, circf, start, v)
      ensures v == Sound && circf ==> (ok <==> MatchesAt(CAP, items, t, start))
      ensures v == Sound && !circf ==> (ok <==> exists p :: start <= p && MatchesAt(CAP, items, t, p))
      ensures v == Sound && ok ==> start <= loc1 && MatchesAt(CAP, items, t, loc1) && Located(items, t)
      ensures v == Sound && ok ==> forall p :: start <= p < loc1 ==> !MatchesAt(CAP, items, t, p)
    {
      if circf {
        ok, v := AdvanceAt(t, code, start, items);
        assert Passed(items, t, start, start);
        assert v != Sound ==> Fatal(items, t, circf, start, start);
        return;
      }
      Here(code, items, 0);
      var p := start;
      while p <= |t|
        invariant start <= p <= |t| + 1
        invariant Passed(items, t, start, p)
      {
        if code[0] == CCHR && Char(t, p) != code[1] {
          FirstByte(items, t, p, code[1]);
        } else {
          ok, v := AdvanceAt(t, code, p, items);
          if ok || v != Sound {
            assert v != Sound ==> Fatal(items, t, circf, start, p);
            return;
          }
        }
        p := p + 1;
      }
      return false, Sound;
    }
  }
}
