/** The compiler of the ed-style matcher: compile (regexp.h). It accepts exactly the written patterns
  * whose code fits. Its code is given for all of them, and is that of the items they add up to unless an
  * interval stands on a group, on a reference, or on an item that has one already. */
module EdCompile {
  import opened Basics
  import opened EdPattern
  import opened EdCode
  import opened EdSyntax
  import opened EdRegular

  // ------------------------------------------------------------------ code that grows and is patched

  /** op |= STAR and op |= RNGE */
  function OrStar(op: byte): byte { if op % 2 == 1 then op else op + 1 }
  function OrRange(op: byte): byte { op / 4 * 4 + 3 }

  /** The operation byte of an item, also where an interval has been put on the opening of a group. */
  function OpByte(item: Item): byte {
    if item.atom.Open? && item.quant != Once then 3 else Op(item.atom) + Mode(item.quant)
  }

  /** The code is that of the state's items, unless spoilt; lastep is at the operation of the last. */
  ghost predicate Emitted(code: seq<byte>, lastep: int, st: State) {
    || (st.items == [] && code == [] && lastep == -1 && !st.spoilt)
    || (st.items != [] && 0 <= lastep < |code| && code[lastep] == OpByte(Last(st)) &&
        (st.spoilt || LaidToLast(code, lastep, st.items)))
  }

  ghost predicate LaidToLast(code: seq<byte>, lastep: int, items: seq<Item>)
    requires items != []
  {
    Laid(code, items) && |code| == Offset(items, |items|) && lastep == Offset(items, |items| - 1)
  }

  lemma {:induction false} OffsetGrows(items: seq<Item>, i: nat, j: nat)
    requires i <= j <= |items|
    ensures Offset(items, i) + (j - i) <= Offset(items, j)
  {
    if i < j { OffsetGrows(items, i, j - 1); }
  }

  lemma SameSlice<T>(code: seq<T>, other: seq<T>, at: nat, i: nat, j: nat)
    requires i <= j <= at <= |code| && at <= |other| && other[..at] == code[..at]
    ensures other[i..j] == code[i..j]
  {
    assert other[i..j] == other[..at][i..j] && code[i..j] == code[..at][i..j];
  }

  lemma LaidAtChanged(code: seq<byte>, other: seq<byte>, items: seq<Item>, more: seq<Item>, n: nat, i: nat)
    requires Laid(code, items) && i < n <= |items| && n <= |more| && items[..n] == more[..n]
    requires var at := Offset(items, n); at <= |code| && at <= |other| && other[..at] == code[..at]
    ensures LaidAt(other, more, i)
  {
    assert items[..n][i] == more[..n][i];
    assert items[..i] == items[..n][..i] && more[..i] == more[..n][..i];
    OffsetSame(items, more, i);
    OffsetGrows(items, i + 1, n);
    assert LaidAt(code, items, i);
    SameSlice(code, other, Offset(items, n), Offset(items, i), Offset(items, i + 1));
  }

  // The code of all items but the last is kept when the code changes from the last item on.
  lemma LaidChanged(code: seq<byte>, other: seq<byte>, items: seq<Item>, more: seq<Item>, n: nat)
    requires Laid(code, items) && n <= |items| && |more| == n + 1 && items[..n] == more[..n]
    requires var at := Offset(items, n); at <= |code| && at <= |other| && other[..at] == code[..at]
    requires LaidAt(other, more, n)
    ensures Laid(other, more)
  {
    OffsetSame(items, more, n);
    assert Offset(more, n + 1) == Offset(more, n) + Size(more[n]);
    forall i | 0 <= i < n ensures LaidAt(other, more, i) {
      LaidAtChanged(code, other, items, more, n, i);
    }
  }

  lemma SegAppended(code: seq<byte>, items: seq<Item>, seg: seq<byte>, item: Item)
    requires Offset(items, |items|) == |code| && Seg(seg, item)
    ensures LaidAt(code + seg, items + [item], |items|)
  {
    OffsetSame(items, items + [item], |items|);
    assert (code + seg)[|code|..|code| + |seg|] == seg;
  }

  // A new item is appended.
  lemma AddEmits(code: seq<byte>, lastep: int, st: State, a: Atom, seg: seq<byte>)
    requires Emitted(code, lastep, st) && Seg(seg, Item(a, Once))
    ensures Emitted(code + seg, |code|, Add(st, a))
  {
    var item, more := Item(a, Once), Add(st, a).items;
    assert Last(Add(st, a)) == item && (code + seg)[|code|] == seg[0];
    if !st.spoilt {
      SegAppended(code, st.items, seg, item);
      OffsetSame(st.items, more, |st.items|);
      LaidChanged(code, code + seg, st.items, more, |st.items|);
    }
  }

  ghost predicate Requantifies(items: seq<Item>, more: seq<Item>, q: Quant, bounds: seq<byte>) {
    items != [] && |more| == |items| &&
    var n := |items| - 1;
    && !items[n].quant.Times? && more == items[..n] + [items[n].(quant := q)]
    && ((q.Many? && bounds == []) || (q.Times? && bounds == [q.least, q.most] && Simple(items[n].atom)))
  }

  lemma RequantifyLast(code: seq<byte>, other: seq<byte>, items: seq<Item>, more: seq<Item>, q: Quant,
                       bounds: seq<byte>)
    requires Requantifies(items, more, q, bounds) && LaidAt(code, items, |items| - 1)
    requires |code| == Offset(items, |items| - 1) + Size(items[|items| - 1])
    requires var at := Offset(items, |items| - 1);
      other == code[at := if q.Many? then OrStar(code[at]) else OrRange(code[at])] + bounds
    ensures LaidAt(other, more, |items| - 1)
  {
    var n := |items| - 1;
    SegPatched(code, other, Offset(items, n), items[n], q, bounds);
    OffsetSame(items, more, n);
    LaidHere(other, more, n, Offset(items, n), items[n].(quant := q));
  }

  // The last item gets another quantifier: its operation byte changes and its bounds are appended.
  lemma RequantifyLays(code: seq<byte>, other: seq<byte>, lastep: nat, items: seq<Item>, more: seq<Item>, q: Quant,
                       bounds: seq<byte>)
    requires Requantifies(items, more, q, bounds)
    requires Laid(code, items) && |code| == Offset(items, |items|) && lastep == Offset(items, |items| - 1)
    requires other == code[lastep := if q.Many? then OrStar(code[lastep]) else OrRange(code[lastep])] + bounds
    ensures Laid(other, more) && |other| == Offset(more, |more|) && lastep == Offset(more, |more| - 1)
  {
    var n := |items| - 1;
    assert LaidAt(code, items, n);
    RequantifyLast(code, other, items, more, q, bounds);
    assert other[..lastep] == code[..lastep];
    OffsetSame(items, more, n);
    assert Offset(more, n + 1) == Offset(more, n) + Size(more[n]);
    LaidChanged(code, other, items, more, n);
  }

  // The last item is starred.
  lemma StarEmits(code: seq<byte>, lastep: int, st: State)
    requires Emitted(code, lastep, st) && !StarIsPlain(st)
    ensures 0 <= lastep < |code| && Emitted(code[lastep := OrStar(code[lastep])], lastep, Next(st, Star))
  {
    var other := code[lastep := OrStar(code[lastep])];
    var next := Next(st, Star);
    if Last(st).quant.Times? {
      assert other == code;
    } else {
      assert Last(next) == Last(st).(quant := Many);
      if !st.spoilt {
        assert other + [] == other;
        RequantifyLays(code, other, lastep, st.items, next.items, Many, []);
      }
    }
  }

  // The last item is given an interval.
  lemma BracesEmit(code: seq<byte>, lastep: int, st: State, t: Token)
    requires Emitted(code, lastep, st) && st.items != [] && t.Braces? && IsBound(Value(t.first)) && IsBound(Upper(t))
    ensures 0 <= lastep < |code|
    ensures Emitted(code[lastep := OrRange(code[lastep])] + [Value(t.first), Upper(t)], lastep, Next(st, t))
  {
    var bounds: seq<byte> := [Value(t.first), Upper(t)];
    var other := code[lastep := OrRange(code[lastep])] + bounds;
    var q, next := Times(bounds[0], bounds[1]), Next(st, t);
    assert Last(next) == Last(st).(quant := q);
    if !next.spoilt {
      RequantifyLays(code, other, lastep, st.items, next.items, q, bounds);
    }
  }

  lemma LaidHere(code: seq<byte>, items: seq<Item>, n: nat, ep: nat, item: Item)
    requires SegAt(code, ep, item) && n < |items| && Offset(items, n) == ep && items[n] == item
    ensures LaidAt(code, items, n)
  {
  }

  // Changing the operation byte of the last item, and appending its bounds, requantifies it.
  lemma SegPatched(code: seq<byte>, other: seq<byte>, ep: nat, item: Item, q: Quant, bounds: seq<byte>)
    requires SegAt(code, ep, item) && ep + Size(item) == |code| && !item.quant.Times?
    requires (q.Many? && bounds == []) || (q.Times? && bounds == [q.least, q.most] && Simple(item.atom))
    requires other == code[ep := if q.Many? then OrStar(code[ep]) else OrRange(code[ep])] + bounds
    ensures SegAt(other, ep, item.(quant := q))
  {
    var seg, patched := code[ep..], other[ep..];
    assert code[ep..ep + Size(item)] == seg && other[ep..ep + Size(item.(quant := q))] == patched;
    if item.atom.Set? {
      var n := 8 * MapBytes(item.atom.elems);
      MapOfAll(seg, item.atom.neg, item.atom.elems, item.atom.dash, n);
      MapOfAll(patched, item.atom.neg, item.atom.elems, item.atom.dash, n);
      forall x: nat | x < n ensures IsThere(patched, 1, x) == IsThere(seg, 1, x) {
        assert patched[1 + ByteOf(x)] == seg[1 + ByteOf(x)];
      }
    }
  }

  // ------------------------------------------------------------------ bracket lists

  /** The map has the bits of the list es, and a second half when es needs one. */
  ghost predicate Mapped(bits: seq<byte>, es: seq<Elem>, dash: bool) {
    |bits| == MapBytes(es) && MapIs(bits, es, dash, 8 * |bits|)
  }

  ghost predicate MapIs(bits: seq<byte>, es: seq<Elem>, dash: bool, n: nat)
    requires n <= 8 * |bits|
  {
    n == 0 || (IsThere(bits, 0, n - 1) == InList(es, dash, n - 1) && MapIs(bits, es, dash, n - 1))
  }

  lemma {:induction false} MapIsAll(bits: seq<byte>, es: seq<Elem>, dash: bool, n: nat)
    requires n <= 8 * |bits|
    ensures MapIs(bits, es, dash, n) <==> forall x: nat | x < n :: IsThere(bits, 0, x) == InList(es, dash, x)
  {
    if n > 0 { MapIsAll(bits, es, dash, n - 1); }
  }

  lemma InListSnoc(es: seq<Elem>, e: Elem, x: int)
    ensures InList(es + [e], false, x) <==> InList(es, false, x) || Brings(es, e, x)
    ensures Wide(es + [e]) <==> Wide(es) || e.c >= 128
  {
    var more := es + [e];
    assert forall i: nat | i < |es| :: Covers(more, i, x) == Covers(es, i, x);
    assert Covers(more, |es|, x) <==> x == e.c || (e.To? && es != [] && LastByte(es) <= x <= e.c);
    assert more[|es|] == e;
    assert more[..|es|] == es;
  }

  function Blank(): (r: seq<byte>)
    ensures Mapped(r, [], false)
  {
    assert forall i: nat :: !Bit(0, i) by { forall i: nat ensures !Bit(0, i) { ZeroBit(i); } }
    MapIsAll(seq(16, _ => 0), [], false, 128);
    seq(16, _ => 0)
  }

  /** PLACE */
  function Place(bits: seq<byte>, c: nat): (r: seq<byte>)
    requires c < 8 * |bits|
    ensures |r| == |bits|
    ensures forall x: nat | x < 8 * |bits| :: IsThere(r, 0, x) == (x == c || IsThere(bits, 0, x))
  {
    assert Bytes(8) == 256;
    bits[ByteOf(c) := WithBit(bits[ByteOf(c)], BitOf(c), 8)]
  }

  // A second half for the map, when a byte from 128 up comes up for the first time.
  function Widened(bits: seq<byte>, c: byte): (r: seq<byte>)
    requires |bits| == 16 || |bits| == 32
    ensures |r| == 32 <==> |bits| == 32 || c >= 128
    ensures forall x: nat | x < 8 * |r| :: IsThere(r, 0, x) == (x < 8 * |bits| && IsThere(bits, 0, x))
  {
    if c >= 128 && |bits| == 16 then
      assert forall i: nat :: !Bit(0, i) by { forall i: nat ensures !Bit(0, i) { ZeroBit(i); } }
      bits + seq(16, _ => 0)
    else bits
  }

  lemma {:induction false} ZeroBit(i: nat)
    ensures !Bit(0, i)
  {
    if i > 0 { ZeroBit(i - 1); }
  }

  // The error of a list, when none of the written lists stands here, or when the code is full.
  const FULL: nat := 50

  // Complements a wide map, the terminator excepted.
  method Complement(bits: seq<byte>) returns (r: seq<byte>)
    requires |bits| == 32
    ensures |r| == 32
    ensures forall x: nat | x < 256 :: IsThere(r, 0, x) == (x != 0 && !IsThere(bits, 0, x))
  {
    r := bits;
    var i := 0;
    assert Bytes(8) == 256;
    while i < 32
      invariant i <= 32 && |r| == 32
      invariant forall k :: 0 <= k < i ==> r[k] == Flipped(bits[k], 8)
      invariant forall k :: i <= k < 32 ==> r[k] == bits[k]
    {
      r := r[i := Flipped(r[i], 8)];
      i := i + 1;
    }
    r := r[0 := WithoutLow(r[0])];
  }

  // Sets the bits of a span up to c and of c itself: while(lc < c) PLACE(lc), lc++; PLACE(c).
  method PlaceSpan(bits: seq<byte>, from: byte, c: byte) returns (r: seq<byte>)
    requires c < 8 * |bits| && from < 8 * |bits|
    ensures |r| == |bits|
    ensures forall x: nat | x < 8 * |bits| :: IsThere(r, 0, x) == (x == c || from <= x <= c || IsThere(bits, 0, x))
  {
    var lc: int := from;
    r := bits;
    while lc < c
      invariant from <= lc && (lc <= c || lc == from) && |r| == |bits|
      invariant forall x: nat | x < 8 * |bits| :: IsThere(r, 0, x) == (from <= x < lc || IsThere(bits, 0, x))
    {
      r := Place(r, lc);
      lc := lc + 1;
    }
    r := Place(r, c);
  }

  predicate HasBit(bits: seq<byte>, x: nat) { x < 8 * |bits| && IsThere(bits, 0, x) }

  predicate Brings(es: seq<Elem>, e: Elem, x: int) {
    x == e.c || (e.To? && es != [] && LastByte(es) <= x <= e.c)
  }

  lemma MappedSnoc(bits: seq<byte>, more: seq<byte>, es: seq<Elem>, e: Elem)
    requires Mapped(bits, es, false) && |more| == MapBytes(es + [e])
    requires forall x: nat | x < 8 * |more| :: IsThere(more, 0, x) == (HasBit(bits, x) || Brings(es, e, x))
    ensures Mapped(more, es + [e], false)
  {
    MapIsAll(bits, es, false, 8 * |bits|);
    MapIsAll(more, es + [e], false, 8 * |more|);
    forall x: nat | x < 8 * |more| ensures IsThere(more, 0, x) == InList(es + [e], false, x) {
      InListSnoc(es, e, x);
      if x >= 8 * |bits| { NarrowList(es, false, x); }
    }
  }

  /** Reads one element of a list, or the dash that ends it. */
  method TakeElem(s: seq<byte>, pos: nat, room: int, neg: bool, lc: byte, bits: seq<byte>, es: seq<Elem>,
                  ghost want: Elem)
    returns (err: nat, stop: bool, next: nat, c: byte, more: seq<byte>, e: Elem, es': seq<Elem>)
    requires Mapped(bits, es, false) && lc == LastByte(es)
    requires Roomy(es, room) && if es == [] then neg || Get(s, pos) != CARET else Get(s, pos) != RBRACKET
    ensures err == 0 && !stop ==> Roomy(es', room)
    ensures err == 0 && !stop ==>
      ElemAllowed(neg, es, e) && ElemAt(s, pos, e) && next == pos + ElemWidth(e) && c == e.c && Mapped(more, es', false)
    ensures es' == es + [e]
    ensures err == 0 && !stop ==> pos < |s|
    ensures err == 0 && stop ==> ListEnds(s, pos, es, true) && next == pos + 2 && Mapped(more, es, true)
    ensures ListEnds(s, pos, es, true) ==> err == 0 && stop
    ensures !(ElemAllowed(neg, es, want) && ElemAt(s, pos, want)) ||
      (err == 0 && !stop && e == want) || (err == FULL && !Roomy(es + [want], room))
  {
    InListSnoc(es, want, 0);
    err, stop, next, c, more, e := 0, false, pos + 1, Get(s, pos), bits, Single(Get(s, pos));
    es' := es + [e];
    InListSnoc(es, e, 0);
    if c == NUL || c == NEWLINE { err := 49; return; }
    if c >= 128 && |more| == 16 && 32 >= room { err := FULL; return; }
    more := Widened(more, c);
    if c == DASH && lc != NUL {
      c, next := Get(s, pos + 1), pos + 2;
      if c == RBRACKET {
        MapIsAll(more, es, false, 8 * |more|);
        more, stop := Place(more, DASH), true;
        MapIsAll(more, es, true, 8 * |more|);
        return;
      }
      if c >= 128 && |more| == 16 && 32 >= room { err := FULL; return; }
      more, e := Widened(more, c), To(c);
      es' := es + [e];
      InListSnoc(es, e, 0);
      more := PlaceSpan(more, lc, c);
    } else {
      more := Place(more, c);
    }
    MappedSnoc(bits, more, es, e);
  }

  // One more element.
  lemma ElemsOn(s: seq<byte>, from: nat, neg: bool, es: seq<Elem>, e: Elem, more: seq<Elem>, pos: nat)
    requires Within(s, from, neg, es, pos) && more == es + [e]
    requires ElemAllowed(neg, es, e) && ElemAt(s, pos, e)
    ensures more != [] && ElemsAt(s, from, neg, more) && LastByte(more) == e.c
    ensures from + ElemsWidth(more) == pos + ElemWidth(e)
  {
    assert more[..|es|] == es;
  }

  /** There is room for the map of a list: a wide one needs its second half. */
  predicate Roomy(es: seq<Elem>, room: int) { Wide(es) ==> room > 32 }

  lemma {:induction false} WidePrefix(es: seq<Elem>, k: nat)
    requires k <= |es| && Wide(es[..k])
    ensures Wide(es)
  {
    if k < |es| {
      assert es[..|es| - 1][..k] == es[..k];
      WidePrefix(es[..|es| - 1], k);
    } else {
      assert es[..k] == es;
    }
  }

  // What stands after the first k elements of a list.
  lemma NextWanted(s: seq<byte>, from: nat, neg: bool, es: seq<Elem>, dash: bool, k: nat)
    requires ListAt(s, from, neg, es, dash) && k <= |es|
    ensures k == |es| ==> es[..k] == es
    ensures k < |es| ==> ElemAllowed(neg, es[..k], es[k]) && ElemAt(s, from + ElemsWidth(es[..k]), es[k])
    ensures 0 < k < |es| ==> Get(s, from + ElemsWidth(es[..k])) != RBRACKET
    ensures k < |es| ==> es[..k + 1] == es[..k] + [es[k]]
  {
    if k < |es| { ElemsPrefix(s, from, neg, es, k); } else { assert es[..k] == es; }
  }

  // The elements es are the first of the list wes, if wes stands here.
  ghost predicate Toward(s: seq<byte>, from: nat, neg: bool, wes: seq<Elem>, wdash: bool, es: seq<Elem>) {
    !ListAt(s, from, neg, wes, wdash) || (|es| <= |wes| && es == wes[..|es|])
  }

  ghost function Due(wes: seq<Elem>, es: seq<Elem>): Elem { if |es| < |wes| then wes[|es|] else Single(NUL) }

  lemma TowardStep(s: seq<byte>, from: nat, neg: bool, wes: seq<Elem>, wdash: bool, es: seq<Elem>, pos: nat,
    room: int, err: nat, stop: bool, e: Elem, more: seq<Elem>)
    requires Toward(s, from, neg, wes, wdash, es) && Within(s, from, neg, es, pos) && more == es + [e]
    requires ListEnds(s, pos, es, true) ==> err == 0 && stop
    requires err == 0 && stop ==> ListEnds(s, pos, es, true)
    requires !(ElemAllowed(neg, es, Due(wes, es)) && ElemAt(s, pos, Due(wes, es))) ||
      (err == 0 && !stop && e == Due(wes, es)) || (err == FULL && !Roomy(es + [Due(wes, es)], room))
    ensures err == 0 && !stop ==> Toward(s, from, neg, wes, wdash, more)
    ensures err == 0 && stop ==> !ListAt(s, from, neg, wes, wdash) || (es == wes && wdash)
    ensures err != 0 ==> !ListAt(s, from, neg, wes, wdash) || (err == FULL && !Roomy(wes, room))
  {
    if ListAt(s, from, neg, wes, wdash) {
      NextWanted(s, from, neg, wes, wdash, |es|);
      if |es| < |wes| && Wide(wes[..|es| + 1]) { WidePrefix(wes, |es| + 1); }
    }
  }

  lemma TowardEnd(s: seq<byte>, from: nat, neg: bool, wes: seq<Elem>, wdash: bool, es: seq<Elem>, pos: nat)
    requires Toward(s, from, neg, wes, wdash, es) && es != [] && pos == from + ElemsWidth(es) && Get(s, pos) == RBRACKET
    ensures !ListAt(s, from, neg, wes, wdash) || (es == wes && !wdash)
  {
    if ListAt(s, from, neg, wes, wdash) { NextWanted(s, from, neg, wes, wdash, |es|); }
  }

  // In the middle of a list, with the elements es read and no closing bracket in sight.
  predicate Within(s: seq<byte>, from: nat, neg: bool, es: seq<Elem>, pos: nat) {
    || (es == [] && pos == from && (neg || Get(s, from) != CARET))
    || (es != [] && pos == from + ElemsWidth(es) && ElemsAt(s, from, neg, es) && Get(s, pos) != RBRACKET)
  }

  // A whole list has been read, and it is the one looked for.
  predicate Read(s: seq<byte>, from: nat, neg: bool, es: seq<Elem>, dash: bool, next: nat) {
    ListAt(s, from, neg, es, dash) && next == from + ElemsWidth(es) + (if dash then 2 else 1)
  }

  // One turn of the loop.
  method ReadElem(s: seq<byte>, from: nat, room: int, neg: bool, pos: nat, lc0: byte, bits0: seq<byte>, es0: seq<Elem>,
    ghost wes: seq<Elem>, ghost wdash: bool)
    returns (err: nat, done: bool, next: nat, lc: byte, bits: seq<byte>, es: seq<Elem>, dash: bool)
    requires Mapped(bits0, es0, false) && lc0 == LastByte(es0) && Roomy(es0, room)
    requires Within(s, from, neg, es0, pos) && Toward(s, from, neg, wes, wdash, es0)
    ensures err == 0 ==> Roomy(es, room) && Mapped(bits, es, dash) && (!done ==> !dash)
    ensures err != 0 || done || (Within(s, from, neg, es, next) && lc == LastByte(es) && pos < |s| && next > pos)
    ensures err != 0 || done || Toward(s, from, neg, wes, wdash, es)
    ensures err != 0 || !done || Read(s, from, neg, es, dash, next)
    ensures err != 0 || !done || !ListAt(s, from, neg, wes, wdash) || (es == wes && dash == wdash)
    ensures err == 0 || !ListAt(s, from, neg, wes, wdash) || (err == FULL && !Roomy(wes, room))
  {
    var e;
    err, done, next, lc, bits, e, es := TakeElem(s, pos, room, neg, lc0, bits0, es0, Due(wes, es0));
    TowardStep(s, from, neg, wes, wdash, es0, pos, room, err, done, e, es);
    dash := false;
    if err != 0 { return; }
    if done {
      es, dash := es0, true;
      return;
    }
    ElemsOn(s, from, neg, es0, e, es, pos);
    if Get(s, next) == RBRACKET {
      TowardEnd(s, from, neg, wes, wdash, es, next);
      done, next := true, next + 1;
    }
  }

  /** Reads a bracket list whose first element is at `from`; `next` is past its closing bracket. */
  method TakeElems(s: seq<byte>, from: nat, room: int, neg: bool, ghost wes: seq<Elem>, ghost wdash: bool)
    returns (err: nat, next: nat, bits: seq<byte>, es: seq<Elem>, dash: bool)
    requires neg || Get(s, from) != CARET
    ensures err != 0 || (Read(s, from, neg, es, dash, next) && Mapped(bits, es, dash) && Roomy(es, room))
    ensures !ListAt(s, from, neg, wes, wdash) || (err == 0 && es == wes && dash == wdash) ||
      (err == FULL && !Roomy(wes, room))
  {
    var lc: byte, done := NUL, false;
    bits, es, dash, err, next := Blank(), [], false, 0, from;
    while !done
      invariant err == 0 && Roomy(es, room) && Mapped(bits, es, dash) && (!done ==> !dash)
      invariant done || (Within(s, from, neg, es, next) && lc == LastByte(es) && Toward(s, from, neg, wes, wdash, es))
      invariant !done || Read(s, from, neg, es, dash, next)
      invariant !done || !ListAt(s, from, neg, wes, wdash) || (es == wes && dash == wdash)
      decreases !done, |s| - next
    {
      err, done, next, lc, bits, es, dash := ReadElem(s, from, room, neg, next, lc, bits, es, wes, wdash);
      if err != 0 { return; }
    }
  }

  /** Reads a bracket list and makes its code, with `room` bytes of the buffer left. */
  method TakeBracket(s: seq<byte>, pos: nat, room: int, ghost want: Token)
    returns (err: nat, next: nat, seg: seq<byte>, t: Token)
    requires Get(s, pos) == LBRACKET
    ensures err == 0 ==> t.Bracket? && BracketAt(s, pos, t.neg, t.elems, t.dash) && next == pos + TokenWidth(t)
    ensures err == 0 ==> Seg(seg, Item(Set(t.neg, t.elems, t.dash), Once))
    ensures !(want.Bracket? && BracketAt(s, pos, want.neg, want.elems, want.dash)) ||
      (err == 0 && t == want && TokenRoom(want, room)) || (err == FULL && !TokenRoom(want, room))
  {
    t, next, seg := Dot, pos, [];
    if 17 >= room { err := FULL; return; }
    var neg := Get(s, pos + 1) == CARET;
    var from := pos + (if neg then 2 else 1);
    ghost var wes, wdash := if want.Bracket? then want.elems else [], want.Bracket? && want.dash;
    ghost var wanted := want.Bracket? && BracketAt(s, pos, want.neg, want.elems, want.dash);
    if wanted { ElemsPrefix(s, pos + (if want.neg then 2 else 1), want.neg, want.elems, 0); }
    var bits, es, dash;
    err, next, bits, es, dash := TakeElems(s, from, room - 1, neg, wes, wdash);
    if err != 0 { return; }
    t := Bracket(neg, es, dash);
    ghost var list := bits;
    MapIsAll(list, es, dash, 8 * |list|);
    var op := if |bits| == 32 then CXCL else if neg then NCCL else CCL;
    if neg {
      if |bits| == 32 { bits := Complement(bits); } else { bits := Place(bits, 0); }
    }
    seg := [op] + bits;
    forall x: nat | x < 8 * MapBytes(es) ensures IsThere(seg, 1, x) == Stored(neg, es, dash, x) {
      assert IsThere(seg, 1, x) == IsThere(bits, 0, x);
      assert IsThere(list, 0, x) == InList(es, dash, x);
    }
    MapOfAll(seg, neg, es, dash, 8 * MapBytes(es));
  }

  // ------------------------------------------------------------------ intervals

  predicate DigitsAt(s: seq<byte>, from: nat, ds: seq<byte>) {
    forall k :: 0 <= k < |ds| ==> Decimal(ds[k]) && Get(s, from + k) == ds[k]
  }

  /** Reads a number and the mark after it. */
  method TakeNumber(s: seq<byte>, from: nat, ghost want: seq<byte>)
    returns (err: nat, next: nat, i: nat, mark: byte, ds: seq<byte>)
    ensures err == 0 ==> NumberAt(s, from, ds, mark) && (mark == BACKSLASH || mark == COMMA)
    ensures err == 0 ==> i == Value(ds) && next == from + |ds| + 1
    ensures NumberAt(s, from, want, BACKSLASH) || NumberAt(s, from, want, COMMA) ==> err == 0 && ds == want
  {
    ghost var wanted := NumberAt(s, from, want, BACKSLASH) || NumberAt(s, from, want, COMMA);
    next, i, ds, mark, err := from, 0, [], Get(s, from), 0;
    assert wanted ==> Decimal(want[0]);
    while next == from || (mark != BACKSLASH && mark != COMMA)
      invariant DigitsAt(s, from, ds) && i == Value(ds) && next == from + |ds| && mark == Get(s, next)
      invariant wanted ==> |ds| <= |want| && ds == want[..|ds|] && (|ds| < |want| ==> Decimal(mark))
      decreases |s| - next
    {
      if !Decimal(mark) { err := 16; return; }
      var more := ds + [mark];
      assert more[..|ds|] == ds;
      i, next, ds := 10 * i + mark - ZERO, next + 1, more;
      mark := Get(s, next);
      assert wanted && |ds| < |want| ==> Decimal(want[|ds|]);
    }
    assert wanted ==> ds == want;
    next := next + 1;
    if i >= 255 { err := 11; }
  }

  // The upper bound, after the comma; 255 stands for none.
  method TakeUpper(s: seq<byte>, from: nat, ghost want: seq<byte>)
    returns (err: nat, next: nat, hi: nat, second: seq<byte>)
    ensures err == 0 && second == [] ==> Get(s, from) == BACKSLASH && (next, hi) == (from + 1, 255)
    ensures err == 0 && second != [] ==>
      NumberAt(s, from, second, BACKSLASH) && (next, hi) == (from + |second| + 1, Value(second))
    ensures (if want == [] then Get(s, from) == BACKSLASH else NumberAt(s, from, want, BACKSLASH)) ==>
      err == 0 && second == want
  {
    assert want != [] && DigitsAt(s, from, want) ==> Decimal(want[0]);
    if Get(s, from) == BACKSLASH { return 0, from + 1, 255, []; }
    var mark;
    err, next, hi, mark, second := TakeNumber(s, from, want);
    if err == 0 && mark == COMMA { err := 44; }
  }

  /** Reads an interval in braces; lo and hi are the bytes it adds to the code. */
  method TakeBraces(s: seq<byte>, pos: nat, ghost want: Token)
    returns (err: nat, next: nat, lo: nat, hi: nat, t: Token)
    requires Get(s, pos) == BACKSLASH && Get(s, pos + 1) == LBRACE
    ensures err == 0 ==> t.Braces? && BracesAt(s, pos, t.first, t.comma, t.second) && next == pos + TokenWidth(t)
    ensures err == 0 ==> lo == Value(t.first) < 256 && hi == Upper(t) < 256
    ensures !(want.Braces? && BracesAt(s, pos, want.first, want.comma, want.second)) || (err == 0 && t == want)
  {
    var mark, first, second: seq<byte> := BACKSLASH, [], [];
    ghost var wfirst, wsecond := [], [];
    if want.Braces? { wfirst, wsecond := want.first, want.second; }
    hi, t := 0, Dot;
    err, next, lo, mark, first := TakeNumber(s, pos + 2, wfirst);
    if err != 0 { return; }
    hi := lo;
    var comma := mark == COMMA;
    if comma {
      err, next, hi, second := TakeUpper(s, next, wsecond);
      if err != 0 { return; }
    }
    if Get(s, next) != RBRACE { err := 45; return; }
    next := next + 1;
    if hi < lo { err := 46; return; }
    t := Braces(first, comma, second);
  }

  // ------------------------------------------------------------------ the whole pattern

  /** What the compiler keeps while it reads: its place, the code, the last operation and the groups. */
  datatype Work = Work(pos: nat, code: seq<byte>, lastep: int, nbra: nat, stack: seq<nat>, closed: nat)

  /** The code of a token that adds an item. */
  ghost predicate Segment(st: State, t: Token, seg: seq<byte>) {
    match t
    case Plain(c) => seg == [CCHR, c]
    case Escaped(c) => seg == [CCHR, if c == 110 then NEWLINE else c]
    case Dot => seg == [CDOT]
    case Dollar => seg == [CDOL]
    case Bracket(neg, elems, dash) => Seg(seg, Item(Set(neg, elems, dash), Once))
    case Opening => IsBound(st.nbra) && seg == [CBRA, st.nbra]
    case Closing => st.stack != [] && IsBound(st.stack[|st.stack| - 1]) && seg == [CKET, st.stack[|st.stack| - 1]]
    case Digit(d) => IsBound(d - 1) && seg == [CBACK, d - 1]
    case _ => false
  }

  /** What a token makes of the code, whose last operation is at lastep. */
  ghost predicate Emits(st: State, t: Token, code: seq<byte>, lastep: int, code': seq<byte>, lastep': int) {
    match t
    case Star => 0 <= lastep == lastep' < |code| && code' == code[lastep := OrStar(code[lastep])]
    case Braces(first, _, _) =>
      && 0 <= lastep == lastep' < |code| && IsBound(Value(first)) && IsBound(Upper(t))
      && code' == code[lastep := OrRange(code[lastep])] + [Value(first), Upper(t)]
    case _ => lastep' == |code| && code <= code' && Segment(st, t, code'[|code|..])
  }

  /** The code of the tokens ts, and the place of its last operation. */
  ghost predicate CodeOf(ts: seq<Token>, code: seq<byte>, lastep: int) {
    if ts == [] then code == [] && lastep == -1
    else
      var init := ts[..|ts| - 1];
      exists code0, lastep0 ::
        CodeOf(init, code0, lastep0) && Emits(After(init), ts[|ts| - 1], code0, lastep0, code, lastep)
  }

  ghost predicate Coded(ts: seq<Token>, code: seq<byte>) { exists lastep :: CodeOf(ts, code, lastep) }

  lemma CodeOfSnoc(ts: seq<Token>, t: Token, more: seq<Token>, code: seq<byte>, lastep: int, code': seq<byte>,
                   lastep': int)
    requires more == ts + [t] && CodeOf(ts, code, lastep) && Emits(After(ts), t, code, lastep, code', lastep')
    ensures CodeOf(more, code', lastep')
  {
    assert more[..|more| - 1] == ts;
  }

  /** The work done agrees with the tokens read so far. */
  ghost predicate Good(s: seq<byte>, eof: byte, ts: seq<Token>, w: Work) {
    || (ts == [] && w == Work(Start(s), [], -1, 0, [], 0))
    || (ts != [] && Spelled(s, Start(s), eof, ts) && w.pos == Start(s) + Width(ts) && |w.code| == CodeLength(ts) &&
        Fits(After(ts), w) && CodeOf(ts, w.code, w.lastep))
  }

  ghost predicate Fits(st: State, w: Work) {
    && Emitted(w.code, w.lastep, st) && (w.nbra, w.stack, w.closed) == (st.nbra, st.stack, st.closed) && Small(w)
  }

  predicate Small(w: Work) { w.nbra <= 9 && forall k :: 0 <= k < |w.stack| ==> w.stack[k] < 9 }

  lemma GoodFits(s: seq<byte>, eof: byte, ts: seq<Token>, w: Work)
    requires Good(s, eof, ts, w)
    ensures Fits(After(ts), w) && Spelled(s, Start(s), eof, ts) && CodeOf(ts, w.code, w.lastep)
    ensures w.pos == Start(s) + Width(ts) && |w.code| == CodeLength(ts)
  {
  }

  lemma GoodAt(s: seq<byte>, eof: byte, ts: seq<Token>, w: Work)
    requires Good(s, eof, ts, w)
    ensures w.pos == Start(s) + Width(ts) && |w.code| == CodeLength(ts) && CodeOf(ts, w.code, w.lastep)
  {
  }

  lemma GoodNext(s: seq<byte>, eof: byte, ts: seq<Token>, w: Work, t: Token, w': Work)
    requires Good(s, eof, ts, w) && Taken(s, eof, After(ts), w, t, w')
    ensures Good(s, eof, ts + [t], w')
  {
    GoodFrom(s, eof, ts, ts + [t], After(ts), w, t, w');
  }

  lemma GoodFrom(s: seq<byte>, eof: byte, ts: seq<Token>, more: seq<Token>, st: State, w: Work, t: Token, w': Work)
    requires more == ts + [t] && st == After(ts)
    requires Good(s, eof, ts, w) && Taken(s, eof, st, w, t, w')
    ensures Good(s, eof, more, w')
  {
    GoodAt(s, eof, ts, w);
    CodeOfSnoc(ts, t, more, w.code, w.lastep, w'.code, w'.lastep);
    TokensSnoc(ts, t, more);
    SpelledSnoc(s, Start(s), eof, ts, t, more);
  }

  // Token t has been taken: the work fits the state after it.
  ghost predicate Taken(s: seq<byte>, eof: byte, st: State, w: Work, t: Token, next: Work) {
    && TokenAt(s, w.pos, eof, st, t) && Fits(Next(st, t), next)
    && (next.pos, |next.code|) == (w.pos + TokenWidth(t), |w.code| + CodeWidth(t))
    && Emits(st, t, w.code, w.lastep, next.code, next.lastep)
  }

  // A token that adds one item with an operand of at most one byte.
  function Pushed(w: Work, width: nat, seg: seq<byte>): Work {
    w.(pos := w.pos + width, code := w.code + seg, lastep := |w.code|)
  }

  lemma PushedFits(st: State, w: Work, width: nat, a: Atom, seg: seq<byte>)
    requires Fits(st, w) && Seg(seg, Item(a, Once))
    ensures Fits(Add(st, a), Pushed(w, width, seg))
  {
    AddEmits(w.code, w.lastep, st, a, seg);
  }

  // A token that adds one item has been taken.
  lemma AddTaken(s: seq<byte>, eof: byte, st: State, w: Work, t: Token, a: Atom, seg: seq<byte>)
    requires Fits(st, w) && TokenAt(s, w.pos, eof, st, t) && Next(st, t) == Add(st, a)
    requires Seg(seg, Item(a, Once)) && |seg| == CodeWidth(t) && !t.Star? && !t.Braces? && Segment(st, t, seg)
    ensures Taken(s, eof, st, w, t, Pushed(w, TokenWidth(t), seg))
  {
    PushedFits(st, w, TokenWidth(t), a, seg);
    assert (w.code + seg)[|w.code|..] == seg;
  }

  lemma StarTaken(s: seq<byte>, eof: byte, st: State, w: Work)
    requires Fits(st, w) && TokenAt(s, w.pos, eof, st, Star)
    ensures 0 <= w.lastep < |w.code|
    ensures Taken(s, eof, st, w, Star, w.(pos := w.pos + 1, code := w.code[w.lastep := OrStar(w.code[w.lastep])]))
  {
    StarEmits(w.code, w.lastep, st);
  }

  lemma OpeningTaken(s: seq<byte>, eof: byte, st: State, w: Work)
    requires Fits(st, w) && TokenAt(s, w.pos, eof, st, Opening)
    ensures Taken(s, eof, st, w, Opening,
                  Pushed(w, 2, [CBRA, w.nbra]).(nbra := w.nbra + 1, stack := w.stack + [w.nbra]))
  {
    PushedFits(st, w, 2, Open(w.nbra), [CBRA, w.nbra]);
    assert (w.code + [CBRA, w.nbra])[|w.code|..] == [CBRA, w.nbra];
  }

  lemma ClosingTaken(s: seq<byte>, eof: byte, st: State, w: Work, k: byte)
    requires Fits(st, w) && TokenAt(s, w.pos, eof, st, Closing) && w.stack != [] && k == w.stack[|w.stack| - 1]
    ensures Taken(s, eof, st, w, Closing,
      Pushed(w, 2, [CKET, k]).(stack := w.stack[..|w.stack| - 1], closed := w.closed + 1))
  {
    PushedFits(st, w, 2, Close(k), [CKET, k]);
    assert (w.code + [CKET, k])[|w.code|..] == [CKET, k];
  }

  lemma BracesTaken(s: seq<byte>, eof: byte, st: State, w: Work, t: Token, pos: nat, lo: byte, hi: byte)
    requires Fits(st, w) && TokenAt(s, w.pos, eof, st, t) && t.Braces? && lo == Value(t.first) && hi == Upper(t)
    requires pos == w.pos + TokenWidth(t)
    ensures 0 <= w.lastep < |w.code|
    ensures Taken(s, eof, st, w, t,
      w.(pos := pos, code := w.code[w.lastep := OrRange(w.code[w.lastep])] + [lo, hi]))
  {
    BracesEmit(w.code, w.lastep, st, t);
  }

  // Where a token stands that is no list and no interval, no other token does.
  lemma OnlyToken(s: seq<byte>, pos: nat, eof: byte, st: State, t: Token, want: Token)
    requires TokenAt(s, pos, eof, st, t) && TokenAt(s, pos, eof, st, want) && !t.Bracket? && !t.Braces?
    ensures want == t
  {
  }

  // What compile sees of the last operation tells whether a star is plain.
  lemma StarSeen(st: State, w: Work)
    requires Fits(st, w)
    ensures StarIsPlain(st) <==>
      w.lastep == -1 || (0 <= w.lastep < |w.code| && (w.code[w.lastep] == CBRA || w.code[w.lastep] == CKET))
    ensures w.lastep == -1 <==> st.items == []
  {
  }

  // The arms of the compiler's switch for a dot, a dollar sign at the end, and any other byte.
  method TakeByte(s: seq<byte>, eof: byte, w: Work, ghost st: State) returns (next: Work, t: Token)
    requires Fits(st, w) && Get(s, w.pos) != eof && Get(s, w.pos) !in {NEWLINE, BACKSLASH, LBRACKET}
    requires Get(s, w.pos) == ASTERISK ==> StarIsPlain(st)
    ensures Taken(s, eof, st, w, t, next)
  {
    var c := Get(s, w.pos);
    if c == DOT {
      t, next := Dot, Pushed(w, 1, [CDOT]);
      AddTaken(s, eof, st, w, Dot, Any, [CDOT]);
    } else if c == DOLLAR && (Get(s, w.pos + 1) == eof || Get(s, w.pos + 1) == NEWLINE) {
      t, next := Dollar, Pushed(w, 1, [CDOL]);
      AddTaken(s, eof, st, w, Dollar, End, [CDOL]);
    } else {
      t, next := Plain(c), Pushed(w, 1, [CCHR, c]);
      AddTaken(s, eof, st, w, Plain(c), Lit(c), [CCHR, c]);
    }
  }

  /** The switch on a byte that is not a backslash. */
  method TakePlain(s: seq<byte>, eof: byte, cap: int, w: Work, ghost st: State, ghost want: Token)
    returns (err: nat, next: Work, t: Token)
    requires Fits(st, w)
    requires Get(s, w.pos) != eof && Get(s, w.pos) != NEWLINE && Get(s, w.pos) != BACKSLASH
    ensures err != 0 || Taken(s, eof, st, w, t, next)
    ensures !TokenAt(s, w.pos, eof, st, want) || Right(want, cap - |w.code|, err, t)
  {
    var c := Get(s, w.pos);
    if c == LBRACKET {
      err, next, t := TakeList(s, eof, cap, w, st, want);
      return;
    }
    StarSeen(st, w);
    err := 0;
    if c == ASTERISK && w.lastep != -1 && w.code[w.lastep] != CBRA && w.code[w.lastep] != CKET {
      t, next := Star, w.(pos := w.pos + 1, code := w.code[w.lastep := OrStar(w.code[w.lastep])]);
      StarTaken(s, eof, st, w);
    } else {
      next, t := TakeByte(s, eof, w, st);
    }
    if TokenAt(s, w.pos, eof, st, want) { OnlyToken(s, w.pos, eof, st, t, want); }
  }

  // The token looked for has been found, or there was no room for it.
  predicate Right(want: Token, room: int, err: nat, t: Token) {
    if TokenRoom(want, room) then err == 0 && t == want else err == FULL
  }

  // A bracket list.
  method TakeList(s: seq<byte>, eof: byte, cap: int, w: Work, ghost st: State, ghost want: Token)
    returns (err: nat, next: Work, t: Token)
    requires Fits(st, w) && Get(s, w.pos) != eof && Get(s, w.pos) == LBRACKET
    ensures err != 0 || Taken(s, eof, st, w, t, next)
    ensures !TokenAt(s, w.pos, eof, st, want) || Right(want, cap - |w.code|, err, t)
  {
    var pos, seg;
    err, pos, seg, t := TakeBracket(s, w.pos, cap - |w.code|, want);
    next := Pushed(w, TokenWidth(t), seg);
    if err == 0 { AddTaken(s, eof, st, w, t, Set(t.neg, t.elems, t.dash), seg); }
  }

  // The brackets of groups.
  method TakeGroup(s: seq<byte>, eof: byte, w: Work, ghost st: State) returns (err: nat, next: Work, t: Token)
    requires Fits(st, w) && Get(s, w.pos) != eof && Get(s, w.pos) == BACKSLASH
    requires Get(s, w.pos + 1) == LPAREN || Get(s, w.pos + 1) == RPAREN
    ensures t == (if Get(s, w.pos + 1) == LPAREN then Opening else Closing)
    ensures err == 0 <==> TokenAt(s, w.pos, eof, st, t)
    ensures err != 0 || Taken(s, eof, st, w, t, next)
  {
    err, next := 0, w;
    if Get(s, w.pos + 1) == LPAREN {
      t := Opening;
      if w.nbra >= 9 { err := 43; return; }
      next := Pushed(w, 2, [CBRA, w.nbra]).(nbra := w.nbra + 1, stack := w.stack + [w.nbra]);
      OpeningTaken(s, eof, st, w);
    } else {
      t := Closing;
      if w.stack == [] { err := 42; return; }
      var k := w.stack[|w.stack| - 1];
      next := Pushed(w, 2, [CKET, k]).(stack := w.stack[..|w.stack| - 1], closed := w.closed + 1);
      ClosingTaken(s, eof, st, w, k);
    }
  }

  // An interval in braces.
  method TakeInterval(s: seq<byte>, eof: byte, w: Work, ghost st: State, ghost want: Token)
    returns (err: nat, next: Work, t: Token)
    requires Fits(st, w) && Get(s, w.pos) != eof && Get(s, w.pos) == BACKSLASH && Get(s, w.pos + 1) == LBRACE
    requires st.items != []
    ensures err != 0 || Taken(s, eof, st, w, t, next)
    ensures !TokenAt(s, w.pos, eof, st, want) || (err == 0 && t == want)
  {
    var pos, lo, hi;
    StarSeen(st, w);
    err, pos, lo, hi, t := TakeBraces(s, w.pos, want);
    next := w;
    if err == 0 {
      BracesTaken(s, eof, st, w, t, pos, lo, hi);
      next := w.(pos := pos, code := w.code[w.lastep := OrRange(w.code[w.lastep])] + [lo, hi]);
    }
  }

  /** The switch on the byte after a backslash. */
  method TakeEscape(s: seq<byte>, eof: byte, w: Work, ghost st: State, ghost want: Token)
    returns (err: nat, next: Work, t: Token)
    requires Fits(st, w) && Get(s, w.pos) != eof && Get(s, w.pos) == BACKSLASH
    ensures err != 0 || Taken(s, eof, st, w, t, next)
    ensures !TokenAt(s, w.pos, eof, st, want) || (err == 0 && t == want && !want.Bracket?)
  {
    var c := Get(s, w.pos + 1);
    StarSeen(st, w);
    err, next, t := 0, w, Dot;
    if c == LPAREN || c == RPAREN {
      err, next, t := TakeGroup(s, eof, w, st);
    } else if c == LBRACE && w.lastep != -1 {
      err, next, t := TakeInterval(s, eof, w, st, want);
    } else if c == NEWLINE {
      err := 36;
    } else if ZERO < c <= ZERO + 9 {
      var d := c - ZERO - 1;
      if d >= w.closed { err := 25; return; }
      t, next := Digit(d + 1), Pushed(w, 2, [CBACK, d]);
      AddTaken(s, eof, st, w, t, Back(d), [CBACK, d]);
    } else {
      var lit: byte := if c == 110 then NEWLINE else c;
      t, next := Escaped(c), Pushed(w, 2, [CCHR, lit]);
      AddTaken(s, eof, st, w, t, Lit(lit), [CCHR, lit]);
    }
  }

  /** A new program, the program of the last pattern again, or an error. */
  datatype Result = Compiled(code: seq<byte>, circf: bool, nbra: nat) | Same | Error(number: nat)

  lemma HeadingNext(s: seq<byte>, eof: byte, sed: bool, want: seq<Token>, ts: seq<Token>)
    requires Written(s, eof, sed, want) && |ts| < |want| && ts == want[..|ts|]
    ensures TokenAt(s, Start(s) + Width(ts), eof, After(ts), want[|ts|])
  {
    SpelledPrefix(s, Start(s), eof, want, |ts|, ts);
  }

  /** The program is that of the items and nothing else. */
  ghost predicate ProgramOf(code: seq<byte>, items: seq<Item>) {
    Program(code, items) && |code| == Offset(items, |items|) + 1
  }

  /** The program of a pattern: its code and the end mark. It is that of its items exactly when the pattern is
    * not spoilt. */
  ghost predicate Translates(r: Result, s: seq<byte>, ts: seq<Token>) {
    && r.Compiled? && r.circf == (Get(s, 0) == CARET) && r.nbra == After(ts).nbra && |r.code| == CodeLength(ts) + 1
    && r.code[|r.code| - 1] == CCEOF && Coded(ts, r.code[..|r.code| - 1])
    && (!After(ts).spoilt <==> ProgramOf(r.code, After(ts).items))
  }

  lemma EndsProgram(code: seq<byte>, lastep: int, st: State)
    requires Emitted(code, lastep, st) && !st.spoilt && Regular(st.items)
    ensures Program(code + [CCEOF], st.items)
  {
    forall i | 0 <= i < |st.items| ensures LaidAt(code + [CCEOF], st.items, i) {
      LaidAtChanged(code, code + [CCEOF], st.items, st.items, |st.items|, i);
    }
  }

  lemma WholeProgram(s: seq<byte>, eof: byte, sed: bool, ts: seq<Token>, code: seq<byte>, lastep: int, whole: seq<byte>)
    requires Written(s, eof, sed, ts) && Emitted(code, lastep, After(ts)) && CodeOf(ts, code, lastep)
    requires |code| == CodeLength(ts) && whole == code + [CCEOF]
    ensures whole[|whole| - 1] == CCEOF && Coded(ts, whole[..|whole| - 1])
    ensures !After(ts).spoilt <==> ProgramOf(whole, After(ts).items)
  {
    assert whole[..|code|] == code;
    UnspoiltWhen(s, eof, sed, ts);
    if !After(ts).spoilt { EndsProgram(code, lastep, After(ts)); }
  }

  // One token of the pattern.
  method TakeToken(s: seq<byte>, cap: int, eof: byte, w: Work, ghost st: State, ghost want: Token)
    returns (err: nat, next: Work, t: Token)
    requires Fits(st, w) && Get(s, w.pos) != eof && Get(s, w.pos) != NEWLINE
    ensures err != 0 || Taken(s, eof, st, w, t, next)
    ensures !TokenAt(s, w.pos, eof, st, want) || Right(want, cap - |w.code|, err, t)
  {
    if Get(s, w.pos) == BACKSLASH {
      err, next, t := TakeEscape(s, eof, w, st, want);
    } else {
      err, next, t := TakePlain(s, eof, cap, w, st, want);
    }
  }

  // The tokens looked for, if they are written here, have begun with ts and found room so far.
  ghost predicate OnCourse(written: bool, cap: int, want: seq<Token>, ts: seq<Token>) {
    !written || (|ts| <= |want| && ts == want[..|ts|] && RoomUpTo(want, |ts|, cap))
  }

  lemma RoomNow(want: seq<Token>, ts: seq<Token>, cap: int)
    requires |ts| <= |want| && ts == want[..|ts|] && CodeLength(ts) < cap
    ensures RoomAt(want, |ts|, cap) <==> (|ts| < |want| ==> TokenRoom(want[|ts|], cap - CodeLength(ts)))
  {
  }

  lemma PrefixOn(want: seq<Token>, ts: seq<Token>)
    requires |ts| <= |want| && ts == want[..|ts|]
    ensures |ts| < |want| ==> want[..|ts| + 1] == ts + [want[|ts|]]
    ensures |ts| == |want| ==> ts == want
  {
  }

  // What comes of one more token, or of none.
  lemma CourseStep(written: bool, cap: int, want: seq<Token>, ts: seq<Token>, err: nat, t: Token)
    requires OnCourse(written, cap, want, ts) && CodeLength(ts) < cap && (written ==> ts != want)
    requires written && |ts| < |want| ==> Right(want[|ts|], cap - CodeLength(ts), err, t)
    ensures err == 0 ==> OnCourse(written, cap, want, ts + [t])
    ensures err != 0 && written ==> err == FULL && !RoomFor(want, cap)
  {
    if written {
      RoomNow(want, ts, cap);
      PrefixOn(want, ts);
      if err != 0 { NoRoom(want, |ts|, |want| + 1, cap); }
    }
  }

  // The buffer is full before the next token.
  lemma CourseFull(written: bool, cap: int, want: seq<Token>, ts: seq<Token>)
    requires OnCourse(written, cap, want, ts) && CodeLength(ts) >= cap
    ensures written ==> !RoomFor(want, cap)
  {
    if written { NoRoom(want, |ts|, |want| + 1, cap); }
  }

  // The pattern ends here.
  lemma CourseEnds(written: bool, cap: int, want: seq<Token>, ts: seq<Token>)
    requires OnCourse(written, cap, want, ts) && CodeLength(ts) < cap && (written ==> |ts| == |want|)
    ensures written ==> ts == want && RoomFor(want, cap)
  {
    if written {
      RoomNow(want, ts, cap);
      PrefixOn(want, ts);
    }
  }

  // The tokens looked for end where the pattern does, and go on where it does.
  lemma NextDue(s: seq<byte>, eof: byte, sed: bool, want: seq<Token>, ts: seq<Token>)
    requires Written(s, eof, sed, want) && |ts| <= |want| && ts == want[..|ts|]
    ensures Delimits(Get(s, Start(s) + Width(ts)), eof) <==> |ts| == |want|
    ensures |ts| < |want| ==> TokenAt(s, Start(s) + Width(ts), eof, After(ts), want[|ts|])
  {
    if |ts| < |want| { HeadingNext(s, eof, sed, want, ts); } else { assert ts == want; }
  }

  // The end of the pattern.
  method Finish(s: seq<byte>, eof: byte, sed: bool, w: Work, ghost ts: seq<Token>) returns (r: Result)
    requires Good(s, eof, ts, w) && Ended(s, w.pos, eof, sed) && !Delimits(Get(s, 0), eof)
    ensures if Written(s, eof, sed, ts) then Translates(r, s, ts) else r == Error(42)
  {
    GoodFits(s, eof, ts, w);
    if w.stack != [] { return Error(42); }
    if Written(s, eof, sed, ts) { WholeProgram(s, eof, sed, ts, w.code, w.lastep, w.code + [CCEOF]); }
    r := Compiled(w.code + [CCEOF], Get(s, 0) == CARET, w.nbra);
  }

  /** Compiles a pattern into at most `cap` bytes; `first` is the first byte of the buffer beforehand. */
  method Compile(s: seq<byte>, cap: int, eof: byte, sed: bool, first: byte, ghost want: seq<Token>)
    returns (r: Result, ghost ts: seq<Token>)
    ensures r.Compiled? ==> Written(s, eof, sed, ts) && Translates(r, s, ts)
    ensures Written(s, eof, sed, want) ==>
      if RoomFor(want, cap) then r.Compiled? && ts == want else r == Error(FULL)
    ensures r.Same? <==> Delimits(Get(s, 0), eof) && (first != 0 || sed)
  {
    ts := [];
    if Delimits(Get(s, 0), eof) {
      r := if first == 0 && !sed then Error(41) else Same;
      return;
    }
    ghost var written := Written(s, eof, sed, want);
    var w := Work(Start(s), [], -1, 0, [], 0);
    while true
      invariant Good(s, eof, ts, w) && OnCourse(written, cap, want, ts)
      decreases |s| - w.pos
    {
      GoodAt(s, eof, ts, w);
      if written { NextDue(s, eof, sed, want, ts); }
      if |w.code| >= cap {
        CourseFull(written, cap, want, ts);
        return Error(FULL), ts;
      }
      if Delimits(Get(s, w.pos), eof) {
        CourseEnds(written, cap, want, ts);
        if !Ended(s, w.pos, eof, sed) { return Error(36), ts; }
        r := Finish(s, eof, sed, w, ts);
        return;
      }
      var err, next;
      ghost var more;
      err, next, more := OneMore(s, cap, eof, w, ts, want, written);
      if err != 0 { return Error(err), ts; }
      w, ts := next, more;
    }
  }

  // One turn of the loop.
  method OneMore(s: seq<byte>, cap: int, eof: byte, w: Work, ghost ts: seq<Token>, ghost want: seq<Token>,
    ghost written: bool) returns (err: nat, next: Work, ghost more: seq<Token>)
    requires Good(s, eof, ts, w) && |w.code| < cap && !Delimits(Get(s, w.pos), eof)
    requires OnCourse(written, cap, want, ts) && (written ==> ts != want)
    requires written && |ts| < |want| ==> TokenAt(s, w.pos, eof, After(ts), want[|ts|])
    ensures err == 0 ==> Good(s, eof, more, next) && OnCourse(written, cap, want, more) && next.pos > w.pos
    ensures err != 0 && written ==> err == FULL && !RoomFor(want, cap)
  {
    GoodFits(s, eof, ts, w);
    ghost var due := if |ts| < |want| then want[|ts|] else Dot;
    var t;
    err, next, t := TakeToken(s, cap, eof, w, After(ts), due);
    CourseStep(written, cap, want, ts, err, t);
    more := ts + [t];
    if err == 0 { GoodNext(s, eof, ts, w, t, next); }
  }
}
