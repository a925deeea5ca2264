/** The byte code of the ed-style matcher: how a compiled pattern lays out its items (regexp.h). */
module EdCode {
  import opened Basics
  import opened EdPattern

  const CBRA: byte := 2
  const CCHR: byte := 4
  const CDOT: byte := 8
  const CCL: byte := 12
  const CXCL: byte := 16
  const CDOL: byte := 20
  const CCEOF: byte := 22
  const CKET: byte := 24
  const CBACK: byte := 36
  const NCCL: byte := 40
  const STAR: byte := 1
  const RNGE: byte := 3

  // ------------------------------------------------------------------ bit maps

  predicate Bit(b: nat, i: nat) {
    if i == 0 then b % 2 == 1 else Bit(b / 2, i - 1)
  }

  function Bytes(width: nat): nat { if width == 0 then 1 else 2 * Bytes(width - 1) }

  /** b |= bittab[i] */
  function WithBit(b: nat, i: nat, width: nat): (r: nat)
    requires i < width
    ensures forall j: nat :: j < width ==> Bit(r, j) == (j == i || Bit(b, j))
    ensures b < Bytes(width) ==> r < Bytes(width)
    decreases width
  {
    if i == 0 then b - b % 2 + 1 else
      var high := WithBit(b / 2, i - 1, width - 1);
      var r := 2 * high + b % 2;
      assert r / 2 == high;
      assert forall j: nat :: 0 < j < width ==> Bit(r, j) == Bit(high, j - 1) && Bit(b, j) == Bit(b / 2, j - 1);
      r
  }

  /** b ^= 0377, for a byte of the given width */
  function Flipped(b: nat, width: nat): (r: nat)
    ensures forall j: nat :: j < width ==> Bit(r, j) == !Bit(b, j)
    ensures r < Bytes(width)
    decreases width
  {
    if width == 0 then 0 else
      var high := Flipped(b / 2, width - 1);
      var r := 2 * high + 1 - b % 2;
      assert r / 2 == high;
      assert forall j: nat :: 0 < j < width ==> Bit(r, j) == Bit(high, j - 1) && Bit(b, j) == Bit(b / 2, j - 1);
      r
  }

  /** b &= 0376 */
  function WithoutLow(b: nat): (r: nat)
    ensures r <= b && forall j: nat :: Bit(r, j) == (j != 0 && Bit(b, j))
  {
    b - b % 2
  }

  /** c >> 3 */
  function ByteOf(c: nat): (r: nat)
    ensures 8 * r <= c < 8 * r + 8
  {
    if c < 8 then 0 else 1 + ByteOf(c - 8)
  }

  /** c & 07 */
  function BitOf(c: nat): (r: nat)
    ensures r < 8
  {
    c - 8 * ByteOf(c)
  }

  /** Bit c of the map that begins at byte `at` (ISTHERE). */
  predicate IsThere(code: seq<byte>, at: nat, c: nat)
    requires at + ByteOf(c) < |code|
  {
    Bit(code[at + ByteOf(c)], BitOf(c))
  }

  // ------------------------------------------------------------------ the layout of items

  /** A list that names a byte from 128 up takes a map of 256 bits. */
  predicate Wide(elems: seq<Elem>) {
    elems != [] && (elems[|elems| - 1].c >= 128 || Wide(elems[..|elems| - 1]))
  }

  lemma {:induction false} WideNames(elems: seq<Elem>, i: nat)
    requires i < |elems| && elems[i].c >= 128
    ensures Wide(elems)
  {
    if i < |elems| - 1 { WideNames(elems[..|elems| - 1], i); }
  }

  /** The bit that the map of a list holds for x: in a narrow map it is turned round on use. */
  predicate Stored(neg: bool, elems: seq<Elem>, dash: bool, x: nat) {
    if !Wide(elems) then InList(elems, dash, x) || (x == 0 && neg)
    else if neg then x != 0 && !InList(elems, dash, x) else InList(elems, dash, x)
  }

  function MapBytes(elems: seq<Elem>): nat { if Wide(elems) then 32 else 16 }

  function Operand(a: Atom): nat {
    match a
    case Lit(_) => 1
    case Any => 0
    case Set(_, elems, _) => MapBytes(elems)
    case End => 0
    case _ => 1
  }

  function Size(item: Item): (n: nat)
    ensures n >= 1
  {
    1 + Operand(item.atom) + (if item.quant.Times? then 2 else 0)
  }

  function Op(a: Atom): byte {
    match a
    case Lit(_) => CCHR
    case Any => CDOT
    case Set(neg, elems, _) => if Wide(elems) then CXCL else if neg then NCCL else CCL
    case Open(_) => CBRA
    case Close(_) => CKET
    case Back(_) => CBACK
    case End => CDOL
  }

  function Mode(q: Quant): byte {
    match q case Once => 0 case Many => STAR case Times(_, _) => RNGE
  }

  /** The bytes are the code of an item. */
  ghost predicate Seg(seg: seq<byte>, item: Item) {
    && |seg| == Size(item) && seg[0] == Op(item.atom) + Mode(item.quant) && OperandOf(seg, item.atom)
    && (item.quant.Times? ==> seg[|seg| - 2] == item.quant.least && seg[|seg| - 1] == item.quant.most)
  }

  ghost predicate OperandOf(seg: seq<byte>, a: Atom)
    requires Operand(a) < |seg|
  {
    match a
    case Lit(c) => seg[1] == c
    case Set(neg, elems, dash) => MapOf(seg, neg, elems, dash, 8 * MapBytes(elems))
    case Open(k) => seg[1] == k
    case Close(k) => seg[1] == k
    case Back(k) => seg[1] == k
    case _ => true
  }

  // The first n bits of the map are those stored for the list.
  ghost predicate MapOf(seg: seq<byte>, neg: bool, elems: seq<Elem>, dash: bool, n: nat)
    requires n <= 8 * (|seg| - 1)
  {
    n == 0 || (IsThere(seg, 1, n - 1) == Stored(neg, elems, dash, n - 1) && MapOf(seg, neg, elems, dash, n - 1))
  }

  lemma {:induction false} MapOfAll(seg: seq<byte>, neg: bool, elems: seq<Elem>, dash: bool, n: nat)
    requires n <= 8 * (|seg| - 1)
    ensures MapOf(seg, neg, elems, dash, n) <==>
      forall x: nat | x < n :: IsThere(seg, 1, x) == Stored(neg, elems, dash, x)
  {
    if n > 0 { MapOfAll(seg, neg, elems, dash, n - 1); }
  }

  ghost predicate SegAt(code: seq<byte>, ep: nat, item: Item) {
    ep + Size(item) <= |code| && Seg(code[ep..ep + Size(item)], item)
  }

  function Offset(items: seq<Item>, i: nat): nat
    requires i <= |items|
  {
    if i == 0 then 0 else Offset(items, i - 1) + Size(items[i - 1])
  }

  lemma {:induction false} OffsetSame(items: seq<Item>, other: seq<Item>, i: nat)
    requires i <= |items| && i <= |other| && items[..i] == other[..i]
    ensures Offset(items, i) == Offset(other, i)
  {
    if i > 0 {
      assert items[..i][..i - 1] == items[..i - 1] && other[..i][..i - 1] == other[..i - 1];
      assert items[..i][i - 1] == items[i - 1] && other[..i][i - 1] == other[i - 1];
      OffsetSame(items, other, i - 1);
    }
  }

  /** The code begins with the given items, one after another. */
  ghost predicate Laid(code: seq<byte>, items: seq<Item>) {
    && Offset(items, |items|) <= |code|
    && forall i :: 0 <= i < |items| ==> LaidAt(code, items, i)
  }

  ghost predicate LaidAt(code: seq<byte>, items: seq<Item>, i: nat)
    requires i < |items|
  {
    SegAt(code, Offset(items, i), items[i])
  }

  /** A whole program: the items and the end mark. */
  ghost predicate Program(code: seq<byte>, items: seq<Item>) {
    Laid(code, items) && Offset(items, |items|) < |code| && code[Offset(items, |items|)] == CCEOF && Regular(items)
  }

  predicate Testable(code: seq<byte>, ep: nat) {
    ep < |code| &&
    var op := code[ep] / 4 * 4;
    if op == CCHR then ep + 2 <= |code|
    else if op == CXCL then ep + 33 <= |code|
    else if op == CCL || op == NCCL then ep + 17 <= |code|
    else op == CDOT
  }

  /** The matcher's test of one byte of text against the operation at ep. */
  predicate Takes(code: seq<byte>, ep: nat, c: byte)
    requires Testable(code, ep)
  {
    var op := code[ep] / 4 * 4;
    if op == CCHR then code[ep + 1] == c
    else if op == CDOT then c != NUL
    else if op == CXCL then IsThere(code, ep + 1, c)
    else if op == CCL then c < 128 && IsThere(code, ep + 1, c)
    else op == NCCL && !(c < 128 && IsThere(code, ep + 1, c))
  }

  /** The test of the code is the meaning of the item, except that the terminator passes exactly the tests of a
    * zero literal and of a list, not complemented, that names a zero byte. */
  lemma TakesMeans(code: seq<byte>, ep: nat, item: Item, c: byte)
    requires Simple(item.atom) && SegAt(code, ep, item)
    ensures Testable(code, ep) && Takes(code, ep, c) == if c == NUL then TakesNul(item.atom) else Accepts(item.atom, c)
  {
    var seg := code[ep..ep + Size(item)];
    match item.atom
    case Set(neg, elems, dash) =>
      ZeroInList(elems, dash);
      MapOfAll(seg, neg, elems, dash, 8 * MapBytes(elems));
      assert c < 8 * MapBytes(elems) ==> IsThere(seg, 1, c) == Stored(neg, elems, dash, c);
      assert c < 8 * MapBytes(elems) ==> IsThere(seg, 1, c) == IsThere(code, ep + 1, c);
      if c >= 128 && !Wide(elems) {
        NarrowList(elems, dash, c);
      }
    case _ =>
  }

  lemma ZeroInList(elems: seq<Elem>, dash: bool)
    ensures InList(elems, dash, 0) <==> !Nonzero(elems)
  {
    if !Nonzero(elems) {
      var i: nat :| i < |elems| && elems[i].c == NUL;
      assert Covers(elems, i, 0);
    }
  }

  lemma NarrowList(elems: seq<Elem>, dash: bool, c: byte)
    requires c >= 128 && !Wide(elems)
    ensures !InList(elems, dash, c)
  {
    forall i: nat | i < |elems| ensures elems[i].c < 128 {
      if elems[i].c >= 128 { WideNames(elems, i); }
    }
  }
}
