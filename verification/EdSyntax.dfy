/** The written form of the ed-style patterns (regexp.h): tokens, where they stand in the input, and
  * the items they add up to. */
module EdSyntax {
  import opened Basics
  import opened EdPattern
  import opened EdCode

  /** The compiler's input is a line: past its last byte there is a newline. */
  function Get(s: seq<byte>, k: nat): byte { if k < |s| then s[k] else NEWLINE }

  const CARET: byte := 94
  const DOT: byte := 46
  const ASTERISK: byte := 42
  const DOLLAR: byte := 36
  const LBRACKET: byte := 91
  const RBRACKET: byte := 93
  const BACKSLASH: byte := 92
  const LPAREN: byte := 40
  const RPAREN: byte := 41
  const LBRACE: byte := 123
  const RBRACE: byte := 125
  const COMMA: byte := 44
  const ZERO: byte := 48

  /** `Braces` is \{first\}, \{first,\} or \{first,second\}. */
  datatype Token =
    | Plain(c: byte) | Escaped(c: byte) | Dot | Star | Dollar
    | Bracket(neg: bool, elems: seq<Elem>, dash: bool)
    | Opening | Closing | Digit(d: nat)
    | Braces(first: seq<byte>, comma: bool, second: seq<byte>)

  // ------------------------------------------------------------------ bracket lists

  function LastByte(es: seq<Elem>): byte { if es == [] then NUL else es[|es| - 1].c }

  /** Whether e may follow the elements es in a list: a dash is plain only at the front. */
  predicate ElemAllowed(neg: bool, es: seq<Elem>, e: Elem) {
    match e
    case Single(c) =>
      && c != NUL && c != NEWLINE && (c == DASH ==> LastByte(es) == NUL)
      && (if es == [] then neg || c != CARET else c != RBRACKET)
    case To(c) => LastByte(es) != NUL && c != RBRACKET
  }

  function ElemWidth(e: Elem): nat { if e.Single? then 1 else 2 }

  predicate ElemAt(s: seq<byte>, pos: nat, e: Elem) {
    if e.Single? then Get(s, pos) == e.c else Get(s, pos) == DASH && Get(s, pos + 1) == e.c
  }

  function ElemsWidth(es: seq<Elem>): nat {
    if es == [] then 0 else ElemsWidth(es[..|es| - 1]) + ElemWidth(es[|es| - 1])
  }

  predicate ElemsAt(s: seq<byte>, pos: nat, neg: bool, es: seq<Elem>) {
    es == [] ||
    var init, e := es[..|es| - 1], es[|es| - 1];
    ElemsAt(s, pos, neg, init) && ElemAllowed(neg, init, e) && ElemAt(s, pos + ElemsWidth(init), e)
  }

  /** The elements are followed by the closing bracket, or by a plain dash and it. */
  predicate ListEnds(s: seq<byte>, end: nat, es: seq<Elem>, dash: bool) {
    if dash then LastByte(es) != NUL && Get(s, end) == DASH && Get(s, end + 1) == RBRACKET else Get(s, end) == RBRACKET
  }

  predicate ListAt(s: seq<byte>, from: nat, neg: bool, es: seq<Elem>, dash: bool) {
    es != [] && ElemsAt(s, from, neg, es) && ListEnds(s, from + ElemsWidth(es), es, dash)
  }

  predicate BracketAt(s: seq<byte>, pos: nat, neg: bool, es: seq<Elem>, dash: bool) {
    Get(s, pos) == LBRACKET && (neg ==> Get(s, pos + 1) == CARET) &&
    ListAt(s, pos + (if neg then 2 else 1), neg, es, dash)
  }

  lemma {:induction false} ElemsPrefix(s: seq<byte>, pos: nat, neg: bool, es: seq<Elem>, j: nat)
    requires ElemsAt(s, pos, neg, es) && j < |es|
    ensures ElemsAt(s, pos, neg, es[..j]) && ElemAllowed(neg, es[..j], es[j])
    ensures ElemAt(s, pos + ElemsWidth(es[..j]), es[j])
  {
    var init := es[..|es| - 1];
    if j < |es| - 1 {
      ElemsPrefix(s, pos, neg, init, j);
      assert init[..j] == es[..j];
    }
  }

  // ------------------------------------------------------------------ intervals

  predicate Decimal(c: byte) { ZERO <= c <= ZERO + 9 }

  function Value(ds: seq<byte>): int {
    if ds == [] then 0 else 10 * Value(ds[..|ds| - 1]) + ds[|ds| - 1] - ZERO
  }

  lemma {:induction false} ValueNatural(ds: seq<byte>)
    requires forall k :: 0 <= k < |ds| ==> Decimal(ds[k])
    ensures Value(ds) >= 0
  {
    if ds != [] { ValueNatural(ds[..|ds| - 1]); }
  }

  /** A number stands at pos, and the mark that ends it after it. */
  predicate NumberAt(s: seq<byte>, pos: nat, ds: seq<byte>, mark: byte) {
    && ds != [] && (forall k :: 0 <= k < |ds| ==> Decimal(ds[k]) && Get(s, pos + k) == ds[k])
    && Get(s, pos + |ds|) == mark && Value(ds) < 255
  }

  predicate BracesAt(s: seq<byte>, pos: nat, first: seq<byte>, comma: bool, second: seq<byte>) {
    var p := pos + 2 + |first|;
    && Get(s, pos) == BACKSLASH && Get(s, pos + 1) == LBRACE
    && NumberAt(s, pos + 2, first, if comma then COMMA else BACKSLASH)
    && (if !comma then second == [] && Get(s, p + 1) == RBRACE
        else if second == [] then Get(s, p + 1) == BACKSLASH && Get(s, p + 2) == RBRACE
        else NumberAt(s, p + 1, second, BACKSLASH) && Get(s, p + 2 + |second|) == RBRACE &&
             Value(first) <= Value(second))
  }

  /** The greatest number of repetitions that braces allow, 255 standing for no limit. */
  function Upper(t: Token): int
    requires t.Braces?
  {
    if !t.comma then Value(t.first) else if t.second == [] then 255 else Value(t.second)
  }

  // ------------------------------------------------------------------ tokens and what they build

  /** `spoilt` notes an interval on a group, on a reference, or on an item that has one already. */
  datatype State = State(items: seq<Item>, nbra: nat, stack: seq<nat>, closed: nat, spoilt: bool)

  function Add(st: State, a: Atom): State { st.(items := st.items + [Item(a, Once)]) }

  function Last(st: State): Item
    requires st.items != []
  {
    st.items[|st.items| - 1]
  }

  function Requantified(st: State, q: Quant): State
    requires st.items != []
  {
    st.(items := st.items[..|st.items| - 1] + [Last(st).(quant := q)])
  }

  predicate IsBound(x: int) { 0 <= x < 256 }

  /** The next state; a star after an interval changes nothing. */
  function Next(st: State, t: Token): State {
    match t
    case Plain(c) => Add(st, Lit(c))
    case Escaped(c) => Add(st, Lit(if c == 110 then NEWLINE else c))
    case Dot => Add(st, Any)
    case Dollar => Add(st, End)
    case Bracket(neg, elems, dash) => Add(st, Set(neg, elems, dash))
    case Star => if st.items == [] || Last(st).quant.Times? then st else Requantified(st, Many)
    case Opening => Add(st, Open(st.nbra)).(nbra := st.nbra + 1, stack := st.stack + [st.nbra])
    case Closing =>
      if st.stack == [] then st
      else Add(st, Close(st.stack[|st.stack| - 1])).(stack := st.stack[..|st.stack| - 1], closed := st.closed + 1)
    case Digit(d) => if d == 0 then st else Add(st, Back(d - 1))
    case Braces(first, _, _) =>
      if st.items == [] || !IsBound(Value(first)) || !IsBound(Upper(t)) then st
      else
        var spoils := Last(st).quant.Times? || !Simple(Last(st).atom);
        Requantified(st, Times(Value(first), Upper(t))).(spoilt := st.spoilt || spoils)
  }

  /** A star here would be a plain asterisk: at the front, or just after a bracket of a group. */
  predicate StarIsPlain(st: State) {
    st.items == [] || ((Last(st).atom.Open? || Last(st).atom.Close?) && Last(st).quant == Once)
  }

  /** The end of the pattern: the delimiter, or a newline outside sed. */
  predicate Ended(s: seq<byte>, pos: nat, eof: byte, sed: bool) {
    Get(s, pos) == eof || (!sed && Get(s, pos) == NEWLINE)
  }

  predicate Delimits(c: byte, eof: byte) { c == eof || c == NEWLINE }

  /** Token t stands at pos and may do so in the given state. */
  predicate TokenAt(s: seq<byte>, pos: nat, eof: byte, st: State, t: Token) {
    Get(s, pos) != eof &&
    match t
    case Plain(c) =>
      && Get(s, pos) == c && c != DOT && c != NEWLINE && c != LBRACKET && c != BACKSLASH
      && (c == ASTERISK ==> StarIsPlain(st)) && (c == DOLLAR ==> !Delimits(Get(s, pos + 1), eof))
    case Escaped(c) =>
      && Get(s, pos) == BACKSLASH && Get(s, pos + 1) == c
      && c != LPAREN && c != RPAREN && c != NEWLINE && !(ZERO < c <= ZERO + 9) && (c == LBRACE ==> st.items == [])
    case Dot => Get(s, pos) == DOT
    case Star => Get(s, pos) == ASTERISK && !StarIsPlain(st)
    case Dollar => Get(s, pos) == DOLLAR && Delimits(Get(s, pos + 1), eof)
    case Bracket(neg, elems, dash) => BracketAt(s, pos, neg, elems, dash)
    case Opening => Get(s, pos) == BACKSLASH && Get(s, pos + 1) == LPAREN && st.nbra < 9
    case Closing => Get(s, pos) == BACKSLASH && Get(s, pos + 1) == RPAREN && st.stack != []
    case Digit(d) => Get(s, pos) == BACKSLASH && Get(s, pos + 1) == ZERO + d && 1 <= d <= 9 && d <= st.closed
    case Braces(first, comma, second) => BracesAt(s, pos, first, comma, second) && st.items != []
  }

  function TokenWidth(t: Token): nat {
    match t
    case Plain(_) => 1
    case Dot => 1
    case Star => 1
    case Dollar => 1
    case Bracket(neg, elems, dash) => (if neg then 3 else 2) + ElemsWidth(elems) + (if dash then 1 else 0)
    case Braces(first, comma, second) => 4 + |first| + (if comma then 1 + |second| else 0)
    case _ => 2
  }

  /** The bytes of code that a token adds. */
  function CodeWidth(t: Token): nat {
    match t
    case Star => 0
    case Dot => 1
    case Dollar => 1
    case Bracket(_, elems, _) => 1 + MapBytes(elems)
    case _ => 2
  }

  /** The room tests that compile makes for a token, with `room` bytes of the buffer left. */
  predicate TokenRoom(t: Token, room: int) { t.Bracket? ==> room > 17 && (Wide(t.elems) ==> room > 33) }

  /** The code before token k leaves room for something, and for token k. */
  predicate RoomAt(ts: seq<Token>, k: nat, cap: int)
    requires k <= |ts|
  {
    var room := cap - CodeLength(ts[..k]);
    room > 0 && (k < |ts| ==> TokenRoom(ts[k], room))
  }

  /** The first n of the tests succeed. */
  predicate RoomUpTo(ts: seq<Token>, n: nat, cap: int)
    requires n <= |ts| + 1
  {
    n == 0 || (RoomUpTo(ts, n - 1, cap) && RoomAt(ts, n - 1, cap))
  }

  /** The tests made while the tokens are read, and before the end mark, all succeed. */
  predicate RoomFor(ts: seq<Token>, cap: int) { RoomUpTo(ts, |ts| + 1, cap) }

  lemma {:induction false} NoRoom(ts: seq<Token>, k: nat, n: nat, cap: int)
    requires k < n <= |ts| + 1 && !RoomAt(ts, k, cap)
    ensures !RoomUpTo(ts, n, cap)
  {
    if k < n - 1 { NoRoom(ts, k, n - 1, cap); }
  }

  function CodeLength(ts: seq<Token>): nat {
    if ts == [] then 0 else CodeLength(ts[..|ts| - 1]) + CodeWidth(ts[|ts| - 1])
  }

  function After(ts: seq<Token>): State {
    if ts == [] then State([], 0, [], 0, false) else Next(After(ts[..|ts| - 1]), ts[|ts| - 1])
  }

  function Width(ts: seq<Token>): nat {
    if ts == [] then 0 else Width(ts[..|ts| - 1]) + TokenWidth(ts[|ts| - 1])
  }

  /** The tokens stand one after another from `start` on. */
  predicate Spelled(s: seq<byte>, start: nat, eof: byte, ts: seq<Token>) {
    ts == [] ||
    var init := ts[..|ts| - 1];
    Spelled(s, start, eof, init) && TokenAt(s, start + Width(init), eof, After(init), ts[|ts| - 1])
  }

  /** Where the tokens begin: after a caret that ties the pattern to the beginning of the text. */
  function Start(s: seq<byte>): nat { if Get(s, 0) == CARET then 1 else 0 }

  /** The input is a whole pattern made of the tokens ts. */
  predicate Written(s: seq<byte>, eof: byte, sed: bool, ts: seq<Token>) {
    && !Delimits(Get(s, 0), eof)
    && Spelled(s, Start(s), eof, ts) && Ended(s, Start(s) + Width(ts), eof, sed) && After(ts).stack == []
  }

  lemma {:induction false} SpelledPrefix(s: seq<byte>, start: nat, eof: byte, ts: seq<Token>, k: nat,
                                         prefix: seq<Token>)
    requires Spelled(s, start, eof, ts) && k < |ts| && prefix == ts[..k]
    ensures Spelled(s, start, eof, prefix) && TokenAt(s, start + Width(prefix), eof, After(prefix), ts[k])
  {
    var init := ts[..|ts| - 1];
    if k < |ts| - 1 {
      assert init[..k] == prefix;
      SpelledPrefix(s, start, eof, init, k, prefix);
    } else {
      assert init == prefix;
    }
  }

  // One more token.
  lemma TokensSnoc(ts: seq<Token>, t: Token, more: seq<Token>)
    requires more == ts + [t]
    ensures After(more) == Next(After(ts), t)
    ensures Width(more) == Width(ts) + TokenWidth(t) && CodeLength(more) == CodeLength(ts) + CodeWidth(t)
  {
    assert more[..|ts|] == ts;
  }

  lemma SpelledSnoc(s: seq<byte>, start: nat, eof: byte, ts: seq<Token>, t: Token, more: seq<Token>)
    requires Spelled(s, start, eof, ts) && more == ts + [t]
    ensures Spelled(s, start, eof, more) == TokenAt(s, start + Width(ts), eof, After(ts), t)
  {
    assert more[..|ts|] == ts;
  }

  lemma SpelledOn(s: seq<byte>, eof: byte, ts: seq<Token>, t: Token, more: seq<Token>, st: State, st': State, pos: nat)
    requires Spelled(s, 0, eof, ts) && After(ts) == st && Width(ts) == pos
    requires more == ts + [t] && (TokenAt(s, pos, eof, st, t), Next(st, t)) == (true, st')
    ensures Spelled(s, 0, eof, more) && After(more) == st' && Width(more) == pos + TokenWidth(t)
  {
    TokensSnoc(ts, t, more);
    SpelledSnoc(s, 0, eof, ts, t, more);
  }

  const OPEN_REFERENCE: seq<byte> := [92, 40, 92, 40, 92, 41, 92, 49, 92, 41, 47]

  lemma OpenReferenceOpens(st: State)
    requires st == State([Item(Open(0), Once), Item(Open(1), Once)], 2, [0, 1], 0, false)
    ensures var ts := [Opening, Opening]; Spelled(OPEN_REFERENCE, 0, 47, ts) && After(ts) == st && Width(ts) == 4
  {
    var s0 := State([], 0, [], 0, false);
    var s1 := State([Item(Open(0), Once)], 1, [0], 0, false);
    assert Next(s0, Opening) == s1;
    SpelledOn(OPEN_REFERENCE, 47, [], Opening, [Opening], s0, s1, 0);
    assert Next(s1, Opening) == st;
    SpelledOn(OPEN_REFERENCE, 47, [Opening], Opening, [Opening, Opening], s1, st, 2);
  }

  lemma OpenReferenceBegins(ts: seq<Token>, st: State)
    requires ts == [Opening, Opening, Closing]
    requires st == State([Item(Open(0), Once), Item(Open(1), Once), Item(Close(1), Once)], 2, [0], 1, false)
    ensures Spelled(OPEN_REFERENCE, 0, 47, ts) && After(ts) == st && Width(ts) == 6
  {
    var before := State([Item(Open(0), Once), Item(Open(1), Once)], 2, [0, 1], 0, false);
    OpenReferenceOpens(before);
    assert Next(before, Closing) == st;
    SpelledOn(OPEN_REFERENCE, 47, [Opening, Opening], Closing, ts, before, st, 4);
  }

  lemma OpenReferenceGoesOn(ts: seq<Token>, st: State)
    requires ts == [Opening, Opening, Closing, Digit(1)]
    requires st.items == [Item(Open(0), Once), Item(Open(1), Once), Item(Close(1), Once), Item(Back(0), Once)]
    requires st == State(st.items, 2, [0], 1, false)
    ensures Spelled(OPEN_REFERENCE, 0, 47, ts) && After(ts) == st && Width(ts) == 8
  {
    var before := st.(items := st.items[..3]);
    OpenReferenceBegins(ts[..3], before);
    assert Next(before, Digit(1)) == st;
    SpelledOn(OPEN_REFERENCE, 47, ts[..3], Digit(1), ts, before, st, 6);
  }

  /** Only the number of groups closed is checked, so a pattern may refer to a group that is still open:
    * \(\(\)\1\) is accepted. */
  lemma ReferenceToOpenGroup(ts: seq<Token>)
    requires ts == [Opening, Opening, Closing, Digit(1), Closing]
    ensures Written(OPEN_REFERENCE, 47, false, ts) && !After(ts).spoilt
    ensures After(ts).items == [Item(Open(0), Once), Item(Open(1), Once), Item(Close(1), Once), Item(Back(0), Once),
                                Item(Close(0), Once)]
  {
    var items := [Item(Open(0), Once), Item(Open(1), Once), Item(Close(1), Once), Item(Back(0), Once)];
    var before := State(items, 2, [0], 1, false);
    var after := State(items + [Item(Close(0), Once)], 2, [], 2, false);
    OpenReferenceGoesOn(ts[..4], before);
    assert Next(before, Closing) == after;
    SpelledOn(OPEN_REFERENCE, 47, ts[..4], Closing, ts, before, after, 8);
  }
}
