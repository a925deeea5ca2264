/** What some simple patterns find, in numbers and bytes (regexp.h: compile, step). */
module EdSimple {
  import opened Basics
  import opened EdPattern
  import opened EdTrouble
  import opened EdCode
  import opened EdSyntax
  import opened EdRegular
  import opened EdCompile
  import opened EdMatch
  import opened EdSearch

  // ------------------------------------------------------------------ writing patterns

  // One more token, anywhere.
  lemma Writes(s: seq<byte>, ts: seq<Token>, t: Token, more: seq<Token>, st: State, st': State, pos: nat)
    requires Spelled(s, 1, 47, ts) && After(ts) == st && 1 + EdSyntax.Width(ts) == pos
    requires more == ts + [t] && TokenAt(s, pos, 47, st, t) && Next(st, t) == st'
    ensures Spelled(s, 1, 47, more) && After(more) == st' && 1 + EdSyntax.Width(more) == pos + TokenWidth(t)
  {
    TokensSnoc(ts, t, more);
    SpelledSnoc(s, 1, 47, ts, t, more);
  }

  lemma {:induction false} RoomInPlenty(ts: seq<Token>, n: nat, cap: int)
    requires n <= |ts| + 1 && CodeLength(ts) + 40 <= cap
    ensures RoomUpTo(ts, n, cap)
  {
    if n > 0 {
      RoomInPlenty(ts, n - 1, cap);
      ShorterCode(ts, n - 1);
    }
  }

  lemma {:induction false} ShorterCode(ts: seq<Token>, k: nat)
    requires k <= |ts|
    ensures CodeLength(ts[..k]) <= CodeLength(ts)
  {
    if k < |ts| {
      ShorterCode(ts[..|ts| - 1], k);
      assert ts[..|ts| - 1][..k] == ts[..k];
    } else {
      assert ts[..k] == ts;
    }
  }

  lemma {:induction false} CodeShort(ts: seq<Token>)
    ensures CodeLength(ts) <= 34 * |ts|
  {
    if ts != [] { CodeShort(ts[..|ts| - 1]); }
  }

  lemma ShortHasRoom(ts: seq<Token>)
    requires |ts| <= 6
    ensures RoomFor(ts, 256)
  {
    CodeShort(ts);
    RoomInPlenty(ts, |ts| + 1, 256);
  }

  /** The tokens ts are those of a pattern tied to the beginning, which meets no trouble and matches the text t, or
    * does not. */
  ghost predicate Decides(s: seq<byte>, ts: seq<Token>, t: seq<byte>, yes: bool) {
    && Written(s, 47, false, ts) && !After(ts).spoilt && RoomFor(ts, 256) && Safe(After(ts).items)
    && Text(t) && Get(s, 0) == CARET && (Hits(ts, t, 0) <==> yes)
  }

  lemma DecidesWhen(s: seq<byte>, ts: seq<Token>, items: seq<Item>, t: seq<byte>, yes: bool)
    requires Written(s, 47, false, ts) && !After(ts).spoilt && RoomFor(ts, 256) && After(ts).items == items
    requires Safe(items) && Text(t) && Get(s, 0) == CARET && (MatchesAt(CAP, items, t, 0) <==> yes)
    ensures Decides(s, ts, t, yes)
  {
  }

  /** Compiles such a pattern and steps over the text. */
  method FindAtStart(m: Matcher, s: seq<byte>, t: seq<byte>, ghost ts: seq<Token>, ghost yes: bool) returns (ok: bool)
    requires m.Shape() && Decides(s, ts, t, yes)
    modifies m, m.braslist, m.braelist
    ensures ok <==> yes
  {
    var v;
    ok, v := Search(m, s, 256, 47, false, 0, t, 0, ts);
  }

  // ------------------------------------------------------------------ intervals

  /** \{m\}, \{m,\} and \{m,n\} */
  datatype Bounds = Exactly(m: nat) | AtLeast(m: nat) | Between(m: nat, n: nat) {
    predicate Valid() { m < 255 && (Between? ==> m <= n < 255) }

    /** How often the item may stand there: no more than 20000 times beyond m when there is no upper bound. */
    predicate Allow(k: int) {
      match this
      case Exactly(m) => k == m
      case AtLeast(m) => m <= k <= m + 20000
      case Between(m, n) => m <= k <= n
    }

    /** What stands between the brackets: the numbers in decimal digits, with a comma between or behind them. */
    function Text(): seq<byte> {
      match this
      case Exactly(m) => Numeral(m)
      case AtLeast(m) => Numeral(m) + [44]
      case Between(m, n) => Numeral(m) + [44] + Numeral(n)
    }
  }

  /** The input ^a\{...\}$/ */
  function IntervalPattern(b: Bounds): seq<byte> { [94, 97, 92, 123] + b.Text() + [92, 125, 36, 47] }

  lemma {:induction false} NumeralValue(n: nat)
    ensures Value(Numeral(n)) == n
  {
    if n >= 10 {
      NumeralValue(n / 10);
      assert Numeral(n)[..|Numeral(n)| - 1] == Numeral(n / 10);
    } else {
      assert [48 + n][..0] == [] && Value([]) == 0;
    }
  }

  function BracesOf(b: Bounds): Token {
    match b
    case Exactly(m) => Braces(Numeral(m), false, [])
    case AtLeast(m) => Braces(Numeral(m), true, [])
    case Between(m, n) => Braces(Numeral(m), true, Numeral(n))
  }

  function QuantOf(b: Bounds): Quant
    requires b.Valid()
  {
    match b
    case Exactly(m) => Times(m, m)
    case AtLeast(m) => Times(m, 255)
    case Between(m, n) => Times(m, n)
  }

  predicate SmallNumber(ds: seq<byte>) {
    ds != [] && (forall k :: 0 <= k < |ds| ==> EdSyntax.Decimal(ds[k])) && Value(ds) < 255
  }

  // A number and its mark stand at pos.
  lemma NumberStands(s: seq<byte>, pos: nat, ds: seq<byte>, mark: byte, rest: seq<byte>)
    requires SmallNumber(ds) && pos <= |s| && s[pos..] == ds + [mark] + rest
    ensures NumberAt(s, pos, ds, mark) && s[pos + |ds| + 1..] == rest
  {
    var tail := s[pos..];
    assert forall k :: 0 <= k < |ds| ==> Get(s, pos + k) == tail[k] == ds[k];
    assert Get(s, pos + |ds|) == tail[|ds|] == mark;
    assert s[pos + |ds| + 1..] == tail[|ds| + 1..];
  }

  lemma OneStands(s: seq<byte>, ds: seq<byte>)
    requires SmallNumber(ds) && s == [94, 97, 92, 123] + ds + [92, 125, 36, 47]
    ensures BracesAt(s, 2, ds, false, [])
  {
    assert s[4..] == ds + [92] + [125, 36, 47];
    NumberStands(s, 4, ds, 92, [125, 36, 47]);
    assert Get(s, 5 + |ds|) == s[5 + |ds|..][0];
  }

  lemma OpenStands(s: seq<byte>, ds: seq<byte>)
    requires SmallNumber(ds) && s == [94, 97, 92, 123] + (ds + [44]) + [92, 125, 36, 47]
    ensures BracesAt(s, 2, ds, true, [])
  {
    assert s[4..] == ds + [44] + [92, 125, 36, 47];
    NumberStands(s, 4, ds, 44, [92, 125, 36, 47]);
    assert Get(s, 5 + |ds|) == s[5 + |ds|..][0] && Get(s, 6 + |ds|) == s[5 + |ds|..][1];
  }

  lemma TwoStand(s: seq<byte>, ds: seq<byte>, es: seq<byte>)
    requires SmallNumber(ds) && SmallNumber(es) && Value(ds) <= Value(es)
    requires s == [94, 97, 92, 123] + (ds + [44] + es) + [92, 125, 36, 47]
    ensures BracesAt(s, 2, ds, true, es)
  {
    var end: seq<byte> := [92, 125, 36, 47];
    assert s[4..] == ds + [44] + (es + end);
    NumberStands(s, 4, ds, 44, es + end);
    SecondStands(s, ds, es, end);
  }

  lemma SecondStands(s: seq<byte>, ds: seq<byte>, es: seq<byte>, end: seq<byte>)
    requires SmallNumber(es) && end == [92, 125, 36, 47] && 5 + |ds| <= |s| && s[5 + |ds|..] == es + end
    ensures NumberAt(s, 5 + |ds|, es, BACKSLASH) && Get(s, 6 + |ds| + |es|) == RBRACE
  {
    assert es + end == es + [92] + [125, 36, 47];
    NumberStands(s, 5 + |ds|, es, 92, [125, 36, 47]);
    assert Get(s, 6 + |ds| + |es|) == s[6 + |ds| + |es|..][0];
  }

  // What the interval token stands for.
  ghost predicate Means(b: Bounds, t: Token)
    requires b.Valid()
  {
    && t.Braces? && BracesAt(IntervalPattern(b), 2, t.first, t.comma, t.second)
    && TokenWidth(t) == 4 + |b.Text()| && Value(t.first) == b.m && Upper(t) == QuantOf(b).most
  }

  lemma BracesStand(b: Bounds)
    requires b.Valid()
    ensures Means(b, BracesOf(b))
  {
    NumeralValue(b.m);
    match b
    case Exactly(m) => OneStands(IntervalPattern(b), Numeral(m));
    case AtLeast(m) => OpenStands(IntervalPattern(b), Numeral(m));
    case Between(m, n) =>
      NumeralValue(n);
      TwoStand(IntervalPattern(b), Numeral(m), Numeral(n));
  }

  const EMPTY: State := State([], 0, [], 0, false)

  lemma LetterBegins(s: seq<byte>, st: State)
    requires |s| > 1 && s[1] == 97 && st == State([Item(Lit(97), Once)], 0, [], 0, false)
    ensures Spelled(s, 1, 47, [Plain(97)]) && 1 + EdSyntax.Width([Plain(97)]) == 2 && After([Plain(97)]) == st
  {
    assert Next(EMPTY, Plain(97)) == st;
    Writes(s, [], Plain(97), [Plain(97)], EMPTY, st, 1);
  }

  lemma IntervalGoesOn(b: Bounds, t: Token, ts: seq<Token>, st: State)
    requires b.Valid() && Means(b, t) && ts == [Plain(97), t]
    requires st == State([Item(Lit(97), QuantOf(b))], 0, [], 0, false)
    ensures Spelled(IntervalPattern(b), 1, 47, ts) && 1 + EdSyntax.Width(ts) == 6 + |b.Text()| && After(ts) == st
  {
    var s, st1 := IntervalPattern(b), State([Item(Lit(97), Once)], 0, [], 0, false);
    LetterBegins(s, st1);
    BracesRepeat(b, t, st1, st);
    IntervalToken(s, b, t, st1);
    Writes(s, [Plain(97)], t, ts, st1, st, 2);
  }

  lemma IntervalToken(s: seq<byte>, b: Bounds, t: Token, st: State)
    requires b.Valid() && Means(b, t) && s == IntervalPattern(b) && st.items != []
    ensures TokenAt(s, 2, 47, st, t) && TokenWidth(t) == 4 + |b.Text()|
  {
  }

  lemma IntervalWritten(b: Bounds, t: Token, ts: seq<Token>)
    requires b.Valid() && Means(b, t) && ts == [Plain(97), t, Dollar]
    ensures Written(IntervalPattern(b), 47, false, ts) && !After(ts).spoilt && RoomFor(ts, 256)
    ensures After(ts).items == [Item(Lit(97), QuantOf(b)), Item(End, Once)]
  {
    var s := IntervalPattern(b);
    var s2 := State([Item(Lit(97), QuantOf(b))], 0, [], 0, false);
    IntervalGoesOn(b, t, [Plain(97), t], s2);
    DollarStands(s, 6 + |b.Text()|, b);
    Writes(s, [Plain(97), t], Dollar, ts, s2, Add(s2, End), 6 + |b.Text()|);
    ShortHasRoom(ts);
  }

  lemma BracesRepeat(b: Bounds, t: Token, s1: State, s2: State)
    requires b.Valid() && Means(b, t)
    requires s1 == State([Item(Lit(97), Once)], 0, [], 0, false)
    requires s2 == State([Item(Lit(97), QuantOf(b))], 0, [], 0, false)
    ensures Next(s1, t) == s2
  {
    assert Requantified(s1, QuantOf(b)) == s2;
  }

  lemma DollarStands(s: seq<byte>, p: nat, b: Bounds)
    requires s == IntervalPattern(b) && p == 6 + |b.Text()|
    ensures Get(s, p) == DOLLAR && Get(s, p + 1) == 47
  {
    assert s[4 + |b.Text()|..] == [92, 125, 36, 47];
    assert s[p] == s[4 + |b.Text()|..][2] && s[p + 1] == s[4 + |b.Text()|..][3];
  }

  lemma IntervalMatches(b: Bounds, items: seq<Item>, t: seq<byte>)
    requires b.Valid() && items == [Item(Lit(97), QuantOf(b)), Item(End, Once)]
    requires forall i :: 0 <= i < |t| ==> t[i] == 97
    ensures MatchesAt(CAP, items, t, 0) <==> b.Allow(|t|)
  {
    if MatchesAt(CAP, items, t, 0) {
      var ps :| Tiling(CAP, items, t, ps) && ps[0] == 0;
      assert Joined(CAP, items, t, ps, 0) && Joined(CAP, items, t, ps, 1);
    }
    if b.Allow(|t|) {
      var ps := [0, |t|, |t|];
      assert Joined(CAP, items, t, ps, 0) && Joined(CAP, items, t, ps, 1);
      assert Tiling(CAP, items, t, ps);
    }
  }

  lemma IntervalSafe(items: seq<Item>, q: Quant)
    requires items == [Item(Lit(97), q), Item(End, Once)]
    ensures Safe(items)
  {
  }

  lemma IntervalDecides(b: Bounds, t: seq<byte>, ts: seq<Token>)
    requires b.Valid() && ts == [Plain(97), BracesOf(b), Dollar] && forall i :: 0 <= i < |t| ==> t[i] == 97
    ensures Decides(IntervalPattern(b), ts, t, b.Allow(|t|))
  {
    BracesStand(b);
    IntervalIs(b, BracesOf(b), ts, t, [Item(Lit(97), QuantOf(b)), Item(End, Once)]);
  }

  lemma IntervalIs(b: Bounds, tok: Token, ts: seq<Token>, t: seq<byte>, items: seq<Item>)
    requires b.Valid() && Means(b, tok) && ts == [Plain(97), tok, Dollar] && forall i :: 0 <= i < |t| ==> t[i] == 97
    requires items == [Item(Lit(97), QuantOf(b)), Item(End, Once)]
    ensures Decides(IntervalPattern(b), ts, t, b.Allow(|t|))
  {
    IntervalWritten(b, tok, ts);
    IntervalSafe(items, QuantOf(b));
    IntervalMatches(b, items, t);
    DecidesWhen(IntervalPattern(b), ts, items, t, b.Allow(|t|));
  }

  /** Compiled and looked for in a text of k times `a`, ^a\{m\}$ is found exactly when k == m, ^a\{m,n\}$ exactly when
    * m <= k <= n, and ^a\{m,\}$ exactly when m <= k, in texts that go no more than 20000 beyond. */
  method FindInterval(m: Matcher, b: Bounds, k: nat) returns (ok: bool)
    requires m.Shape() && b.Valid()
    modifies m, m.braslist, m.braelist
    ensures ok <==> b.Allow(k)
  {
    var t: seq<byte> := seq(k, _ => 97);
    ghost var ts := [Plain(97), BracesOf(b), Dollar];
    IntervalDecides(b, t, ts);
    ok := FindAtStart(m, IntervalPattern(b), t, ts, b.Allow(k));
  }

  // ------------------------------------------------------------------ one byte

  /** A letter, a dot, an escaped letter, or a span of bytes in brackets, complemented or not. */
  datatype One = Letter(x: byte) | AnyByte | Escape(x: byte) | Span(neg: bool, x: byte, y: byte) {
    /** The bytes that may be written there; the delimiter is a slash. */
    predicate Valid() {
      match this
      case Letter(x) => x !in {0, 10, 46, 47, 91, 92}
      case AnyByte => true
      case Escape(x) => x !in {0, 10, 40, 41} && !(49 <= x <= 57)
      case Span(neg, x, y) => 0 < x <= y && x != 10 && y != 93 && (neg || x != 94)
    }

    function Text(): seq<byte> {
      match this
      case Letter(x) => [x]
      case AnyByte => [46]
      case Escape(x) => [92, x]
      case Span(neg, x, y) => if neg then [91, 94, x, 45, y, 93] else [91, x, 45, y, 93]
    }

    /** The bytes it stands for: `\n` for a newline, every other escaped byte for itself. */
    predicate Takes(c: byte) {
      match this
      case Letter(x) => c == x
      case AnyByte => true
      case Escape(x) => c == if x == 110 then 10 else x
      case Span(neg, x, y) => (x <= c <= y) != neg
    }
  }

  function OnePattern(o: One): seq<byte> { [94] + o.Text() + [36, 47] }

  function TokenOf(o: One): Token {
    match o
    case Letter(x) => Plain(x)
    case AnyByte => Dot
    case Escape(x) => Escaped(x)
    case Span(neg, x, y) => Bracket(neg, [Single(x), To(y)], false)
  }

  function AtomOf(o: One): Atom {
    match o
    case Letter(x) => Lit(x)
    case AnyByte => Any
    case Escape(x) => Lit(if x == 110 then NEWLINE else x)
    case Span(neg, x, y) => Set(neg, [Single(x), To(y)], false)
  }

  lemma SpanStands(s: seq<byte>, neg: bool, x: byte, y: byte, elems: seq<Elem>)
    requires Span(neg, x, y).Valid() && s == OnePattern(Span(neg, x, y)) && elems == [Single(x), To(y)]
    ensures BracketAt(s, 1, neg, elems, false) && ElemsWidth(elems) == 3
  {
    var from := if neg then 3 else 2;
    assert Get(s, from) == x && Get(s, from + 1) == 45 && Get(s, from + 2) == y && Get(s, from + 3) == 93;
    SpanBegins(s, from, neg, x, elems[..1]);
    SpanGoesOn(s, from, neg, y, elems[..1], elems);
  }

  lemma SpanBegins(s: seq<byte>, from: nat, neg: bool, x: byte, one: seq<Elem>)
    requires one == [Single(x)] && Get(s, from) == x && x !in {0, 10} && (neg || x != 94)
    ensures ElemsAt(s, from, neg, one) && ElemsWidth(one) == 1 && LastByte(one) == x
  {
    var none: seq<Elem> := [];
    assert one[..|one| - 1] == none && ElemsWidth(none) == 0 && ElemsAt(s, from, neg, none);
    assert ElemAllowed(neg, none, Single(x)) && ElemAt(s, from + 0, Single(x));
  }

  lemma SpanGoesOn(s: seq<byte>, from: nat, neg: bool, y: byte, one: seq<Elem>, elems: seq<Elem>)
    requires ElemsAt(s, from, neg, one) && ElemsWidth(one) == 1 && LastByte(one) != 0 && elems == one + [To(y)]
    requires Get(s, from + 1) == 45 && Get(s, from + 2) == y && y != 93
    ensures ElemsAt(s, from, neg, elems) && ElemsWidth(elems) == 3
  {
    assert elems[..|elems| - 1] == one;
  }

  lemma OneBegins(o: One, s: seq<byte>, t: Token, st: State)
    requires o.Valid() && s == OnePattern(o) && t == TokenOf(o) && st == State([Item(AtomOf(o), Once)], 0, [], 0, false)
    ensures Spelled(s, 1, 47, [t]) && 1 + EdSyntax.Width([t]) == 1 + |o.Text()| && After([t]) == st
  {
    if o.Span? { SpanStands(s, o.neg, o.x, o.y, t.elems); }
    assert Next(EMPTY, t) == st;
    OneStandsFirst(o, s, t);
    Writes(s, [], t, [t], EMPTY, st, 1);
  }

  lemma OneStandsFirst(o: One, s: seq<byte>, t: Token)
    requires o.Valid() && s == OnePattern(o) && t == TokenOf(o)
    requires o.Span? ==> BracketAt(s, 1, o.neg, t.elems, false) && ElemsWidth(t.elems) == 3
    ensures TokenAt(s, 1, 47, EMPTY, t) && TokenWidth(t) == |o.Text()|
  {
    assert Get(s, 1) == o.Text()[0];
    assert |o.Text()| > 1 ==> Get(s, 2) == o.Text()[1];
  }

  lemma OneWritten(o: One, s: seq<byte>, ts: seq<Token>)
    requires o.Valid() && s == OnePattern(o) && ts == [TokenOf(o), Dollar]
    ensures Written(s, 47, false, ts) && !After(ts).spoilt && RoomFor(ts, 256)
    ensures After(ts).items == [Item(AtomOf(o), Once), Item(End, Once)]
  {
    var st, p := State([Item(AtomOf(o), Once)], 0, [], 0, false), 1 + |o.Text()|;
    OneBegins(o, s, TokenOf(o), st);
    assert s[p] == 36 && s[p + 1] == 47 && [TokenOf(o)] + [Dollar] == ts;
    DollarEnds(s, [TokenOf(o)], ts, st, p);
    ShortHasRoom(ts);
  }

  lemma DollarEnds(s: seq<byte>, one: seq<Token>, ts: seq<Token>, st: State, p: nat)
    requires Spelled(s, 1, 47, one) && After(one) == st && 1 + EdSyntax.Width(one) == p && ts == one + [Dollar]
    requires |s| == p + 2 && s[0] == 94 && s[p] == 36 && s[p + 1] == 47 && st.stack == [] && !st.spoilt
    ensures Written(s, 47, false, ts) && !After(ts).spoilt && After(ts).items == st.items + [Item(End, Once)]
  {
    Writes(s, one, Dollar, ts, st, Add(st, End), p);
  }

  lemma OneMatches(o: One, items: seq<Item>, c: byte)
    requires o.Valid() && items == [Item(AtomOf(o), Once), Item(End, Once)] && c != 0
    ensures Safe(items) && (MatchesAt(CAP, items, [c], 0) <==> o.Takes(c))
  {
    OneAccepts(o, c);
    SingleMatches(AtomOf(o), items, c);
  }

  lemma SingleMatches(a: Atom, items: seq<Item>, c: byte)
    requires Simple(a) && !TakesNul(a) && items == [Item(a, Once), Item(End, Once)]
    ensures Safe(items) && (MatchesAt(CAP, items, [c], 0) <==> Accepts(a, c))
  {
    var t := [c];
    assert t[0] == c;
    if MatchesAt(CAP, items, t, 0) {
      var ps :| Tiling(CAP, items, t, ps) && ps[0] == 0;
      assert Joined(CAP, items, t, ps, 0) && Joined(CAP, items, t, ps, 1);
      assert Repeats(CAP, items[0], t, 0, 1);
    }
    if Accepts(a, c) {
      var ps := [0, 1, 1];
      assert Repeats(CAP, items[0], t, 0, 1);
      assert Joined(CAP, items, t, ps, 0) && Joined(CAP, items, t, ps, 1);
      assert Tiling(CAP, items, t, ps);
    }
  }

  lemma OneAccepts(o: One, c: byte)
    requires o.Valid() && c != 0
    ensures Accepts(AtomOf(o), c) <==> o.Takes(c)
    ensures !TakesNul(AtomOf(o))
  {
    if o.Span? {
      var elems := [Single(o.x), To(o.y)];
      assert Covers(elems, 0, c) <==> c == o.x;
      assert Covers(elems, 1, c) <==> o.x <= c <= o.y;
      assert elems[0].c != NUL;
    }
  }

  /** Compiled and looked for in a text of one byte: a letter finds itself, a dot any byte, an escaped letter the byte
    * it stands for, and brackets the bytes in their span, or the others. */
  method FindByte(m: Matcher, o: One, c: byte) returns (ok: bool)
    requires m.Shape() && o.Valid() && c != 0
    modifies m, m.braslist, m.braelist
    ensures ok <==> o.Takes(c)
  {
    ghost var ts, items := [TokenOf(o), Dollar], [Item(AtomOf(o), Once), Item(End, Once)];
    OneWritten(o, OnePattern(o), ts);
    OneMatches(o, items, c);
    DecidesWhen(OnePattern(o), ts, items, [c], o.Takes(c));
    ok := FindAtStart(m, OnePattern(o), [c], ts, o.Takes(c));
  }

  // ------------------------------------------------------------------ a group and a reference to it

  const TWICE: seq<byte> := [94, 92, 40, 97, 42, 92, 41, 92, 49, 36, 47]

  lemma TwiceOpens(ts: seq<Token>, st: State)
    requires ts == [Opening, Plain(97)]
    requires st == State([Item(Open(0), Once), Item(Lit(97), Once)], 1, [0], 0, false)
    ensures Spelled(TWICE, 1, 47, ts) && 1 + EdSyntax.Width(ts) == 4 && After(ts) == st
  {
    var s1 := State([Item(Open(0), Once)], 1, [0], 0, false);
    assert Next(EMPTY, Opening) == s1;
    Writes(TWICE, [], Opening, [Opening], EMPTY, s1, 1);
    assert Next(s1, Plain(97)) == st;
    Writes(TWICE, [Opening], Plain(97), ts, s1, st, 3);
  }

  lemma TwiceStars(ts: seq<Token>, st: State)
    requires ts == [Opening, Plain(97), Star]
    requires st == State([Item(Open(0), Once), Item(Lit(97), Many)], 1, [0], 0, false)
    ensures Spelled(TWICE, 1, 47, ts) && 1 + EdSyntax.Width(ts) == 5 && After(ts) == st
  {
    var s2 := State([Item(Open(0), Once), Item(Lit(97), Once)], 1, [0], 0, false);
    TwiceOpens([Opening, Plain(97)], s2);
    assert Next(s2, Star) == st by { assert Requantified(s2, Many) == st; }
    Writes(TWICE, [Opening, Plain(97)], Star, ts, s2, st, 4);
  }

  // The rest of the pattern, from the star on.
  lemma TwiceCloses(before: seq<Token>, t: seq<Token>, st: State, st': State)
    requires Spelled(TWICE, 1, 47, before) && 1 + EdSyntax.Width(before) == 5 && After(before) == st
    requires t == before + [Closing] && st.stack == [0]
    requires st' == State(st.items + [Item(Close(0), Once)], st.nbra, [], st.closed + 1, st.spoilt)
    ensures Spelled(TWICE, 1, 47, t) && 1 + EdSyntax.Width(t) == 7 && After(t) == st'
  {
    assert Next(st, Closing) == st';
    Writes(TWICE, before, Closing, t, st, st', 5);
  }

  lemma TwiceRefers(before: seq<Token>, t: seq<Token>, st: State, st': State)
    requires Spelled(TWICE, 1, 47, before) && 1 + EdSyntax.Width(before) == 7 && After(before) == st
    requires t == before + [Digit(1)] && st.closed == 1 && st' == st.(items := st.items + [Item(Back(0), Once)])
    ensures Spelled(TWICE, 1, 47, t) && 1 + EdSyntax.Width(t) == 9 && After(t) == st'
  {
    assert Next(st, Digit(1)) == st';
    Writes(TWICE, before, Digit(1), t, st, st', 7);
  }

  lemma TwiceGoesOn(before: seq<Token>, ts: seq<Token>, st: State, rest: seq<Item>)
    requires Spelled(TWICE, 1, 47, before) && 1 + EdSyntax.Width(before) == 5 && After(before) == st
    requires st.nbra == 1 && st.stack == [0] && st.closed == 0 && !st.spoilt
    requires ts == before + [Closing, Digit(1), Dollar]
    requires rest == [Item(Close(0), Once), Item(Back(0), Once), Item(End, Once)]
    ensures Written(TWICE, 47, false, ts) && !After(ts).spoilt && After(ts).items == st.items + rest
  {
    var closed := State(st.items + [Item(Close(0), Once)], 1, [], 1, false);
    var referred := closed.(items := closed.items + [Item(Back(0), Once)]);
    var t := before + [Closing];
    TwiceCloses(before, t, st, closed);
    TwiceRefers(t, t + [Digit(1)], closed, referred);
    assert ts == t + [Digit(1)] + [Dollar] && referred.items + [Item(End, Once)] == st.items + rest;
    DollarEnds(TWICE, t + [Digit(1)], ts, referred, 9);
  }

  lemma TwiceWritten(ts: seq<Token>, items: seq<Item>)
    requires ts == [Opening, Plain(97), Star, Closing, Digit(1), Dollar]
    requires items == [Item(Open(0), Once), Item(Lit(97), Many), Item(Close(0), Once), Item(Back(0), Once),
                       Item(End, Once)]
    ensures Written(TWICE, 47, false, ts) && !After(ts).spoilt && RoomFor(ts, 256) && After(ts).items == items
  {
    var st := State([Item(Open(0), Once), Item(Lit(97), Many)], 1, [0], 0, false);
    TwiceStars([Opening, Plain(97), Star], st);
    TwiceGoesOn([Opening, Plain(97), Star], ts, st, [Item(Close(0), Once), Item(Back(0), Once), Item(End, Once)]);
    ShortHasRoom(ts);
  }

  lemma TwiceMatches(items: seq<Item>, t: seq<byte>)
    requires items == [Item(Open(0), Once), Item(Lit(97), Many), Item(Close(0), Once), Item(Back(0), Once),
                       Item(End, Once)]
    requires forall i :: 0 <= i < |t| ==> t[i] == 97
    ensures MatchesAt(CAP, items, t, 0) <==> |t| % 2 == 0
  {
    assert Find(items, Open(0)) == 0 && Find(items, Close(0)) == 2 by { TwicePlaces(items); }
    if MatchesAt(CAP, items, t, 0) {
      var ps :| Tiling(CAP, items, t, ps) && ps[0] == 0;
      TwiceTiled(items, t, ps);
    }
    if |t| % 2 == 0 {
      var h := |t| / 2;
      TwiceTiles(items, t, h, [0, 0, h, h, |t|, |t|]);
    }
  }

  lemma TwicePlaces(items: seq<Item>)
    requires items == [Item(Open(0), Once), Item(Lit(97), Many), Item(Close(0), Once), Item(Back(0), Once),
                       Item(End, Once)]
    ensures Safe(items) && Find(items, Open(0)) == 0 && Find(items, Close(0)) == 2
  {
    var rest := items[1..][1..];
    assert items[1..][0] == items[1] && rest[0] == items[2];
  }

  lemma TwiceTiled(items: seq<Item>, t: seq<byte>, ps: seq<nat>)
    requires items == [Item(Open(0), Once), Item(Lit(97), Many), Item(Close(0), Once), Item(Back(0), Once),
                       Item(End, Once)]
    requires Find(items, Open(0)) == 0 && Find(items, Close(0)) == 2
    requires Tiling(CAP, items, t, ps) && ps[0] == 0
    ensures |t| % 2 == 0
  {
    assert Joined(CAP, items, t, ps, 0) && Joined(CAP, items, t, ps, 2);
    assert Joined(CAP, items, t, ps, 3) && Joined(CAP, items, t, ps, 4);
    assert |t[ps[3]..ps[4]]| == |t[ps[0]..ps[2]]|;
  }

  lemma TwiceTiles(items: seq<Item>, t: seq<byte>, h: nat, ps: seq<nat>)
    requires items == [Item(Open(0), Once), Item(Lit(97), Many), Item(Close(0), Once), Item(Back(0), Once),
                       Item(End, Once)]
    requires Find(items, Open(0)) == 0 && Find(items, Close(0)) == 2
    requires (forall i :: 0 <= i < |t| ==> t[i] == 97) && |t| == h + h && ps == [0, 0, h, h, |t|, |t|]
    ensures MatchesAt(CAP, items, t, 0)
  {
    assert t[h..|t|] == t[0..h];
    assert Joined(CAP, items, t, ps, 0) && Joined(CAP, items, t, ps, 1) && Joined(CAP, items, t, ps, 2);
    assert Joined(CAP, items, t, ps, 3) && Joined(CAP, items, t, ps, 4);
    assert Tiling(CAP, items, t, ps);
  }

  /** Compiled and looked for in a text of k times `a`, ^\(a*\)\1$ is found exactly when k is even. */
  method FindTwice(m: Matcher, k: nat) returns (ok: bool)
    requires m.Shape()
    modifies m, m.braslist, m.braelist
    ensures ok <==> k % 2 == 0
  {
    var t: seq<byte> := seq(k, _ => 97);
    ghost var ts := [Opening, Plain(97), Star, Closing, Digit(1), Dollar];
    ghost var items := [Item(Open(0), Once), Item(Lit(97), Many), Item(Close(0), Once), Item(Back(0), Once),
                        Item(End, Once)];
    TwiceWritten(ts, items);
    TwicePlaces(items);
    TwiceMatches(items, t);
    DecidesWhen(TWICE, ts, items, t, k % 2 == 0);
    ok := FindAtStart(m, TWICE, t, ts, k % 2 == 0);
  }
}
