/** What becomes of a second interval on the same item: the pattern is accepted, and its code says something
  * else (regexp.h). */
module EdSpoilt {
  import opened Basics
  import opened EdPattern
  import opened EdCode
  import opened EdSyntax
  import opened EdCompile
  import opened EdMatch

  const DOUBLED: seq<byte> := [97, 92, 123, 49, 92, 125, 92, 123, 50, 92, 125, 47]

  // One of the two intervals.
  lemma IntervalStands(pos: nat, d: byte)
    requires (pos == 1 && d == 49) || (pos == 6 && d == 50)
    ensures BracesAt(DOUBLED, pos, [d], false, []) && Value([d]) == d - ZERO
  {
    assert [d][..0] == [] && Value([]) == 0;
    assert forall k :: 0 <= k < 1 ==> Decimal([d][k]) && Get(DOUBLED, pos + 2 + k) == [d][k];
  }

  function Single(q: Quant, spoilt: bool): State { State([Item(Lit(97), q)], 0, [], 0, spoilt) }

  lemma IntervalTaken(pos: nat, d: byte, q: Quant, ts: seq<Token>, more: seq<Token>)
    requires (pos == 1 && d == 49) || (pos == 6 && d == 50)
    requires Spelled(DOUBLED, 0, 47, ts) && After(ts) == Single(q, false) && EdSyntax.Width(ts) == pos
    requires more == ts + [Braces([d], false, [])]
    ensures Spelled(DOUBLED, 0, 47, more) && EdSyntax.Width(more) == pos + 5
    ensures After(more) == Single(Times(d - ZERO, d - ZERO), q.Times?)
  {
    var t, n: byte := Braces([d], false, []), d - ZERO;
    IntervalStands(pos, d);
    assert Upper(t) == n;
    assert Requantified(After(ts), Times(n, n)) == Single(Times(n, n), false);
    SpelledOn(DOUBLED, 47, ts, t, more, After(ts), Single(Times(n, n), q.Times?), pos);
  }

  lemma DoubledBegins(ts: seq<Token>)
    requires ts == [Plain(97)]
    ensures Spelled(DOUBLED, 0, 47, ts) && After(ts) == Single(Once, false) && EdSyntax.Width(ts) == 1
  {
    assert Next(State([], 0, [], 0, false), Plain(97)) == Single(Once, false);
    SpelledOn(DOUBLED, 47, [], Plain(97), ts, State([], 0, [], 0, false), Single(Once, false), 0);
  }

  /** a\{1\}\{2\} is accepted; its items are `a` twice, with a note that they are not what the code says. */
  lemma DoubledIsWritten(ts: seq<Token>)
    requires ts == [Plain(97), Braces([49], false, []), Braces([50], false, [])]
    ensures Written(DOUBLED, 47, false, ts) && After(ts) == Single(Times(2, 2), true)
  {
    DoubledBegins(ts[..1]);
    IntervalTaken(1, 49, Once, ts[..1], ts[..2]);
    IntervalTaken(6, 50, Times(1, 1), ts[..2], ts);
  }

  lemma DoubledCodeBegins(ts: seq<Token>, code: seq<byte>, lastep: int)
    requires ts == [Plain(97)] && CodeOf(ts, code, lastep)
    ensures code == [CCHR, 97] && lastep == 0
  {
    assert ts[..0] == [] && code[0..] == code;
  }

  lemma DoubledCodeGoesOn(ts: seq<Token>, code: seq<byte>, lastep: int)
    requires ts == [Plain(97), Braces([49], false, [])] && CodeOf(ts, code, lastep)
    ensures code == [CCHR + RNGE, 97, 1, 1] && lastep == 0
  {
    assert ts[..1] == [Plain(97)];
    var code0, lastep0 :| CodeOf(ts[..1], code0, lastep0) && Emits(After(ts[..1]), ts[1], code0, lastep0, code, lastep);
    DoubledCodeBegins(ts[..1], code0, lastep0);
    assert [49][..0] == [] && Value([49]) == 1;
  }

  /** Its code is that of `a` once, followed by the opening of a group. */
  lemma DoubledCode(ts: seq<Token>, code: seq<byte>)
    requires ts == [Plain(97), Braces([49], false, []), Braces([50], false, [])] && Coded(ts, code)
    ensures code == [CCHR + RNGE, 97, 1, 1, 2, 2]
    ensures Program(code + [CCEOF], [Item(Lit(97), Times(1, 1)), Item(Open(2), Once)])
  {
    var lastep :| CodeOf(ts, code, lastep);
    var init := ts[..2];
    assert init == [Plain(97), Braces([49], false, [])];
    var code0, lastep0 :| CodeOf(init, code0, lastep0) && Emits(After(init), ts[2], code0, lastep0, code, lastep);
    DoubledCodeGoesOn(init, code0, lastep0);
    assert [50][..0] == [] && Value([50]) == 2;
    DoubledProgram(code + [CCEOF], [Item(Lit(97), Times(1, 1)), Item(Open(2), Once)]);
  }

  lemma DoubledProgram(code: seq<byte>, items: seq<Item>)
    requires code == [CCHR + RNGE, 97, 1, 1, CBRA, 2, CCEOF]
    requires items == [Item(Lit(97), Times(1, 1)), Item(Open(2), Once)]
    ensures Program(code, items)
  {
    assert Offset(items, 1) == 4 && Offset(items, 2) == 6;
    assert code[0..4] == [CCHR + RNGE, 97, 1, 1] && code[4..6] == [CBRA, 2];
    assert SegAt(code, 0, items[0]) && SegAt(code, 4, items[1]);
    assert LaidAt(code, items, 0) && LaidAt(code, items, 1);
    assert items[1..][0] == items[1];
    assert RegularAt(items, 0) && RegularAt(items, 1);
  }

  lemma OneIsEnough(items: seq<Item>)
    requires items == [Item(Lit(97), Times(1, 1)), Item(Open(2), Once)]
    ensures MatchesAt(CAP, items, [97], 0) && Going(CAP, items, [97], [0]) == Sound
  {
    var ps := [0, 1, 1];
    assert Joined(CAP, items, [97], ps, 0) && Joined(CAP, items, [97], ps, 1);
    assert Tiling(CAP, items, [97], ps);
    forall q ensures Going(CAP, items, [97], [0] + [q]) == Sound { OnlyEnd(CAP, items, [97], [0] + [q], q); }
    OnlyEnd(CAP, items, [97], [0], 1);
  }

  lemma TwoAreMeant(items: seq<Item>)
    requires items == [Item(Lit(97), Times(2, 2))]
    ensures !MatchesAt(CAP, items, [97], 0)
  {
    forall ps | Tiling(CAP, items, [97], ps) ensures ps[0] != 0 { assert Joined(CAP, items, [97], ps, 0); }
  }

  // The program of any written pattern with room.
  method CompileAny(s: seq<byte>, ghost ts: seq<Token>) returns (code: seq<byte>, ghost body: seq<byte>)
    requires Written(s, 47, false, ts) && RoomFor(ts, 256)
    ensures Coded(ts, body) && code == body + [CCEOF]
  {
    var r;
    ghost var read;
    r, read := Compile(s, 256, 47, false, 0, ts);
    code := r.code;
    body := code[..|code| - 1];
  }

  /** Compiled and looked for in the text `a`, it is found there, where it means `a` twice. */
  method DoubledIsFound(m: Matcher, ghost ts: seq<Token>) returns (ok: bool)
    requires ts == [Plain(97), Braces([49], false, []), Braces([50], false, [])] && m.Shape()
    modifies m, m.braslist, m.braelist
    ensures Written(DOUBLED, 47, false, ts) && ok && !MatchesAt(CAP, After(ts).items, [97], 0)
  {
    DoubledIsWritten(ts);
    DoubledHasRoom(ts);
    TwoAreMeant(After(ts).items);
    var code;
    ghost var body;
    code, body := CompileAny(DOUBLED, ts);
    DoubledCode(ts, body);
    ghost var items := [Item(Lit(97), Times(1, 1)), Item(Open(2), Once)];
    OneIsEnough(items);
    var v;
    ok, v := m.Step([97], code, true, 0, items);
  }

  lemma DoubledHasRoom(ts: seq<Token>)
    requires ts == [Plain(97), Braces([49], false, []), Braces([50], false, [])]
    ensures RoomFor(ts, 256)
  {
    assert ts[..0] == [] && ts[..1] == [Plain(97)] && ts[..2] == [Plain(97), ts[1]] && ts[..3] == ts;
    assert CodeLength(ts[..1]) == 2 && CodeLength(ts[..2]) == 4 && CodeLength(ts) == 6;
    assert RoomAt(ts, 0, 256) && RoomAt(ts, 1, 256) && RoomAt(ts, 2, 256) && RoomAt(ts, 3, 256);
    assert RoomUpTo(ts, 0, 256);
    assert RoomUpTo(ts, 1, 256);
    assert RoomUpTo(ts, 2, 256);
    assert RoomUpTo(ts, 3, 256);
    assert RoomUpTo(ts, 4, 256);
  }
}
