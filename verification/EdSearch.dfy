/** Compiling a pattern and looking for it in a text, as the users of regexp.h do. */
module EdSearch {
  import opened Basics
  import opened EdPattern
  import opened EdTrouble
  import opened EdCode
  import opened EdSyntax
  import opened EdRegular
  import opened EdCompile
  import opened EdMatch

  /** Where a pattern made of the tokens ts matches, with the program's limit on open intervals. */
  ghost predicate Hits(ts: seq<Token>, t: seq<byte>, p: nat) { MatchesAt(CAP, After(ts).items, t, p) }

  /** For every written pattern that is not spoilt and has room, compile followed by step finds the first place
    * where the items of the pattern match (only the beginning, after a caret), the preferred match there, and
    * the ends of its groups, unless trouble is met on the way; a safe pattern meets none. */
  method Search(m: Matcher, s: seq<byte>, cap: int, eof: byte, sed: bool, first: byte, t: seq<byte>, start: nat,
    ghost ts: seq<Token>) returns (ok: bool, v: Course)
    requires Written(s, eof, sed, ts) && !After(ts).spoilt && RoomFor(ts, cap)
    requires m.Shape() && Text(t) && start <= |t|
    modifies m, m.braslist, m.braelist
    ensures StepGoes(After(ts).items, t, Get(s, 0) == CARET, start, v)
    ensures Safe(After(ts).items) ==> v == Sound
    ensures v == Sound && Get(s, 0) == CARET ==> (ok <==> Hits(ts, t, start))
    ensures v == Sound && Get(s, 0) != CARET ==> (ok <==> exists p :: start <= p && Hits(ts, t, p))
    ensures v == Sound && ok ==> start <= m.loc1 && Hits(ts, t, m.loc1) && m.Located(After(ts).items, t)
    ensures v == Sound && ok ==> forall p :: start <= p < m.loc1 ==> !Hits(ts, t, p)
  {
    UnspoiltIsRegular(s, eof, sed, ts);
    SearchesSoundly(After(ts).items);
    var r;
    ghost var read;
    r, read := Compile(s, cap, eof, sed, first, ts);
    ghost var items := After(ts).items;
    ok, v := m.Step(t, r.code, r.circf, start, items);
    assert Safe(items) ==> StepGoes(items, t, r.circf, start, Sound);
    if ok && v == Sound { assert Hits(ts, t, m.loc1); }
    assert forall p: nat :: Hits(ts, t, p) ==> MatchesAt(CAP, items, t, p);
  }

  /** The exact condition for the whole search: it comes to its outcome in every text, from every start, if and
    * only if the pattern is safe. */
  lemma SearchesSoundly(items: seq<Item>)
    requires Regular(items)
    ensures Safe(items) <==>
      forall t: seq<byte>, circf: bool, start: nat ::
        Text(t) && start <= |t| ==> StepGoes(items, t, circf, start, Sound)
  {
    SoundWhenSafe(CAP, items);
    if !Safe(items) {
      var t: seq<byte>, p: nat :| Text(t) && p <= |t| && Going(CAP, items, t, [p]) != Sound;
      assert Passed(items, t, p, p);
      assert Fatal(items, t, true, p, p);
      assert !StepGoes(items, t, true, p, Sound);
    }
  }

  /** In a text no longer than the limit, matching is what the pattern means. */
  lemma HitsMean(ts: seq<Token>, t: seq<byte>, p: nat)
    requires |t| <= CAP
    ensures Hits(ts, t, p) <==> Means(After(ts).items, t, p)
  {
    CapAllowsShortTexts(CAP, After(ts).items, t, p);
  }

  // ------------------------------------------------------------------ patterns that go wrong

  /** \(\(\)\1\) reads the end of a group that has not got one, at every place of every text. */
  lemma OpenReferenceStrays(ts: seq<Token>, t: seq<byte>, p: nat)
    requires ts == [Opening, Opening, Closing, Digit(1), Closing] && p <= |t|
    ensures Written(OPEN_REFERENCE, 47, false, ts) && Going(CAP, After(ts).items, t, [p]) == Astray
    ensures !Safe(After(ts).items)
  {
    ReferenceToOpenGroup(ts);
    OpenReferenceAt(After(ts).items, t, p);
  }

  lemma OpenReferenceAt(items: seq<Item>, t: seq<byte>, p: nat)
    requires items == [Item(Open(0), Once), Item(Open(1), Once), Item(Close(1), Once), Item(Back(0), Once),
                       Item(Close(0), Once)] && p <= |t|
    ensures Going(CAP, items, t, [p]) == Astray && !Safe(items)
  {
    var rest := items[1..][1..][1..];
    assert items[1..][0] == items[1] && items[1..][1..][0] == items[2] && rest[0] == items[3];
    assert rest[1..][0] == items[4];
    assert Find(items, Open(0)) == 0 && Find(items, Close(0)) == 4;
    var p1: seq<nat> := [p];
    var p2 := p1 + [p];
    var p3 := p2 + [p];
    var p4 := p3 + [p];
    OnlyEnd(CAP, items, t, p1, p);
    OnlyEnd(CAP, items, t, p2, p);
    OnlyEnd(CAP, items, t, p3, p);
    assert Unset(items, 3);
    assert |p4| == 4 && Turn(CAP, items, t, p4) == Astray;
    assert Troubling(items, 3);
  }
}
