/** Every written pattern of the ed-style matcher that is not spoilt has regular items, so that its code can be
  * followed. */
module EdRegular {
  import opened Basics
  import opened EdPattern
  import opened EdCode
  import opened EdSyntax

  // ------------------------------------------------------------------ finding atoms

  lemma {:induction false} FindAppend(items: seq<Item>, x: Item, a: Atom)
    ensures Find(items + [x], a) ==
      if Find(items, a) < |items| then Find(items, a) else if x.atom == a then |items| else |items| + 1
  {
    if items != [] && items[0].atom != a {
      assert (items + [x])[1..] == items[1..] + [x];
      FindAppend(items[1..], x, a);
    } else if items == [] {
      assert (items + [x])[1..] == [];
    }
  }

  lemma {:induction false} FindSame(items: seq<Item>, other: seq<Item>, a: Atom)
    requires |items| == |other| && forall i :: 0 <= i < |items| ==> items[i].atom == other[i].atom
    ensures Find(items, a) == Find(other, a)
  {
    if items != [] && items[0].atom != a { FindSame(items[1..], other[1..], a); }
  }

  // ------------------------------------------------------------------ what every state keeps

  /** An item is in order among the groups opened and closed so far. */
  ghost predicate InOrder(st: State, i: nat)
    requires i < |st.items|
  {
    var item := st.items[i];
    && Interval(item.quant) && (item.quant.Times? ==> Simple(item.atom))
    && match item.atom
       case Open(k) => item.quant == Once && k < st.nbra && Find(st.items, Open(k)) == i
       case Close(k) =>
         item.quant == Once && k < st.nbra && k !in st.stack
         && Find(st.items, Close(k)) == i && Find(st.items, Open(k)) < i
       case Back(k) => k < st.nbra && Find(st.items, Open(k)) < i
       case End => item.quant == Once && i == |st.items| - 1
       case _ => true
  }

  ghost predicate Stacked(st: State) {
    && st.nbra <= 9 && |st.stack| + st.closed == st.nbra
    && (forall a, b :: 0 <= a < b < |st.stack| ==> st.stack[a] != st.stack[b])
    && (forall a :: 0 <= a < |st.stack| ==> st.stack[a] < st.nbra)
  }

  ghost predicate Paired(st: State, k: nat) {
    Find(st.items, Open(k)) < |st.items| && (k !in st.stack ==> Find(st.items, Close(k)) < |st.items|)
  }

  ghost predicate Balanced(st: State) {
    && Stacked(st)
    && (forall i {:trigger InOrder(st, i)} :: 0 <= i < |st.items| ==> InOrder(st, i))
    && (forall k {:trigger Paired(st, k)} :: 0 <= k < st.nbra ==> Paired(st, k))
  }

  lemma BalancedIsRegular(st: State)
    requires Balanced(st)
    ensures Regular(st.items)
  {
    forall i | 0 <= i < |st.items| ensures RegularAt(st.items, i) { assert InOrder(st, i); }
  }

  // Items before a new one stay in order.
  lemma AddKeeps(st: State, x: Item, next: State, i: nat)
    requires Balanced(st) && next.items == st.items + [x] && next.nbra >= st.nbra && i < |st.items|
    requires forall k: nat :: k < st.nbra && k !in st.stack ==> k !in next.stack
    requires !Last(st).atom.End?
    ensures InOrder(next, i)
  {
    assert InOrder(st, i);
    var a := st.items[i].atom;
    if a.Open? { FindAppend(st.items, x, a); }
    if a.Close? {
      FindAppend(st.items, x, a);
      FindAppend(st.items, x, Open(a.k));
    }
    if a.Back? { FindAppend(st.items, x, Open(a.k)); }
  }

  // A new item in order keeps the state balanced.
  lemma AddBalanced(st: State, x: Item, next: State)
    requires Balanced(st) && next.items == st.items + [x] && next.nbra >= st.nbra
    requires forall k: nat :: k < st.nbra && k !in st.stack ==> k !in next.stack
    requires Stacked(next) && InOrder(next, |st.items|) && (st.items != [] ==> !Last(st).atom.End?)
    requires forall k: nat :: k < next.nbra ==> Paired(next, k)
    ensures Balanced(next)
  {
    forall i | 0 <= i < |next.items| ensures InOrder(next, i) {
      if i < |st.items| { AddKeeps(st, x, next, i); }
    }
  }

  lemma PairedStill(st: State, x: Item, next: State, k: nat)
    requires Balanced(st) && next.items == st.items + [x] && k < st.nbra
    requires k !in next.stack ==> k !in st.stack || x.atom == Close(k)
    ensures Paired(next, k)
  {
    assert Paired(st, k);
    FindAppend(st.items, x, Open(k));
    FindAppend(st.items, x, Close(k));
  }

  // An item that is no bracket of a group.
  lemma AddOne(st: State, a: Atom)
    requires Balanced(st) && !a.Open? && !a.Close? && (a.Back? ==> a.k < st.nbra)
    requires st.items != [] ==> !Last(st).atom.End?
    ensures Balanced(Add(st, a))
  {
    var x, next := Item(a, Once), Add(st, a);
    forall k: nat | k < next.nbra ensures Paired(next, k) { PairedStill(st, x, next, k); }
    if a.Back? {
      assert Paired(st, a.k);
      FindAppend(st.items, x, Open(a.k));
    }
    AddBalanced(st, x, next);
  }

  lemma AddOpening(st: State)
    requires Balanced(st) && st.nbra < 9 && (st.items != [] ==> !Last(st).atom.End?)
    ensures Balanced(Next(st, Opening))
  {
    var x, next, n := Item(Open(st.nbra), Once), Next(st, Opening), |st.items|;
    var f := Find(st.items, Open(st.nbra));
    assert f < n ==> InOrder(st, f);
    FindAppend(st.items, x, Open(st.nbra));
    assert st.nbra in next.stack by { assert next.stack[|st.stack|] == st.nbra; }
    forall k: nat | k < next.nbra ensures Paired(next, k) {
      if k < st.nbra { PairedStill(st, x, next, k); }
    }
    AddBalanced(st, x, next);
  }

  lemma AddClosing(st: State)
    requires Balanced(st) && st.stack != [] && (st.items != [] ==> !Last(st).atom.End?)
    ensures Balanced(Next(st, Closing))
  {
    var top := st.stack[|st.stack| - 1];
    var x, next, n := Item(Close(top), Once), Next(st, Closing), |st.items|;
    assert st.stack == next.stack + [top];
    var f := Find(st.items, Close(top));
    assert f < n ==> InOrder(st, f);
    assert Paired(st, top);
    FindAppend(st.items, x, Close(top));
    FindAppend(st.items, x, Open(top));
    forall k: nat | k < next.nbra ensures Paired(next, k) { PairedStill(st, x, next, k); }
    AddBalanced(st, x, next);
  }

  // The last item gets another quantifier that it may have.
  lemma Requantify(st: State, q: Quant, next: State)
    requires Balanced(st) && st.items != [] && next == Requantified(st, q)
    requires Interval(q) && (q.Times? ==> Simple(Last(st).atom)) && (Simple(Last(st).atom) || Last(st).atom.Back?)
    ensures Balanced(next)
  {
    forall a: Atom ensures Find(next.items, a) == Find(st.items, a) { FindSame(st.items, next.items, a); }
    forall i | 0 <= i < |st.items| ensures InOrder(next, i) { assert InOrder(st, i); }
    forall k: nat | k < next.nbra ensures Paired(next, k) { assert Paired(st, k); }
  }

  // ------------------------------------------------------------------ whole patterns

  // What is known at the end of the tokens read.
  ghost predicate AtEnd(s: seq<byte>, pos: nat, eof: byte, ts: seq<Token>) {
    var st := After(ts);
    st.items != [] && Last(st).atom.End? ==> Delimits(Get(s, pos), eof)
  }

  ghost predicate Good(s: seq<byte>, pos: nat, eof: byte, ts: seq<Token>) {
    Balanced(After(ts)) && AtEnd(s, pos, eof, ts)
  }

  // Nothing stands behind the item for the end of the text.
  lemma NotAtEnd(s: seq<byte>, pos: nat, eof: byte, ts: seq<Token>, t: Token)
    requires Good(s, pos, eof, ts) && TokenAt(s, pos, eof, After(ts), t)
    ensures After(ts).items != [] ==> !Last(After(ts)).atom.End?
  {
  }

  // A token that adds an item which is no bracket of a group.
  lemma GoodAdd(s: seq<byte>, pos: nat, eof: byte, ts: seq<Token>, t: Token, more: seq<Token>, a: Atom)
    requires Good(s, pos, eof, ts) && TokenAt(s, pos, eof, After(ts), t) && more == ts + [t]
    requires Next(After(ts), t) == Add(After(ts), a) && !a.Open? && !a.Close?
    requires (a.Back? ==> a.k < After(ts).nbra) && (a.End? ==> t.Dollar?)
    ensures Good(s, pos + TokenWidth(t), eof, more)
  {
    TokensSnoc(ts, t, more);
    NotAtEnd(s, pos, eof, ts, t);
    AddOne(After(ts), a);
  }

  lemma GoodGroup(s: seq<byte>, pos: nat, eof: byte, ts: seq<Token>, t: Token, more: seq<Token>)
    requires Good(s, pos, eof, ts) && TokenAt(s, pos, eof, After(ts), t) && more == ts + [t]
    requires t.Opening? || t.Closing?
    ensures Good(s, pos + TokenWidth(t), eof, more)
  {
    TokensSnoc(ts, t, more);
    NotAtEnd(s, pos, eof, ts, t);
    if t.Opening? { AddOpening(After(ts)); } else { AddClosing(After(ts)); }
  }

  lemma GoodStar(s: seq<byte>, pos: nat, eof: byte, ts: seq<Token>, more: seq<Token>)
    requires Good(s, pos, eof, ts) && TokenAt(s, pos, eof, After(ts), Star) && more == ts + [Star]
    ensures Good(s, pos + 1, eof, more)
  {
    var st := After(ts);
    TokensSnoc(ts, Star, more);
    NotAtEnd(s, pos, eof, ts, Star);
    assert InOrder(st, |st.items| - 1);
    if !Last(st).quant.Times? { Requantify(st, Many, Next(st, Star)); }
  }

  lemma BoundsOf(s: seq<byte>, pos: nat, t: Token)
    requires t.Braces? && BracesAt(s, pos, t.first, t.comma, t.second)
    ensures 0 <= Value(t.first) <= Upper(t) <= 255 && Value(t.first) < 255
  {
    ValueNatural(t.first);
  }

  lemma GoodBraces(s: seq<byte>, pos: nat, eof: byte, ts: seq<Token>, t: Token, more: seq<Token>)
    requires Good(s, pos, eof, ts) && TokenAt(s, pos, eof, After(ts), t) && t.Braces? && more == ts + [t]
    requires !After(more).spoilt
    ensures Good(s, pos + TokenWidth(t), eof, more)
  {
    TokensSnoc(ts, t, more);
    BoundsOf(s, pos, t);
    Requantify(After(ts), Times(Value(t.first), Upper(t)), Next(After(ts), t));
  }

  lemma GoodStep(s: seq<byte>, pos: nat, eof: byte, ts: seq<Token>, t: Token, more: seq<Token>)
    requires Good(s, pos, eof, ts) && TokenAt(s, pos, eof, After(ts), t) && more == ts + [t] && !After(more).spoilt
    ensures Good(s, pos + TokenWidth(t), eof, more)
  {
    match t
    case Plain(c) => GoodAdd(s, pos, eof, ts, t, more, Lit(c));
    case Escaped(c) => GoodAdd(s, pos, eof, ts, t, more, Lit(if c == 110 then NEWLINE else c));
    case Dot => GoodAdd(s, pos, eof, ts, t, more, Any);
    case Dollar => GoodAdd(s, pos, eof, ts, t, more, End);
    case Bracket(neg, elems, dash) => GoodAdd(s, pos, eof, ts, t, more, Set(neg, elems, dash));
    case Digit(d) => GoodAdd(s, pos, eof, ts, t, more, Back(d - 1));
    case Opening => GoodGroup(s, pos, eof, ts, t, more);
    case Closing => GoodGroup(s, pos, eof, ts, t, more);
    case Star => GoodStar(s, pos, eof, ts, more);
    case Braces(_, _, _) => GoodBraces(s, pos, eof, ts, t, more);
  }

  lemma {:induction false} SpoiltStays(ts: seq<Token>, k: nat)
    requires k <= |ts| && After(ts[..k]).spoilt
    ensures After(ts).spoilt
  {
    if k < |ts| {
      assert ts[..|ts| - 1][..k] == ts[..k];
      SpoiltStays(ts[..|ts| - 1], k);
    } else {
      assert ts[..k] == ts;
    }
  }

  lemma {:induction false} AllGood(s: seq<byte>, start: nat, eof: byte, ts: seq<Token>)
    requires Spelled(s, start, eof, ts) && !After(ts).spoilt
    ensures Good(s, start + Width(ts), eof, ts)
  {
    if ts != [] {
      var init := ts[..|ts| - 1];
      if After(init).spoilt { SpoiltStays(ts, |ts| - 1); }
      AllGood(s, start, eof, init);
      GoodStep(s, start + Width(init), eof, init, ts[|ts| - 1], ts);
    }
  }

  /** A written pattern that is not spoilt has regular items. */
  lemma UnspoiltIsRegular(s: seq<byte>, eof: byte, sed: bool, ts: seq<Token>)
    requires Written(s, eof, sed, ts) && !After(ts).spoilt
    ensures Regular(After(ts).items)
  {
    AllGood(s, Start(s), eof, ts);
    BalancedIsRegular(After(ts));
  }

  // ------------------------------------------------------------------ spoilt patterns

  // An interval on something that cannot have one.
  ghost predicate Misplaced(items: seq<Item>) {
    exists i :: 0 <= i < |items| && items[i].quant.Times? && !Simple(items[i].atom)
  }

  lemma TotalSnoc(items: seq<Item>, x: Item, more: seq<Item>)
    requires more == items + [x]
    ensures Offset(more, |more|) == Offset(items, |items|) + Size(x)
    ensures Misplaced(more) <==> Misplaced(items) || (x.quant.Times? && !Simple(x.atom))
  {
    assert items[..|items|] == items && more[..|items|] == items;
    OffsetSame(items, more, |items|);
    if Misplaced(items) {
      var i :| 0 <= i < |items| && items[i].quant.Times? && !Simple(items[i].atom);
      assert more[i] == items[i];
    }
    assert more[|items|] == x;
  }

  // The code is as long as the items take it to be, unless an item has got a second interval.
  ghost predicate Measured(st: State, length: nat) {
    var total := Offset(st.items, |st.items|);
    if st.spoilt then length > total || (length == total && Misplaced(st.items))
    else length == total && !Misplaced(st.items)
  }

  lemma MeasuredAdd(st: State, a: Atom, next: State, length: nat)
    requires Measured(st, length) && next.items == st.items + [Item(a, Once)] && next.spoilt == st.spoilt
    ensures Measured(next, length + 1 + Operand(a))
  {
    TotalSnoc(st.items, Item(a, Once), next.items);
  }

  lemma MeasuredLast(st: State, q: Quant, next: State, length: nat, wider: nat)
    requires Measured(st, length) && st.items != []
    requires next.items == st.items[..|st.items| - 1] + [Last(st).(quant := q)]
    requires (q.Many? && wider == 0 && !Last(st).quant.Times? && next.spoilt == st.spoilt)
          || (q.Times? && wider == 2 && next.spoilt == (st.spoilt || Last(st).quant.Times? || !Simple(Last(st).atom)))
    ensures Measured(next, length + wider)
  {
    var init := st.items[..|st.items| - 1];
    assert st.items == init + [Last(st)];
    TotalSnoc(init, Last(st), st.items);
    TotalSnoc(init, Last(st).(quant := q), next.items);
  }

  lemma MeasuredNext(s: seq<byte>, pos: nat, eof: byte, st: State, t: Token, length: nat)
    requires Measured(st, length) && TokenAt(s, pos, eof, st, t)
    ensures Measured(Next(st, t), length + CodeWidth(t))
  {
    match t
    case Star => if !Last(st).quant.Times? { MeasuredLast(st, Many, Next(st, t), length, 0); }
    case Braces(first, _, _) =>
      BoundsOf(s, pos, t);
      MeasuredLast(st, Times(Value(first), Upper(t)), Next(st, t), length, 2);
    case Plain(c) => MeasuredAdd(st, Lit(c), Next(st, t), length);
    case Escaped(c) => MeasuredAdd(st, Lit(if c == 110 then NEWLINE else c), Next(st, t), length);
    case Dot => MeasuredAdd(st, Any, Next(st, t), length);
    case Dollar => MeasuredAdd(st, End, Next(st, t), length);
    case Bracket(neg, elems, dash) => MeasuredAdd(st, Set(neg, elems, dash), Next(st, t), length);
    case Opening => MeasuredAdd(st, Open(st.nbra), Next(st, t), length);
    case Closing => MeasuredAdd(st, Close(st.stack[|st.stack| - 1]), Next(st, t), length);
    case Digit(d) => MeasuredAdd(st, Back(d - 1), Next(st, t), length);
  }

  lemma {:induction false} AllMeasured(s: seq<byte>, start: nat, eof: byte, ts: seq<Token>)
    requires Spelled(s, start, eof, ts)
    ensures Measured(After(ts), CodeLength(ts))
  {
    if ts != [] {
      var init := ts[..|ts| - 1];
      AllMeasured(s, start, eof, init);
      MeasuredNext(s, start + Width(init), eof, After(init), ts[|ts| - 1], CodeLength(init));
    }
  }

  /** Exactly the patterns that are not spoilt have regular items that account for the whole of the code. */
  lemma UnspoiltWhen(s: seq<byte>, eof: byte, sed: bool, ts: seq<Token>)
    requires Written(s, eof, sed, ts)
    ensures var items := After(ts).items;
      !After(ts).spoilt <==> Regular(items) && CodeLength(ts) == Offset(items, |items|)
  {
    AllMeasured(s, Start(s), eof, ts);
    var items := After(ts).items;
    if After(ts).spoilt && Misplaced(items) {
      var i :| 0 <= i < |items| && items[i].quant.Times? && !Simple(items[i].atom);
      assert !RegularAt(items, i);
    }
    if !After(ts).spoilt { UnspoiltIsRegular(s, eof, sed, ts); }
  }
}
