/** The position automaton of a regular-expression tree (b.c: first, follow, cfoll)
  * and the proof that it recognises the tree's language.
  */
module AwkPositions {
  import opened AwkRegex

  // One row of the automaton: the leaf at this position and the positions that may come next.
  datatype Row = Row(leaf: Leaf, follow: seq<nat>)

  function Elems(s: seq<nat>): set<nat> { set x | x in s }

  /** Positions at which a nonempty word of r can begin, when r's leaves are numbered from off. */
  function First(r: Re, off: nat): (s: set<nat>)
    ensures forall i :: i in s ==> off <= i < off + Leaves(r)
  {
    match r
    case Unit(_) => {off}
    case Star(b) => First(b, off)
    case Plus(b) => First(b, off)
    case Quest(b) => First(b, off)
    case Cat(a, b) => First(a, off) + (if Nullable(a) then First(b, off + Leaves(a)) else {})
    case Or(a, b) => First(a, off) + First(b, off + Leaves(a))
  }

  /** Positions active just before r when the positions after r are k. */
  function Enter(r: Re, off: nat, k: set<nat>): set<nat> {
    First(r, off) + if Nullable(r) then k else {}
  }

  /** The rows at r's leaves are right when the positions after r are k. */
  ghost predicate Agrees(rows: seq<Row>, r: Re, off: nat, k: set<nat>)
    requires off + Leaves(r) <= |rows|
  {
    match r
    case Unit(l) => rows[off].leaf == l && Elems(rows[off].follow) == k
    case Star(b) => Agrees(rows, b, off, First(b, off) + k)
    case Plus(b) => Agrees(rows, b, off, First(b, off) + k)
    case Quest(b) => Agrees(rows, b, off, k)
    case Cat(a, b) =>
      Agrees(rows, a, off, Enter(b, off + Leaves(a), k)) && Agrees(rows, b, off + Leaves(a), k)
    case Or(a, b) => Agrees(rows, a, off, k) && Agrees(rows, b, off + Leaves(a), k)
  }

  /** One step of the subset automaton. */
  function StepSet(rows: seq<Row>, s: set<nat>, c: nat): set<nat> {
    set i, j | i in s && i < |rows| && Consumes(rows[i].leaf, c) && j in rows[i].follow :: j
  }

  function RunSet(rows: seq<Row>, s: set<nat>, w: seq<nat>): set<nat>
    decreases |w|
  {
    if w == [] then s else RunSet(rows, StepSet(rows, s, w[0]), w[1..])
  }

  lemma {:induction false} RunSetSnoc(rows: seq<Row>, s: set<nat>, w: seq<nat>, c: nat)
    ensures RunSet(rows, s, w + [c]) == StepSet(rows, RunSet(rows, s, w), c)
    decreases |w|
  {
    if w == [] {
      assert (w + [c])[1..] == [];
    } else {
      assert (w + [c])[1..] == w[1..] + [c];
      RunSetSnoc(rows, StepSet(rows, s, w[0]), w[1..], c);
    }
  }

  /** Reading w from position i can end at the accepting position. */
  ghost predicate AccFrom(rows: seq<Row>, acc: nat, i: nat, w: seq<nat>)
    decreases |w|
  {
    if w == [] then i == acc
    else i < |rows| && Consumes(rows[i].leaf, w[0]) &&
         exists j :: j in rows[i].follow && AccFrom(rows, acc, j, w[1..])
  }

  ghost predicate Acc(rows: seq<Row>, acc: nat, s: set<nat>, w: seq<nat>) {
    exists i :: i in s && AccFrom(rows, acc, i, w)
  }

  lemma {:induction false} RunIsAcc(rows: seq<Row>, acc: nat, s: set<nat>, w: seq<nat>)
    ensures acc in RunSet(rows, s, w) <==> Acc(rows, acc, s, w)
    decreases |w|
  {
    if w == [] {
      if acc in s { assert AccFrom(rows, acc, acc, w); }
    } else {
      var t := StepSet(rows, s, w[0]);
      RunIsAcc(rows, acc, t, w[1..]);
      if Acc(rows, acc, s, w) {
        var i :| i in s && AccFrom(rows, acc, i, w);
        var j :| j in rows[i].follow && AccFrom(rows, acc, j, w[1..]);
        assert j in t;
      }
      if Acc(rows, acc, t, w[1..]) {
        var j :| j in t && AccFrom(rows, acc, j, w[1..]);
        var i :| i in s && i < |rows| && Consumes(rows[i].leaf, w[0]) && j in rows[i].follow;
        assert AccFrom(rows, acc, i, w);
      }
    }
  }

  /** Some prefix of w of length at least lo is in r and the rest is accepted from k. */
  ghost predicate Splits(rows: seq<Row>, acc: nat, r: Re, k: set<nat>, w: seq<nat>, lo: nat) {
    exists m :: lo <= m <= |w| && SplitsAt(rows, acc, r, k, w, m)
  }

  ghost predicate SplitsAt(rows: seq<Row>, acc: nat, r: Re, k: set<nat>, w: seq<nat>, m: nat)
    requires m <= |w|
  {
    In(w[..m], r) && Acc(rows, acc, k, w[m..])
  }

  // Cutting w[n..] at j is cutting w at n + j.
  lemma CutTwice(w: seq<nat>, n: nat, j: nat)
    requires n + j <= |w|
    ensures w[..n] + w[n..][..j] == w[..n + j] && w[n..][j..] == w[n + j..]
    ensures w[..n + j][..n] == w[..n] && w[..n + j][n..] == w[n..][..j]
  {
  }

  /** The heart of the construction: starting at the first positions of r means reading a nonempty
    * word of r and then going on from the positions that follow r. */
  lemma {:induction false} FirstReads(rows: seq<Row>, acc: nat, r: Re, off: nat, k: set<nat>, w: seq<nat>)
    requires off + Leaves(r) <= acc < |rows|
    requires Agrees(rows, r, off, k)
    ensures Acc(rows, acc, First(r, off), w) <==> Splits(rows, acc, r, k, w, 1)
    decreases r, |w|, 1
  {
    match r
    case Unit(l) => UnitReads(rows, acc, l, off, k, w);
    case Star(b) => StarReads(rows, acc, b, off, k, w); StarIsStarSplits(rows, acc, b, k, w);
    case Plus(b) => StarReads(rows, acc, b, off, k, w); PlusIsStarSplits(rows, acc, b, k, w);
    case Quest(b) =>
      FirstReads(rows, acc, b, off, k, w);
      QuestSplits(rows, acc, b, k, w);
    case Cat(a, b) => CatReads(rows, acc, a, b, off, k, w);
    case Or(a, b) =>
      FirstReads(rows, acc, a, off, k, w);
      FirstReads(rows, acc, b, off + Leaves(a), k, w);
      OrReads(rows, acc, a, b, off, k, w);
  }

  /** The same with the empty word allowed. */
  lemma EnterReads(rows: seq<Row>, acc: nat, r: Re, off: nat, k: set<nat>, w: seq<nat>)
    requires off + Leaves(r) <= acc < |rows|
    requires Agrees(rows, r, off, k)
    ensures Acc(rows, acc, Enter(r, off, k), w) <==> Splits(rows, acc, r, k, w, 0)
    decreases r, |w|, 2
  {
    FirstReads(rows, acc, r, off, k, w);
    EnterFromFirst(rows, acc, r, off, k, w);
  }

  lemma EnterFromFirst(rows: seq<Row>, acc: nat, r: Re, off: nat, k: set<nat>, w: seq<nat>)
    requires Acc(rows, acc, First(r, off), w) <==> Splits(rows, acc, r, k, w, 1)
    ensures Acc(rows, acc, Enter(r, off, k), w) <==> Splits(rows, acc, r, k, w, 0)
  {
    NullableIsEmptyWord(r);
    assert w[..0] == [] && w[0..] == w;
    assert SplitsAt(rows, acc, r, k, w, 0) <==> Nullable(r) && Acc(rows, acc, k, w);
  }

  lemma UnitReads(rows: seq<Row>, acc: nat, l: Leaf, off: nat, k: set<nat>, w: seq<nat>)
    requires off < acc < |rows| && rows[off].leaf == l && Elems(rows[off].follow) == k
    ensures Acc(rows, acc, {off}, w) <==> Splits(rows, acc, Unit(l), k, w, 1)
  {
    if Acc(rows, acc, {off}, w) {
      var j :| j in rows[off].follow && AccFrom(rows, acc, j, w[1..]);
      assert j in k && w[..1] == [w[0]];
      assert SplitsAt(rows, acc, Unit(l), k, w, 1);
    }
    if Splits(rows, acc, Unit(l), k, w, 1) {
      var m :| 1 <= m <= |w| && SplitsAt(rows, acc, Unit(l), k, w, m);
      var j :| j in k && AccFrom(rows, acc, j, w[m..]);
      assert m == 1 && j in rows[off].follow;
      assert AccFrom(rows, acc, off, w);
    }
  }

  // On words that consume at least one symbol, b?, b+ and b* reduce to b and to b*.
  lemma QuestSplits(rows: seq<Row>, acc: nat, b: Re, k: set<nat>, w: seq<nat>)
    ensures Splits(rows, acc, Quest(b), k, w, 1) <==> Splits(rows, acc, b, k, w, 1)
  {
    forall m | 1 <= m <= |w| ensures SplitsAt(rows, acc, Quest(b), k, w, m) <==> SplitsAt(rows, acc, b, k, w, m) {
    }
  }

  lemma StarIsStarSplits(rows: seq<Row>, acc: nat, b: Re, k: set<nat>, w: seq<nat>)
    ensures Splits(rows, acc, Star(b), k, w, 1) <==> StarSplits(rows, acc, b, k, w)
  {
    forall m | 1 <= m <= |w| ensures SplitsAt(rows, acc, Star(b), k, w, m) <==> StarSplitsAt(rows, acc, b, k, w, m) {
    }
  }

  lemma PlusIsStarSplits(rows: seq<Row>, acc: nat, b: Re, k: set<nat>, w: seq<nat>)
    ensures Splits(rows, acc, Plus(b), k, w, 1) <==> StarSplits(rows, acc, b, k, w)
  {
    forall m | 1 <= m <= |w| ensures SplitsAt(rows, acc, Plus(b), k, w, m) <==> StarSplitsAt(rows, acc, b, k, w, m) {
      PlusIsStar(w[..m], b);
    }
  }

  lemma OrReads(rows: seq<Row>, acc: nat, a: Re, b: Re, off: nat, k: set<nat>, w: seq<nat>)
    requires Acc(rows, acc, First(a, off), w) <==> Splits(rows, acc, a, k, w, 1)
    requires Acc(rows, acc, First(b, off + Leaves(a)), w) <==> Splits(rows, acc, b, k, w, 1)
    ensures Acc(rows, acc, First(Or(a, b), off), w) <==> Splits(rows, acc, Or(a, b), k, w, 1)
  {
    forall m | 1 <= m <= |w|
      ensures SplitsAt(rows, acc, Or(a, b), k, w, m) <==>
              SplitsAt(rows, acc, a, k, w, m) || SplitsAt(rows, acc, b, k, w, m)
    {
    }
  }

  lemma {:induction false} CatReads(rows: seq<Row>, acc: nat, a: Re, b: Re, off: nat, k: set<nat>, w: seq<nat>)
    requires off + Leaves(a) + Leaves(b) <= acc < |rows|
    requires Agrees(rows, Cat(a, b), off, k)
    ensures Acc(rows, acc, First(Cat(a, b), off), w) <==> Splits(rows, acc, Cat(a, b), k, w, 1)
    decreases Cat(a, b), |w|, 0
  {
    var offb := off + Leaves(a);
    var kb := Enter(b, offb, k);
    FirstReads(rows, acc, a, off, kb, w);
    FirstReads(rows, acc, b, offb, k, w);
    forall n | 0 <= n <= |w| ensures Acc(rows, acc, kb, w[n..]) <==> Splits(rows, acc, b, k, w[n..], 0) {
      EnterReads(rows, acc, b, offb, k, w[n..]);
    }
    NullableIsEmptyWord(a);
    if Acc(rows, acc, First(a, off), w) {
      CatForward(rows, acc, a, b, kb, k, w);
    } else if Nullable(a) && Acc(rows, acc, First(b, offb), w) {
      CatForwardEmpty(rows, acc, a, b, k, w);
    }
    if Splits(rows, acc, Cat(a, b), k, w, 1) {
      CatBackward(rows, acc, a, b, kb, k, w);
    }
  }

  lemma CatForward(rows: seq<Row>, acc: nat, a: Re, b: Re, kb: set<nat>, k: set<nat>, w: seq<nat>)
    requires Splits(rows, acc, a, kb, w, 1)
    requires forall n | 0 <= n <= |w| :: Acc(rows, acc, kb, w[n..]) <==> Splits(rows, acc, b, k, w[n..], 0)
    ensures Splits(rows, acc, Cat(a, b), k, w, 1)
  {
    var n :| 1 <= n <= |w| && SplitsAt(rows, acc, a, kb, w, n);
    var j :| 0 <= j <= |w[n..]| && SplitsAt(rows, acc, b, k, w[n..], j);
    CatIntro(w[..n], w[n..][..j], a, b);
    CutTwice(w, n, j);
    assert SplitsAt(rows, acc, Cat(a, b), k, w, n + j);
  }

  lemma CatForwardEmpty(rows: seq<Row>, acc: nat, a: Re, b: Re, k: set<nat>, w: seq<nat>)
    requires In([], a) && Splits(rows, acc, b, k, w, 1)
    ensures Splits(rows, acc, Cat(a, b), k, w, 1)
  {
    var j :| 1 <= j <= |w| && SplitsAt(rows, acc, b, k, w, j);
    CatIntro([], w[..j], a, b);
    assert [] + w[..j] == w[..j];
    assert SplitsAt(rows, acc, Cat(a, b), k, w, j);
  }

  lemma CatBackward(rows: seq<Row>, acc: nat, a: Re, b: Re, kb: set<nat>, k: set<nat>, w: seq<nat>)
    requires Splits(rows, acc, Cat(a, b), k, w, 1)
    requires forall n | 0 <= n <= |w| :: Acc(rows, acc, kb, w[n..]) <==> Splits(rows, acc, b, k, w[n..], 0)
    ensures Splits(rows, acc, a, kb, w, 1) || (In([], a) && Splits(rows, acc, b, k, w, 1))
  {
    var m :| 1 <= m <= |w| && SplitsAt(rows, acc, Cat(a, b), k, w, m);
    var n := CatElim(w[..m], a, b);
    CutTwice(w, n, m - n);
    assert SplitsAt(rows, acc, b, k, w[n..], m - n);
    if n == 0 {
      assert w[..0] == [] && w[0..] == w;
    } else {
      assert SplitsAt(rows, acc, a, kb, w, n);
    }
  }

  ghost predicate StarSplits(rows: seq<Row>, acc: nat, b: Re, k: set<nat>, w: seq<nat>) {
    exists m :: 1 <= m <= |w| && StarSplitsAt(rows, acc, b, k, w, m)
  }

  ghost predicate StarSplitsAt(rows: seq<Row>, acc: nat, b: Re, k: set<nat>, w: seq<nat>, m: nat)
    requires m <= |w|
  {
    InStar(w[..m], b) && Acc(rows, acc, k, w[m..])
  }

  lemma {:induction false} StarReads(rows: seq<Row>, acc: nat, b: Re, off: nat, k: set<nat>, w: seq<nat>)
    requires off + Leaves(b) <= acc < |rows|
    requires Agrees(rows, b, off, First(b, off) + k)
    ensures Acc(rows, acc, First(b, off), w) <==> StarSplits(rows, acc, b, k, w)
    decreases b, |w|, 3
  {
    var kb := First(b, off) + k;
    FirstReads(rows, acc, b, off, kb, w);
    if Splits(rows, acc, b, kb, w, 1) {
      var n :| 1 <= n <= |w| && SplitsAt(rows, acc, b, kb, w, n);
      StarReads(rows, acc, b, off, k, w[n..]);
      StarJoin(rows, acc, b, k, w, n);
    }
    if StarSplits(rows, acc, b, k, w) {
      var n := StarCut(rows, acc, b, k, w);
      StarReads(rows, acc, b, off, k, w[n..]);
      assert SplitsAt(rows, acc, b, kb, w, n);
    }
  }

  // A first word of b, and then nothing more or another run of words.
  lemma StarJoin(rows: seq<Row>, acc: nat, b: Re, k: set<nat>, w: seq<nat>, n: nat)
    requires 1 <= n <= |w| && In(w[..n], b)
    requires Acc(rows, acc, k, w[n..]) || StarSplits(rows, acc, b, k, w[n..])
    ensures StarSplits(rows, acc, b, k, w)
  {
    if Acc(rows, acc, k, w[n..]) {
      StarIntro(w[..n], [], b);
      assert w[..n] + [] == w[..n];
      assert StarSplitsAt(rows, acc, b, k, w, n);
    } else {
      var m :| 1 <= m <= |w[n..]| && StarSplitsAt(rows, acc, b, k, w[n..], m);
      StarIntro(w[..n], w[n..][..m], b);
      CutTwice(w, n, m);
      assert StarSplitsAt(rows, acc, b, k, w, n + m);
    }
  }

  lemma StarCut(rows: seq<Row>, acc: nat, b: Re, k: set<nat>, w: seq<nat>) returns (n: nat)
    requires StarSplits(rows, acc, b, k, w)
    ensures 1 <= n <= |w| && In(w[..n], b)
    ensures Acc(rows, acc, k, w[n..]) || StarSplits(rows, acc, b, k, w[n..])
  {
    var m :| 1 <= m <= |w| && StarSplitsAt(rows, acc, b, k, w, m);
    n := StarElim(w[..m], b);
    CutTwice(w, n, m - n);
    if n < m { assert StarSplitsAt(rows, acc, b, k, w[n..], m - n); }
  }

  // Agrees looks only at the rows of r's own leaves.
  lemma {:induction false} AgreesFrame(rows: seq<Row>, rows': seq<Row>, r: Re, off: nat, k: set<nat>)
    requires off + Leaves(r) <= |rows| && |rows| == |rows'|
    requires forall i :: off <= i < off + Leaves(r) ==> rows[i] == rows'[i]
    requires Agrees(rows, r, off, k)
    ensures Agrees(rows', r, off, k)
  {
    match r
    case Unit(_) =>
    case Star(b) => AgreesFrame(rows, rows', b, off, First(b, off) + k);
    case Plus(b) => AgreesFrame(rows, rows', b, off, First(b, off) + k);
    case Quest(b) => AgreesFrame(rows, rows', b, off, k);
    case Cat(a, b) =>
      AgreesFrame(rows, rows', a, off, Enter(b, off + Leaves(a), k));
      AgreesFrame(rows, rows', b, off + Leaves(a), k);
    case Or(a, b) =>
      AgreesFrame(rows, rows', a, off, k);
      AgreesFrame(rows, rows', b, off + Leaves(a), k);
  }

  /** The elements of s below n, largest first: the form in which the program stores a position set. */
  function Descending(n: nat, s: set<nat>): (l: seq<nat>)
    ensures forall i :: i in l <==> i in s && i < n
  {
    if n == 0 then []
    else if n - 1 in s then [n - 1] + Descending(n - 1, s)
    else Descending(n - 1, s)
  }

  lemma {:induction false} DescendingLength(n: nat, s: set<nat>)
    requires forall i :: i in s ==> i < n
    ensures |Descending(n, s)| == |s|
  {
    if n > 0 {
      var t := s - {n - 1};
      DescendingLength(n - 1, t);
      DescendingSame(n - 1, s, t);
      if n - 1 in s { assert s == t + {n - 1}; } else { assert s == t; }
    } else {
      assert s == {};
    }
  }

  lemma {:induction false} DescendingSame(n: nat, s: set<nat>, t: set<nat>)
    requires forall i :: 0 <= i < n ==> (i in s <==> i in t)
    ensures Descending(n, s) == Descending(n, t)
  {
    if n > 0 { DescendingSame(n - 1, s, t); }
  }

  // A stored position set: a list that is the descending form of its own elements.
  ghost predicate Stored(l: seq<nat>, n: nat) { l == Descending(n, Elems(l)) }

  lemma StoredDescending(n: nat, s: set<nat>)
    requires forall i :: i in s ==> i < n
    ensures Elems(Descending(n, s)) == s && Stored(Descending(n, s), n)
  {
  }
}
