/** Exactly which patterns of the ed-style matcher can bring it into trouble in some text. */
module EdTrouble {
  import opened Basics
  import opened EdPattern

  /** The least number of bytes that the first i items take. */
  function MinAt(items: seq<Item>, i: nat): nat
    requires i <= |items|
    decreases i, 0
  {
    if i == 0 then 0 else MinAt(items, i - 1) + LeastTaken(items, i - 1)
  }

  /** The least number of bytes that item i takes: as many as its group, for a reference. */
  function LeastTaken(items: seq<Item>, i: nat): nat
    requires i < |items|
    decreases i, 2
  {
    match items[i].atom
    case Open(_) => 0
    case Close(_) => 0
    case End => 0
    case Back(k) => if items[i].quant.Many? then 0 else GroupLeast(items, i, k)
    case _ => Least(items[i].quant)
  }

  /** The least length of group k, when it has been closed before item i. */
  function GroupLeast(items: seq<Item>, i: nat, k: nat): nat
    requires i < |items|
    decreases i, 1
  {
    var a, b := Find(items, Open(k)), Find(items, Close(k));
    if a <= b < i && MinAt(items, a) <= MinAt(items, b) then MinAt(items, b) - MinAt(items, a) else 0
  }

  /** An item that matches nothing at all. */
  ghost predicate Dead(item: Item) {
    Simple(item.atom) && Least(item.quant) > 0 && forall x: byte :: !Accepts(item.atom, x)
  }

  /** What the matcher cannot deal with: a reference to a group still open, a starred reference to a group that
    * can be empty, and a literal or list that lets the terminator through. */
  predicate Troubling(items: seq<Item>, i: nat)
    requires i < |items|
  {
    || Unset(items, i)
    || (items[i].atom.Back? && items[i].quant.Many? && GroupLeast(items, i, items[i].atom.k) == 0)
    || (TakesNul(items[i].atom) && items[i].quant != Times(0, 0))
  }

  /** A troubling item is never come upon, since an item before it matches nothing. */
  ghost predicate Safe(items: seq<Item>) {
    forall i :: 0 <= i < |items| && Troubling(items, i) ==> exists d :: 0 <= d < i && Dead(items[d])
  }

  // ------------------------------------------------------------------ safe patterns

  lemma {:induction false} MinMonotone(items: seq<Item>, a: nat, b: nat)
    requires a <= b <= |items|
    ensures MinAt(items, a) <= MinAt(items, b)
  {
    if a < b { MinMonotone(items, a, b - 1); }
  }

  // Items laid over a text take at least their least.
  lemma {:induction false} TilesLeast(cap: nat, items: seq<Item>, t: seq<byte>, ps: seq<nat>, a: nat, b: nat)
    requires Tiles(cap, items, t, ps) && a <= b < |ps|
    ensures ps[b] - ps[a] >= MinAt(items, b) - MinAt(items, a)
    decreases b, 0
  {
    if a < b {
      TilesLeast(cap, items, t, ps, a, b - 1);
      ItemLeast(cap, items, t, ps, b - 1);
    }
  }

  lemma {:induction false} ItemLeast(cap: nat, items: seq<Item>, t: seq<byte>, ps: seq<nat>, i: nat)
    requires Tiles(cap, items, t, ps) && i + 1 < |ps|
    ensures ps[i + 1] - ps[i] >= LeastTaken(items, i)
    decreases i, 1
  {
    assert Joined(cap, items, t, ps, i);
    match items[i].atom
    case Back(k) =>
      var a, b := Find(items, Open(k)), Find(items, Close(k));
      if !items[i].quant.Many? {
        assert |t[ps[i]..ps[i + 1]]| == |t[ps[a]..ps[b]]|;
        if b < i { TilesLeast(cap, items, t, ps, a, b); }
      }
    case _ =>
  }

  lemma DeadEnds(cap: nat, items: seq<Item>, t: seq<byte>, ps: seq<nat>, d: nat)
    requires Tiles(cap, items, t, ps) && d + 1 < |ps|
    ensures !Dead(items[d])
  {
    assert Joined(cap, items, t, ps, d);
    assert Simple(items[d].atom) && Least(items[d].quant) > 0 ==> Accepts(items[d].atom, t[ps[d]]);
  }

  lemma SafeTurn(cap: nat, items: seq<Item>, t: seq<byte>, ps: seq<nat>)
    requires Safe(items) && Tiles(cap, items, t, ps) && |ps| <= |items|
    ensures Turn(cap, items, t, ps) == Sound
  {
    var i := |ps| - 1;
    if Turn(cap, items, t, ps) != Sound {
      if Idle(items, ps) && !Unset(items, i) {
        var k := items[i].atom.k;
        TilesLeast(cap, items, t, ps, Find(items, Open(k)), Find(items, Close(k)));
      }
      assert Troubling(items, i);
      var d :| 0 <= d < i && Dead(items[d]);
      DeadEnds(cap, items, t, ps, d);
    }
  }

  lemma {:induction false} SafeGoes(cap: nat, items: seq<Item>, t: seq<byte>, ps: seq<nat>)
    requires Safe(items) && Tiles(cap, items, t, ps)
    ensures Going(cap, items, t, ps) == Sound
    decreases |items| - |ps|, |t| + 1
  {
    if |ps| <= |items| {
      SafeTurn(cap, items, t, ps);
      SafeGoesUpTo(cap, items, t, ps, |t|);
    }
  }

  lemma {:induction false} SafeGoesUpTo(cap: nat, items: seq<Item>, t: seq<byte>, ps: seq<nat>, q: int)
    requires Safe(items) && Tiles(cap, items, t, ps) && |ps| <= |items| && q <= |t|
    ensures GoingUpTo(cap, items, t, ps, q) == Sound
    decreases |items| - |ps|, q
  {
    if q >= 0 {
      if Ends(cap, items, t, ps, q) {
        TilesSnoc(cap, items, t, ps, q);
        SafeGoes(cap, items, t, ps + [q]);
      }
      SafeGoesUpTo(cap, items, t, ps, q - 1);
    }
  }

  // ------------------------------------------------------------------ a text that meets the trouble

  ghost function SomeByte(a: Atom): (r: byte)
    ensures r != NUL && ((exists x: byte :: Accepts(a, x)) ==> Accepts(a, r))
  {
    if exists x: byte :: Accepts(a, x) then var x: byte :| Accepts(a, x); x else 1
  }

  // What item i adds to a shortest text t for the items before it.
  ghost function Piece(items: seq<Item>, i: nat, t: seq<byte>): (r: seq<byte>)
    requires i < |items| && |t| == MinAt(items, i)
    ensures |r| == LeastTaken(items, i)
  {
    match items[i].atom
    case Back(k) =>
      if items[i].quant.Many? || GroupLeast(items, i, k) == 0 then []
      else
        var a, b := Find(items, Open(k)), Find(items, Close(k));
        MinMonotone(items, b, i);
        t[MinAt(items, a)..MinAt(items, b)]
    case x => seq(LeastTaken(items, i), _ => SomeByte(x))
  }

  /** A shortest text for the first i items. */
  ghost function Witness(items: seq<Item>, i: nat): (t: seq<byte>)
    requires i <= |items|
    ensures |t| == MinAt(items, i)
  {
    if i == 0 then []
    else
      var w := Witness(items, i - 1);
      w + Piece(items, i - 1, w)
  }

  lemma WitnessNext(items: seq<Item>, i: nat) returns (w: seq<byte>, piece: seq<byte>, more: seq<byte>)
    requires i < |items|
    ensures w == Witness(items, i) && |w| == MinAt(items, i) && piece == Piece(items, i, w)
    ensures more == Witness(items, i + 1) == w + piece && |more| == MinAt(items, i + 1) == |w| + |piece|
  {
    w, more := Witness(items, i), Witness(items, i + 1);
    piece := Piece(items, i, w);
  }

  lemma {:induction false} WitnessPrefix(items: seq<Item>, j: nat, i: nat, u: seq<byte>, t: seq<byte>)
    requires j <= i <= |items| && u == Witness(items, j) && t == Witness(items, i)
    ensures u <= t
    decreases i - j
  {
    if j < i {
      var w, piece, more := WitnessNext(items, j);
      PrefixGrows(w, w, piece, more);
      WitnessPrefix(items, j + 1, i, more, t);
      PrefixThrough(u, more, t);
    }
  }

  lemma PrefixThrough(u: seq<byte>, w: seq<byte>, t: seq<byte>)
    requires u <= w <= t
    ensures u <= t
  {
  }

  lemma PrefixGrows(u: seq<byte>, w: seq<byte>, piece: seq<byte>, t: seq<byte>)
    requires u <= w && t == w + piece
    ensures u <= t
  {
  }

  lemma {:induction false} WitnessIsText(items: seq<Item>, i: nat)
    requires i <= |items|
    ensures Text(Witness(items, i))
  {
    if i > 0 {
      WitnessIsText(items, i - 1);
      PieceIsText(items, i - 1, Witness(items, i - 1));
    }
  }

  lemma PieceIsText(items: seq<Item>, i: nat, t: seq<byte>)
    requires i < |items| && |t| == MinAt(items, i) && Text(t)
    ensures Text(Piece(items, i, t))
  {
    var piece := Piece(items, i, t);
    forall k | 0 <= k < |piece| ensures piece[k] != NUL {
      if items[i].atom.Back? {
        var a, b := Find(items, Open(items[i].atom.k)), Find(items, Close(items[i].atom.k));
        MinMonotone(items, b, i);
        assert piece == t[MinAt(items, a)..MinAt(items, b)];
      }
    }
  }

  // Where the items begin in it.
  function Path(items: seq<Item>, i: nat): seq<nat>
    requires i <= |items|
  {
    seq(i + 1, j requires 0 <= j <= i => MinAt(items, j))
  }

  // Up to item i nothing is troubling or dead.
  ghost predicate Clear(items: seq<Item>, i: nat)
    requires i <= |items|
  {
    forall j :: 0 <= j < i ==> !Troubling(items, j) && !Dead(items[j])
  }

  // A shortest text for i items has the piece of item j in its place.
  lemma PieceThere(items: seq<Item>, i: nat, j: nat) returns (t: seq<byte>, w: seq<byte>, p: nat, q: nat)
    requires j < i <= |items|
    ensures t == Witness(items, i) && w == Witness(items, j) && w <= t
    ensures p == MinAt(items, j) == |w| <= q == MinAt(items, j + 1) <= |t| && t[p..q] == Piece(items, j, w)
  {
    var piece, more;
    w, piece, more := WitnessNext(items, j);
    t, p, q := Witness(items, i), |w|, |more|;
    WitnessPrefix(items, j + 1, i, more, t);
    SliceOf(w, piece, t);
  }

  lemma SliceOf(w: seq<byte>, piece: seq<byte>, t: seq<byte>)
    requires w + piece <= t
    ensures w <= t && t[|w|..|w| + |piece|] == piece
  {
    assert t[..|w| + |piece|] == w + piece;
  }

  lemma SamePiece(w: seq<byte>, t: seq<byte>, a: nat, b: nat)
    requires w <= t && a <= b <= |w|
    ensures t[a..b] == w[a..b]
  {
  }

  // What the piece of a reference is.
  lemma BackPiece(items: seq<Item>, j: nat, w: seq<byte>, a: nat, b: nat)
    requires j < |items| && items[j].atom.Back? && !Unset(items, j) && w == Witness(items, j)
    requires a == Find(items, Open(items[j].atom.k)) && b == Find(items, Close(items[j].atom.k))
    ensures a <= b < j && MinAt(items, a) <= MinAt(items, b) <= |w|
    ensures Piece(items, j, w) == if items[j].quant.Many? then [] else w[MinAt(items, a)..MinAt(items, b)]
  {
    MinMonotone(items, a, b);
    MinMonotone(items, b, j);
  }

  lemma JoinBack(cap: nat, items: seq<Item>, t: seq<byte>, ps: seq<nat>, j: nat, a: nat, b: nat)
    requires j + 1 < |ps| <= |items| + 1 && items[j].atom.Back? && a <= b <= j
    requires a == Find(items, Open(items[j].atom.k)) && b == Find(items, Close(items[j].atom.k))
    requires ps[a] <= ps[b] <= ps[j] <= ps[j + 1] <= |t|
    requires t[ps[j]..ps[j + 1]] == if items[j].quant.Many? then [] else t[ps[a]..ps[b]]
    ensures Joined(cap, items, t, ps, j)
  {
    assert |t[ps[j]..ps[j + 1]]| == ps[j + 1] - ps[j];
  }

  lemma JoinSimple(cap: nat, items: seq<Item>, t: seq<byte>, ps: seq<nat>, j: nat, x: byte)
    requires j + 1 < |ps| <= |items| + 1 && Simple(items[j].atom) && Interval(items[j].quant)
    requires ps[j] + Least(items[j].quant) == ps[j + 1] <= |t|
    requires Least(items[j].quant) > 0 ==> Accepts(items[j].atom, x)
    requires t[ps[j]..ps[j + 1]] == seq(Least(items[j].quant), _ => x)
    ensures Joined(cap, items, t, ps, j)
  {
    forall m | ps[j] <= m < ps[j + 1] ensures Accepts(items[j].atom, t[m]) {
      assert t[m] == t[ps[j]..ps[j + 1]][m - ps[j]];
    }
  }

  lemma JoinNothing(cap: nat, items: seq<Item>, t: seq<byte>, ps: seq<nat>, j: nat)
    requires j + 1 < |ps| <= |items| + 1 && (items[j].atom.Open? || items[j].atom.Close?)
    requires ps[j] == ps[j + 1] <= |t|
    ensures Joined(cap, items, t, ps, j)
  {
  }

  lemma PathAt(items: seq<Item>, i: nat, j: nat)
    requires j <= i <= |items|
    ensures |Path(items, i)| == i + 1 && Path(items, i)[j] == MinAt(items, j)
  {
  }

  lemma WitnessJoined(cap: nat, items: seq<Item>, i: nat, j: nat)
    requires j < i < |items| && RegularAt(items, j) && !Troubling(items, j) && !Dead(items[j])
    ensures |Path(items, i)| == i + 1 && Joined(cap, items, Witness(items, i), Path(items, i), j)
  {
    var ps := Path(items, i);
    var t, w, p, q := PieceThere(items, i, j);
    PathAt(items, i, j);
    PathAt(items, i, j + 1);
    if items[j].atom.Back? {
      var a, b := Find(items, Open(items[j].atom.k)), Find(items, Close(items[j].atom.k));
      PathAt(items, i, a);
      PathAt(items, i, b);
      BackPiece(items, j, w, a, b);
      SamePiece(w, t, ps[a], ps[b]);
      JoinBack(cap, items, t, ps, j, a, b);
    } else if Simple(items[j].atom) {
      JoinSimple(cap, items, t, ps, j, SomeByte(items[j].atom));
    } else {
      JoinNothing(cap, items, t, ps, j);
    }
  }

  lemma PathTiles(cap: nat, items: seq<Item>, i: nat)
    requires Regular(items) && i < |items| && Clear(items, i)
    ensures Tiles(cap, items, Witness(items, i), Path(items, i))
  {
    PathAt(items, i, 0);
    forall j | 0 <= j < i ensures Joined(cap, items, Witness(items, i), Path(items, i), j) {
      assert RegularAt(items, j) && !Troubling(items, j) && !Dead(items[j]);
      WitnessJoined(cap, items, i, j);
    }
  }

  // There is no other way to lay the items over it.
  lemma OnlyPath(cap: nat, items: seq<Item>, i: nat, ps: seq<nat>, j: nat)
    requires j <= i <= |items| && i < |ps| && Tiles(cap, items, Witness(items, i), ps) && ps[0] == 0
    ensures ps[j] == MinAt(items, j)
  {
    TilesLeast(cap, items, Witness(items, i), ps, 0, j);
    TilesLeast(cap, items, Witness(items, i), ps, j, i);
    TilesOrdered(cap, items, Witness(items, i), ps, i, i);
  }

  // Trouble met at the end of the text.
  lemma TroubleTurn(cap: nat, items: seq<Item>, i: nat)
    requires i < |items| && Troubling(items, i) && cap > 0 && RegularAt(items, i)
    ensures Turn(cap, items, Witness(items, i), Path(items, i)) != Sound
  {
    var t, ps := Witness(items, i), Path(items, i);
    PathAt(items, i, i);
    if Unset(items, i) { return; }
    if items[i].atom.Back? {
      var a, b := Find(items, Open(items[i].atom.k)), Find(items, Close(items[i].atom.k));
      MinMonotone(items, a, b);
      PathAt(items, i, a);
      PathAt(items, i, b);
      assert GroupLeast(items, i, items[i].atom.k) == 0 && MinAt(items, a) == MinAt(items, b);
      assert Idle(items, ps);
    } else {
      assert Overruns(cap, items[i], t, ps[i]);
    }
  }

  lemma {:induction false} MeetsTrouble(cap: nat, items: seq<Item>, i: nat, u: seq<nat>)
    requires i < |items| && Troubling(items, i) && cap > 0 && RegularAt(items, i)
    requires Tiles(cap, items, Witness(items, i), Path(items, i))
    requires 0 < |u| <= i + 1 && u == Path(items, i)[..|u|]
    ensures Going(cap, items, Witness(items, i), u) != Sound
    decreases i - |u|, MinAt(items, i) + 1
  {
    if |u| == i + 1 {
      assert u == Path(items, i);
      TroubleTurn(cap, items, i);
    } else {
      MinMonotone(items, |u|, i);
      MeetsTroubleUpTo(cap, items, i, u, MinAt(items, i));
    }
  }

  lemma {:induction false} MeetsTroubleUpTo(cap: nat, items: seq<Item>, i: nat, u: seq<nat>, q: nat)
    requires i < |items| && Troubling(items, i) && cap > 0 && RegularAt(items, i)
    requires Tiles(cap, items, Witness(items, i), Path(items, i))
    requires 0 < |u| <= i && u == Path(items, i)[..|u|] && MinAt(items, |u|) <= q <= MinAt(items, i)
    ensures GoingUpTo(cap, items, Witness(items, i), u, q) != Sound
    decreases i - |u|, q
  {
    var t, path, more := Witness(items, i), Path(items, i), u + [q];
    TilesPrefix(cap, items, t, path, u);
    TilesSnoc(cap, items, t, u, q);
    if q == MinAt(items, |u|) {
      OnPath(items, i, u, q, more);
      TilesPrefix(cap, items, t, path, more);
      MeetsTrouble(cap, items, i, more);
    } else {
      if Ends(cap, items, t, u, q) { NoOther(cap, items, i, u, q, more); }
      MeetsTroubleUpTo(cap, items, i, u, q - 1);
    }
  }

  lemma OnPath(items: seq<Item>, i: nat, u: seq<nat>, q: nat, more: seq<nat>)
    requires i <= |items| && 0 < |u| <= i && u == Path(items, i)[..|u|] && q == MinAt(items, |u|) && more == u + [q]
    ensures more == Path(items, i)[..|more|]
  {
  }

  // Off the path there is no match.
  lemma NoOther(cap: nat, items: seq<Item>, i: nat, u: seq<nat>, q: nat, more: seq<nat>)
    requires i < |items| && 0 < |u| <= i && u[0] == 0 && more == u + [q] && q != MinAt(items, |u|)
    requires Tiles(cap, items, Witness(items, i), more)
    ensures Best(cap, items, Witness(items, i), more).None?
  {
    BestTiles(cap, items, Witness(items, i), more);
    if Best(cap, items, Witness(items, i), more).Some? {
      var b := Best(cap, items, Witness(items, i), more).value;
      assert b[..|more|][|u|] == q && b[..|more|][0] == 0;
      OnlyPath(cap, items, i, b, |u|);
      assert false;
    }
  }

  lemma TilesPrefix(cap: nat, items: seq<Item>, t: seq<byte>, ps: seq<nat>, u: seq<nat>)
    requires Tiles(cap, items, t, ps) && 0 < |u| <= |ps| && u == ps[..|u|]
    ensures Tiles(cap, items, t, u)
  {
    forall i | 0 <= i < |u| - 1 ensures Joined(cap, items, t, u, i) {
      assert Joined(cap, items, t, ps, i);
      ReachesMore(cap, items, t, i, u, ps, u[i + 1]);
    }
  }

  lemma {:induction false} FirstTroubling(items: seq<Item>, i: nat) returns (j: nat)
    requires i < |items| && Troubling(items, i) && forall d :: 0 <= d < i ==> !Dead(items[d])
    ensures j <= i && Troubling(items, j) && Clear(items, j)
  {
    if m: nat :| m < i && Troubling(items, m) {
      j := FirstTroubling(items, m);
    } else {
      j := i;
    }
  }

  /** The exact condition, for all patterns: the matcher comes to its outcome from every place of every text if
    * and only if the pattern is safe. */
  lemma SoundWhenSafe(cap: nat, items: seq<Item>)
    requires Regular(items) && cap > 0
    ensures Safe(items) <==> forall t: seq<byte>, p: nat :: Text(t) && p <= |t| ==> Going(cap, items, t, [p]) == Sound
  {
    if Safe(items) {
      forall t: seq<byte>, p: nat | Text(t) && p <= |t| ensures Going(cap, items, t, [p]) == Sound {
        SafeGoes(cap, items, t, [p]);
      }
    } else {
      var i :| 0 <= i < |items| && Troubling(items, i) && !exists d :: 0 <= d < i && Dead(items[d]);
      var j := FirstTroubling(items, i);
      PathTiles(cap, items, j);
      assert RegularAt(items, j);
      WitnessIsText(items, j);
      assert [0] == Path(items, j)[..1];
      MeetsTrouble(cap, items, j, [0]);
      assert Text(Witness(items, j)) && Going(cap, items, Witness(items, j), [0]) != Sound;
    }
  }
}
