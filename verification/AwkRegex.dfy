/** The regular-expression trees of awk (b.c) and the language each tree denotes.
  *
  * Symbols are the column numbers of the goto table: 0 is the string terminator
  * (what `$` consumes), 1..127 are text characters and HAT is the marker that
  * stands before the first character of a text (what `^` consumes).
  */
module AwkRegex {
  const NUL: nat := 0
  const HAT: nat := 128
  const NCHARS: nat := 129

  // A character class is kept by the program as a terminated string, so it never holds 0.
  type ClassString = s: seq<nat> | 0 !in s

  datatype Leaf = Char(c: nat) | Dot | Ccl(members: ClassString) | Nccl(members: ClassString) | All | Final

  datatype Re =
    | Unit(leaf: Leaf)
    | Star(body: Re)
    | Plus(body: Re)
    | Quest(body: Re)
    | Cat(left: Re, right: Re)
    | Or(left: Re, right: Re)

  // Which leaves consume symbol c.
  predicate Consumes(l: Leaf, c: nat) {
    match l
    case Char(v) => c == v
    case Dot => c != NUL && c != HAT
    case All => c != NUL
    case Ccl(s) => c in s
    case Nccl(s) => c !in s && c != NUL && c != HAT
    case Final => false
  }

  // `()` and `[]` are both stored as a class without members; they denote the empty word.
  predicate IsEmptyClass(l: Leaf) { l.Ccl? && l.members == [] }

  /** Word w belongs to the language of r. */
  ghost predicate In(w: seq<nat>, r: Re)
    decreases r, |w|, 0
  {
    match r
    case Unit(l) => if w == [] then IsEmptyClass(l) else |w| == 1 && Consumes(l, w[0])
    case Star(b) => InStar(w, b)
    case Plus(b) => exists k :: 0 <= k <= |w| && In(w[..k], b) && InStar(w[k..], b)
    case Quest(b) => w == [] || In(w, b)
    case Cat(a, b) => exists k :: 0 <= k <= |w| && In(w[..k], a) && In(w[k..], b)
    case Or(a, b) => In(w, a) || In(w, b)
  }

  /** Word w is a concatenation of nonempty words of r. */
  ghost predicate InStar(w: seq<nat>, r: Re)
    decreases r, |w|, 1
  {
    w == [] || exists k :: 1 <= k <= |w| && In(w[..k], r) && InStar(w[k..], r)
  }

  /** What the leaves match, of the characters of a text. */
  lemma LeavesMatch(c: nat, v: nat, s: ClassString)
    requires NUL < c < HAT
    ensures In([c], Unit(Char(v))) <==> c == v
    ensures In([c], Unit(Ccl(s))) <==> c in s
    ensures In([c], Unit(Nccl(s))) <==> c !in s
    ensures In([c], Unit(Dot)) && In([c], Unit(All)) && !In([c], Unit(Final))
  {
  }

  /** The terminator belongs to no leaf but a `$`, and the marker to a `^`, to ALL and to a class that lists it. */
  lemma LeavesMark(v: nat, s: ClassString)
    ensures In([NUL], Unit(Char(v))) <==> v == NUL
    ensures !In([NUL], Unit(Dot)) && !In([NUL], Unit(All)) && !In([NUL], Unit(Ccl(s))) && !In([NUL], Unit(Nccl(s)))
    ensures In([HAT], Unit(Char(v))) <==> v == HAT
    ensures !In([HAT], Unit(Dot)) && In([HAT], Unit(All)) && !In([HAT], Unit(Nccl(s)))
    ensures In([HAT], Unit(Ccl(s))) <==> HAT in s
  {
  }

  // A leaf matches words of one symbol only, or the empty word if it is a class without members.
  lemma LeafLength(l: Leaf, w: seq<nat>)
    ensures In(w, Unit(l)) ==> |w| == 1 || (w == [] && l == Ccl([]))
  {
  }

  // The parser never puts FINAL inside an expression; only the automaton builder appends it.
  predicate NoFinal(r: Re) {
    match r
    case Unit(l) => !l.Final?
    case Star(b) => NoFinal(b)
    case Plus(b) => NoFinal(b)
    case Quest(b) => NoFinal(b)
    case Cat(a, b) => NoFinal(a) && NoFinal(b)
    case Or(a, b) => NoFinal(a) && NoFinal(b)
  }

  function Leaves(r: Re): (n: nat)
    ensures n >= 1
  {
    match r
    case Unit(_) => 1
    case Star(b) => Leaves(b)
    case Plus(b) => Leaves(b)
    case Quest(b) => Leaves(b)
    case Cat(a, b) => Leaves(a) + Leaves(b)
    case Or(a, b) => Leaves(a) + Leaves(b)
  }

  /** What `first` reports about the empty word. */
  predicate Nullable(r: Re) {
    match r
    case Unit(l) => IsEmptyClass(l)
    case Star(_) => true
    case Plus(b) => Nullable(b)
    case Quest(_) => true
    case Cat(a, b) => Nullable(a) && Nullable(b)
    case Or(a, b) => Nullable(a) || Nullable(b)
  }

  lemma {:induction false} NullableIsEmptyWord(r: Re)
    ensures Nullable(r) <==> In([], r)
  {
    var w: seq<nat> := [];
    match r
    case Unit(l) =>
    case Star(b) =>
    case Plus(b) =>
      NullableIsEmptyWord(b);
      assert w[..0] == w && w[0..] == w;
    case Quest(b) =>
    case Cat(a, b) =>
      NullableIsEmptyWord(a);
      NullableIsEmptyWord(b);
      assert w[..0] == w && w[0..] == w;
    case Or(a, b) =>
      NullableIsEmptyWord(a);
      NullableIsEmptyWord(b);
  }

  lemma CatIntro(u: seq<nat>, v: seq<nat>, a: Re, b: Re)
    requires In(u, a) && In(v, b)
    ensures In(u + v, Cat(a, b))
  {
    assert (u + v)[..|u|] == u && (u + v)[|u|..] == v;
  }

  lemma StarIntro(u: seq<nat>, v: seq<nat>, r: Re)
    requires In(u, r) && InStar(v, r)
    ensures InStar(u + v, r)
  {
    assert (u + v)[..|u|] == u && (u + v)[|u|..] == v;
    if u == [] { assert u + v == v; }
  }

  lemma CatElim(w: seq<nat>, a: Re, b: Re) returns (n: nat)
    requires In(w, Cat(a, b))
    ensures n <= |w| && In(w[..n], a) && In(w[n..], b)
  {
    n :| 0 <= n <= |w| && In(w[..n], a) && In(w[n..], b);
  }

  lemma StarElim(w: seq<nat>, r: Re) returns (n: nat)
    requires InStar(w, r) && w != []
    ensures 1 <= n <= |w| && In(w[..n], r) && InStar(w[n..], r)
  {
    n :| 1 <= n <= |w| && In(w[..n], r) && InStar(w[n..], r);
  }

  // On nonempty words the languages of r+ and r* agree; on the empty word r+ agrees with r.
  lemma PlusIsStar(w: seq<nat>, r: Re)
    requires w != []
    ensures In(w, Plus(r)) <==> InStar(w, r)
  {
    if In(w, Plus(r)) {
      var k :| 0 <= k <= |w| && In(w[..k], r) && InStar(w[k..], r);
      StarIntro(w[..k], w[k..], r);
      assert w[..k] + w[k..] == w;
    }
  }

  // ------------------------------------------------------------------ what the operators mean

  function Concat(ws: seq<seq<nat>>): seq<nat> { if ws == [] then [] else ws[0] + Concat(ws[1..]) }

  /** The words ws of r, one after another, are w. */
  ghost predicate Words(ws: seq<seq<nat>>, r: Re, w: seq<nat>) {
    Concat(ws) == w && forall u :: u in ws ==> In(u, r)
  }

  lemma {:induction false} JoinWords(ws: seq<seq<nat>>, r: Re, w: seq<nat>)
    requires Words(ws, r, w)
    ensures InStar(w, r)
  {
    if ws != [] {
      JoinWords(ws[1..], r, Concat(ws[1..]));
      StarIntro(ws[0], Concat(ws[1..]), r);
    }
  }

  lemma {:induction false} SplitWords(w: seq<nat>, r: Re) returns (ws: seq<seq<nat>>)
    requires InStar(w, r)
    ensures Words(ws, r, w)
    decreases |w|
  {
    ws := [];
    if w != [] {
      var n := StarElim(w, r);
      var rest := SplitWords(w[n..], r);
      ws := [w[..n]] + rest;
      assert ws[1..] == rest && w == w[..n] + w[n..];
    }
  }

  /** A star stands for any number of words. */
  lemma StarMeans(r: Re, w: seq<nat>)
    ensures In(w, Star(r)) <==> exists ws :: Words(ws, r, w)
  {
    if ws :| Words(ws, r, w) { JoinWords(ws, r, w); }
    if In(w, Star(r)) { var ws := SplitWords(w, r); }
  }

  // A word and any number of others.
  lemma PlusElim(w: seq<nat>, r: Re) returns (k: nat)
    requires In(w, Plus(r))
    ensures k <= |w| && In(w[..k], r) && InStar(w[k..], r)
  {
    k :| 0 <= k <= |w| && In(w[..k], r) && InStar(w[k..], r);
  }

  lemma PlusIntro(u: seq<nat>, v: seq<nat>, r: Re)
    requires In(u, r) && InStar(v, r)
    ensures In(u + v, Plus(r))
  {
    assert (u + v)[..|u|] == u && (u + v)[|u|..] == v;
  }

  lemma ConsWords(u: seq<nat>, rest: seq<seq<nat>>, r: Re, v: seq<nat>)
    ensures Words([u] + rest, r, u + v) <== In(u, r) && Words(rest, r, v)
  {
    assert ([u] + rest)[1..] == rest;
  }

  /** A plus stands for one word at least. */
  lemma PlusMeans(r: Re, w: seq<nat>)
    ensures In(w, Plus(r)) <==> exists ws :: ws != [] && Words(ws, r, w)
  {
    if ws :| ws != [] && Words(ws, r, w) {
      JoinWords(ws[1..], r, Concat(ws[1..]));
      PlusIntro(ws[0], Concat(ws[1..]), r);
    }
    if In(w, Plus(r)) {
      var k := PlusElim(w, r);
      var rest := SplitWords(w[k..], r);
      ConsWords(w[..k], rest, r, w[k..]);
      assert [w[..k]] + rest != [] && w == w[..k] + w[k..];
    }
  }

  /** A question mark stands for at most one word. */
  lemma QuestMeans(r: Re, w: seq<nat>)
    ensures In(w, Quest(r)) <==> exists ws :: |ws| <= 1 && Words(ws, r, w)
  {
    OneWord(w);
    if ws :| |ws| <= 1 && Words(ws, r, w) {
      if ws != [] {
        OneWord(ws[0]);
        assert ws == [ws[0]];
      }
    }
    if In(w, Quest(r)) {
      var ws := if w == [] then [] else [w];
      assert Words(ws, r, w);
    }
  }

  lemma OneWord(w: seq<nat>)
    ensures Concat([w]) == w
  {
    assert [w][1..] == [] && w + [] == w;
  }

  /** Two expressions, one after the other, stand for a word of each. */
  lemma CatMeans(a: Re, b: Re, w: seq<nat>)
    ensures In(w, Cat(a, b)) <==> exists u, v :: In(u, a) && In(v, b) && u + v == w
  {
    if u, v :| In(u, a) && In(v, b) && u + v == w { CatIntro(u, v, a, b); }
    if In(w, Cat(a, b)) {
      var n := CatElim(w, a, b);
      assert w[..n] + w[n..] == w;
    }
  }
}
