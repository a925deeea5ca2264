/** What a match is, in terms of the expression's language alone, and how runs of the subset automaton
  * decide it.
  *
  * A text is the characters before the terminator, each in 1..127.
  */
module AwkMatchSpec {
  import opened AwkRegex
  import opened AwkPositions
  import opened AwkPattern

  predicate IsText(text: seq<nat>) { forall c :: c in text ==> NUL < c < HAT }

  // What *p reads at offset i.
  function At(text: seq<nat>, i: nat): nat { if i < |text| then text[i] else NUL }

  /** text[i..i+n] matches r. A leading `^` can be consumed only if hat is on, a final `$` only at the end
    * of the text; neither counts in the length. */
  ghost predicate MatchAt(r: Re, text: seq<nat>, i: nat, n: nat, hat: bool) {
    i + n <= |text| &&
    var u := text[i..i + n];
    || In(u, r)
    || (hat && In([HAT] + u, r))
    || (i + n == |text| && In(u + [NUL], r))
    || (hat && i + n == |text| && In([HAT] + u + [NUL], r))
  }

  ghost predicate MatchesAt(r: Re, text: seq<nat>, i: nat, hat: bool) {
    exists n :: 0 <= n <= |text| && MatchAt(r, text, i, n, hat)
  }

  // Only the first offset tried, from, can be preceded by the marker.
  ghost predicate MatchesFrom(r: Re, text: seq<nat>, from: nat, hat: bool, j: nat) {
    MatchesAt(r, text, j, hat && j == from)
  }

  /** n is the length of the longest match at i. */
  ghost predicate LongestAt(r: Re, text: seq<nat>, i: nat, n: nat, hat: bool) {
    MatchAt(r, text, i, n, hat) && forall m :: n < m <= |text| ==> !MatchAt(r, text, i, m, hat)
  }

  /** The leftmost match at or after from starts at i and its longest form has length n; `^` can match
    * only at from, and only if hat is on. */
  ghost predicate LeftmostLongest(r: Re, text: seq<nat>, from: nat, hat: bool, i: nat, n: nat) {
    from <= i && LongestAt(r, text, i, n, hat && i == from) &&
    forall j :: from <= j < i ==> !MatchesFrom(r, text, from, hat, j)
  }

  ghost predicate NoMatch(r: Re, text: seq<nat>, from: nat, hat: bool) {
    forall j :: from <= j <= |text| ==> !MatchesFrom(r, text, from, hat, j)
  }

  /** Starting from the positions s at offset p, the automaton can stop after n characters. */
  ghost predicate Hit(re: seq<Row>, s: set<nat>, text: seq<nat>, p: nat, n: nat) {
    p + n <= |text| &&
    (Accepts(re, s, text[p..p + n]) || (p + n == |text| && Accepts(re, s, text[p..] + [NUL])))
  }

  lemma AnchoredHit(re: seq<Row>, r: Re, text: seq<nat>, p: nat, n: nat)
    requires Compiled(re, r)
    ensures Hit(re, AnchoredStart(re), text, p, n) <==> MatchAt(r, text, p, n, false)
  {
    if p + n <= |text| {
      AnchoredAccepts(re, r, text[p..p + n]);
      AnchoredAccepts(re, r, text[p..] + [NUL]);
      if p + n == |text| { assert text[p..p + n] == text[p..]; }
    }
  }

  lemma HatHit(re: seq<Row>, r: Re, text: seq<nat>, p: nat, n: nat)
    requires Compiled(re, r)
    ensures Hit(re, HatStart(re), text, p, n) <==> MatchAt(r, text, p, n, true)
  {
    if p + n <= |text| {
      HatAccepts(re, r, text[p..p + n]);
      HatAccepts(re, r, text[p..] + [NUL]);
      assert [HAT] + (text[p..] + [NUL]) == [HAT] + text[p..] + [NUL];
      if p + n == |text| { assert text[p..p + n] == text[p..]; }
    }
  }

  // Positions from which nothing is left to reach.
  lemma {:induction false} DeadRun(re: seq<Row>, w: seq<nat>)
    ensures RunSet(re, {}, w) == {}
    decreases |w|
  {
    if w != [] {
      assert StepSet(re, {}, w[0]) == {};
      DeadRun(re, w[1..]);
    }
  }

  lemma {:induction false} RunSplit(re: seq<Row>, s: set<nat>, u: seq<nat>, v: seq<nat>)
    ensures RunSet(re, s, u + v) == RunSet(re, RunSet(re, s, u), v)
    decreases |u|
  {
    if u == [] {
      assert u + v == v;
    } else {
      assert (u + v)[1..] == u[1..] + v;
      RunSplit(re, StepSet(re, s, u[0]), u[1..], v);
    }
  }

  // If reading q symbols leaves no positions, no longer match exists.
  lemma DeadHits(re: seq<Row>, s: set<nat>, text: seq<nat>, p: nat, q: nat, n: nat)
    requires p <= q <= p + n && q <= |text| && RunSet(re, s, text[p..q]) == {}
    ensures !Hit(re, s, text, p, n)
  {
    if p + n <= |text| {
      assert text[p..p + n] == text[p..q] + text[q..p + n];
      RunSplit(re, s, text[p..q], text[q..p + n]);
      DeadRun(re, text[q..p + n]);
      if p + n == |text| {
        assert text[p..] + [NUL] == text[p..q] + (text[q..] + [NUL]);
        RunSplit(re, s, text[p..q], text[q..] + [NUL]);
        DeadRun(re, text[q..] + [NUL]);
      }
    }
  }

  /** The word that an unanchored run reads: the marker, the text, the terminator. */
  function Framed(text: seq<nat>): seq<nat> { [HAT] + text + [NUL] }

  /** Some factor of the framed text is a word of r. */
  ghost predicate HasFactor(r: Re, w: seq<nat>) {
    exists i, j :: 0 <= i <= j <= |w| && In(w[i..j], r)
  }

  // Some nonempty prefix of the framed text ends with a word of r.
  ghost predicate SomePrefixEnds(r: Re, w: seq<nat>) {
    exists q :: 1 <= q <= |w| && EndsWithWord(w[..q], r)
  }

  /** Looking at every prefix from the unanchored start finds a factor exactly when there is one. */
  lemma PrefixesFindFactors(r: Re, text: seq<nat>)
    requires IsText(text)
    ensures SomePrefixEnds(r, Framed(text)) <==> HasFactor(r, Framed(text))
  {
    var w := Framed(text);
    if SomePrefixEnds(r, w) {
      var q :| 1 <= q <= |w| && EndsWithWord(w[..q], r);
      var m :| 0 <= m <= |w[..q]| && EndsAt(w[..q], r, m);
      assert w[..q][m..] == w[m..q];
    }
    if HasFactor(r, w) {
      var i, j :| 0 <= i <= j <= |w| && In(w[i..j], r);
      if i == j {
        assert w[i..j] == [] == w[..1][1..];
        assert NUL !in w[..1];
        assert EndsAt(w[..1], r, 1);
        assert EndsWithWord(w[..1], r);
      } else {
        assert w[..j][i..] == w[i..j] && w[..j][..i] == w[..i];
        forall k | 0 <= k < i ensures w[k] != NUL {
          if k > 0 { assert w[k] == text[k - 1] && text[k - 1] in text; }
        }
        assert EndsAt(w[..j], r, i);
        assert EndsWithWord(w[..j], r);
      }
    }
  }

  // No prefix of at least one and at most q symbols ends with a word of r.
  ghost predicate NoneUpTo(r: Re, text: seq<nat>, q: nat)
  {
    q <= |Framed(text)| && forall m :: 1 <= m <= q ==> !EndsWithWord(Framed(text)[..m], r)
  }

  lemma NoneAtNext(r: Re, text: seq<nat>, q: nat)
    requires 1 <= q <= |Framed(text)| && NoneUpTo(r, text, q - 1) && !EndsWithWord(Framed(text)[..q], r)
    ensures NoneUpTo(r, text, q)
  {
  }

  lemma PrefixFound(r: Re, text: seq<nat>, q: nat)
    requires IsText(text) && 1 <= q <= |Framed(text)| && EndsWithWord(Framed(text)[..q], r)
    ensures HasFactor(r, Framed(text))
  {
    PrefixesFindFactors(r, text);
  }

  lemma NothingFound(r: Re, text: seq<nat>)
    requires IsText(text) && NoneUpTo(r, text, |text| + 2)
    ensures !HasFactor(r, Framed(text))
  {
    PrefixesFindFactors(r, text);
  }

  /** What a scan at p leaves in patlen: the length of the longest hit, or the old value if there is none. */
  ghost predicate Scanned(re: seq<Row>, s: set<nat>, text: seq<nat>, p: nat, before: int, after: int) {
    if after >= 0 && Hit(re, s, text, p, after)
    then forall m :: after < m <= |text| ==> !Hit(re, s, text, p, m)
    else after == before && forall m :: 0 <= m <= |text| ==> !Hit(re, s, text, p, m)
  }

  // The automaton accepts after exactly n characters, before the terminator is read.
  ghost predicate Soft(re: seq<Row>, s: set<nat>, text: seq<nat>, p: nat, n: nat) {
    p + n <= |text| && Accepts(re, s, text[p..p + n])
  }

  // What patlen holds when the offsets below p + lim have been looked at.
  ghost predicate Noted(re: seq<Row>, s: set<nat>, text: seq<nat>, p: nat, lim: nat, before: int, after: int) {
    if 0 <= after < lim && Soft(re, s, text, p, after)
    then forall m :: after < m < lim ==> !Soft(re, s, text, p, m)
    else after == before && forall m :: 0 <= m < lim ==> !Soft(re, s, text, p, m)
  }

  // The positions after reading up to offset q, where q == |text| + 1 means the terminator was read too.
  function Reached(re: seq<Row>, s: set<nat>, text: seq<nat>, p: nat, q: nat): set<nat>
    requires p <= q <= |text| + 1 && p <= |text|
  {
    if q <= |text| then RunSet(re, s, text[p..q]) else RunSet(re, s, text[p..] + [NUL])
  }

  lemma ReachedStep(re: seq<Row>, s: set<nat>, text: seq<nat>, p: nat, q: nat)
    requires p <= q <= |text|
    ensures Reached(re, s, text, p, q + 1) == StepSet(re, Reached(re, s, text, p, q), At(text, q))
  {
    RunSetSnoc(re, s, text[p..q], At(text, q));
    if q < |text| {
      assert text[p..q + 1] == text[p..q] + [text[q]];
    } else {
      assert text[p..q] == text[p..];
    }
  }

  // One more offset looked at.
  lemma NotedStep(re: seq<Row>, s: set<nat>, text: seq<nat>, p: nat, q: nat, before: int, a: int, b: int)
    requires |re| > 0 && p <= q <= |text| && Noted(re, s, text, p, q - p, before, a)
    requires b == if Accept(re) in Reached(re, s, text, p, q) then q - p else a
    ensures Noted(re, s, text, p, q - p + 1, before, b)
  {
    assert Soft(re, s, text, p, q - p) <==> Accept(re) in Reached(re, s, text, p, q);
  }

  // The scan may stop when no positions are left.
  lemma DeadEnd(re: seq<Row>, s: set<nat>, text: seq<nat>, p: nat, q: nat, before: int, a: int)
    requires |re| > 0 && p <= q <= |text| && Noted(re, s, text, p, q - p + 1, before, a)
    requires Reached(re, s, text, p, q + 1) == {}
    ensures Scanned(re, s, text, p, before, a)
  {
    forall n: nat | n <= |text| ensures Hit(re, s, text, p, n) <==> n <= q - p && Soft(re, s, text, p, n) {
      if n > q - p && q < |text| {
        DeadHits(re, s, text, p, q + 1, n);
      }
    }
  }

  // The scan may stop when the terminator has been read.
  lemma TextEnd(re: seq<Row>, s: set<nat>, text: seq<nat>, p: nat, before: int, a: int, b: int)
    requires |re| > 0 && p <= |text| && Noted(re, s, text, p, |text| - p + 1, before, a)
    requires b == if Accept(re) in Reached(re, s, text, p, |text| + 1) then |text| - p else a
    ensures Scanned(re, s, text, p, before, b)
  {
    forall n: nat | n <= |text|
      ensures Hit(re, s, text, p, n) <==>
              Soft(re, s, text, p, n) || (p + n == |text| && Accept(re) in Reached(re, s, text, p, |text| + 1))
    {
    }
  }

  /** A nonempty match at j; `^` can match only at offset 0. */
  ghost predicate NonemptyFrom(r: Re, text: seq<nat>, hat: bool, j: nat) {
    NonemptyAt(r, text, j, hat && j == 0)
  }

  ghost predicate NonemptyAt(r: Re, text: seq<nat>, j: nat, hat: bool) {
    exists n :: 0 < n <= |text| && MatchAt(r, text, j, n, hat)
  }

  ghost function StartSet(re: seq<Row>, hat: bool): set<nat>
    requires |re| > 0
  {
    if hat then HatStart(re) else AnchoredStart(re)
  }

  /** A finished scan, read in terms of the language. */
  lemma ScannedMeans(re: seq<Row>, r: Re, text: seq<nat>, p: nat, hat: bool, before: int, after: int)
    requires Compiled(re, r) && before <= 0
    requires Scanned(re, StartSet(re, hat), text, p, before, after)
    ensures after > before ==> after >= 0 && LongestAt(r, text, p, after, hat)
    ensures after > 0 ==> LongestAt(r, text, p, after, hat)
    ensures after <= 0 ==> after >= before && forall n :: 0 < n <= |text| ==> !MatchAt(r, text, p, n, hat)
    ensures after < 0 ==> !MatchesAt(r, text, p, hat)
  {
    forall n: nat ensures Hit(re, StartSet(re, hat), text, p, n) <==> MatchAt(r, text, p, n, hat) {
      if hat { HatHit(re, r, text, p, n); } else { AnchoredHit(re, r, text, p, n); }
    }
  }
}
