/** Checkpoint restart of broken transfers (cntrl.c), over either data protocol. */
module UucpRestart {
  import opened Basics
  import opened UucpData

  /** Where a transfer starts again: at the last whole buffer of the partial file. */
  function StartPoint(size: nat): (r: nat)
    ensures r <= size < r + 1024 && r % 1024 == 0
  {
    size - size % BUFSIZ
  }

  datatype Outcome = Done | Broken | TooLarge | WrongSize

  /** What a trial depends on: the protocol, how much of the stream arrives and in what pieces, the
    * receiver's disk, the file size limit, and what was in the buffer of the length message. */
  datatype Trial = Trial(e: bool, cut: nat, cuts: seq<nat>, disk: Disk, ulimit: nat, junk: seq<byte>)

  /** Whether the whole of the remaining `full` bytes arrives. */
  predicate Complete(how: Trial, full: nat) {
    if how.e then how.cut >= CMSGSIZ + full else how.cut > full
  }

  /** How many of the remaining bytes the receiver puts into its file. */
  function Gains(how: Trial, full: nat): (k: nat)
    ensures k <= full && k <= how.disk.room
  {
    if how.e && (how.cut < CMSGSIZ || TooBig(full, how.ulimit)) then 0
    else
      var offered := if Complete(how, full) then full else Whole(if how.e then how.cut - CMSGSIZ else how.cut);
      Min(offered, how.disk.room)
  }

  /** How the receiver's part of a transfer comes out. */
  function Return(how: Trial, full: nat): int {
    if !Complete(how, full) then FAIL
    else if how.e && TooBig(full, how.ulimit) then EFBIG
    else Told(full, how.disk)
  }

  /** One transfer: what comes of it, and the partial file afterwards. A file opened for appending is written
    * at its end and not at the start point. */
  function Result(src: seq<byte>, was: seq<byte>, append: bool, how: Trial): (Outcome, seq<byte>) {
    var start := StartPoint(|was|);
    if start > |src| then (if !how.e && how.cut > 0 then (WrongSize, []) else (Broken, was))
    else
      var full := |src| - start;
      var now := Overlay(was, if append then |was| else start, src[start..start + Gains(how, full)]);
      var ret := Return(how, full);
      if ret == EFBIG then (TooLarge, now)
      else if ret != SUCCESS then (Broken, now)
      else if |now| != |src| then (WrongSize, [])
      else (Done, now)
  }

  /** One transfer of a file src whose partial copy is f: both ends go to the start point, the rest is sent,
    * and a complete copy must have the size that was announced. */
  method Attempt(src: seq<byte>, f: Spool, how: Trial) returns (outcome: Outcome)
    requires f.Valid() && |src| < 0x8000_0000 && |how.junk| == CMSGSIZ
    modifies f
    ensures f.Valid() && (outcome, f.data) == Result(src, old(f.data), f.append, how)
    ensures how.e && how.cut >= 20 + |src| && old(f.data) == [] && how.disk.room >= |src| ==>
      && (outcome == TooLarge <==> |src| > 512 * how.ulimit || how.ulimit == 0)
      && f.data == if outcome == TooLarge then [] else src
  {
    FromScratch(src, f.append, how);
    var startp := StartPoint(|f.data|);
    f.Reset(startp, how.disk);
    var ret;
    if how.e {
      ret := AttemptE(src, f, how, startp);
    } else {
      ret := AttemptD(src, f, how, startp);
    }
    if ret == EFBIG { return TooLarge; }
    if ret != SUCCESS { return Broken; }
    if |f.data| != |src| {
      f.Unlink();
      return WrongSize;
    }
    return Done;
  }

  /** With all of the rest arriving and room for it, a transfer is refused as too large exactly when it goes over
    * protocol e and the rest is longer than the limit, in blocks of 512 bytes, or the limit is 0; then the partial
    * file stays. */
  lemma TooLargeWhen(src: seq<byte>, was: seq<byte>, append: bool, how: Trial)
    requires StartPoint(|was|) <= |src|
    ensures var (outcome, now), full := Result(src, was, append, how), |src| - StartPoint(|was|);
      Complete(how, full) && full <= how.disk.room ==>
        && (outcome == TooLarge <==> how.e && (full > 512 * how.ulimit || how.ulimit == 0))
        && (outcome == TooLarge ==> now == was)
  {
    var start := StartPoint(|was|);
    OverlayNothing(was, if append then |was| else start, src[start..start + 0]);
  }

  // A whole file over protocol e, with room for it.
  lemma FromScratch(src: seq<byte>, append: bool, how: Trial)
    ensures var (outcome, now) := Result(src, [], append, how);
      how.e && how.cut >= 20 + |src| && how.disk.room >= |src| ==>
        && (outcome == TooLarge <==> |src| > 512 * how.ulimit || how.ulimit == 0)
        && now == if outcome == TooLarge then [] else src
  {
    TooLargeWhen(src, [], append, how);
    PrefixKept(src, [], append, how);
  }

  // The first bytes of the rest of the source.
  lemma RestSlices(src: seq<byte>, at: nat, n: nat, k: nat)
    requires at + n <= |src| && k <= n
    ensures src[at..][..n] == src[at..at + n] && src[at..at + n][..k] == src[at..at + k]
  {
  }

  // What has been stored of the rest of the source.
  lemma StoredData(f: Spool, was: seq<byte>, at: nat, disk: Disk, d: seq<byte>, err: int, src: seq<byte>,
    startp: nat, m: nat)
    requires at <= |was| && startp + m <= |src| && d == src[startp..startp + m] && Stored(f, was, at, disk, d, err)
    ensures f.data == Overlay(was, at, src[startp..startp + Min(m, disk.room)])
  {
    RestSlices(src, startp, m, Min(m, disk.room));
  }

  lemma OverlayNothing(was: seq<byte>, at: nat, d: seq<byte>)
    requires at <= |was| && d == []
    ensures Overlay(was, at, d) == was
  {
  }

  // What arrives of a length message and the rest of the source.
  lemma ArrivedE(src: seq<byte>, startp: nat, head: seq<byte>, n: nat, arrived: seq<byte>)
    requires startp + n <= |src| && |head| == CMSGSIZ && arrived == (head + src[startp..])[..CMSGSIZ + n]
    ensures arrived[..CMSGSIZ] == head && arrived[CMSGSIZ..] == src[startp..startp + n]
  {
  }

  // The receiver's file after a transfer over protocol e.
  lemma FinishE(f: Spool, was: seq<byte>, at: nat, src: seq<byte>, startp: nat, how: Trial, n: nat, ret: int)
    requires at <= |was| && startp + n <= |src|
    requires how.e && how.cut >= CMSGSIZ && n == Min(how.cut - CMSGSIZ, |src| - startp)
    requires var body, full := src[startp..startp + n], |src| - startp;
      if full <= n then Kept(f, was, at, how.disk, body[..full], ret, TooBig(full, how.ulimit))
      else KeptWhole(f, was, at, how.disk, body, TooBig(full, how.ulimit))
    ensures f.data == Overlay(was, at, src[startp..startp + Gains(how, |src| - startp)])
  {
    var body, full := src[startp..startp + n], |src| - startp;
    var m := if n == full then full else Whole(n);
    RestSlices(src, startp, n, m);
    if TooBig(full, how.ulimit) {
      OverlayNothing(was, at, src[startp..startp]);
    } else {
      var err :| Stored(f, was, at, how.disk, body[..m], err);
      StoredData(f, was, at, how.disk, body[..m], err, src, startp, m);
    }
  }

  lemma FinishD(f: Spool, was: seq<byte>, at: nat, src: seq<byte>, startp: nat, how: Trial, n: nat, ret: int)
    requires at <= |was| && startp + n <= |src| && !how.e && n == Min(how.cut, |src| - startp)
    requires var d := src[startp..startp + n];
      if how.cut > |src| - startp then Stored(f, was, at, how.disk, d, ret)
      else StoredWhole(f, was, at, how.disk, d)
    ensures f.data == Overlay(was, at, src[startp..startp + Gains(how, |src| - startp)])
  {
    var d := src[startp..startp + n];
    var m := if how.cut > |src| - startp then n else Whole(n);
    RestSlices(src, startp, n, m);
    assert d[..n] == d;
    var err :| Stored(f, was, at, how.disk, d[..m], err);
    StoredData(f, was, at, how.disk, d[..m], err, src, startp, m);
  }

  method AttemptE(src: seq<byte>, f: Spool, how: Trial, startp: nat) returns (ret: int)
    requires f.Valid() && |src| < 0x8000_0000 && |how.junk| == CMSGSIZ && startp <= |f.data|
    requires f.disk == how.disk && how.e
    modifies f
    ensures f.Valid()
    ensures startp > |src| ==> ret == FAIL && f.data == old(f.data)
    ensures startp <= |src| ==> ret == Return(how, |src| - startp)
    ensures startp <= |src| ==>
      f.data == Overlay(old(f.data), old(f.pos), src[startp..startp + Gains(how, |src| - startp)])
  {
    var sent;
    ret, sent := Ewrdata(src, startp, how.junk);
    var arrived := sent[..Min(how.cut, |sent|)];
    var link := new Link(Octets(arrived), how.cuts);
    assert link.units == Octets(arrived) + [];
    ghost var was, at := f.data, f.pos;
    if startp <= |src| {
      OverlayNothing(was, at, src[startp..startp]);
      if |arrived| >= CMSGSIZ { ArrivedE(src, startp, Header(|src| - startp, how.junk), |arrived| - CMSGSIZ, arrived); }
    }
    ret := Erddata(link, f, how.ulimit, arrived, []);
    if startp <= |src| && |arrived| >= CMSGSIZ { FinishE(f, was, at, src, startp, how, |arrived| - CMSGSIZ, ret); }
  }

  // What the sender of protocol d puts on the link, and what of it arrives.
  method SendD(src: seq<byte>, startp: nat, how: Trial) returns (link: Link, ghost d: seq<byte>, ghost tail: seq<Unit>)
    requires !how.e
    ensures fresh(link) && link.units == Octets(d) + tail
    ensures startp > |src| ==> d == [] && tail == if how.cut > 0 then [Mark(true)] else []
    ensures startp <= |src| ==> d == src[startp..startp + Min(how.cut, |src| - startp)]
    ensures startp <= |src| ==> tail == if how.cut > |src| - startp then [Mark(true)] else []
  {
    var sent := Dwrdata(src, startp);
    link := new Link(sent[..Min(how.cut, |sent|)], how.cuts);
    ghost var full := if startp <= |src| then |src| - startp else 0;
    d := if startp <= |src| then src[startp..startp + Min(how.cut, full)] else [];
    tail := if how.cut > full then [Mark(true)] else [];
  }

  method AttemptD(src: seq<byte>, f: Spool, how: Trial, startp: nat) returns (ret: int)
    requires f.Valid() && startp <= |f.data|
    requires f.disk == how.disk && !how.e
    modifies f
    ensures f.Valid()
    ensures startp > |src| ==> f.data == old(f.data) && ret == if how.cut > 0 then SUCCESS else FAIL
    ensures startp <= |src| ==> ret == Return(how, |src| - startp)
    ensures startp <= |src| ==>
      f.data == Overlay(old(f.data), old(f.pos), src[startp..startp + Gains(how, |src| - startp)])
  {
    var link;
    ghost var d, tail;
    link, d, tail := SendD(src, startp, how);
    ghost var was, at := f.data, f.pos;
    OverlayNothing(was, at, []);
    ret := Drddata(link, f, d, tail);
    if startp <= |src| { FinishD(f, was, at, src, startp, how, |d|, ret); }
  }

  // ------------------------------------------------------------------ what restarting keeps

  // Writing the right bytes at the right place.
  lemma OverlayRight(was: seq<byte>, at: nat, src: seq<byte>, n: nat)
    requires was <= src && at <= |was| && at + n <= |src|
    ensures Overlay(was, at, src[at..at + n]) <= src
    ensures |Overlay(was, at, src[at..at + n])| == if at + n <= |was| then |was| else at + n
  {
    assert was == src[..|was|];
    assert src[..at] + src[at..at + n] == src[..at + n];
  }

  /** Nothing is lost on the way, there is room, and the file is not too big for the receiver. */
  predicate Completes(src: seq<byte>, was: seq<byte>, how: Trial)
    requires |was| <= |src|
  {
    var full := |src| - StartPoint(|was|);
    Complete(how, full) && how.disk.room >= full && !(how.e && TooBig(full, how.ulimit))
  }

  /** The disk fills up in the middle of the last block while errno holds 0, so that the receiver returns
    * success for a file that is too short. */
  predicate Unnoticed(src: seq<byte>, was: seq<byte>, how: Trial)
    requires |was| <= |src|
  {
    var full, room := |src| - StartPoint(|was|), how.disk.room;
    Complete(how, full) && !(how.e && TooBig(full, how.ulimit)) &&
    how.disk.errno == 0 && Whole(room) < room < full <= Whole(room) + XBUFSIZ
  }

  /** Such a transfer: all of the source arrives, the disk has room for its first byte only, and errno holds 0. The
    * receiver returns success, and only the size check finds the file too short. */
  lemma ShortFileCaught(src: seq<byte>, append: bool, disk: Disk, junk: seq<byte>)
    requires 1 < |src| <= 1024 && disk.room == 1 && disk.errno == 0
    ensures var how := Arriving(src, disk, junk);
      && Unnoticed(src, [], how) && Return(how, |src|) == SUCCESS && Gains(how, |src|) == 1
      && Result(src, [], append, how) == (WrongSize, [])
  {
    PrefixKept(src, [], append, Arriving(src, disk, junk));
  }

  // The return value is 0 in these two cases only.
  lemma SuccessWhen(src: seq<byte>, was: seq<byte>, how: Trial)
    requires |was| <= |src|
    ensures Return(how, |src| - StartPoint(|was|)) == SUCCESS <==> Completes(src, was, how) || Unnoticed(src, was, how)
  {
  }

  /** The partial file is a prefix of the source and stays one, never getting shorter, when it is written
    * where the transfer starts again; the size check catches what the receiver did not notice, and a
    * transfer that passes it has made the file the source. */
  lemma PrefixKept(src: seq<byte>, was: seq<byte>, append: bool, how: Trial)
    requires was <= src && (append ==> |was| % BUFSIZ == 0)
    ensures var (outcome, now) := Result(src, was, append, how);
      && (if outcome == WrongSize then now == [] else was <= now <= src)
      && (outcome == WrongSize <==> Unnoticed(src, was, how) && was != src)
      && (outcome == Done <==> Completes(src, was, how) || (Unnoticed(src, was, how) && was == src))
      && (outcome == Done ==> now == src)
  {
    var start := StartPoint(|was|);
    SuccessWhen(src, was, how);
    OverlayRight(was, start, src, Gains(how, |src| - start));
    Grows(was, src, Overlay(was, start, src[start..start + Gains(how, |src| - start)]));
  }

  // Of two prefixes the shorter is a prefix of the longer, and one of full length is the whole.
  lemma Grows(was: seq<byte>, src: seq<byte>, now: seq<byte>)
    requires was <= src && now <= src && |was| <= |now|
    ensures was <= now && (|now| == |src| <==> now == src) && (|was| == |src| <==> was == src)
  {
    assert was == src[..|was|] && now == src[..|now|];
  }

  /** A transfer from scratch delivers the source, which is what the conversation takes a data packet to be,
    * exactly when nothing is lost on the way and the receiver can take it all. */
  lemma DeliversWhen(src: seq<byte>, append: bool, how: Trial)
    ensures Result(src, [], append, how) == (Done, src) <==>
      Complete(how, |src|) && how.disk.room >= |src| && !(how.e && TooBig(|src|, how.ulimit))
  {
    PrefixKept(src, [], append, how);
  }

  /** An appending receiver that never runs out of room leaves whole buffers behind. */
  lemma WholeBuffersKept(src: seq<byte>, was: seq<byte>, how: Trial)
    requires was <= src && |was| % BUFSIZ == 0 && how.disk.room >= |src|
    ensures var (outcome, now) := Result(src, was, true, how); outcome == Done || |now| % BUFSIZ == 0
  {
    WholeDivides(if how.e && how.cut >= CMSGSIZ then how.cut - CMSGSIZ else how.cut);
    PrefixKept(src, was, true, how);
  }

  lemma {:induction false} WholeDivides(n: nat)
    ensures Whole(n) % BUFSIZ == 0
  {
    if n >= XBUFSIZ { WholeDivides(n - XBUFSIZ); }
  }

  /** Any number of transfers, up to the first that succeeds. */
  function After(src: seq<byte>, was: seq<byte>, append: bool, trials: seq<Trial>): (Outcome, seq<byte>) {
    if trials == [] then (Broken, was)
    else
      var (outcome, now) := After(src, was, append, trials[..|trials| - 1]);
      if outcome == Done then (Done, now) else Result(src, now, append, trials[|trials| - 1])
  }

  /** However many transfers break, and wherever: a file written at the start point is always a prefix of
    * the source, and it is the source when a transfer succeeds. */
  lemma {:induction false} RestartsKeepPrefix(src: seq<byte>, trials: seq<Trial>)
    ensures var (outcome, now) := After(src, [], false, trials); now <= src && (outcome == Done ==> now == src)
  {
    if trials != [] {
      var before := trials[..|trials| - 1];
      RestartsKeepPrefix(src, before);
      PrefixKept(src, After(src, [], false, before).1, false, trials[|trials| - 1]);
    }
  }

  /** The same of a file opened for appending, as long as the receiver's disk does not fill up. */
  lemma {:induction false} AppendingKeepsPrefix(src: seq<byte>, trials: seq<Trial>)
    requires forall i :: 0 <= i < |trials| ==> trials[i].disk.room >= |src|
    ensures var (outcome, now) := After(src, [], true, trials);
      now <= src && (if outcome == Done then now == src else |now| % BUFSIZ == 0)
  {
    if trials != [] {
      var before := trials[..|trials| - 1];
      AppendingKeepsPrefix(src, before);
      var now := After(src, [], true, before).1;
      if After(src, [], true, before).0 != Done {
        PrefixKept(src, now, true, trials[|trials| - 1]);
        WholeBuffersKept(src, now, trials[|trials| - 1]);
      }
    }
  }

  /** When k new bytes go to the end of a partial file of n bytes, the file is a prefix of the source for
    * every source exactly when the start point was the end of the file, or nothing was written. */
  lemma AppendingIsRightWhen(n: nat, k: nat, size: nat)
    requires n < size && StartPoint(n) + k <= size
    ensures (forall src: seq<byte> :: |src| == size ==> src[..n] + src[StartPoint(n)..StartPoint(n) + k] <= src)
      <==> n % 1024 == 0 || k == 0
  {
    var start := StartPoint(n);
    if n % BUFSIZ == 0 || k == 0 {
      forall src: seq<byte> | |src| == size ensures src[..n] + src[start..start + k] <= src {
        if k > 0 { assert src[..n] + src[start..start + k] == src[..n + k]; }
      }
    } else {
      var src: seq<byte> := seq(size, i => if i == n then 1 else 0);
      assert (src[..n] + src[start..start + k])[n] == src[start] == 0;
    }
  }

  // One transfer more.
  lemma AfterOneMore(src: seq<byte>, append: bool, trials: seq<Trial>, how: Trial, was: seq<byte>)
    requires After(src, [], append, trials) == (Broken, was)
    ensures After(src, [], append, trials + [how]) == Result(src, was, append, how)
  {
    assert (trials + [how])[..|trials|] == trials;
  }

  // A transfer over protocol d that arrives whole.
  function Arriving(src: seq<byte>, disk: Disk, junk: seq<byte>): Trial { Trial(false, |src| + 1, [], disk, 0, junk) }

  /** Opening the partial file for appending, as the receiver does, lets a wrong copy pass the size check:
    * after two transfers that ran out of room the third makes a file of the right size that begins with
    * the source's first n bytes twice over. */
  lemma WrongCopyPasses(src: seq<byte>, n: nat, disk: Disk, junk: seq<byte>)
    requires 0 < n < BUFSIZ <= |src| && disk.errno != 0 && disk.errno != EFBIG
    ensures var trials := [Arriving(src, disk.(room := n), junk), Arriving(src, disk.(room := BUFSIZ - n), junk),
                           Arriving(src, disk.(room := |src|), junk)];
      var (outcome, now) := After(src, [], true, trials);
      && outcome == Done && now == src[..n] + src[..BUFSIZ - n] + src[BUFSIZ..]
      && (now != src <==> src[..BUFSIZ - n] != src[n..BUFSIZ])
  {
    var t1, t2, t3 := Arriving(src, disk.(room := n), junk), Arriving(src, disk.(room := BUFSIZ - n), junk),
                      Arriving(src, disk.(room := |src|), junk);
    var p1, p2 := src[..n], src[..n] + src[..BUFSIZ - n];
    ShortOfRoom(src, [], t1);
    AfterOneMore(src, true, [], t1, []);
    assert [] + [t1] == [t1] && [] + src[..n] == p1;
    ShortOfRoom(src, p1, t2);
    AfterOneMore(src, true, [t1], t2, p1);
    assert [t1] + [t2] == [t1, t2];
    EnoughRoom(src, p2, t3);
    AfterOneMore(src, true, [t1, t2], t3, p2);
    assert [t1, t2] + [t3] == [t1, t2, t3];
    RightOnlyIfRepeating(src, n);
  }

  lemma RightOnlyIfRepeating(src: seq<byte>, n: nat)
    requires 0 < n < BUFSIZ <= |src|
    ensures src[..n] + src[..BUFSIZ - n] + src[BUFSIZ..] == src <==> src[..BUFSIZ - n] == src[n..BUFSIZ]
  {
    var now := src[..n] + src[..BUFSIZ - n] + src[BUFSIZ..];
    assert now[n..BUFSIZ] == src[..BUFSIZ - n];
    if src[..BUFSIZ - n] == src[n..BUFSIZ] { assert now == src[..n] + src[n..BUFSIZ] + src[BUFSIZ..] == src; }
  }

  lemma OverlayAtEnd(was: seq<byte>, d: seq<byte>)
    ensures Overlay(was, |was|, d) == was + d
  {
  }

  // An appending receiver that runs out of room in its first buffer.
  lemma ShortOfRoom(src: seq<byte>, was: seq<byte>, how: Trial)
    requires |was| + how.disk.room <= BUFSIZ <= |src| && 0 < how.disk.room < BUFSIZ && |was| < BUFSIZ
    requires !how.e && how.cut > |src| && how.disk.errno != 0 && how.disk.errno != EFBIG
    ensures Result(src, was, true, how) == (Broken, was + src[..how.disk.room])
  {
    OverlayAtEnd(was, src[..how.disk.room]);
    assert src[0..0 + Gains(how, |src|)] == src[..how.disk.room];
  }

  // An appending receiver whose file is one buffer long and that has room for the rest.
  lemma EnoughRoom(src: seq<byte>, was: seq<byte>, how: Trial)
    requires |was| == BUFSIZ <= |src| <= how.disk.room && !how.e && how.cut > |src|
    ensures Result(src, was, true, how) == (Done, was + src[BUFSIZ..])
  {
    OverlayAtEnd(was, src[BUFSIZ..]);
    assert src[BUFSIZ..BUFSIZ + Gains(how, |src| - BUFSIZ)] == src[BUFSIZ..];
  }
}
