/** The data phase of the uucp protocols d and e (dio.c, eio.c). */
module UucpData {
  import opened Basics

  const XBUFSIZ: nat := 1024
  const BUFSIZ: nat := 1024
  const CMSGSIZ: nat := 20

  /** What travels on a link: bytes and, on a Datakit link, blocks of no length with a control character,
    * which should be the end mark. */
  datatype Unit = Octet(b: byte) | Mark(eof: bool)

  function Octets(d: seq<byte>): (r: seq<Unit>)
    ensures |r| == |d| && forall i :: 0 <= i < |d| ==> r[i] == Octet(d[i])
  {
    seq(|d|, i requires 0 <= i < |d| => Octet(d[i]))
  }

  lemma OctetsSplit(a: seq<byte>, b: seq<byte>)
    ensures Octets(a + b) == Octets(a) + Octets(b)
  {
  }

  /** The octets before the first mark. */
  function Run(units: seq<Unit>): (n: nat)
    ensures n <= |units| && (forall i :: 0 <= i < n ==> units[i].Octet?) && (n < |units| ==> units[n].Mark?)
  {
    if units == [] || units[0].Mark? then 0 else 1 + Run(units[1..])
  }

  function Payload(units: seq<Unit>): seq<byte>
    requires forall i :: 0 <= i < |units| ==> units[i].Octet?
  {
    seq(|units|, i requires 0 <= i < |units| => units[i].b)
  }

  /** The tail of a stream after the octets of interest: the link is dead, or a mark follows. */
  predicate Stops(tail: seq<Unit>) { tail == [] || tail[0].Mark? }

  /** The reading end of a link; `cuts` says how much each coming read returns, in any way at all. */
  class Link {
    var units: seq<Unit>
    var cuts: seq<nat>

    constructor (units: seq<Unit>, cuts: seq<nat>)
      ensures this.units == units
    {
      this.units, this.cuts := units, cuts;
    }

    /** (*Read)(): at least one byte if there is any, 0 for a block of no length, -1 when time is up. */
    method Read(n: nat) returns (ret: int, got: seq<byte>, why: bool)
      requires n > 0
      modifies this
      ensures old(units) == [] ==> ret == -1 && units == []
      ensures old(units) != [] && old(units)[0].Mark? ==>
        ret == 0 && why == old(units)[0].eof && units == old(units)[1..]
      ensures old(units) != [] && old(units)[0].Octet? ==>
        0 < ret <= Min(n, Run(old(units))) && ret == |got| && old(units)[..ret] == Octets(got) &&
        units == old(units)[ret..]
    {
      got, why := [], false;
      if units == [] { return -1, got, why; }
      if units[0].Mark? {
        why, units := units[0].eof, units[1..];
        return 0, got, why;
      }
      var most := Min(n, Run(units));
      ret := if cuts == [] then most else Min(most, cuts[0] + 1);
      if cuts != [] { cuts := cuts[1..]; }
      got, units := Payload(units[..ret]), units[ret..];
    }
  }

  lemma RunOctets(d: seq<byte>, tail: seq<Unit>)
    requires Stops(tail)
    ensures Run(Octets(d) + tail) == |d|
  {
    var units := Octets(d) + tail;
    assert forall i :: 0 <= i < |d| ==> units[i].Octet?;
    assert tail != [] ==> units[|d|].Mark?;
  }

  // What one read takes from a stream of octets.
  lemma Taken(d: seq<byte>, tail: seq<Unit>, got: seq<byte>, units: seq<Unit>)
    requires |got| <= |d| && (Octets(d) + tail)[..|got|] == Octets(got) && units == (Octets(d) + tail)[|got|..]
    ensures got == d[..|got|] && units == Octets(d[|got|..]) + tail
  {
    forall i | 0 <= i < |got| ensures d[i] == got[i] {
      assert (Octets(d) + tail)[..|got|][i] == Octets(got)[i];
    }
  }

  // One read from a stream that begins with the octets d.
  method ReadSome(link: Link, n: nat, ghost d: seq<byte>, ghost tail: seq<Unit>)
    returns (ret: int, got: seq<byte>, why: bool)
    requires n > 0 && link.units == Octets(d) + tail && Stops(tail)
    modifies link
    ensures d != [] ==> 0 < ret <= Min(n, |d|) && got == d[..ret] && link.units == Octets(d[ret..]) + tail
    ensures d == [] && tail == [] ==> ret == -1
    ensures d == [] && tail != [] ==> ret == 0 && why == tail[0].eof && link.units == tail[1..]
  {
    RunOctets(d, tail);
    assert d != [] ==> link.units[0] == Octet(d[0]);
    assert d == [] ==> link.units == tail;
    ret, got, why := link.Read(n);
    if d != [] { Taken(d, tail, got, link.units); }
  }

  lemma SliceOn(d: seq<byte>, k: nat, n: nat)
    requires k + n <= |d|
    ensures d[k..][..n] == d[k..k + n] && d[k..][n..] == d[k + n..] && d[..k] + d[k..k + n] == d[..k + n]
  {
  }

  // The same after the first k octets have been read.
  method ReadOn(link: Link, n: nat, ghost d: seq<byte>, ghost k: nat, ghost tail: seq<Unit>)
    returns (ret: int, got: seq<byte>, why: bool)
    requires n > 0 && k <= |d| && link.units == Octets(d[k..]) + tail && Stops(tail)
    modifies link
    ensures k < |d| ==> 0 < ret <= Min(n, |d| - k) && |got| == ret && d[..k] + got == d[..k + ret] &&
                        link.units == Octets(d[k + ret..]) + tail
    ensures k == |d| && tail == [] ==> ret == -1
    ensures k == |d| && tail != [] ==> ret == 0 && why == tail[0].eof && link.units == tail[1..]
  {
    ret, got, why := ReadSome(link, n, d[k..], tail);
    if ret > 0 { SliceOn(d, k, ret); }
  }

  /** Reads a block from a Datakit link (drdblk). A short block is ended by the mark, which it consumes. */
  method Drdblk(len: nat, link: Link, ghost d: seq<byte>, ghost tail: seq<Unit>) returns (ret: int, blk: seq<byte>)
    requires link.units == Octets(d) + tail && Stops(tail)
    modifies link
    ensures len <= |d| ==> ret == len && blk == d[..len] && link.units == Octets(d[len..]) + tail
    ensures len > |d| && tail != [] ==> link.units == tail[1..] && blk == d && ret == (if tail[0].eof then |d| else -1)
    ensures len > |d| && tail == [] ==> ret == -1
  {
    blk := [];
    while |blk| < len
      invariant |blk| <= Min(len, |d|) && blk == d[..|blk|] && link.units == Octets(d[|blk|..]) + tail
      decreases len - |blk|
    {
      var got, why;
      ret, got, why := ReadOn(link, len - |blk|, d, |blk|, tail);
      if ret < 0 { return; }
      if ret == 0 {
        ret := if why then |blk| else -1;
        return;
      }
      blk := blk + got;
    }
    ret := |blk|;
  }

  /** Reads a block from an error-free link (erdblk). */
  method Erdblk(len: nat, link: Link, ghost d: seq<byte>, ghost tail: seq<Unit>) returns (ret: int, blk: seq<byte>)
    requires link.units == Octets(d) + tail && Stops(tail)
    modifies link
    ensures len <= |d| ==> ret == len && blk == d[..len] && link.units == Octets(d[len..]) + tail
    ensures len > |d| ==> ret == -1
  {
    blk := [];
    while |blk| < len
      invariant |blk| <= Min(len, |d|) && blk == d[..|blk|] && link.units == Octets(d[|blk|..]) + tail
      decreases len - |blk|
    {
      var got, why;
      ret, got, why := ReadOn(link, len - |blk|, d, |blk|, tail);
      if ret <= 0 { return -1, blk; }
      blk := blk + got;
    }
    ret := |blk|;
  }

  // ------------------------------------------------------------------ local files

  /** A file after d has been written at `at`. */
  function Overlay(p: seq<byte>, at: nat, d: seq<byte>): seq<byte>
    requires at <= |p|
  {
    p[..at] + d + (if at + |d| < |p| then p[at + |d|..] else [])
  }

  lemma OverlayOn(p: seq<byte>, at: nat, a: seq<byte>, b: seq<byte>)
    requires at <= |p|
    ensures Overlay(Overlay(p, at, a), at + |a|, b) == Overlay(p, at, a + b)
  {
    var q := Overlay(p, at, a);
    assert q[..at + |a|] == p[..at] + a;
    if at + |a| + |b| < |p| {
      assert q[at + |a| + |b|..] == p[at + |a| + |b|..];
    }
  }

  const FAIL: int := -1
  const SUCCESS: int := 0
  const EFBIG: int := 27

  type Errno = x: nat | x > 0 witness 28

  /** What the receiver's disk has in store: how much it still takes, what errno holds, and what errno is set
    * to when nothing at all can be written. */
  datatype Disk = Disk(room: nat, errno: nat, refusal: Errno)

  /** The receiver's file. A file opened for appending is written at its end wherever it has been
    * positioned. */
  class Spool {
    var data: seq<byte>
    var pos: nat
    var disk: Disk
    const append: bool

    /** lseek(2), and the disk as it is now; an appending file stays at its end. */
    method Reset(at: nat, disk: Disk)
      requires Valid() && at <= |data|
      modifies this
      ensures Valid() && data == old(data) && this.disk == disk && pos == if append then |data| else at
    {
      pos, this.disk := if append then |data| else at, disk;
    }

    constructor (append: bool, disk: Disk)
      ensures Valid() && data == [] && this.append == append
    {
      data, pos, this.disk, this.append := [], 0, disk, append;
    }

    ghost predicate Valid()
      reads this
    {
      pos <= |data| && (append ==> pos == |data|)
    }

    method Unlink()
      modifies this
      ensures Valid() && data == []
    {
      data, pos := [], 0;
    }

    // A write of which the first n bytes are taken.
    method Put(b: seq<byte>, n: nat)
      requires Valid() && n <= |b| && n <= disk.room
      modifies this
      ensures Valid() && pos == old(pos) + n && disk == old(disk).(room := old(disk.room) - n)
      ensures data == Overlay(old(data), old(pos), b[..n])
    {
      data := Overlay(data, pos, b[..n]);
      pos, disk := pos + n, disk.(room := disk.room - n);
    }

    /** write(2): it takes what there is room for. Only a write of which nothing is taken is an error and
      * sets errno. */
    method Write(b: seq<byte>) returns (n: int)
      requires Valid()
      modifies this
      ensures Valid() && n == (if |b| > 0 == old(disk.room) then -1 else Min(|b|, old(disk.room)))
      ensures n < 0 ==> data == old(data) && pos == old(pos) && disk == old(disk).(errno := old(disk.refusal))
      ensures n >= 0 ==> data == Overlay(old(data), old(pos), b[..n]) && pos == old(pos) + n
      ensures n >= 0 ==> disk == old(disk).(room := old(disk.room) - n)
    {
      if |b| > 0 && disk.room == 0 {
        disk := disk.(errno := disk.refusal);
        return -1;
      }
      n := Min(|b|, disk.room);
      Put(b, n);
    }
  }

  /** The whole blocks of n bytes. */
  function Whole(n: nat): (r: nat)
    ensures r <= n < r + XBUFSIZ
  {
    if n < XBUFSIZ then 0 else XBUFSIZ + Whole(n - XBUFSIZ)
  }

  /** What the local writes of n bytes, block by block, amount to: a short write leaves whatever errno held,
    * and if that is 0 only the next block can show that the disk is full. */
  function Told(n: nat, disk: Disk): int {
    if n <= disk.room then SUCCESS
    else if disk.room == Whole(disk.room) then disk.refusal
    else if disk.errno != 0 then disk.errno
    else if n <= Whole(disk.room) + XBUFSIZ then SUCCESS
    else disk.refusal
  }

  // One more block of b bytes.
  lemma ToldNext(n: nat, b: nat, disk: Disk)
    requires n == Whole(n) && b <= XBUFSIZ
    ensures n < disk.room < n + b ==> Told(n + b, disk) == disk.errno
    ensures n == disk.room < n + b ==> Told(n + b, disk) == disk.refusal
    ensures disk.room < n && b > 0 && Told(n, disk) == SUCCESS ==> Told(n + b, disk) == disk.refusal
    ensures disk.room < n && (b == 0 || Told(n, disk) != SUCCESS) ==> Told(n + b, disk) == Told(n, disk)
  {
    if disk.room < n + b {
      if n <= disk.room { WholeIs(n, disk.room); } else { WholeBelow(disk.room, n); }
    }
  }

  lemma {:induction false} WholeIs(k: nat, n: nat)
    requires k == Whole(k) && k <= n < k + XBUFSIZ
    ensures k == Whole(n)
  {
    if k >= XBUFSIZ { WholeIs(k - XBUFSIZ, n - XBUFSIZ); }
  }

  lemma {:induction false} WholeBelow(m: nat, n: nat)
    requires m < n && n == Whole(n)
    ensures Whole(m) + XBUFSIZ <= n
  {
    if m >= XBUFSIZ { WholeBelow(m - XBUFSIZ, n - XBUFSIZ); }
  }

  lemma WholeNext(k: nat)
    requires k == Whole(k)
    ensures k + XBUFSIZ == Whole(k + XBUFSIZ)
  {
  }

  /** Of the bytes d offered so far, those there was room for are in the file, and `ret` tells what the
    * writes told. */
  ghost predicate Stored(f: Spool, was: seq<byte>, at: nat, disk: Disk, d: seq<byte>, ret: int)
    reads f
    requires at <= |was|
  {
    var n := Min(|d|, disk.room);
    && f.Valid() && f.data == Overlay(was, at, d[..n]) && f.pos == at + n && ret == Told(|d|, disk)
    && f.disk.room == disk.room - n && f.disk.refusal == disk.refusal
    && (ret == SUCCESS ==> f.disk == disk.(room := disk.room - n))
  }

  // The same when the file may be too big to be taken at all, in which case nothing is written.
  ghost predicate Kept(f: Spool, was: seq<byte>, at: nat, disk: Disk, d: seq<byte>, ret: int, big: bool)
    reads f
    requires at <= |was|
  {
    if big then ret == EFBIG && f.Valid() && f.data == was else Stored(f, was, at, disk, d, ret)
  }

  lemma Further(d: seq<byte>, b: seq<byte>, n: nat)
    requires n <= |d|
    ensures (d + b)[..n] == d[..n]
  {
  }

  // With d offered before, what is taken of b comes after what was taken of d.
  lemma WriteOn(was: seq<byte>, at: nat, room: nat, d: seq<byte>, b: seq<byte>)
    requires at <= |was|
    ensures var n := Min(|d|, room); var w := Min(|b|, room - n);
            Min(|d + b|, room) == n + w &&
            Overlay(Overlay(was, at, d[..n]), at + n, b[..w]) == Overlay(was, at, (d + b)[..n + w]) &&
            (w == 0 ==> (d + b)[..n + w] == d[..n])
  {
    var n := Min(|d|, room);
    var w := Min(|b|, room - n);
    OverlayOn(was, at, d[..n], b[..w]);
    assert (d + b)[..n + w] == d[..n] + b[..w];
  }

  // The local write while none has failed.
  method StoreMore(f: Spool, b: seq<byte>, ghost was: seq<byte>, ghost at: nat, ghost disk: Disk, ghost d: seq<byte>)
    returns (ret: int)
    requires at <= |was| && Stored(f, was, at, disk, d, SUCCESS) && |b| <= XBUFSIZ && |d| == Whole(|d|)
    modifies f
    ensures Stored(f, was, at, disk, d + b, ret)
  {
    ToldNext(|d|, |b|, disk);
    var written := f.Write(b);
    WriteOn(was, at, disk.room, d, b);
    ret := if written != |b| then f.disk.errno else SUCCESS;
  }

  /** The local write of both protocols: after a failure the data is read on but no longer written. */
  method Store(f: Spool, b: seq<byte>, ret0: int, ghost was: seq<byte>, ghost at: nat, ghost disk: Disk,
    ghost d: seq<byte>, ghost big: bool) returns (ret: int)
    requires at <= |was| && Kept(f, was, at, disk, d, ret0, big) && |b| <= XBUFSIZ && |d| == Whole(|d|)
    modifies f
    ensures Kept(f, was, at, disk, d + b, ret, big)
  {
    ret := ret0;
    if ret == SUCCESS {
      ret := StoreMore(f, b, was, at, disk, d);
    } else {
      ToldNext(|d|, |b|, disk);
      Further(d, b, Min(|d|, disk.room));
    }
  }

  ghost predicate StoredWhole(f: Spool, was: seq<byte>, at: nat, disk: Disk, d: seq<byte>)
    reads f
    requires at <= |was|
  {
    exists err :: Stored(f, was, at, disk, d[..Whole(|d|)], err)
  }

  // One turn of drddata: a block is read and stored.
  method TakeBlock(link: Link, f: Spool, ret0: int, ghost d: seq<byte>, ghost k: nat, ghost tail: seq<Unit>,
    ghost was: seq<byte>, ghost at: nat, ghost disk: Disk) returns (ret: int, len: int)
    requires k <= |d| && link.units == Octets(d[k..]) + tail && Stops(tail)
    requires at <= |was| && Stored(f, was, at, disk, d[..k], ret0) && k == Whole(k)
    modifies link, f
    ensures k + XBUFSIZ <= |d| ==> len == XBUFSIZ && link.units == Octets(d[k + XBUFSIZ..]) + tail
    ensures k + XBUFSIZ > |d| && tail != [] ==> link.units == tail[1..] && len == if tail[0].eof then |d| - k else -1
    ensures k + XBUFSIZ > |d| && tail == [] ==> len == -1
    ensures len < 0 ==> Stored(f, was, at, disk, d[..k], ret0)
    ensures len >= 0 ==> Stored(f, was, at, disk, d[..k + len], ret)
  {
    ret := ret0;
    var bufr;
    len, bufr := Drdblk(XBUFSIZ, link, d[k..], tail);
    if len >= 0 {
      SliceOn(d, k, len);
      assert bufr == d[k..k + len];
      ret := Store(f, bufr, ret, was, at, disk, d[..k], false);
    }
  }

  /** Receives a file over a Datakit link (drddata). */
  method Drddata(link: Link, f: Spool, ghost d: seq<byte>, ghost tail: seq<Unit>) returns (ret: int)
    requires f.Valid() && link.units == Octets(d) + tail && Stops(tail)
    modifies link, f
    ensures tail != [] && tail[0].eof ==>
      link.units == tail[1..] && Stored(f, old(f.data), old(f.pos), old(f.disk), d, ret)
    ensures tail == [] || !tail[0].eof ==>
      ret == FAIL && StoredWhole(f, old(f.data), old(f.pos), old(f.disk), d)
  {
    ret := SUCCESS;
    ghost var k: nat := 0;
    ghost var was, at, disk := f.data, f.pos, f.disk;
    assert Overlay(was, at, []) == was;
    while true
      invariant k <= |d| && k == Whole(k) && link.units == Octets(d[k..]) + tail
      invariant Stored(f, was, at, disk, d[..k], ret)
      decreases |d| - k
    {
      var len;
      ghost var before := ret;
      ret, len := TakeBlock(link, f, ret, d, k, tail, was, at, disk);
      if len < 0 {
        WholeIs(k, |d|);
        assert Stored(f, was, at, disk, d[..k], before);
        return FAIL;
      }
      WholeNext(k);
      k := k + len;
      if len < XBUFSIZ {
        assert d[..k] == d;
        return;
      }
    }
  }

  /** Sends a file over a Datakit link (dwrdata): its bytes, in blocks, and then the end mark. */
  method Dwrdata(src: seq<byte>, start: nat) returns (sent: seq<Unit>)
    ensures sent == Octets(if start <= |src| then src[start..] else []) + [Mark(true)]
  {
    sent := [];
    var pos := start;
    ghost var d := if start <= |src| then src[start..] else [];
    while pos < |src|
      invariant start <= pos && (pos <= |src| || pos == start)
      invariant sent == Octets(if pos <= |src| then src[start..pos] else [])
    {
      var len := Min(XBUFSIZ, |src| - pos);
      OctetsSplit(src[start..pos], src[pos..pos + len]);
      assert src[start..pos] + src[pos..pos + len] == src[start..pos + len];
      sent, pos := sent + Octets(src[pos..pos + len]), pos + len;
      if len != XBUFSIZ { break; }
    }
    assert pos <= |src| ==> src[start..pos] == src[start..];
    sent := sent + [Mark(true)];
  }

  // ------------------------------------------------------------------ the length message of protocol e

  predicate Digit(b: byte) { 48 <= b <= 57 }

  /** sscanf("%ld"): the digits up to the first byte that is none. */
  function Scanned(s: seq<byte>, acc: nat): nat {
    if s == [] || !Digit(s[0]) then acc else Scanned(s[1..], 10 * acc + s[0] - 48)
  }

  function Shifted(acc: nat, n: nat): nat { if n < 10 then 10 * acc else 10 * Shifted(acc, n / 10) }

  lemma {:induction false} ScannedNumeral(n: nat, acc: nat, rest: seq<byte>)
    requires rest != [] && !Digit(rest[0])
    ensures Scanned(Numeral(n) + rest, acc) == Shifted(acc, n) + n
    decreases n
  {
    ScannedPrefix(n, acc, rest);
  }

  // Scanning the digits of n before any further bytes.
  lemma {:induction false} ScannedPrefix(n: nat, acc: nat, rest: seq<byte>)
    ensures Scanned(Numeral(n) + rest, acc) == Scanned(rest, Shifted(acc, n) + n)
    decreases n
  {
    if n < 10 {
      assert (Numeral(n) + rest)[1..] == rest;
    } else {
      var last: seq<byte> := [48 + n % 10];
      assert Numeral(n) + rest == Numeral(n / 10) + (last + rest);
      ScannedPrefix(n / 10, acc, last + rest);
      assert (last + rest)[1..] == rest;
    }
  }

  lemma {:induction false} NumeralShort(n: nat, digits: nat, limit: nat)
    requires digits >= 1 && n < limit && limit == Power(digits)
    ensures |Numeral(n)| <= digits
    decreases digits
  {
    if n >= 10 { NumeralShort(n / 10, digits - 1, Power(digits - 1)); }
  }

  function Power(digits: nat): nat { if digits == 0 then 1 else 10 * Power(digits - 1) }

  /** The length message: the number, its terminator, and whatever else was in the buffer. */
  function Header(n: nat, junk: seq<byte>): (r: seq<byte>)
    requires n < 0x8000_0000 && |junk| == CMSGSIZ
    ensures |r| == CMSGSIZ && Scanned(r, 0) == n
  {
    assert 0x8000_0000 < Power(10);
    NumeralShort(n, 10, Power(10));
    var text := Numeral(n) + [0];
    ScannedNumeral(n, 0, [0] + junk[|text|..]);
    ShiftedZero(n);
    assert text + junk[|text|..] == Numeral(n) + ([0] + junk[|text|..]);
    text + junk[|text|..]
  }

  lemma {:induction false} ShiftedZero(n: nat)
    ensures Shifted(0, n) == 0
  {
    if n >= 10 { ShiftedZero(n / 10); }
  }

  /** Sends a file over an error-free link (ewrdata): its length from the start point on, and its bytes. */
  method Ewrdata(src: seq<byte>, start: nat, junk: seq<byte>) returns (ret: int, sent: seq<byte>)
    requires |src| < 0x8000_0000 && |junk| == CMSGSIZ
    ensures start > |src| ==> ret == FAIL && sent == []
    ensures start <= |src| ==> ret == SUCCESS && sent == Header(|src| - start, junk) + src[start..]
  {
    var msglen := |src| - start;
    if msglen < 0 { return FAIL, []; }
    var pos := start;
    sent := Header(msglen, junk);
    assert sent == Header(|src| - start, junk) + src[start..pos];
    while pos < |src|
      invariant start <= pos <= |src| && msglen == |src| - pos && sent == Header(|src| - start, junk) + src[start..pos]
    {
      var len := Min(XBUFSIZ, |src| - pos);
      assert src[start..pos] + src[pos..pos + len] == src[start..pos + len];
      sent, pos, msglen := sent + src[pos..pos + len], pos + len, msglen - len;
      if msglen <= 0 { break; }
    }
    assert src[start..pos] == src[start..];
    ret := SUCCESS;
  }

  /** A length exceeds the file size limit, which is in blocks of 512 bytes; an empty file counts as one block. */
  predicate TooBig(n: nat, ulimit: nat) { n > 512 * ulimit || ulimit == 0 }

  ghost predicate KeptWhole(f: Spool, was: seq<byte>, at: nat, disk: Disk, body: seq<byte>, big: bool)
    reads f
    requires at <= |was|
  {
    exists err :: Kept(f, was, at, disk, body[..Whole(|body|)], err, big)
  }

  // One turn of erddata.
  method TakePart(link: Link, f: Spool, ret0: int, part: nat, ghost d: seq<byte>, ghost k: nat, ghost tail: seq<Unit>,
    ghost was: seq<byte>, ghost at: nat, ghost disk: Disk, ghost big: bool) returns (ret: int, len: int)
    requires k <= |d| && link.units == Octets(d[k..]) + tail && Stops(tail)
    requires at <= |was| && Kept(f, was, at, disk, d[..k], ret0, big) && part <= XBUFSIZ && k == Whole(k)
    modifies link, f
    ensures k + part <= |d| ==> len == part && link.units == Octets(d[k + part..]) + tail
    ensures k + part > |d| ==> len == -1
    ensures len < 0 ==> Kept(f, was, at, disk, d[..k], ret0, big)
    ensures len >= 0 ==> Kept(f, was, at, disk, d[..k + len], ret, big)
  {
    ret := ret0;
    var bufr;
    len, bufr := Erdblk(part, link, d[k..], tail);
    if len >= 0 {
      SliceOn(d, k, len);
      assert bufr == d[k..k + len];
      ret := Store(f, bufr, ret, was, at, disk, d[..k], big);
    }
  }

  /** Receives a file over an error-free link (erddata); d is what still arrives. */
  method Erddata(link: Link, f: Spool, ulimit: nat, ghost d: seq<byte>, ghost tail: seq<Unit>) returns (ret: int)
    requires f.Valid() && link.units == Octets(d) + tail && Stops(tail)
    modifies link, f
    ensures f.Valid()
    ensures |d| < CMSGSIZ ==> ret == FAIL && f.data == old(f.data)
    ensures |d| >= CMSGSIZ ==>
      (var n, body := Scanned(d[..CMSGSIZ], 0), d[CMSGSIZ..];
       if n <= |body|
       then link.units == Octets(body[n..]) + tail &&
            Kept(f, old(f.data), old(f.pos), old(f.disk), body[..n], ret, TooBig(n, ulimit))
       else ret == FAIL && KeptWhole(f, old(f.data), old(f.pos), old(f.disk), body, TooBig(n, ulimit)))
    ensures |d| >= CMSGSIZ ==>
      (var n, body := Scanned(d[..CMSGSIZ], 0), d[CMSGSIZ..];
       n <= |body| && n <= old(f.disk.room) ==>
         && (ret == EFBIG <==> n > 512 * ulimit || ulimit == 0) && (ret == EFBIG ==> f.data == old(f.data))
         && (ret != EFBIG ==> ret == SUCCESS && f.data == Overlay(old(f.data), old(f.pos), body[..n])))
  {
    ret := SUCCESS;
    ghost var was, at, disk := f.data, f.pos, f.disk;
    assert Overlay(was, at, []) == was;
    var len, cmsglen;
    len, cmsglen := Erdblk(CMSGSIZ, link, d, tail);
    if len < 0 { return FAIL; }
    var n := Scanned(cmsglen, 0);
    if (if n > 0 then (n - 1) / 512 else 0) + 1 > ulimit { ret := EFBIG; }
    ret := TakeBody(link, f, ret, n, d[CMSGSIZ..], tail, was, at, disk, TooBig(n, ulimit));
  }

  // The loop of erddata, once the length n is known.
  method TakeBody(link: Link, f: Spool, ret0: int, n: nat, ghost body: seq<byte>, ghost tail: seq<Unit>,
    ghost was: seq<byte>, ghost at: nat, ghost disk: Disk, ghost big: bool) returns (ret: int)
    requires link.units == Octets(body) + tail && Stops(tail)
    requires at <= |was| && Kept(f, was, at, disk, [], ret0, big)
    modifies link, f
    ensures f.Valid()
    ensures n <= |body| ==> link.units == Octets(body[n..]) + tail && Kept(f, was, at, disk, body[..n], ret, big)
    ensures n > |body| ==> ret == FAIL && KeptWhole(f, was, at, disk, body, big)
  {
    ret := ret0;
    var msglen := n;
    ghost var k: nat := 0;
    assert body[..0] == [] && body[0..] == body;
    while true
      invariant k <= |body| && msglen == n - k >= 0 && k == Whole(k)
      invariant link.units == Octets(body[k..]) + tail && Kept(f, was, at, disk, body[..k], ret, big)
      decreases msglen
    {
      var len;
      ghost var before := ret;
      ret, len := TakePart(link, f, ret, Min(msglen, XBUFSIZ), body, k, tail, was, at, disk, big);
      if len < 0 {
        WholeIs(k, |body|);
        assert Kept(f, was, at, disk, body[..k], before, big);
        return FAIL;
      }
      WholeNext(k);
      k, msglen := k + len, msglen - len;
      if msglen == 0 { return; }
    }
  }
}
