/** The lines of a text, and where each of them begins (the reference for bfs.c). */
module TextLines {

  /** The text from position p up to, and without, the next newline or the end. */
  function TextFrom(text: string, p: nat): (r: string)
    ensures p <= |text| ==> p + |r| <= |text| && r == text[p..p + |r|]
    ensures p + |r| < |text| ==> text[p + |r|] == '\n'
    ensures forall k :: p <= k < p + |r| ==> k < |text| && text[k] != '\n'
    decreases |text| - p
  {
    if p >= |text| || text[p] == '\n' then [] else [text[p]] + TextFrom(text, p + 1)
  }

  /** The lines of a text from position p on. A newline ends a line, and the last may lack one. */
  function LinesFrom(text: string, p: nat): seq<string>
    decreases |text| - p
  {
    if p >= |text| then [] else [TextFrom(text, p)] + LinesFrom(text, p + |TextFrom(text, p)| + 1)
  }

  function Lines(text: string): seq<string> { LinesFrom(text, 0) }

  predicate Begins(text: string, p: nat) {
    p < |text| && (p == 0 || text[p - 1] == '\n')
  }

  /** The positions below n at which lines begin, found by reading the text from left to right. */
  function StartsTo(text: string, n: nat): (r: seq<nat>)
    requires n <= |text|
    ensures |r| <= n
  {
    if n == 0 then []
    else if Begins(text, n - 1) then StartsTo(text, n - 1) + [n - 1] else StartsTo(text, n - 1)
  }

  function Starts(text: string): seq<nat> { StartsTo(text, |text|) }

  lemma {:induction false} StartsOrdered(text: string, n: nat)
    requires n <= |text|
    ensures forall p: nat :: p in StartsTo(text, n) <==> p < n && Begins(text, p)
    ensures forall i :: 0 <= i < |StartsTo(text, n)| ==> StartsTo(text, n)[i] < n
    ensures forall i, j :: 0 <= i < j < |StartsTo(text, n)| ==> StartsTo(text, n)[i] < StartsTo(text, n)[j]
    ensures n > 0 ==> |StartsTo(text, n)| > 0 && StartsTo(text, n)[0] == 0
  {
    if n > 0 { StartsOrdered(text, n - 1); }
  }

  lemma StartsStep(text: string, n: nat)
    requires n < |text|
    ensures StartsTo(text, n + 1) == if Begins(text, n) then StartsTo(text, n) + [n] else StartsTo(text, n)
  {
  }

  lemma {:induction false} StartsGrow(text: string, n: nat, m: nat)
    requires n <= m <= |text|
    ensures |StartsTo(text, n)| <= |StartsTo(text, m)|
  {
    if n < m { StartsGrow(text, n, m - 1); }
  }

  /** The bytes line l takes up, with its newline. */
  function Extent(text: string, l: nat): (r: nat)
    requires 1 <= l <= |Starts(text)|
    ensures r > 0
  {
    StartsOrdered(text, |text|);
    (if l < |Starts(text)| then Starts(text)[l] else |text|) - Starts(text)[l - 1]
  }

  // A newline is followed by the next line, with no line beginning in between.
  lemma NextBegins(text: string, i: nat)
    requires i < |Starts(text)|
    ensures var after := Starts(text)[i] + |TextFrom(text, Starts(text)[i])| + 1;
      if i + 1 < |Starts(text)| then Starts(text)[i + 1] == after else after >= |text|
  {
    StartsOrdered(text, |text|);
    var s := Starts(text);
    var p := s[i];
    assert p in s;
    var e := p + |TextFrom(text, p)|;
    if e + 1 < |text| {
      assert Begins(text, e + 1);
      var j :| 0 <= j < |s| && s[j] == e + 1;
      assert j > i;
    }
    if i + 1 < |s| {
      assert s[i + 1] in s;
      NoneWithin(text, p, s[i + 1]);
    }
  }

  lemma NoneWithin(text: string, p: nat, q: nat)
    requires p < q && Begins(text, q)
    ensures q > p + |TextFrom(text, p)|
  {
  }

  // The place of the line with index i: the beginning, or the end of the text when there is none.
  function StartOr(text: string, i: nat): nat {
    if i < |Starts(text)| then Starts(text)[i] else |text|
  }

  lemma LinesStep(text: string, i: nat)
    requires i < |Starts(text)|
    ensures LinesFrom(text, StartOr(text, i)) ==
            [TextFrom(text, Starts(text)[i])] + LinesFrom(text, StartOr(text, i + 1))
  {
    StartsOrdered(text, |text|);
    NextBegins(text, i);
    var p := Starts(text)[i];
    assert p in Starts(text) && p < |text|;
    LinesUnfold(text, p, StartOr(text, i + 1));
  }

  lemma LinesUnfold(text: string, p: nat, q: nat)
    requires p < |text|
    requires var after := p + |TextFrom(text, p)| + 1; q == after || (q >= |text| && after >= |text|)
    ensures LinesFrom(text, p) == [TextFrom(text, p)] + LinesFrom(text, q)
  {
  }

  function Texts(text: string): (r: seq<string>)
    ensures |r| == |Starts(text)|
    ensures forall i :: 0 <= i < |r| ==> r[i] == TextFrom(text, Starts(text)[i])
  {
    seq(|Starts(text)|, k requires 0 <= k < |Starts(text)| => TextFrom(text, Starts(text)[k]))
  }

  lemma DropHead<T>(s: seq<T>, i: nat)
    requires i < |s|
    ensures s[i..] == [s[i]] + s[i + 1..]
  {
  }

  lemma {:induction false} StartsSplit(text: string, i: nat)
    requires i <= |Starts(text)|
    ensures LinesFrom(text, StartOr(text, i)) == Texts(text)[i..]
    decreases |Starts(text)| - i
  {
    if i < |Starts(text)| {
      LinesStep(text, i);
      StartsSplit(text, i + 1);
      DropHead(Texts(text), i);
    }
  }

  lemma LineCount(text: string)
    ensures |Starts(text)| == |Lines(text)|
  {
    StartsAreLines(text);
  }

  /** Reading left to right finds the lines that the definition by the next newline gives. */
  lemma StartsAreLines(text: string)
    ensures |Starts(text)| == |Lines(text)|
    ensures forall i :: 0 <= i < |Lines(text)| ==> Lines(text)[i] == TextFrom(text, Starts(text)[i])
  {
    StartsOrdered(text, |text|);
    StartsSplit(text, 0);
    assert StartOr(text, 0) == 0;
  }
}

/** The big file scanner's line index, cursor and one-block buffer (bfs.c), and its line search. */
module BigFile {
  import opened Basics
  import opened TextLines

  const BLOCK: nat := 512
  const LIMIT: nat := 511
  const MOST_LINES: nat := 32767

  /** What a 16-bit cell of the line-length table keeps of a length. */
  function Short(n: nat): (r: int)
    ensures r <= n
    ensures r == n <==> n < 0x8000
  {
    if n % 0x1_0000 < 0x8000 then n % 0x1_0000 else n % 0x1_0000 - 0x1_0000
  }

  /** It differs from the length by a multiple of 65536. */
  lemma ShortWraps(n: nat)
    ensures -32768 <= Short(n) <= 32767 && (n - Short(n)) % 65536 == 0
  {
  }

  /** The cells of memory that the length table needs for a file of l lines. */
  function Room(l: nat): nat {
    Granted(l) + (if l % 4096 == 0 then 2 else 0)
  }

  function Granted(l: nat): nat {
    if l <= 4096 then 4096 else (l - 1) / 4096 * 4096 + 4096
  }

  /** The segments of 64 lines that l lines have begun. */
  function Segments(l: nat): (r: nat)
    ensures 64 * r >= l && (r > 0 ==> 64 * (r - 1) < l)
  {
    (l + 63) / 64
  }

  lemma SegmentsStep(l: nat)
    ensures Segments(l + 1) == if l % 64 == 0 then Segments(l) + 1 else Segments(l)
    ensures l % 64 == 0 ==> Segments(l) == l / 64
  {
  }

  lemma RoomGrows(l: nat, m: nat)
    requires l <= m
    ensures Granted(l) <= Granted(m) <= Room(m)
  {
  }

  /** The length table and the segment table describe the lines beginning at s. */
  ghost predicate Indexed(s: seq<nat>, lincnt: seq<int>, blks: seq<int>, offs: seq<int>) {
    && |lincnt| > 0 && |s| <= |lincnt|
    && |blks| == 512 && |offs| == 512 && |s| <= MOST_LINES + 1
    && (|s| > 0 ==> lincnt[0] == 0)
    && (forall i :: 1 <= i < |s| ==> Measures(s, lincnt[i], i))
    && (forall k :: 0 <= k < Segments(|s|) ==> Segment(s, blks, offs, k))
  }

  ghost predicate Measures(s: seq<nat>, length: int, i: nat) {
    1 <= i < |s| && s[i - 1] < s[i] && length == Short(s[i] - s[i - 1])
  }

  ghost predicate Segment(s: seq<nat>, blks: seq<int>, offs: seq<int>, k: nat) {
    k < |blks| && k < |offs| && 64 * k < |s|
    && blks[k] >= 0 && 0 <= offs[k] < BLOCK && blks[k] * BLOCK + offs[k] == s[64 * k]
  }

  /** The block buffer agrees with a text wherever block b lies within it. */
  ghost predicate Holds(buffer: seq<char>, text: string, b: int) {
    |buffer| == BLOCK && b >= 0
    && forall k :: 0 <= k < BLOCK && b * BLOCK + k < |text| ==> buffer[k] == text[b * BLOCK + k]
  }

  // One more line: its predecessor's length and, every 64 lines, its place are filled in.
  lemma IndexedSnoc(s: seq<nat>, p: nat, c: seq<int>, d: seq<int>, b: seq<int>, b': seq<int>, o: seq<int>, o': seq<int>)
    requires Indexed(s, c, b, o) && |s| <= MOST_LINES && (|s| > 0 ==> s[|s| - 1] < p)
    requires |s| < |d| && forall i :: 0 <= i < |s| ==> d[i] == c[i]
    requires d[|s|] == if |s| == 0 then 0 else Short(p - s[|s| - 1])
    requires |b'| == |o'| == 512
    requires forall k :: 0 <= k < Segments(|s|) ==> b'[k] == b[k] && o'[k] == o[k]
    requires |s| % 64 == 0 ==>
      b'[|s| / 64] >= 0 && 0 <= o'[|s| / 64] < BLOCK && b'[|s| / 64] * BLOCK + o'[|s| / 64] == p
    ensures Indexed(s + [p], d, b', o')
  {
    SegmentsStep(|s|);
    forall i | 1 <= i <= |s| ensures Measures(s + [p], d[i], i) {
      if i < |s| { assert Measures(s, c[i], i); }
    }
    forall k | 0 <= k < Segments(|s| + 1) ensures Segment(s + [p], b', o', k) {
      if 64 * k < |s| { assert Segment(s, b, o, k); }
    }
  }

  /** The lines whose lengths are added or taken away on the way from line l to line m. */
  function Walked(l: nat, m: nat): (nat, nat)
    requires m >= 1
  {
    if l <= m <= l + 32 then (l, m) else if m < l <= m + 32 then (m, l) else ((m - 1) / 64 * 64 + 1, m)
  }

  /** Too far to walk from line to line. */
  predicate Far(l: int, m: int) { m < l - 32 || m > l + 32 }

  /** Every line from lo up to hi has a length that its 16-bit cell keeps. */
  ghost predicate Countable(text: string, lo: nat, hi: nat) {
    1 <= lo && hi <= |Starts(text)| + 1 && forall i: nat :: lo <= i < hi ==> Extent(text, i) < 0x8000
  }

  lemma CountableEnds(text: string, lo: nat, hi: nat)
    requires 1 <= lo <= hi <= |Starts(text)|
    ensures Countable(text, lo, hi + 1) <==> Countable(text, lo, hi) && Extent(text, hi) < 0x8000
    ensures Countable(text, lo, hi + 1) <==> Extent(text, lo) < 0x8000 && Countable(text, lo + 1, hi + 1)
  {
    assert Countable(text, lo, hi) && Extent(text, hi) < 0x8000 ==> Countable(text, lo, hi + 1);
  }

  // ------------------------------------------------------------------ what is read as a line

  /** The byte at position q as the block buffer shows it, when reading began in block `first` with `saved` in the
    * buffer: past the end of the file a read leaves the buffer as it was. */
  function Byte(text: string, saved: seq<char>, first: nat, q: nat): char
    requires |saved| == BLOCK && first <= q / BLOCK
    decreases q
  {
    if q < |text| then text[q] else if q / BLOCK == first then saved[q % BLOCK] else Byte(text, saved, first, q - BLOCK)
  }

  /** A record that has been filled: its bytes, and whether a NUL has been stored behind them. */
  datatype Record = Record(bytes: string, ended: bool) {
    function Prepend(s: string): Record { Record(s + bytes, ended) }

    /** What a reader of the record takes for its text when `beyond` lies in memory behind a full record. */
    function Seen(beyond: string): string { UpToNul(if ended then bytes else bytes + beyond) }
  }

  function UpToNul(s: string): (r: string)
    ensures r <= s && '\0' !in r && (r != s ==> s[|r|] == '\0')
  {
    if s == [] || s[0] == '\0' then [] else [s[0]] + UpToNul(s[1..])
  }

  /** Filling a record from position q on, n bytes having been stored. */
  function Filled(text: string, saved: seq<char>, first: nat, q: nat, n: nat): (r: Record)
    requires |saved| == BLOCK && first <= q / BLOCK && n <= LIMIT
    ensures n + |r.bytes| <= LIMIT + 1
    decreases LIMIT - n
  {
    var c := Byte(text, saved, first, q);
    if c == '\n' then Record([], true)
    else if n == LIMIT then Record([c], false)
    else Filled(text, saved, first, q + 1, n + 1).Prepend([c])
  }

  /** What bigread stores for line l. */
  function ReadAs(text: string, l: nat, saved: seq<char>): Record
    requires 1 <= l <= |Starts(text)| && |saved| == BLOCK
  {
    var p := Starts(text)[l - 1];
    Filled(text, saved, p / BLOCK, p, 0)
  }

  /** A line with a newline behind it, or as much of it as fits, and then it is not terminated. */
  function Shown(line: string): Record {
    if |line| <= LIMIT then Record(line, true) else Record(line[..LIMIT + 1], false)
  }

  /** r is what the line at p fills a record with: the line as it is shown, or, when its end is missed, the line and
    * at least the byte that the buffer shows behind the end of the file. */
  predicate FilledAs(text: string, saved: seq<char>, p: nat, r: Record)
    requires |saved| == BLOCK && p < |text|
  {
    var line, over := TextFrom(text, p), Byte(text, saved, p / BLOCK, |text|);
    if p + |line| < |text| || |line| > LIMIT || over == '\n' then r == Shown(line)
    else |line| < |r.bytes| && r.bytes[..|line|] == line && r.bytes[|line|] == over
  }

  lemma {:induction false} FillsLine(text: string, saved: seq<char>, p: nat, n: nat)
    requires |saved| == BLOCK && p < |text| && n <= |TextFrom(text, p)| && n <= LIMIT
    ensures var r := Filled(text, saved, p / BLOCK, p + n, n);
      FilledAs(text, saved, p, r.Prepend(TextFrom(text, p)[..n]))
    decreases LIMIT - n
  {
    var line := TextFrom(text, p);
    if n < |line| {
      FillsByte(text, saved, p, n);
      if n < LIMIT {
        FillsLine(text, saved, p, n + 1);
        PrependTwice(Filled(text, saved, p / BLOCK, p + n + 1, n + 1), line[..n], [line[n]]);
      }
    } else {
      assert line[..n] == line;
    }
  }

  // What a whole line fills a record with.
  lemma FillsWhole(text: string, saved: seq<char>, p: nat)
    requires |saved| == BLOCK && p < |text|
    ensures FilledAs(text, saved, p, Filled(text, saved, p / BLOCK, p, 0))
  {
    var r := Filled(text, saved, p / BLOCK, p, 0);
    FillsLine(text, saved, p, 0);
    assert r.Prepend([]) == r && TextFrom(text, p)[..0] == [];
  }

  lemma FillsByte(text: string, saved: seq<char>, p: nat, n: nat)
    requires |saved| == BLOCK && p < |text| && n < |TextFrom(text, p)|
    ensures var line := TextFrom(text, p);
      Byte(text, saved, p / BLOCK, p + n) == line[n] != '\n' && line[..n + 1] == line[..n] + [line[n]]
  {
  }

  lemma PrependTwice(r: Record, a: string, b: string)
    ensures r.Prepend(b).Prepend(a) == r.Prepend(a + b)
  {
    assert a + (b + r.bytes) == a + b + r.bytes;
  }

  /** Line l is followed by a newline. */
  predicate Ends(text: string, l: nat) {
    l < |Lines(text)| || (text != [] && text[|text| - 1] == '\n')
  }

  lemma LineAt(text: string, l: nat)
    requires 1 <= l <= |Starts(text)|
    ensures |Starts(text)| == |Lines(text)|
    ensures Starts(text)[l - 1] < |text| && TextFrom(text, Starts(text)[l - 1]) == Lines(text)[l - 1]
  {
    StartsAreLines(text);
    StartsOrdered(text, |text|);
  }

  // A line without a newline ends at the end of the text.
  lemma EndOfLine(text: string, l: nat)
    requires 1 <= l <= |Starts(text)| && |Starts(text)| == |Lines(text)|
    requires Starts(text)[l - 1] < |text| && TextFrom(text, Starts(text)[l - 1]) == Lines(text)[l - 1]
    ensures var e := Starts(text)[l - 1] + |Lines(text)[l - 1]|;
      && (Ends(text, l) <==> e < |text|)
      && (if l < |Starts(text)| then Starts(text)[l] else |text|) == e + (if Ends(text, l) then 1 else 0)
  {
    StartsOrdered(text, |text|);
    NextBegins(text, l - 1);
    if l < |Starts(text)| { assert Starts(text)[l] in Starts(text); }
  }

  lemma ExtentOfLine(text: string, l: nat)
    requires 1 <= l <= |Starts(text)|
    ensures |Starts(text)| == |Lines(text)|
    ensures Starts(text)[l - 1] < |text| && TextFrom(text, Starts(text)[l - 1]) == Lines(text)[l - 1]
    ensures Extent(text, l) == |Lines(text)[l - 1]| + (if Ends(text, l) then 1 else 0)
    ensures Ends(text, l) <==> Starts(text)[l - 1] + |Lines(text)[l - 1]| < |text|
  {
    LineAt(text, l);
    EndOfLine(text, l);
  }

  // The byte that the buffer shows behind the end of the file when line l is read.
  function Overrun(text: string, l: nat, saved: seq<char>): char
    requires 1 <= l <= |Starts(text)| && |saved| == BLOCK
  {
    StartsOrdered(text, |text|);
    Byte(text, saved, Starts(text)[l - 1] / BLOCK, |text|)
  }

  /** A line is stored rightly exactly when a newline follows it, when it is cut, or when the byte that the buffer
    * happens to show behind the end of the file is a newline. */
  lemma ReadExactlyWhen(text: string, l: nat, saved: seq<char>)
    requires 1 <= l <= |Starts(text)| && |saved| == BLOCK
    ensures |Starts(text)| == |Lines(text)|
    ensures var line := Lines(text)[l - 1];
      ReadAs(text, l, saved) == (if |line| <= 511 then Record(line, true) else Record(line[..512], false)) <==>
      Ends(text, l) || |line| > 511 || Overrun(text, l, saved) == '\n'
  {
    ExtentOfLine(text, l);
    FillsWhole(text, saved, Starts(text)[l - 1]);
  }

  // Otherwise the line is followed by that byte.
  lemma ReadsOver(text: string, l: nat, saved: seq<char>)
    requires 1 <= l <= |Starts(text)| && |saved| == BLOCK
    ensures |Starts(text)| == |Lines(text)|
    ensures var line, r := Lines(text)[l - 1], ReadAs(text, l, saved);
      r != Shown(line) ==>
        |line| < |r.bytes| && r.bytes[..|line|] == line && r.bytes[|line|] == Overrun(text, l, saved)
  {
    ExtentOfLine(text, l);
    FillsWhole(text, saved, Starts(text)[l - 1]);
  }

  /** It is seen rightly also when that byte is a NUL; with any other byte, more than the line is seen, whatever
    * lies behind the record. */
  lemma SeenExactlyWhen(text: string, l: nat, saved: seq<char>, beyond: string)
    requires 1 <= l <= |Starts(text)| && |saved| == BLOCK
    ensures |Starts(text)| == |Lines(text)|
    ensures var line := Lines(text)[l - 1];
      |line| <= 511 && '\0' !in line ==>
        (ReadAs(text, l, saved).Seen(beyond) == line <==>
         Ends(text, l) || Overrun(text, l, saved) == '\n' || Overrun(text, l, saved) == '\0')
  {
    ReadExactlyWhen(text, l, saved);
    var line, r := Lines(text)[l - 1], ReadAs(text, l, saved);
    if |line| <= LIMIT && '\0' !in line {
      if r == Shown(line) {
        NoNul(line);
      } else {
        ReadsOver(text, l, saved);
        SeesMore(line, Overrun(text, l, saved), if r.ended then r.bytes else r.bytes + beyond);
      }
    }
  }

  lemma {:induction false} NoNul(s: string)
    requires '\0' !in s
    ensures UpToNul(s) == s
  {
    if s != [] { NoNul(s[1..]); }
  }

  lemma {:induction false} SeesMore(line: string, c: char, s: string)
    requires |line| < |s| && s[..|line|] == line && s[|line|] == c && '\0' !in line
    ensures UpToNul(s) == line <==> c == '\0'
  {
    if line != [] {
      assert s[1..][..|line| - 1] == line[1..];
      SeesMore(line[1..], c, s[1..]);
      assert line == [line[0]] + line[1..];
    }
  }

  lemma ByteOver(text: string, saved: seq<char>, first: nat)
    requires |saved| == BLOCK && first < |text| / BLOCK
    ensures |text| >= BLOCK && Byte(text, saved, first, |text|) == text[|text| - BLOCK]
  {
    var q: nat := |text| - BLOCK;
    assert first <= q / BLOCK && q < |text|;
    assert Byte(text, saved, first, q) == text[q];
  }

  // Which byte that is: one left in the buffer, or, when the line began in an earlier block, one of the file.
  lemma OverrunIs(text: string, l: nat, saved: seq<char>)
    requires 1 <= l <= |Starts(text)| && |saved| == BLOCK
    ensures Starts(text)[l - 1] / BLOCK == |text| / BLOCK ==> Overrun(text, l, saved) == saved[|text| % BLOCK]
    ensures Starts(text)[l - 1] / BLOCK < |text| / BLOCK ==>
              |text| >= BLOCK && Overrun(text, l, saved) == text[|text| - BLOCK]
  {
    StartsOrdered(text, |text|);
    var first := Starts(text)[l - 1] / BLOCK;
    if first < |text| / BLOCK { ByteOver(text, saved, first); }
  }

  /** A last line without a newline that crosses into the last block is misread after any history of calls, unless
    * the byte one block before the end of the file is a newline or a NUL. */
  lemma CrossingMisread(text: string, saved: seq<char>, beyond: string)
    requires text != [] && |saved| == BLOCK && text[|text| - 1] != '\n'
    ensures |Starts(text)| == |Lines(text)| > 0
    ensures var l := |Lines(text)|; var line := Lines(text)[l - 1];
      |line| <= 511 && '\0' !in line && Starts(text)[l - 1] / 512 < |text| / 512 ==>
        |text| >= 512 &&
        (ReadAs(text, l, saved).Seen(beyond) == line <==>
         text[|text| - 512] == '\n' || text[|text| - 512] == '\0')
  {
    StartsOrdered(text, |text|);
    SeenExactlyWhen(text, |Starts(text)|, saved, beyond);
    OverrunIs(text, |Starts(text)|, saved);
  }

  /** Such a file: 499 times `a`, a newline, and 100 times `b`. */
  lemma CrossingExample(a: string, b: string, saved: seq<char>, beyond: string)
    requires |a| == 499 && |b| == 100 && |saved| == BLOCK
    requires (forall i :: 0 <= i < 499 ==> a[i] == 'a') && (forall i :: 0 <= i < 100 ==> b[i] == 'b')
    ensures var text := a + "\n" + b;
      && Lines(text) == [a, b] && |Starts(text)| == 2 && ReadAs(text, 2, saved).Seen(beyond) != b
  {
    var text := a + "\n" + b;
    TwoLines(a, b);
    assert text[88] == a[88] && text[|text| - 1] == b[99] && |text| == 600;
    CrossingMisread(text, saved, beyond);
  }

  lemma TwoLines(a: string, b: string)
    requires '\n' !in a && '\n' !in b && b != ""
    ensures var text := a + "\n" + b; Lines(text) == [a, b] && Starts(text) == [0, |a| + 1]
  {
    var text := a + "\n" + b;
    LinesOfTwo(a, b);
    StartsAreLines(text);
    StartsOrdered(text, |text|);
    NextBegins(text, 0);
    assert Starts(text)[0] == 0 && Starts(text)[1] == |a| + 1;
  }

  lemma LinesOfTwo(a: string, b: string)
    requires '\n' !in a && '\n' !in b && b != ""
    ensures var text := a + "\n" + b; Lines(text) == [a, b] && TextFrom(text, 0) == a
  {
    var text := a + "\n" + b;
    assert text[0..|a|] == a && text[|a| + 1..] == b;
    TextUpToNewline(text, 0, |a|);
    TextToEnd(text, |a| + 1);
    assert LinesFrom(text, |text| + 1) == [];
    assert LinesFrom(text, |a| + 1) == [b];
  }

  lemma {:induction false} TextToEnd(text: string, p: nat)
    requires p <= |text| && '\n' !in text[p..]
    ensures TextFrom(text, p) == text[p..]
    decreases |text| - p
  {
    if p < |text| {
      assert text[p..] == [text[p]] + text[p + 1..];
      TextToEnd(text, p + 1);
    }
  }

  lemma {:induction false} TextUpToNewline(text: string, p: nat, e: nat)
    requires p <= e < |text| && text[e] == '\n' && '\n' !in text[p..e]
    ensures TextFrom(text, p) == text[p..e]
    decreases e - p
  {
    if p < e {
      assert text[p..e] == [text[p]] + text[p + 1..e];
      TextUpToNewline(text, p + 1, e);
    }
  }

  /** In a file of less than a block and without a newline at its end, the last line is stored wrongly when it is the
    * first one read, the rest of the buffer being zero; but it is seen rightly. */
  lemma FirstReadOver(text: string, beyond: string)
    requires 0 < |text| < 512 && text[|text| - 1] != '\n'
    ensures |Starts(text)| == |Lines(text)| > 0
    ensures var l, zeros := |Lines(text)|, seq(BLOCK, _ => '\0');
      && ReadAs(text, l, zeros) != Shown(Lines(text)[l - 1])
      && ('\0' !in Lines(text)[l - 1] ==> ReadAs(text, l, zeros).Seen(beyond) == Lines(text)[l - 1])
  {
    StartsOrdered(text, |text|);
    var l, zeros := |Starts(text)|, seq(BLOCK, _ => '\0');
    ExtentOfLine(text, l);
    OverrunIs(text, l, zeros);
    ReadExactlyWhen(text, l, zeros);
    SeenExactlyWhen(text, l, zeros, beyond);
  }

  /** A record is terminated exactly when the line, followed by a newline, has at most 511 bytes. */
  lemma TerminatedWhen(text: string, l: nat, saved: seq<char>)
    requires 1 <= l <= |Starts(text)| && |saved| == BLOCK
    ensures |Starts(text)| == |Lines(text)|
    ensures Ends(text, l) ==> (ReadAs(text, l, saved).ended <==> |Lines(text)[l - 1]| <= 511)
  {
    ReadExactlyWhen(text, l, saved);
  }

  /** The files whose lines are all found and read rightly, whatever the buffer holds: every length fits its
    * cell, and a last line without a newline is long enough to be cut. */
  ghost predicate Plain(text: string) {
    forall l: nat :: 1 <= l <= |Lines(text)| ==> PlainLine(text, l)
  }

  predicate PlainLine(text: string, l: nat)
    requires 1 <= l <= |Lines(text)|
  {
    |Lines(text)[l - 1]| < 0x7fff && (Ends(text, l) || |Lines(text)[l - 1]| > LIMIT)
  }

  lemma PlainCountable(text: string, lo: nat, hi: nat)
    requires Plain(text) && 1 <= lo && hi <= |Starts(text)| + 1
    ensures Countable(text, lo, hi)
  {
    forall i: nat | lo <= i < hi ensures Extent(text, i) < 0x8000 {
      ExtentOfLine(text, i);
      assert PlainLine(text, i);
    }
  }

  lemma PlainReadAs(text: string, l: nat, saved: seq<char>)
    requires Plain(text) && 1 <= l <= |Lines(text)| && |saved| == BLOCK
    ensures |Starts(text)| == |Lines(text)| && ReadAs(text, l, saved) == Shown(Lines(text)[l - 1])
  {
    StartsAreLines(text);
    assert PlainLine(text, l);
    ReadExactlyWhen(text, l, saved);
  }

  /** The numbers from one up or down to another, the last excluded, as a search's loop runs. */
  function Sweep(from: int, stop: int, incr: int): seq<int>
    requires (incr == 1 && from <= stop) || (incr == -1 && from >= stop)
    decreases if from <= stop then stop - from else from - stop
  {
    if from == stop then [] else [from] + Sweep(from + incr, stop, incr)
  }

  /** A search may begin at the current line, or from just outside the file on the side it leaves. */
  predicate Startable(start: int, down: bool, dollar: nat) {
    if down then 0 <= start <= dollar else 1 <= start <= dollar + 1
  }

  /** Beginning anywhere else, a search never comes to the line at which its first loop stops. */
  lemma StopsWhen(start: int, down: bool, dollar: nat)
    ensures (exists k: nat :: TurnAt(start, down, k) == if down then dollar + 1 else 0) <==>
            if down then start <= dollar else start >= 1
  {
    if down && start <= dollar { assert TurnAt(start, down, dollar - start) == dollar + 1; }
    if !down && start >= 1 { assert TurnAt(start, down, start - 1) == 0; }
  }

  // The line looked at in turn k of that loop.
  function TurnAt(start: int, down: bool, k: nat): int { if down then start + 1 + k else start - 1 - k }

  /** The lines a search looks at, in order. */
  function Order(start: int, down: bool, wrap: bool, dollar: nat): seq<int>
    requires Startable(start, down, dollar)
  {
    if down
    then Sweep(start + 1, dollar + 1, 1) + (if wrap then Sweep(1, start + 1, 1) else [])
    else Sweep(start - 1, 0, -1) + (if wrap then Sweep(dollar, start - 1, -1) else [])
  }

  lemma {:induction false} SweepAt(from: int, stop: int, incr: int, k: nat)
    requires (incr == 1 && from <= stop) || (incr == -1 && from >= stop)
    ensures |Sweep(from, stop, incr)| == if incr == 1 then stop - from else from - stop
    ensures k < |Sweep(from, stop, incr)| ==> Sweep(from, stop, incr)[k] == if incr == 1 then from + k else from - k
    decreases if from <= stop then stop - from else from - stop
  {
    if from != stop { SweepAt(from + incr, stop, incr, if k == 0 then 0 else k - 1); }
  }

  lemma OrderPlace(start: int, down: bool, dollar: nat, k: nat)
    requires 1 <= start <= dollar
    ensures |Order(start, down, true, dollar)| == dollar
    ensures k < dollar ==> Order(start, down, true, dollar)[k] == Place(start, down, dollar, k)
  {
    if down {
      SweepAt(start + 1, dollar + 1, 1, k);
      SweepAt(1, start + 1, 1, if k < dollar - start then 0 else k - (dollar - start));
    } else {
      SweepAt(start - 1, 0, -1, k);
      SweepAt(dollar, start - 1, -1, if k < start - 1 then 0 else k - (start - 1));
    }
  }

  /** With wrapping, a search looks at every line of the file exactly once, each next to the one before or around the
    * end from it, and at its start last. */
  lemma WrapsOnce(start: int, down: bool, dollar: nat)
    requires 1 <= start <= dollar
    ensures var o := Order(start, down, true, dollar);
      && |o| == dollar && o[dollar - 1] == start
      && (forall k :: 0 <= k < dollar ==> 1 <= o[k] <= dollar)
      && (forall l :: 1 <= l <= dollar ==> l in o)
      && (forall j, k :: 0 <= j < k < dollar ==> o[j] != o[k])
      && (forall k :: 0 <= k < dollar ==>
        var before := if k == 0 then start else o[k - 1];
        o[k] ==
          if down then (if before == dollar then 1 else before + 1)
          else (if before == 1 then dollar else before - 1))
  {
    var o := Order(start, down, true, dollar);
    OrderPlace(start, down, dollar, 0);
    forall k | 0 <= k < dollar ensures o[k] == Place(start, down, dollar, k) {
      OrderPlace(start, down, dollar, k);
    }
    forall l | 1 <= l <= dollar ensures l in o {
      var k := if down then (if l > start then l - start - 1 else dollar - start + l - 1)
        else (if l < start then start - 1 - l else start - 1 + dollar - l);
      assert o[k] == l;
    }
  }

  function Place(start: int, down: bool, dollar: nat, k: nat): int {
    if down then (if start + 1 + k <= dollar then start + 1 + k else start + 1 + k - dollar)
    else (if start - 1 - k >= 1 then start - 1 - k else start - 1 - k + dollar)
  }

  /** Without wrapping it looks at the lines beyond its start, nearest first. */
  lemma StaysBeyond(start: int, down: bool, dollar: nat)
    requires Startable(start, down, dollar)
    ensures var o := Order(start, down, false, dollar);
      && |o| == (if down then dollar - start else start - 1)
      && forall k :: 0 <= k < |o| ==> o[k] == if down then start + 1 + k else start - 1 - k
  {
    var o := Order(start, down, false, dollar);
    if down { SweepAt(start + 1, dollar + 1, 1, 0); } else { SweepAt(start - 1, 0, -1, 0); }
    forall k | 0 <= k < |o| ensures o[k] == if down then start + 1 + k else start - 1 - k {
      if down { SweepAt(start + 1, dollar + 1, 1, k); } else { SweepAt(start - 1, 0, -1, k); }
    }
  }

  /** The lines that match: what is matched is the line up to a NUL, if it has at most LIMIT bytes, and otherwise
    * its first bytes and what lies in memory behind the record, which is not terminated. */
  function Hitting(text: string, matches: string -> bool, beyond: int -> string): int -> bool {
    l => 1 <= l <= |Lines(text)| && matches(Shown(Lines(text)[l - 1]).Seen(beyond(l)))
  }

  lemma HitIs(text: string, matches: string -> bool, beyond: int -> string, l: int, r: Record)
    requires 1 <= l <= |Lines(text)|
    ensures r == Shown(Lines(text)[l - 1]) ==> Hitting(text, matches, beyond)(l) == matches(r.Seen(beyond(l)))
  {
  }

  /** Whether line l hits does not depend on what lies behind the record, whatever the pattern. */
  ghost predicate Alone(text: string, l: int) {
    forall m: string -> bool, b: int -> string, c: int -> string :: SameHit(text, l, m, b, c)
  }

  predicate SameHit(text: string, l: int, m: string -> bool, b: int -> string, c: int -> string) {
    Hitting(text, m, b)(l) == Hitting(text, m, c)(l)
  }

  function Behind(s: string): int -> string { _ => s }

  function EndsWith(c: char): string -> bool { t => t != "" && t[|t| - 1] == c }

  /** It is so for the lines of at most 511 bytes, and for those with a NUL among the bytes that are stored. */
  lemma HitsByLineAlone(text: string, l: int)
    requires 1 <= l <= |Lines(text)|
    ensures Alone(text, l) <==> |Lines(text)[l - 1]| <= 511 || '\0' in Lines(text)[l - 1][..512]
  {
    var line := Lines(text)[l - 1];
    if |line| <= LIMIT || '\0' in line[..LIMIT + 1] {
      forall m, b, c ensures SameHit(text, l, m, b, c) { StoredAlone(text, l, m, b, c); }
    } else {
      BehindMatters(text, l, 'x', 'x');
      BehindMatters(text, l, 'y', 'x');
      assert !SameHit(text, l, EndsWith('x'), Behind(['x']), Behind(['y']));
    }
  }

  lemma StoredAlone(text: string, l: int, m: string -> bool, b: int -> string, c: int -> string)
    requires 1 <= l <= |Lines(text)|
    requires |Lines(text)[l - 1]| <= LIMIT || '\0' in Lines(text)[l - 1][..LIMIT + 1]
    ensures SameHit(text, l, m, b, c)
  {
    SeenAlone(Lines(text)[l - 1], b(l), c(l));
  }

  lemma SeenAlone(line: string, b: string, c: string)
    requires |line| <= LIMIT || '\0' in line[..LIMIT + 1]
    ensures Shown(line).Seen(b) == Shown(line).Seen(c)
  {
    if |line| > LIMIT {
      NulWithin(line[..LIMIT + 1], b);
      NulWithin(line[..LIMIT + 1], c);
    }
  }

  /** A line of 512 bytes or more: its first 512, and what lies behind them, are matched. */
  lemma LongLineSeen(text: string, l: int, m: string -> bool, beyond: string, all: string)
    requires 1 <= l <= |Lines(text)| && |Lines(text)[l - 1]| > 511
    requires all == Lines(text)[l - 1][..512] + beyond && '\0' !in all
    ensures Hitting(text, m, Behind(beyond))(l) == m(all)
  {
    NoNul(all);
    SeenOf(Lines(text)[l - 1], beyond);
    HitIs(text, m, Behind(beyond), l, Shown(Lines(text)[l - 1]));
  }

  /** A shorter one is matched as it is. */
  lemma ShortLineSeen(text: string, l: int, m: string -> bool, beyond: string)
    requires 1 <= l <= |Lines(text)| && |Lines(text)[l - 1]| <= 511 && '\0' !in Lines(text)[l - 1]
    ensures Hitting(text, m, Behind(beyond))(l) == m(Lines(text)[l - 1])
  {
    NoNul(Lines(text)[l - 1]);
    SeenOf(Lines(text)[l - 1], beyond);
    HitIs(text, m, Behind(beyond), l, Shown(Lines(text)[l - 1]));
  }

  lemma SeenOf(line: string, beyond: string)
    ensures Shown(line).Seen(beyond) == UpToNul(if |line| <= 511 then line else line[..512] + beyond)
  {
  }

  // With one more byte behind it, an unterminated record ends with that byte.
  lemma BehindMatters(text: string, l: int, c: char, d: char)
    requires 1 <= l <= |Lines(text)| && |Lines(text)[l - 1]| > LIMIT && c != '\0'
    requires '\0' !in Lines(text)[l - 1][..LIMIT + 1]
    ensures Hitting(text, EndsWith(d), Behind([c]))(l) <==> c == d
  {
    var all := Lines(text)[l - 1][..LIMIT + 1] + [c];
    NoNul(all);
    assert all[|all| - 1] == c;
    assert Shown(Lines(text)[l - 1]).Seen(Behind([c])(l)) == all;
  }

  lemma {:induction false} NulWithin(s: string, t: string)
    requires '\0' in s
    ensures UpToNul(s + t) == UpToNul(s)
  {
    if s[0] != '\0' {
      assert (s + t)[1..] == s[1..] + t;
      NulWithin(s[1..], t);
    }
  }

  /** A failing input: a line of 512 times `a`, and a pattern for lines that end with `a`. It is found or not as the
    * memory behind the record has it. */
  lemma LongLineMissed(line: string)
    requires |line| == 512 && forall i :: 0 <= i < |line| ==> line[i] == 'a'
    ensures Lines(line + "\n") == [line] && EndsWith('a')(line)
    ensures Hitting(line + "\n", EndsWith('a'), Behind(['a']))(1)
    ensures !Hitting(line + "\n", EndsWith('a'), Behind(['b']))(1)
  {
    OneLine(line);
    assert line[..LIMIT + 1] == line;
    BehindMatters(line + "\n", 1, 'a', 'a');
    BehindMatters(line + "\n", 1, 'b', 'a');
  }

  // A text of one line.
  lemma OneLine(line: string)
    requires '\n' !in line && line != ""
    ensures Lines(line + "\n") == [line]
  {
    TextUpToNewline(line + "\n", 0, |line|);
    assert (line + "\n")[0..|line|] == line;
    assert LinesFrom(line + "\n", |line| + 1) == [];
  }

  /** What a search that looks at some lines in order finds: the first that hits, or -1. */
  function Found(hit: int -> bool, order: seq<int>): int {
    if order == [] then -1 else if hit(order[0]) then order[0] else Found(hit, order[1..])
  }

  /** It is the line at some place of the order before which none matches, or none matches at all. */
  lemma {:induction false} FoundIsFirst(hit: int -> bool, order: seq<int>) returns (k: nat)
    ensures k <= |order| && forall j :: 0 <= j < k ==> !hit(order[j])
    ensures if k == |order| then Found(hit, order) == -1
      else hit(order[k]) && Found(hit, order) == order[k]
  {
    if order == [] || hit(order[0]) { return 0; }
    k := FoundIsFirst(hit, order[1..]);
    assert forall j :: 0 < j < |order| ==> order[j] == order[1..][j - 1];
    k := k + 1;
  }

  lemma {:induction false} SweepBetween(from: int, stop: int, incr: int)
    requires (incr == 1 && from <= stop) || (incr == -1 && from >= stop)
    ensures forall x :: x in Sweep(from, stop, incr) ==> if incr == 1 then from <= x < stop else stop < x <= from
    decreases if from <= stop then stop - from else from - stop
  {
    if from != stop { SweepBetween(from + incr, stop, incr); }
  }

  lemma FoundCons(hit: int -> bool, x: int, rest: seq<int>)
    ensures Found(hit, [x] + rest) == if hit(x) then x else Found(hit, rest)
  {
    assert ([x] + rest)[1..] == rest;
  }

  lemma {:induction false} FoundAppend(hit: int -> bool, a: seq<int>, b: seq<int>)
    requires -1 !in a
    ensures Found(hit, a + b) ==
      if Found(hit, a) != -1 then Found(hit, a) else Found(hit, b)
  {
    if a == [] {
      assert a + b == b;
    } else {
      assert (a + b)[1..] == a[1..] + b;
      FoundAppend(hit, a[1..], b);
    }
  }

  // None of the lines from one to another, the last excluded, matches.
  ghost predicate NoneBefore(hit: int -> bool, from: int, i: int, incr: int) {
    forall x :: (incr == 1 && from <= x < i) || (incr == -1 && i < x <= from) ==> !hit(x)
  }

  ghost predicate FirstHit(hit: int -> bool, from: int, stop: int, incr: int, r: int) {
    if r == -1 then NoneBefore(hit, from, stop, incr)
    else
      && hit(r) && NoneBefore(hit, from, r, incr)
      && ((incr == 1 && from <= r < stop) || (incr == -1 && stop < r <= from))
  }

  lemma NoneBeforeNext(hit: int -> bool, from: int, i: int, incr: int)
    requires (incr == 1 && from <= i) || (incr == -1 && from >= i)
    ensures NoneBefore(hit, from, i, incr) && !hit(i) ==> NoneBefore(hit, from, i + incr, incr)
  {
  }

  lemma {:induction false} FirstHitFound(hit: int -> bool, from: int, stop: int, incr: int, r: int)
    requires (incr == 1 && from <= stop) || (incr == -1 && from >= stop)
    requires FirstHit(hit, from, stop, incr, r) && from >= 0 && stop >= 0
    ensures r == Found(hit, Sweep(from, stop, incr))
    decreases if from <= stop then stop - from else from - stop
  {
    if from != stop {
      FoundCons(hit, from, Sweep(from + incr, stop, incr));
      if r != from { FirstHitFound(hit, from + incr, stop, incr, r); }
    }
  }

  // The two loops of hunt, the second of which runs only when the first finds nothing, and only around the end.
  lemma FirstHitsFound(hit: int -> bool, start: int, down: bool, wrap: bool, dollar: nat, r1: int, r: int)
    requires Startable(start, down, dollar)
    requires FirstHit(hit, if down then start + 1 else start - 1, if down then dollar + 1 else 0,
                      if down then 1 else -1, r1)
    requires if r1 != -1 || !wrap then r == r1
      else FirstHit(hit, if down then 1 else dollar, if down then start + 1 else start - 1, if down then 1 else -1, r)
    ensures r == Found(hit, Order(start, down, wrap, dollar))
  {
    var incr := if down then 1 else -1;
    var start1, stop1 := start + incr, if down then dollar + 1 else 0;
    var start2 := if down then 1 else dollar;
    SweepBetween(start1, stop1, incr);
    FirstHitFound(hit, start1, stop1, incr, r1);
    FoundAppend(hit, Sweep(start1, stop1, incr), if wrap then Sweep(start2, start1, incr) else []);
    if r1 == -1 && wrap { FirstHitFound(hit, start2, start1, incr, r); }
  }

  class Scanner {
    var text: string
    var filepos: nat
    var lincnt: seq<int>
    const segblk: array<int>
    const segoff: array<int>
    var dot: nat
    var dollar: nat
    var prevblk: int
    var prevoff: int
    var lprev: int
    var saveblk: int
    const savetxt: array<char>

    ghost predicate Shape()
      reads this
    {
      segblk.Length == 512 && segoff.Length == 512 && savetxt.Length == BLOCK && segblk != segoff
    }

    /** The tables describe the whole of the open file. */
    ghost predicate Described()
      reads this, segblk, segoff
    {
      || (dollar == 0 == |Starts(text)| && Shape() && |lincnt| > 0)
      || (dollar > 0 && Shape() && dollar == |Starts(text)| <= MOST_LINES && dollar < |lincnt|
          && Indexed(Starts(text), lincnt, segblk[..], segoff[..]) && lincnt[dollar] == Short(Extent(text, dollar)))
    }

    /** The cursor is on one of the lines of the open file. */
    ghost predicate Open()
      reads this, segblk, segoff
    {
      Described() && 1 <= lprev && (dollar > 0 ==> lprev <= dollar)
    }

    /** The cursor is at the beginning of the line it is said to be on. */
    ghost predicate OnLine()
      reads this
    {
      text != [] ==> 1 <= lprev <= |Starts(text)| && prevblk * BLOCK + prevoff == Starts(text)[lprev - 1]
    }

    /** The buffer holds the block it is said to hold, and the file stands just after it. */
    ghost predicate Buffered()
      reads this, savetxt
    {
      saveblk >= -1 &&
      (0 <= saveblk * BLOCK < |text| ==>
        Holds(savetxt[..], text, saveblk) && filepos == Min(|text|, (saveblk + 1) * BLOCK))
    }

    ghost predicate Sound()
      reads this, savetxt
    {
      OnLine() && Buffered()
    }

    constructor ()
      ensures Shape() && fresh(segblk) && fresh(segoff) && fresh(savetxt)
      ensures lprev == 1 && prevblk == 0 && prevoff == 0 && saveblk == -1
      ensures savetxt[..] == seq(BLOCK, _ => '\0')
    {
      text, filepos, lincnt := [], 0, [];
      segblk := new int[512](_ => 0);
      segoff := new int[512](_ => 0);
      savetxt := new char[BLOCK](_ => '\0');
      dot, dollar := 0, 0;
      prevblk, prevoff, lprev, saveblk := 0, 0, 1, -1;
    }

    // What has been read so far is indexed: pos bytes of the text, in which l lines begin.
    ghost predicate IndexedUpTo(pos: nat, l: nat, s: nat, cnt: nat, newline: bool)
      reads this, segblk, segoff
    {
      || (l == 0 && pos == 0 && newline && cnt == 0 && Progress(0, 0, s))
      || (l > 0 && 0 < pos <= |text| && Progress(pos, l, s)
          && newline == (text[pos - 1] == '\n') && cnt == pos - StartsTo(text, pos)[l - 1])
    }

    ghost predicate Progress(pos: nat, l: nat, s: nat)
      reads this, segblk, segoff
    {
      && Shape() && pos <= |text| && s == Segments(l)
      && l == |StartsTo(text, pos)| && |lincnt| == Granted(l) && l <= MOST_LINES
      && Indexed(StartsTo(text, pos), lincnt, segblk[..], segoff[..])
    }

    // Enters the line beginning at pos, the byte off of block blk, as the line with index l.
    method BeginLine(ghost pos: nat, blk: nat, off: nat, l: nat, s: nat, cnt: nat, memory: nat, ghost begun: seq<nat>)
      returns (ok: bool)
      requires Shape() && Indexed(begun, lincnt, segblk[..], segoff[..])
      requires l == |begun| <= MOST_LINES && |lincnt| == Granted(l) <= memory
      requires if l == 0 then cnt == 0 else begun[l - 1] < pos && cnt == pos - begun[l - 1]
      requires off < BLOCK && pos == blk * BLOCK + off && s == Segments(l)
      modifies this`lincnt, segblk, segoff
      ensures ok == (Granted(l + 1) <= memory)
      ensures ok ==> |lincnt| == Granted(l + 1) && Indexed(begun + [pos], lincnt, segblk[..], segoff[..])
    {
      if l > 0 && l % 4096 == 0 {
        if |lincnt| + 4096 > memory { return false; }
        lincnt := lincnt + seq(4096, _ => 0);
      }
      lincnt := lincnt[l := Short(cnt)];
      if l % 64 == 0 {
        segblk[s] := blk;
        segoff[s] := off;
      }
      IndexedSnoc(begun, pos, old(lincnt), lincnt, old(segblk[..]), segblk[..], old(segoff[..]), segoff[..]);
      return true;
    }

    // The same, counting lines and segments.
    method OpenLine(ghost pos: nat, blk: nat, off: nat, l0: nat, s0: nat, cnt: nat, memory: nat)
      returns (ok: bool, l: nat, s: nat)
      requires off < BLOCK && pos == blk * BLOCK + off < |text| && |lincnt| <= memory
      requires IndexedUpTo(pos, l0, s0, cnt, true)
      modifies this`lincnt, segblk, segoff
      ensures l == l0 + 1 == |StartsTo(text, pos + 1)|
      ensures ok == (Granted(l) <= memory)
      ensures !ok || l > MOST_LINES || (Progress(pos + 1, l, s) && |lincnt| <= memory)
    {
      StartsOrdered(text, pos);
      StartsStep(text, pos);
      ok := BeginLine(pos, blk, off, l0, s0, cnt, memory, StartsTo(text, pos));
      SegmentsStep(l0);
      s := if l0 % 64 == 0 then s0 + 1 else s0;
      l := l0 + 1;
    }

    // Takes one more byte of the file: the byte off of block blk.
    method TakeByte(ghost pos: nat, c: char, blk: nat, off: nat, l0: nat, s0: nat, cnt0: nat, newline0: bool,
      memory: nat)
      returns (ok: bool, l: nat, s: nat, cnt: nat, newline: bool)
      requires off < BLOCK && pos == blk * BLOCK + off < |text| && c == text[pos]
      requires IndexedUpTo(pos, l0, s0, cnt0, newline0) && |lincnt| <= memory
      modifies this`lincnt, segblk, segoff
      ensures l == |StartsTo(text, pos + 1)|
      ensures ok == (Granted(l) <= memory && l <= MOST_LINES)
      ensures ok ==> IndexedUpTo(pos + 1, l, s, cnt, newline) && |lincnt| <= memory
    {
      l, s, cnt, newline := l0, s0, cnt0, newline0;
      StartsOrdered(text, pos);
      StartsStep(text, pos);
      if newline {
        newline := false;
        ok, l, s := OpenLine(pos, blk, off, l, s, cnt, memory);
        cnt := 0;
        if !ok || l > MOST_LINES { return false, l, s, cnt, newline; }
      }
      if c == '\n' { newline := true; }
      cnt := cnt + 1;
      ok := true;
    }

    // Takes the n bytes of block blk, the bytes before it being indexed.
    method TakeBlock(block: seq<char>, blk: nat, l0: nat, s0: nat, cnt0: nat, newline0: bool, memory: nat)
      returns (ok: bool, l: nat, s: nat, cnt: nat, newline: bool)
      requires blk * BLOCK + |block| <= |text| && |block| <= BLOCK
      requires block == text[blk * BLOCK..blk * BLOCK + |block|]
      requires IndexedUpTo(blk * BLOCK, l0, s0, cnt0, newline0) && |lincnt| <= memory
      modifies this`lincnt, segblk, segoff
      ensures ok ==> IndexedUpTo(blk * BLOCK + |block|, l, s, cnt, newline) && |lincnt| <= memory
      ensures !ok ==> l <= |Starts(text)| && (Granted(l) > memory || l > MOST_LINES)
    {
      ok, l, s, cnt, newline := true, l0, s0, cnt0, newline0;
      var off := 0;
      ghost var pos := blk * BLOCK;
      while off < |block|
        invariant 0 <= off <= |block| && pos == blk * BLOCK + off
        invariant IndexedUpTo(pos, l, s, cnt, newline) && |lincnt| <= memory
      {
        ok, l, s, cnt, newline := TakeByte(pos, block[off], blk, off, l, s, cnt, newline, memory);
        if !ok {
          StartsGrow(text, pos + 1, |text|);
          return;
        }
        off, pos := off + 1, pos + 1;
      }
      ok := true;
    }

    // Reads block blk and takes its bytes.
    method IndexBlock(blk: nat, l0: nat, s0: nat, cnt0: nat, newline0: bool, memory: nat)
      returns (ok: bool, l: nat, s: nat, cnt: nat, newline: bool)
      requires filepos == blk * BLOCK < |text|
      requires IndexedUpTo(filepos, l0, s0, cnt0, newline0) && |lincnt| <= memory
      modifies this`filepos, this`lincnt, segblk, segoff
      ensures filepos == Min(|text|, (blk + 1) * BLOCK)
      ensures ok ==> IndexedUpTo(filepos, l, s, cnt, newline) && |lincnt| <= memory
      ensures !ok ==> l <= |Starts(text)| && (Granted(l) > memory || l > MOST_LINES)
    {
      var n := Min(BLOCK, |text| - filepos);
      var block := text[filepos..filepos + n];
      filepos := filepos + n;
      ok, l, s, cnt, newline := TakeBlock(block, blk, l0, s0, cnt0, newline0, memory);
    }

    /** Reads the whole file once and indexes its lines (bigopen). */
    method BigOpen(file: string, memory: nat) returns (ok: bool)
      requires Shape()
      modifies this`text, this`filepos, this`lincnt, this`dot, this`dollar, segblk, segoff
      ensures Shape() && text == file
      ensures ok <==> |Lines(file)| <= MOST_LINES && Room(|Lines(file)|) <= memory
      ensures ok ==> Described() && dot == dollar == |Lines(file)|
    {
      text, filepos, lincnt := file, 0, [];
      LineCount(file);
      if memory < 4096 { return false; }
      lincnt := seq(4096, _ => 0);
      var blk, l, s, cnt, newline := -1, 0, 0, 0, true;
      while filepos < |text|
        invariant text == file && filepos <= |text| && blk >= -1
        invariant filepos == (blk + 1) * BLOCK || filepos == |text|
        invariant IndexedUpTo(filepos, l, s, cnt, newline) && |lincnt| <= memory
      {
        blk := blk + 1;
        ok, l, s, cnt, newline := IndexBlock(blk, l, s, cnt, newline, memory);
        if !ok {
          RoomGrows(l, |Lines(file)|);
          return false;
        }
      }
      ok := Finish(l, s, cnt, newline, memory);
    }

    // Enters the length of the last line, l, when the whole file has been read.
    method Finish(l: nat, ghost s: nat, cnt: nat, ghost newline: bool, memory: nat) returns (ok: bool)
      requires IndexedUpTo(|text|, l, s, cnt, newline) && |lincnt| <= memory
      modifies this`lincnt, this`dot, this`dollar
      ensures ok <==> Room(l) <= memory
      ensures ok ==> Described() && dot == dollar == l
    {
      if l % 4096 == 0 {
        if |lincnt| + 2 > memory { return false; }
        lincnt := lincnt + seq(2, _ => 0);
      }
      lincnt := lincnt[l := Short(cnt)];
      dot, dollar := l, l;
      return true;
    }

    // The sum of the lengths kept for lines lo to l, l excluded, falls short of the distance
    // between them unless every one of those lengths was kept whole.
    ghost predicate Advanced(lo: nat, l: nat, sum: int)
      reads this
      requires 1 <= lo <= l <= |Starts(text)|
    {
      var from: int, to: int := Starts(text)[lo - 1], Starts(text)[l - 1];
      var way := to - from;
      || (Countable(text, lo, l) && sum == way)
      || (!Countable(text, lo, l) && sum < way)
    }

    lemma AdvancedAhead(lo: nat, l: nat, sum: int)
      requires Open() && 1 <= lo <= l < dollar && Advanced(lo, l, sum)
      ensures Advanced(lo, l + 1, sum + lincnt[l])
    {
      assert Measures(Starts(text), lincnt[l], l);
      CountableEnds(text, lo, l);
    }

    lemma AdvancedBack(lo: nat, l: nat, sum: int)
      requires Open() && 1 <= lo < l <= dollar && Advanced(lo + 1, l, sum)
      ensures Advanced(lo, l, sum + lincnt[lo])
    {
      assert Measures(Starts(text), lincnt[lo], lo);
      CountableEnds(text, lo, l - 1);
    }

    // The two loops by which bigread moves the cursor's offset.
    method Ahead(lo: nat, l: nat)
      requires Open() && 1 <= lo <= l <= dollar
      modifies this`prevoff
      ensures Advanced(lo, l, prevoff - old(prevoff))
    {
      var i := lo;
      while i < l
        invariant lo <= i <= l && Open() && dollar == old(dollar) && Advanced(lo, i, prevoff - old(prevoff))
      {
        AdvancedAhead(lo, i, prevoff - old(prevoff));
        prevoff := prevoff + lincnt[i];
        i := i + 1;
      }
    }

    method Back(lo: nat, l: nat)
      requires Open() && 1 <= lo <= l <= dollar
      modifies this`prevoff
      ensures Advanced(lo, l, old(prevoff) - prevoff)
    {
      var i: int := l - 1;
      while i >= lo
        invariant lo - 1 <= i <= l - 1 && Open() && dollar == old(dollar) && Advanced(i + 1, l, old(prevoff) - prevoff)
      {
        AdvancedBack(i, l, old(prevoff) - prevoff);
        prevoff := prevoff - lincnt[i];
        i := i - 1;
      }
    }

    /** Moves the cursor to line l. It arrives exactly when the lines it passes were all counted whole; a far
      * line is reached from the beginning of its segment, even by a cursor that was lost. */
    method Seek(l: nat)
      requires Open() && 1 <= l <= dollar
      modifies this`prevblk, this`prevoff, this`lprev
      ensures Open() && lprev == l && 0 <= prevoff < BLOCK
      ensures old(OnLine()) || Far(old(lprev), l) ==>
        var (lo, hi) := Walked(old(lprev), l); (OnLine() <==> Countable(text, lo, hi))
    {
      var i := l - lprev;
      if i == 1 {
        AdvancedAhead(lprev, lprev, 0);
        prevoff := prevoff + lincnt[lprev];
      } else if 0 <= i <= 32 {
        Ahead(lprev, l);
      } else if -32 <= i < 0 {
        Back(l, lprev);
      } else {
        i := (l - 1) / 64;
        assert Segment(Starts(text), segblk[..], segoff[..], i);
        prevblk, prevoff := segblk[i], segoff[i];
        Ahead(i * 64 + 1, l);
      }
      Normalise();
      lprev := l;
    }

    // The offset is brought into one block.
    method Normalise()
      modifies this`prevblk, this`prevoff
      ensures prevblk * BLOCK + prevoff == old(prevblk * BLOCK + prevoff) && 0 <= prevoff < BLOCK
    {
      prevblk := prevblk + prevoff / BLOCK;
      prevoff := prevoff % BLOCK;
    }

    // One read(2) of a block: it stops at the end of the file, and leaves the rest of the buffer.
    method ReadBlock()
      requires Shape()
      modifies this`filepos, savetxt
      ensures old(filepos) <= |text| ==> filepos == Min(|text|, old(filepos) + BLOCK)
      ensures forall k :: 0 <= k < BLOCK ==>
        savetxt[k] == if old(filepos) + k < |text| then text[old(filepos) + k] else old(savetxt[k])
    {
      forall k | 0 <= k < BLOCK && filepos + k < |text| {
        savetxt[k] := text[filepos + k];
      }
      if filepos <= |text| { filepos := Min(|text|, filepos + BLOCK); }
    }

    // The buffer shows its block as it is when reading began in block `first` with `saved` in the buffer.
    ghost predicate Shows(saved: seq<char>, first: nat)
      reads this, savetxt
    {
      && |saved| == savetxt.Length == BLOCK && first <= saveblk && first * BLOCK < |text|
      && filepos == Min(|text|, (saveblk + 1) * BLOCK)
      && forall k :: 0 <= k < BLOCK ==> savetxt[k] == Byte(text, saved, first, saveblk * BLOCK + k)
    }

    // The record, of which rec has been stored, will be `whole`; the next byte is the one at b in the buffer.
    ghost predicate Filling(saved: seq<char>, first: nat, rec: string, b: nat, whole: Record)
      reads this, savetxt
    {
      && Shows(saved, first) && |rec| <= LIMIT
      && whole == Filled(text, saved, first, saveblk * BLOCK + b, |rec|).Prepend(rec)
    }

    // Reads on into the next block, where the record goes on.
    method NextBlock(ghost saved: seq<char>, ghost first: nat, ghost rec: string, ghost whole: Record)
      requires Shape()
      modifies this`saveblk, this`filepos, savetxt
      ensures old(Filling(saved, first, rec, BLOCK, whole)) ==> Filling(saved, first, rec, 0, whole)
    {
      ReadBlock();
      saveblk := saveblk + 1;
    }

    lemma FillsOn(saved: seq<char>, first: nat, rec: string, b: nat, whole: Record)
      requires Filling(saved, first, rec, b, whole) && b < BLOCK
      ensures savetxt[b] == '\n' ==> whole == Record(rec, true)
      ensures savetxt[b] != '\n' && |rec| == LIMIT ==> whole == Record(rec + [savetxt[b]], false)
      ensures savetxt[b] != '\n' && |rec| < LIMIT ==> Filling(saved, first, rec + [savetxt[b]], b + 1, whole)
    {
      if savetxt[b] != '\n' && |rec| < LIMIT {
        PrependTwice(Filled(text, saved, first, saveblk * BLOCK + b + 1, |rec| + 1), rec, [savetxt[b]]);
      }
    }

    // The inner loop of bigread: the bytes of the buffer from b on are copied.
    method CopyBlock(rec0: string, b0: nat, ghost saved: seq<char>, ghost first: nat, ghost whole: Record,
      ghost right: bool)
      returns (rec: string, done: bool, ended: bool)
      requires Shape() && |rec0| <= LIMIT && b0 < BLOCK && (right ==> Filling(saved, first, rec0, b0, whole))
      ensures |rec| <= LIMIT + 1 && (done || |rec0| < |rec| <= LIMIT)
      ensures right ==> if done then whole == Record(rec, ended) else Filling(saved, first, rec, BLOCK, whole)
    {
      rec, ended := rec0, false;
      var b := b0;
      while b < BLOCK
        invariant |rec| <= LIMIT && b0 <= b <= BLOCK && |rec| == |rec0| + b - b0
        invariant right ==> Filling(saved, first, rec, b, whole)
      {
        if right { FillsOn(saved, first, rec, b, whole); }
        if savetxt[b] == '\n' { return rec, true, true; }
        rec := rec + [savetxt[b]];
        if |rec| > LIMIT { return rec, true, false; }
        b := b + 1;
      }
      done := false;
    }

    /** Copies what begins at the cursor, block after block. */
    method CopyLine(ghost saved: seq<char>, ghost first: nat, ghost whole: Record) returns (rec: string, ended: bool)
      requires Shape() && 0 <= prevoff < BLOCK
      modifies this`saveblk, this`filepos, savetxt
      ensures |rec| <= LIMIT + 1
      ensures old(Filling(saved, first, [], prevoff, whole)) ==> Shows(saved, first) && Record(rec, ended) == whole
    {
      rec, ended := [], false;
      var b := prevoff;
      ghost var right := Filling(saved, first, rec, b, whole);
      while true
        invariant |rec| <= LIMIT && 0 <= b < BLOCK && (right ==> Filling(saved, first, rec, b, whole))
        decreases LIMIT - |rec|
      {
        var done;
        rec, done, ended := CopyBlock(rec, b, saved, first, whole, right);
        if done { return; }
        NextBlock(saved, first, rec, whole);
        b := 0;
      }
    }

    // Line l can be read: the cursor and buffer are right, and stay so on the way there.
    ghost predicate Readable(l: nat)
      reads this, savetxt
    {
      && (OnLine() || Far(lprev, l)) && Buffered() && l >= 1 && lprev >= 1
      && var (lo, hi) := Walked(lprev, l); Countable(text, lo, hi)
    }

    // Brings the cursor's block into the buffer.
    method Fetch()
      requires Shape() && 0 <= prevoff < BLOCK
      modifies this`saveblk, this`filepos, savetxt
      ensures old(Buffered()) && 0 <= prevblk * BLOCK + prevoff < |text| ==>
                prevblk >= 0 && saveblk == prevblk && Shows(old(savetxt[..]), prevblk)
    {
      if prevblk != saveblk {
        saveblk := prevblk;
        if saveblk >= 0 { filepos := saveblk * BLOCK; }
        ReadBlock();
      }
    }

    lemma ShowsIsBuffered(saved: seq<char>, first: nat)
      requires Shows(saved, first)
      ensures Buffered()
    {
    }

    // Reads what begins at the cursor.
    method ReadHere(ghost p: nat) returns (rec: string, ended: bool)
      requires Shape() && 0 <= prevoff < BLOCK
      modifies this`saveblk, this`filepos, savetxt
      ensures |rec| <= LIMIT + 1
      ensures old(Buffered()) && prevblk * BLOCK + prevoff == p < |text| ==>
                && Buffered() && Shows(old(savetxt[..]), p / BLOCK)
                && Record(rec, ended) == Filled(text, old(savetxt[..]), p / BLOCK, p, 0)
    {
      ghost var saved, right := savetxt[..], Buffered() && prevblk * BLOCK + prevoff == p < |text|;
      Fetch();
      ghost var whole := if right then Filled(text, saved, p / BLOCK, p, 0) else Record([], false);
      assert whole.Prepend([]) == whole;
      rec, ended := CopyLine(saved, p / BLOCK, whole);
      if right { ShowsIsBuffered(saved, p / BLOCK); }
    }

    /** Reads line l into a record (bigread), from wherever earlier calls have left the cursor: what is stored is
      * exactly what the file and the bytes left in the buffer make of it. */
    method BigRead(l: nat) returns (rec: string, ended: bool)
      requires Open() && 1 <= l <= dollar
      modifies this`prevblk, this`prevoff, this`lprev, this`saveblk, this`filepos, savetxt
      ensures Open() && lprev == l && |rec| <= LIMIT + 1
      ensures |Starts(text)| == |Lines(text)| && Starts(text)[l - 1] < |text|
      ensures old(Readable(l)) ==>
                && Sound() && Record(rec, ended) == ReadAs(text, l, old(savetxt[..]))
                && Shows(old(savetxt[..]), Starts(text)[l - 1] / BLOCK)
    {
      ExtentOfLine(text, l);
      Seek(l);
      rec, ended := ReadHere(Starts(text)[l - 1]);
    }

    /** Opens another file (ecomd), or the first one: nothing of the earlier file is left in use. */
    method Reopen(file: string, memory: nat) returns (ok: bool)
      requires Shape()
      modifies this, segblk, segoff
      ensures Shape() && text == file && savetxt[..] == old(savetxt[..])
      ensures ok <==> |Lines(file)| <= MOST_LINES && Room(|Lines(file)|) <= memory
      ensures ok ==> Open() && Sound() && dot == dollar == |Lines(file)| && lprev == 1
    {
      lprev, prevblk, prevoff, saveblk := 1, 0, 0, -1;
      ok := BigOpen(file, memory);
      StartsOrdered(file, |file|);
    }

    // Every line will be read rightly.
    ghost predicate Searchable()
      reads this, savetxt
    {
      Sound() && Plain(text)
    }

    // A search for the lines that hit is on its way.
    ghost predicate Hunting(matches: string -> bool, beyond: int -> string, hit: int -> bool)
      reads this, segblk, segoff
    {
      Open() && hit == Hitting(text, matches, beyond)
    }

    // The lines from one up to i, looked at in order, do not hit.
    ghost predicate Passed(hit: int -> bool, from: int, i: int, incr: int)
      reads this, savetxt
    {
      Searchable() && NoneBefore(hit, from, i, incr)
    }

    // One of hunt's two loops.
    method Look(matches: string -> bool, beyond: int -> string, ghost hit: int -> bool, from: int, stop: int, incr: int)
      returns (r: int)
      requires Hunting(matches, beyond, hit) && ((incr == 1 && from <= stop) || (incr == -1 && from >= stop))
      requires from == stop || (1 <= from <= dollar && 1 <= stop - incr <= dollar)
      modifies this`prevblk, this`prevoff, this`lprev, this`saveblk, this`filepos, savetxt
      ensures Hunting(matches, beyond, hit)
      ensures old(Searchable()) ==> Searchable() && FirstHit(hit, from, stop, incr, r)
    {
      var i := from;
      ghost var right := Searchable();
      while i != stop
        invariant Hunting(matches, beyond, hit) && (right ==> Passed(hit, from, i, incr))
        invariant (incr == 1 && from <= i <= stop) || (incr == -1 && from >= i >= stop)
        decreases if incr == 1 then stop - i else i - stop
      {
        var found := Try(matches, beyond, hit, i, from, stop, incr);
        if found { return i; }
        i := i + incr;
      }
      r := -1;
    }

    // Reads line l, the next to be looked at, and matches the record, in front of what lies behind it.
    method Try(matches: string -> bool, beyond: int -> string, ghost hit: int -> bool, l: nat, ghost from: int,
      ghost stop: int, ghost incr: int)
      returns (found: bool)
      requires Hunting(matches, beyond, hit) && 1 <= l <= dollar
      requires (incr == 1 && from <= l < stop) || (incr == -1 && from >= l > stop)
      modifies this`prevblk, this`prevoff, this`lprev, this`saveblk, this`filepos, savetxt
      ensures Hunting(matches, beyond, hit)
      ensures old(Passed(hit, from, l, incr)) ==>
                if found then Searchable() && FirstHit(hit, from, stop, incr, l) else Passed(hit, from, l + incr, incr)
    {
      found := MatchLine(matches, beyond, l);
      NoneBeforeNext(hit, from, l, incr);
    }

    method MatchLine(matches: string -> bool, beyond: int -> string, l: nat) returns (found: bool)
      requires Open() && 1 <= l <= dollar
      modifies this`prevblk, this`prevoff, this`lprev, this`saveblk, this`filepos, savetxt
      ensures Open()
      ensures old(Searchable()) ==> Searchable() && found == Hitting(text, matches, beyond)(l)
    {
      var rec, ended := ReadPlain(l);
      HitIs(text, matches, beyond, l, Record(rec, ended));
      found := matches(Record(rec, ended).Seen(beyond(l)));
    }

    // In a plain file the record is what is shown of the line.
    method ReadPlain(l: nat) returns (rec: string, ended: bool)
      requires Open() && 1 <= l <= dollar
      modifies this`prevblk, this`prevoff, this`lprev, this`saveblk, this`filepos, savetxt
      ensures Open() && dollar == |Lines(text)|
      ensures old(Searchable()) ==> Searchable() && Record(rec, ended) == Shown(Lines(text)[l - 1])
    {
      StartsAreLines(text);
      if Searchable() {
        PlainIsReadable(l);
        PlainReadAs(text, l, savetxt[..]);
      }
      rec, ended := BigRead(l);
    }

    lemma PlainIsReadable(l: nat)
      requires Open() && Searchable() && 1 <= l <= dollar
      ensures Readable(l)
    {
      var (lo, hi) := Walked(lprev, l);
      PlainCountable(text, lo, hi);
    }

    /** Looks for a matching line from start on, down or up the file and possibly around its end (hunt). */
    method Hunt(matches: string -> bool, beyond: int -> string, start: int, down: bool, wrap: bool) returns (r: int)
      requires Open() && Startable(start, down, dollar)
      modifies this`prevblk, this`prevoff, this`lprev, this`saveblk, this`filepos, savetxt
      ensures Open()
      ensures old(Searchable()) ==>
                Searchable() && r == Found(Hitting(text, matches, beyond), Order(start, down, wrap, dollar))
    {
      var start1, stop1, start2, incr;
      if down { start1, stop1, start2, incr := start + 1, dollar + 1, 1, 1; }
      else { start1, stop1, start2, incr := start - 1, 0, dollar, -1; }
      ghost var hit := Hitting(text, matches, beyond);
      r := Look(matches, beyond, hit, start1, stop1, incr);
      ghost var r1 := r;
      if r != -1 || !wrap {
        if FirstHit(hit, start1, stop1, incr, r1) { FirstHitsFound(hit, start, down, wrap, dollar, r1, r); }
        return;
      }
      r := Look(matches, beyond, hit, start2, start1, incr);
      if FirstHit(hit, start1, stop1, incr, r1) && FirstHit(hit, start2, start1, incr, r) {
        FirstHitsFound(hit, start, down, wrap, dollar, r1, r);
      }
    }

    // Reads a line that no line too long for its cell precedes.
    method ReadNear(l: nat) returns (rec: string, ended: bool)
      requires Open() && Sound() && 1 <= l <= dollar && lprev == 1
      modifies this`prevblk, this`prevoff, this`lprev, this`saveblk, this`filepos, savetxt
      ensures l <= |Starts(text)|
      ensures Countable(text, 1, l) ==> Record(rec, ended) == ReadAs(text, l, old(savetxt[..]))
    {
      if Countable(text, 1, l) {
        var (lo, hi) := Walked(1, l);
        assert Countable(text, lo, hi);
      }
      rec, ended := BigRead(l);
    }
  }

  /** A run from the start of the program: a file is opened and its last line read. */
  method ReadLast(file: string, memory: nat) returns (ok: bool, rec: string, ended: bool)
    requires file != []
    ensures ok <==> |Lines(file)| <= MOST_LINES && Room(|Lines(file)|) <= memory
    ensures |Starts(file)| > 0
    ensures ok && Countable(file, 1, |Starts(file)|) ==>
              Record(rec, ended) == ReadAs(file, |Starts(file)|, seq(BLOCK, _ => '\0'))
  {
    StartsAreLines(file);
    StartsOrdered(file, |file|);
    var s := new Scanner();
    rec, ended := [], false;
    ok := s.Reopen(file, memory);
    if ok {
      rec, ended := s.ReadNear(s.dollar);
    }
  }
}
