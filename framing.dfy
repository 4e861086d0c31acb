/**
 * How the client cuts the server's byte stream into responses: the status line
 * reader (readResponseLine) and the body reader (readData), as functions of
 * what is left to read.
 */
module Framing {
  import opened Outcomes
  import opened JavaNumbers
  import opened JavaStrings

  const CR: byte := 13
  const LF: byte := 10
  const CRLF: string := "\r\n"

  /** The character (char) -1 gives: what the line reader appends for a read at the end of the stream. */
  const EndOfStream: char := '\U{FFFF}'

  /** The message of the IOException readData raises when the stream ends inside a body. */
  const PREMATURE_END: string := "Premature end-of-line when reading job data."

  /** The number of bytes the transport hands to one bulk read, at most. */
  type Burst = n: nat | n >= 1 witness 1

  /**
   * What the client has yet to read from the server: the bytes, and the sizes
   * in which the transport delivers them to successive bulk reads (once the
   * list is used up, a bulk read gets everything it asks for that is there).
   */
  datatype Stream = Stream(incoming: seq<byte>, bursts: seq<Burst>)

  function Min(a: nat, b: nat): nat { if a <= b then a else b }

  // ---------------------------------------------------------------- the status line

  /**
   * The byte at i ends a line: it is a line feed, or the byte before it is a
   * carriage return. The first byte read has no byte before it (the reader
   * starts with a space as its previous character).
   */
  predicate StopsAt(s: seq<byte>, i: nat)
    requires i < |s|
  {
    s[i] == LF || (i > 0 && s[i - 1] == CR)
  }

  /**
   * The read at position i ends the line. Past the last byte a read returns
   * -1, which the reader appends as the character 0xFFFF: that is no line
   * feed, so the read at |s| ends the line only when the last byte is a
   * carriage return, and no read after it ever does.
   */
  predicate EndsAt(s: seq<byte>, i: nat)
    requires i <= |s|
  {
    if i < |s| then StopsAt(s, i) else i > 0 && s[i - 1] == CR
  }

  /** Some read ends a line, so reading a line terminates. */
  predicate HasLineEnd(s: seq<byte>)
  {
    exists i :: 0 <= i <= |s| && EndsAt(s, i)
  }

  /** The first read at or after i that ends a line. */
  function StopFrom(s: seq<byte>, i: nat): (r: nat)
    requires i <= |s| && exists j :: i <= j <= |s| && EndsAt(s, j)
    ensures i <= r <= |s| && EndsAt(s, r)
    ensures forall j :: i <= j < r ==> !StopsAt(s, j)
    decreases |s| - i
  {
    if EndsAt(s, i) then i else StopFrom(s, i + 1)
  }

  /** The position of the last read of the line reader: |s| when it reads past the end. */
  function LineEnd(s: seq<byte>): (r: nat)
    requires HasLineEnd(s)
    ensures r <= |s| && EndsAt(s, r)
    ensures forall j :: 0 <= j < r ==> !StopsAt(s, j)
  {
    StopFrom(s, 0)
  }

  /**
   * The tokens of a consumed line: the line without its last two characters,
   * split on single spaces. A line of one byte is a StringIndexOutOfBoundsException.
   */
  function Tokenize(line: seq<byte>): (r: Outcome<seq<string>>)
    ensures r.Fail? <==> |line| < 2
    ensures r.Fail? ==> r == Fail(Runtime)
    ensures r.Ok? ==> forall k, j :: 0 <= k < |r.value| && 0 <= j < |r.value[k]| ==> r.value[k][j] != ' '
  {
    if |line| < 2 then Fail(Runtime)
    else
      var ws := Split(Text(line[..|line| - 2]), " ");
      SplitPieces(Text(line[..|line| - 2]), " ");
      PiecesWithout(ws, ' ');
      Ok(ws)
  }

  /**
   * readResponseLine: the tokens of the next line and the stream after it.
   * The reader consumes exactly the bytes up to and including the first one
   * that ends a line, or all of them when the stream ends right after a
   * carriage return, and fails only when the first byte is a line feed.
   */
  function ReadLine(s: Stream): (r: (Outcome<seq<string>>, Stream))
    requires HasLineEnd(s.incoming)
    ensures r.1.bursts == s.bursts
    ensures var n := |s.incoming| - |r.1.incoming|;
      0 < n <= |s.incoming| && r.1.incoming == s.incoming[n..] &&
      (StopsAt(s.incoming, n - 1) || (n == |s.incoming| && s.incoming[n - 1] == CR)) &&
      forall j :: 0 <= j < n - 1 ==> !StopsAt(s.incoming, j)
    ensures r.0.Fail? <==> s.incoming[0] == LF
    ensures r.0.Fail? ==> r.0 == Fail(Runtime)
  {
    var e := LineEnd(s.incoming);
    assert s.incoming[0] == LF <==> e == 0 by {
      if e > 0 { assert !StopsAt(s.incoming, 0); }
    }
    if e < |s.incoming| then
      assert |s.incoming| - |s.incoming[e + 1..]| == e + 1;
      (Tokenize(s.incoming[..e + 1]), s.(incoming := s.incoming[e + 1..]))
    else
      // the line is the bytes read, then 0xFFFF: dropping two characters drops it and the carriage return
      (Ok(Split(Text(s.incoming[..e - 1]), " ")), s.(incoming := []))
  }

  /**
   * The test of the reader's loop after the read at i, with the character
   * read before it and the one just read: it stops exactly when that read
   * ends the line.
   */
  lemma StopTest(s: seq<byte>, i: nat, prev: char, cur: char)
    requires i <= |s|
    requires prev == if i > 0 then s[i - 1] as int as char else ' '
    requires cur == if i < |s| then s[i] as int as char else EndOfStream
    ensures EndsAt(s, i) <==> (prev == '\r' || cur == '\n')
  {
  }

  /**
   * The characters the reader's loop has appended when it stops, the bytes
   * read and then 0xFFFF for a read past the end, give the line reader's result.
   */
  lemma LineOfBuffer(s: Stream, buf: string)
    requires HasLineEnd(s.incoming)
    requires |buf| == LineEnd(s.incoming) + 1
    requires |buf| <= |s.incoming| ==> buf == Text(s.incoming[..|buf|])
    requires |buf| > |s.incoming| ==> buf == Text(s.incoming) + [EndOfStream]
    ensures ReadLine(s) == (if |buf| < 2 then Fail(Runtime) else Ok(Split(buf[..|buf| - 2], " ")),
                            s.(incoming := s.incoming[Min(|buf|, |s.incoming|)..]))
  {
    var l := s.incoming;
    if |buf| <= |l| {
      if |buf| >= 2 {
        assert buf[..|buf| - 2] == Text(l[..|buf|][..|buf| - 2]);
      }
    } else {
      assert buf[..|buf| - 2] == Text(l[..|l| - 1]);
    }
  }

  /** A character that may appear inside a well-formed status line. */
  predicate PlainChar(c: char) { c as int < 0x100 && c != ' ' && c != '\r' && c != '\n' }

  /**
   * Words a server can send as one status line: at least one, the last not
   * empty, none holding a space or a line break, all one byte per character.
   */
  predicate WellFormedWords(ws: seq<string>)
  {
    |ws| > 0 && ws[|ws| - 1] != "" &&
    forall k, i :: 0 <= k < |ws| && 0 <= i < |ws[k]| ==> PlainChar(ws[k][i])
  }

  /** The bytes of a status line made of the words ws: the words, single spaces, CR LF. */
  function StatusLine(ws: seq<string>): (r: seq<byte>)
  {
    Bytes(Join(ws, " ") + CRLF)
  }

  /** A joined line of words holds no line break and only one-byte characters. */
  lemma {:induction false} JoinChars(ws: seq<string>)
    requires forall k, i :: 0 <= k < |ws| && 0 <= i < |ws[k]| ==> PlainChar(ws[k][i])
    ensures forall i :: 0 <= i < |Join(ws, " ")| ==> Join(ws, " ")[i] as int < 0x100 && !IsBreak(Join(ws, " ")[i])
  {
    if |ws| > 1 {
      JoinChars(ws[1..]);
      var t := Join(ws, " ");
      assert t == ws[0] + " " + Join(ws[1..], " ");
      forall i | 0 <= i < |t| ensures t[i] as int < 0x100 && !IsBreak(t[i]) {
        if i > |ws[0]| { assert t[i] == Join(ws[1..], " ")[i - |ws[0]| - 1]; }
      }
    }
  }

  /**
   * The line reader gives back exactly the words of a well-formed status line
   * and leaves the stream at the byte after its CR LF, whatever follows.
   */
  lemma LineRoundTrip(ws: seq<string>, rest: seq<byte>, bursts: seq<Burst>)
    requires WellFormedWords(ws)
    ensures HasLineEnd(StatusLine(ws) + rest)
    ensures ReadLine(Stream(StatusLine(ws) + rest, bursts)) == (Ok(ws), Stream(rest, bursts))
  {
    var t := Join(ws, " ");
    var m := |t|;
    var l := StatusLine(ws) + rest;
    JoinChars(ws);
    BytesAppend(t, CRLF);
    assert l == Bytes(t) + [CR, LF] + rest;
    assert l[m] == CR && l[m + 1] == LF;
    assert EndsAt(l, m + 1);
    forall j | 0 <= j <= m ensures !EndsAt(l, j) {
      if j < m { assert l[j] as int == t[j] as int; }
      if j > 0 { assert l[j - 1] as int == t[j - 1] as int; }
    }
    assert LineEnd(l) == m + 1;
    assert l[..m + 2][..m] == Bytes(t);
    TextOfBytes(t);
    SplitJoin(ws, ' ');
    assert l[m + 2..] == rest;
  }

  /** "WATCHING 10\r\n" reads as the tokens ["WATCHING", "10"]. */
  lemma WatchingExample(rest: seq<byte>)
    ensures HasLineEnd(Bytes("WATCHING 10\r\n") + rest)
    ensures ReadLine(Stream(Bytes("WATCHING 10\r\n") + rest, [])).0 == Ok(["WATCHING", "10"])
  {
    assert Join(["WATCHING", "10"], " ") + CRLF == "WATCHING 10\r\n";
    LineRoundTrip(["WATCHING", "10"], rest, []);
  }

  /**
   * A line ended by a bare line feed also ends the read, and since the reader
   * drops two characters regardless, it loses the last character before it.
   */
  lemma LineFeedAloneEndsLine(t: string, rest: seq<byte>, bursts: seq<Burst>)
    requires |t| > 0 && NoBreaks(t) && Latin1(t)
    ensures HasLineEnd(Bytes(t + "\n") + rest)
    ensures ReadLine(Stream(Bytes(t + "\n") + rest, bursts))
         == (Ok(Split(t[..|t| - 1], " ")), Stream(rest, bursts))
  {
    var m := |t|;
    var l := Bytes(t + "\n") + rest;
    assert l[m] == LF;
    forall j | 0 <= j < m ensures !EndsAt(l, j) {
      assert l[j] as int == t[j] as int;
      if j > 0 { assert l[j - 1] as int == t[j - 1] as int; }
    }
    assert EndsAt(l, m);
    assert LineEnd(l) == m;
    assert l[..m + 1][..m - 1] == Bytes(t[..m - 1]);
    TextOfBytes(t[..m - 1]);
    assert l[m + 1..] == rest;
  }

  /**
   * Whatever byte follows a carriage return ends the line, a line feed or not,
   * and is consumed and dropped with it.
   */
  lemma ByteAfterCarriageReturnEndsLine(t: string, x: byte, rest: seq<byte>, bursts: seq<Burst>)
    requires NoBreaks(t) && Latin1(t)
    ensures HasLineEnd(Bytes(t + "\r") + [x] + rest)
    ensures ReadLine(Stream(Bytes(t + "\r") + [x] + rest, bursts))
         == (Ok(Split(t, " ")), Stream(rest, bursts))
  {
    var m := |t|;
    var l := Bytes(t + "\r") + [x] + rest;
    assert l[m] == CR;
    assert EndsAt(l, m + 1);
    forall j | 0 <= j <= m ensures !EndsAt(l, j) {
      if j < m { assert l[j] as int == t[j] as int; }
      if j > 0 { assert l[j - 1] as int == t[j - 1] as int; }
    }
    assert LineEnd(l) == m + 1;
    assert l[..m + 2][..m] == Bytes(t);
    TextOfBytes(t);
    assert l[m + 2..] == rest;
  }

  /**
   * When the stream ends right after a carriage return, the read past the end
   * ends the line: the words before the carriage return come back and the
   * whole stream is consumed.
   */
  lemma CarriageReturnAtEnd(t: string, bursts: seq<Burst>)
    requires NoBreaks(t) && Latin1(t)
    ensures HasLineEnd(Bytes(t + "\r"))
    ensures ReadLine(Stream(Bytes(t + "\r"), bursts)) == (Ok(Split(t, " ")), Stream([], bursts))
  {
    var m := |t|;
    var l := Bytes(t + "\r");
    assert l[m] == CR;
    assert EndsAt(l, m + 1);
    forall j | 0 <= j <= m ensures !EndsAt(l, j) {
      if j < m { assert l[j] as int == t[j] as int; }
      if j > 0 { assert l[j - 1] as int == t[j - 1] as int; }
    }
    assert LineEnd(l) == m + 1;
    assert l[..m] == Bytes(t);
    TextOfBytes(t);
  }

  /** "OK\r" at the end of the stream reads as ["OK"]. */
  lemma CarriageReturnAtEndExample()
    ensures HasLineEnd(Bytes("OK\r"))
    ensures ReadLine(Stream(Bytes("OK\r"), [])) == (Ok(["OK"]), Stream([], []))
  {
    var t := "OK";
    assert t + "\r" == "OK\r";
    assert NoBreaks(t) && Latin1(t) by {
      assert forall i :: 0 <= i < |t| ==> t[i] == 'O' || t[i] == 'K';
    }
    CarriageReturnAtEnd(t, []);
    assert !OccursAt(t, " ", 0) && !OccursAt(t, " ", 1);
    FindFromIs(t, " ", 0, 2);
    assert Split(t, " ") == [t];
  }

  /** A line feed as the very first byte ends a line of one byte, which is a runtime exception. */
  lemma LeadingLineFeedFails(rest: seq<byte>, bursts: seq<Burst>)
    ensures HasLineEnd([LF] + rest)
    ensures ReadLine(Stream([LF] + rest, bursts)) == (Fail(Runtime), Stream(rest, bursts))
  {
    var l := [LF] + rest;
    assert EndsAt(l, 0);
    assert LineEnd(l) == 0;
    assert l[1..] == rest;
  }

  // ---------------------------------------------------------------- the body

  /**
   * How many bytes one bulk read into a buffer of n > 0 bytes takes: at most n,
   * at most the transport's next burst, at most what is left.
   */
  function Chunk(s: Stream, n: nat): (k: nat)
    requires n > 0 && s.incoming != []
    ensures 1 <= k <= n && k <= |s.incoming|
  {
    Min(Min(n, if s.bursts == [] then n else s.bursts[0]), |s.incoming|)
  }

  /** The stream after a bulk read took k bytes, using up one burst. */
  function Take(s: Stream, k: nat): (r: Stream)
    requires k <= |s.incoming|
  {
    Stream(s.incoming[k..], if s.bursts == [] then [] else s.bursts[1..])
  }

  /** The stream after m bulk reads took k bytes between them, each read using up one burst. */
  function After(s: Stream, k: nat, m: nat): (r: Stream)
    requires k <= |s.incoming|
  {
    Stream(s.incoming[k..], s.bursts[Min(m, |s.bursts|)..])
  }

  /** Reading on after one bulk read of c bytes is reading on with one read and c bytes more. */
  lemma AfterTake(s: Stream, c: nat)
    requires c <= |s.incoming|
    ensures forall k: nat, m: nat :: k <= |s.incoming| - c ==> After(Take(s, c), k, m) == After(s, c + k, m + 1)
  {
    forall k: nat, m: nat | k <= |s.incoming| - c
      ensures After(Take(s, c), k, m) == After(s, c + k, m + 1)
    {
      assert s.incoming[c..][k..] == s.incoming[c + k..];
      if s.bursts != [] {
        assert s.bursts[1..][Min(m, |s.bursts| - 1)..] == s.bursts[Min(m + 1, |s.bursts|)..];
      }
    }
  }

  /**
   * The stream after the two single-byte reads that follow a body: each takes
   * one byte, unchecked, or nothing at the end of the stream.
   */
  function SkipTrailer(s: Stream): (r: Stream)
    ensures r.bursts == s.bursts
    ensures |s.incoming| >= 2 ==> s.incoming == s.incoming[..2] + r.incoming
    ensures |s.incoming| < 2 ==> r.incoming == []
  {
    s.(incoming := s.incoming[Min(2, |s.incoming|)..])
  }

  /**
   * The loop of readData, from a state where total bytes have been counted and
   * the buffer holds data: each bulk read writes its bytes from index 0 of the
   * buffer, and the loop ends once the count reaches n.
   */
  function Fill(s: Stream, n: nat, data: seq<byte>, total: nat): (r: (Outcome<seq<byte>>, Stream))
    requires |data| == n
    ensures r.0.Ok? <==> total + |s.incoming| >= n
    ensures r.0.Ok? ==> |r.0.value| == n
    ensures r.0.Fail? ==> r.0 == Fail(Io(PREMATURE_END)) && r.1.incoming == []
    decreases n - total
  {
    if total >= n then (Ok(data), SkipTrailer(s))
    else if s.incoming == [] then (Fail(Io(PREMATURE_END)), s)
    else
      var k := Chunk(s, n);
      Fill(Take(s, k), n, s.incoming[..k] + data[k..], total + k)
  }

  /**
   * What a successful read loop leaves: the stream after the bulk reads took
   * at least the missing n - total bytes (none when nothing was missing), one
   * burst per read, and then the two trailer reads.
   */
  lemma FillLeaves(s: Stream, n: nat, data: seq<byte>, total: nat)
    requires |data| == n
    ensures Fill(s, n, data, total).0.Ok? ==>
      exists k: nat, m: nat ::
        k <= |s.incoming| && Fill(s, n, data, total).1 == SkipTrailer(After(s, k, m)) &&
        (if total >= n then k == 0 && m == 0 else n - total <= k && 0 < m <= k)
  {
    var k, m := FillWitness(s, n, data, total);
  }

  /** The bytes k the bulk reads of a successful loop take and the number m of those reads. */
  lemma {:induction false} FillWitness(s: Stream, n: nat, data: seq<byte>, total: nat) returns (k: nat, m: nat)
    requires |data| == n
    ensures Fill(s, n, data, total).0.Ok? ==>
      k <= |s.incoming| && Fill(s, n, data, total).1 == SkipTrailer(After(s, k, m)) &&
      (if total >= n then k == 0 && m == 0 else n - total <= k && 0 < m <= k)
    decreases n - total
  {
    if total >= n {
      k, m := 0, 0;
      assert After(s, 0, 0) == s;
    } else if s.incoming == [] {
      k, m := 0, 0;
    } else {
      var c := Chunk(s, n);
      var s', data' := Take(s, c), s.incoming[..c] + data[c..];
      var k', m' := FillWitness(s', n, data', total + c);
      k, m := c + k', m' + 1;
      assert Fill(s, n, data, total) == Fill(s', n, data', total + c);
      if Fill(s', n, data', total + c).0.Ok? {
        assert After(s', k', m') == After(s, k, m) by { AfterTake(s, c); }
      }
    }
  }

  function Zeros(n: nat): seq<byte> { seq(n, _ => 0) }

  /**
   * readData(n): a zeroed buffer of n bytes run through the loop; a negative n
   * is a NegativeArraySizeException before anything is read.
   */
  function ReadBody(s: Stream, n: int32): (r: (Outcome<seq<byte>>, Stream))
    ensures n < 0 ==> r == (Fail(Runtime), s)
    ensures n >= 0 ==> (r.0.Ok? <==> |s.incoming| >= n)
    ensures r.0.Ok? ==> |r.0.value| == n
    ensures n >= 0 && r.0.Fail? ==> r.0 == Fail(Io(PREMATURE_END)) && r.1.incoming == []
  {
    if n < 0 then (Fail(Runtime), s) else Fill(s, n, Zeros(n), 0)
  }

  /**
   * What a successful readData leaves: the stream after bulk reads took at
   * least the n body bytes (none for an empty body), one burst per read, and
   * then the two trailer reads.
   */
  lemma BodyLeaves(s: Stream, n: int32)
    ensures ReadBody(s, n).0.Ok? ==>
      exists k: nat, m: nat ::
        k <= |s.incoming| && ReadBody(s, n).1 == SkipTrailer(After(s, k, m)) &&
        (if n == 0 then k == 0 && m == 0 else n <= k && 0 < m <= k)
  {
    if n >= 0 {
      FillLeaves(s, n as nat, Zeros(n as nat), 0);
    }
  }

  /** The bursts left after reading a body of n bytes in one bulk read. */
  function AfterBody(bursts: seq<Burst>, n: nat): seq<Burst>
  {
    if n == 0 || bursts == [] then bursts else bursts[1..]
  }

  /**
   * When one bulk read delivers the whole body, readData returns exactly the n
   * bytes after the status line and skips the next two bytes whatever they are.
   */
  lemma BodyRoundTrip(p: seq<byte>, trailer: seq<byte>, rest: seq<byte>, bursts: seq<Burst>)
    requires |p| < 0x8000_0000 && |trailer| == 2
    requires bursts == [] || bursts[0] >= |p|
    ensures ReadBody(Stream(p + trailer + rest, bursts), |p|) == (Ok(p), Stream(rest, AfterBody(bursts, |p|)))
  {
    var s := Stream(p + trailer + rest, bursts);
    var n := |p|;
    if n > 0 {
      assert Chunk(s, n) == n;
      assert s.incoming[..n] + Zeros(n)[n..] == p;
      var s1 := Take(s, n);
      assert s1 == Stream(trailer + rest, AfterBody(bursts, n));
      assert Fill(s, n, Zeros(n), 0) == Fill(s1, n, p, n);
      assert SkipTrailer(s1).incoming == (trailer + rest)[2..] == rest;
    } else {
      assert s.incoming == trailer + rest;
      assert SkipTrailer(s).incoming == (trailer + rest)[2..] == rest;
    }
  }

  /** A body of length 0 reads nothing but the two trailing bytes. */
  lemma EmptyBody(s: Stream)
    ensures ReadBody(s, 0) == (Ok([]), SkipTrailer(s))
  {
  }

  /**
   * Partial reads overwrite the buffer: delivered as 2 bytes and then the rest,
   * the stream 1 2 3 4 CR LF read as a 3-byte body gives 3 4 CR (the second
   * read starts again at index 0 and counts past 3), not 1 2 3.
   */
  lemma PartialReadOverwrites()
    ensures ReadBody(Stream([1, 2, 3, 4, CR, LF], [2]), 3) == (Ok([3, 4, CR]), Stream([], []))
  {
    var s0 := Stream([1, 2, 3, 4, CR, LF], [2]);
    assert Zeros(3) == [0, 0, 0];
    assert Chunk(s0, 3) == 2;
    var s1 := Take(s0, 2);
    assert s1 == Stream([3, 4, CR, LF], []);
    assert s0.incoming[..2] + Zeros(3)[2..] == [1, 2, 0];
    assert Chunk(s1, 3) == 3;
    assert s1.incoming[..3] + [1, 2, 0][3..] == [3, 4, CR];
    var s2 := Take(s1, 3);
    assert s2 == Stream([LF], []);
    assert Fill(s0, 3, Zeros(3), 0) == Fill(s1, 3, [1, 2, 0], 2);
    assert Fill(s1, 3, [1, 2, 0], 2) == Fill(s2, 3, [3, 4, CR], 5);
    assert SkipTrailer(s2) == Stream([], []);
  }
}
