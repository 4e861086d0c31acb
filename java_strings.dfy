/**
 * The Java text handling the client relies on: bytes and characters
 * (new String(byte[]), String.getBytes()), String.split with a literal
 * separator, and the line splitting of BufferedReader.readLine.
 */
module JavaStrings {

  /** One byte of the connection's streams. */
  newtype byte = x: int | 0 <= x < 0x100

  /** A string whose characters each fit in one byte. */
  predicate Latin1(s: string) { forall i :: 0 <= i < |s| ==> s[i] as int < 0x100 }

  /** new String(bytes), taken byte for byte: each byte becomes the character with that code. */
  function Text(bs: seq<byte>): (r: string)
  {
    seq(|bs|, i requires 0 <= i < |bs| => bs[i] as int as char)
  }

  /** s.getBytes(), taken byte for byte: each character becomes its low eight bits. */
  function Bytes(s: string): (r: seq<byte>)
  {
    seq(|s|, i requires 0 <= i < |s| => (s[i] as int % 0x100) as byte)
  }

  lemma TextOfBytes(s: string)
    requires Latin1(s)
    ensures Text(Bytes(s)) == s
  {
  }

  lemma BytesOfText(bs: seq<byte>)
    ensures Bytes(Text(bs)) == bs
    ensures Latin1(Text(bs))
  {
  }

  /** One more byte read adds one more character. */
  lemma TextSnoc(bs: seq<byte>, b: byte)
    ensures Text(bs + [b]) == Text(bs) + [b as int as char]
  {
  }

  lemma BytesAppend(a: string, b: string)
    ensures Bytes(a + b) == Bytes(a) + Bytes(b)
  {
  }

  /** Concatenation regrouped; stated once so that proofs need not rediscover it on large terms. */
  lemma Regroup<T>(a: seq<T>, b: seq<T>, c: seq<T>)
    ensures a + b + c == a + (b + c)
  {
  }

  // ---------------------------------------------------------------- String.split

  /** sep occurs in s starting at index i. */
  predicate OccursAt(s: string, sep: string, i: nat)
  {
    i + |sep| <= |s| && s[i..i + |sep|] == sep
  }

  /** The first index at or after i where sep occurs in s, or |s| when there is none. */
  function FindFrom(s: string, sep: string, i: nat): (r: nat)
    requires i <= |s|
    ensures i <= r <= |s|
    ensures forall j :: i <= j < r ==> !OccursAt(s, sep, j)
    ensures r < |s| ==> OccursAt(s, sep, r)
    decreases |s| - i
  {
    if i == |s| || OccursAt(s, sep, i) then i else FindFrom(s, sep, i + 1)
  }

  /** The pieces between the leftmost non-overlapping occurrences of sep, keeping every empty piece. */
  function SplitAll(s: string, sep: string): (r: seq<string>)
    requires |sep| > 0
    ensures |r| > 0
    decreases |s|
  {
    var i := FindFrom(s, sep, 0);
    if i == |s| then [s] else [s[..i]] + SplitAll(s[i + |sep|..], sep)
  }

  /** Joining the pieces with sep between them gives s back. */
  lemma {:induction false} SplitAllRejoins(s: string, sep: string)
    requires |sep| > 0
    ensures Join(SplitAll(s, sep), sep) == s
    decreases |s|
  {
    var i := FindFrom(s, sep, 0);
    if i < |s| {
      var rest := SplitAll(s[i + |sep|..], sep);
      SplitAllRejoins(s[i + |sep|..], sep);
      var r := SplitAll(s, sep);
      assert r == [s[..i]] + rest;
      assert r[1..] == rest;
      assert s[i..i + |sep|] == sep;
      assert s == s[..i] + sep + s[i + |sep|..];
    }
  }

  /** No piece holds a whole occurrence of the separator. */
  lemma {:induction false} SplitAllPieces(s: string, sep: string)
    requires |sep| > 0
    ensures forall k, j :: 0 <= k < |SplitAll(s, sep)| && 0 <= j < |SplitAll(s, sep)[k]| ==> !OccursAt(SplitAll(s, sep)[k], sep, j)
    decreases |s|
  {
    var i := FindFrom(s, sep, 0);
    if i < |s| {
      SplitAllPieces(s[i + |sep|..], sep);
      var r := SplitAll(s, sep);
      assert r == [s[..i]] + SplitAll(s[i + |sep|..], sep);
      assert forall j :: 0 <= j < i && OccursAt(s[..i], sep, j) ==> OccursAt(s, sep, j);
    }
  }

  /** No piece split returns holds a whole occurrence of the separator. */
  lemma SplitPieces(s: string, sep: string)
    requires |sep| > 0
    ensures forall k, j :: 0 <= k < |Split(s, sep)| && 0 <= j < |Split(s, sep)[k]| ==> !OccursAt(Split(s, sep)[k], sep, j)
  {
    SplitAllPieces(s, sep);
    SplitTrims(s, sep);
  }

  /** Removes the empty strings at the end of ps. */
  function DropTrailingEmpty(ps: seq<string>): (r: seq<string>)
    ensures r <= ps
    ensures r == [] || r[|r| - 1] != ""
    ensures forall k :: |r| <= k < |ps| ==> ps[k] == ""
  {
    if ps == [] || ps[|ps| - 1] != "" then ps else DropTrailingEmpty(ps[..|ps| - 1])
  }

  /**
   * s.split(sep) for a separator without regular-expression metacharacters:
   * the whole string when sep does not occur, otherwise the pieces with the
   * trailing empty ones removed.
   */
  function Split(s: string, sep: string): (r: seq<string>)
    requires |sep| > 0
    ensures FindFrom(s, sep, 0) == |s| ==> r == [s]
  {
    if FindFrom(s, sep, 0) == |s| then [s] else DropTrailingEmpty(SplitAll(s, sep))
  }

  /** split keeps a prefix of all the pieces, and drops only empty ones after it. */
  lemma SplitTrims(s: string, sep: string)
    requires |sep| > 0
    ensures Split(s, sep) <= SplitAll(s, sep)
    ensures forall k :: |Split(s, sep)| <= k < |SplitAll(s, sep)| ==> SplitAll(s, sep)[k] == ""
  {
    if FindFrom(s, sep, 0) == |s| {
      assert SplitAll(s, sep) == [s];
    }
  }

  /** The words of ws with sep between each two of them. */
  function Join(ws: seq<string>, sep: string): (r: string)
  {
    if |ws| == 0 then "" else if |ws| == 1 then ws[0] else ws[0] + sep + Join(ws[1..], sep)
  }

  /** Pieces in which a one-character separator never occurs do not contain that character. */
  lemma PiecesWithout(ws: seq<string>, c: char)
    requires forall k, j :: 0 <= k < |ws| && 0 <= j < |ws[k]| ==> !OccursAt(ws[k], [c], j)
    ensures forall k, j :: 0 <= k < |ws| && 0 <= j < |ws[k]| ==> ws[k][j] != c
  {
    forall k, j | 0 <= k < |ws| && 0 <= j < |ws[k]| ensures ws[k][j] != c {
      if ws[k][j] == c {
        assert ws[k][j..j + 1] == [c];
        assert OccursAt(ws[k], [c], j);
      }
    }
  }

  /** The first occurrence of sep found by FindFrom is the one at m when none comes before it. */
  lemma FindFromIs(s: string, sep: string, i: nat, m: nat)
    requires i <= m <= |s|
    requires m < |s| ==> OccursAt(s, sep, m)
    requires forall j :: i <= j < m ==> !OccursAt(s, sep, j)
    ensures FindFrom(s, sep, i) == m
  {
  }

  /** Splitting on a one-character separator undoes joining words that do not contain it. */
  lemma {:induction false} SplitAllJoin(ws: seq<string>, c: char)
    requires |ws| > 0
    requires forall k, i :: 0 <= k < |ws| && 0 <= i < |ws[k]| ==> ws[k][i] != c
    ensures SplitAll(Join(ws, [c]), [c]) == ws
  {
    var s := Join(ws, [c]);
    if |ws| == 1 {
      forall j | 0 <= j < |s| ensures !OccursAt(s, [c], j) {
        assert s[j] == ws[0][j];
      }
      FindFromIs(s, [c], 0, |s|);
    } else {
      var m := |ws[0]|;
      assert s == ws[0] + [c] + Join(ws[1..], [c]);
      assert OccursAt(s, [c], m) by { assert s[m..m + 1] == [c]; }
      forall j | 0 <= j < m ensures !OccursAt(s, [c], j) {
        assert s[j] == ws[0][j];
        assert s[j..j + 1][0] == s[j];
      }
      FindFromIs(s, [c], 0, m);
      assert s[..m] == ws[0];
      assert s[m + 1..] == Join(ws[1..], [c]);
      SplitAllJoin(ws[1..], c);
    }
  }

  /**
   * s.split(" ")-style splitting on a one-character separator recovers the
   * words it joined, provided none contains the separator and the last is not empty.
   */
  lemma SplitJoin(ws: seq<string>, c: char)
    requires |ws| > 0 && ws[|ws| - 1] != ""
    requires forall k, i :: 0 <= k < |ws| && 0 <= i < |ws[k]| ==> ws[k][i] != c
    ensures Split(Join(ws, [c]), [c]) == ws
  {
    var s := Join(ws, [c]);
    SplitAllJoin(ws, c);
    if |ws| == 1 {
      assert SplitAll(s, [c]) == [s];
    } else {
      assert s == ws[0] + [c] + Join(ws[1..], [c]);
      assert OccursAt(s, [c], |ws[0]|) by { assert s[|ws[0]|..|ws[0]| + 1] == [c]; }
    }
  }

  /** A line "a<sep>b" splits into the two pieces a and b when sep occurs nowhere else in it. */
  lemma SplitPair(a: string, sep: string, b: string)
    requires |sep| > 0 && b != ""
    requires forall j :: 0 <= j < |a| ==> !OccursAt(a + sep + b, sep, j)
    requires forall j :: 0 <= j < |b| ==> !OccursAt(b, sep, j)
    ensures Split(a + sep + b, sep) == [a, b]
  {
    var s := a + sep + b;
    var m := |a|;
    assert s[m..m + |sep|] == sep;
    FindFromIs(s, sep, 0, m);
    assert s[..m] == a;
    assert s[m + |sep|..] == b;
    FindFromIs(b, sep, 0, |b|);
    assert SplitAll(s, sep) == [a] + SplitAll(b, sep);
  }

  // ---------------------------------------------------------------- BufferedReader.readLine

  predicate IsBreak(c: char) { c == '\n' || c == '\r' }

  predicate NoBreaks(s: string) { forall i :: 0 <= i < |s| ==> !IsBreak(s[i]) }

  /** The index of the first line break character in s, or |s|. */
  function BreakIndex(s: string): (i: nat)
    ensures i <= |s|
    ensures i < |s| ==> IsBreak(s[i])
    ensures NoBreaks(s[..i])
  {
    if s == [] || IsBreak(s[0]) then 0
    else
      var i := 1 + BreakIndex(s[1..]);
      assert s[..i] == [s[0]] + s[1..][..i - 1];
      i
  }

  /**
   * The successive results of BufferedReader.readLine over s until it returns
   * null: a line ends at "\n", at "\r" or at "\r\n", and a final line needs no
   * terminator.
   */
  function Lines(s: string): (ls: seq<string>)
    ensures forall k :: 0 <= k < |ls| ==> NoBreaks(ls[k])
    decreases |s|
  {
    if s == [] then []
    else
      var i := BreakIndex(s);
      if i == |s| then [s]
      else
        var next := if s[i] == '\r' && i + 1 < |s| && s[i + 1] == '\n' then i + 2 else i + 1;
        [s[..i]] + Lines(s[next..])
  }

  /** Each of ls followed by "\n". */
  function Terminated(ls: seq<string>): (r: string)
  {
    if ls == [] then "" else ls[0] + "\n" + Terminated(ls[1..])
  }

  /** Reading back lines that were each written with a "\n" after them gives those lines. */
  lemma {:induction false} LinesOfTerminated(ls: seq<string>)
    requires forall k :: 0 <= k < |ls| ==> NoBreaks(ls[k])
    ensures Lines(Terminated(ls)) == ls
  {
    if ls != [] {
      var s := Terminated(ls);
      var m := |ls[0]|;
      assert s == ls[0] + "\n" + Terminated(ls[1..]);
      assert s[m] == '\n';
      assert BreakIndex(s) == m;
      assert s[..m] == ls[0];
      if m + 1 < |s| {
        assert s[m + 1] != '\n' || s[m] != '\r';
      }
      assert s[m + 1..] == Terminated(ls[1..]);
      LinesOfTerminated(ls[1..]);
    }
  }
}
