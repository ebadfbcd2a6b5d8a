/** Which turn a usage row belongs to, from the log's size after each turn. */
module RowAttribution {
  import opened Wrappers

  type Byte = b: int | 0 <= b < 256

  const NEWLINE: Byte := 10

  // ----- blank lines, byte by byte -----

  /**
   * Length of the whitespace character the bytes start with, 0 if none: the UTF-8 forms of the characters that Python's
   * strip removes. Anything else, a malformed sequence included, decodes to something that stays.
   */
  function SpaceLength(s: seq<Byte>): (n: nat)
    ensures n <= |s|
  {
    if s == [] then 0
    else if 0x09 <= s[0] <= 0x0D || 0x1C <= s[0] <= 0x20 then 1
    else if |s| >= 2 && s[0] == 0xC2 && (s[1] == 0x85 || s[1] == 0xA0) then 2
    else if |s| >= 3 && s[0] == 0xE1 && s[1] == 0x9A && s[2] == 0x80 then 3
    else if |s| >= 3 && s[0] == 0xE2 && s[1] == 0x80
      && (0x80 <= s[2] <= 0x8A || 0xA8 <= s[2] <= 0xA9 || s[2] == 0xAF) then 3
    else if |s| >= 3 && s[0] == 0xE2 && s[1] == 0x81 && s[2] == 0x9F then 3
    else if |s| >= 3 && s[0] == 0xE3 && s[1] == 0x80 && s[2] == 0x80 then 3
    else 0
  }

  predicate Blank(s: seq<Byte>) {
    s == [] || (SpaceLength(s) > 0 && Blank(s[SpaceLength(s)..]))
  }

  /** The code points Unicode calls white space, with the four separators from U+001C on. */
  predicate SpacePoint(c: nat) {
    || 0x09 <= c <= 0x0D || 0x1C <= c <= 0x20 || c == 0x85 || c == 0xA0 || c == 0x1680
    || 0x2000 <= c <= 0x200A || c == 0x2028 || c == 0x2029 || c == 0x202F || c == 0x205F || c == 0x3000
  }

  /** A code point below U+10000 in UTF-8. */
  function Encoded(c: nat): (s: seq<Byte>)
    requires c < 0x10000
    ensures s != []
  {
    if c < 0x80 then [c]
    else if c < 0x800 then [0xC0 + c / 64, 0x80 + c % 64]
    else [0xE0 + c / 4096, 0x80 + c / 64 % 64, 0x80 + c % 64]
  }

  function Text(points: seq<nat>): seq<Byte>
    requires forall k :: 0 <= k < |points| ==> points[k] < 0x10000
  {
    if points == [] then [] else Encoded(points[0]) + Text(points[1..])
  }

  lemma EncodedSpaceIsRead(c: nat, rest: seq<Byte>)
    requires SpacePoint(c)
    ensures SpaceLength(Encoded(c) + rest) == |Encoded(c)|
  {
  }

  lemma SpaceIsEncoded(s: seq<Byte>) returns (c: nat)
    requires SpaceLength(s) > 0
    ensures SpacePoint(c) && s[..SpaceLength(s)] == Encoded(c)
  {
    if SpaceLength(s) == 1 {
      c := s[0];
    } else if SpaceLength(s) == 2 {
      c := s[1];
    } else {
      c := Decoded(s[0], s[1], s[2]);
      assert s[..3] == [s[0], s[1], s[2]];
    }
  }

  lemma Decoded(a: Byte, b: Byte, d: Byte) returns (c: nat)
    requires 0xE1 <= a < 0xF0 && 0x80 <= b < 0xC0 && 0x80 <= d < 0xC0
    ensures c == (a as int - 0xE0) * 4096 + (b as int - 0x80) * 64 + (d as int - 0x80)
    ensures c < 0x10000 && Encoded(c) == [a, b, d]
  {
    c := (a as int - 0xE0) * 4096 + (b as int - 0x80) * 64 + (d as int - 0x80);
    assert c / 4096 == a as int - 0xE0;
    assert c / 64 == (a as int - 0xE0) * 64 + (b as int - 0x80);
  }

  ghost predicate Spaces(points: seq<nat>) {
    forall k :: 0 <= k < |points| ==> SpacePoint(points[k])
  }

  lemma {:induction false} TextOfCons(c: nat, points: seq<nat>)
    requires c < 0x10000 && forall k :: 0 <= k < |points| ==> points[k] < 0x10000
    ensures Text([c] + points) == Encoded(c) + Text(points)
  {
    assert ([c] + points)[1..] == points;
  }

  /** Bytes are blank exactly if they are white-space characters in UTF-8, one after another. */
  lemma {:induction false} BlankExactly(s: seq<Byte>)
    ensures Blank(s) <==> exists points :: Spaces(points) && Text(points) == s
  {
    if Blank(s) {
      var points := SpacesOf(s);
    }
    forall points | Spaces(points) && Text(points) == s
      ensures Blank(s)
    {
      SpacesAreBlank(points);
    }
  }

  lemma {:induction false} FirstSpace(s: seq<Byte>) returns (c: nat, rest: seq<Byte>)
    requires Blank(s) && s != []
    ensures SpacePoint(c) && s == Encoded(c) + rest && Blank(rest) && |rest| < |s|
  {
    c := SpaceIsEncoded(s);
    rest := s[SpaceLength(s)..];
    assert s == s[..SpaceLength(s)] + rest;
  }

  lemma {:induction false} SpacesOf(s: seq<Byte>) returns (points: seq<nat>)
    requires Blank(s)
    ensures Spaces(points) && Text(points) == s
    decreases |s|
  {
    points := [];
    if s != [] {
      var c, rest := FirstSpace(s);
      var more := SpacesOf(rest);
      points := [c] + more;
      TextOfCons(c, more);
    }
  }

  lemma {:induction false} SpacesAreBlank(points: seq<nat>)
    requires Spaces(points)
    ensures Blank(Text(points))
  {
    if points != [] {
      var first, rest := Encoded(points[0]), Text(points[1..]);
      SpacesAreBlank(points[1..]);
      EncodedSpaceIsRead(points[0], rest);
      assert (first + rest)[|first|..] == rest;
    }
  }

  lemma SpaceLengthJoin(a: seq<Byte>, b: seq<Byte>)
    requires SpaceLength(a) > 0
    ensures SpaceLength(a + b) == SpaceLength(a)
  {
  }

  /** Two blank pieces make a blank whole. (Not the other way: a cut can fall inside a wide space.) */
  lemma {:induction false} BlankJoin(a: seq<Byte>, b: seq<Byte>)
    requires Blank(a) && Blank(b)
    ensures Blank(a + b)
  {
    if a == [] {
      assert a + b == b;
    } else {
      var n := SpaceLength(a);
      SpaceLengthJoin(a, b);
      assert (a + b)[n..] == a[n..] + b;
      BlankJoin(a[n..], b);
    }
  }

  function Ink(s: seq<Byte>): nat {
    if Blank(s) then 0 else 1
  }

  // ----- lines -----

  /** Position of the first newline, or the length. */
  function LineEnd(chunk: seq<Byte>): (n: nat)
    ensures n <= |chunk|
    ensures NEWLINE !in chunk[..n]
    ensures n < |chunk| ==> chunk[n] == NEWLINE
  {
    if chunk == [] || chunk[0] == NEWLINE then 0
    else
      var n := 1 + LineEnd(chunk[1..]);
      assert chunk[..n] == [chunk[0]] + chunk[1..][..n - 1];
      n
  }

  function FirstLine(chunk: seq<Byte>): seq<Byte> {
    chunk[..LineEnd(chunk)]
  }

  function LastLine(chunk: seq<Byte>): seq<Byte> {
    var n := LineEnd(chunk);
    if n == |chunk| then chunk else LastLine(chunk[n + 1..])
  }

  /** Non-blank pieces between newlines. */
  function NonBlankLines(chunk: seq<Byte>): nat {
    var n := LineEnd(chunk);
    Ink(chunk[..n]) + if n == |chunk| then 0 else NonBlankLines(chunk[n + 1..])
  }

  lemma {:induction false} LineEndIs(chunk: seq<Byte>, n: nat)
    requires n <= |chunk| && NEWLINE !in chunk[..n] && (n < |chunk| ==> chunk[n] == NEWLINE)
    ensures LineEnd(chunk) == n
  {
    var m := LineEnd(chunk);
    forall j | 0 <= j < n
      ensures chunk[j] != NEWLINE
    {
      assert chunk[..n][j] == chunk[j];
    }
    forall j | 0 <= j < m
      ensures chunk[j] != NEWLINE
    {
      assert chunk[..m][j] == chunk[j];
    }
  }

  lemma {:induction false} SingleLine(line: seq<Byte>)
    requires NEWLINE !in line
    ensures FirstLine(line) == LastLine(line) == line
    ensures NonBlankLines(line) == Ink(line)
  {
    assert line[..|line|] == line;
    LineEndIs(line, |line|);
  }

  /** Putting two chunks together joins the last line of one to the first of the other. */
  lemma {:induction false} CountJoin(a: seq<Byte>, b: seq<Byte>)
    ensures NonBlankLines(a + b) + Ink(LastLine(a)) + Ink(FirstLine(b))
            == NonBlankLines(a) + NonBlankLines(b) + Ink(LastLine(a) + FirstLine(b))
    decreases |a|
  {
    var n := LineEnd(a);
    if n < |a| {
      assert (a + b)[..n] == a[..n];
      LineEndIs(a + b, n);
      assert (a + b)[n + 1..] == a[n + 1..] + b;
      CountJoin(a[n + 1..], b);
    } else {
      assert a[..n] == a;
      SingleLine(a);
      JoinOneLine(a, b);
    }
  }

  lemma {:induction false} JoinOneLine(a: seq<Byte>, b: seq<Byte>)
    requires NEWLINE !in a
    ensures NonBlankLines(a + b) + Ink(FirstLine(b)) == NonBlankLines(b) + Ink(a + FirstLine(b))
  {
    var m := LineEnd(b);
    if m < |b| {
      var first, rest := b[..m], b[m + 1..];
      assert b == first + [NEWLINE] + rest;
      assert a + b == (a + first) + [NEWLINE] + rest;
      FirstLineApart(first, rest);
      FirstLineApart(a + first, rest);
    } else {
      assert b[..m] == b;
      SingleLine(b);
      SingleLine(a + b);
    }
  }

  lemma {:induction false} FirstLineApart(first: seq<Byte>, rest: seq<Byte>)
    requires NEWLINE !in first
    ensures FirstLine(first + [NEWLINE] + rest) == first
    ensures NonBlankLines(first + [NEWLINE] + rest) == Ink(first) + NonBlankLines(rest)
  {
    var chunk, n := first + [NEWLINE] + rest, |first|;
    assert chunk[..n] == first && chunk[n + 1..] == rest;
    LineEndIs(chunk, n);
  }

  /** Cutting a chunk never loses a non-blank line. */
  lemma {:induction false} CutNeverLowers(a: seq<Byte>, b: seq<Byte>)
    ensures NonBlankLines(a + b) <= NonBlankLines(a) + NonBlankLines(b)
  {
    CountJoin(a, b);
    if Blank(LastLine(a)) && Blank(FirstLine(b)) {
      BlankJoin(LastLine(a), FirstLine(b));
    }
  }

  lemma {:induction false} LastAfterNewline(a: seq<Byte>)
    requires a == [] || a[|a| - 1] == NEWLINE
    ensures LastLine(a) == []
    decreases |a|
  {
    var n := LineEnd(a);
    if n < |a| {
      LastAfterNewline(a[n + 1..]);
    } else {
      assert a[..n] == a;
    }
  }

  /** A cut at the start or at the end of a line changes nothing. */
  lemma {:induction false} CleanCut(a: seq<Byte>, b: seq<Byte>)
    requires CleanEdge(a, b)
    ensures NonBlankLines(a + b) == NonBlankLines(a) + NonBlankLines(b)
  {
    CountJoin(a, b);
    if a == [] || a[|a| - 1] == NEWLINE {
      LastAfterNewline(a);
      assert [] + FirstLine(b) == FirstLine(b);
    } else {
      assert FirstLine(b) == [];
      assert LastLine(a) + [] == LastLine(a);
    }
  }

  // ----- what the rest needs of all this -----

  function InkOf(blank: seq<Byte> -> bool, line: seq<Byte>): nat {
    if blank(line) then 0 else 1
  }

  ghost predicate CleanEdge(a: seq<Byte>, b: seq<Byte>) {
    a == [] || a[|a| - 1] == NEWLINE || b == [] || b[0] == NEWLINE
  }

  /** Marks a cut, and a whole line, that a proof looks at. */
  ghost predicate Cut(a: seq<Byte>, b: seq<Byte>) { true }
  ghost predicate Whole(line: seq<Byte>) { true }

  /** Counts lines: never fewer after a cut, exactly as many after a cut at a line's edge, and one per inked line. */
  ghost predicate LineCount(count: seq<Byte> -> nat, blank: seq<Byte> -> bool) {
    && (forall a, b {:trigger Cut(a, b)} :: Cut(a, b) ==>
          && count(a + b) <= count(a) + count(b)
          && (CleanEdge(a, b) ==> count(a + b) == count(a) + count(b)))
    && (forall line {:trigger Whole(line)} :: Whole(line) && NEWLINE !in line ==> count(line) == InkOf(blank, line))
  }

  lemma NonBlankLinesCounts()
    ensures LineCount(NonBlankLines, Blank)
  {
    forall a, b
      ensures NonBlankLines(a + b) <= NonBlankLines(a) + NonBlankLines(b)
      ensures CleanEdge(a, b) ==> NonBlankLines(a + b) == NonBlankLines(a) + NonBlankLines(b)
    {
      CutNeverLowers(a, b);
      if CleanEdge(a, b) {
        CleanCut(a, b);
      }
    }
    forall line | NEWLINE !in line
      ensures NonBlankLines(line) == InkOf(Blank, line)
    {
      SingleLine(line);
    }
  }

  // ----- reading the run's slice of the log -----

  datatype Row = Row(chat: bool)

  /** The file as opened: its size then, and the bytes it held. */
  datatype File = File(size: nat, content: seq<Byte>)

  datatype Trouble = Shrank | Disappeared | NotUtf8

  datatype Slice = Slice(data: seq<Byte>, rows: seq<Row>, skipped: int, counts: seq<nat>, consistent: bool)

  ghost predicate Rising(offset: nat, boundaries: seq<nat>) {
    && (boundaries != [] ==> offset <= boundaries[0])
    && forall i, j :: 0 <= i < j < |boundaries| ==> boundaries[i] <= boundaries[j]
  }

  function Min(a: int, b: int): int {
    if a < b then a else b
  }

  /** A Python slice of the appended bytes between two file positions. */
  function Piece(data: seq<Byte>, offset: nat, from: nat, to: nat): seq<Byte>
    requires offset <= from <= to
  {
    data[Min(from - offset, |data|)..Min(to - offset, |data|)]
  }

  function Start(offset: nat, boundaries: seq<nat>, i: nat): nat
    requires i <= |boundaries|
  {
    if i == 0 then offset else boundaries[i - 1]
  }

  /** The byte ranges of the first n turns. */
  function Pieces(data: seq<Byte>, offset: nat, boundaries: seq<nat>, n: nat): (pieces: seq<seq<Byte>>)
    requires n <= |boundaries| && Rising(offset, boundaries)
    ensures |pieces| == n
  {
    if n == 0 then []
    else
      Pieces(data, offset, boundaries, n - 1)
      + [Piece(data, offset, Start(offset, boundaries, n - 1), boundaries[n - 1])]
  }

  function Counts(count: seq<Byte> -> nat, pieces: seq<seq<Byte>>): (counts: seq<nat>)
    ensures |counts| == |pieces|
  {
    seq(|pieces|, i requires 0 <= i < |pieces| => count(pieces[i]))
  }

  function Sum(counts: seq<nat>): nat {
    if counts == [] then 0 else Sum(counts[..|counts| - 1]) + counts[|counts| - 1]
  }

  function Appended(file: Option<File>, offset: nat): seq<Byte> {
    if file.Some? && offset <= |file.value.content| then file.value.content[offset..] else []
  }

  /** The counting loop: the non-blank lines of each turn's byte range. */
  method CountTurns(data: seq<Byte>, offset: nat, boundaries: seq<nat>) returns (counts: seq<nat>)
    requires Rising(offset, boundaries)
    ensures counts == Counts(NonBlankLines, Pieces(data, offset, boundaries, |boundaries|))
  {
    counts := [];
    var start := offset;
    var i := 0;
    while i < |boundaries|
      invariant i <= |boundaries|
      invariant start == Start(offset, boundaries, i) && offset <= start
      invariant counts == Counts(NonBlankLines, Pieces(data, offset, boundaries, i))
    {
      counts := counts + [NonBlankLines(Piece(data, offset, start, boundaries[i]))];
      start := boundaries[i];
      i := i + 1;
    }
  }

  /** `rows` is what the shared reader made of the appended bytes; `decodes` says whether they are valid UTF-8. */
  method ReadRunSlice(file: Option<File>, offset: nat, boundaries: seq<nat>, rows: seq<Row>, decodes: bool)
    returns (r: Result<Slice, Trouble>)
    ensures r.Success? <==>
              && Rising(offset, boundaries) && decodes
              && (if file.Some? then offset <= file.value.size else offset == 0)
              && (boundaries != [] ==> boundaries[|boundaries| - 1] <= if file.Some? then file.value.size else 0)
    ensures r.Success? ==>
              var s, data := r.value, Appended(file, offset);
              && s.data == data && s.rows == rows
              && s.skipped == NonBlankLines(data) - |rows|
              && Rising(offset, boundaries)
              && s.counts == Counts(NonBlankLines, Pieces(data, offset, boundaries, |boundaries|))
              && (s.consistent <==> boundaries != [] && s.skipped == 0
                                    && boundaries[|boundaries| - 1] == offset + |data| && Sum(s.counts) == |rows|)
  {
    var last := offset;
    var i := 0;
    while i < |boundaries|
      invariant i <= |boundaries|
      invariant last == Start(offset, boundaries, i)
      invariant forall k :: 0 <= k < i ==> offset <= boundaries[k] <= last
      invariant forall k, l :: 0 <= k < l < i ==> boundaries[k] <= boundaries[l]
    {
      if boundaries[i] < last {
        return Failure(Shrank);
      }
      last := boundaries[i];
      i := i + 1;
    }
    var data, size := [], 0;
    if file.Some? {
      size := file.value.size;
      if size < offset {
        return Failure(Shrank);
      }
      data := Appended(file, offset);
    } else if offset > 0 {
      return Failure(Disappeared);
    }
    if boundaries != [] && size < boundaries[|boundaries| - 1] {
      return Failure(Shrank);
    }
    size := offset + |data|;
    if !decodes {
      return Failure(NotUtf8);
    }
    var skipped := NonBlankLines(data) - |rows|;
    var counts := CountTurns(data, offset, boundaries);
    var consistent := boundaries != [] && skipped == 0 && boundaries[|boundaries| - 1] == size && Sum(counts) == |rows|;
    return Success(Slice(data, rows, skipped, counts, consistent));
  }

  // ----- what consistency buys -----

  function Concat(pieces: seq<seq<Byte>>): seq<Byte> {
    if pieces == [] then [] else Concat(pieces[..|pieces| - 1]) + pieces[|pieces| - 1]
  }

  lemma {:induction false} ConcatSplit(pieces: seq<seq<Byte>>, i: nat)
    requires i <= |pieces|
    ensures Concat(pieces) == Concat(pieces[..i]) + Concat(pieces[i..])
  {
    if i == |pieces| {
      assert pieces[..i] == pieces && pieces[i..] == [];
    } else {
      var n := |pieces| - 1;
      ConcatSplit(pieces[..n], i);
      assert pieces[..n][..i] == pieces[..i];
      assert pieces[i..][..n - i] == pieces[..n][i..];
    }
  }

  lemma {:induction false} SumSplit(counts: seq<nat>, i: nat)
    requires i <= |counts|
    ensures Sum(counts) == Sum(counts[..i]) + Sum(counts[i..])
  {
    if i == |counts| {
      assert counts[..i] == counts && counts[i..] == [];
    } else {
      var n := |counts| - 1;
      SumSplit(counts[..n], i);
      assert counts[..n][..i] == counts[..i];
      assert counts[i..][..n - i] == counts[..n][i..];
    }
  }

  lemma {:induction false} ConcatSnoc(pieces: seq<seq<Byte>>, piece: seq<Byte>)
    ensures Concat(pieces + [piece]) == Concat(pieces) + piece
  {
    assert (pieces + [piece])[..|pieces|] == pieces;
  }

  lemma TakeMore(data: seq<Byte>, was: nat, now: nat)
    requires was <= now <= |data|
    ensures data[..was] + data[was..now] == data[..now]
  {
  }

  lemma {:induction false} PiecesMakeUpto(data: seq<Byte>, offset: nat, boundaries: seq<nat>, n: nat)
    requires n <= |boundaries| && Rising(offset, boundaries)
    ensures Concat(Pieces(data, offset, boundaries, n)) == data[..Min(Start(offset, boundaries, n) - offset, |data|)]
  {
    if n > 0 {
      PiecesMakeUpto(data, offset, boundaries, n - 1);
      var from, to := Start(offset, boundaries, n - 1), boundaries[n - 1];
      ConcatSnoc(Pieces(data, offset, boundaries, n - 1), Piece(data, offset, from, to));
      TakeMore(data, Min(from - offset, |data|), Min(to - offset, |data|));
    }
  }

  lemma {:induction false} PiecesPrefix(data: seq<Byte>, offset: nat, boundaries: seq<nat>, n: nat, i: nat)
    requires i <= n <= |boundaries| && Rising(offset, boundaries)
    ensures Pieces(data, offset, boundaries, n)[..i] == Pieces(data, offset, boundaries, i)
  {
    if i < n {
      PiecesPrefix(data, offset, boundaries, n - 1, i);
    }
  }

  /** Cut in pieces, a chunk never counts fewer non-blank lines than whole. */
  lemma {:induction false} CutsNeverLower(count: seq<Byte> -> nat, blank: seq<Byte> -> bool, pieces: seq<seq<Byte>>)
    requires LineCount(count, blank) && blank([])
    ensures count(Concat(pieces)) <= Sum(Counts(count, pieces))
  {
    if pieces == [] {
      assert Whole([]);
    } else {
      var n := |pieces| - 1;
      CutsNeverLower(count, blank, pieces[..n]);
      assert Cut(Concat(pieces[..n]), pieces[n]);
      assert Counts(count, pieces)[..n] == Counts(count, pieces[..n]);
    }
  }

  lemma CountsSplit(count: seq<Byte> -> nat, pieces: seq<seq<Byte>>, i: nat)
    requires i <= |pieces|
    ensures Counts(count, pieces)[..i] == Counts(count, pieces[..i])
    ensures Sum(Counts(count, pieces)) == Sum(Counts(count, pieces[..i])) + Sum(Counts(count, pieces[i..]))
  {
    SumSplit(Counts(count, pieces), i);
    assert Counts(count, pieces)[..i] == Counts(count, pieces[..i]);
    assert Counts(count, pieces)[i..] == Counts(count, pieces[i..]);
  }

  /** When the counts of the pieces add up to the whole, they add up on both sides of every boundary. */
  lemma {:induction false} AddsUpEverywhere(count: seq<Byte> -> nat, blank: seq<Byte> -> bool, pieces: seq<seq<Byte>>,
                                            i: nat)
    requires LineCount(count, blank) && blank([]) && i <= |pieces|
    requires Sum(Counts(count, pieces)) == count(Concat(pieces))
    ensures var a, b := Concat(pieces[..i]), Concat(pieces[i..]);
            && Concat(pieces) == a + b
            && count(a) + count(b) == count(a + b)
            && count(a) == Sum(Counts(count, pieces)[..i])
  {
    ConcatSplit(pieces, i);
    CountsSplit(count, pieces, i);
    CutsNeverLower(count, blank, pieces[..i]);
    CutsNeverLower(count, blank, pieces[i..]);
    assert Cut(Concat(pieces[..i]), Concat(pieces[i..]));
  }

  /** The slice is `p + row + q`, `row` is a whole non-blank line of it, and k non-blank lines come before. */
  ghost predicate IsRow(count: seq<Byte> -> nat, blank: seq<Byte> -> bool,
                        data: seq<Byte>, p: seq<Byte>, row: seq<Byte>, q: seq<Byte>, k: nat) {
    && data == p + row + q
    && (p == [] || p[|p| - 1] == NEWLINE)
    && (q == [] || q[0] == NEWLINE)
    && NEWLINE !in row && !blank(row)
    && count(p) == k
  }

  /** A cut inside the row has counted the lines before it and the ink of the first part; the other part has none. */
  lemma CutInside(count: seq<Byte> -> nat, blank: seq<Byte> -> bool, p: seq<Byte>, x: seq<Byte>, y: seq<Byte>,
                  q: seq<Byte>)
    requires LineCount(count, blank)
    requires NEWLINE !in x && NEWLINE !in y && !blank(x + y)
    requires (p == [] || p[|p| - 1] == NEWLINE) && (q == [] || q[0] == NEWLINE)
    requires count(p + x) + count(y + q) == count(p + (x + y) + q)
    ensures count(p + x) == count(p) + InkOf(blank, x)
    ensures InkOf(blank, x) + InkOf(blank, y) == 1
  {
    assert Cut(p, x) && Whole(x);
    assert Cut(y, q) && Whole(y);
    assert Cut(x + y, q) && Whole(x + y);
    assert Cut(p, x + y + q);
    assert p + (x + y) + q == p + (x + y + q);
  }

  /** A cut before the row's start has counted no more than the k lines before it. */
  lemma CutBefore(count: seq<Byte> -> nat, blank: seq<Byte> -> bool, p1: seq<Byte>, p2: seq<Byte>, rest: seq<Byte>)
    requires LineCount(count, blank)
    requires p2 != [] && p2[|p2| - 1] == NEWLINE
    requires count(p1) + count(p2 + rest) == count(p1 + p2 + rest)
    ensures count(p1) <= count(p1 + p2)
  {
    assert Cut(p2, rest) && Cut(p1 + p2, rest);
    assert (p1 + p2)[|p1 + p2| - 1] == NEWLINE;
  }

  /** A cut at or behind the row's end has counted the row as well. */
  lemma CutBehind(count: seq<Byte> -> nat, blank: seq<Byte> -> bool, p: seq<Byte>, row: seq<Byte>, q1: seq<Byte>)
    requires LineCount(count, blank)
    requires NEWLINE !in row && !blank(row)
    requires (p == [] || p[|p| - 1] == NEWLINE) && (q1 == [] || q1[0] == NEWLINE)
    ensures count(p + row + q1) > count(p)
  {
    assert Cut(p, row) && Whole(row) && Cut(p + row, q1);
  }

  /** All that is inked of the line lies inside [from, to). */
  ghost predicate InkedWithin(blank: seq<Byte> -> bool, p: seq<Byte>, row: seq<Byte>, from: int, to: int) {
    && from < |p| + |row| && (|p| < from ==> blank(row[..from - |p|]))
    && |p| < to && (to < |p| + |row| ==> blank(row[to - |p|..]))
  }

  lemma CutOfRow(count: seq<Byte> -> nat, blank: seq<Byte> -> bool, a: seq<Byte>, b: seq<Byte>,
                 p: seq<Byte>, row: seq<Byte>, q: seq<Byte>, k: nat)
    requires LineCount(count, blank) && IsRow(count, blank, a + b, p, row, q, k)
    requires count(a) + count(b) == count(a + b) && |p| <= |a| <= |p| + |row|
    ensures var x, y := row[..|a| - |p|], row[|a| - |p|..];
            count(a) == k + InkOf(blank, x) && InkOf(blank, x) + InkOf(blank, y) == 1
  {
    var x, y := row[..|a| - |p|], row[|a| - |p|..];
    assert row == x + y;
    assert a == (a + b)[..|a|] == p + x && b == (a + b)[|a|..] == y + q;
    CutInside(count, blank, p, x, y, q);
  }

  /** A cut that adds up and has counted more than k lines leaves nothing of row k behind it. */
  lemma NothingAfter(count: seq<Byte> -> nat, blank: seq<Byte> -> bool, a: seq<Byte>, b: seq<Byte>,
                     p: seq<Byte>, row: seq<Byte>, q: seq<Byte>, k: nat)
    requires LineCount(count, blank) && blank([]) && IsRow(count, blank, a + b, p, row, q, k)
    requires count(a) + count(b) == count(a + b) && k < count(a)
    ensures |p| < |a| && (|a| < |p| + |row| ==> blank(row[|a| - |p|..]))
  {
    if |a| < |p| {
      var p2 := p[|a|..];
      assert a == (a + b)[..|a|] == (p + row + q)[..|a|] == p[..|a|];
      assert p == a + p2;
      assert b == (a + b)[|a|..] == p2 + (row + q);
      assert a + b == a + p2 + (row + q);
      CutBefore(count, blank, a, p2, row + q);
    } else if |a| <= |p| + |row| {
      CutOfRow(count, blank, a, b, p, row, q, k);
      assert row[..0] == [];
    }
  }

  /** A cut that has counted no more than k lines leaves nothing of row k before it. */
  lemma NothingBefore(count: seq<Byte> -> nat, blank: seq<Byte> -> bool, a: seq<Byte>, b: seq<Byte>,
                      p: seq<Byte>, row: seq<Byte>, q: seq<Byte>, k: nat)
    requires LineCount(count, blank) && IsRow(count, blank, a + b, p, row, q, k)
    requires count(a) + count(b) == count(a + b) && count(a) <= k
    ensures |a| < |p| + |row| && (|p| < |a| ==> blank(row[..|a| - |p|]))
  {
    if |a| >= |p| + |row| {
      var q1 := q[..|a| - |p| - |row|];
      assert a == (a + b)[..|a|] == p + row + q1;
      CutBehind(count, blank, p, row, q1);
    } else if |p| <= |a| {
      CutOfRow(count, blank, a, b, p, row, q, k);
    }
  }

  // ----- crediting rows to turns -----

  function Repeat<T>(t: T, n: nat): (r: seq<T>)
    ensures |r| == n && forall i :: 0 <= i < n ==> r[i] == t
  {
    seq(n, _ => t)
  }

  /** The turn of every row: each turn's id as often as its byte range has non-blank lines. */
  function PerRow<T>(ids: seq<T>, counts: seq<nat>): (perRow: seq<T>)
    requires |ids| == |counts|
    ensures |perRow| == Sum(counts)
  {
    if ids == [] then []
    else PerRow(ids[..|ids| - 1], counts[..|counts| - 1]) + Repeat(ids[|ids| - 1], counts[|counts| - 1])
  }

  /** The turns of the chat rows alone. */
  function ChatTurns<T>(perRow: seq<T>, rows: seq<Row>): seq<T>
    requires |perRow| == |rows|
  {
    if rows == [] then []
    else (if rows[0].chat then [perRow[0]] else []) + ChatTurns(perRow[1..], rows[1..])
  }

  /** Only a consistent slice is attributed at all. */
  function RowTurns<T>(ids: seq<T>, slice: Slice): Option<seq<T>>
    requires |ids| == |slice.counts|
    requires slice.consistent ==> Sum(slice.counts) == |slice.rows|
  {
    if slice.skipped == 0 && slice.consistent then Some(ChatTurns(PerRow(ids, slice.counts), slice.rows)) else None
  }

  /** Row k is in some turn's share of the counts, and that turn is the one it is credited to. */
  lemma {:induction false} CreditedTurn<T>(ids: seq<T>, counts: seq<nat>, k: nat) returns (i: nat)
    requires |ids| == |counts| && k < Sum(counts)
    ensures i < |ids| && PerRow(ids, counts)[k] == ids[i]
    ensures Sum(counts[..i]) <= k < Sum(counts[..i + 1])
  {
    var n := |counts| - 1;
    assert counts[..n + 1] == counts;
    if k >= Sum(counts[..n]) {
      i := n;
    } else {
      i := CreditedTurn(ids[..n], counts[..n], k);
      assert counts[..n][..i] == counts[..i] && counts[..n][..i + 1] == counts[..i + 1];
    }
  }

  /**
   * In a consistent slice every row is credited to the one turn whose byte range holds everything inked of it: no row
   * has non-blank content on both sides of a boundary.
   */
  lemma CreditedToItsTurn<T>(count: seq<Byte> -> nat, blank: seq<Byte> -> bool, ids: seq<T>, pieces: seq<seq<Byte>>,
                             p: seq<Byte>, row: seq<Byte>, q: seq<Byte>, k: nat)
    returns (i: nat)
    requires LineCount(count, blank) && blank([])
    requires |ids| == |pieces|
    requires Sum(Counts(count, pieces)) == count(Concat(pieces))
    requires IsRow(count, blank, Concat(pieces), p, row, q, k)
    ensures i < |ids|
    ensures var perRow := PerRow(ids, Counts(count, pieces)); k < |perRow| && perRow[k] == ids[i]
    ensures InkedWithin(blank, p, row, |Concat(pieces[..i])|, |Concat(pieces[..i + 1])|)
  {
    CutBehind(count, blank, p, row, q);
    i := CreditedTurn(ids, Counts(count, pieces), k);
    AddsUpEverywhere(count, blank, pieces, i);
    AddsUpEverywhere(count, blank, pieces, i + 1);
    NothingBefore(count, blank, Concat(pieces[..i]), Concat(pieces[i..]), p, row, q, k);
    NothingAfter(count, blank, Concat(pieces[..i + 1]), Concat(pieces[i + 1..]), p, row, q, k);
  }

  lemma TurnOfRow<T>(count: seq<Byte> -> nat, blank: seq<Byte> -> bool, ids: seq<T>,
                     data: seq<Byte>, offset: nat, boundaries: seq<nat>,
                     p: seq<Byte>, row: seq<Byte>, q: seq<Byte>, k: nat)
    returns (i: nat)
    requires LineCount(count, blank) && blank([])
    requires Rising(offset, boundaries) && |ids| == |boundaries| && boundaries != []
    requires boundaries[|boundaries| - 1] == offset + |data|
    requires Sum(Counts(count, Pieces(data, offset, boundaries, |boundaries|))) == count(data)
    requires IsRow(count, blank, data, p, row, q, k)
    ensures i < |ids|
    ensures var perRow := PerRow(ids, Counts(count, Pieces(data, offset, boundaries, |boundaries|)));
            k < |perRow| && perRow[k] == ids[i]
    ensures InkedWithin(blank, p, row, Start(offset, boundaries, i) - offset, boundaries[i] - offset)
  {
    assert Concat(Pieces(data, offset, boundaries, |boundaries|)) == data by {
      PieceEnds(data, offset, boundaries, 0);
    }
    i := CreditedToItsTurn(count, blank, ids, Pieces(data, offset, boundaries, |boundaries|), p, row, q, k);
    PieceEnds(data, offset, boundaries, i);
    PieceEnds(data, offset, boundaries, i + 1);
  }

  /** The same for the log itself: row k's ink lies between the file sizes recorded before and after its turn. */
  lemma RowInItsTurn<T>(ids: seq<T>, data: seq<Byte>, offset: nat, boundaries: seq<nat>,
                        p: seq<Byte>, row: seq<Byte>, q: seq<Byte>, k: nat)
    returns (i: nat)
    requires Rising(offset, boundaries) && |ids| == |boundaries| && boundaries != []
    requires boundaries[|boundaries| - 1] == offset + |data|
    requires Sum(Counts(NonBlankLines, Pieces(data, offset, boundaries, |boundaries|))) == NonBlankLines(data)
    requires IsRow(NonBlankLines, Blank, data, p, row, q, k)
    ensures i < |ids|
    ensures var perRow := PerRow(ids, Counts(NonBlankLines, Pieces(data, offset, boundaries, |boundaries|)));
            k < |perRow| && perRow[k] == ids[i]
    ensures InkedWithin(Blank, p, row, Start(offset, boundaries, i) - offset, boundaries[i] - offset)
  {
    NonBlankLinesCounts();
    i := TurnOfRow(NonBlankLines, Blank, ids, data, offset, boundaries, p, row, q, k);
  }

  lemma {:induction false} PieceEnds(data: seq<Byte>, offset: nat, boundaries: seq<nat>, i: nat)
    requires Rising(offset, boundaries) && boundaries != [] && i <= |boundaries|
    requires boundaries[|boundaries| - 1] == offset + |data|
    ensures |Concat(Pieces(data, offset, boundaries, |boundaries|)[..i])| == Start(offset, boundaries, i) - offset
    ensures Concat(Pieces(data, offset, boundaries, |boundaries|)) == data
  {
    PiecesPrefix(data, offset, boundaries, |boundaries|, i);
    PiecesMakeUpto(data, offset, boundaries, i);
    PiecesMakeUpto(data, offset, boundaries, |boundaries|);
    if i < |boundaries| {
      StartWithin(offset, boundaries, i);
    }
  }

  lemma StartWithin(offset: nat, boundaries: seq<nat>, i: nat)
    requires Rising(offset, boundaries) && i < |boundaries|
    ensures offset <= Start(offset, boundaries, i) <= boundaries[i] <= boundaries[|boundaries| - 1]
  {
  }

  lemma NoLinesInNothing()
    ensures NonBlankLines([]) == 0
  {
    SingleLine([]);
  }

  lemma {:induction false} RowAtStart(row: seq<Byte>, q: seq<Byte>)
    requires NEWLINE !in row && !Blank(row) && (q == [] || q[0] == NEWLINE)
    ensures IsRow(NonBlankLines, Blank, row + q, [], row, q, 0)
  {
    NoLinesInNothing();
    assert [] + row == row;
  }

  lemma CutAtLineEnd(data: seq<Byte>) returns (first: seq<Byte>, q: seq<Byte>)
    ensures first == data[..LineEnd(data)] && q == data[LineEnd(data)..] && data == first + q
    ensures NEWLINE !in first && (q == [] || q[0] == NEWLINE)
  {
    first, q := data[..LineEnd(data)], data[LineEnd(data)..];
  }

  lemma LineAndRest(data: seq<Byte>)
    requires LineEnd(data) < |data|
    ensures var first, rest := data[..LineEnd(data)], data[LineEnd(data) + 1..];
            && data == first + [NEWLINE] + rest && NEWLINE !in first
            && NonBlankLines(data) == Ink(first) + NonBlankLines(rest)
  {
  }

  /** There is a row for every non-blank line that was counted. */
  lemma {:induction false} EveryLineIsARow(data: seq<Byte>, k: nat) returns (p: seq<Byte>, row: seq<Byte>, q: seq<Byte>)
    requires k < NonBlankLines(data)
    ensures IsRow(NonBlankLines, Blank, data, p, row, q, k)
    decreases |data|
  {
    var n := LineEnd(data);
    if k == 0 && !Blank(data[..n]) {
      p := [];
      row, q := CutAtLineEnd(data);
      RowAtStart(row, q);
    } else {
      LineAndRest(data);
      var first, p1 := data[..n], [];
      p1, row, q := EveryLineIsARow(data[n + 1..], k - Ink(first));
      p := first + [NEWLINE] + p1;
      RowBehindLine(first, data[n + 1..], p1, row, q, k - Ink(first));
    }
  }

  lemma JoinFour(first: seq<Byte>, p: seq<Byte>, row: seq<Byte>, q: seq<Byte>)
    ensures first + (p + row + q) == (first + p) + row + q
  {
  }

  lemma EndsInNewline(first: seq<Byte>, p: seq<Byte>)
    requires p == [] || p[|p| - 1] == NEWLINE
    ensures var all := first + [NEWLINE] + p; all[|all| - 1] == NEWLINE
  {
  }

  lemma RowBehindLine(first: seq<Byte>, rest: seq<Byte>, p: seq<Byte>, row: seq<Byte>, q: seq<Byte>, k: nat)
    requires NEWLINE !in first && IsRow(NonBlankLines, Blank, rest, p, row, q, k)
    ensures IsRow(NonBlankLines, Blank, first + [NEWLINE] + rest, first + [NEWLINE] + p, row, q, k + Ink(first))
  {
    FirstLineApart(first, p);
    EndsInNewline(first, p);
    JoinFour(first + [NEWLINE], p, row, q);
  }

  /** The byte ranges of the turns together never count fewer non-blank lines than the appended bytes do. */
  lemma {:induction false} TurnsNeverLower(data: seq<Byte>, offset: nat, boundaries: seq<nat>)
    requires Rising(offset, boundaries) && boundaries != []
    requires boundaries[|boundaries| - 1] == offset + |data|
    ensures NonBlankLines(data) <= Sum(Counts(NonBlankLines, Pieces(data, offset, boundaries, |boundaries|)))
  {
    NonBlankLinesCounts();
    PieceEnds(data, offset, boundaries, 0);
    CutsNeverLower(NonBlankLines, Blank, Pieces(data, offset, boundaries, |boundaries|));
  }

  function ChatsBefore(rows: seq<Row>, k: nat): (n: nat)
    requires k <= |rows|
    ensures n <= k
  {
    if k == 0 then 0 else (if rows[0].chat then 1 else 0) + ChatsBefore(rows[1..], k - 1)
  }

  /** Leaving out the rows of other calls keeps every chat row with its own turn. */
  lemma {:induction false} ChatRowsKeepTheirTurn<T>(perRow: seq<T>, rows: seq<Row>, k: nat)
    requires |perRow| == |rows| && k < |rows| && rows[k].chat
    ensures |ChatTurns(perRow, rows)| == ChatsBefore(rows, |rows|)
    ensures ChatsBefore(rows, k) < |ChatTurns(perRow, rows)|
    ensures ChatTurns(perRow, rows)[ChatsBefore(rows, k)] == perRow[k]
  {
    ChatTurnsLength(perRow[1..], rows[1..]);
    if k > 0 {
      ChatRowsKeepTheirTurn(perRow[1..], rows[1..], k - 1);
    }
  }

  lemma {:induction false} ChatTurnsLength<T>(perRow: seq<T>, rows: seq<Row>)
    requires |perRow| == |rows|
    ensures |ChatTurns(perRow, rows)| == ChatsBefore(rows, |rows|)
  {
    if rows != [] {
      ChatTurnsLength(perRow[1..], rows[1..]);
    }
  }

  /**
   * What a consistent slice buys: chat row k, whatever other rows lie around it, is credited to a turn whose byte range
   * holds all that is inked of its line.
   */
  lemma ChatRowInItsTurn<T>(ids: seq<T>, slice: Slice, offset: nat, boundaries: seq<nat>,
                            p: seq<Byte>, row: seq<Byte>, q: seq<Byte>, k: nat)
    returns (i: nat)
    requires Rising(offset, boundaries) && |ids| == |boundaries| && boundaries != []
    requires slice.counts == Counts(NonBlankLines, Pieces(slice.data, offset, boundaries, |boundaries|))
    requires slice.skipped == NonBlankLines(slice.data) - |slice.rows|
    requires slice.consistent && slice.skipped == 0 && Sum(slice.counts) == |slice.rows|
    requires boundaries[|boundaries| - 1] == offset + |slice.data|
    requires IsRow(NonBlankLines, Blank, slice.data, p, row, q, k) && k < |slice.rows| && slice.rows[k].chat
    ensures var turns, at := RowTurns(ids, slice), ChatsBefore(slice.rows, k);
            i < |ids| && turns.Some? && at < |turns.value| && turns.value[at] == ids[i]
    ensures InkedWithin(Blank, p, row, Start(offset, boundaries, i) - offset, boundaries[i] - offset)
  {
    i := RowInItsTurn(ids, slice.data, offset, boundaries, p, row, q, k);
    ChatRowsKeepTheirTurn(PerRow(ids, slice.counts), slice.rows, k);
  }

  /** A cut inside a two-byte space is seen: the halves count as two non-blank lines where the whole counts none. */
  lemma CutInsideSpace()
    ensures NonBlankLines([0xC2, 0xA0]) == 0
    ensures NonBlankLines([0xC2]) + NonBlankLines([0xA0]) == 2
  {
    SingleLine([0xC2, 0xA0]);
    SingleLine([0xC2]);
    SingleLine([0xA0]);
    assert Blank([0xC2, 0xA0][2..]);
  }
}
