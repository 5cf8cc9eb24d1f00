/** Where a message ends, whatever bytes follow its header section: by its chunks, by its length field, or at
    once. Said of the bytes of the stream. */
module Http1Ends {
  import opened Base
  import opened Walk
  import opened Http1
  import opened Http1Messages
  import opened Http1Heads
  import opened RewriteSound
  import opened Numbers

  // ----- Line ends

  predicate EndsLine(s: bytes, at: nat)
  {
    at + 2 <= |s| && s[at..at + 2] == Text("\r\n")
  }

  predicate EndsSection(s: bytes, at: nat)
  {
    at + 4 <= |s| && s[at..at + 4] == Text("\r\n\r\n")
  }

  /** The first line end at or behind `from`. */
  predicate FirstLineEnd(s: bytes, from: nat, at: nat)
  {
    from <= at && EndsLine(s, at) && forall k: nat :: from <= k < at ==> !EndsLine(s, k)
  }

  predicate FirstSectionEnd(s: bytes, from: nat, at: nat)
  {
    from <= at && EndsSection(s, at) && forall k: nat :: from <= k < at ==> !EndsSection(s, k)
  }

  lemma {:induction false} EndsMean(s: bytes, at: nat)
    ensures EndsLine(s, at) <==> at + 2 <= |s| && s[at] == CR && s[at + 1] == LF
    ensures EndsSection(s, at) <==>
              at + 4 <= |s| && s[at] == CR && s[at + 1] == LF && s[at + 2] == CR && s[at + 3] == LF
  {
    if at + 2 <= |s| {
      assert s[at..at + 2] == [s[at], s[at + 1]];
    }
    if at + 4 <= |s| {
      assert Text("\r\n\r\n") == [CR, LF, CR, LF];
      assert s[at..at + 4] == [s[at], s[at + 1], s[at + 2], s[at + 3]];
    }
  }

  lemma {:induction false} FindCrlfMeans(s: bytes, from: nat)
    requires from <= |s|
    ensures match FindCrlf(s[from..])
            case Some(n) => FirstLineEnd(s, from, from + n)
            case None => forall k: nat :: from <= k ==> !EndsLine(s, k)
    decreases |s| - from
  {
    forall k: nat
      ensures EndsLine(s, k) ==> k + 2 <= |s|
    {
    }
    if from + 2 <= |s| {
      EndsMean(s, from);
      if !EndsLine(s, from) {
        assert s[from..][1..] == s[from + 1..];
        FindCrlfMeans(s, from + 1);
      }
    }
  }

  lemma {:induction false} FindBlankMeans(s: bytes, from: nat)
    requires from <= |s|
    ensures match FindBlank(s[from..])
            case Some(n) => FirstSectionEnd(s, from, from + n)
            case None => forall k: nat :: from <= k ==> !EndsSection(s, k)
    decreases |s| - from
  {
    forall k: nat
      ensures EndsSection(s, k) ==> k + 4 <= |s|
    {
    }
    if from + 4 <= |s| {
      EndsMean(s, from);
      if !EndsSection(s, from) {
        assert s[from..][1..] == s[from + 1..];
        FindBlankMeans(s, from + 1);
      }
    }
  }

  // ----- Chunks

  /** The size field of a chunk line: up to the first semicolon, or the whole line. */
  predicate SizeField(line: bytes, field: bytes)
  {
    field <= line && ';' as int !in field && (|field| == |line| || line[|field|] == ';' as int)
  }

  lemma {:induction false} FirstPartIsSize(line: bytes)
    ensures SizeField(line, SplitOn(line, SEMICOLON)[0])
  {
    if line != [] && line[0] != SEMICOLON {
      FirstPartIsSize(line[1..]);
      var field := SplitOn(line[1..], SEMICOLON)[0];
      assert SplitOn(line, SEMICOLON)[0] == [line[0]] + field;
      assert line == [line[0]] + line[1..];
    }
  }

  lemma {:induction false} OneSizeField(line: bytes, a: bytes, b: bytes)
    requires SizeField(line, a) && SizeField(line, b)
    ensures a == b
  {
  }

  /** The line announces a chunk of `n` bytes. */
  ghost predicate AnnouncesChunk(line: bytes, n: nat)
  {
    n < 0x1_0000_0000_0000_0000 && exists field :: SizeField(line, field) && Announces(field, n, 16)
  }

  lemma {:induction false} ChunkSizeIff(line: bytes, n: nat)
    ensures ChunkSize(line) == Some(n) <==> AnnouncesChunk(line, n)
  {
    var field := SplitOn(line, SEMICOLON)[0];
    FirstPartIsSize(line);
    NumberReadsIff(field, n, 16, 0x1_0000_0000_0000_0000);
    if AnnouncesChunk(line, n) {
      var other :| SizeField(line, other) && Announces(other, n, 16);
      OneSizeField(line, field, other);
    }
  }

  /** The first line at `at` ends at `end` and announces `n` bytes. */
  ghost predicate ChunkLine(s: bytes, at: nat, end: nat, n: nat)
  {
    FirstLineEnd(s, at, end) && AnnouncesChunk(s[at..end], n)
  }

  /** A chunk that is not the last stands from `at` to `next`: its line, its bytes, a line end. */
  ghost predicate ChunkTo(s: bytes, at: nat, next: nat)
  {
    exists end: nat, n: nat ::
      ChunkLine(s, at, end, n) && n > 0 && EndsLine(s, end + 2 + n) && next == end + 2 + n + 2
  }

  /** The last chunk stands from `at` to `next`: its line, and a blank line at once or behind trailers. */
  ghost predicate LastTo(s: bytes, at: nat, next: nat)
  {
    exists end: nat :: ChunkLine(s, at, end, 0) && TrailersTo(s, end + 2, next)
  }

  ghost predicate TrailersTo(s: bytes, from: nat, next: nat)
  {
    if EndsLine(s, from) then next == from + 2 else next >= 4 && FirstSectionEnd(s, from, next - 4)
  }

  /** Chunks that start at `at` and at these places, and then the last one, which ends at `end`. */
  ghost predicate ChunksTo(s: bytes, at: nat, starts: seq<nat>, end: nat)
    decreases |starts|
  {
    if starts == [] then LastTo(s, at, end) else ChunkTo(s, at, starts[0]) && ChunksTo(s, starts[0], starts[1..], end)
  }

  ghost predicate ChunkedTo(s: bytes, at: nat, end: nat)
  {
    exists starts :: ChunksTo(s, at, starts, end)
  }

  lemma {:induction false} OneLineEnd(s: bytes, from: nat, a: nat, b: nat)
    requires FirstLineEnd(s, from, a) && FirstLineEnd(s, from, b)
    ensures a == b
  {
  }

  lemma {:induction false} OneSectionEnd(s: bytes, from: nat, a: nat, b: nat)
    requires FirstSectionEnd(s, from, a) && FirstSectionEnd(s, from, b)
    ensures a == b
  {
  }

  /** The line of the chunk at `at`, and what it announces. */
  lemma {:induction false} LineIsRead(s: bytes, at: nat, n: nat)
    requires at <= |s|
    ensures var found := FindCrlf(s[at..]);
            && (found.Some? ==> at + found.value + 2 <= |s| && FirstLineEnd(s, at, at + found.value))
            && (found.Some? ==>
                  (ChunkLine(s, at, at + found.value, n) <==> ChunkSize(s[at..][..found.value]) == Some(n)))
            && (found.None? ==> forall end: nat :: !FirstLineEnd(s, at, end))
  {
    FindCrlfMeans(s, at);
    var found := FindCrlf(s[at..]);
    if found.Some? {
      assert s[at..][..found.value] == s[at..at + found.value];
      ChunkSizeIff(s[at..at + found.value], n);
    }
  }

  lemma {:induction false} LaterEnd(s: bytes, at: nat, k: nat)
    requires at <= |s|
    ensures StartsLine(s[at..], k) <==> EndsLine(s, at + k)
  {
    EndsMean(s, at + k);
  }

  lemma {:induction false} LastChunkBy(t: bytes, n: nat, from: bytes)
    requires n <= |t| && t[n..] == from
    ensures LastChunk(t, n) == if StartsLine(t, n) then Last(n + 2)
                               else match FindBlank(from)
                                    case Some(k) => Last(n + k + 4)
                                    case None => Unreadable
  {
  }

  lemma {:induction false} TrailersFound(s: bytes, from: nat, next: nat)
    requires from <= |s|
    ensures TrailersTo(s, from, next)
       <==> if EndsLine(s, from) then next == from + 2
            else FindBlank(s[from..]).Some? && next == from + FindBlank(s[from..]).value + 4
  {
    FindBlankMeans(s, from);
    var found := FindBlank(s[from..]);
    if found.Some? && next >= 4 && FirstSectionEnd(s, from, next - 4) {
      OneSectionEnd(s, from, from + found.value, next - 4);
    }
  }

  lemma {:induction false} TrailersAreRead(s: bytes, at: nat, n: nat, next: nat)
    requires at + n <= |s|
    ensures TrailersTo(s, at + n, next) <==> at <= next && LastChunk(s[at..], n) == Last(next - at)
  {
    LaterEnd(s, at, n);
    LastChunkBy(s[at..], n, s[at + n..]);
    TrailersFound(s, at + n, next);
  }

  lemma {:induction false} FirstChunkBy(t: bytes, k: nat, n: nat)
    requires 2 <= k <= |t| && FindCrlf(t) == Some(k - 2) && ChunkSize(t[..k - 2]) == Some(n)
    ensures FirstChunk(t) == if n == 0 then LastChunk(t, k)
                             else if StartsLine(t, k + n) then More(k + n + 2)
                             else Unreadable
  {
  }

  lemma {:induction false} LineFound(s: bytes, at: nat, end: nat, n: nat)
    requires at <= |s| && ChunkLine(s, at, end, n)
    ensures at <= end && end + 2 <= |s|
    ensures FindCrlf(s[at..]) == Some(end - at) && ChunkSize(s[at..][..end - at]) == Some(n)
  {
    LineIsRead(s, at, n);
    OneLineEnd(s, at, end, at + FindCrlf(s[at..]).value);
  }

  lemma {:induction false} BehindFound(s: bytes, at: nat, end: nat, n: nat)
    requires at <= end && end + 2 <= |s|
    requires FindCrlf(s[at..]) == Some(end - at) && ChunkSize(s[at..][..end - at]) == Some(n)
    ensures FirstChunk(s[at..]) == if n == 0 then LastChunk(s[at..], end + 2 - at)
                                   else if EndsLine(s, end + 2 + n) then More(end + 2 + n + 2 - at)
                                   else Unreadable
  {
    LaterEnd(s, at, end + 2 - at + n);
    FirstChunkBy(s[at..], end + 2 - at, n);
  }

  /** What is read behind a chunk line. */
  lemma {:induction false} BehindLine(s: bytes, at: nat, end: nat, n: nat)
    requires at <= |s| && ChunkLine(s, at, end, n)
    ensures at <= end && end + 2 <= |s|
    ensures FirstChunk(s[at..]) == if n == 0 then LastChunk(s[at..], end + 2 - at)
                                   else if EndsLine(s, end + 2 + n) then More(end + 2 + n + 2 - at)
                                   else Unreadable
  {
    LineFound(s, at, end, n);
    BehindFound(s, at, end, n);
  }

  lemma {:induction false} SizeIsNeeded(t: bytes)
    requires FirstChunk(t) != Unreadable
    ensures FindCrlf(t).Some? && FindCrlf(t).value <= |t| && ChunkSize(t[..FindCrlf(t).value]).Some?
  {
    FindCrlfInside(t);
  }

  lemma {:induction false} LineThere(s: bytes, at: nat, a: nat, n: nat)
    requires at <= |s| && a <= |s[at..]| && FindCrlf(s[at..]) == Some(a) && ChunkSize(s[at..][..a]) == Some(n)
    ensures ChunkLine(s, at, at + a, n)
  {
    LineIsRead(s, at, n);
  }

  lemma {:induction false} NoLine(s: bytes, at: nat)
    requires at <= |s| && FirstChunk(s[at..]) != Unreadable
    ensures exists end: nat, n: nat :: ChunkLine(s, at, end, n)
  {
    SizeIsNeeded(s[at..]);
    var a := FindCrlf(s[at..]).value;
    var n := ChunkSize(s[at..][..a]).value;
    LineThere(s, at, a, n);
    assert ChunkLine(s, at, at + a, n);
  }

  /** What is read behind a line that announces bytes is a chunk with more behind it, if its end is there. */
  lemma {:induction false} MiddleBehind(s: bytes, at: nat, end: nat, n: nat, next: nat)
    requires at <= |s| && ChunkLine(s, at, end, n)
    ensures at < next && FirstChunk(s[at..]) == More(next - at)
       <==> n > 0 && EndsLine(s, end + 2 + n) && next == end + 2 + n + 2
  {
    BehindLine(s, at, end, n);
  }

  lemma {:induction false} ChunkIsMiddle(s: bytes, at: nat, next: nat)
    requires at <= |s| && ChunkTo(s, at, next)
    ensures at < next && FirstChunk(s[at..]) == More(next - at)
  {
    var end: nat, n: nat :| ChunkLine(s, at, end, n) && n > 0 && EndsLine(s, end + 2 + n) && next == end + 2 + n + 2;
    MiddleBehind(s, at, end, n, next);
  }

  lemma {:induction false} MiddleIsChunk(s: bytes, at: nat, next: nat)
    requires at <= |s| && at < next && FirstChunk(s[at..]) == More(next - at)
    ensures ChunkTo(s, at, next)
  {
    NoLine(s, at);
    var end: nat, n: nat :| ChunkLine(s, at, end, n);
    MiddleBehind(s, at, end, n, next);
  }

  lemma {:induction false} MiddleIsRead(s: bytes, at: nat, next: nat)
    requires at <= |s|
    ensures ChunkTo(s, at, next) <==> at < next && FirstChunk(s[at..]) == More(next - at)
  {
    if ChunkTo(s, at, next) {
      ChunkIsMiddle(s, at, next);
    }
    if at < next && FirstChunk(s[at..]) == More(next - at) {
      MiddleIsChunk(s, at, next);
    }
  }

  lemma {:induction false} BehindLast(s: bytes, at: nat, end: nat, next: nat)
    requires at <= |s| && ChunkLine(s, at, end, 0)
    ensures TrailersTo(s, end + 2, next) <==> at <= next && FirstChunk(s[at..]) == Last(next - at)
  {
    BehindLine(s, at, end, 0);
    TrailersAreRead(s, at, end + 2 - at, next);
  }

  lemma {:induction false} LastIsRead(s: bytes, at: nat, next: nat)
    requires at <= |s| && LastTo(s, at, next)
    ensures at < next && FirstChunk(s[at..]) == Last(next - at)
  {
    var end: nat :| ChunkLine(s, at, end, 0) && TrailersTo(s, end + 2, next);
    BehindLast(s, at, end, next);
  }

  lemma {:induction false} LineOfLast(s: bytes, at: nat)
    requires at <= |s| && FirstChunk(s[at..]).Last?
    ensures exists end: nat :: ChunkLine(s, at, end, 0)
  {
    NoLine(s, at);
    var end: nat, n: nat :| ChunkLine(s, at, end, n);
    BehindLine(s, at, end, n);
  }

  lemma {:induction false} ReadIsLast(s: bytes, at: nat, next: nat)
    requires at < next && at <= |s| && FirstChunk(s[at..]) == Last(next - at)
    ensures LastTo(s, at, next)
  {
    LineOfLast(s, at);
    var end: nat :| ChunkLine(s, at, end, 0);
    BehindLast(s, at, end, next);
  }

  // ----- The body

  /** Items that start at `at` and at these places, and then a last one that ends at `end`. */
  ghost predicate Chain(read: bytes -> Item, s: bytes, at: nat, starts: seq<nat>, end: nat)
    decreases |starts|
  {
    && at <= |s|
    && if starts == [] then at < end && read(s[at..]) == Last(end - at)
       else at < starts[0] && read(s[at..]) == More(starts[0] - at) && Chain(read, s, starts[0], starts[1..], end)
  }

  lemma {:induction false} EndHasChain(read: bytes -> Item, s: bytes, at: nat, end: nat) returns (starts: seq<nat>)
    requires Bounded(read) && at <= |s| && EndOf(read, s, at) == Some(end)
    ensures Chain(read, s, at, starts, end)
    decreases |s| - at
  {
    match read(s[at..])
    case Last(n) =>
      starts := [];
    case More(n) =>
      var rest := EndHasChain(read, s, at + n, end);
      starts := [at + n] + rest;
      assert starts[1..] == rest;
  }

  lemma {:induction false} ChainHasEnd(read: bytes -> Item, s: bytes, at: nat, starts: seq<nat>, end: nat)
    requires Bounded(read) && at <= |s| && Chain(read, s, at, starts, end)
    ensures EndOf(read, s, at) == Some(end)
    decreases |starts|
  {
    if starts != [] {
      ChainHasEnd(read, s, starts[0], starts[1..], end);
    }
  }

  lemma {:induction false} ChainIsChunks(s: bytes, at: nat, starts: seq<nat>, end: nat)
    requires at <= |s|
    ensures Chain(FirstChunk, s, at, starts, end) <==> ChunksTo(s, at, starts, end)
    decreases |starts|
  {
    if starts == [] {
      LastIff(s, at, end);
    } else {
      MiddleIsRead(s, at, starts[0]);
      if ChunkTo(s, at, starts[0]) {
        ChainIsChunks(s, starts[0], starts[1..], end);
      }
    }
  }

  lemma {:induction false} LastIff(s: bytes, at: nat, next: nat)
    requires at <= |s|
    ensures LastTo(s, at, next) <==> at < next && FirstChunk(s[at..]) == Last(next - at)
  {
    if LastTo(s, at, next) {
      LastIsRead(s, at, next);
    }
    if at < next && FirstChunk(s[at..]) == Last(next - at) {
      ReadIsLast(s, at, next);
    }
  }

  /** A chunked body that starts at `offset` ends at `end` exactly if chunks stand between the two, and the
      last one there ends at `end`; so it has no end exactly if there are no such chunks. */
  lemma {:induction false} ChunkedEndIff(s: bytes, offset: nat, end: nat)
    requires offset <= |s|
    ensures ChunkedEnd(s, offset) == Some(end) <==> ChunkedTo(s, offset, end)
  {
    if ChunkedEnd(s, offset) == Some(end) {
      var starts := EndHasChain(FirstChunk, s, offset, end);
      ChainIsChunks(s, offset, starts, end);
    }
    if ChunkedTo(s, offset, end) {
      var starts :| ChunksTo(s, offset, starts, end);
      ChainIsChunks(s, offset, starts, end);
      ChainHasEnd(FirstChunk, s, offset, starts, end);
    }
  }

  // ----- Which end a header section announces

  /** The first Content-Length field announces `n` bytes. */
  ghost predicate FirstLength(lines: seq<bytes>, n: nat)
  {
    n < 0x1_0000_0000_0000_0000
    && exists i: nat, colon: nat ::
         FirstFieldAt(lines, Text("content-length"), i, colon) && Announces(lines[i][colon + 1..], n, 10)
  }

  ghost predicate HasLength(lines: seq<bytes>)
  {
    exists i :: 0 <= i < |lines| && IsField(lines[i], Text("content-length"))
  }

  ghost predicate IsChunked(lines: seq<bytes>)
  {
    FirstLists(lines, Text("transfer-encoding"), Text("chunked"))
  }

  function CodeOf(line: bytes): int
    requires |line| >= 12
  {
    100 * (line[9] as int - '0' as int) + 10 * (line[10] as int - '0' as int) + (line[11] as int - '0' as int)
  }

  /** A request, or a response with status 1xx, 204 or 304. */
  predicate NeedsNoBody(kind: Kind, start: bytes)
    requires kind == Response ==> |start| >= 12
  {
    kind == Request || 100 <= CodeOf(start) < 200 || CodeOf(start) == 204 || CodeOf(start) == 304
  }

  lemma {:induction false} TrimTwice(s: bytes)
    ensures Trim(Trim(s)) == Trim(s)
  {
    TrimIsTrimmed(s);
    assert SpacedOut(Trim(s), [], Trim(s), []);
    TrimmedIsTrim(Trim(s), Trim(s));
  }

  lemma {:induction false} FirstLengthAt(lines: seq<bytes>, n: nat, i: nat, colon: nat)
    requires FirstFieldAt(lines, Text("content-length"), i, colon)
    ensures FirstLength(lines, n) <==> n < 0x1_0000_0000_0000_0000 && Announces(lines[i][colon + 1..], n, 10)
    ensures HasLength(lines)
  {
    forall j: nat, c: nat | FirstFieldAt(lines, Text("content-length"), j, c)
      ensures j == i && c == colon
    {
      FirstFieldIsOne(lines, Text("content-length"), i, colon, j, c);
    }
    assert IsField(lines[i], Text("content-length"));
  }

  lemma {:induction false} NoLength(lines: seq<bytes>, n: nat)
    requires !HasLength(lines)
    ensures !FirstLength(lines, n)
  {
    forall i: nat, colon: nat
      ensures !FirstFieldAt(lines, Text("content-length"), i, colon)
    {
    }
  }

  lemma {:induction false} ValueReads(value: bytes, n: nat)
    ensures ParseNumber(Trim(Trim(value)), 10, WORD) == Some(n)
       <==> n < 0x1_0000_0000_0000_0000 && Announces(value, n, 10)
  {
    TrimTwice(value);
    NumberReadsIff(value, n, 10, 0x1_0000_0000_0000_0000);
  }

  lemma {:induction false} FirstLengthMeans(lines: seq<bytes>, n: nat)
    requires GoodLines(lines)
    ensures var value := FirstField(WithCr(lines), CONTENT_LENGTH);
            && (value.Some? <==> HasLength(lines))
            && (FirstLength(lines, n) <==> value.Some? && ParseNumber(Trim(value.value), 10, WORD) == Some(n))
  {
    Http1Heads.NamesAreSpelled();
    FirstFieldMeans(lines, CONTENT_LENGTH);
    match FirstField(WithCr(lines), CONTENT_LENGTH)
    case None =>
      NoLength(lines, n);
    case Some(v) =>
      var i: nat, colon: nat :| FirstFieldAt(lines, CONTENT_LENGTH, i, colon) && v == Trim(lines[i][colon + 1..]);
      FirstLengthAt(lines, n, i, colon);
      ValueReads(lines[i][colon + 1..], n);
  }

  lemma {:induction false} ThreeDigits(a: byte, b: byte, c: byte)
    requires IsDigit(a) && IsDigit(b) && IsDigit(c)
    ensures ParseNumber([a, b, c], 10, STATUS_LIMIT) == Some(100 * (a - 48) + 10 * (b - 48) + (c - 48))
  {
    assert [a, b, c][..2] == [a, b] && [a, b][..1] == [a] && [a][..0] == [];
    assert Digits([], 10) == Some(0);
    assert Digits([a], 10) == Some(a - 48);
    assert Digits([a, b], 10) == Some(10 * (a - 48) + (b - 48));
  }

  lemma {:induction false} NeedsNoBodyMeans(kind: Kind, start: bytes)
    requires IsStart(kind, start)
    ensures kind == Response ==> |start| >= 12
    ensures ResponseHasNoBody(start) || kind == Request <==> NeedsNoBody(kind, start)
  {
    if kind == Response {
      ThreeDigits(start[9], start[10], start[11]);
      assert start[9..12] == [start[9], start[10], start[11]];
    }
  }

  /** Where the message ends whose header section has these lines and stands in front of `from`. */
  ghost predicate EndsAt(kind: Kind, start: bytes, lines: seq<bytes>, s: bytes, from: nat, end: nat)
    requires kind == Response ==> |start| >= 12
  {
    if IsChunked(lines) then ChunkedTo(s, from, end)
    else if HasLength(lines) then from <= end <= |s| && FirstLength(lines, end - from)
    else NeedsNoBody(kind, start) && end == from
  }

  /** A stream that begins with a header section begins with a message of a certain length exactly if the
      section is a good one and its first fields put the end there: the end of the chunks if the first
      Transfer-Encoding field lists chunked, else the end of as many bytes as the first Content-Length field
      says, else the end of the section itself, of a message that needs no body. */
  lemma {:induction false} MessageEndsIff(kind: Kind, start: bytes, lines: seq<bytes>, rest: bytes, end: nat)
    requires OneLine(start) && GoodLines(lines)
    ensures var head := PrintHead(start, lines);
            && (FirstMessage(kind, head + rest) == More(end)
                <==> (IsStart(kind, start) && !AsksUpgrade(lines)
                      && EndsAt(kind, start, lines, head + rest, |head|, end)))
            && !FirstMessage(kind, head + rest).Last?
  {
    var head := PrintHead(start, lines);
    MessageFoundIff(kind, start, lines, rest);
    if IsStart(kind, start) {
      BodyEndIff(kind, start, lines, head + rest, end);
    }
  }

  lemma {:induction false} EndByIff(chunked: bool, value: Option<bytes>, bare: bool, s: bytes, offset: nat, end: nat)
    requires offset <= |s|
    ensures EndBy(chunked, value, bare, s, offset) == Some(end)
       <==> if chunked then ChunkedEnd(s, offset) == Some(end)
            else if value.Some? then
              offset <= end <= |s| && ParseNumber(Trim(value.value), 10, WORD) == Some(end - offset)
            else bare && end == offset
  {
  }

  lemma {:induction false} HeadTells(kind: Kind, start: bytes, lines: seq<bytes>, s: bytes)
    requires OneLine(start) && GoodLines(lines) && IsStart(kind, start)
    requires var head := PrintHead(start, lines); |head| <= |s|
    ensures kind == Response ==> |start| >= 12
    ensures var head, value := PrintHead(start, lines), FirstField(WithCr(lines), CONTENT_LENGTH);
            BodyEnd(head, start, kind, s, |head|)
            == EndBy(IsChunked(lines), value, NeedsNoBody(kind, start), s, |head|)
  {
    Http1Heads.NamesAreSpelled();
    NeedsNoBodyMeans(kind, start);
    HeaderReadsBack(start, lines, TRANSFER_ENCODING);
    HeaderReadsBack(start, lines, CONTENT_LENGTH);
    FirstListsMeans(lines, TRANSFER_ENCODING, CHUNKED);
  }

  lemma {:induction false} BodyEndIff(kind: Kind, start: bytes, lines: seq<bytes>, s: bytes, end: nat)
    requires OneLine(start) && GoodLines(lines) && IsStart(kind, start)
    requires var head := PrintHead(start, lines); |head| <= |s|
    ensures kind == Response ==> |start| >= 12
    ensures var head := PrintHead(start, lines);
            BodyEnd(head, start, kind, s, |head|) == Some(end) <==> EndsAt(kind, start, lines, s, |head|, end)
  {
    var head, value := PrintHead(start, lines), FirstField(WithCr(lines), CONTENT_LENGTH);
    HeadTells(kind, start, lines, s);
    EndByIff(IsChunked(lines), value, NeedsNoBody(kind, start), s, |head|, end);
    ChunkedEndIff(s, |head|, end);
    FirstLengthMeans(lines, if end >= |head| then end - |head| else 0);
  }
}
