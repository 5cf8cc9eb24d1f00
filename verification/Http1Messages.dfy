/** HTTP/1.1 messages, how they are written, and how what is written is read back. */
module Http1Messages {
  import opened Base
  import opened Http1
  import opened Walk

  datatype Start =
    | RequestStart(verb: bytes, target: bytes)
    | StatusStart(code: bytes, reason: bytes)

  datatype Field = Field(name: bytes, value: bytes)

  /** A chunk: its size as written, its extensions, its data. */
  datatype Piece = Piece(size: bytes, extension: bytes, data: bytes)

  /** `UntilClose` ends with the connection. */
  datatype Body =
    | NoBody
    | Sized(data: bytes)
    | Chunks(pieces: seq<Piece>, last: Piece, trailers: seq<bytes>)
    | UntilClose(data: bytes)

  /** `toHead`: the message answers a HEAD request, which cannot be seen from its text. */
  datatype Message = Message(start: Start, fields: seq<Field>, body: Body, toHead: bool)

  // ----- Writing

  function PrintStart(start: Start): bytes
  {
    match start
    case RequestStart(verb, target) => verb + [SPACE] + (target + [SPACE] + VERSION)
    case StatusStart(code, reason) => VERSION + [SPACE] + code + reason
  }

  function PrintField(f: Field): bytes
  {
    f.name + [COLON] + f.value
  }

  function FieldLines(fields: seq<Field>): seq<bytes>
  {
    if fields == [] then [] else [PrintField(fields[0])] + FieldLines(fields[1..])
  }

  function Lines(lines: seq<bytes>): bytes
  {
    if lines == [] then [] else lines[0] + CRLF + Lines(lines[1..])
  }

  function PrintHead(start: bytes, lines: seq<bytes>): bytes
  {
    Lines([start] + lines) + CRLF
  }

  function PrintPiece(p: Piece): bytes
  {
    p.size + p.extension + CRLF + (p.data + CRLF)
  }

  function Pieces(pieces: seq<Piece>): seq<bytes>
  {
    if pieces == [] then [] else [PrintPiece(pieces[0])] + Pieces(pieces[1..])
  }

  function PrintLast(last: Piece, trailers: seq<bytes>): bytes
  {
    last.size + last.extension + CRLF + (Lines(trailers) + CRLF)
  }

  function PrintBody(b: Body): bytes
  {
    match b
    case NoBody => []
    case Sized(data) => data
    case Chunks(pieces, last, trailers) => Concat(Pieces(pieces)) + PrintLast(last, trailers)
    case UntilClose(data) => data
  }

  function Print(m: Message): bytes
  {
    PrintHead(PrintStart(m.start), FieldLines(m.fields)) + PrintBody(m.body)
  }

  function Printed(list: seq<Message>): seq<bytes>
  {
    if list == [] then [] else [Print(list[0])] + Printed(list[1..])
  }

  // ----- Messages that can be written

  predicate OneLine(s: bytes)
  {
    LF !in s
  }

  predicate GoodStart(kind: Kind, start: Start)
  {
    match start
    case RequestStart(verb, target) =>
      kind == Request && IsVerb(verb) && target != [] && SPACE !in target && OneLine(target)
    case StatusStart(code, reason) =>
      kind == Response && |code| == 3 && (forall i :: 0 <= i < 3 ==> 48 <= code[i] <= 57) && OneLine(reason)
  }

  predicate GoodField(f: Field)
  {
    COLON !in f.name && OneLine(f.name) && OneLine(f.value)
  }

  /** The value of the first field with this name. */
  function Lookup(fields: seq<Field>, name: bytes): Option<bytes>
  {
    if fields == [] then None
    else if SameName(fields[0].name, name) then Some(Trim(fields[0].value))
    else Lookup(fields[1..], name)
  }

  ghost predicate GoodPiece(p: Piece)
  {
    && SEMICOLON !in p.size && OneLine(p.size) && OneLine(p.extension)
    && (p.extension == [] || p.extension[0] == SEMICOLON)
    && ParseNumber(Trim(p.size), 16, WORD) == Some(|p.data|)
  }

  /** The first fields of their names announce this body: a chunked coding, else a length, else nothing. */
  ghost predicate Announced(start: Start, fields: seq<Field>, b: Body)
  {
    var chunked := Lists(Lookup(fields, TRANSFER_ENCODING), CHUNKED);
    var length := Lookup(fields, CONTENT_LENGTH);
    match b
    case Chunks(pieces, last, trailers) =>
      chunked && GoodChunks(pieces, last, trailers)
    case Sized(data) => !chunked && length.Some? && ParseNumber(Trim(length.value), 10, WORD) == Some(|data|)
    case NoBody =>
      && !chunked && length.None?
      && (start.RequestStart? || BodilessStatus(ParseNumber(start.code, 10, STATUS_LIMIT)))
    case UntilClose(_) => false
  }

  /** The start line and the fields can be written, and ask for no upgrade. */
  ghost predicate GoodHead(kind: Kind, m: Message)
  {
    && GoodStart(kind, m.start)
    && (forall i :: 0 <= i < |m.fields| ==> GoodField(m.fields[i]))
    && Lookup(m.fields, UPGRADE).None? && !Lists(Lookup(m.fields, CONNECTION), UPGRADE)
  }

  ghost predicate Readable(kind: Kind, m: Message)
  {
    GoodHead(kind, m) && Announced(m.start, m.fields, m.body)
  }

  // ----- Finding line ends

  /** No line end starts in `l`, unless a line feed follows. */
  predicate NoEnd(l: bytes)
  {
    |l| >= 2 ==> (l[0] != CR || l[1] != LF) && NoEnd(l[1..])
  }

  lemma {:induction false} OneLineHasNoEnd(l: bytes)
    requires OneLine(l)
    ensures NoEnd(l)
  {
    if |l| >= 2 {
      OneLineHasNoEnd(l[1..]);
    }
  }

  lemma {:induction false} SkipToCrlf(l: bytes, rest: bytes)
    requires NoEnd(l) && rest != [] && rest[0] != LF
    ensures FindCrlf(l + rest) == Shift(FindCrlf(rest), |l|)
  {
    if l == [] {
      assert l + rest == rest;
    } else {
      var s := l + rest;
      assert s[1..] == l[1..] + rest;
      assert s[0] != CR || s[1] != LF by {
        assert |l| > 1 ==> s[1] == l[1];
      }
      SkipToCrlf(l[1..], rest);
    }
  }

  lemma {:induction false} SkipToBlank(l: bytes, rest: bytes)
    requires NoEnd(l) && rest != [] && rest[0] != LF
    ensures FindBlank(l + rest) == Shift(FindBlank(rest), |l|)
  {
    if l == [] {
      assert l + rest == rest;
    } else {
      var s := l + rest;
      assert s[1..] == l[1..] + rest;
      assert s[0] != CR || s[1] != LF by {
        assert |l| > 1 ==> s[1] == l[1];
      }
      SkipToBlank(l[1..], rest);
      if |s| < 4 {
        assert FindBlank(rest).None?;
      }
    }
  }

  lemma EndOfLine(l: bytes, rest: bytes)
    requires NoEnd(l)
    ensures FindCrlf(l + CRLF + rest) == Some(|l|)
  {
    SkipToCrlf(l, CRLF + rest);
    assert l + CRLF + rest == l + (CRLF + rest);
  }

  lemma BlankHere(rest: bytes)
    ensures FindBlank(CRLF + (CRLF + rest)) == Some(0)
  {
    var s := CRLF + (CRLF + rest);
    assert s[2] == (CRLF + rest)[0] && s[3] == (CRLF + rest)[1];
  }

  lemma BlankLater(rest: bytes)
    requires !StartsLine(rest, 0)
    ensures FindBlank(CRLF + rest) == Shift(FindBlank(rest), 2)
  {
    var s := CRLF + rest;
    assert s[1..][1..] == rest;
    assert |rest| >= 2 ==> s[2] == rest[0] && s[3] == rest[1];
    if |s| >= 4 {
      assert s[1..][0] == LF;
      if |s| == 4 {
        assert FindBlank(rest).None?;
      }
    }
  }

  lemma NoLineStart(l: bytes, rest: bytes)
    requires OneLine(l) && l != [] && rest != [] && rest[0] != LF
    ensures !StartsLine(l + rest, 0)
  {
    var s := l + rest;
    assert |l| > 1 ==> s[1] == l[1];
  }

  /** The blank line that ends non-empty lines is the first one. */
  lemma {:induction false} BlankAfterLines(first: bytes, lines: seq<bytes>, rest: bytes)
    requires NoEnd(first) && forall i :: 0 <= i < |lines| ==> lines[i] != [] && OneLine(lines[i])
    ensures |Lines([first] + lines)| >= 2
    ensures FindBlank(Lines([first] + lines) + (CRLF + rest)) == Some(|Lines([first] + lines)| - 2)
    decreases |lines|
  {
    var all := [first] + lines;
    assert all[1..] == lines;
    if lines == [] {
      assert Lines(all) + (CRLF + rest) == first + (CRLF + (CRLF + rest));
      BlankHere(rest);
      SkipToBlank(first, CRLF + (CRLF + rest));
    } else {
      var later := Lines(lines) + (CRLF + rest);
      assert Lines(all) + (CRLF + rest) == first + (CRLF + later);
      assert lines == [lines[0]] + lines[1..];
      assert later == lines[0] + (CRLF + (Lines(lines[1..]) + (CRLF + rest)));
      NoLineStart(lines[0], CRLF + (Lines(lines[1..]) + (CRLF + rest)));
      BlankLater(later);
      SkipToBlank(first, CRLF + later);
      OneLineHasNoEnd(lines[0]);
      BlankAfterLines(lines[0], lines[1..], rest);
    }
  }

  // ----- Reading headers back

  lemma {:induction false} SplitOnPart(l: bytes, separator: byte, rest: bytes)
    requires separator !in l
    ensures SplitOn(l + [separator] + rest, separator) == [l] + SplitOn(rest, separator)
  {
    var s := l + [separator] + rest;
    if l == [] {
      assert s[1..] == rest;
    } else {
      assert s[1..] == l[1..] + [separator] + rest;
      SplitOnPart(l[1..], separator, rest);
      var parts := SplitOn(s[1..], separator);
      assert parts[1..] == SplitOn(rest, separator);
      assert [l[0]] + l[1..] == l;
    }
  }

  lemma {:induction false} SplitOnNothing(l: bytes, separator: byte)
    requires separator !in l
    ensures SplitOn(l, separator) == [l]
  {
    if l != [] {
      SplitOnNothing(l[1..], separator);
      assert [l[0]] + l[1..] == l;
    }
  }

  lemma EmptyLineIsNoField(name: bytes)
    ensures FieldIn([CR], name).None? && FieldIn([], name).None?
  {
  }

  lemma NoFieldInEmptyLines(name: bytes)
    ensures FirstField([[CR]] + SplitOn([], LF), name).None?
  {
    EmptyLineIsNoField(name);
    var lines: seq<bytes> := [[CR]] + SplitOn([], LF);
    var rest: seq<bytes> := [[]];
    assert SplitOn([], LF) == rest && lines[1..] == rest && rest[1..] == [];
    assert FirstField(rest, name) == FirstField([], name);
    assert FirstField(lines, name) == FirstField(rest, name);
  }

  /** The fields of written lines are found again. */
  lemma {:induction false} LinesReadBack(lines: seq<bytes>, name: bytes)
    requires forall i :: 0 <= i < |lines| ==> OneLine(lines[i])
    ensures FirstField(SplitOn(Lines(lines) + CRLF, LF), name) == FirstField(WithCr(lines), name)
  {
    if lines == [] {
      assert Lines(lines) + CRLF == [CR] + [LF] + [];
      SplitOnPart([CR], LF, []);
      EmptyLineIsNoField(name);
      NoFieldInEmptyLines(name);
    } else {
      var rest := Lines(lines[1..]) + CRLF;
      assert Lines(lines) + CRLF == (lines[0] + [CR]) + [LF] + rest;
      SplitOnPart(lines[0] + [CR], LF, rest);
      LinesReadBack(lines[1..], name);
    }
  }

  function WithCr(lines: seq<bytes>): seq<bytes>
  {
    if lines == [] then [] else [lines[0] + [CR]] + WithCr(lines[1..])
  }

  lemma {:induction false} IndexOfFirst(l: bytes, b: byte, rest: bytes)
    requires b !in l
    ensures IndexOf(l + [b] + rest, b) == Some(|l|)
  {
    var s := l + [b] + rest;
    if l != [] {
      assert s[1..] == l[1..] + [b] + rest;
      IndexOfFirst(l[1..], b, rest);
    }
  }

  lemma FieldReadsBack(f: Field, name: bytes)
    requires GoodField(f)
    ensures FieldIn(PrintField(f) + [CR], name)
         == if SameName(f.name, name) then Some(Trim(f.value)) else None
  {
    assert StripCr(PrintField(f) + [CR]) == PrintField(f);
    IndexOfFirst(f.name, COLON, f.value);
    assert PrintField(f)[..|f.name|] == f.name;
    assert PrintField(f)[|f.name| + 1..] == f.value;
  }

  lemma {:induction false} FieldsReadBack(fields: seq<Field>, name: bytes)
    requires forall i :: 0 <= i < |fields| ==> GoodField(fields[i])
    ensures FirstField(WithCr(FieldLines(fields)), name) == Lookup(fields, name)
  {
    if fields != [] {
      FieldReadsBack(fields[0], name);
      FieldsReadBack(fields[1..], name);
    }
  }

  lemma {:induction false} FieldLinesAreLines(fields: seq<Field>)
    requires forall i :: 0 <= i < |fields| ==> GoodField(fields[i])
    ensures |FieldLines(fields)| == |fields|
    ensures forall i :: 0 <= i < |fields| ==> FieldLines(fields)[i] != [] && OneLine(FieldLines(fields)[i])
  {
    if fields != [] {
      FieldLinesAreLines(fields[1..]);
      assert OneLine(PrintField(fields[0]));
    }
  }

  ghost predicate GoodLines(lines: seq<bytes>)
  {
    forall i :: 0 <= i < |lines| ==> lines[i] != [] && OneLine(lines[i])
  }

  /** A written header section is found whole, with its start line and its lines. */
  lemma HeadReadsBack(start: bytes, lines: seq<bytes>, rest: bytes)
    requires NoEnd(start) && GoodLines(lines)
    ensures HeadersOf(PrintHead(start, lines) + rest) == Some(PrintHead(start, lines))
    ensures StartLine(PrintHead(start, lines)) == Some(start)
  {
    var all, head := [start] + lines, PrintHead(start, lines);
    BlankAfterLines(start, lines, rest);
    assert head + rest == Lines(all) + (CRLF + rest);
    assert (head + rest)[..|head|] == head;
    assert all[1..] == lines;
    assert head == start + CRLF + (Lines(lines) + CRLF);
    EndOfLine(start, Lines(lines) + CRLF);
    assert head[..|start|] == start;
  }

  lemma HeaderReadsBack(start: bytes, lines: seq<bytes>, name: bytes)
    requires OneLine(start) && GoodLines(lines)
    ensures HeaderValue(PrintHead(start, lines), name) == FirstField(WithCr(lines), name)
  {
    var all, head := [start] + lines, PrintHead(start, lines);
    assert all[1..] == lines;
    assert head == (start + [CR]) + [LF] + (Lines(lines) + CRLF);
    SplitOnPart(start + [CR], LF, Lines(lines) + CRLF);
    assert SplitOn(head, LF)[1..] == SplitOn(Lines(lines) + CRLF, LF);
    LinesReadBack(lines, name);
  }

  // ----- Start lines

  lemma {:induction false} RequestStartIsValid(verb: bytes, target: bytes)
    requires IsVerb(verb) && target != [] && SPACE !in target
    ensures ValidRequestLine(verb + [SPACE] + (target + [SPACE] + VERSION))
    ensures SplitOn(verb + [SPACE] + (target + [SPACE] + VERSION), SPACE) == [verb, target, VERSION]
  {
    RestOfStart(target);
    SplitOnPart(verb, SPACE, target + [SPACE] + VERSION);
    assert [verb] + [target, VERSION] == [verb, target, VERSION];
  }

  lemma {:induction false} RestOfStart(target: bytes)
    requires SPACE !in target
    ensures SplitOn(target + [SPACE] + VERSION, SPACE) == [target, VERSION]
  {
    SplitOnPart(target, SPACE, VERSION);
    SplitOnNothing(VERSION, SPACE);
  }

  lemma StartIsValid(kind: Kind, start: Start)
    requires GoodStart(kind, start)
    ensures ValidStart(kind, PrintStart(start)) && OneLine(PrintStart(start)) && NoEnd(PrintStart(start))
    ensures start.StatusStart? ==> PrintStart(start)[9..12] == start.code
  {
    OneLineHasNoEnd(PrintStart(start));
    match start
    case RequestStart(verb, target) =>
      RequestStartIsValid(verb, target);
    case StatusStart(code, reason) =>
      var line := PrintStart(start);
      assert line[..8] == VERSION;
      assert line[9..12] == code;
      assert forall i :: 9 <= i < 12 ==> line[i] == line[9..12][i - 9];
  }

  // ----- Bodies

  lemma ChunkLineReads(p: Piece, rest: bytes)
    requires GoodPiece(p)
    ensures var s := p.size + p.extension + CRLF + rest;
            var n := |p.size| + |p.extension|;
            FindCrlf(s) == Some(n) && ChunkSize(s[..n]) == Some(|p.data|) && s[n + 2..] == rest
  {
    var line := p.size + p.extension;
    OneLineHasNoEnd(line);
    EndOfLine(line, rest);
    assert (line + CRLF + rest)[..|line|] == line;
    if p.extension == [] {
      assert line == p.size;
      SplitOnNothing(p.size, SEMICOLON);
    } else {
      assert line == p.size + [SEMICOLON] + p.extension[1..];
      SplitOnPart(p.size, SEMICOLON, p.extension[1..]);
    }
  }

  lemma PieceReads(p: Piece, rest: bytes)
    requires GoodPiece(p) && p.data != []
    ensures FirstChunk(PrintPiece(p) + rest) == More(|PrintPiece(p)|)
  {
    var s := PrintPiece(p) + rest;
    var body := p.data + CRLF + rest;
    assert s == p.size + p.extension + CRLF + body;
    ChunkLineReads(p, body);
    var n := |p.size| + |p.extension| + 2;
    assert s[n..][|p.data|] == CR && s[n..][|p.data| + 1] == LF;
  }

  lemma {:induction false} PiecesAreRecognised(pieces: seq<Piece>)
    requires GoodPieces(pieces)
    ensures RecognisesAll(FirstChunk, Pieces(pieces))
  {
    if pieces != [] {
      PiecesAreRecognised(pieces[1..]);
      PieceIsRecognised(pieces[0]);
    }
  }

  lemma PieceIsRecognised(p: Piece)
    requires GoodPiece(p) && p.data != []
    ensures Recognises(FirstChunk, PrintPiece(p))
  {
    forall more: bytes
      ensures FirstChunk(PrintPiece(p) + more) == More(|PrintPiece(p)|)
    {
      PieceReads(p, more);
    }
  }

  lemma {:induction false} LastReads(last: Piece, trailers: seq<bytes>, rest: bytes)
    requires GoodPiece(last) && last.data == [] && GoodLines(trailers)
    ensures FirstChunk(PrintLast(last, trailers) + rest) == Last(|PrintLast(last, trailers)|)
  {
    var s := PrintLast(last, trailers) + rest;
    var section := Lines(trailers) + (CRLF + rest);
    var n := |last.size| + |last.extension| + 2;
    assert s == last.size + last.extension + CRLF + section;
    ChunkLineReads(last, section);
    assert LastChunk(s, n) == FirstChunk(s);
    TrailersRead(s, n, trailers, rest);
  }

  /** The trailers and the blank line, which follow the line of the last chunk. */
  lemma {:induction false} TrailersRead(s: bytes, n: nat, trailers: seq<bytes>, rest: bytes)
    requires GoodLines(trailers) && n <= |s| && s[n..] == Lines(trailers) + (CRLF + rest)
    ensures LastChunk(s, n) == Last(n + |Lines(trailers)| + 2)
  {
    var section := Lines(trailers) + (CRLF + rest);
    assert StartsLine(s, n) <==> StartsLine(section, 0) by {
      assert |section| >= 2 && s[n..][0] == s[n] && s[n..][1] == s[n + 1];
    }
    if trailers == [] {
      assert section == CRLF + rest;
    } else {
      TrailersEnd(trailers, rest);
    }
  }

  lemma {:induction false} TrailersEnd(trailers: seq<bytes>, rest: bytes)
    requires GoodLines(trailers) && trailers != []
    ensures var section := Lines(trailers) + (CRLF + rest);
            !StartsLine(section, 0) && FindBlank(section) == Some(|Lines(trailers)| - 2)
  {
    var more := Lines(trailers[1..]) + (CRLF + rest);
    assert trailers == [trailers[0]] + trailers[1..];
    assert Lines(trailers) + (CRLF + rest) == trailers[0] + (CRLF + more);
    NoLineStart(trailers[0], CRLF + more);
    OneLineHasNoEnd(trailers[0]);
    BlankAfterLines(trailers[0], trailers[1..], rest);
  }

  ghost predicate GoodPieces(pieces: seq<Piece>)
  {
    forall i :: 0 <= i < |pieces| ==> GoodPiece(pieces[i]) && pieces[i].data != []
  }

  ghost predicate GoodChunks(pieces: seq<Piece>, last: Piece, trailers: seq<bytes>)
  {
    && GoodPieces(pieces)
    && GoodPiece(last) && last.data == [] && GoodLines(trailers)
  }

  lemma TextsEndChunked(s: bytes, offset: nat, texts: seq<bytes>, last: bytes, rest: bytes)
    requires RecognisesAll(FirstChunk, texts) && FirstChunk(last + rest) == Last(|last|)
    requires Stands(s, offset, Concat(texts) + last + rest)
    ensures ChunkedEnd(s, offset) == Some(offset + |Concat(texts) + last|)
  {
    TextsHaveEnd(FirstChunk, s, offset, texts, last, rest);
  }

  /** A written chunked body is read to its end, wherever it stands. */
  lemma ChunksRead(s: bytes, offset: nat, pieces: seq<Piece>, last: Piece, trailers: seq<bytes>, rest: bytes)
    requires GoodChunks(pieces, last, trailers)
    requires Stands(s, offset, Concat(Pieces(pieces)) + PrintLast(last, trailers) + rest)
    ensures ChunkedEnd(s, offset) == Some(offset + |Concat(Pieces(pieces)) + PrintLast(last, trailers)|)
  {
    PiecesAreRecognised(pieces);
    LastReads(last, trailers, rest);
    TextsEndChunked(s, offset, Pieces(pieces), PrintLast(last, trailers), rest);
  }

  // ----- Messages

  lemma HeadIsSupported(kind: Kind, m: Message)
    requires GoodHead(kind, m)
    ensures Supported(kind, PrintHead(PrintStart(m.start), FieldLines(m.fields)))
    ensures StartLine(PrintHead(PrintStart(m.start), FieldLines(m.fields))) == Some(PrintStart(m.start))
  {
    var start, lines := PrintStart(m.start), FieldLines(m.fields);
    StartIsValid(kind, m.start);
    FieldLinesAreLines(m.fields);
    HeadReadsBack(start, lines, []);
    HeaderIsLookup(kind, m, UPGRADE);
    HeaderIsLookup(kind, m, CONNECTION);
  }

  lemma HeaderIsLookup(kind: Kind, m: Message, name: bytes)
    requires GoodHead(kind, m)
    ensures HeaderValue(PrintHead(PrintStart(m.start), FieldLines(m.fields)), name) == Lookup(m.fields, name)
  {
    StartIsValid(kind, m.start);
    FieldLinesAreLines(m.fields);
    HeaderReadsBack(PrintStart(m.start), FieldLines(m.fields), name);
    FieldsReadBack(m.fields, name);
  }

  lemma {:induction false} HeadSays(kind: Kind, m: Message, head: bytes)
    requires Readable(kind, m) && head == PrintHead(PrintStart(m.start), FieldLines(m.fields))
    ensures HeaderValue(head, TRANSFER_ENCODING) == Lookup(m.fields, TRANSFER_ENCODING)
    ensures HeaderValue(head, CONTENT_LENGTH) == Lookup(m.fields, CONTENT_LENGTH)
    ensures GoodStart(kind, m.start) && Announced(m.start, m.fields, m.body)
    ensures m.start.StatusStart? ==> |PrintStart(m.start)| >= 12 && PrintStart(m.start)[9..12] == m.start.code
  {
    HeaderIsLookup(kind, m, TRANSFER_ENCODING);
    HeaderIsLookup(kind, m, CONTENT_LENGTH);
    StartIsValid(kind, m.start);
  }

  /** What the fields of a readable message say about its body. */
  lemma {:induction false} BodyIsAnnounced(kind: Kind, m: Message, headers: bytes, line: bytes)
    requires GoodStart(kind, m.start) && Announced(m.start, m.fields, m.body)
    requires HeaderValue(headers, TRANSFER_ENCODING) == Lookup(m.fields, TRANSFER_ENCODING)
    requires HeaderValue(headers, CONTENT_LENGTH) == Lookup(m.fields, CONTENT_LENGTH)
    requires m.start.StatusStart? ==> |line| >= 12 && line[9..12] == m.start.code
    ensures (HasToken(headers, TRANSFER_ENCODING, CHUNKED) <==> m.body.Chunks?) && !m.body.UntilClose?
    ensures m.body.Chunks? ==> GoodChunks(m.body.pieces, m.body.last, m.body.trailers)
    ensures m.body.Sized? ==>
              HeaderValue(headers, CONTENT_LENGTH).Some?
              && ParseNumber(Trim(HeaderValue(headers, CONTENT_LENGTH).value), 10, WORD) == Some(|m.body.data|)
    ensures m.body.NoBody? ==>
              HeaderValue(headers, CONTENT_LENGTH).None? && (ResponseHasNoBody(line) || kind == Request)
  {
  }

  /** The body of a message, standing at `offset`, ends at `end`. */
  predicate EndsAt(b: Body, s: bytes, offset: nat, end: nat)
  {
    offset <= end <= |s| && (b.Chunks? ==> ChunkedEnd(s, offset) == Some(end))
    && (b.Sized? ==> end == offset + |b.data|) && (b.NoBody? ==> end == offset)
  }

  lemma {:induction false} ShortEnds(b: Body, s: bytes, offset: nat, rest: bytes)
    requires !b.Chunks? && Stands(s, offset, PrintBody(b) + rest)
    ensures EndsAt(b, s, offset, offset + |PrintBody(b)|)
  {
    assert |s[offset..]| >= |PrintBody(b)|;
  }

  lemma {:induction false} ChunkTextEnds(s: bytes, offset: nat, pieces: seq<Piece>, last: Piece, trailers: seq<bytes>,
                                         rest: bytes, text: bytes, end: nat)
    requires GoodChunks(pieces, last, trailers) && end == offset + |text|
    requires text == Concat(Pieces(pieces)) + PrintLast(last, trailers) && Stands(s, offset, text + rest)
    ensures end <= |s| && ChunkedEnd(s, offset) == Some(end)
  {
    ChunksRead(s, offset, pieces, last, trailers, rest);
    assert |s[offset..]| >= |text|;
  }

  lemma {:induction false} BodyEnds(b: Body, s: bytes, offset: nat, rest: bytes, end: nat)
    requires Stands(s, offset, PrintBody(b) + rest) && end == offset + |PrintBody(b)|
    requires b.Chunks? ==> GoodChunks(b.pieces, b.last, b.trailers)
    ensures EndsAt(b, s, offset, end)
  {
    if b.Chunks? {
      ChunkTextEnds(s, offset, b.pieces, b.last, b.trailers, rest, PrintBody(b), end);
    } else {
      ShortEnds(b, s, offset, rest);
    }
  }

  lemma {:induction false} BodyReads(kind: Kind, m: Message, head: bytes, s: bytes, end: nat)
    requires Readable(kind, m) && head == PrintHead(PrintStart(m.start), FieldLines(m.fields))
    requires |head| <= |s| && EndsAt(m.body, s, |head|, end)
    ensures BodyEnd(head, PrintStart(m.start), kind, s, |head|) == Some(end)
  {
    HeadSays(kind, m, head);
    BodyIsAnnounced(kind, m, head, PrintStart(m.start));
    AnnouncedEnd(m.body, HasToken(head, TRANSFER_ENCODING, CHUNKED), HeaderValue(head, CONTENT_LENGTH),
                 ResponseHasNoBody(PrintStart(m.start)) || kind == Request, s, |head|, end);
  }

  lemma {:induction false} AnnouncedEnd(b: Body, chunked: bool, value: Option<bytes>, bare: bool, s: bytes,
                                        offset: nat, end: nat)
    requires offset <= |s| && EndsAt(b, s, offset, end) && (chunked <==> b.Chunks?) && !b.UntilClose?
    requires b.Sized? ==> value.Some? && ParseNumber(Trim(value.value), 10, WORD) == Some(|b.data|)
    requires b.NoBody? ==> value.None? && bare
    ensures EndBy(chunked, value, bare, s, offset) == Some(end)
  {
  }

  lemma HeadersStand(kind: Kind, m: Message, rest: bytes)
    requires GoodHead(kind, m)
    ensures var head := PrintHead(PrintStart(m.start), FieldLines(m.fields));
            HeadersOf(Print(m) + rest) == Some(head) && Stands(Print(m) + rest, |head|, PrintBody(m.body) + rest)
  {
    var head := PrintHead(PrintStart(m.start), FieldLines(m.fields));
    assert Print(m) + rest == head + (PrintBody(m.body) + rest);
    StartIsValid(kind, m.start);
    FieldLinesAreLines(m.fields);
    HeadReadsBack(PrintStart(m.start), FieldLines(m.fields), PrintBody(m.body) + rest);
  }

  lemma MessageOfParts(kind: Kind, s: bytes, headers: bytes, start: bytes, end: nat)
    requires HeadersOf(s) == Some(headers) && StartLine(headers) == Some(start) && Supported(kind, headers)
    requires BodyEnd(headers, start, kind, s, |headers|) == Some(end)
    ensures FirstMessage(kind, s) == More(end)
  {
  }

  /** A written message whose first fields announce its body is read to its end, whatever follows. */
  lemma MessageReads(kind: Kind, m: Message, rest: bytes)
    requires Readable(kind, m)
    ensures FirstMessage(kind, Print(m) + rest) == More(|Print(m)|)
  {
    HeadersStand(kind, m, rest);
    HeadIsSupported(kind, m);
    MessageBodyReads(kind, m, rest);
    MessageOfParts(kind, Print(m) + rest, PrintHead(PrintStart(m.start), FieldLines(m.fields)), PrintStart(m.start),
                   |Print(m)|);
  }

  lemma {:induction false} ChunksAreGood(kind: Kind, m: Message)
    requires Readable(kind, m)
    ensures m.body.Chunks? ==> GoodChunks(m.body.pieces, m.body.last, m.body.trailers)
  {
  }

  lemma {:induction false} MessageBodyEnds(kind: Kind, m: Message, rest: bytes)
    requires Readable(kind, m)
    ensures var head := PrintHead(PrintStart(m.start), FieldLines(m.fields));
            |head| <= |Print(m) + rest| && EndsAt(m.body, Print(m) + rest, |head|, |Print(m)|)
  {
    HeadersStand(kind, m, rest);
    PrintLength(m);
    ChunksAreGood(kind, m);
    BodyEnds(m.body, Print(m) + rest, |PrintHead(PrintStart(m.start), FieldLines(m.fields))|, rest, |Print(m)|);
  }

  lemma {:induction false} MessageBodyReads(kind: Kind, m: Message, rest: bytes)
    requires Readable(kind, m)
    ensures var head := PrintHead(PrintStart(m.start), FieldLines(m.fields));
            BodyEnd(head, PrintStart(m.start), kind, Print(m) + rest, |head|) == Some(|Print(m)|)
  {
    MessageBodyEnds(kind, m, rest);
    BodyReads(kind, m, PrintHead(PrintStart(m.start), FieldLines(m.fields)), Print(m) + rest, |Print(m)|);
  }

  lemma PrintLength(m: Message)
    ensures |Print(m)| == |PrintHead(PrintStart(m.start), FieldLines(m.fields))| + |PrintBody(m.body)|
  {
  }

  // ----- Numbers

  function Spell(n: nat, radix: nat): bytes
    requires 10 <= radix <= 16
  {
    var d := n % radix;
    var digit: byte := if d < 10 then 48 + d else 87 + d;
    if n < radix then [digit] else Spell(n / radix, radix) + [digit]
  }

  lemma {:induction false} DigitsOfSpelling(n: nat, radix: nat)
    requires radix == 10 || radix == 16
    ensures Digits(Spell(n, radix), radix) == Some(n)
    ensures Spell(n, radix) != [] && Spell(n, radix)[0] != 43
    ensures forall i :: 0 <= i < |Spell(n, radix)| ==> !White(Spell(n, radix)[i])
    decreases n
  {
    var s := Spell(n, radix);
    if n < radix {
      assert s[..0] == [];
    } else {
      DigitsOfSpelling(n / radix, radix);
      assert s[..|s| - 1] == Spell(n / radix, radix);
      assert n == n / radix * radix + n % radix;
    }
  }

  /** The plain spelling of a number is read back. */
  lemma SpelledNumberReads(n: nat, radix: nat, limit: nat)
    requires (radix == 10 || radix == 16) && n < limit
    ensures ParseNumber(Trim(Spell(n, radix)), radix, limit) == Some(n)
  {
    DigitsOfSpelling(n, radix);
    var s := Spell(n, radix);
    assert TrimStart(s) == s && TrimEnd(s) == s;
  }
}
