/** Which messages end where section 6.3 of RFC 9112 says, and which of them the splitter reads right. */
module Http1Bodies {
  import opened Base
  import opened Walk
  import opened Http1
  import opened Http1Messages
  import opened Http1Parts

  // ----- Messages as section 6.3 of RFC 9112 ends them

  /** The elements of all fields with this name: fields of one name form one list, separated by commas
      (section 5.3 of RFC 9110). */
  function Elements(fields: seq<Field>, name: bytes): seq<bytes>
  {
    if fields == [] then []
    else (if SameName(fields[0].name, name) then SplitOn(fields[0].value, COMMA) else []) + Elements(fields[1..], name)
  }

  /** The last element that is not empty is the chunked coding. */
  predicate EndsChunked(codings: seq<bytes>)
  {
    codings != []
    && var last := Trim(codings[|codings| - 1]);
    if last == [] then EndsChunked(codings[..|codings| - 1]) else SameName(last, CHUNKED)
  }

  predicate AllSay(lengths: seq<bytes>, n: nat)
  {
    forall i :: 0 <= i < |lengths| ==> ParseNumber(Trim(lengths[i]), 10, WORD) == Some(n)
  }

  predicate BodilessCode(start: Start)
  {
    start.StatusStart? && BodilessStatus(ParseNumber(start.code, 10, STATUS_LIMIT))
  }

  /** Responses that end at the blank line whatever fields they have: with status 1xx, 204 or 304, and
      answers to HEAD. */
  predicate Bodiless(m: Message)
  {
    m.start.StatusStart? && (m.toHead || BodilessCode(m.start))
  }

  /** The body that the fields announce. Transfer codings override a length. Without either a request has
      no body; the body of a response ends with the connection then, and also if its last coding is not
      the chunked one. */
  ghost predicate BodyFollows(m: Message)
  {
    var codings, lengths := Elements(m.fields, TRANSFER_ENCODING), Elements(m.fields, CONTENT_LENGTH);
    match m.body
    case Chunks(pieces, last, trailers) => EndsChunked(codings) && GoodChunks(pieces, last, trailers)
    case Sized(data) => codings == [] && lengths != [] && AllSay(lengths, |data|)
    case NoBody => codings == [] && lengths == [] && m.start.RequestStart?
    case UntilClose(_) =>
      m.start.StatusStart? && if codings == [] then lengths == [] else !EndsChunked(codings) && !FirstChunked(m)
  }

  ghost predicate WellFormed(kind: Kind, m: Message)
  {
    GoodHead(kind, m) && if Bodiless(m) then m.body.NoBody? else BodyFollows(m)
  }

  // ----- What the splitter makes of them

  function FirstChunked(m: Message): bool
  {
    Lists(Lookup(m.fields, TRANSFER_ENCODING), CHUNKED)
  }

  /** The first length field is one number, and it is `n`. */
  predicate FirstLengthIs(m: Message, n: nat)
  {
    Lookup(m.fields, CONTENT_LENGTH).Some?
    && ParseNumber(Trim(Lookup(m.fields, CONTENT_LENGTH).value), 10, WORD) == Some(n)
  }

  /** The first transfer coding field lists the chunked coding and the body is chunked; or it does not, and
      the first length field is the length of the body; or there is no length field and the message is a
      request without a body or has status 1xx, 204 or 304. */
  predicate ReadRight(m: Message)
  {
    if FirstChunked(m) then m.body.Chunks?
    else if Lookup(m.fields, CONTENT_LENGTH).Some? then FirstLengthIs(m, |PrintBody(m.body)|)
    else m.body.NoBody? && (m.start.RequestStart? || BodilessCode(m.start))
  }

  ghost predicate AllWellFormed(kind: Kind, list: seq<Message>)
  {
    forall i :: 0 <= i < |list| ==> WellFormed(kind, list[i])
  }

  predicate AllReadRight(list: seq<Message>)
  {
    forall i :: 0 <= i < |list| ==> ReadRight(list[i])
  }

  lemma {:induction false} NoElements(fields: seq<Field>, name: bytes)
    ensures Elements(fields, name) == [] <==> Lookup(fields, name).None?
  {
    if fields != [] {
      NoElements(fields[1..], name);
    }
  }

  /** What the splitter takes for the end of a written message. */
  function TakenEnd(kind: Kind, m: Message, s: bytes, offset: nat): Option<nat>
    requires offset <= |s|
  {
    EndBy(FirstChunked(m), Lookup(m.fields, CONTENT_LENGTH), BodilessCode(m.start) || kind == Request, s, offset)
  }

  lemma {:induction false} EndIsTaken(kind: Kind, m: Message, s: bytes)
    requires GoodHead(kind, m) && |PrintHead(PrintStart(m.start), FieldLines(m.fields))| <= |s|
    ensures var head := PrintHead(PrintStart(m.start), FieldLines(m.fields));
            BodyEnd(head, PrintStart(m.start), kind, s, |head|) == TakenEnd(kind, m, s, |head|)
  {
    HeaderIsLookup(kind, m, TRANSFER_ENCODING);
    HeaderIsLookup(kind, m, CONTENT_LENGTH);
    StatusIsRead(kind, m.start);
  }

  lemma {:induction false} StatusIsRead(kind: Kind, start: Start)
    requires GoodStart(kind, start)
    ensures ResponseHasNoBody(PrintStart(start)) || kind == Request <==> BodilessCode(start) || kind == Request
  {
    StartIsValid(kind, start);
  }

  /** A written message is one message on its own exactly if its end is found where it is. */
  lemma {:induction false} WholeIsEnd(kind: Kind, m: Message)
    requires GoodHead(kind, m)
    ensures var head := PrintHead(PrintStart(m.start), FieldLines(m.fields));
            |head| <= |Print(m)|
            && (Whole(kind, Print(m)) <==> TakenEnd(kind, m, Print(m), |head|) == Some(|Print(m)|))
  {
    var head := PrintHead(PrintStart(m.start), FieldLines(m.fields));
    var s := Print(m);
    assert s + [] == s;
    PrintLength(m);
    HeadersStand(kind, m, []);
    HeadIsSupported(kind, m);
    EndIsTaken(kind, m, s);
    FrontOfParts(kind, s, head, PrintStart(m.start));
    OnePart(Messages(kind), s);
  }

  lemma {:induction false} FrontOfParts(kind: Kind, s: bytes, head: bytes, start: bytes)
    requires HeadersOf(s) == Some(head) && StartLine(head) == Some(start) && Supported(kind, head)
    ensures |head| <= |s| && s != []
    ensures var end := BodyEnd(head, start, kind, s, |head|);
            FirstMessage(kind, s) == if end.Some? then More(end.value) else Unreadable
  {
  }

  // ----- Where the body ends

  lemma {:induction false} NothingIsNoChunk(s: bytes)
    ensures ChunkedEnd(s, |s|).None?
  {
    assert s[|s|..] == [];
    assert FindCrlf([]).None? && FirstChunk([]) == Unreadable;
  }

  lemma {:induction false} ChunkedBodyEnds(m: Message, s: bytes, offset: nat)
    requires m.body.Chunks? && GoodChunks(m.body.pieces, m.body.last, m.body.trailers)
    requires Stands(s, offset, PrintBody(m.body))
    ensures ChunkedEnd(s, offset) == Some(|s|) && |PrintBody(m.body)| > 0
  {
    var b := m.body;
    assert PrintBody(b) + [] == PrintBody(b);
    assert |s[offset..]| == |PrintBody(b)|;
    ChunkTextEnds(s, offset, b.pieces, b.last, b.trailers, [], PrintBody(b), |s|);
    assert |PrintLast(b.last, b.trailers)| >= 2;
  }

  /** Without a chunked coding. */
  lemma {:induction false} ShortEndIff(value: Option<bytes>, bare: bool, s: bytes, offset: nat)
    requires offset <= |s|
    ensures EndBy(false, value, bare, s, offset) == Some(|s|)
       <==> (if value.Some? then ParseNumber(Trim(value.value), 10, WORD) == Some(|s| - offset)
             else bare && offset == |s|)
  {
  }

  lemma {:induction false} TakenChunks(kind: Kind, m: Message, s: bytes, offset: nat)
    requires m.body.Chunks? && offset <= |s| && |s| - offset == |PrintBody(m.body)| > 0
    requires ChunkedEnd(s, offset) == Some(|s|)
    ensures TakenEnd(kind, m, s, offset) == Some(|s|) <==> ReadRight(m)
  {
    ShortEndIff(Lookup(m.fields, CONTENT_LENGTH), BodilessCode(m.start) || kind == Request, s, offset);
  }

  lemma {:induction false} TakenShort(kind: Kind, m: Message, s: bytes, offset: nat)
    requires WellFormed(kind, m) && !m.body.Chunks? && offset <= |s| && |s| - offset == |PrintBody(m.body)|
    requires m.body.NoBody? ==> ChunkedEnd(s, offset).None?
    ensures TakenEnd(kind, m, s, offset) == Some(|s|) <==> ReadRight(m)
  {
    NoElements(m.fields, TRANSFER_ENCODING);
    NoElements(m.fields, CONTENT_LENGTH);
    ShortEndIff(Lookup(m.fields, CONTENT_LENGTH), BodilessCode(m.start) || kind == Request, s, offset);
  }

  lemma {:induction false} ChunksAreWellFormed(kind: Kind, m: Message)
    requires WellFormed(kind, m) && m.body.Chunks?
    ensures GoodChunks(m.body.pieces, m.body.last, m.body.trailers)
  {
  }

  lemma {:induction false} TakenRight(kind: Kind, m: Message, s: bytes, offset: nat)
    requires WellFormed(kind, m) && Stands(s, offset, PrintBody(m.body))
    ensures offset <= |s|
    ensures TakenEnd(kind, m, s, offset) == Some(|s|) <==> ReadRight(m)
  {
    assert |s[offset..]| == |PrintBody(m.body)|;
    if m.body.Chunks? {
      ChunksAreWellFormed(kind, m);
      ChunkedBodyEnds(m, s, offset);
      TakenChunks(kind, m, s, offset);
    } else {
      NothingIsNoChunk(s);
      TakenShort(kind, m, s, offset);
    }
  }

  /** A well-formed message, written and split on its own, is one message exactly if it is read right. */
  lemma {:induction false} MessageReadsIff(kind: Kind, m: Message)
    requires WellFormed(kind, m)
    ensures Whole(kind, Print(m)) <==> ReadRight(m)
  {
    WholeIsEnd(kind, m);
    assert Print(m) + [] == Print(m) && PrintBody(m.body) + [] == PrintBody(m.body);
    HeadersStand(kind, m, []);
    TakenRight(kind, m, Print(m), |PrintHead(PrintStart(m.start), FieldLines(m.fields))|);
  }

  lemma {:induction false} PrintedParts(list: seq<Message>)
    ensures |Printed(list)| == |list|
    ensures forall i :: 0 <= i < |list| ==> Printed(list)[i] == Print(list[i])
  {
    if list != [] {
      var rest := Printed(list[1..]);
      PrintedParts(list[1..]);
      forall i | 0 <= i < |list|
        ensures Printed(list)[i] == Print(list[i])
      {
        if i > 0 {
          assert rest[i - 1] == Print(list[1..][i - 1]);
        }
      }
    }
  }


  lemma {:induction false} PrintedWhole(kind: Kind, list: seq<Message>)
    requires AllWellFormed(kind, list)
    ensures AllWhole(kind, Printed(list)) <==> AllReadRight(list)
  {
    PrintedParts(list);
    forall i | 0 <= i < |list|
      ensures Whole(kind, Printed(list)[i]) <==> ReadRight(list[i])
    {
      MessageReadsIff(kind, list[i]);
    }
  }

  /** Splitting inverts writing: well-formed messages, one after the other, are split into exactly these
      messages if and only if each of them is read right. */
  lemma {:induction false} SplitInvertsPrinting(kind: Kind, list: seq<Message>)
    requires AllWellFormed(kind, list)
    ensures Split(Concat(Printed(list)), kind) == Some(Printed(list)) <==> AllReadRight(list)
  {
    SplitIff(Concat(Printed(list)), kind, Printed(list));
    PrintedWhole(kind, list);
  }

  // ----- The ordinary case

  /** The announcement of a body stands in the first field of its name, and the message does not depend on
      the request or on the end of the connection. */
  predicate Plain(m: Message)
  {
    && !m.toHead && !m.body.UntilClose?
    && (m.body.Chunks? ==> FirstChunked(m))
    && (m.body.Sized? ==> FirstLengthIs(m, |m.body.data|))
  }

  /** A response with status 1xx, 204 or 304 whose fields would announce a body. */
  predicate Misleading(m: Message)
  {
    BodilessCode(m.start)
    && (FirstChunked(m) || (Lookup(m.fields, CONTENT_LENGTH).Some? && !FirstLengthIs(m, 0)))
  }

  lemma {:induction false} PlainIsRight(kind: Kind, m: Message)
    requires WellFormed(kind, m) && Plain(m)
    ensures ReadRight(m) <==> !Misleading(m)
  {
    NoElements(m.fields, TRANSFER_ENCODING);
    NoElements(m.fields, CONTENT_LENGTH);
  }

  /** Plain messages are split into themselves if and only if no response with status 1xx, 204 or 304 is
      chunked or has a length field other than 0. */
  lemma {:induction false} PlainMessagesSplit(kind: Kind, list: seq<Message>)
    requires AllWellFormed(kind, list) && forall i :: 0 <= i < |list| ==> Plain(list[i])
    ensures Split(Concat(Printed(list)), kind) == Some(Printed(list))
       <==> (forall i :: 0 <= i < |list| ==> !Misleading(list[i]))
  {
    SplitInvertsPrinting(kind, list);
    forall i | 0 <= i < |list|
      ensures ReadRight(list[i]) <==> !Misleading(list[i])
    {
      PlainIsRight(kind, list[i]);
    }
  }

  // ----- Responses that are read wrong

  /** A bodiless response that announces `n` bytes takes the next `n` bytes of the stream with it. */
  lemma {:induction false} LengthSwallows(m: Message, n: nat, rest: bytes)
    requires WellFormed(Response, m) && Bodiless(m) && !FirstChunked(m) && FirstLengthIs(m, n) && n <= |rest|
    ensures FirstMessage(Response, Print(m) + rest) == More(|Print(m)| + n)
  {
    var long := m.(body := Sized(rest[..n]));
    assert Print(m) + rest == Print(long) + rest[n..];
    MessageReads(Response, long, rest[n..]);
  }

  /** HTTP/1.1 304 with Content-Length: n. */
  function Unchanged(n: nat): Message
  {
    Message(StatusStart([51, 48, 52], []), [Field(CONTENT_LENGTH, Spell(n, 10))], NoBody, false)
  }

  /** POST / in chunks of no data, with two transfer coding fields: gzip, and chunked. */
  function TwoFields(): Message
  {
    Message(RequestStart([80, 79, 83, 84], [47]), [Field(TRANSFER_ENCODING, GZIP), Field(TRANSFER_ENCODING, CHUNKED)],
            Chunks([], Piece(Spell(0, 10), [], []), []), false)
  }

  const GZIP: bytes := [103, 122, 105, 112]

  lemma {:induction false} SameNameItself(a: bytes)
    ensures SameName(a, a)
  {
    if a != [] {
      SameNameItself(a[1..]);
    }
  }

  lemma {:induction false} FirstField(f: Field, rest: seq<Field>, name: bytes)
    ensures Lookup([f] + rest, name) == if SameName(f.name, name) then Some(Trim(f.value)) else Lookup(rest, name)
    ensures Elements([f] + rest, name)
         == (if SameName(f.name, name) then SplitOn(f.value, COMMA) else []) + Elements(rest, name)
  {
    assert ([f] + rest)[1..] == rest;
  }

  lemma {:induction false} NotModifiedHasNoBody()
    ensures ParseNumber([51, 48, 52], 10, STATUS_LIMIT) == Some(304)
  {
    var s: bytes := [51, 48, 52];
    assert s[..2] == [51, 48] && s[..2][..1] == [51] && s[..2][..1][..0] == [];
    assert Digits(s[..2][..1], 10) == Some(3);
    assert Digits(s[..2], 10) == Some(30);
  }

  lemma {:induction false} PlainText(s: bytes)
    requires s != [] && COMMA !in s && !White(s[0]) && !White(s[|s| - 1])
    ensures Trim(s) == s && SplitOn(s, COMMA) == [s]
  {
    SplitOnNothing(s, COMMA);
  }

  lemma {:induction false} SpellingIsPlain(n: nat)
    ensures var s := Spell(n, 10); s != [] && COMMA !in s && OneLine(s) && !White(s[0]) && !White(s[|s| - 1])
  {
    DigitsOfSpelling(n, 10);
    DecimalDigits(n);
  }

  lemma {:induction false} DecimalDigits(n: nat)
    ensures forall i :: 0 <= i < |Spell(n, 10)| ==> 48 <= Spell(n, 10)[i] <= 57
    decreases n
  {
    if n >= 10 {
      DecimalDigits(n / 10);
    }
  }

  /** The names that matter are told apart by their lengths. */
  lemma {:induction false} NamesDiffer(a: bytes, b: bytes)
    requires |a| != |b|
    ensures !SameName(a, b)
  {
  }

  lemma {:induction false} NameLengths()
    ensures |CONTENT_LENGTH| == 14 && |TRANSFER_ENCODING| == 17 && |UPGRADE| == 7 && |CONNECTION| == 10
  {
  }

  /** A bodiless response whose only field is a length. */
  lemma {:induction false} OnlyALength(m: Message, f: Field, n: nat)
    requires m.start.StatusStart? && GoodStart(Response, m.start) && BodilessCode(m.start)
    requires m.fields == [f] && m.body.NoBody? && !m.toHead
    requires GoodField(f) && SameName(f.name, CONTENT_LENGTH) && |f.name| == |CONTENT_LENGTH|
    requires Trim(f.value) == f.value && ParseNumber(f.value, 10, WORD) == Some(n)
    ensures WellFormed(Response, m) && Plain(m) && FirstLengthIs(m, n)
    ensures Misleading(m) <==> n > 0
  {
    NameLengths();
    assert [f] + [] == [f];
    NamesDiffer(f.name, TRANSFER_ENCODING);
    NamesDiffer(f.name, UPGRADE);
    NamesDiffer(f.name, CONNECTION);
    FirstField(f, [], CONTENT_LENGTH);
    FirstField(f, [], TRANSFER_ENCODING);
    FirstField(f, [], UPGRADE);
    FirstField(f, [], CONNECTION);
  }

  lemma {:induction false} GoodUnchanged(n: nat)
    ensures GoodStart(Response, Unchanged(n).start) && BodilessCode(Unchanged(n).start)
    ensures GoodField(Field(CONTENT_LENGTH, Spell(n, 10)))
  {
    SpellingIsPlain(n);
    NotModifiedHasNoBody();
  }

  /** A 304 that announces a length is well-formed and plain, and is read wrong unless the length is 0. */
  lemma {:induction false} UnchangedIsMisleading(n: nat)
    requires n < WORD
    ensures WellFormed(Response, Unchanged(n)) && Plain(Unchanged(n)) && FirstLengthIs(Unchanged(n), n)
    ensures Misleading(Unchanged(n)) <==> n > 0
  {
    GoodUnchanged(n);
    SpellingIsPlain(n);
    PlainText(Spell(n, 10));
    DigitsOfSpelling(n, 10);
    SpelledNumberReads(n, 10, WORD);
    SameNameItself(CONTENT_LENGTH);
    OnlyALength(Unchanged(n), Field(CONTENT_LENGTH, Spell(n, 10)), n);
  }

  /** A chunked request whose only fields are two transfer codings, the second of them chunked. */
  lemma {:induction false} TwoCodings(m: Message, f: Field, g: Field)
    requires m.start.RequestStart? && GoodStart(Request, m.start) && m.fields == [f, g]
    requires m.body.Chunks? && GoodChunks(m.body.pieces, m.body.last, m.body.trailers)
    requires GoodField(f) && GoodField(g) && |f.name| == |g.name| == |TRANSFER_ENCODING|
    requires SameName(f.name, TRANSFER_ENCODING) && SameName(g.name, TRANSFER_ENCODING)
    requires SplitOn(f.value, COMMA) == [f.value] && SplitOn(g.value, COMMA) == [g.value]
    requires Trim(f.value) == f.value && Trim(g.value) == g.value && g.value != []
    requires !SameName(f.value, CHUNKED) && SameName(g.value, CHUNKED)
    ensures WellFormed(Request, m) && !ReadRight(m)
  {
    NameLengths();
    OfTwoFields(f, g, TRANSFER_ENCODING);
    OfTwoFields(f, g, CONTENT_LENGTH);
    OfTwoFields(f, g, UPGRADE);
    OfTwoFields(f, g, CONNECTION);
    assert [f.value] + [g.value] == [f.value, g.value];
    OneElement(f.value);
  }

  lemma {:induction false} OneElement(value: bytes)
    requires SplitOn(value, COMMA) == [value] && Trim(value) == value
    ensures Lists(Some(value), CHUNKED) <==> SameName(value, CHUNKED)
  {
    var parts := SplitOn(value, COMMA);
    assert parts[0] == value && parts[1..] == [];
    assert AnyIs(parts[1..], CHUNKED) == false;
  }

  lemma {:induction false} OfTwoFields(f: Field, g: Field, name: bytes)
    requires |f.name| == |g.name| && (|name| != |f.name| || (SameName(f.name, name) && SameName(g.name, name)))
    ensures |name| != |f.name| ==> Lookup([f, g], name).None?
    ensures |name| == |f.name| ==> Lookup([f, g], name) == Some(Trim(f.value))
                                   && Elements([f, g], name) == SplitOn(f.value, COMMA) + SplitOn(g.value, COMMA)
  {
    assert [f, g] == [f] + ([g] + []);
    FirstField(f, [g] + [], name);
    FirstField(g, [], name);
    if |name| != |f.name| {
      NamesDiffer(f.name, name);
      NamesDiffer(g.name, name);
    }
    assert SplitOn(g.value, COMMA) + [] == SplitOn(g.value, COMMA);
  }

  lemma {:induction false} EmptyChunks()
    ensures GoodChunks([], Piece(Spell(0, 10), [], []), [])
  {
    SpellingIsPlain(0);
    PlainText(Spell(0, 10));
    assert Spell(0, 10) == [48] && SEMICOLON !in Spell(0, 10);
    assert Digits([48], 16) == Some(0) by {
      assert [48][..0] == [];
    }
  }

  lemma {:induction false} GoodTwoFields()
    ensures GoodStart(Request, TwoFields().start)
    ensures GoodField(Field(TRANSFER_ENCODING, GZIP)) && GoodField(Field(TRANSFER_ENCODING, CHUNKED))
  {
  }

  lemma {:induction false} PlainCodings()
    ensures COMMA !in GZIP && COMMA !in CHUNKED && GZIP != [] && CHUNKED != [] && |GZIP| != |CHUNKED|
    ensures !White(GZIP[0]) && !White(GZIP[|GZIP| - 1]) && !White(CHUNKED[0]) && !White(CHUNKED[|CHUNKED| - 1])
  {
  }

  /** A chunked message whose coding stands in a second field is well-formed and read wrong. */
  lemma {:induction false} SecondFieldIsNotRead()
    ensures WellFormed(Request, TwoFields()) && !ReadRight(TwoFields())
  {
    GoodTwoFields();
    EmptyChunks();
    PlainCodings();
    PlainText(GZIP);
    PlainText(CHUNKED);
    NamesDiffer(GZIP, CHUNKED);
    SameNameItself(CHUNKED);
    SameNameItself(TRANSFER_ENCODING);
    TwoCodings(TwoFields(), Field(TRANSFER_ENCODING, GZIP), Field(TRANSFER_ENCODING, CHUNKED));
  }

  // ----- Transactions

  /** Written requests and responses come back as transactions, in order, if and only if each message is
      read right and there are as many responses as requests, and at least one. */
  lemma {:induction false} TransactionsInvertPrinting(requests: seq<Message>, responses: seq<Message>)
    requires AllWellFormed(Request, requests) && AllWellFormed(Response, responses)
    ensures var r := ExtractHttp(Concat(Printed(requests)), Concat(Printed(responses)));
            r.Some? && Requests(r.value) == Printed(requests) && Responses(r.value) == Printed(responses)
            <==> (AllReadRight(requests) && AllReadRight(responses) && |requests| == |responses| > 0)
  {
    var client, server := Concat(Printed(requests)), Concat(Printed(responses));
    SplitInvertsPrinting(Request, requests);
    SplitInvertsPrinting(Response, responses);
    PrintedParts(requests);
    PrintedParts(responses);
    ExtractsExactly(client, server, Printed(requests), Printed(responses));
  }

  lemma {:induction false} ExtractsExactly(client: bytes, server: bytes, requests: seq<bytes>, responses: seq<bytes>)
    ensures var r := ExtractHttp(client, server);
            r.Some? && Requests(r.value) == requests && Responses(r.value) == responses
            <==> (Split(client, Request) == Some(requests) && Split(server, Response) == Some(responses)
                  && |requests| == |responses| > 0)
  {
    var x, y := Split(client, Request), Split(server, Response);
    if x.Some? && y.Some? && |x.value| == |y.value| {
      PairSides(x.value, y.value);
    }
  }
}
