/** Splitting one direction of a captured connection into HTTP/1.1 messages. */
module Http1 {
  import opened Base
  import opened Walk

  datatype Kind = Request | Response

  const CR: byte := 13
  const LF: byte := 10
  const SPACE: byte := 32
  const COMMA: byte := 44
  const COLON: byte := 58
  const SEMICOLON: byte := 59

  const CRLF: bytes := [13, 10]
  const VERSION: bytes := [72, 84, 84, 80, 47, 49, 46, 49]                                // HTTP/1.1
  const UPGRADE: bytes := [117, 112, 103, 114, 97, 100, 101]                              // upgrade
  const CONNECTION: bytes := [99, 111, 110, 110, 101, 99, 116, 105, 111, 110]             // connection
  const CONTENT_LENGTH: bytes := [99, 111, 110, 116, 101, 110, 116, 45, 108, 101, 110, 103, 116, 104] // content-length
  const TRANSFER_ENCODING: bytes :=
    [116, 114, 97, 110, 115, 102, 101, 114, 45, 101, 110, 99, 111, 100, 105, 110, 103]    // transfer-encoding
  const CHUNKED: bytes := [99, 104, 117, 110, 107, 101, 100]                              // chunked

  const WORD: nat := 0x1_0000_0000_0000_0000
  const STATUS_LIMIT: nat := 0x1_0000

  // ----- Searching bytes

  function Shift(at: Option<nat>, distance: nat): Option<nat>
  {
    if at.Some? then Some(at.value + distance) else None
  }

  /** The first line end. */
  function FindCrlf(s: bytes): Option<nat>
  {
    if |s| < 2 then None
    else if s[0] == CR && s[1] == LF then Some(0)
    else Shift(FindCrlf(s[1..]), 1)
  }

  /** The first line end that is followed by another one. */
  function FindBlank(s: bytes): Option<nat>
  {
    if |s| < 4 then None
    else if s[0] == CR && s[1] == LF && s[2] == CR && s[3] == LF then Some(0)
    else Shift(FindBlank(s[1..]), 1)
  }

  function IndexOf(s: bytes, b: byte): Option<nat>
  {
    if s == [] then None else if s[0] == b then Some(0) else Shift(IndexOf(s[1..], b), 1)
  }

  function SplitOn(s: bytes, separator: byte): (parts: seq<bytes>)
    ensures |parts| > 0
  {
    if s == [] then [[]]
    else
      var rest := SplitOn(s[1..], separator);
      if s[0] == separator then [[]] + rest else [[s[0]] + rest[0]] + rest[1..]
  }

  predicate White(b: byte)
  {
    b == 32 || b == 9 || b == 10 || b == 12 || b == 13
  }

  function TrimStart(s: bytes): bytes
  {
    if s != [] && White(s[0]) then TrimStart(s[1..]) else s
  }

  function TrimEnd(s: bytes): bytes
  {
    if s != [] && White(s[|s| - 1]) then TrimEnd(s[..|s| - 1]) else s
  }

  function Trim(s: bytes): bytes
  {
    TrimEnd(TrimStart(s))
  }

  predicate AllWhite(s: bytes)
  {
    forall i :: 0 <= i < |s| ==> White(s[i])
  }

  lemma {:induction false} TrimStartMeans(s: bytes)
    ensures exists front :: s == front + TrimStart(s) && AllWhite(front)
    ensures TrimStart(s) != [] ==> !White(TrimStart(s)[0])
  {
    if s != [] && White(s[0]) {
      TrimStartMeans(s[1..]);
      var front :| s[1..] == front + TrimStart(s[1..]) && AllWhite(front);
      assert s == [s[0]] + front + TrimStart(s);
      assert AllWhite([s[0]] + front);
    } else {
      assert s == [] + TrimStart(s) && AllWhite([]);
    }
  }

  lemma {:induction false} TrimEndMeans(s: bytes)
    ensures exists back :: s == TrimEnd(s) + back && AllWhite(back)
    ensures TrimEnd(s) != [] ==> !White(TrimEnd(s)[|TrimEnd(s)| - 1])
    ensures TrimEnd(s) <= s
  {
    if s != [] && White(s[|s| - 1]) {
      var init := s[..|s| - 1];
      TrimEndMeans(init);
      var back :| init == TrimEnd(init) + back && AllWhite(back);
      assert s == TrimEnd(s) + (back + [s[|s| - 1]]);
      assert AllWhite(back + [s[|s| - 1]]);
    } else {
      assert s == TrimEnd(s) + [] && AllWhite([]);
    }
  }

  /** Trimming takes away white space at both ends, all of it, and nothing else. */
  lemma TrimMeans(s: bytes)
    ensures exists front, back :: s == front + Trim(s) + back && AllWhite(front) && AllWhite(back)
    ensures Trim(s) != [] ==> !White(Trim(s)[0]) && !White(Trim(s)[|Trim(s)| - 1])
  {
    TrimStartMeans(s);
    TrimEndMeans(TrimStart(s));
    var front :| s == front + TrimStart(s) && AllWhite(front);
    var back :| TrimStart(s) == Trim(s) + back && AllWhite(back);
    assert s == front + Trim(s) + back;
  }

  method TrimAscii(s: bytes) returns (r: bytes)
    ensures r == Trim(s)
  {
    r := s;
    while r != [] && White(r[0])
      invariant TrimStart(r) == TrimStart(s)
      decreases |r|
    {
      r := r[1..];
    }
    while r != [] && White(r[|r| - 1])
      invariant TrimEnd(r) == Trim(s)
      decreases |r|
    {
      r := r[..|r| - 1];
    }
  }

  function Lower(b: byte): byte
  {
    if 65 <= b <= 90 then b + 32 else b
  }

  predicate SameName(a: bytes, b: bytes)
    decreases |a|
  {
    |a| == |b| && (a == [] || (Lower(a[0]) == Lower(b[0]) && SameName(a[1..], b[1..])))
  }

  // ----- Numbers

  function DigitOf(b: byte, radix: nat): Option<nat>
  {
    var d: nat := if 48 <= b <= 57 then b - 48 else if 65 <= b <= 90 then b - 55
      else if 97 <= b <= 122 then b - 87 else 36;
    if d < radix then Some(d) else None
  }

  function Digits(s: bytes, radix: nat): Option<nat>
  {
    if s == [] then Some(0)
    else
      var high, low := Digits(s[..|s| - 1], radix), DigitOf(s[|s| - 1], radix);
      if high.Some? && low.Some? then Some(high.value * radix + low.value) else None
  }

  /** An unsigned number below `limit`, with an optional plus sign. */
  function ParseNumber(s: bytes, radix: nat, limit: nat): Option<nat>
  {
    var digits := if s != [] && s[0] == 43 then s[1..] else s;
    if digits == [] then None
    else
      var n := Digits(digits, radix);
      if n.Some? && n.value < limit then n else None
  }

  // ----- Header fields

  function StripCr(line: bytes): bytes
  {
    if line != [] && line[|line| - 1] == CR then line[..|line| - 1] else line
  }

  /** The value of a line that is a field with this name. */
  function FieldIn(line: bytes, name: bytes): Option<bytes>
  {
    var stripped := StripCr(line);
    var colon := IndexOf(stripped, COLON);
    if colon.Some? && colon.value < |stripped| && SameName(stripped[..colon.value], name) then
      Some(Trim(stripped[colon.value + 1..]))
    else None
  }

  function FirstField(lines: seq<bytes>, name: bytes): Option<bytes>
  {
    if lines == [] then None
    else if FieldIn(lines[0], name).Some? then FieldIn(lines[0], name)
    else FirstField(lines[1..], name)
  }

  function HeaderValue(headers: bytes, name: bytes): Option<bytes>
  {
    FirstField(SplitOn(headers, LF)[1..], name)
  }

  predicate AnyIs(parts: seq<bytes>, token: bytes)
  {
    parts != [] && (SameName(Trim(parts[0]), token) || AnyIs(parts[1..], token))
  }

  /** A comma-separated value lists this token. */
  predicate Lists(value: Option<bytes>, token: bytes)
  {
    value.Some? && AnyIs(SplitOn(value.value, COMMA), token)
  }

  predicate HasToken(headers: bytes, name: bytes, token: bytes)
  {
    Lists(HeaderValue(headers, name), token)
  }

  // ----- Start lines

  predicate IsVerb(s: bytes)
  {
    s != [] && forall i :: 0 <= i < |s| ==> 65 <= s[i] <= 90 || s[i] == 45
  }

  predicate ValidRequestLine(line: bytes)
  {
    var fields := SplitOn(line, SPACE);
    |fields| == 3 && IsVerb(fields[0]) && fields[1] != [] && fields[2] == VERSION
  }

  predicate ValidStatusLine(line: bytes)
  {
    |line| >= 12 && line[..8] == VERSION && line[8] == SPACE && forall i :: 9 <= i < 12 ==> 48 <= line[i] <= 57
  }

  predicate BodilessStatus(status: Option<nat>)
  {
    status.Some? && (100 <= status.value < 200 || status.value == 204 || status.value == 304)
  }

  predicate ResponseHasNoBody(line: bytes)
  {
    |line| >= 12 && BodilessStatus(ParseNumber(line[9..12], 10, STATUS_LIMIT))
  }

  predicate ValidStart(kind: Kind, line: bytes)
  {
    if kind == Request then ValidRequestLine(line) else ValidStatusLine(line)
  }

  // ----- Message lengths

  predicate StartsLine(s: bytes, at: nat)
  {
    at + 2 <= |s| && s[at] == CR && s[at + 1] == LF
  }

  function ChunkSize(line: bytes): Option<nat>
  {
    ParseNumber(Trim(SplitOn(line, SEMICOLON)[0]), 16, WORD)
  }

  /** What stands at the front of the rest of a chunked body: the last chunk comes with the trailers. */
  function FirstChunk(s: bytes): (r: Item)
    ensures r != Unreadable ==> 0 < r.length <= |s|
  {
    FindCrlfInside(s);
    var at := FindCrlf(s);
    if at.None? || ChunkSize(s[..at.value]).None? then Unreadable
    else
      var size, n := ChunkSize(s[..at.value]).value, at.value + 2;
      if size == 0 then LastChunk(s, n)
      else if StartsLine(s, n + size) then More(n + size + 2)
      else Unreadable
  }

  function LastChunk(s: bytes, n: nat): (r: Item)
    requires n <= |s|
    ensures r != Unreadable ==> 0 < r.length <= |s|
  {
    FindBlankInside(s[n..]);
    var trailers := FindBlank(s[n..]);
    if StartsLine(s, n) then Last(n + 2)
    else if trailers.Some? then Last(n + trailers.value + 4)
    else Unreadable
  }

  /** The end of the chunked body that starts at `offset`. */
  function ChunkedEnd(s: bytes, offset: nat): (end: Option<nat>)
    requires offset <= |s|
    ensures end.Some? ==> offset < end.value <= |s|
  {
    EndOf(FirstChunk, s, offset)
  }

  /** The end of a message whose body starts at `offset`: the chunked coding decides first, then the
      length field, and without either only a message that may do without a body has an end. */
  function EndBy(chunked: bool, value: Option<bytes>, bare: bool, s: bytes, offset: nat): (end: Option<nat>)
    requires offset <= |s|
    ensures end.Some? ==> offset <= end.value <= |s|
  {
    if chunked then ChunkedEnd(s, offset)
    else if value.Some? then
      var length := ParseNumber(Trim(value.value), 10, WORD);
      if length.Some? && offset + length.value <= |s| then Some(offset + length.value) else None
    else if bare then Some(offset)
    else None
  }

  /** The end of the message with these headers, whose body starts at `offset`. */
  function BodyEnd(headers: bytes, line: bytes, kind: Kind, s: bytes, offset: nat): (end: Option<nat>)
    requires offset <= |s|
    ensures end.Some? ==> offset <= end.value <= |s|
  {
    EndBy(HasToken(headers, TRANSFER_ENCODING, CHUNKED), HeaderValue(headers, CONTENT_LENGTH),
          ResponseHasNoBody(line) || kind == Request, s, offset)
  }

  /** The header section at the front of `s`, with the blank line. */
  function HeadersOf(s: bytes): (headers: Option<bytes>)
    ensures headers.Some? ==> 0 < |headers.value| && headers.value <= s
  {
    FindBlankInside(s);
    var at := FindBlank(s);
    if at.Some? then Some(s[..at.value + 4]) else None
  }

  function StartLine(headers: bytes): Option<bytes>
  {
    FindCrlfInside(headers);
    var at := FindCrlf(headers);
    if at.Some? then Some(headers[..at.value]) else None
  }

  predicate Supported(kind: Kind, headers: bytes)
  {
    var line := StartLine(headers);
    && line.Some? && ValidStart(kind, line.value)
    && HeaderValue(headers, UPGRADE).None? && !HasToken(headers, CONNECTION, UPGRADE)
  }

  /** What stands at the front of the rest of a stream: a message of this kind, or nothing readable. */
  function FirstMessage(kind: Kind, s: bytes): (r: Item)
    ensures r != Unreadable ==> 0 < r.length <= |s|
  {
    var headers := HeadersOf(s);
    if headers.None? || !Supported(kind, headers.value) then Unreadable
    else
      var end := BodyEnd(headers.value, StartLine(headers.value).value, kind, s, |headers.value|);
      if end.Some? then More(end.value) else Unreadable
  }

  function Messages(kind: Kind): bytes -> Item
  {
    (s: bytes) => FirstMessage(kind, s)
  }

  function Split(s: bytes, kind: Kind): Option<seq<bytes>>
  {
    PartsOf(Messages(kind), s, 0)
  }

  datatype Transaction = Transaction(request: bytes, response: bytes)

  function Pair(requests: seq<bytes>, responses: seq<bytes>): seq<Transaction>
    requires |requests| == |responses|
  {
    if requests == [] then [] else [Transaction(requests[0], responses[0])] + Pair(requests[1..], responses[1..])
  }

  function ExtractHttp(client: bytes, server: bytes): Option<seq<Transaction>>
  {
    var requests, responses := Split(client, Request), Split(server, Response);
    if requests.None? || responses.None? || requests.value == [] || |requests.value| != |responses.value| then None
    else Some(Pair(requests.value, responses.value))
  }

  lemma {:induction false} FindCrlfInside(s: bytes)
    ensures FindCrlf(s).Some? ==> FindCrlf(s).value + 2 <= |s|
  {
    if |s| >= 2 {
      FindCrlfInside(s[1..]);
    }
  }

  lemma {:induction false} FindBlankInside(s: bytes)
    ensures FindBlank(s).Some? ==> FindBlank(s).value + 4 <= |s|
  {
    if |s| >= 4 {
      FindBlankInside(s[1..]);
    }
  }

  // ----- The loops

  method FindChunkedEnd(stream: bytes, start: nat) returns (end: Option<nat>)
    requires start <= |stream|
    ensures end == ChunkedEnd(stream, start)
  {
    end := WalkToEnd(FirstChunk, stream, start);
  }

  method SplitHttpMessages(stream: bytes, kind: Kind) returns (r: Option<seq<bytes>>)
    ensures r == Split(stream, kind)
  {
    r := CollectParts(Messages(kind), stream);
  }

  // ----- Nothing is lost

  /** Whenever splitting succeeds, on any input, the messages are non-empty and concatenate to it. */
  lemma SplitLosesNothing(s: bytes, kind: Kind)
    requires Split(s, kind).Some?
    ensures Concat(Split(s, kind).value) == s
    ensures forall i :: 0 <= i < |Split(s, kind).value| ==> Split(s, kind).value[i] != []
  {
    PartsLoseNothing(Messages(kind), s, 0);
    assert s[0..] == s;
  }

  function Requests(list: seq<Transaction>): seq<bytes>
  {
    if list == [] then [] else [list[0].request] + Requests(list[1..])
  }

  function Responses(list: seq<Transaction>): seq<bytes>
  {
    if list == [] then [] else [list[0].response] + Responses(list[1..])
  }

  lemma {:induction false} PairSides(requests: seq<bytes>, responses: seq<bytes>)
    requires |requests| == |responses|
    ensures Requests(Pair(requests, responses)) == requests && Responses(Pair(requests, responses)) == responses
  {
    if requests != [] {
      PairSides(requests[1..], responses[1..]);
      assert Pair(requests, responses)[1..] == Pair(requests[1..], responses[1..]);
    }
  }

  /** Extracted transactions account for every byte of both streams. */
  lemma TransactionsLoseNothing(client: bytes, server: bytes)
    requires ExtractHttp(client, server).Some?
    ensures Concat(Requests(ExtractHttp(client, server).value)) == client
    ensures Concat(Responses(ExtractHttp(client, server).value)) == server
  {
    SplitLosesNothing(client, Request);
    SplitLosesNothing(server, Response);
    PairSides(Split(client, Request).value, Split(server, Response).value);
  }
}
