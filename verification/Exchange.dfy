/** The HTTP/1.1 workload: a client and a server that exchange messages over one connection and count
    the bytes they send and receive. */
module Exchange {
  import opened Base
  import opened Http1
  import opened Http1Messages
  import opened RewriteSound
  import opened Framing

  const MAX_HEADERS: nat := 64 * 1024

  const RESPONSE_BYTES: bytes :=
    [120, 45, 114, 101, 115, 112, 111, 110, 115, 101, 45, 98, 121, 116, 101, 115]      // x-response-bytes
  const KEEP_ALIVE: bytes := [107, 101, 101, 112, 45, 97, 108, 105, 118, 101]          // keep-alive
  const CLOSE: bytes := [99, 108, 111, 115, 101]                                       // close
  const HOST_FIELD: bytes := [72, 111, 115, 116]                                       // Host
  const CONNECTION_FIELD: bytes := [67, 111, 110, 110, 101, 99, 116, 105, 111, 110]    // Connection
  const LENGTH_FIELD: bytes := [67, 111, 110, 116, 101, 110, 116, 45, 76, 101, 110, 103, 116, 104] // Content-Length
  const RESPONSE_FIELD: bytes :=
    [88, 45, 82, 101, 115, 112, 111, 110, 115, 101, 45, 66, 121, 116, 101, 115]        // X-Response-Bytes
  const SUCCESS: bytes := [72, 84, 84, 80, 47, 49, 46, 49, 32, 50]                     // HTTP/1.1 2
  const CODE_OK: bytes := [50, 48, 48]                                                 // 200
  const REASON_OK: bytes := [32, 79, 75]                                               // blank, OK

  // ----- Reading header fields

  /** The number in the first field with this name. */
  function NumericHeader(raw: bytes, name: bytes): Option<nat>
  {
    var value := FirstField(SplitOn(raw, LF), name);
    if value.None? then None else ParseNumber(value.value, 10, WORD)
  }

  predicate AnyField(lines: seq<bytes>, name: bytes, expected: bytes)
  {
    lines != []
    && ((FieldIn(lines[0], name).Some? && SameName(FieldIn(lines[0], name).value, expected))
        || AnyField(lines[1..], name, expected))
  }

  predicate HeaderEquals(raw: bytes, name: bytes, expected: bytes)
  {
    AnyField(SplitOn(raw, LF), name, expected)
  }

  function LengthOf(raw: bytes): nat
  {
    var n := NumericHeader(raw, CONTENT_LENGTH);
    if n.Some? then n.value else 0
  }

  // ----- Messages

  /** What the client asks for, and the payloads of both sides. */
  datatype Workload = Workload(verb: bytes, target: bytes, host: bytes, request: bytes, response: bytes)

  function Spaced(value: bytes): bytes
  {
    [SPACE] + value
  }

  function Connection(keep: bool): Field
  {
    Field(CONNECTION_FIELD, Spaced(if keep then KEEP_ALIVE else CLOSE))
  }

  function Number(name: bytes, n: nat): Field
  {
    Field(name, Spaced(Spell(n, 10)))
  }

  function RequestFields(w: Workload, keep: bool): seq<Field>
  {
    [Field(HOST_FIELD, Spaced(w.host)), Connection(keep), Number(LENGTH_FIELD, |w.request|),
     Number(RESPONSE_FIELD, |w.response|)]
  }

  function RequestHead(w: Workload, keep: bool): bytes
  {
    PrintHead(PrintStart(RequestStart(w.verb, w.target)), FieldLines(RequestFields(w, keep)))
  }

  function ResponseFields(length: nat, keep: bool): seq<Field>
  {
    [Number(LENGTH_FIELD, length), Connection(keep)]
  }

  function StatusOk(): bytes
  {
    PrintStart(StatusStart(CODE_OK, REASON_OK))
  }

  function ResponseHead(length: nat, keep: bool): bytes
  {
    PrintHead(StatusOk(), FieldLines(ResponseFields(length, keep)))
  }

  function Zeroes(n: nat): (z: bytes)
    ensures |z| == n
  {
    seq(n, _ => 0)
  }

  // ----- The two sides

  /** One side: its end of the connection and its counters. */
  datatype Peer = Peer(conn: Conn, tx: nat, rx: nat)

  function Deliver(p: Peer, text: bytes): Peer
  {
    p.(conn := p.conn.(unread := p.conn.unread + text))
  }

  /** The body of the server's loop: the response it sends and whether it goes on. */
  function Serve(p: Peer, wishes: nat -> nat, payload: bytes): Option<(Peer, bytes, bool)>
  {
    var (conn, r) := ReadMessage(p.conn, wishes, MAX_HEADERS, LengthOf);
    if r.Err? then None
    else
      var asked := NumericHeader(r.value.headers, RESPONSE_BYTES);
      var length := if asked.Some? then asked.value else |payload|;
      var keep := HeaderEquals(r.value.headers, CONNECTION, KEEP_ALIVE);
      var head := ResponseHead(length, keep);
      var body := if length == |payload| then payload else Zeroes(length);
      Some((Peer(conn, p.tx + |head| + length, p.rx + |r.value.headers| + r.value.bodyLength), head + body, keep))
  }

  /** What the client does with a response. */
  function Receive(p: Peer, wishes: nat -> nat): Option<Peer>
  {
    var (conn, r) := ReadMessage(p.conn, wishes, MAX_HEADERS, LengthOf);
    if r.Err? || !(SUCCESS <= r.value.headers) then None
    else Some(Peer(conn, p.tx, p.rx + |r.value.headers| + r.value.bodyLength))
  }

  datatype Pair = Pair(client: Peer, server: Peer)

  function Exchange(w: Workload, s: Pair, c: nat -> nat, v: nat -> nat, keep: bool): Option<(Pair, bool)>
  {
    var text := RequestHead(w, keep) + w.request;
    var client := s.client.(tx := s.client.tx + |text|);
    var served := Serve(Deliver(s.server, text), v, w.response);
    if served.None? then None
    else
      var (server, response, goOn) := served.value;
      var received := Receive(Deliver(client, response), c);
      if received.None? then None else Some((Pair(received.value, server), goOn))
  }

  /** `n` transactions on one connection; only the last asks the server to close it. */
  function Talk(w: Workload, s: Pair, c: nat -> nat, v: nat -> nat, n: nat): Option<Pair>
    decreases n
  {
    if n == 0 then Some(s)
    else
      var e := Exchange(w, s, c, v, n > 1);
      if e.None? then None
      else
        var (next, goOn) := e.value;
        if n == 1 then Some(next) else if !goOn then None else Talk(w, next, c, v, n - 1)
  }

  // ----- The headers say what was written

  lemma {:induction false} SameNameAt(a: bytes, b: bytes, i: nat)
    requires SameName(a, b) && i < |a|
    ensures Lower(a[i]) == Lower(b[i])
    decreases |a|
  {
    if i > 0 {
      SameNameAt(a[1..], b[1..], i - 1);
    }
  }

  lemma {:induction false} SameNameIf(a: bytes, b: bytes)
    requires |a| == |b| && forall i :: 0 <= i < |a| ==> Lower(a[i]) == Lower(b[i])
    ensures SameName(a, b)
    decreases |a|
  {
    if a != [] {
      assert forall i :: 0 <= i < |a[1..]| ==> a[1..][i] == a[i + 1] && b[1..][i] == b[i + 1];
      SameNameIf(a[1..], b[1..]);
    }
  }

  lemma LengthName()
    ensures SameName(LENGTH_FIELD, CONTENT_LENGTH)
  {
    SameNameIf(LENGTH_FIELD, CONTENT_LENGTH);
  }

  lemma ResponseName()
    ensures SameName(RESPONSE_FIELD, RESPONSE_BYTES)
  {
    SameNameIf(RESPONSE_FIELD, RESPONSE_BYTES);
  }

  lemma ConnectionName()
    ensures SameName(CONNECTION_FIELD, CONNECTION) && SameName(KEEP_ALIVE, KEEP_ALIVE)
  {
    SameNameIf(CONNECTION_FIELD, CONNECTION);
    SameNameIf(KEEP_ALIVE, KEEP_ALIVE);
  }

  /** A start line is no field of a name without blanks. */
  lemma StartIsNoField(start: bytes, name: bytes, at: nat)
    requires at < |start| && start[at] == SPACE && COLON !in start[..at] && SPACE !in name
    requires forall i :: 0 <= i < |name| ==> Lower(name[i]) != SPACE
    ensures FieldIn(start + [CR], name).None?
  {
    assert StripCr(start + [CR]) == start;
    IndexOfMeans(start, COLON);
    var colon := IndexOf(start, COLON);
    if colon.Some? {
      assert forall i :: 0 <= i < at ==> start[i] == start[..at][i];
      assert colon.value > at;
      if SameName(start[..colon.value], name) {
        SameNameAt(start[..colon.value], name, at);
      }
    }
  }

  lemma TrimSpaced(value: bytes)
    requires value != [] && !White(value[0]) && !White(value[|value| - 1])
    ensures Trim(Spaced(value)) == value
  {
    assert Spaced(value)[1..] == value;
    assert TrimStart(Spaced(value)) == TrimStart(value) == value;
    assert TrimEnd(value) == value;
  }

  lemma NumberSays(name: bytes, n: nat)
    requires n < WORD
    ensures ParseNumber(Trim(Number(name, n).value), 10, WORD) == Some(n)
    ensures COLON !in name && OneLine(name) ==> GoodField(Number(name, n))
  {
    DigitsOfSpelling(n, 10);
    SpelledNumberReads(n, 10, WORD);
    var s := Spell(n, 10);
    TrimSpaced(s);
    assert Trim(s) == s;
    assert OneLine(s) by {
      assert forall i :: 0 <= i < |s| ==> !White(s[i]);
      assert White(LF);
    }
  }

  lemma ConnectionSays(keep: bool)
    ensures GoodField(Connection(keep)) && Trim(Connection(keep).value) == if keep then KEEP_ALIVE else CLOSE
  {
    TrimSpaced(if keep then KEEP_ALIVE else CLOSE);
  }

  lemma {:induction false} AnyReadsBack(fields: seq<Field>, name: bytes, expected: bytes)
    requires forall i :: 0 <= i < |fields| ==> GoodField(fields[i])
    ensures AnyField(WithCr(FieldLines(fields)), name, expected) <==> AnyOf(fields, name, expected)
  {
    if fields != [] {
      FieldReadsBack(fields[0], name);
      AnyReadsBack(fields[1..], name, expected);
    }
  }

  predicate AnyOf(fields: seq<Field>, name: bytes, expected: bytes)
  {
    fields != []
    && ((SameName(fields[0].name, name) && SameName(Trim(fields[0].value), expected))
        || AnyOf(fields[1..], name, expected))
  }

  /** A written header section is read back: numbers, comparisons, and where it ends. */
  lemma HeadSays(start: bytes, fields: seq<Field>, name: bytes, expected: bytes, at: nat)
    requires forall i :: 0 <= i < |fields| ==> GoodField(fields[i])
    requires OneLine(start) && at < |start| && start[at] == SPACE && COLON !in start[..at] && SPACE !in name
    requires forall i :: 0 <= i < |name| ==> Lower(name[i]) != SPACE
    ensures var head := PrintHead(start, FieldLines(fields));
            && FirstField(SplitOn(head, LF), name) == Lookup(fields, name)
            && (HeaderEquals(head, name, expected) <==> AnyOf(fields, name, expected))
  {
    var lines := FieldLines(fields);
    FieldLinesAreLines(fields);
    FieldsReadBack(fields, name);
    AnyReadsBack(fields, name, expected);
    StartIsNoField(start, name, at);
    HeadSplits(start, lines);
    LinesReadBack(lines, name);
    AnyLines(lines, name, expected);
    var parts := SplitOn(Lines(lines) + CRLF, LF);
    assert ([start + [CR]] + parts)[1..] == parts;
  }

  lemma HeadSplits(start: bytes, lines: seq<bytes>)
    requires OneLine(start)
    ensures SplitOn(PrintHead(start, lines), LF) == [start + [CR]] + SplitOn(Lines(lines) + CRLF, LF)
  {
    assert ([start] + lines)[1..] == lines;
    assert PrintHead(start, lines) == (start + [CR]) + [LF] + (Lines(lines) + CRLF);
    SplitOnPart(start + [CR], LF, Lines(lines) + CRLF);
  }

  lemma {:induction false} AnyLines(lines: seq<bytes>, name: bytes, expected: bytes)
    requires forall i :: 0 <= i < |lines| ==> OneLine(lines[i])
    ensures AnyField(SplitOn(Lines(lines) + CRLF, LF), name, expected) == AnyField(WithCr(lines), name, expected)
  {
    if lines == [] {
      assert Lines(lines) + CRLF == [CR] + [LF] + [];
      SplitOnPart([CR], LF, []);
      EmptyLineIsNoField(name);
      var blank: seq<bytes> := [[CR]] + SplitOn([], LF);
      var rest: seq<bytes> := [[]];
      assert SplitOn([], LF) == rest && blank[1..] == rest && rest[1..] == [];
      assert !AnyField(rest, name, expected);
    } else {
      var rest := Lines(lines[1..]) + CRLF;
      assert Lines(lines) + CRLF == (lines[0] + [CR]) + [LF] + rest;
      SplitOnPart(lines[0] + [CR], LF, rest);
      AnyLines(lines[1..], name, expected);
    }
  }

  // ----- One message on an empty connection

  ghost predicate Idle(p: Peer)
  {
    p.conn.pending == [] && p.conn.unread == []
  }

  /** A written message is read exactly, in whatever pieces it arrives. */
  lemma MessageIsRead(p: Peer, wishes: nat -> nat, start: bytes, lines: seq<bytes>, body: bytes)
    requires Idle(p) && NoEnd(start) && GoodLines(lines)
    requires |PrintHead(start, lines)| <= MAX_HEADERS + 1 && LengthOf(PrintHead(start, lines)) == |body|
    ensures var head := PrintHead(start, lines);
            var (conn, r) := ReadMessage(Deliver(p, head + body).conn, wishes, MAX_HEADERS, LengthOf);
            r == Ok(Framed(head, |body|)) && conn.pending == [] && conn.unread == []
  {
    var head := PrintHead(start, lines);
    var c := Deliver(p, head + body).conn;
    assert Rest(c) == head + body;
    HeadReadsBack(start, lines, body);
    assert MessageIn(head + body, LengthOf) == Some(Framed(head, |body|));
    MessageFits(c, MAX_HEADERS, LengthOf);
    FramingIgnoresReads(c, wishes, MAX_HEADERS, LengthOf);
    assert (head + body)[|head| + |body|..] == [];
    var (conn, r) := ReadMessage(c, wishes, MAX_HEADERS, LengthOf);
    assert |Rest(conn)| == 0;
  }

  /** A workload whose messages can be written: names without line ends, lengths below 2^64, and header
      sections within the limit. */
  ghost predicate GoodWorkload(w: Workload)
  {
    && IsVerb(w.verb) && SPACE !in w.target && OneLine(w.target) && OneLine(w.host)
    && |w.request| < WORD && |w.response| < WORD
    && (forall keep: bool ::
          |RequestHead(w, keep)| <= MAX_HEADERS + 1 && |ResponseHead(|w.response|, keep)| <= MAX_HEADERS + 1)
  }

  lemma FourFields(a: Field, b: Field, c: Field, d: Field)
    requires GoodField(a) && GoodField(b) && GoodField(c) && GoodField(d)
    ensures forall i :: 0 <= i < 4 ==> GoodField([a, b, c, d][i])
  {
  }

  lemma HostIsGood(host: bytes)
    requires OneLine(host)
    ensures GoodField(Field(HOST_FIELD, Spaced(host)))
  {
  }

  lemma RequestFieldsAreGood(w: Workload, keep: bool)
    requires GoodWorkload(w)
    ensures forall i :: 0 <= i < 4 ==> GoodField(RequestFields(w, keep)[i])
  {
    HostIsGood(w.host);
    ConnectionSays(keep);
    LengthIsGood(|w.request|);
    ResponseBytesAreGood(|w.response|);
    FourFields(Field(HOST_FIELD, Spaced(w.host)), Connection(keep), Number(LENGTH_FIELD, |w.request|),
               Number(RESPONSE_FIELD, |w.response|));
  }

  lemma LengthIsGood(n: nat)
    requires n < WORD
    ensures GoodField(Number(LENGTH_FIELD, n))
  {
    NumberSays(LENGTH_FIELD, n);
  }

  lemma ResponseBytesAreGood(n: nat)
    requires n < WORD
    ensures GoodField(Number(RESPONSE_FIELD, n))
  {
    NumberSays(RESPONSE_FIELD, n);
  }

  lemma LookupRequest(w: Workload, keep: bool)
    requires GoodWorkload(w)
    ensures Lookup(RequestFields(w, keep), CONTENT_LENGTH) == Some(Spell(|w.request|, 10))
    ensures Lookup(RequestFields(w, keep), RESPONSE_BYTES) == Some(Spell(|w.response|, 10))
  {
    LengthName();
    ResponseName();
    DigitsOfSpelling(|w.request|, 10);
    DigitsOfSpelling(|w.response|, 10);
    TrimSpaced(Spell(|w.request|, 10));
    TrimSpaced(Spell(|w.response|, 10));
    var f := RequestFields(w, keep);
    assert Lookup(f, CONTENT_LENGTH) == Lookup(f[1..], CONTENT_LENGTH);
    assert f[1..][1..] == f[2..] && f[2..][1..] == f[3..];
    assert Lookup(f[1..], CONTENT_LENGTH) == Lookup(f[2..], CONTENT_LENGTH);
    assert Lookup(f, RESPONSE_BYTES) == Lookup(f[1..], RESPONSE_BYTES);
    assert Lookup(f[1..], RESPONSE_BYTES) == Lookup(f[2..], RESPONSE_BYTES);
    assert Lookup(f[2..], RESPONSE_BYTES) == Lookup(f[3..], RESPONSE_BYTES);
  }

  predicate Says(f: Field, name: bytes, expected: bytes)
  {
    SameName(f.name, name) && SameName(Trim(f.value), expected)
  }

  lemma AnyOfFirst(f: Field, rest: seq<Field>, name: bytes, expected: bytes)
    ensures AnyOf([f] + rest, name, expected) <==> Says(f, name, expected) || AnyOf(rest, name, expected)
  {
    assert ([f] + rest)[1..] == rest;
  }

  lemma AnyOfFour(a: Field, b: Field, c: Field, d: Field, name: bytes, expected: bytes)
    ensures AnyOf([a, b, c, d], name, expected)
       <==> Says(a, name, expected) || Says(b, name, expected) || Says(c, name, expected) || Says(d, name, expected)
  {
    AnyOfFirst(d, [], name, expected);
    AnyOfFirst(c, [d], name, expected);
    AnyOfFirst(b, [c, d], name, expected);
    AnyOfFirst(a, [b, c, d], name, expected);
    assert [d] + [] == [d] && [c] + [d] == [c, d] && [b] + [c, d] == [b, c, d] && [a] + [b, c, d] == [a, b, c, d];
  }

  lemma KeepInRequest(w: Workload, keep: bool)
    ensures AnyOf(RequestFields(w, keep), CONNECTION, KEEP_ALIVE) <==> keep
  {
    AnyOfFour(Field(HOST_FIELD, Spaced(w.host)), Connection(keep), Number(LENGTH_FIELD, |w.request|),
              Number(RESPONSE_FIELD, |w.response|), CONNECTION, KEEP_ALIVE);
    ConnectionName();
    ConnectionSays(keep);
    assert |HOST_FIELD| != |CONNECTION| && |LENGTH_FIELD| != |CONNECTION| && |RESPONSE_FIELD| != |CONNECTION|;
    assert |CLOSE| != |KEEP_ALIVE|;
  }

  lemma NamesHaveNoBlank(name: bytes)
    requires name == CONTENT_LENGTH || name == RESPONSE_BYTES || name == CONNECTION
    ensures SPACE !in name && forall i :: 0 <= i < |name| ==> Lower(name[i]) != SPACE
  {
  }

  lemma RequestSays(w: Workload, keep: bool)
    requires GoodWorkload(w)
    ensures var head := RequestHead(w, keep);
            && LengthOf(head) == |w.request|
            && NumericHeader(head, RESPONSE_BYTES) == Some(|w.response|)
            && (HeaderEquals(head, CONNECTION, KEEP_ALIVE) <==> keep)
  {
    var start := PrintStart(RequestStart(w.verb, w.target));
    var fields := RequestFields(w, keep);
    RequestFieldsAreGood(w, keep);
    RequestStartSays(w);
    NamesHaveNoBlank(CONTENT_LENGTH);
    NamesHaveNoBlank(RESPONSE_BYTES);
    NamesHaveNoBlank(CONNECTION);
    HeadSays(start, fields, CONTENT_LENGTH, [], |w.verb|);
    HeadSays(start, fields, RESPONSE_BYTES, [], |w.verb|);
    HeadSays(start, fields, CONNECTION, KEEP_ALIVE, |w.verb|);
    LookupRequest(w, keep);
    KeepInRequest(w, keep);
    SpellingSays(|w.request|);
    SpellingSays(|w.response|);
  }

  lemma SpellingSays(n: nat)
    requires n < WORD
    ensures ParseNumber(Spell(n, 10), 10, WORD) == Some(n)
  {
    DigitsOfSpelling(n, 10);
  }

  lemma RequestStartSays(w: Workload)
    requires GoodWorkload(w)
    ensures var start := PrintStart(RequestStart(w.verb, w.target));
            OneLine(start) && |w.verb| < |start| && start[|w.verb|] == SPACE && COLON !in start[..|w.verb|]
  {
    var start := PrintStart(RequestStart(w.verb, w.target));
    assert start[..|w.verb|] == w.verb;
  }

  lemma ResponseFieldsAreGood(length: nat, keep: bool)
    requires length < WORD
    ensures forall i :: 0 <= i < 2 ==> GoodField(ResponseFields(length, keep)[i])
  {
    LengthIsGood(length);
    ConnectionSays(keep);
    TwoFields(Number(LENGTH_FIELD, length), Connection(keep));
  }

  lemma TwoFields(a: Field, b: Field)
    requires GoodField(a) && GoodField(b)
    ensures forall i :: 0 <= i < 2 ==> GoodField([a, b][i])
  {
  }

  lemma LookupResponse(length: nat, keep: bool)
    requires length < WORD
    ensures Lookup(ResponseFields(length, keep), CONTENT_LENGTH) == Some(Spell(length, 10))
  {
    LengthName();
    DigitsOfSpelling(length, 10);
    TrimSpaced(Spell(length, 10));
  }

  lemma ResponseSays(length: nat, keep: bool)
    requires length < WORD
    ensures LengthOf(ResponseHead(length, keep)) == length
  {
    ResponseFieldsAreGood(length, keep);
    LookupResponse(length, keep);
    NamesHaveNoBlank(CONTENT_LENGTH);
    StatusSays();
    HeadSays(StatusOk(), ResponseFields(length, keep), CONTENT_LENGTH, [], 8);
    SpellingSays(length);
  }

  lemma StartsWithStatus(start: bytes, lines: seq<bytes>)
    ensures start <= PrintHead(start, lines)
  {
    assert ([start] + lines)[1..] == lines;
    assert PrintHead(start, lines) == start + (CRLF + Lines(lines) + CRLF);
  }

  lemma PrefixOfPrefix(a: bytes, b: bytes, c: bytes)
    requires a <= b && b <= c
    ensures a <= c
  {
  }

  lemma ResponseSucceeds(length: nat, keep: bool)
    ensures SUCCESS <= ResponseHead(length, keep)
  {
    assert StatusOk() == SUCCESS + ([48, 48] + REASON_OK);
    StartsWithStatus(StatusOk(), FieldLines(ResponseFields(length, keep)));
    PrefixOfPrefix(SUCCESS, StatusOk(), ResponseHead(length, keep));
  }

  lemma StatusSays()
    ensures OneLine(StatusOk()) && NoEnd(StatusOk())
    ensures |StatusOk()| > 8 && StatusOk()[8] == SPACE && COLON !in StatusOk()[..8]
  {
    StartIsValid(Response, StatusStart(CODE_OK, REASON_OK));
    assert StatusOk()[..8] == VERSION;
  }

  // ----- Exchanges

  lemma RequestIsRead(w: Workload, p: Peer, wishes: nat -> nat, keep: bool)
    requires GoodWorkload(w) && Idle(p)
    ensures var head := RequestHead(w, keep);
            var (conn, r) := ReadMessage(Deliver(p, head + w.request).conn, wishes, MAX_HEADERS, LengthOf);
            r == Ok(Framed(head, |w.request|)) && conn.pending == [] && conn.unread == []
  {
    RequestSays(w, keep);
    RequestFieldsAreGood(w, keep);
    RequestStartSays(w);
    OneLineHasNoEnd(PrintStart(RequestStart(w.verb, w.target)));
    FieldLinesAreLines(RequestFields(w, keep));
    MessageIsRead(p, wishes, PrintStart(RequestStart(w.verb, w.target)), FieldLines(RequestFields(w, keep)), w.request);
  }

  lemma RequestIsServed(w: Workload, p: Peer, wishes: nat -> nat, keep: bool)
    requires GoodWorkload(w) && Idle(p)
    ensures var text := RequestHead(w, keep) + w.request;
            var head := ResponseHead(|w.response|, keep);
            var r := Serve(Deliver(p, text), wishes, w.response);
            && r.Some? && Idle(r.value.0) && r.value.1 == head + w.response && r.value.2 == keep
            && r.value.0.rx == p.rx + |text| && r.value.0.tx == p.tx + |head + w.response|
  {
    RequestIsRead(w, p, wishes, keep);
    RequestSays(w, keep);
  }

  lemma ResponseIsRead(w: Workload, p: Peer, wishes: nat -> nat, keep: bool)
    requires GoodWorkload(w) && Idle(p)
    ensures var head := ResponseHead(|w.response|, keep);
            var (conn, r) := ReadMessage(Deliver(p, head + w.response).conn, wishes, MAX_HEADERS, LengthOf);
            r == Ok(Framed(head, |w.response|)) && conn.pending == [] && conn.unread == []
  {
    ResponseSays(|w.response|, keep);
    StatusSays();
    ResponseFieldsAreGood(|w.response|, keep);
    FieldLinesAreLines(ResponseFields(|w.response|, keep));
    MessageIsRead(p, wishes, StatusOk(), FieldLines(ResponseFields(|w.response|, keep)), w.response);
  }

  lemma ResponseIsReceived(w: Workload, p: Peer, wishes: nat -> nat, keep: bool)
    requires GoodWorkload(w) && Idle(p)
    ensures var text := ResponseHead(|w.response|, keep) + w.response;
            var r := Receive(Deliver(p, text), wishes);
            r.Some? && Idle(r.value) && r.value.rx == p.rx + |text| && r.value.tx == p.tx
  {
    ResponseIsRead(w, p, wishes, keep);
    ResponseSucceeds(|w.response|, keep);
  }

  /** What one side sent is what the other side received. */
  ghost predicate Balanced(s: Pair)
  {
    Idle(s.client) && Idle(s.server) && s.client.tx == s.server.rx && s.client.rx == s.server.tx
  }

  /** The bytes of one transaction in each direction. */
  function Asked(w: Workload, keep: bool): nat
  {
    |RequestHead(w, keep) + w.request|
  }

  function Answered(w: Workload, keep: bool): nat
  {
    |ResponseHead(|w.response|, keep) + w.response|
  }

  lemma {:induction false} ExchangeBalances(w: Workload, s: Pair, c: nat -> nat, v: nat -> nat, keep: bool)
    requires GoodWorkload(w) && Balanced(s)
    ensures var e := Exchange(w, s, c, v, keep);
            && e.Some? && Balanced(e.value.0) && e.value.1 == keep
            && e.value.0.client.tx == s.client.tx + Asked(w, keep)
            && e.value.0.client.rx == s.client.rx + Answered(w, keep)
  {
    var text := RequestHead(w, keep) + w.request;
    var client := s.client.(tx := s.client.tx + |text|);
    RequestIsServed(w, s.server, v, keep);
    ResponseIsReceived(w, client, c, keep);
  }

  function Times(k: nat, n: nat): nat
  {
    if k == 0 then 0 else n + Times(k - 1, n)
  }

  /** The counters agree: after any number of transactions on one connection, whatever pieces the bytes
      arrive in, both sides have finished, nothing is left on the connection, and each side has received
      what the other sent. */
  lemma {:induction false} TalkBalances(w: Workload, s: Pair, c: nat -> nat, v: nat -> nat, n: nat)
    requires GoodWorkload(w) && Balanced(s)
    ensures var r := Talk(w, s, c, v, n);
            && r.Some? && Balanced(r.value)
            && (n > 0 ==>
                  && r.value.client.tx == s.client.tx + Times(n - 1, Asked(w, true)) + Asked(w, false)
                  && r.value.client.rx == s.client.rx + Times(n - 1, Answered(w, true)) + Answered(w, false))
    decreases n
  {
    if n > 0 {
      ExchangeBalances(w, s, c, v, n > 1);
      if n > 1 {
        TalkBalances(w, Exchange(w, s, c, v, true).value.0, c, v, n - 1);
      }
    }
  }
}
