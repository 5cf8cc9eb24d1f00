/** The bytes that the two sides of the HTTP/1.1 workload write, and what each makes of a message that it
    reads, whoever wrote it. */
module ExchangeTexts {
  import opened Base
  import opened Http1
  import opened Http1Messages
  import opened Http1Heads
  import opened Numbers
  import opened Framing
  import opened Exchange

  lemma {:induction false} TextsAreSpelled()
    ensures RESPONSE_BYTES == Text("x-response-bytes") && KEEP_ALIVE == Text("keep-alive") && CLOSE == Text("close")
    ensures HOST_FIELD == Text("Host") && CONNECTION_FIELD == Text("Connection")
    ensures LENGTH_FIELD == Text("Content-Length") && RESPONSE_FIELD == Text("X-Response-Bytes")
    ensures SUCCESS == Text("HTTP/1.1 2") && CODE_OK == Text("200") && REASON_OK == Text(" OK")
  {
  }

  // ----- What is written

  function Word(keep: bool): bytes
  {
    if keep then Text("keep-alive") else Text("close")
  }

  function Line(text: bytes): bytes
  {
    text + Text("\r\n")
  }

  function RequestText(w: Workload, keep: bool): bytes
  {
    Line(w.verb + Text(" ") + w.target + Text(" HTTP/1.1"))
    + (Line(Text("Host: ") + w.host)
       + (Line(Text("Connection: ") + Word(keep))
          + (Line(Text("Content-Length: ") + Spell(|w.request|, 10))
             + (Line(Text("X-Response-Bytes: ") + Spell(|w.response|, 10)) + Line([])))))
  }

  function ResponseText(length: nat, keep: bool): bytes
  {
    Line(Text("HTTP/1.1 200 OK"))
    + (Line(Text("Content-Length: ") + Spell(length, 10)) + (Line(Text("Connection: ") + Word(keep)) + Line([])))
  }

  lemma {:induction false} LinesAppend(line: bytes, rest: seq<bytes>)
    ensures Lines([line] + rest) == Line(line) + Lines(rest)
    ensures FieldLines([]) == []
  {
    assert ([line] + rest)[1..] == rest;
    assert CRLF == Text("\r\n");
  }

  lemma {:induction false} NoLines()
    ensures Lines([]) + CRLF == Line([])
  {
    assert CRLF == Text("\r\n");
  }

  lemma {:induction false} FieldLinesAppend(f: Field, rest: seq<Field>)
    ensures Lines(FieldLines([f] + rest)) == Line(PrintField(f)) + Lines(FieldLines(rest))
  {
    assert ([f] + rest)[1..] == rest;
    LinesAppend(PrintField(f), FieldLines(rest));
  }

  lemma {:induction false} FieldIsSpelled(name: bytes, value: bytes, prefix: bytes)
    requires name + [COLON, SPACE] == prefix
    ensures PrintField(Field(name, Spaced(value))) == prefix + value
  {
  }

  lemma {:induction false} PrefixesAreSpelled()
    ensures HOST_FIELD + [COLON, SPACE] == Text("Host: ")
    ensures CONNECTION_FIELD + [COLON, SPACE] == Text("Connection: ")
    ensures LENGTH_FIELD + [COLON, SPACE] == Text("Content-Length: ")
    ensures RESPONSE_FIELD + [COLON, SPACE] == Text("X-Response-Bytes: ")
  {
  }

  lemma {:induction false} StartsAreSpelled(verb: bytes, target: bytes)
    ensures PrintStart(RequestStart(verb, target)) == verb + Text(" ") + target + Text(" HTTP/1.1")
    ensures StatusOk() == Text("HTTP/1.1 200 OK")
  {
    Http1Heads.NamesAreSpelled();
    TextsAreSpelled();
    assert [SPACE] == Text(" ") && [SPACE] + VERSION == Text(" HTTP/1.1");
    assert VERSION + [SPACE] + CODE_OK + REASON_OK == Text("HTTP/1.1 200 OK");
  }

  lemma {:induction false} TwoFields(start: bytes, a: Field, b: Field)
    ensures PrintHead(start, FieldLines([a, b]))
         == Line(start) + (Line(PrintField(a)) + (Line(PrintField(b)) + Line([])))
  {
    LinesAppend(start, FieldLines([a, b]));
    FieldLinesAppend(a, [b]);
    FieldLinesAppend(b, []);
    LinesAppend([], []);
    NoLines();
    assert [a] + [b] == [a, b] && [b] + [] == [b];
  }

  lemma {:induction false} FourFields(start: bytes, a: Field, b: Field, c: Field, d: Field)
    ensures PrintHead(start, FieldLines([a, b, c, d]))
         == Line(start) + (Line(PrintField(a))
            + (Line(PrintField(b)) + (Line(PrintField(c)) + (Line(PrintField(d)) + Line([])))))
  {
    LinesAppend(start, FieldLines([a, b, c, d]));
    FieldLinesAppend(a, [b, c, d]);
    FieldLinesAppend(b, [c, d]);
    FieldLinesAppend(c, [d]);
    FieldLinesAppend(d, []);
    LinesAppend([], []);
    NoLines();
    assert [a] + [b, c, d] == [a, b, c, d] && [b] + [c, d] == [b, c, d] && [c] + [d] == [c, d] && [d] + [] == [d];
  }

  /** The client writes its request letter by letter like this. */
  lemma {:induction false} RequestIsSpelled(w: Workload, keep: bool)
    ensures RequestHead(w, keep) == RequestText(w, keep)
  {
    TextsAreSpelled();
    PrefixesAreSpelled();
    StartsAreSpelled(w.verb, w.target);
    var connection := if keep then KEEP_ALIVE else CLOSE;
    FieldIsSpelled(HOST_FIELD, w.host, Text("Host: "));
    FieldIsSpelled(CONNECTION_FIELD, connection, Text("Connection: "));
    FieldIsSpelled(LENGTH_FIELD, Spell(|w.request|, 10), Text("Content-Length: "));
    FieldIsSpelled(RESPONSE_FIELD, Spell(|w.response|, 10), Text("X-Response-Bytes: "));
    FourFields(PrintStart(RequestStart(w.verb, w.target)), Field(HOST_FIELD, Spaced(w.host)), Connection(keep),
               Number(LENGTH_FIELD, |w.request|), Number(RESPONSE_FIELD, |w.response|));
  }

  /** And so does the server its response. */
  lemma {:induction false} ResponseIsSpelled(length: nat, keep: bool)
    ensures ResponseHead(length, keep) == ResponseText(length, keep)
  {
    TextsAreSpelled();
    PrefixesAreSpelled();
    StartsAreSpelled([], []);
    FieldIsSpelled(LENGTH_FIELD, Spell(length, 10), Text("Content-Length: "));
    FieldIsSpelled(CONNECTION_FIELD, if keep then KEEP_ALIVE else CLOSE, Text("Connection: "));
    TwoFields(StatusOk(), Number(LENGTH_FIELD, length), Connection(keep));
  }

  // ----- What is read

  /** A line is a field of this name whose trimmed value is this text, in any case of letters. */
  ghost predicate SaysIn(line: bytes, name: bytes, expected: bytes)
  {
    exists colon: nat :: NamesField(line, name, colon) && SameLetters(Trim(line[colon + 1..]), expected)
  }

  lemma {:induction false} FieldSays(line: bytes, name: bytes, expected: bytes)
    requires OneLine(line)
    ensures SaysIn(line, name, expected)
       <==> FieldIn(line + [CR], name).Some? && SameName(FieldIn(line + [CR], name).value, expected)
  {
    FieldInMeans(line, name);
    if FieldIn(line + [CR], name).Some? {
      var colon: nat :| NamesField(line, name, colon) && FieldIn(line + [CR], name).value == Trim(line[colon + 1..]);
      SameNameMeans(Trim(line[colon + 1..]), expected);
      forall other: nat | NamesField(line, name, other)
        ensures other == colon
      {
        ColonIsOne(line, name, name, other, colon);
      }
    }
  }

  /** Any of several lines may say it. */
  lemma {:induction false} AnyFieldMeans(lines: seq<bytes>, name: bytes, expected: bytes)
    requires forall i :: 0 <= i < |lines| ==> OneLine(lines[i])
    ensures AnyField(WithCr(lines), name, expected)
       <==> exists i :: 0 <= i < |lines| && SaysIn(lines[i], name, expected)
    decreases |lines|
  {
    if lines != [] {
      FieldSays(lines[0], name, expected);
      AnyFieldMeans(lines[1..], name, expected);
      assert WithCr(lines)[1..] == WithCr(lines[1..]);
      assert forall i :: 0 < i < |lines| ==> lines[i] == lines[1..][i - 1];
      assert forall i :: 0 <= i < |lines| - 1 ==> lines[1..][i] == lines[i + 1];
    }
  }

  /** The number that a header field gives: that of the first field of this name, if it spells one below
      2^64; a later field of the name is not asked. */
  lemma {:induction false} NumberMeans(raw: bytes, name: bytes)
    ensures var value := FirstField(SplitOn(raw, LF), name);
            NumericHeader(raw, name)
            == if value.None? then None else ParseNumber(value.value, 10, 0x1_0000_0000_0000_0000)
    ensures LengthOf(raw) == var n := NumericHeader(raw, Text("content-length")); if n.None? then 0 else n.value
  {
    Http1Heads.NamesAreSpelled();
  }

  /** The body of a response: the payload, or as many zeros as were asked for. */
  predicate IsBody(body: bytes, payload: bytes, length: nat)
  {
    |body| == length
    && (length == |payload| ==> body == payload)
    && (length != |payload| ==> forall i :: 0 <= i < length ==> body[i] == 0)
  }

  /** How many bytes the server is asked for, and whether it is asked to go on. */
  function AskedFor(headers: bytes, payload: bytes): nat
  {
    var asked := NumericHeader(headers, Text("x-response-bytes"));
    if asked.Some? then asked.value else |payload|
  }

  predicate AskedToKeep(headers: bytes)
  {
    HeaderEquals(headers, Text("connection"), Text("keep-alive"))
  }

  /** A response: its head and its body. */
  predicate IsResponse(text: bytes, length: nat, keep: bool, payload: bytes)
  {
    var head := ResponseText(length, keep);
    head <= text && IsBody(text[|head|..], payload, length)
  }

  lemma {:induction false} AskedMeans(headers: bytes)
    ensures NumericHeader(headers, RESPONSE_BYTES) == NumericHeader(headers, Text("x-response-bytes"))
    ensures HeaderEquals(headers, CONNECTION, KEEP_ALIVE) <==> AskedToKeep(headers)
  {
    TextsAreSpelled();
    Http1Heads.NamesAreSpelled();
  }

  lemma {:induction false} ResponseIsOne(length: nat, keep: bool, payload: bytes)
    ensures IsResponse(ResponseHead(length, keep) + (if length == |payload| then payload else Zeroes(length)), length,
                       keep, payload)
  {
    ResponseIsSpelled(length, keep);
    var head, body := ResponseHead(length, keep), if length == |payload| then payload else Zeroes(length);
    assert (head + body)[|head|..] == body;
  }

  /** The server answers every message that it can read: with as many bytes as the first field
      X-Response-Bytes asks for, or with its payload if that field is missing or spells no number; and it
      goes on exactly if some field Connection says keep-alive. */
  lemma {:induction false} ServerAnswers(p: Peer, wishes: nat -> nat, payload: bytes)
    ensures var (conn, r) := ReadMessage(p.conn, wishes, 65536, LengthOf);
            var served := Serve(p, wishes, payload);
            && (served.Some? <==> r.Ok?)
            && (r.Ok? ==>
                  && served.value.0.conn == conn && served.value.2 == AskedToKeep(r.value.headers)
                  && IsResponse(served.value.1, AskedFor(r.value.headers, payload), served.value.2, payload)
                  && served.value.0.tx == p.tx + |served.value.1|
                  && served.value.0.rx == p.rx + |r.value.headers| + r.value.bodyLength)
  {
    var (conn, r) := ReadMessage(p.conn, wishes, 65536, LengthOf);
    if r.Ok? {
      AskedMeans(r.value.headers);
      ResponseIsOne(AskedFor(r.value.headers, payload), AskedToKeep(r.value.headers), payload);
    }
  }

  /** The client takes a response exactly if it can read one and the status begins with 2. */
  lemma {:induction false} ClientTakes(p: Peer, wishes: nat -> nat)
    ensures var (conn, r) := ReadMessage(p.conn, wishes, 65536, LengthOf);
            var taken := Receive(p, wishes);
            && (taken.Some? <==> r.Ok? && Text("HTTP/1.1 2") <= r.value.headers)
            && (taken.Some? ==> taken.value == Peer(conn, p.tx, p.rx + |r.value.headers| + r.value.bodyLength))
  {
    TextsAreSpelled();
  }

  /** A read returns what has arrived, up to eight kilobytes. */
  lemma {:induction false} ReadSizeMeans(wish: nat, remaining: nat)
    ensures ReadSize(wish, remaining) <= 8192
    ensures wish > 0 && wish <= remaining && wish <= 8192 ==> ReadSize(wish, remaining) == wish
    ensures wish >= remaining && remaining <= 8192 ==> ReadSize(wish, remaining) == remaining
    ensures wish >= 8192 && remaining >= 8192 ==> ReadSize(wish, remaining) == 8192
    ensures wish == 0 && remaining > 0 ==> ReadSize(wish, remaining) == 1
  {
  }
}
