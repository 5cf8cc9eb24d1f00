/** Reading HTTP/1.1 messages off a stream that delivers its bytes in arbitrary pieces. */
module Framing {
  import opened Base
  import opened Http1

  const READ_BYTES: nat := 8192

  datatype Failure = HeadersTooLarge | ClosedBeforeMessage | ClosedBeforeBody

  /** A message as the reader reports it: its header section and the length of its body. */
  datatype Framed = Framed(headers: bytes, bodyLength: nat)

  /** A connection: bytes read but not used, bytes still to come, and how many reads were done. */
  datatype Conn = Conn(pending: bytes, unread: bytes, turn: nat)

  /** What a read returns: nothing at the end, else at least one byte and at most a buffer full;
      `wish` is how many the network has at hand. */
  function ReadSize(wish: nat, remaining: nat): (n: nat)
    ensures n <= remaining && (n == 0 <==> remaining == 0)
  {
    var most := if remaining < READ_BYTES then remaining else READ_BYTES;
    if wish > most then most else if wish == 0 && remaining > 0 then 1 else wish
  }

  function AfterRead(c: Conn, wishes: nat -> nat): Conn
  {
    var n := ReadSize(wishes(c.turn), |c.unread|);
    Conn(c.pending + c.unread[..n], c.unread[n..], c.turn + 1)
  }

  function FillHeaders(c: Conn, wishes: nat -> nat, max: nat): (r: (Conn, Result<nat, Failure>))
    ensures r.1.Ok? ==> r.1.value <= |r.0.pending|
    decreases |c.unread|
  {
    FindBlankInside(c.pending);
    var blank := FindBlank(c.pending);
    if blank.Some? then (c, Ok(blank.value + 4))
    else if |c.pending| > max then (c, Err(HeadersTooLarge))
    else if c.unread == [] then (AfterRead(c, wishes), Err(ClosedBeforeMessage))
    else FillHeaders(AfterRead(c, wishes), wishes, max)
  }

  function FillBody(c: Conn, wishes: nat -> nat, length: nat): (r: (Conn, Result<nat, Failure>))
    ensures r.1.Ok? ==> length <= |r.0.pending|
    decreases |c.unread|
  {
    if |c.pending| >= length then (c, Ok(length))
    else if c.unread == [] then (AfterRead(c, wishes), Err(ClosedBeforeBody))
    else FillBody(AfterRead(c, wishes), wishes, length)
  }

  /** `lengthOf` is the announced length of the body of a header section. */
  function ReadMessage(c: Conn, wishes: nat -> nat, max: nat, lengthOf: bytes -> nat): (Conn, Result<Framed, Failure>)
  {
    var (c1, end) := FillHeaders(c, wishes, max);
    if end.Err? then (c1, Err(end.error))
    else
      var headers, length := c1.pending[..end.value], lengthOf(c1.pending[..end.value]);
      var (c2, body) := FillBody(c1.(pending := c1.pending[end.value..]), wishes, length);
      if body.Err? then (c2, Err(body.error))
      else (c2.(pending := c2.pending[length..]), Ok(Framed(headers, length)))
  }

  // ----- The loops

  class Reader {
    const wishes: nat -> nat
    var pending: bytes
    var unread: bytes
    var turn: nat

    function Now(): Conn
      reads this
    {
      Conn(pending, unread, turn)
    }

    constructor (wishes: nat -> nat, stream: bytes)
      ensures this.wishes == wishes && Now() == Conn([], stream, 0)
    {
      this.wishes := wishes;
      pending, unread, turn := [], stream, 0;
    }

    /** One read; its result is the number of bytes appended to `pending`. */
    method Read() returns (count: nat)
      modifies this
      ensures Now() == AfterRead(old(Now()), wishes)
      ensures count == ReadSize(wishes(old(turn)), |old(unread)|)
    {
      count := ReadSize(wishes(turn), |unread|);
      pending := pending + unread[..count];
      unread := unread[count..];
      turn := turn + 1;
    }

    method ReadHeaders(max: nat) returns (end: Result<nat, Failure>)
      modifies this
      ensures (Now(), end) == FillHeaders(old(Now()), wishes, max)
    {
      while true
        invariant FillHeaders(Now(), wishes, max) == FillHeaders(old(Now()), wishes, max)
        decreases |unread|
      {
        var position := FindBlank(pending);
        if position.Some? {
          return Ok(position.value + 4);
        }
        if |pending| > max {
          return Err(HeadersTooLarge);
        }
        var count := Read();
        if count == 0 {
          return Err(ClosedBeforeMessage);
        }
      }
    }

    method ReadBody(length: nat) returns (body: Result<nat, Failure>)
      modifies this
      ensures (Now(), body) == FillBody(old(Now()), wishes, length)
    {
      while |pending| < length
        invariant FillBody(Now(), wishes, length) == FillBody(old(Now()), wishes, length)
        decreases |unread|
      {
        var count := Read();
        if count == 0 {
          return Err(ClosedBeforeBody);
        }
      }
      body := Ok(length);
    }

    method Next(max: nat, lengthOf: bytes -> nat) returns (r: Result<Framed, Failure>)
      modifies this
      ensures (Now(), r) == ReadMessage(old(Now()), wishes, max, lengthOf)
    {
      var end := ReadHeaders(max);
      if end.Err? {
        return Err(end.error);
      }
      var headers := pending[..end.value];
      pending := pending[end.value..];
      var length := lengthOf(headers);
      var body := ReadBody(length);
      if body.Err? {
        return Err(body.error);
      }
      pending := pending[length..];
      r := Ok(Framed(headers, length));
    }
  }

  // ----- What is read does not depend on the reads

  /** All bytes not used yet. */
  function Rest(c: Conn): bytes
  {
    c.pending + c.unread
  }

  lemma ReadKeepsRest(c: Conn, wishes: nat -> nat)
    ensures Rest(AfterRead(c, wishes)) == Rest(c)
    ensures c.pending <= AfterRead(c, wishes).pending
    ensures c.unread != [] ==> |AfterRead(c, wishes).pending| > |c.pending|
  {
    var n := ReadSize(wishes(c.turn), |c.unread|);
    assert c.pending + c.unread[..n] + c.unread[n..] == c.pending + (c.unread[..n] + c.unread[n..]);
    assert c.unread[..n] + c.unread[n..] == c.unread;
  }

  /** A blank line found in the front of a text is the first one of the text; and one that ends within
      the front is found there. */
  lemma {:induction false} BlankInFront(front: bytes, back: bytes)
    ensures FindBlank(front).Some? ==> FindBlank(front + back) == FindBlank(front)
    ensures FindBlank(front + back).Some? && FindBlank(front + back).value + 4 <= |front| ==> FindBlank(front).Some?
  {
    var s := front + back;
    if |front| >= 4 {
      assert s[0] == front[0] && s[1] == front[1] && s[2] == front[2] && s[3] == front[3];
      assert s[1..] == front[1..] + back;
      BlankInFront(front[1..], back);
    }
  }

  /** The message that stands at the front of a stream, however it will be delivered. */
  function MessageIn(s: bytes, lengthOf: bytes -> nat): Option<Framed>
  {
    FindBlankInside(s);
    var blank := FindBlank(s);
    if blank.None? then None
    else
      var headers := s[..blank.value + 4];
      if |headers| + lengthOf(headers) <= |s| then Some(Framed(headers, lengthOf(headers))) else None
  }

  /** The header section fits: it ends within the limit plus one, or is already there. */
  predicate Fits(c: Conn, max: nat)
  {
    var blank := FindBlank(Rest(c));
    blank.Some? && (blank.value + 4 <= max + 1 || blank.value + 4 <= |c.pending|)
  }

  lemma {:induction false} HeadersFill(c: Conn, wishes: nat -> nat, max: nat)
    requires Fits(c, max)
    ensures var r := FillHeaders(c, wishes, max);
            r.1 == Ok(FindBlank(Rest(c)).value + 4) && Rest(r.0) == Rest(c)
    decreases |c.unread|
  {
    BlankInFront(c.pending, c.unread);
    FindBlankInside(Rest(c));
    FindBlankInside(c.pending);
    if FindBlank(c.pending).None? {
      ReadKeepsRest(c, wishes);
      assert c.unread == [] ==> Rest(c) == c.pending;
      HeadersFill(AfterRead(c, wishes), wishes, max);
    }
  }

  lemma {:induction false} BodyFills(c: Conn, wishes: nat -> nat, length: nat)
    ensures var r := FillBody(c, wishes, length);
            && Rest(r.0) == Rest(c)
            && r.1 == if length <= |Rest(c)| then Ok(length) else Err(ClosedBeforeBody)
    decreases |c.unread|
  {
    if |c.pending| < length {
      ReadKeepsRest(c, wishes);
      if c.unread != [] {
        BodyFills(AfterRead(c, wishes), wishes, length);
      }
    }
  }

  lemma PendingIsFront(c: Conn, n: nat)
    requires n <= |c.pending|
    ensures c.pending[..n] == Rest(c)[..n] && Rest(c.(pending := c.pending[n..])) == Rest(c)[n..]
  {
  }

  /** Framing does not depend on read boundaries: when the header section fits, the message at the front
      of the stream is reported, and what was read ahead together with what was not read is the rest
      of the stream; or, if the stream ends within the body, that is reported. */
  lemma {:induction false} FramingIgnoresReads(c: Conn, wishes: nat -> nat, max: nat, lengthOf: bytes -> nat)
    requires Fits(c, max)
    ensures var (after, r) := ReadMessage(c, wishes, max, lengthOf);
            match MessageIn(Rest(c), lengthOf)
            case Some(m) => r == Ok(m) && Rest(after) == Rest(c)[|m.headers| + m.bodyLength..]
            case None => r == Err(ClosedBeforeBody)
  {
    HeadersFill(c, wishes, max);
    var (c1, end) := FillHeaders(c, wishes, max);
    PendingIsFront(c1, end.value);
    var headers := c1.pending[..end.value];
    var length := lengthOf(headers);
    FindBlankInside(Rest(c));
    BodyFills(c1.(pending := c1.pending[end.value..]), wishes, length);
    var (c2, body) := FillBody(c1.(pending := c1.pending[end.value..]), wishes, length);
    if body.Ok? {
      PendingIsFront(c2, length);
      assert Rest(c)[end.value..][length..] == Rest(c)[end.value + length..];
    }
  }

  // ----- The exact limit

  lemma {:induction false} SlowReadsFail(c: Conn, max: nat)
    requires FindBlank(Rest(c)).Some? && !Fits(c, max)
    ensures FillHeaders(c, (k: nat) => 1, max).1 == Err(HeadersTooLarge)
    decreases |c.unread|
  {
    var wishes := (k: nat) => 1;
    BlankInFront(c.pending, c.unread);
    FindBlankInside(c.pending);
    FindBlankInside(Rest(c));
    if |c.pending| <= max {
      ReadKeepsRest(c, wishes);
      assert |c.unread| > 0;
      SlowReadsFail(AfterRead(c, wishes), max);
    }
  }

  /** The limit is exact: a header section is accepted however its bytes arrive exactly when it ends
      within one byte more than the limit, or has already been read ahead. */
  lemma FitsIsExact(c: Conn, max: nat)
    requires FindBlank(Rest(c)).Some?
    ensures Fits(c, max) <==> forall wishes: nat -> nat :: FillHeaders(c, wishes, max).1.Ok?
  {
    if Fits(c, max) {
      forall wishes: nat -> nat
        ensures FillHeaders(c, wishes, max).1.Ok?
      {
        HeadersFill(c, wishes, max);
      }
    } else {
      SlowReadsFail(c, max);
    }
  }

  // ----- Sequences of messages

  function ReadMany(c: Conn, wishes: nat -> nat, max: nat, lengthOf: bytes -> nat, n: nat): (Conn, seq<Framed>)
    decreases n
  {
    if n == 0 then (c, [])
    else
      var (after, r) := ReadMessage(c, wishes, max, lengthOf);
      if r.Err? then (after, [])
      else
        var rest := ReadMany(after, wishes, max, lengthOf, n - 1);
        (rest.0, [r.value] + rest.1)
  }

  /** The stream starts with `n` messages whose header sections all end within the limit. */
  ghost predicate AllFit(s: bytes, max: nat, lengthOf: bytes -> nat, n: nat)
    decreases n
  {
    n > 0 ==>
      var m := MessageIn(s, lengthOf);
      m.Some? && |m.value.headers| <= max + 1
      && AllFit(s[|m.value.headers| + m.value.bodyLength..], max, lengthOf, n - 1)
  }

  function MessagesIn(s: bytes, lengthOf: bytes -> nat, n: nat): (r: (seq<Framed>, bytes))
    decreases n
  {
    if n == 0 || MessageIn(s, lengthOf).None? then ([], s)
    else
      var m := MessageIn(s, lengthOf).value;
      var rest := MessagesIn(s[|m.headers| + m.bodyLength..], lengthOf, n - 1);
      ([m] + rest.0, rest.1)
  }

  lemma MessageFits(c: Conn, max: nat, lengthOf: bytes -> nat)
    requires MessageIn(Rest(c), lengthOf).Some? && |MessageIn(Rest(c), lengthOf).value.headers| <= max + 1
    ensures Fits(c, max)
  {
    FindBlankInside(Rest(c));
  }

  lemma NextIsFramed(c: Conn, wishes: nat -> nat, max: nat, lengthOf: bytes -> nat)
    requires MessageIn(Rest(c), lengthOf).Some? && |MessageIn(Rest(c), lengthOf).value.headers| <= max + 1
    ensures var m := MessageIn(Rest(c), lengthOf).value;
            var (after, r) := ReadMessage(c, wishes, max, lengthOf);
            && r == Ok(m) && |m.headers| + m.bodyLength <= |Rest(c)|
            && Rest(after) == Rest(c)[|m.headers| + m.bodyLength..]
  {
    MessageFits(c, max, lengthOf);
    FramingIgnoresReads(c, wishes, max, lengthOf);
  }

  /** Any two deliveries of the same stream give the same messages and leave the same rest: those of
      the stream itself. */
  lemma {:induction false} SequenceIgnoresReads(c: Conn, wishes: nat -> nat, max: nat, lengthOf: bytes -> nat, n: nat)
    requires AllFit(Rest(c), max, lengthOf, n)
    ensures ReadMany(c, wishes, max, lengthOf, n).1 == MessagesIn(Rest(c), lengthOf, n).0
    ensures Rest(ReadMany(c, wishes, max, lengthOf, n).0) == MessagesIn(Rest(c), lengthOf, n).1
    decreases n
  {
    if n > 0 {
      NextIsFramed(c, wishes, max, lengthOf);
      SequenceIgnoresReads(ReadMessage(c, wishes, max, lengthOf).0, wishes, max, lengthOf, n - 1);
    }
  }
}
