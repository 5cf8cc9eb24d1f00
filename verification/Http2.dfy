/** HTTP/2 in captured plaintext streams (RFC 9113): frames, header blocks and the transactions
    extracted from both directions. HPACK (RFC 7541) is an arbitrary deterministic decoder. */
module Http2 {
  import opened Base
  import opened Ordered
  import opened Words

  type Headers = seq<(bytes, bytes)>

  /** A header decoder: its initial state and one step, which fails or yields headers. */
  datatype Hpack<!S> = Hpack(init: S, decode: (S, bytes) -> Option<(S, Headers)>)

  datatype Frame = Frame(kind: byte, flags: byte, id: nat, payload: bytes)

  datatype Parts = Parts(headers: Headers, body: bytes, ended: bool)

  datatype Pending = Pending(id: nat, flags: byte, block: bytes)

  datatype State<S> = State(decoder: S, streams: map<nat, Parts>, pending: Option<Pending>)

  const DATA: byte := 0
  const HEADERS: byte := 1
  const CONTINUATION: byte := 9
  const PREFACE: bytes := [0x50, 0x52, 0x49, 0x20, 0x2a, 0x20, 0x48, 0x54, 0x54, 0x50, 0x2f, 0x32,
                           0x2e, 0x30, 0x0d, 0x0a, 0x0d, 0x0a, 0x53, 0x4d, 0x0d, 0x0a, 0x0d, 0x0a]

  const ID_LIMIT: nat := 0x8000_0000
  const LENGTH_LIMIT: nat := 0x100_0000

  predicate EndStream(flags: byte)
  {
    flags % 2 == 1
  }

  predicate EndHeaders(flags: byte)
  {
    flags / 4 % 2 == 1
  }

  function FrameLength(s: bytes, at: nat): nat
    requires at + 9 <= |s|
  {
    BigEndian(0, s[at], s[at + 1], s[at + 2])
  }

  /** The frame at `at`; the reserved bit of the stream id is ignored. */
  function FrameAt(s: bytes, at: nat): Frame
    requires at + 9 <= |s| && at + 9 + FrameLength(s, at) <= |s|
  {
    Frame(s[at + 3], s[at + 4],
          BigEndian(s[at + 5], s[at + 6], s[at + 7], s[at + 8]) % ID_LIMIT,
          s[at + 9..at + 9 + FrameLength(s, at)])
  }

  function PartsOf(streams: map<nat, Parts>, id: nat): Parts
  {
    if id in streams then streams[id] else Parts([], [], false)
  }

  function FinishBlock<S>(h: Hpack<S>, st: State<S>, id: nat, flags: byte, block: bytes): Option<State<S>>
  {
    match h.decode(st.decoder, block)
    case None => None
    case Some((decoder, headers)) =>
      var part := PartsOf(st.streams, id);
      Some(State(decoder, st.streams[id := part.(headers := headers, ended := part.ended || EndStream(flags))], None))
  }

  function Accept<S>(h: Hpack<S>, st: State<S>, f: Frame): Option<State<S>>
  {
    if f.kind == DATA && f.id > 0 then
      var part := PartsOf(st.streams, f.id);
      Some(st.(streams := st.streams[f.id := part.(body := part.body + f.payload,
                                                   ended := part.ended || EndStream(f.flags))]))
    else if f.kind == HEADERS && f.id > 0 then
      if !EndHeaders(f.flags) then Some(st.(pending := Some(Pending(f.id, f.flags, f.payload))))
      else
        match FinishBlock(h, st, f.id, f.flags, f.payload)
        case None => None
        case Some(st1) => Some(st1.(pending := st.pending))
    else if f.kind == CONTINUATION then
      if st.pending.None? || st.pending.value.id != f.id then None
      else
        var p := st.pending.value;
        if !EndHeaders(f.flags) then Some(st.(pending := Some(Pending(f.id, p.flags, p.block + f.payload))))
        else FinishBlock(h, st, f.id, p.flags, p.block + f.payload)
    else if f.kind == 3 || f.kind == 5 || f.kind == 7 then None
    else Some(st)
  }

  function ParseFrom<S>(h: Hpack<S>, s: bytes, at: nat, st: State<S>): Option<State<S>>
    decreases |s| - at
  {
    if at >= |s| then Some(st)
    else if at + 9 > |s| || at + 9 + FrameLength(s, at) > |s| then None
    else
      match Accept(h, st, FrameAt(s, at))
      case None => None
      case Some(st1) => ParseFrom(h, s, at + 9 + FrameLength(s, at), st1)
  }

  function Initial<S>(h: Hpack<S>): State<S>
  {
    State(h.init, map[], None)
  }

  function ParseDirection<S>(h: Hpack<S>, s: bytes, client: bool): Option<map<nat, Parts>>
  {
    match ParseFrom(h, s, if client then 24 else 0, Initial(h))
    case None => None
    case Some(st) => if st.pending.Some? then None else Some(st.streams)
  }

  method ParseH2Direction<S>(h: Hpack<S>, s: bytes, client: bool) returns (r: Option<map<nat, Parts>>)
    ensures r == ParseDirection(h, s, client)
  {
    var offset := if client then 24 else 0;
    var st := Initial(h);
    ghost var whole := ParseFrom(h, s, offset, st);
    while offset < |s|
      invariant ParseFrom(h, s, offset, st) == whole
      decreases |s| - offset
    {
      var next := ParseFrame(h, s, offset, st);
      if next.None? {
        return None;
      }
      st, offset := next.value.0, next.value.1;
    }
    r := if st.pending.Some? then None else Some(st.streams);
  }

  /** The body of the loop: the state after the frame at `at`, and where the next one starts. */
  method ParseFrame<S>(h: Hpack<S>, s: bytes, at: nat, st: State<S>) returns (next: Option<(State<S>, nat)>)
    requires at < |s|
    ensures if next.None? then ParseFrom(h, s, at, st).None?
            else at < next.value.1 && ParseFrom(h, s, at, st) == ParseFrom(h, s, next.value.1, next.value.0)
  {
    if at + 9 > |s| {
      return None;
    }
    var length := FrameLength(s, at);
    if at + 9 + length > |s| {
      return None;
    }
    var accepted := AcceptFrame(h, st.decoder, st.streams, st.pending, FrameAt(s, at));
    next := if accepted.None? then None else Some((accepted.value, at + 9 + length));
  }

  /** What one frame does to the decoder, the streams and the open block. */
  method AcceptFrame<S>(h: Hpack<S>, decoder0: S, streams0: map<nat, Parts>, pending0: Option<Pending>, f: Frame)
    returns (r: Option<State<S>>)
    ensures r == Accept(h, State(decoder0, streams0, pending0), f)
  {
    var decoder, streams, pending := decoder0, streams0, pending0;
    var part := PartsOf(streams, f.id);
    if f.kind == DATA && f.id > 0 {
      streams := streams[f.id := part.(body := part.body + f.payload, ended := part.ended || EndStream(f.flags))];
    } else if f.kind == HEADERS && f.id > 0 {
      if !EndHeaders(f.flags) {
        pending := Some(Pending(f.id, f.flags, f.payload));
        return Some(State(decoder, streams, pending));
      }
      match h.decode(decoder, f.payload) {
        case None => return None;
        case Some((next, headers)) =>
          decoder := next;
          streams := streams[f.id := part.(headers := headers, ended := part.ended || EndStream(f.flags))];
      }
    } else if f.kind == CONTINUATION {
      if pending.None? || pending.value.id != f.id {
        return None;
      }
      var flags, block := pending.value.flags, pending.value.block + f.payload;
      pending := None;
      if !EndHeaders(f.flags) {
        pending := Some(Pending(f.id, flags, block));
        return Some(State(decoder, streams, pending));
      }
      match h.decode(decoder, block) {
        case None => return None;
        case Some((next, headers)) =>
          decoder := next;
          streams := streams[f.id := part.(headers := headers, ended := part.ended || EndStream(flags))];
      }
    } else if f.kind == 3 || f.kind == 5 || f.kind == 7 {
      return None;
    }
    r := Some(State(decoder, streams, pending));
  }

  // ----- Writing frames

  predicate ValidFrame(f: Frame)
  {
    |f.payload| < LENGTH_LIMIT && f.id < ID_LIMIT
  }

  function Head(f: Frame): (r: bytes)
    ensures |r| == 9
  {
    var n := |f.payload|;
    [Digit(n, 2), Digit(n, 1), Digit(n, 0), f.kind, f.flags] + BigBytes(f.id)
  }

  function Encode(f: Frame): bytes
  {
    Head(f) + f.payload
  }

  predicate AllValid(frames: seq<Frame>)
  {
    forall i :: 0 <= i < |frames| ==> ValidFrame(frames[i])
  }

  function EncodeAll(frames: seq<Frame>): bytes
  {
    if frames == [] then [] else Encode(frames[0]) + EncodeAll(frames[1..])
  }

  function AcceptAll<S>(h: Hpack<S>, st: State<S>, frames: seq<Frame>): Option<State<S>>
    decreases |frames|
  {
    if frames == [] then Some(st)
    else
      match Accept(h, st, frames[0])
      case None => None
      case Some(st1) => AcceptAll(h, st1, frames[1..])
  }

  lemma LengthReads(f: Frame)
    requires ValidFrame(f)
    ensures BigEndian(0, Digit(|f.payload|, 2), Digit(|f.payload|, 1), Digit(|f.payload|, 0)) == |f.payload|
  {
    var n := |f.payload|;
    BigEndianInverse(n);
    assert Digit(n, 3) == Digit(n / 0x100, 2) == Digit(n / 0x100 / 0x100, 1) == 0;
  }

  lemma HeadReads(s: bytes, at: nat, f: Frame)
    requires ValidFrame(f) && at + 9 <= |s| && s[at..at + 9] == Head(f)
    ensures FrameLength(s, at) == |f.payload|
    ensures s[at + 3] == f.kind && s[at + 4] == f.flags
    ensures BigEndian(s[at + 5], s[at + 6], s[at + 7], s[at + 8]) == f.id
  {
    var part := s[at..at + 9];
    assert part[0] == s[at] && part[1] == s[at + 1] && part[2] == s[at + 2];
    assert part[3] == s[at + 3] && part[4] == s[at + 4];
    assert part[5] == s[at + 5] && part[6] == s[at + 6] && part[7] == s[at + 7] && part[8] == s[at + 8];
    LengthReads(f);
    BigEndianInverse(f.id);
  }

  lemma SplitSlice(s: bytes, at: nat, a: bytes, b: bytes)
    requires at + |a| + |b| <= |s| && s[at..at + |a| + |b|] == a + b
    ensures s[at..at + |a|] == a
    ensures s[at + |a|..at + |a| + |b|] == b
  {
    var c := a + b;
    assert forall k {:trigger c[k]} :: 0 <= k < |c| ==> s[at + k] == c[k];
    assert forall k :: 0 <= k < |b| ==> c[|a| + k] == b[k];
    forall k | 0 <= k < |b|
      ensures s[at + |a|..at + |a| + |b|][k] == b[k]
    {
      assert c[|a| + k] == b[k];
    }
    forall k | 0 <= k < |a|
      ensures s[at..at + |a|][k] == a[k]
    {
      assert c[k] == a[k];
    }
  }

  lemma FieldsMakeFrame(s: bytes, at: nat, f: Frame)
    requires at + 9 + |f.payload| <= |s| && FrameLength(s, at) == |f.payload| && f.id < ID_LIMIT
    requires s[at + 3] == f.kind && s[at + 4] == f.flags
    requires BigEndian(s[at + 5], s[at + 6], s[at + 7], s[at + 8]) == f.id
    requires s[at + 9..at + 9 + |f.payload|] == f.payload
    ensures FrameAt(s, at) == f
  {
  }

  /** Wherever the encoding of a frame stands, that frame is read. */
  lemma EncodedFrameReads(s: bytes, at: nat, f: Frame, head: bytes)
    requires ValidFrame(f) && at + 9 + |f.payload| <= |s| && head == Head(f)
    requires s[at..at + 9] == head && s[at + 9..at + 9 + |f.payload|] == f.payload
    ensures FrameLength(s, at) == |f.payload|
    ensures FrameAt(s, at) == f
  {
    HeadReads(s, at, f);
    FieldsMakeFrame(s, at, f);
  }

  lemma FirstFrameStands(s: bytes, at: nat, f: Frame, rest: bytes)
    requires ValidFrame(f) && at <= |s| && s[at..] == Encode(f) + rest
    ensures at + 9 + |f.payload| <= |s|
    ensures FrameLength(s, at) == |f.payload| && FrameAt(s, at) == f
    ensures s[at + 9 + |f.payload|..] == rest
  {
    var next := at + 9 + |f.payload|;
    assert |s[at..]| == |Encode(f)| + |rest|;
    assert s[at..at + |Encode(f)| + |rest|] == s[at..];
    SplitSlice(s, at, Encode(f), rest);
    assert s[next..] == s[next..next + |rest|];
    SplitSlice(s, at, Head(f), f.payload);
    EncodedFrameReads(s, at, f, Head(f));
  }

  ghost predicate ReadsAs<S(!new)>(h: Hpack<S>, s: bytes, at: nat, frames: seq<Frame>)
  {
    forall st: State<S> :: ParseFrom(h, s, at, st) == AcceptAll(h, st, frames)
  }

  lemma ReadsOn<S(!new)>(h: Hpack<S>, s: bytes, at: nat, frames: seq<Frame>)
    requires frames != [] && at + 9 + |frames[0].payload| <= |s|
    requires FrameLength(s, at) == |frames[0].payload| && FrameAt(s, at) == frames[0]
    requires ReadsAs(h, s, at + 9 + |frames[0].payload|, frames[1..])
    ensures ReadsAs(h, s, at, frames)
  {
    forall st: State<S>
      ensures ParseFrom(h, s, at, st) == AcceptAll(h, st, frames)
    {
    }
  }

  /** Serialised frames parse back: reading the bytes is accepting the frames. */
  lemma {:induction false} ParsingReadsFrames<S(!new)>(h: Hpack<S>, s: bytes, at: nat, frames: seq<Frame>)
    requires AllValid(frames) && at <= |s| && s[at..] == EncodeAll(frames)
    ensures ReadsAs(h, s, at, frames)
    decreases |frames|
  {
    if frames == [] {
      assert |s[at..]| == 0;
    } else {
      FirstFrameStands(s, at, frames[0], EncodeAll(frames[1..]));
      ParsingReadsFrames(h, s, at + 9 + |frames[0].payload|, frames[1..]);
      ReadsOn(h, s, at, frames);
    }
  }

  // ----- Events: what a sender wants to say, and the frames it says it with

  /** A header block, cut into the pieces that HEADERS and CONTINUATION frames carry, a piece of a
      body, or a frame that says nothing about a stream: SETTINGS, PING, WINDOW_UPDATE, PRIORITY and
      every other kind that the parser skips. `end` closes the stream; `other` holds the flags besides
      END_STREAM and END_HEADERS, of which the parser takes no notice. */
  datatype Event =
    | Block(id: nat, pieces: seq<bytes>, end: bool, other: byte)
    | Body(id: nat, piece: bytes, end: bool, other: byte)
    | Ignored(frame: Frame)

  /** The parser takes no notice of this frame. */
  predicate Skipped(f: Frame)
  {
    && f.kind != CONTINUATION && f.kind != 3 && f.kind != 5 && f.kind != 7
    && (f.kind == DATA || f.kind == HEADERS ==> f.id == 0)
  }

  /** The event is about this stream. */
  predicate On(e: Event, id: nat)
  {
    !e.Ignored? && e.id == id
  }

  predicate Closes(e: Event, id: nat)
  {
    !e.Ignored? && e.id == id && e.end
  }

  ghost predicate ValidEvent(e: Event)
  {
    match e
    case Block(id, pieces, _, other) =>
      0 < id < ID_LIMIT && !EndStream(other) && !EndHeaders(other)
      && pieces != [] && forall i :: 0 <= i < |pieces| ==> |pieces[i]| < LENGTH_LIMIT
    case Body(id, piece, _, other) => 0 < id < ID_LIMIT && !EndStream(other) && |piece| < LENGTH_LIMIT
    case Ignored(frame) => ValidFrame(frame) && Skipped(frame)
  }

  ghost predicate ValidEvents(events: seq<Event>)
  {
    forall i :: 0 <= i < |events| ==> ValidEvent(events[i])
  }

  function Flag(end: bool): byte
  {
    if end then 1 else 0
  }

  lemma FlagsFit(other: byte, end: bool, last: bool)
    requires !EndStream(other) && !EndHeaders(other)
    ensures var flags: nat := other + Flag(end) + if last then 4 else 0;
            flags < 256 && EndStream(flags) == end && EndHeaders(flags) == last
  {
    assert other / 4 % 2 == 0 && other % 2 == 0;
  }

  function Continuations(id: nat, pieces: seq<bytes>): seq<Frame>
  {
    if pieces == [] then []
    else [Frame(CONTINUATION, if |pieces| == 1 then 4 else 0, id, pieces[0])] + Continuations(id, pieces[1..])
  }

  ghost function Print(e: Event): seq<Frame>
    requires ValidEvent(e)
  {
    match e
    case Block(id, pieces, end, other) =>
      FlagsFit(other, end, |pieces| == 1);
      [Frame(HEADERS, other + Flag(end) + if |pieces| == 1 then 4 else 0, id, pieces[0])]
      + Continuations(id, pieces[1..])
    case Body(id, piece, end, other) => [Frame(DATA, other + Flag(end), id, piece)]
    case Ignored(frame) => [frame]
  }

  ghost function PrintAll(events: seq<Event>): seq<Frame>
    requires ValidEvents(events)
  {
    if events == [] then [] else Print(events[0]) + PrintAll(events[1..])
  }

  function Flatten(pieces: seq<bytes>): bytes
  {
    if pieces == [] then [] else pieces[0] + Flatten(pieces[1..])
  }

  // ----- What the events mean, stream by stream

  function Blocks(events: seq<Event>): seq<(nat, bytes)>
  {
    if events == [] then []
    else BlockOf(events[0]) + Blocks(events[1..])
  }

  /** The header blocks decoded in their global order. */
  function DecodeBlocks<S>(h: Hpack<S>, decoder: S, blocks: seq<(nat, bytes)>): Option<(S, seq<(nat, Headers)>)>
    decreases |blocks|
  {
    if blocks == [] then Some((decoder, []))
    else
      match h.decode(decoder, blocks[0].1)
      case None => None
      case Some((next, headers)) =>
        match DecodeBlocks(h, next, blocks[1..])
        case None => None
        case Some((last, list)) => Some((last, [(blocks[0].0, headers)] + list))
  }

  function LastHeaders(list: seq<(nat, Headers)>, id: nat, default: Headers): Headers
  {
    if list == [] then default
    else LastHeaders(list[1..], id, if list[0].0 == id then list[0].1 else default)
  }

  function BodyOf(events: seq<Event>, id: nat): bytes
  {
    if events == [] then []
    else (if events[0].Body? && events[0].id == id then events[0].piece else []) + BodyOf(events[1..], id)
  }

  predicate Mentions(events: seq<Event>, id: nat)
  {
    exists i :: 0 <= i < |events| && On(events[i], id)
  }

  predicate Ends(events: seq<Event>, id: nat)
  {
    exists i :: 0 <= i < |events| && Closes(events[i], id)
  }

  /** `after` is `before` extended by the content of the events. */
  ghost predicate Extended(before: map<nat, Parts>, events: seq<Event>, list: seq<(nat, Headers)>,
                           after: map<nat, Parts>)
  {
    forall id: nat ::
      && (id in after <==> id in before || Mentions(events, id))
      && (id in after ==>
            after[id] == Parts(LastHeaders(list, id, PartsOf(before, id).headers),
                               PartsOf(before, id).body + BodyOf(events, id),
                               PartsOf(before, id).ended || Ends(events, id)))
  }

  lemma {:induction false} AcceptConcat<S>(h: Hpack<S>, st: State<S>, a: seq<Frame>, b: seq<Frame>)
    ensures AcceptAll(h, st, a + b)
         == match AcceptAll(h, st, a) case None => None case Some(st1) => AcceptAll(h, st1, b)
    decreases |a|
  {
    if a == [] {
      assert a + b == b;
    } else {
      assert (a + b)[1..] == a[1..] + b;
      match Accept(h, st, a[0])
      case None =>
      case Some(st1) => AcceptConcat(h, st1, a[1..], b);
    }
  }

  lemma {:induction false} ContinuationsFinish<S>(h: Hpack<S>, st: State<S>, pieces: seq<bytes>)
    requires pieces != [] && st.pending.Some?
    ensures var p := st.pending.value;
            AcceptAll(h, st, Continuations(p.id, pieces))
            == FinishBlock(h, st, p.id, p.flags, p.block + Flatten(pieces))
    decreases |pieces|
  {
    var p := st.pending.value;
    var frames := Continuations(p.id, pieces);
    assert frames[1..] == Continuations(p.id, pieces[1..]);
    if |pieces| == 1 {
      assert Flatten(pieces) == pieces[0] + Flatten([]);
      assert p.block + Flatten(pieces) == p.block + pieces[0];
      match Accept(h, st, frames[0])
      case None =>
      case Some(st1) => assert AcceptAll(h, st1, frames[1..]) == Some(st1);
    } else {
      var st1 := st.(pending := Some(Pending(p.id, p.flags, p.block + pieces[0])));
      assert Accept(h, st, frames[0]) == Some(st1);
      ContinuationsFinish(h, st1, pieces[1..]);
      assert p.block + pieces[0] + Flatten(pieces[1..]) == p.block + Flatten(pieces);
    }
  }

  /** However a header block is cut, its frames act like the whole block (section 6.10). */
  lemma CutBlockActsWhole<S>(h: Hpack<S>, st: State<S>, e: Event)
    requires e.Block? && ValidEvent(e) && st.pending.None?
    ensures AcceptAll(h, st, Print(e)) == FinishBlock(h, st, e.id, Flag(e.end), Flatten(e.pieces))
  {
    FlagsFit(e.other, e.end, |e.pieces| == 1);
    var frames := Print(e);
    assert frames[1..] == Continuations(e.id, e.pieces[1..]);
    if |e.pieces| == 1 {
      assert Flatten(e.pieces) == e.pieces[0] + Flatten([]) == e.pieces[0];
      match Accept(h, st, frames[0])
      case None =>
      case Some(st1) => assert AcceptAll(h, st1, frames[1..]) == Some(st1);
    } else {
      ContinuationsFinish(h, st.(pending := Some(Pending(e.id, e.other + Flag(e.end), e.pieces[0]))), e.pieces[1..]);
    }
  }

  lemma SingleEvent(e: Event)
    ensures Blocks([e]) == if e.Block? then [(e.id, Flatten(e.pieces))] else []
    ensures forall id :: Mentions([e], id) <==> On(e, id)
    ensures forall id :: Ends([e], id) <==> Closes(e, id)
    ensures forall id :: BodyOf([e], id) == if e.Body? && e.id == id then e.piece else []
  {
    assert [e][1..] == [] && [e][0] == e && Blocks([]) == [];
    forall id
      ensures BodyOf([e], id) == if e.Body? && e.id == id then e.piece else []
    {
      assert BodyOf([], id) == [];
    }
  }

  lemma SingleBlock<S>(h: Hpack<S>, decoder: S, id: nat, block: bytes)
    ensures DecodeBlocks(h, decoder, [(id, block)])
         == match h.decode(decoder, block) case None => None case Some((next, headers)) => Some((next, [(id, headers)]))
  {
    assert [(id, block)][1..] == [];
    match h.decode(decoder, block)
    case None =>
    case Some((next, headers)) =>
      assert DecodeBlocks(h, next, []) == Some((next, []));
      assert [(id, headers)] + [] == [(id, headers)];
  }

  /** One event extends the streams by its own content. */
  lemma EventExtends<S>(h: Hpack<S>, st: State<S>, e: Event)
    requires ValidEvent(e) && st.pending.None?
    ensures match DecodeBlocks(h, st.decoder, Blocks([e]))
            case None => AcceptAll(h, st, Print(e)).None?
            case Some((last, list)) =>
              && AcceptAll(h, st, Print(e)).Some?
              && var st1 := AcceptAll(h, st, Print(e)).value;
                 && st1.decoder == last && st1.pending.None?
                 && Extended(st.streams, [e], list, st1.streams)
                 && forall k :: 0 <= k < |list| ==> On(e, list[k].0)
  {
    SingleEvent(e);
    if e.Block? {
      CutBlockActsWhole(h, st, e);
      SingleBlock(h, st.decoder, e.id, Flatten(e.pieces));
      match h.decode(st.decoder, Flatten(e.pieces))
      case None =>
      case Some((next, headers)) =>
        forall id
          ensures LastHeaders([(e.id, headers)], id, PartsOf(st.streams, id).headers)
               == if id == e.id then headers else PartsOf(st.streams, id).headers
        {
          assert [(e.id, headers)][1..] == [];
        }
    } else {
      var frames := Print(e);
      assert frames[1..] == [];
      var st1 := Accept(h, st, frames[0]).value;
      assert AcceptAll(h, st, frames) == AcceptAll(h, st1, frames[1..]) == Some(st1);
    }
  }

  lemma {:induction false} DecodeConcat<S>(h: Hpack<S>, decoder: S, a: seq<(nat, bytes)>, b: seq<(nat, bytes)>)
    ensures DecodeBlocks(h, decoder, a + b)
         == match DecodeBlocks(h, decoder, a)
            case None => None
            case Some((next, first)) =>
              match DecodeBlocks(h, next, b)
              case None => None
              case Some((last, second)) => Some((last, first + second))
  {
    if a == [] {
      assert a + b == b;
      match DecodeBlocks(h, decoder, b)
      case None =>
      case Some((last, second)) => assert [] + second == second;
    } else {
      assert (a + b)[1..] == a[1..] + b;
      match h.decode(decoder, a[0].1)
      case None =>
      case Some((next, headers)) =>
        DecodeConcat(h, next, a[1..], b);
        match DecodeBlocks(h, next, a[1..])
        case None =>
        case Some((middle, first)) =>
          match DecodeBlocks(h, middle, b)
          case None =>
          case Some((last, second)) =>
            assert [(a[0].0, headers)] + (first + second) == [(a[0].0, headers)] + first + second;
    }
  }

  lemma {:induction false} LastHeadersConcat(a: seq<(nat, Headers)>, b: seq<(nat, Headers)>, id: nat, default: Headers)
    ensures LastHeaders(a + b, id, default) == LastHeaders(b, id, LastHeaders(a, id, default))
  {
    if a == [] {
      assert a + b == b;
    } else {
      assert (a + b)[1..] == a[1..] + b;
      LastHeadersConcat(a[1..], b, id, if a[0].0 == id then a[0].1 else default);
    }
  }

  /** Headers of one stream do not reach another. */
  lemma {:induction false} ForeignHeaders(list: seq<(nat, Headers)>, id: nat, default: Headers)
    requires forall k :: 0 <= k < |list| ==> list[k].0 != id
    ensures LastHeaders(list, id, default) == default
  {
    if list != [] {
      ForeignHeaders(list[1..], id, default);
    }
  }

  lemma ExtendedAt(s0: map<nat, Parts>, e: Event, first: seq<(nat, Headers)>, s1: map<nat, Parts>, id: nat)
    requires Extended(s0, [e], first, s1)
    requires forall k :: 0 <= k < |first| ==> On(e, first[k].0)
    ensures id in s1 <==> id in s0 || On(e, id)
    ensures PartsOf(s1, id) == Parts(LastHeaders(first, id, PartsOf(s0, id).headers),
                                     PartsOf(s0, id).body + BodyOf([e], id),
                                     PartsOf(s0, id).ended || Closes(e, id))
  {
    assert [e][0] == e && [e][1..] == [];
    assert Mentions([e], id) <==> On(e, id);
    assert Ends([e], id) <==> Closes(e, id);
    if id !in s1 {
      ForeignHeaders(first, id, []);
      assert BodyOf([e], id) == [] + BodyOf([], id) == [];
    }
  }

  lemma ExtendedTwiceAt(s0: map<nat, Parts>, e: Event, first: seq<(nat, Headers)>, s1: map<nat, Parts>,
                        rest: seq<Event>, second: seq<(nat, Headers)>, id: nat)
    requires Extended(s0, [e], first, s1)
    requires forall k :: 0 <= k < |first| ==> On(e, first[k].0)
    ensures id in s1 || Mentions(rest, id) <==> id in s0 || Mentions([e] + rest, id)
    ensures LastHeaders(second, id, PartsOf(s1, id).headers)
         == LastHeaders(first + second, id, PartsOf(s0, id).headers)
    ensures PartsOf(s1, id).body + BodyOf(rest, id) == PartsOf(s0, id).body + BodyOf([e] + rest, id)
    ensures PartsOf(s1, id).ended || Ends(rest, id) <==> PartsOf(s0, id).ended || Ends([e] + rest, id)
  {
    var p0 := PartsOf(s0, id);
    ExtendedAt(s0, e, first, s1, id);
    MentionsCons(e, rest, id);
    EndsCons(e, rest, id);
    LastHeadersConcat(first, second, id, p0.headers);
    BodyCons(e, rest, id);
    Associate(p0.body, BodyOf([e], id), BodyOf(rest, id));
  }

  lemma BodyCons(e: Event, rest: seq<Event>, id: nat)
    ensures BodyOf([e] + rest, id) == BodyOf([e], id) + BodyOf(rest, id)
  {
    BodyConcat([e], rest, id);
  }

  lemma ExtendedTwice(s0: map<nat, Parts>, e: Event, first: seq<(nat, Headers)>, s1: map<nat, Parts>,
                      rest: seq<Event>, second: seq<(nat, Headers)>, s2: map<nat, Parts>)
    requires Extended(s0, [e], first, s1) && Extended(s1, rest, second, s2)
    requires forall k :: 0 <= k < |first| ==> On(e, first[k].0)
    ensures Extended(s0, [e] + rest, first + second, s2)
  {
    forall id: nat
      ensures id in s2 <==> id in s0 || Mentions([e] + rest, id)
      ensures id in s2 ==>
                s2[id] == Parts(LastHeaders(first + second, id, PartsOf(s0, id).headers),
                                PartsOf(s0, id).body + BodyOf([e] + rest, id),
                                PartsOf(s0, id).ended || Ends([e] + rest, id))
    {
      ExtendedTwiceAt(s0, e, first, s1, rest, second, id);
    }
  }

  lemma MentionsCons(e: Event, rest: seq<Event>, id: nat)
    ensures Mentions([e] + rest, id) <==> On(e, id) || Mentions(rest, id)
  {
    var events := [e] + rest;
    assert events[0] == e;
    if Mentions(rest, id) {
      var i :| 0 <= i < |rest| && On(rest[i], id);
      assert On(events[i + 1], id);
    }
  }

  lemma EndsCons(e: Event, rest: seq<Event>, id: nat)
    ensures Ends([e] + rest, id) <==> Closes(e, id) || Ends(rest, id)
  {
    var events := [e] + rest;
    assert events[0] == e;
    if Ends(rest, id) {
      var i :| 0 <= i < |rest| && Closes(rest[i], id);
      assert Closes(events[i + 1], id);
    }
  }

  /** Frames printed from events act stream by stream: the outcome is determined by the header
      blocks in their global order and by each stream's own body pieces and end flags. */
  lemma {:induction false} EventsExtend<S>(h: Hpack<S>, st: State<S>, events: seq<Event>)
    requires ValidEvents(events) && st.pending.None?
    ensures match DecodeBlocks(h, st.decoder, Blocks(events))
            case None => AcceptAll(h, st, PrintAll(events)).None?
            case Some((last, list)) =>
              && AcceptAll(h, st, PrintAll(events)).Some?
              && var st1 := AcceptAll(h, st, PrintAll(events)).value;
                 st1.decoder == last && st1.pending.None? && Extended(st.streams, events, list, st1.streams)
    decreases |events|
  {
    if events != [] {
      var e, rest := events[0], events[1..];
      assert events == [e] + rest;
      SingleEvent(e);
      AcceptConcat(h, st, Print(e), PrintAll(rest));
      EventExtends(h, st, e);
      assert Blocks(events) == Blocks([e]) + Blocks(rest);
      DecodeConcat(h, st.decoder, Blocks([e]), Blocks(rest));
      match DecodeBlocks(h, st.decoder, Blocks([e]))
      case None =>
      case Some((next, first)) =>
        var st1 := AcceptAll(h, st, Print(e)).value;
        EventsExtend(h, st1, rest);
        match DecodeBlocks(h, next, Blocks(rest))
        case None =>
        case Some((last, second)) =>
          var st2 := AcceptAll(h, st1, PrintAll(rest)).value;
          ExtendedTwice(st.streams, e, first, st1.streams, rest, second, st2.streams);
    }
  }

  lemma {:induction false} PrintedFramesAreValid(events: seq<Event>)
    requires ValidEvents(events)
    ensures AllValid(PrintAll(events))
    decreases |events|
  {
    if events != [] {
      if events[0].Block? {
        ContinuationsAreValid(events[0].id, events[0].pieces[1..]);
      }
      PrintedFramesAreValid(events[1..]);
    }
  }

  lemma {:induction false} ContinuationsAreValid(id: nat, pieces: seq<bytes>)
    requires id < ID_LIMIT && forall i :: 0 <= i < |pieces| ==> |pieces[i]| < LENGTH_LIMIT
    ensures AllValid(Continuations(id, pieces))
    decreases |pieces|
  {
    if pieces != [] {
      ContinuationsAreValid(id, pieces[1..]);
    }
  }

  // ----- Invariance

  /** The same header blocks in the same global order, and for every stream the same body and the
      same end: cuts, splits and the interleaving of streams are not compared. */
  ghost predicate SameContent(a: seq<Event>, b: seq<Event>)
  {
    && Blocks(a) == Blocks(b)
    && forall id ::
         (Mentions(a, id) <==> Mentions(b, id)) && BodyOf(a, id) == BodyOf(b, id) && (Ends(a, id) <==> Ends(b, id))
  }

  ghost function Stream(events: seq<Event>, client: bool): bytes
    requires ValidEvents(events)
  {
    PrintedFramesAreValid(events);
    (if client then PREFACE else []) + EncodeAll(PrintAll(events))
  }

  lemma ParsePrinted<S(!new)>(h: Hpack<S>, events: seq<Event>, client: bool)
    requires ValidEvents(events)
    ensures match DecodeBlocks(h, h.init, Blocks(events))
            case None => ParseDirection(h, Stream(events, client), client).None?
            case Some((_, list)) =>
              && ParseDirection(h, Stream(events, client), client).Some?
              && Extended(map[], events, list, ParseDirection(h, Stream(events, client), client).value)
  {
    PrintedFramesAreValid(events);
    var at := if client then 24 else 0;
    var s := Stream(events, client);
    assert s[at..] == EncodeAll(PrintAll(events));
    ParsingReadsFrames(h, s, at, PrintAll(events));
    assert ParseFrom(h, s, at, Initial(h)) == AcceptAll(h, Initial(h), PrintAll(events));
    EventsExtend(h, Initial(h), events);
  }

  lemma {:induction false} AlikeAt(before: map<nat, Parts>, a: seq<Event>, b: seq<Event>, list: seq<(nat, Headers)>,
                                   x: map<nat, Parts>, y: map<nat, Parts>, id: nat)
    requires SameContent(a, b) && Extended(before, a, list, x) && Extended(before, b, list, y)
    ensures id in x <==> id in y
    ensures id in x ==> x[id] == y[id]
  {
    assert Mentions(a, id) <==> Mentions(b, id);
    assert Ends(a, id) <==> Ends(b, id);
    assert BodyOf(a, id) == BodyOf(b, id);
  }

  /** Two events lists with the same content extend a table to the same table. */
  lemma {:induction false} ExtendedAlike(before: map<nat, Parts>, a: seq<Event>, b: seq<Event>,
                                         list: seq<(nat, Headers)>, x: map<nat, Parts>, y: map<nat, Parts>)
    requires SameContent(a, b) && Extended(before, a, list, x) && Extended(before, b, list, y)
    ensures x == y
  {
    forall id: nat
      ensures id in x <==> id in y
      ensures id in x ==> x[id] == y[id]
    {
      AlikeAt(before, a, b, list, x, y, id);
    }
    SameTable(x, y);
  }

  lemma SameTable(x: map<nat, Parts>, y: map<nat, Parts>)
    requires forall id: nat :: id in x <==> id in y
    requires forall id: nat :: id in x ==> x[id] == y[id]
    ensures x == y
  {
  }

  /** The parse of a serialised direction depends on per-stream content only. */
  lemma ParseDependsOnContent<S(!new)>(h: Hpack<S>, a: seq<Event>, b: seq<Event>, client: bool)
    requires ValidEvents(a) && ValidEvents(b) && SameContent(a, b)
    ensures ParseDirection(h, Stream(a, client), client) == ParseDirection(h, Stream(b, client), client)
  {
    ParsePrinted(h, a, client);
    ParsePrinted(h, b, client);
    match DecodeBlocks(h, h.init, Blocks(a))
    case None =>
    case Some((_, list)) =>
      ExtendedAlike(map[], a, b, list, ParseDirection(h, Stream(a, client), client).value,
                    ParseDirection(h, Stream(b, client), client).value);
  }

  /** The header block of one event, if it is one. */
  function BlockOf(e: Event): seq<(nat, bytes)>
  {
    if e.Block? then [(e.id, Flatten(e.pieces))] else []
  }

  lemma {:induction false} BlocksConcat(a: seq<Event>, b: seq<Event>)
    ensures Blocks(a + b) == Blocks(a) + Blocks(b)
    decreases |a|
  {
    if a == [] {
      assert a + b == b;
    } else {
      assert (a + b)[1..] == a[1..] + b;
      BlocksConcat(a[1..], b);
      BlocksBetween(BlockOf(a[0]), Blocks(a[1..]), Blocks(b));
    }
  }

  lemma BlocksBetween(a: seq<(nat, bytes)>, b: seq<(nat, bytes)>, c: seq<(nat, bytes)>)
    ensures a + b + c == a + (b + c)
  {
  }

  lemma {:induction false} BodyConcat(a: seq<Event>, b: seq<Event>, id: nat)
    ensures BodyOf(a + b, id) == BodyOf(a, id) + BodyOf(b, id)
    decreases |a|
  {
    if a == [] {
      assert a + b == b;
    } else {
      assert (a + b)[1..] == a[1..] + b;
      BodyConcat(a[1..], b, id);
    }
  }

  lemma OccurConcat(a: seq<Event>, b: seq<Event>, id: nat)
    ensures Mentions(a + b, id) <==> Mentions(a, id) || Mentions(b, id)
    ensures Ends(a + b, id) <==> Ends(a, id) || Ends(b, id)
  {
    var c := a + b;
    assert forall i :: 0 <= i < |a| ==> c[i] == a[i];
    assert forall i :: 0 <= i < |b| ==> c[|a| + i] == b[i];
  }

  /** Content is compared locally: a change in the middle is a change of the middle only. */
  lemma SameInContext(before: seq<Event>, x: seq<Event>, y: seq<Event>, after: seq<Event>)
    requires SameContent(x, y)
    ensures SameContent(before + x + after, before + y + after)
  {
    BlocksConcat(before + x, after);
    BlocksConcat(before, x);
    BlocksConcat(before + y, after);
    BlocksConcat(before, y);
    forall id
      ensures Mentions(before + x + after, id) <==> Mentions(before + y + after, id)
      ensures BodyOf(before + x + after, id) == BodyOf(before + y + after, id)
      ensures Ends(before + x + after, id) <==> Ends(before + y + after, id)
    {
      BodyConcat(before + x, after, id);
      BodyConcat(before, x, id);
      BodyConcat(before + y, after, id);
      BodyConcat(before, y, id);
      OccurConcat(before + x, after, id);
      OccurConcat(before, x, id);
      OccurConcat(before + y, after, id);
      OccurConcat(before, y, id);
    }
  }

  lemma {:induction false} PairOfEvents(x: Event, y: Event)
    ensures Blocks([x, y]) == Blocks([x]) + Blocks([y])
    ensures forall id :: BodyOf([x, y], id) == BodyOf([x], id) + BodyOf([y], id)
    ensures forall id :: Mentions([x, y], id) <==> On(x, id) || On(y, id)
    ensures forall id :: Ends([x, y], id) <==> Closes(x, id) || Closes(y, id)
  {
    assert [x, y] == [x] + [y];
    BlocksConcat([x], [y]);
    SingleEvent(x);
    SingleEvent(y);
    forall id
      ensures BodyOf([x, y], id) == BodyOf([x], id) + BodyOf([y], id)
      ensures Mentions([x, y], id) <==> On(x, id) || On(y, id)
      ensures Ends([x, y], id) <==> Closes(x, id) || Closes(y, id)
    {
      BodyConcat([x], [y], id);
      OccurConcat([x], [y], id);
    }
  }

  /** The events may change places: they are not about the same stream and not both header blocks. */
  predicate Independent(x: Event, y: Event)
  {
    x.Ignored? || y.Ignored? || (x.id != y.id && !(x.Block? && y.Block?))
  }

  /** The header block is cut elsewhere. */
  predicate Recuts(x: seq<Event>, y: seq<Event>)
  {
    |x| == 1 && |y| == 1 && x[0].Block? && y[0].Block? && x[0].id == y[0].id && x[0].end == y[0].end
    && Flatten(x[0].pieces) == Flatten(y[0].pieces)
  }

  /** One DATA frame becomes two. */
  predicate Splits(x: seq<Event>, y: seq<Event>)
  {
    |x| == 1 && |y| == 2 && x[0].Body? && y[0].Body? && y[1].Body? && x[0].id == y[0].id == y[1].id
    && !y[0].end && x[0].end == y[1].end && x[0].piece == y[0].piece + y[1].piece
  }

  predicate Exchanges(x: seq<Event>, y: seq<Event>)
  {
    |x| == 2 && Independent(x[0], x[1]) && y == [x[1], x[0]]
  }

  /** A frame that the parser skips is dropped. */
  predicate Drops(x: seq<Event>, y: seq<Event>)
  {
    |x| == 1 && x[0].Ignored? && y == []
  }

  /** Four rewritings, each at any place and in either direction, leave the content alone: cutting a
      header block elsewhere, splitting a DATA frame, exchanging independent neighbours, and dropping
      a frame that the parser skips. */
  lemma RewritingsKeepContent(before: seq<Event>, x: seq<Event>, y: seq<Event>, after: seq<Event>)
    requires Recuts(x, y) || Splits(x, y) || Exchanges(x, y) || Drops(x, y)
    ensures SameContent(before + x + after, before + y + after) && SameContent(before + y + after, before + x + after)
  {
    assert |x| == 1 ==> x == [x[0]];
    assert |y| == 1 ==> y == [y[0]];
    if Recuts(x, y) {
      SingleEvent(x[0]);
      SingleEvent(y[0]);
    } else if Splits(x, y) {
      assert y == [y[0], y[1]];
      SplitKeepsContent(x[0], y[0], y[1]);
    } else if Exchanges(x, y) {
      assert x == [x[0], x[1]];
      ExchangeKeepsContent(x[0], x[1]);
    } else {
      SingleEvent(x[0]);
    }
    SameInContext(before, x, y, after);
  }

  lemma SplitKeepsContent(x: Event, l: Event, r: Event)
    requires Splits([x], [l, r])
    ensures SameContent([x], [l, r])
  {
    assert [x][0] == x && [l, r][0] == l && [l, r][1] == r;
    SingleEvent(x);
    SingleEvent(l);
    SingleEvent(r);
    PairOfEvents(l, r);
  }

  lemma {:induction false} ExchangeKeepsContent(x: Event, y: Event)
    requires Independent(x, y)
    ensures SameContent([x, y], [y, x])
  {
    SingleEvent(x);
    SingleEvent(y);
    PairOfEvents(x, y);
    PairOfEvents(y, x);
    assert Blocks([x]) == [] || Blocks([y]) == [];
    forall id
      ensures BodyOf([x, y], id) == BodyOf([y, x], id)
    {
      assert BodyOf([x], id) == [] || BodyOf([y], id) == [];
    }
  }

  // ----- Transactions

  datatype Transaction = Transaction(verb: bytes, path: bytes, authority: bytes, status: bytes,
                                     requestBody: bytes, responseBody: bytes)

  const METHOD: bytes := [0x3a, 0x6d, 0x65, 0x74, 0x68, 0x6f, 0x64]                       // :method
  const PATH: bytes := [0x3a, 0x70, 0x61, 0x74, 0x68]                                     // :path
  const AUTHORITY: bytes := [0x3a, 0x61, 0x75, 0x74, 0x68, 0x6f, 0x72, 0x69, 0x74, 0x79]  // :authority
  const STATUS: bytes := [0x3a, 0x73, 0x74, 0x61, 0x74, 0x75, 0x73]                       // :status

  function Header(list: Headers, name: bytes): bytes
  {
    if list == [] then [] else if list[0].0 == name then list[0].1 else Header(list[1..], name)
  }

  function TransactionOf(requests: map<nat, Parts>, responses: map<nat, Parts>, id: nat): Option<Transaction>
  {
    if id !in requests || id !in responses then None
    else
      var q, a := requests[id], responses[id];
      if !q.ended || !a.ended then None
      else if Header(q.headers, METHOD) == [] || Header(q.headers, PATH) == [] || Header(a.headers, STATUS) == []
      then None
      else Some(Transaction(Header(q.headers, METHOD), Header(q.headers, PATH), Header(q.headers, AUTHORITY),
                            Header(a.headers, STATUS), q.body, a.body))
  }

  /** All transactions of the listed streams, or none if one of them is incomplete. */
  function Collect(requests: map<nat, Parts>, responses: map<nat, Parts>, ids: seq<nat>): (r: Option<seq<Transaction>>)
    ensures r.Some? <==> forall i :: 0 <= i < |ids| ==> TransactionOf(requests, responses, ids[i]).Some?
    ensures r.Some? ==> |r.value| == |ids|
    ensures r.Some? ==> forall i :: 0 <= i < |ids| ==> TransactionOf(requests, responses, ids[i]) == Some(r.value[i])
  {
    if ids == [] then Some([])
    else
      match TransactionOf(requests, responses, ids[0])
      case None => None
      case Some(t) =>
        match Collect(requests, responses, ids[1..])
        case None => None
        case Some(rest) => Some([t] + rest)
  }

  function RequestIds(requests: map<nat, Parts>): seq<nat>
  {
    Sorted(set id | id in requests && id % 2 == 1)
  }

  lemma RequestIdsMeans(requests: map<nat, Parts>)
    ensures Ascending(RequestIds(requests))
    ensures forall id :: id in RequestIds(requests) <==> id in requests && id % 2 == 1
    ensures forall i :: 0 <= i < |RequestIds(requests)| ==> RequestIds(requests)[i] in requests
  {
    SortedMeans(set id | id in requests && id % 2 == 1);
  }

  function Extract<S>(h: Hpack<S>, client: bytes, server: bytes): Option<seq<Transaction>>
  {
    if !(PREFACE <= client) then None
    else
      var requests, responses := ParseDirection(h, client, true), ParseDirection(h, server, false);
      if requests.None? || responses.None? then None
      else
        var output := Collect(requests.value, responses.value, RequestIds(requests.value));
        if output.Some? && output.value == [] then None else output
  }

  method ExtractHttp2Transactions<S>(h: Hpack<S>, client: bytes, server: bytes) returns (r: Option<seq<Transaction>>)
    ensures r == Extract(h, client, server)
  {
    if !(PREFACE <= client) {
      return None;
    }
    var requests := ParseH2Direction(h, client, true);
    if requests.None? {
      return None;
    }
    var responses := ParseH2Direction(h, server, false);
    if responses.None? {
      return None;
    }
    var output := CollectTransactions(requests.value, responses.value, RequestIds(requests.value));
    r := if output.Some? && output.value == [] then None else output;
  }

  method CollectTransactions(requests: map<nat, Parts>, responses: map<nat, Parts>, ids: seq<nat>)
    returns (r: Option<seq<Transaction>>)
    ensures r == Collect(requests, responses, ids)
  {
    var output: seq<Transaction> := [];
    for i := 0 to |ids|
      invariant |output| == i
      invariant forall k :: 0 <= k < i ==> TransactionOf(requests, responses, ids[k]) == Some(output[k])
    {
      var t := TransactionOf(requests, responses, ids[i]);
      if t.None? {
        assert Collect(requests, responses, ids).None?;
        return None;
      }
      output := output + [t.value];
    }
    r := Some(output);
    assert Collect(requests, responses, ids).Some?;
    assert output == Collect(requests, responses, ids).value;
  }

  /** Transactions come in ascending order of their odd stream ids, one for each request stream,
      with the decoded pseudo-headers and the bodies of that stream. */
  lemma ExtractedInOrder<S>(h: Hpack<S>, client: bytes, server: bytes)
    requires Extract(h, client, server).Some?
    ensures var requests := ParseDirection(h, client, true).value;
            var responses := ParseDirection(h, server, false).value;
            var ids := RequestIds(requests);
            var output := Extract(h, client, server).value;
            && Ascending(ids) && |output| == |ids| > 0
            && (forall id :: id in ids <==> id in requests && id % 2 == 1)
            && forall i :: 0 <= i < |ids| ==>
                 && ids[i] in requests && ids[i] in responses
                 && requests[ids[i]].ended && responses[ids[i]].ended
                 && output[i].requestBody == requests[ids[i]].body
                 && output[i].responseBody == responses[ids[i]].body
  {
    RequestIdsMeans(ParseDirection(h, client, true).value);
  }

  /** The transactions of two serialised directions depend on per-stream content only. */
  lemma ExtractionDependsOnContent<S(!new)>(h: Hpack<S>, a: seq<Event>, b: seq<Event>, c: seq<Event>, d: seq<Event>)
    requires ValidEvents(a) && ValidEvents(b) && ValidEvents(c) && ValidEvents(d)
    requires SameContent(a, b) && SameContent(c, d)
    ensures Extract(h, Stream(a, true), Stream(c, false)) == Extract(h, Stream(b, true), Stream(d, false))
  {
    ParseDependsOnContent(h, a, b, true);
    ParseDependsOnContent(h, c, d, false);
  }
}
