/** Which byte strings are capture files, for which frames, and what the others are refused for: said of
    the bytes alone. */
module ContainerErrors {
  import opened Base
  import opened Dissect
  import opened Containers

  // ----- Numbers

  datatype Order = LittleEndian | BigEndian

  function Two(low: nat, high: nat): nat
  {
    0x100 * high + low
  }

  function Four(lowest: nat, low: nat, high: nat, highest: nat): nat
  {
    0x100_0000 * highest + 0x1_0000 * high + 0x100 * low + lowest
  }

  function Number32(order: Order, s: bytes, at: nat): nat
    requires at + 4 <= |s|
  {
    if order.LittleEndian? then Four(s[at], s[at + 1], s[at + 2], s[at + 3])
    else Four(s[at + 3], s[at + 2], s[at + 1], s[at])
  }

  function Number16(order: Order, s: bytes, at: nat): nat
    requires at + 2 <= |s|
  {
    if order.LittleEndian? then Two(s[at], s[at + 1]) else Two(s[at + 1], s[at])
  }

  lemma {:induction false} NumberReads(order: Order, s: bytes, at: nat)
    requires at + 4 <= |s|
    ensures Read32(order.LittleEndian?, s, at) == Number32(order, s, at)
  {
  }

  lemma {:induction false} ShortNumberReads(order: Order, s: bytes, at: nat)
    requires at + 2 <= |s|
    ensures Read16(order.LittleEndian?, s, at) == Number16(order, s, at)
  {
  }

  // ----- PCAP

  /** The byte order that the first four bytes tell; the two forms of each differ in the unit of the
      timestamps. */
  function OrderOf(data: bytes): Option<Order>
    requires |data| >= 4
  {
    match (data[0], data[1], data[2], data[3])
    case (0xd4, 0xc3, 0xb2, 0xa1) => Some(LittleEndian)
    case (0x4d, 0x3c, 0xb2, 0xa1) => Some(LittleEndian)
    case (0xa1, 0xb2, 0xc3, 0xd4) => Some(BigEndian)
    case (0xa1, 0xb2, 0x3c, 0x4d) => Some(BigEndian)
    case _ => None
  }

  /** At `at` stands a record of this frame: a timestamp, the number of its bytes, its length on the wire,
      its bytes. */
  predicate IsRecord(order: Order, data: bytes, at: nat, f: Frame)
  {
    && at + 16 + |f.data| <= |data| && f.ethernet
    && Number32(order, data, at + 8) == |f.data| && Number32(order, data, at + 12) == f.original
    && data[at + 16..at + 16 + |f.data|] == f.data
  }

  /** Records of these frames fill the file from `at` on. */
  predicate AreRecords(order: Order, data: bytes, at: nat, frames: seq<Frame>)
    decreases |frames|
  {
    if frames == [] then at == |data|
    else IsRecord(order, data, at, frames[0]) && AreRecords(order, data, at + 16 + |frames[0].data|, frames[1..])
  }

  predicate IsPcap(data: bytes, frames: seq<Frame>)
  {
    && |data| >= 24 && OrderOf(data).Some?
    && Number32(OrderOf(data).value, data, 20) == 1
    && AreRecords(OrderOf(data).value, data, 24, frames)
  }

  lemma {:induction false} PcapStep(order: Order, data: bytes, at: nat, done: seq<Frame>, f: Frame)
    requires IsRecord(order, data, at, f)
    ensures PcapFrom(data, order.LittleEndian?, at, done)
         == PcapFrom(data, order.LittleEndian?, at + 16 + |f.data|, done + [f])
  {
    NumberReads(order, data, at + 8);
    NumberReads(order, data, at + 12);
  }

  /** Records are read. */
  lemma {:induction false} RecordsAreRead(order: Order, data: bytes, at: nat, done: seq<Frame>, frames: seq<Frame>)
    requires AreRecords(order, data, at, frames)
    ensures PcapFrom(data, order.LittleEndian?, at, done) == Ok(done + frames)
    decreases |frames|
  {
    if frames == [] {
      assert done + [] == done;
    } else {
      PcapStep(order, data, at, done, frames[0]);
      RecordsAreRead(order, data, at + 16 + |frames[0].data|, done + [frames[0]], frames[1..]);
      assert done + [frames[0]] + frames[1..] == done + frames;
    }
  }

  /** The record that stands at a place, if one does; if none does, reading ends there. */
  lemma {:induction false} RecordAt(order: Order, data: bytes, at: nat, done: seq<Frame>) returns (f: Option<Frame>)
    requires at < |data|
    ensures f.Some? ==> IsRecord(order, data, at, f.value)
    ensures f.None? ==> PcapFrom(data, order.LittleEndian?, at, done) == Err(CaptureError.Truncated)
  {
    f := None;
    if at + 16 <= |data| {
      NumberReads(order, data, at + 8);
      NumberReads(order, data, at + 12);
      var next := at + 16 + Number32(order, data, at + 8);
      if next <= |data| {
        f := Some(Frame(Number32(order, data, at + 12), true, data[at + 16..next]));
      }
    }
  }

  /** A reading that came to `r` has found these records, or none. */
  ghost predicate FoundRecords(order: Order, data: bytes, at: nat, done: seq<Frame>, frames: seq<Frame>,
                               r: Result<seq<Frame>, CaptureError>)
  {
    if r.Ok? then AreRecords(order, data, at, frames) && r.value == done + frames
    else r == Err(CaptureError.Truncated)
  }

  lemma {:induction false} RecordsAppend(order: Order, data: bytes, at: nat, f: Frame, frames: seq<Frame>)
    requires IsRecord(order, data, at, f) && AreRecords(order, data, at + 16 + |f.data|, frames)
    ensures AreRecords(order, data, at, [f] + frames)
  {
    assert ([f] + frames)[1..] == frames;
  }

  lemma {:induction false} OneMoreRecord(order: Order, data: bytes, at: nat, done: seq<Frame>, f: Frame,
                                         frames: seq<Frame>, r: Result<seq<Frame>, CaptureError>)
    requires IsRecord(order, data, at, f)
    requires FoundRecords(order, data, at + 16 + |f.data|, done + [f], frames, r)
    ensures FoundRecords(order, data, at, done, [f] + frames, r)
  {
    if r.Ok? {
      RecordsAppend(order, data, at, f, frames);
      assert done + [f] + frames == done + ([f] + frames);
    }
  }

  lemma {:induction false} NoMoreRecords(order: Order, data: bytes, done: seq<Frame>)
    ensures FoundRecords(order, data, |data|, done, [], PcapFrom(data, order.LittleEndian?, |data|, done))
  {
    assert done + [] == done;
  }

  lemma {:induction false} RecordStep(order: Order, data: bytes, at: nat, done: seq<Frame>, f: Frame,
                                      frames: seq<Frame>)
    requires IsRecord(order, data, at, f)
    requires var next := at + 16 + |f.data|;
             FoundRecords(order, data, next, done + [f], frames,
                          PcapFrom(data, order.LittleEndian?, next, done + [f]))
    ensures FoundRecords(order, data, at, done, [f] + frames, PcapFrom(data, order.LittleEndian?, at, done))
  {
    PcapStep(order, data, at, done, f);
    OneMoreRecord(order, data, at, done, f, frames, PcapFrom(data, order.LittleEndian?, at, done));
  }

  /** What is read consists of records; a file that does not is cut short. */
  lemma {:induction false} ReadIsRecords(order: Order, data: bytes, at: nat, done: seq<Frame>)
    returns (frames: seq<Frame>)
    requires at <= |data|
    ensures FoundRecords(order, data, at, done, frames, PcapFrom(data, order.LittleEndian?, at, done))
    decreases |data| - at
  {
    frames := [];
    if at == |data| {
      NoMoreRecords(order, data, done);
      return;
    }
    var f := RecordAt(order, data, at, done);
    if f.Some? {
      var rest := ReadIsRecords(order, data, at + 16 + |f.value.data|, done + [f.value]);
      RecordStep(order, data, at, done, f.value, rest);
      frames := [f.value] + rest;
    }
  }

  /** The header decides, then the records. */
  lemma {:induction false} PcapHeader(data: bytes)
    ensures |data| < 24 ==> Pcap(data) == Err(CaptureError.Truncated)
    ensures |data| >= 24 && OrderOf(data).None? ==> Pcap(data) == Err(UnsupportedFormat)
    ensures |data| >= 24 && OrderOf(data).Some? ==>
              var link := Number32(OrderOf(data).value, data, 20);
              Pcap(data) == if link != 1 then Err(UnsupportedLinkType(link))
                            else PcapFrom(data, OrderOf(data).value.LittleEndian?, 24, [])
  {
    if |data| >= 24 {
      assert data[..4] == [data[0], data[1], data[2], data[3]];
      NumberReads(LittleEndian, data, 20);
      NumberReads(BigEndian, data, 20);
    }
  }

  /** A byte string is accepted for exactly the frames it is a PCAP file of; the error of any other byte
      string names what is wrong with it, and `Truncated` is the error of all that remain. */
  lemma {:induction false} PcapAcceptedIff(data: bytes)
    ensures forall frames :: Pcap(data) == Ok(frames) <==> IsPcap(data, frames)
    ensures Pcap(data) == Err(UnsupportedFormat) <==> |data| >= 24 && OrderOf(data).None?
    ensures forall link :: Pcap(data) == Err(UnsupportedLinkType(link))
              <==> |data| >= 24 && OrderOf(data).Some? && link == Number32(OrderOf(data).value, data, 20) != 1
  {
    PcapHeader(data);
    if |data| >= 24 && OrderOf(data).Some? {
      var order := OrderOf(data).value;
      var found := ReadIsRecords(order, data, 24, []);
      assert [] + found == found;
      forall frames | AreRecords(order, data, 24, frames)
        ensures PcapFrom(data, order.LittleEndian?, 24, []) == Ok(frames)
      {
        RecordsAreRead(order, data, 24, [], frames);
        assert [] + frames == frames;
      }
    }
  }

  // ----- PCAPNG

  /** A block: its type and what stands between its two lengths. */
  datatype Raw = Raw(kind: nat, content: bytes)

  /** At `at` stands this block: its type, its length, its content, its length again. Lengths are multiples
      of four. */
  predicate IsBlock(order: Order, data: bytes, at: nat, b: Raw)
  {
    && |b.content| % 4 == 0 && at + 12 + |b.content| <= |data|
    && Number32(order, data, at) == b.kind
    && Number32(order, data, at + 4) == 12 + |b.content| == Number32(order, data, at + 8 + |b.content|)
    && data[at + 8..at + 8 + |b.content|] == b.content
  }

  predicate AreBlocks(order: Order, data: bytes, at: nat, blocks: seq<Raw>)
    decreases |blocks|
  {
    if blocks == [] then at == |data|
    else IsBlock(order, data, at, blocks[0]) && AreBlocks(order, data, at + 12 + |blocks[0].content|, blocks[1..])
  }

  /** A block that describes an interface, and one that holds a packet. */
  predicate Describes(b: Raw)
  {
    b.kind == 1 && |b.content| >= 8
  }

  predicate Holds(b: Raw)
  {
    b.kind == 6 && |b.content| >= 20
  }

  /** The announced bytes of a packet are there. */
  predicate Complete(order: Order, b: Raw)
  {
    Holds(b) ==> 20 + Number32(order, b.content, 12) <= |b.content|
  }

  /** The link types that these blocks describe, in order. */
  function LinkTypes(order: Order, blocks: seq<Raw>): seq<nat>
  {
    if blocks == [] then []
    else
      var b := blocks[|blocks| - 1];
      LinkTypes(order, blocks[..|blocks| - 1]) + if Describes(b) then [Number16(order, b.content, 0)] else []
  }

  /** The frame of a packet block: whether its interface is one for Ethernet depends on the link types
      described before. */
  function FrameFrom(order: Order, b: Raw, links: seq<nat>): Frame
    requires Holds(b) && Complete(order, b)
  {
    var interface := Number32(order, b.content, 0);
    Frame(Number32(order, b.content, 16), interface < |links| && links[interface] == 1,
          b.content[20..20 + Number32(order, b.content, 12)])
  }

  function FramesFrom(order: Order, blocks: seq<Raw>): seq<Frame>
    requires forall i :: 0 <= i < |blocks| ==> Complete(order, blocks[i])
  {
    if blocks == [] then []
    else
      var before, b := blocks[..|blocks| - 1], blocks[|blocks| - 1];
      FramesFrom(order, before) + if Holds(b) then [FrameFrom(order, b, LinkTypes(order, before))] else []
  }

  ghost predicate AllComplete(order: Order, blocks: seq<Raw>)
  {
    forall i :: 0 <= i < |blocks| ==> Complete(order, blocks[i])
  }

  /** What the blocks read so far have told. */
  function Told(order: Order, blocks: seq<Raw>): Scan
    requires AllComplete(order, blocks)
  {
    Scan(LinkTypes(order, blocks), FramesFrom(order, blocks))
  }

  lemma {:induction false} Append(order: Order, blocks: seq<Raw>, b: Raw)
    requires AllComplete(order, blocks)
    ensures Complete(order, b) ==> AllComplete(order, blocks + [b])
    ensures LinkTypes(order, blocks + [b])
         == if Describes(b) then LinkTypes(order, blocks) + [Number16(order, b.content, 0)]
            else LinkTypes(order, blocks)
    ensures Complete(order, b) ==>
              FramesFrom(order, blocks + [b])
              == if Holds(b) then FramesFrom(order, blocks) + [FrameFrom(order, b, LinkTypes(order, blocks))]
                 else FramesFrom(order, blocks)
  {
    var all := blocks + [b];
    assert all[..|all| - 1] == blocks && all[|all| - 1] == b;
    assert LinkTypes(order, blocks) + [] == LinkTypes(order, blocks);
    assert FramesFrom(order, blocks) + [] == FramesFrom(order, blocks);
  }

  lemma {:induction false} DescriptionActs(order: Order, b: Raw, at: Scan)
    requires Describes(b)
    ensures OneBlock(order.LittleEndian?, b.kind, b.content, at)
         == Ok(Scan(at.interfaces + [Number16(order, b.content, 0)], at.frames))
  {
    ShortNumberReads(order, b.content, 0);
  }

  lemma {:induction false} PacketActs(order: Order, b: Raw, at: Scan)
    requires Holds(b)
    ensures OneBlock(order.LittleEndian?, b.kind, b.content, at)
         == if Complete(order, b) then Ok(Scan(at.interfaces, at.frames + [FrameFrom(order, b, at.interfaces)]))
            else Err(CaptureError.Truncated)
  {
    NumberReads(order, b.content, 0);
    NumberReads(order, b.content, 12);
    NumberReads(order, b.content, 16);
  }

  lemma {:induction false} OtherActs(little: bool, b: Raw, at: Scan)
    requires !Describes(b) && !Holds(b)
    ensures OneBlock(little, b.kind, b.content, at) == Ok(at)
  {
  }

  lemma {:induction false} OneMore(order: Order, blocks: seq<Raw>, b: Raw)
    requires AllComplete(order, blocks)
    ensures if Complete(order, b) then
              AllComplete(order, blocks + [b])
              && OneBlock(order.LittleEndian?, b.kind, b.content, Told(order, blocks)) == Ok(Told(order, blocks + [b]))
            else OneBlock(order.LittleEndian?, b.kind, b.content, Told(order, blocks)) == Err(CaptureError.Truncated)
  {
    Append(order, blocks, b);
    if Describes(b) {
      DescriptionActs(order, b, Told(order, blocks));
    } else if Holds(b) {
      PacketActs(order, b, Told(order, blocks));
    } else {
      OtherActs(order.LittleEndian?, b, Told(order, blocks));
    }
  }

  lemma {:induction false} BlockOf(little: bool, data: bytes, at: nat, kind: nat, content: bytes)
    requires |content| % 4 == 0 && at + 12 + |content| <= |data|
    requires Read32(little, data, at) == kind && Read32(little, data, at + 4) == |content| + 12
    requires Read32(little, data, at + 8 + |content|) == |content| + 12
    requires data[at + 8..at + 8 + |content|] == content
    ensures BlockAt(data, little, at) == Ok((kind, content))
  {
  }

  lemma {:induction false} BlockIsRead(order: Order, data: bytes, at: nat, b: Raw)
    requires IsBlock(order, data, at, b)
    ensures BlockAt(data, order.LittleEndian?, at) == Ok((b.kind, b.content))
  {
    var end := at + 8 + |b.content|;
    NumberReads(order, data, at);
    NumberReads(order, data, at + 4);
    NumberReads(order, data, end);
    BlockOf(order.LittleEndian?, data, at, b.kind, b.content);
  }

  lemma {:induction false} BlockLength(little: bool, data: bytes, at: nat)
    requires BlockAt(data, little, at).Ok?
    ensures at + 12 <= |data|
    ensures var length := Read32(little, data, at + 4);
            && length >= 12 && length % 4 == 0 && at + length <= |data|
            && Read32(little, data, at + length - 4) == length
            && BlockAt(data, little, at).value == (Read32(little, data, at), data[at + 8..at + length - 4])
  {
  }

  lemma {:induction false} SliceLength(data: bytes, from: nat, to: nat)
    requires from <= to <= |data|
    ensures |data[from..to]| == to - from && data[from..from + |data[from..to]|] == data[from..to]
  {
  }

  lemma {:induction false} PartsAreBlock(order: Order, data: bytes, at: nat, length: nat, b: Raw)
    requires length % 4 == 0 && at + length <= |data| && length == |b.content| + 12
    requires Number32(order, data, at) == b.kind && Number32(order, data, at + 4) == length
    requires Number32(order, data, at + 8 + |b.content|) == length
    requires data[at + 8..at + 8 + |b.content|] == b.content
    ensures IsBlock(order, data, at, b)
  {
  }

  lemma {:induction false} LengthIsBlock(order: Order, data: bytes, at: nat, length: nat)
    requires length >= 12 && length % 4 == 0 && at + length <= |data|
    requires Number32(order, data, at + 4) == length == Number32(order, data, at + length - 4)
    ensures IsBlock(order, data, at, Raw(Number32(order, data, at), data[at + 8..at + length - 4]))
  {
    SliceLength(data, at + 8, at + length - 4);
    PartsAreBlock(order, data, at, length, Raw(Number32(order, data, at), data[at + 8..at + length - 4]));
  }

  lemma {:induction false} NoParts(little: bool, data: bytes, at: nat)
    ensures BlockAt(data, little, at).Err? ==> BlockAt(data, little, at) == Err(CaptureError.Truncated)
  {
  }

  lemma {:induction false} ReadIsBlock(order: Order, data: bytes, at: nat)
    ensures match BlockAt(data, order.LittleEndian?, at)
            case Ok((kind, content)) => IsBlock(order, data, at, Raw(kind, content))
            case Err(e) => e == CaptureError.Truncated
  {
    NoParts(order.LittleEndian?, data, at);
    if BlockAt(data, order.LittleEndian?, at).Ok? {
      BlockLength(order.LittleEndian?, data, at);
      var length := Read32(order.LittleEndian?, data, at + 4);
      NumberReads(order, data, at);
      NumberReads(order, data, at + 4);
      NumberReads(order, data, at + length - 4);
      LengthIsBlock(order, data, at, length);
    }
  }

  lemma {:induction false} FirstIsComplete(order: Order, before: seq<Raw>, blocks: seq<Raw>)
    requires AllComplete(order, before + blocks)
    ensures AllComplete(order, before)
    ensures blocks != [] ==> Complete(order, blocks[0]) && before + [blocks[0]] + blocks[1..] == before + blocks
  {
    assert forall i :: 0 <= i < |before| ==> before[i] == (before + blocks)[i];
    if blocks != [] {
      assert (before + blocks)[|before|] == blocks[0];
    }
  }

  lemma {:induction false} NothingLeft(order: Order, data: bytes, before: seq<Raw>)
    requires AllComplete(order, before)
    ensures PcapngFrom(data, order.LittleEndian?, |data|, Told(order, before)) == Ok(FramesFrom(order, before))
  {
  }

  /** Behind `before`, a file is read for the frames of all its blocks. */
  lemma {:induction false} BlocksAreRead(order: Order, data: bytes, at: nat, before: seq<Raw>, blocks: seq<Raw>)
    requires AreBlocks(order, data, at, blocks) && AllComplete(order, before + blocks)
    ensures AllComplete(order, before)
    ensures PcapngFrom(data, order.LittleEndian?, at, Told(order, before)) == Ok(FramesFrom(order, before + blocks))
    decreases |blocks|
  {
    FirstIsComplete(order, before, blocks);
    if blocks == [] {
      assert before + blocks == before;
      NothingLeft(order, data, before);
    } else {
      BlockStep(order, data, at, before, blocks[0]);
      BlocksAreRead(order, data, at + 12 + |blocks[0].content|, before + [blocks[0]], blocks[1..]);
    }
  }

  ghost predicate FoundBlocks(order: Order, data: bytes, at: nat, before: seq<Raw>, blocks: seq<Raw>,
                              r: Result<seq<Frame>, CaptureError>)
  {
    if r.Ok? then AreBlocks(order, data, at, blocks) && AllComplete(order, before + blocks)
    else r == Err(CaptureError.Truncated)
  }

  lemma {:induction false} OneMoreBlock(order: Order, data: bytes, at: nat, before: seq<Raw>, b: Raw, blocks: seq<Raw>,
                                        r: Result<seq<Frame>, CaptureError>)
    requires IsBlock(order, data, at, b)
    requires FoundBlocks(order, data, at + 12 + |b.content|, before + [b], blocks, r)
    ensures FoundBlocks(order, data, at, before, [b] + blocks, r)
  {
    assert ([b] + blocks)[1..] == blocks;
    assert before + [b] + blocks == before + ([b] + blocks);
  }

  lemma {:induction false} NoMoreBlocks(order: Order, data: bytes, before: seq<Raw>)
    requires AllComplete(order, before)
    ensures FoundBlocks(order, data, |data|, before, [],
                        PcapngFrom(data, order.LittleEndian?, |data|, Told(order, before)))
  {
    assert before + [] == before;
  }

  lemma {:induction false} StepOn(data: bytes, little: bool, at: nat, kind: nat, content: bytes, scan: Scan, next: Scan)
    requires at + 12 + |content| <= |data| && BlockAt(data, little, at) == Ok((kind, content))
    requires OneBlock(little, kind, content, scan) == Ok(next)
    ensures PcapngFrom(data, little, at, scan) == PcapngFrom(data, little, at + 12 + |content|, next)
  {
  }

  lemma {:induction false} StepFails(data: bytes, little: bool, at: nat, kind: nat, content: bytes, scan: Scan)
    requires at + 12 + |content| <= |data| && BlockAt(data, little, at) == Ok((kind, content))
    requires OneBlock(little, kind, content, scan) == Err(CaptureError.Truncated)
    ensures PcapngFrom(data, little, at, scan) == Err(CaptureError.Truncated)
  {
  }

  lemma {:induction false} BlockActs(order: Order, data: bytes, at: nat, before: seq<Raw>, b: Raw)
    requires IsBlock(order, data, at, b) && AllComplete(order, before) && Complete(order, b)
    ensures AllComplete(order, before + [b]) && at + 12 + |b.content| <= |data|
    ensures BlockAt(data, order.LittleEndian?, at) == Ok((b.kind, b.content))
    ensures OneBlock(order.LittleEndian?, b.kind, b.content, Told(order, before)) == Ok(Told(order, before + [b]))
  {
    BlockIsRead(order, data, at, b);
    OneMore(order, before, b);
  }

  lemma {:induction false} CompleteStep(order: Order, data: bytes, at: nat, before: seq<Raw>, b: Raw)
    requires IsBlock(order, data, at, b) && AllComplete(order, before) && Complete(order, b)
    ensures AllComplete(order, before + [b])
    ensures PcapngFrom(data, order.LittleEndian?, at, Told(order, before))
         == PcapngFrom(data, order.LittleEndian?, at + 12 + |b.content|, Told(order, before + [b]))
  {
    BlockActs(order, data, at, before, b);
    StepOn(data, order.LittleEndian?, at, b.kind, b.content, Told(order, before), Told(order, before + [b]));
  }

  lemma {:induction false} IncompleteStep(order: Order, data: bytes, at: nat, before: seq<Raw>, b: Raw)
    requires IsBlock(order, data, at, b) && AllComplete(order, before) && !Complete(order, b)
    ensures PcapngFrom(data, order.LittleEndian?, at, Told(order, before)) == Err(CaptureError.Truncated)
  {
    BlockIsRead(order, data, at, b);
    OneMore(order, before, b);
    StepFails(data, order.LittleEndian?, at, b.kind, b.content, Told(order, before));
  }

  lemma {:induction false} BlockStep(order: Order, data: bytes, at: nat, before: seq<Raw>, b: Raw)
    requires IsBlock(order, data, at, b) && AllComplete(order, before)
    ensures var r := PcapngFrom(data, order.LittleEndian?, at, Told(order, before));
            if Complete(order, b) then
              AllComplete(order, before + [b])
              && r == PcapngFrom(data, order.LittleEndian?, at + 12 + |b.content|, Told(order, before + [b]))
            else r == Err(CaptureError.Truncated)
  {
    if Complete(order, b) {
      CompleteStep(order, data, at, before, b);
    } else {
      IncompleteStep(order, data, at, before, b);
    }
  }

  lemma {:induction false} NoBlock(order: Order, data: bytes, at: nat, before: seq<Raw>)
    requires at < |data| && AllComplete(order, before)
    ensures BlockAt(data, order.LittleEndian?, at) == Err(CaptureError.Truncated) ==>
              PcapngFrom(data, order.LittleEndian?, at, Told(order, before)) == Err(CaptureError.Truncated)
  {
  }

  /** What is read consists of blocks with complete packets; a file that does not is cut short. */
  lemma {:induction false} ReadIsBlocks(order: Order, data: bytes, at: nat, before: seq<Raw>)
    returns (blocks: seq<Raw>)
    requires at <= |data| && AllComplete(order, before)
    ensures FoundBlocks(order, data, at, before, blocks,
                        PcapngFrom(data, order.LittleEndian?, at, Told(order, before)))
    decreases |data| - at
  {
    blocks := [];
    if at == |data| {
      NoMoreBlocks(order, data, before);
    } else {
      ReadIsBlock(order, data, at);
      NoBlock(order, data, at, before);
      if BlockAt(data, order.LittleEndian?, at).Err? {
        return;
      }
      var (kind, content) := BlockAt(data, order.LittleEndian?, at).value;
      var b := Raw(kind, content);
      BlockStep(order, data, at, before, b);
      if Complete(order, b) {
        var rest := ReadIsBlocks(order, data, at + 12 + |content|, before + [b]);
        OneMoreBlock(order, data, at, before, b, rest, PcapngFrom(data, order.LittleEndian?, at, Told(order, before)));
        blocks := [b] + rest;
      }
    }
  }

  /** A section header starts the file and tells the byte order. */
  function SectionOrder(data: bytes): Option<Order>
  {
    if |data| < 28 || (data[0], data[1], data[2], data[3]) != (0x0a, 0x0d, 0x0d, 0x0a) then None
    else
      match (data[8], data[9], data[10], data[11])
      case (0x4d, 0x3c, 0x2b, 0x1a) => Some(LittleEndian)
      case (0x1a, 0x2b, 0x3c, 0x4d) => Some(BigEndian)
      case _ => None
  }

  ghost predicate IsPcapng(data: bytes, blocks: seq<Raw>)
  {
    && SectionOrder(data).Some?
    && AreBlocks(SectionOrder(data).value, data, 0, blocks) && AllComplete(SectionOrder(data).value, blocks)
  }

  lemma {:induction false} PcapngHeader(data: bytes)
    ensures SectionOrder(data).None? ==> Pcapng(data) == Err(UnsupportedFormat)
    ensures SectionOrder(data).Some? ==>
              Pcapng(data) == PcapngFrom(data, SectionOrder(data).value.LittleEndian?, 0, Scan([], []))
  {
    if |data| >= 28 {
      assert SECTION <= data <==> data[..4] == SECTION;
      assert data[..4] == [data[0], data[1], data[2], data[3]];
      assert data[8..12] == [data[8], data[9], data[10], data[11]];
    }
  }

  /** A byte string is accepted exactly if it is a PCAPNG file, for the frames of its packet blocks; it is
      refused as unsupported exactly without a section header, and as truncated in all other cases. */
  lemma {:induction false} PcapngAcceptedIff(data: bytes)
    ensures Pcapng(data).Ok? <==> exists blocks :: IsPcapng(data, blocks)
    ensures forall blocks :: IsPcapng(data, blocks) ==>
              Pcapng(data) == Ok(FramesFrom(SectionOrder(data).value, blocks))
    ensures Pcapng(data) == Err(UnsupportedFormat) <==> SectionOrder(data).None?
    ensures forall link :: Pcapng(data) != Err(UnsupportedLinkType(link))
  {
    PcapngHeader(data);
    if SectionOrder(data).Some? {
      var order := SectionOrder(data).value;
      assert Told(order, []) == Scan([], []);
      var found := ReadIsBlocks(order, data, 0, []);
      assert [] + found == found;
      assert Pcapng(data).Ok? ==> IsPcapng(data, found);
      forall blocks | IsPcapng(data, blocks)
        ensures Pcapng(data) == Ok(FramesFrom(order, blocks))
      {
        assert [] + blocks == blocks;
        BlocksAreRead(order, data, 0, [], blocks);
      }
    }
  }
}
