/** Capture files as they are written, and that both formats are read back to the same frames. */
module ContainerFiles {
  import opened Base
  import opened Dissect
  import opened Containers
  import opened Walk
  import Words

  const WORD_LIMIT: nat := 0x1_0000_0000

  function Word(little: bool, n: nat): (w: bytes)
    ensures |w| == 4
  {
    if little then Reversed(Words.BigBytes(n)) else Words.BigBytes(n)
  }

  function Reversed(w: bytes): bytes
    requires |w| == 4
  {
    [w[3], w[2], w[1], w[0]]
  }

  lemma WordReads(little: bool, s: bytes, at: nat, n: nat)
    requires n < WORD_LIMIT && at + 4 <= |s| && s[at..at + 4] == Word(little, n)
    ensures Read32(little, s, at) == n
  {
    var w := s[at..at + 4];
    assert w[0] == s[at] && w[1] == s[at + 1] && w[2] == s[at + 2] && w[3] == s[at + 3];
    Words.BigEndianInverse(n);
  }

  // ----- PCAP files

  /** A frame and its timestamp. */
  datatype Stamped = Stamped(stamp: bytes, frame: Frame)

  predicate Storable(f: Frame)
  {
    f.original < WORD_LIMIT && |f.data| + 67 < WORD_LIMIT
  }

  ghost predicate GoodRecords(records: seq<Stamped>)
  {
    forall i :: 0 <= i < |records| ==>
      |records[i].stamp| == 8 && Storable(records[i].frame) && records[i].frame.ethernet
  }

  function PcapRecord(little: bool, r: Stamped): bytes
  {
    r.stamp + Word(little, |r.frame.data|) + Word(little, r.frame.original) + r.frame.data
  }

  function PcapRecords(little: bool, records: seq<Stamped>): bytes
  {
    if records == [] then [] else PcapRecord(little, records[0]) + PcapRecords(little, records[1..])
  }

  function Frames(records: seq<Stamped>): seq<Frame>
  {
    if records == [] then [] else [records[0].frame] + Frames(records[1..])
  }

  /** A file with microsecond or nanosecond timestamps, in either byte order; `middle` are the header
      fields that are not looked at. */
  function PcapFile(little: bool, nano: bool, middle: bytes, records: seq<Stamped>): bytes
  {
    Word(little, if nano then 0xa1b2_3c4d else 0xa1b2_c3d4) + middle
    + Word(little, ETHERNET) + PcapRecords(little, records)
  }

  lemma PcapMagics()
    ensures Word(true, 0xa1b2_c3d4) == [0xd4, 0xc3, 0xb2, 0xa1] && Word(true, 0xa1b2_3c4d) == [0x4d, 0x3c, 0xb2, 0xa1]
    ensures Word(false, 0xa1b2_c3d4) == [0xa1, 0xb2, 0xc3, 0xd4] && Word(false, 0xa1b2_3c4d) == [0xa1, 0xb2, 0x3c, 0x4d]
  {
  }

  lemma FourParts(s: bytes, offset: nat, a: bytes, b: bytes, c: bytes, d: bytes, rest: bytes)
    requires Stands(s, offset, a + b + c + d + rest)
    ensures offset + |a| + |b| + |c| + |d| <= |s|
    ensures s[offset..offset + |a|] == a && s[offset + |a|..offset + |a| + |b|] == b
    ensures s[offset + |a| + |b|..offset + |a| + |b| + |c|] == c
    ensures s[offset + |a| + |b| + |c|..offset + |a| + |b| + |c| + |d|] == d
    ensures Stands(s, offset + |a| + |b| + |c| + |d|, rest)
  {
    assert a + b + c + d + rest == a + (b + (c + (d + rest)));
    StandsNext(s, offset, a, b + (c + (d + rest)));
    StandsNext(s, offset + |a|, b, c + (d + rest));
    StandsNext(s, offset + |a| + |b|, c, d + rest);
    StandsNext(s, offset + |a| + |b| + |c|, d, rest);
  }

  /** At `offset` stands a record with these lengths and data, and `rest` behind it. */
  ghost predicate RecordAt(little: bool, s: bytes, offset: nat, f: Frame, rest: bytes)
  {
    var next := offset + 16 + |f.data|;
    && next <= |s| && Stands(s, next, rest)
    && Read32(little, s, offset + 8) == |f.data| && Read32(little, s, offset + 12) == f.original
    && s[offset + 16..next] == f.data
  }

  lemma RecordReads(little: bool, s: bytes, offset: nat, r: Stamped, rest: bytes)
    requires |r.stamp| == 8 && Storable(r.frame) && Stands(s, offset, PcapRecord(little, r) + rest)
    ensures RecordAt(little, s, offset, r.frame, rest)
  {
    FourParts(s, offset, r.stamp, Word(little, |r.frame.data|), Word(little, r.frame.original), r.frame.data, rest);
    WordReads(little, s, offset + 8, |r.frame.data|);
    WordReads(little, s, offset + 12, r.frame.original);
  }

  /** From `offset` on, exactly these frames are read. */
  ghost predicate PcapReads(little: bool, s: bytes, offset: nat, frames: seq<Frame>)
  {
    forall done: seq<Frame> :: PcapFrom(s, little, offset, done) == Ok(done + frames)
  }

  lemma PcapStep(little: bool, s: bytes, offset: nat, f: Frame, rest: bytes, frames: seq<Frame>)
    requires RecordAt(little, s, offset, f, rest) && f.ethernet
    requires PcapReads(little, s, offset + 16 + |f.data|, frames)
    ensures PcapReads(little, s, offset, [f] + frames)
  {
    forall done: seq<Frame>
      ensures PcapFrom(s, little, offset, done) == Ok(done + ([f] + frames))
    {
      assert done + [f] + frames == done + ([f] + frames);
    }
  }

  lemma PcapEnds(little: bool, s: bytes)
    ensures PcapReads(little, s, |s|, [])
  {
    forall done: seq<Frame>
      ensures PcapFrom(s, little, |s|, done) == Ok(done + [])
    {
      assert done + [] == done;
    }
  }

  lemma StandsAtEnd(s: bytes, offset: nat)
    requires Stands(s, offset, [])
    ensures offset == |s|
  {
    assert |s[offset..]| == 0;
  }

  lemma {:induction false} FirstRecordReads(little: bool, s: bytes, offset: nat, records: seq<Stamped>)
    requires records != [] && GoodRecords(records) && Stands(s, offset, PcapRecords(little, records))
    ensures RecordAt(little, s, offset, records[0].frame, PcapRecords(little, records[1..]))
    ensures records[0].frame.ethernet && GoodRecords(records[1..])
  {
    assert GoodRecords(records[1..]);
    RecordReads(little, s, offset, records[0], PcapRecords(little, records[1..]));
  }

  lemma {:induction false} RecordsRead(little: bool, s: bytes, offset: nat, records: seq<Stamped>)
    requires GoodRecords(records) && Stands(s, offset, PcapRecords(little, records))
    ensures PcapReads(little, s, offset, Frames(records))
    decreases |records|
  {
    if records == [] {
      StandsAtEnd(s, offset);
      PcapEnds(little, s);
    } else {
      var f, rest := records[0].frame, PcapRecords(little, records[1..]);
      FirstRecordReads(little, s, offset, records);
      RecordsRead(little, s, offset + 16 + |f.data|, records[1..]);
      PcapStep(little, s, offset, f, rest, Frames(records[1..]));
    }
  }

  lemma PcapOf(s: bytes, little: bool)
    requires |s| >= 24 && (if little then LittleMagic(s[..4]) else !LittleMagic(s[..4]) && BigMagic(s[..4]))
    requires Read32(little, s, 20) == ETHERNET
    ensures Pcap(s) == PcapFrom(s, little, 24, [])
  {
  }

  lemma {:induction false} PcapHeader(little: bool, nano: bool, middle: bytes, rest: bytes, s: bytes)
    requires |middle| == 16
    requires s == Word(little, if nano then 0xa1b2_3c4d else 0xa1b2_c3d4) + middle + Word(little, ETHERNET) + rest
    ensures |s| >= 24 && Pcap(s) == PcapFrom(s, little, 24, []) && Stands(s, 24, rest)
  {
    HeaderParts(s, Word(little, if nano then 0xa1b2_3c4d else 0xa1b2_c3d4), middle, Word(little, ETHERNET), rest);
    PcapMagics();
    WordReads(little, s, 20, ETHERNET);
    PcapOf(s, little);
  }

  /** A written PCAP file is read back, in either byte order and resolution. */
  lemma {:induction false} PcapReadsBack(little: bool, nano: bool, middle: bytes, records: seq<Stamped>)
    requires |middle| == 16 && GoodRecords(records)
    ensures Pcap(PcapFile(little, nano, middle, records)) == Ok(Frames(records))
  {
    var s := PcapFile(little, nano, middle, records);
    PcapHeader(little, nano, middle, PcapRecords(little, records), s);
    RecordsRead(little, s, 24, records);
    assert PcapFrom(s, little, 24, []) == Ok([] + Frames(records));
    assert [] + Frames(records) == Frames(records);
  }

  lemma HeaderParts(s: bytes, magic: bytes, middle: bytes, link: bytes, rest: bytes)
    requires s == magic + middle + link + rest && |magic| == 4 && |middle| == 16 && |link| == 4
    ensures s[..4] == magic && s[20..24] == link && Stands(s, 24, rest)
  {
  }

  // ----- PCAPNG files

  /** A block: an interface description, a packet with padding and options behind its data, or any
      block of another type. */
  datatype Block =
    | Interface(link: nat, rest: bytes)
    | Packet(interface: nat, stamp: bytes, original: nat, data: bytes, tail: bytes)
    | Other(kind: nat, content: bytes)

  predicate GoodBlock(b: Block)
  {
    match b
    case Interface(link, rest) => link < 0x1_0000 && |rest| >= 6 && |rest| % 4 == 2 && |rest| + 64 < WORD_LIMIT
    case Packet(interface, stamp, original, data, tail) =>
      && interface < WORD_LIMIT && |stamp| == 8 && original < WORD_LIMIT
      && (|data| + |tail|) % 4 == 0 && |data| + |tail| + 64 < WORD_LIMIT
    case Other(kind, content) =>
      && kind != INTERFACE_BLOCK && kind != PACKET_BLOCK && kind < WORD_LIMIT
      && |content| % 4 == 0 && |content| + 64 < WORD_LIMIT
  }

  function Half(little: bool, n: nat): (r: bytes)
    ensures |r| == 2
  {
    if little then [Words.Digit(n, 0), Words.Digit(n, 1)] else [Words.Digit(n, 1), Words.Digit(n, 0)]
  }

  function Content(little: bool, b: Block): bytes
  {
    match b
    case Interface(link, rest) => Half(little, link) + rest
    case Packet(interface, stamp, original, data, tail) =>
      Word(little, interface) + stamp + Word(little, |data|) + Word(little, original) + data + tail
    case Other(_, content) => content
  }

  function KindOf(b: Block): nat
  {
    match b
    case Interface(_, _) => INTERFACE_BLOCK
    case Packet(_, _, _, _, _) => PACKET_BLOCK
    case Other(kind, _) => kind
  }

  function Framed(little: bool, kind: nat, content: bytes): bytes
  {
    Word(little, kind) + Word(little, |content| + 12) + content + Word(little, |content| + 12)
  }

  /** A block as it is framed. */
  datatype Raw = Raw(kind: nat, content: bytes)

  function Raws(little: bool, blocks: seq<Block>): seq<Raw>
  {
    if blocks == [] then [] else [Raw(KindOf(blocks[0]), Content(little, blocks[0]))] + Raws(little, blocks[1..])
  }

  function PrintRaws(little: bool, raws: seq<Raw>): bytes
  {
    if raws == [] then [] else Framed(little, raws[0].kind, raws[0].content) + PrintRaws(little, raws[1..])
  }

  const SECTION_BLOCK: nat := 0x0a0d_0d0a

  function Section(little: bool, header: bytes): Raw
  {
    Raw(SECTION_BLOCK, Word(little, 0x1a2b_3c4d) + header)
  }

  /** A file: a section header, with whatever stands behind its byte-order mark, and blocks. */
  function PcapngFile(little: bool, header: bytes, blocks: seq<Block>): bytes
  {
    PrintRaws(little, [Section(little, header)] + Raws(little, blocks))
  }

  /** What the blocks say: an interface adds its link type, a packet adds its frame. */
  function Tell(b: Block, at: Scan): Scan
  {
    match b
    case Interface(link, _) => at.(interfaces := at.interfaces + [link])
    case Packet(interface, _, original, data, _) =>
      var ethernet := interface < |at.interfaces| && at.interfaces[interface] == ETHERNET;
      at.(frames := at.frames + [Frame(original, ethernet, data)])
    case Other(_, _) => at
  }

  function TellAll(blocks: seq<Block>, at: Scan): Scan
    decreases |blocks|
  {
    if blocks == [] then at else TellAll(blocks[1..], Tell(blocks[0], at))
  }

  lemma BlockOf(little: bool, s: bytes, offset: nat, kind: nat, content: bytes)
    requires |content| % 4 == 0 && offset + 12 + |content| <= |s|
    requires Read32(little, s, offset) == kind && Read32(little, s, offset + 4) == |content| + 12
    requires s[offset + 8..offset + 8 + |content|] == content
    requires Read32(little, s, offset + 8 + |content|) == |content| + 12
    ensures BlockAt(s, little, offset) == Ok((kind, content))
  {
  }

  lemma FramedReads(little: bool, s: bytes, offset: nat, kind: nat, content: bytes, rest: bytes)
    requires kind < WORD_LIMIT && |content| % 4 == 0 && |content| + 12 < WORD_LIMIT
    requires Stands(s, offset, Framed(little, kind, content) + rest)
    ensures BlockAt(s, little, offset) == Ok((kind, content)) && Stands(s, offset + 12 + |content|, rest)
    ensures offset + 12 + |content| <= |s|
  {
    FourParts(s, offset, Word(little, kind), Word(little, |content| + 12), content, Word(little, |content| + 12), rest);
    WordReads(little, s, offset, kind);
    WordReads(little, s, offset + 4, |content| + 12);
    WordReads(little, s, offset + 8 + |content|, |content| + 12);
    BlockOf(little, s, offset, kind, content);
  }

  lemma HalfReads(little: bool, n: nat, rest: bytes)
    requires n < 0x1_0000
    ensures Read16(little, Half(little, n) + rest, 0) == n
  {
    Bytes16Inverse(n);
  }

  lemma {:induction false} FiveParts(c: bytes, i: bytes, stamp: bytes, n: bytes, o: bytes, data: bytes, tail: bytes)
    requires c == i + stamp + n + o + data + tail && |i| == |n| == |o| == 4 && |stamp| == 8
    ensures |c| >= 20 + |data| && c[0..4] == i && c[12..16] == n && c[16..20] == o && c[20..20 + |data|] == data
  {
    assert c == (i + stamp) + (n + (o + (data + tail)));
    assert c[12..] == n + (o + (data + tail));
    assert c[16..] == o + (data + tail);
    assert c[20..] == data + tail;
    assert c[12..16] == c[12..][..4] && c[16..20] == c[16..][..4] && c[20..20 + |data|] == c[20..][..|data|];
  }

  lemma {:induction false} PacketReads(little: bool, b: Block, at: Scan)
    requires b.Packet? && GoodBlock(b)
    ensures var c := Content(little, b);
            |c| >= 20 && FrameIn(little, c, at.interfaces).Some?
            && Tell(b, at) == at.(frames := at.frames + [FrameIn(little, c, at.interfaces).value])
  {
    var c := Content(little, b);
    FiveParts(c, Word(little, b.interface), b.stamp, Word(little, |b.data|), Word(little, b.original), b.data, b.tail);
    WordReads(little, c, 0, b.interface);
    WordReads(little, c, 12, |b.data|);
    WordReads(little, c, 16, b.original);
  }

  lemma InterfaceReads(little: bool, b: Block, at: Scan)
    requires b.Interface? && GoodBlock(b)
    ensures OneBlock(little, INTERFACE_BLOCK, Content(little, b), at) == Ok(Tell(b, at))
  {
    HalfReads(little, b.link, b.rest);
  }

  lemma ContentIsGood(little: bool, b: Block)
    requires GoodBlock(b)
    ensures |Content(little, b)| % 4 == 0 && |Content(little, b)| + 12 < WORD_LIMIT && KindOf(b) < WORD_LIMIT
  {
  }

  lemma BlockReads(little: bool, b: Block, at: Scan)
    requires GoodBlock(b)
    ensures OneBlock(little, KindOf(b), Content(little, b), at) == Ok(Tell(b, at))
  {
    if b.Interface? {
      InterfaceReads(little, b, at);
    } else if b.Packet? {
      PacketActs(little, b, at);
    }
  }

  lemma PacketActs(little: bool, b: Block, at: Scan)
    requires b.Packet? && GoodBlock(b)
    ensures OneBlock(little, PACKET_BLOCK, Content(little, b), at) == Ok(Tell(b, at))
  {
    PacketReads(little, b, at);
  }

  /** From `offset` on, exactly these blocks are read. */
  ghost predicate BlocksAt(little: bool, s: bytes, offset: nat, blocks: seq<Block>)
  {
    forall at: Scan :: PcapngFrom(s, little, offset, at) == Ok(TellAll(blocks, at).frames)
  }

  /** A block of this type and content acts like `b`. */
  ghost predicate ActsAs(little: bool, kind: nat, content: bytes, b: Block)
  {
    forall at: Scan :: OneBlock(little, kind, content, at) == Ok(Tell(b, at))
  }

  lemma BlockStep(little: bool, s: bytes, offset: nat, kind: nat, content: bytes, b: Block, rest: seq<Block>)
    requires offset + 12 + |content| <= |s| && BlockAt(s, little, offset) == Ok((kind, content))
    requires ActsAs(little, kind, content, b) && BlocksAt(little, s, offset + 12 + |content|, rest)
    ensures BlocksAt(little, s, offset, [b] + rest)
  {
    forall at: Scan
      ensures PcapngFrom(s, little, offset, at) == Ok(TellAll([b] + rest, at).frames)
    {
      assert OneBlock(little, kind, content, at) == Ok(Tell(b, at));
      TellFirst(b, rest, at);
    }
  }

  lemma TellFirst(b: Block, rest: seq<Block>, at: Scan)
    ensures TellAll([b] + rest, at) == TellAll(rest, Tell(b, at))
  {
    assert ([b] + rest)[1..] == rest;
  }

  lemma RawsEnd(little: bool, s: bytes, offset: nat)
    requires Stands(s, offset, [])
    ensures BlocksAt(little, s, offset, [])
  {
    StandsAtEnd(s, offset);
  }

  ghost predicate RawActs(little: bool, raw: Raw, b: Block)
  {
    raw.kind < WORD_LIMIT && |raw.content| % 4 == 0 && |raw.content| + 12 < WORD_LIMIT
    && ActsAs(little, raw.kind, raw.content, b)
  }

  ghost predicate AllAct(little: bool, raws: seq<Raw>, blocks: seq<Block>)
  {
    |raws| == |blocks| && forall i :: 0 <= i < |raws| ==> RawActs(little, raws[i], blocks[i])
  }

  lemma BlockActs(little: bool, b: Block)
    requires GoodBlock(b)
    ensures RawActs(little, Raw(KindOf(b), Content(little, b)), b)
  {
    forall at: Scan
      ensures OneBlock(little, KindOf(b), Content(little, b), at) == Ok(Tell(b, at))
    {
      BlockReads(little, b, at);
    }
    ContentIsGood(little, b);
  }

  lemma {:induction false} BlocksAct(little: bool, blocks: seq<Block>)
    requires forall i :: 0 <= i < |blocks| ==> GoodBlock(blocks[i])
    ensures AllAct(little, Raws(little, blocks), blocks)
  {
    if blocks != [] {
      BlockActs(little, blocks[0]);
      BlocksAct(little, blocks[1..]);
    }
  }

  lemma FramedNext(little: bool, s: bytes, offset: nat, raw: Raw, text: bytes)
    requires Stands(s, offset, Framed(little, raw.kind, raw.content) + text)
    ensures Stands(s, offset + 12 + |raw.content|, text)
  {
    StandsNext(s, offset, Framed(little, raw.kind, raw.content), text);
  }

  lemma {:induction false} RawStep(little: bool, s: bytes, offset: nat, raw: Raw, text: bytes, b: Block,
                                   rest: seq<Block>)
    requires RawActs(little, raw, b) && Stands(s, offset, Framed(little, raw.kind, raw.content) + text)
    requires BlocksAt(little, s, offset + 12 + |raw.content|, rest)
    ensures BlocksAt(little, s, offset, [b] + rest)
  {
    FramedReads(little, s, offset, raw.kind, raw.content, text);
    BlockStep(little, s, offset, raw.kind, raw.content, b, rest);
  }

  lemma RawsNext(little: bool, s: bytes, offset: nat, raws: seq<Raw>, blocks: seq<Block>)
    requires raws != [] && AllAct(little, raws, blocks) && Stands(s, offset, PrintRaws(little, raws))
    ensures AllAct(little, raws[1..], blocks[1..])
    ensures Stands(s, offset + 12 + |raws[0].content|, PrintRaws(little, raws[1..]))
  {
    FramedNext(little, s, offset, raws[0], PrintRaws(little, raws[1..]));
  }

  /** `holds(offset, blocks)` can be extended to the front by one framed block. */
  ghost predicate Extensible(holds: (nat, seq<Block>) -> bool, little: bool, s: bytes)
  {
    forall offset: nat, raw: Raw, text: bytes, b: Block, rest: seq<Block>
      {:trigger Stands(s, offset, Framed(little, raw.kind, raw.content) + text), holds(offset, [b] + rest)} ::
      (RawActs(little, raw, b) && Stands(s, offset, Framed(little, raw.kind, raw.content) + text)
       && holds(offset + 12 + |raw.content|, rest))
      ==> holds(offset, [b] + rest)
  }

  lemma ExtendFront(holds: (nat, seq<Block>) -> bool, little: bool, s: bytes, offset: nat,
                    raws: seq<Raw>, blocks: seq<Block>)
    requires Extensible(holds, little, s) && raws != []
    requires AllAct(little, raws, blocks) && Stands(s, offset, PrintRaws(little, raws))
    requires holds(offset + 12 + |raws[0].content|, blocks[1..])
    ensures holds(offset, blocks)
  {
    assert Stands(s, offset, Framed(little, raws[0].kind, raws[0].content) + PrintRaws(little, raws[1..]));
    assert [blocks[0]] + blocks[1..] == blocks;
    assert holds(offset, [blocks[0]] + blocks[1..]);
  }

  lemma {:induction false} ReadFromBack(holds: (nat, seq<Block>) -> bool, little: bool, s: bytes, offset: nat,
                                        raws: seq<Raw>, blocks: seq<Block>)
    requires Extensible(holds, little, s) && holds(|s|, [])
    requires AllAct(little, raws, blocks) && Stands(s, offset, PrintRaws(little, raws))
    ensures holds(offset, blocks)
    decreases |raws|
  {
    if raws == [] {
      StandsAtEnd(s, offset);
    } else {
      RawsNext(little, s, offset, raws, blocks);
      ReadFromBack(holds, little, s, offset + 12 + |raws[0].content|, raws[1..], blocks[1..]);
      ExtendFront(holds, little, s, offset, raws, blocks);
    }
  }

  lemma {:induction false} RawsRead(little: bool, s: bytes, offset: nat, raws: seq<Raw>, blocks: seq<Block>)
    requires AllAct(little, raws, blocks) && Stands(s, offset, PrintRaws(little, raws))
    ensures BlocksAt(little, s, offset, blocks)
  {
    var holds := (o: nat, rest: seq<Block>) => BlocksAt(little, s, o, rest);
    RawsEnd(little, s, |s|);
    forall o: nat, raw: Raw, text: bytes, b: Block, rest: seq<Block> |
      RawActs(little, raw, b) && Stands(s, o, Framed(little, raw.kind, raw.content) + text)
      && holds(o + 12 + |raw.content|, rest)
      ensures holds(o, [b] + rest)
    {
      RawStep(little, s, o, raw, text, b, rest);
    }
    ReadFromBack(holds, little, s, offset, raws, blocks);
  }

  lemma SectionMagics()
    ensures Word(true, SECTION_BLOCK) == SECTION && Word(false, SECTION_BLOCK) == SECTION
    ensures Word(true, 0x1a2b_3c4d) == LITTLE_SECTION && Word(false, 0x1a2b_3c4d) == BIG_SECTION
  {
  }

  lemma SectionStands(little: bool, header: bytes, blocks: seq<Block>)
    requires |header| >= 12 && |header| % 4 == 0 && |header| + 64 < WORD_LIMIT
    ensures var s := PcapngFile(little, header, blocks);
            |s| >= 28 && SECTION <= s && s[8..12] == if little then LITTLE_SECTION else BIG_SECTION
  {
    SectionMagics();
    var content := Word(little, 0x1a2b_3c4d) + header;
    var raws := [Section(little, header)] + Raws(little, blocks);
    assert raws[1..] == Raws(little, blocks);
    SectionParts(PcapngFile(little,
                 header, blocks), SECTION, Word(little, |content| + 12), Word(little, 0x1a2b_3c4d), header,
                 Word(little, |content| + 12), PrintRaws(little, Raws(little, blocks)));
  }

  lemma SectionParts(s: bytes, a: bytes, b: bytes, c: bytes, d: bytes, e: bytes, rest: bytes)
    requires s == a + b + (c + d) + e + rest && |a| == 4 && |b| == 4 && |c| == 4
    ensures s[..4] == a && s[8..12] == c
  {
  }

  lemma PcapngOf(s: bytes, little: bool)
    requires |s| >= 28 && SECTION <= s && s[8..12] == if little then LITTLE_SECTION else BIG_SECTION
    ensures Pcapng(s) == PcapngFrom(s, little, 0, Scan([], []))
  {
    assert LITTLE_SECTION[0] != BIG_SECTION[0];
  }

  lemma SectionSays(little: bool, header: bytes)
    requires |header| % 4 == 0 && |header| + 64 < WORD_LIMIT
    ensures RawActs(little, Section(little, header), Other(SECTION_BLOCK, header))
  {
  }

  lemma FileActs(little: bool, header: bytes, blocks: seq<Block>)
    requires |header| % 4 == 0 && |header| + 64 < WORD_LIMIT
    requires forall i :: 0 <= i < |blocks| ==> GoodBlock(blocks[i])
    ensures AllAct(little, [Section(little, header)] + Raws(little, blocks), [Other(SECTION_BLOCK, header)] + blocks)
  {
    SectionSays(little, header);
    BlocksAct(little, blocks);
  }

  lemma NgOf(little: bool, s: bytes, b: Block, blocks: seq<Block>)
    requires |s| >= 28 && SECTION <= s && s[8..12] == if little then LITTLE_SECTION else BIG_SECTION
    requires BlocksAt(little, s, 0, [b] + blocks) && b.Other?
    ensures Pcapng(s) == Ok(TellAll(blocks, Scan([], [])).frames)
  {
    PcapngOf(s, little);
    assert PcapngFrom(s, little, 0, Scan([], [])) == Ok(TellAll([b] + blocks, Scan([], [])).frames);
    TellFirst(b, blocks, Scan([], []));
  }

  /** A written PCAPNG file is read back to the frames its blocks tell, in either byte order. */
  lemma PcapngReadsBack(little: bool, header: bytes, blocks: seq<Block>)
    requires |header| >= 12 && |header| % 4 == 0 && |header| + 64 < WORD_LIMIT
    requires forall i :: 0 <= i < |blocks| ==> GoodBlock(blocks[i])
    ensures Pcapng(PcapngFile(little, header, blocks)) == Ok(TellAll(blocks, Scan([], [])).frames)
  {
    var s := PcapngFile(little, header, blocks);
    FileActs(little, header, blocks);
    assert s[0..] == s;
    RawsRead(little, s, 0, [Section(little, header)] + Raws(little, blocks), [Other(SECTION_BLOCK, header)] + blocks);
    SectionStands(little, header, blocks);
    NgOf(little, s, Other(SECTION_BLOCK, header), blocks);
  }

  /** The container does not matter: the same Ethernet frames give the same analysis, whether they
      were written as PCAP or, among other blocks and with options, as PCAPNG, whatever the byte
      orders, timestamps and header fields. */
  lemma ContainerDoesNotMatter(little: bool, nano: bool, middle: bytes, records: seq<Stamped>,
                               ngLittle: bool, header: bytes, blocks: seq<Block>)
    requires |middle| == 16 && GoodRecords(records)
    requires |header| >= 12 && |header| % 4 == 0 && |header| + 64 < WORD_LIMIT
    requires forall i :: 0 <= i < |blocks| ==> GoodBlock(blocks[i])
    requires TellAll(blocks, Scan([], [])).frames == Frames(records)
    ensures Analysis(Pcap(PcapFile(little, nano, middle, records)))
         == Analysis(Pcapng(PcapngFile(ngLittle, header, blocks)))
         == Ok(ReadAll(Frames(records)))
  {
    PcapReadsBack(little, nano, middle, records);
    PcapngReadsBack(ngLittle, header, blocks);
  }

  // ----- Every list of frames has a PCAPNG file

  function Padding(n: nat): bytes
  {
    if n % 4 == 0 then [] else if n % 4 == 1 then [0, 0, 0] else if n % 4 == 2 then [0, 0] else [0]
  }

  function AsBlock(r: Stamped): Block
  {
    Packet(0, r.stamp, r.frame.original, r.frame.data, Padding(|r.frame.data|))
  }

  function AsBlocks(records: seq<Stamped>): seq<Block>
  {
    if records == [] then [] else [AsBlock(records[0])] + AsBlocks(records[1..])
  }

  lemma {:induction false} PaddedBlocksAreGood(records: seq<Stamped>)
    requires GoodRecords(records)
    ensures forall i :: 0 <= i < |AsBlocks(records)| ==> GoodBlock(AsBlocks(records)[i])
  {
    if records != [] {
      PaddedBlocksAreGood(records[1..]);
      var r := records[0];
      assert (|r.frame.data| + |Padding(|r.frame.data|)|) % 4 == 0;
      assert GoodBlock(AsBlock(r));
    }
  }

  lemma PacketTells(r: Stamped, at: Scan)
    requires r.frame.ethernet && |at.interfaces| > 0 && at.interfaces[0] == ETHERNET
    ensures Tell(AsBlock(r), at) == at.(frames := at.frames + [r.frame])
  {
    assert r.frame == Frame(r.frame.original, true, r.frame.data);
  }

  lemma {:induction false} BlocksTellFrames(records: seq<Stamped>, at: Scan)
    requires GoodRecords(records) && |at.interfaces| > 0 && at.interfaces[0] == ETHERNET
    ensures TellAll(AsBlocks(records), at).frames == at.frames + Frames(records)
    decreases |records|
  {
    if records == [] {
      assert at.frames + Frames(records) == at.frames;
    } else {
      var r := records[0];
      TellFirst(AsBlock(r), AsBlocks(records[1..]), at);
      PacketTells(r, at);
      BlocksTellFrames(records[1..], at.(frames := at.frames + [r.frame]));
      FrameBetween(at.frames, r.frame, Frames(records[1..]));
    }
  }

  lemma FrameBetween(a: seq<Frame>, f: Frame, b: seq<Frame>)
    ensures a + [f] + b == a + ([f] + b)
  {
  }

  const ETHERNET_INTERFACE: Block := Interface(ETHERNET, [0, 0, 0, 0, 0, 0])

  /** So any recorded frames, written as one interface and padded packet blocks, analyse as in PCAP. */
  lemma ConversionKeepsAnalysis(little: bool, nano: bool, middle: bytes, records: seq<Stamped>,
                                ngLittle: bool, header: bytes)
    requires |middle| == 16 && GoodRecords(records)
    requires |header| >= 12 && |header| % 4 == 0 && |header| + 64 < WORD_LIMIT
    ensures Analysis(Pcap(PcapFile(little, nano, middle, records)))
         == Analysis(Pcapng(PcapngFile(ngLittle, header, [ETHERNET_INTERFACE] + AsBlocks(records))))
  {
    var blocks := [ETHERNET_INTERFACE] + AsBlocks(records);
    var at := Tell(ETHERNET_INTERFACE, Scan([], []));
    BlocksTellFrames(records, at);
    PaddedBlocksAreGood(records);
    assert blocks[1..] == AsBlocks(records);
    assert [] + Frames(records) == Frames(records);
    ContainerDoesNotMatter(little, nano, middle, records, ngLittle, header, blocks);
  }
}
