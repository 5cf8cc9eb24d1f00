/** Reading the packets of a capture file: classic PCAP, and PCAPNG. */
module Containers {
  import opened Base
  import opened Dissect
  import Words

  datatype CaptureError = Truncated | UnsupportedFormat | UnsupportedLinkType(link: nat)

  const ETHERNET: nat := 1
  const INTERFACE_BLOCK: nat := 1
  const PACKET_BLOCK: nat := 6

  function Read32(little: bool, s: bytes, at: nat): nat
    requires at + 4 <= |s|
  {
    if little then Words.BigEndian(s[at + 3], s[at + 2], s[at + 1], s[at])
    else Words.BigEndian(s[at], s[at + 1], s[at + 2], s[at + 3])
  }

  function Read16(little: bool, s: bytes, at: nat): nat
    requires at + 2 <= |s|
  {
    if little then Words.BigEndian(0, 0, s[at + 1], s[at]) else Words.BigEndian(0, 0, s[at], s[at + 1])
  }

  // ----- PCAP

  predicate LittleMagic(m: bytes)
  {
    m == [0xd4, 0xc3, 0xb2, 0xa1] || m == [0x4d, 0x3c, 0xb2, 0xa1]
  }

  predicate BigMagic(m: bytes)
  {
    m == [0xa1, 0xb2, 0xc3, 0xd4] || m == [0xa1, 0xb2, 0x3c, 0x4d]
  }

  /** The frames from `offset` on, behind those already read. */
  function PcapFrom(data: bytes, little: bool, offset: nat, done: seq<Frame>): Result<seq<Frame>, CaptureError>
    decreases |data| - offset
  {
    if offset >= |data| then Ok(done)
    else if offset + 16 > |data| then Err(CaptureError.Truncated)
    else
      var included, original := Read32(little, data, offset + 8), Read32(little, data, offset + 12);
      var next := offset + 16 + included;
      if next > |data| then Err(CaptureError.Truncated)
      else PcapFrom(data, little, next, done + [Frame(original, true, data[offset + 16..next])])
  }

  function Pcap(data: bytes): Result<seq<Frame>, CaptureError>
  {
    if |data| < 24 then Err(CaptureError.Truncated)
    else
      var magic := data[..4];
      var little := LittleMagic(magic);
      if !little && !BigMagic(magic) then Err(UnsupportedFormat)
      else
        var link := Read32(little, data, 20);
        if link != ETHERNET then Err(UnsupportedLinkType(link)) else PcapFrom(data, little, 24, [])
  }

  /** The result of an analysis whose container holds these frames. */
  function Analysis(frames: Result<seq<Frame>, CaptureError>): Result<Progress, CaptureError>
  {
    match frames
    case Ok(list) => Ok(ReadAll(list))
    case Err(e) => Err(e)
  }

  method AnalyzePcap(data: bytes) returns (r: Result<Progress, CaptureError>)
    ensures r == Analysis(Pcap(data))
  {
    if |data| < 24 {
      return Err(CaptureError.Truncated);
    }
    var magic := data[..4];
    var little := LittleMagic(magic);
    if !little && !BigMagic(magic) {
      return Err(UnsupportedFormat);
    }
    var link := Read32(little, data, 20);
    if link != ETHERNET {
      return Err(UnsupportedLinkType(link));
    }
    r := ReadPcapPackets(data, little);
  }

  /** The body of the loop: the frame of the record at `offset` is recorded; where the next one starts. */
  method ReadRecord(recorder: Recorder, data: bytes, little: bool, offset: nat)
    returns (next: Result<nat, CaptureError>)
    requires recorder.Valid() && offset < |data|
    modifies recorder
    ensures recorder.Valid()
    ensures var whole := PcapFrom(data, little, offset, old(recorder.frames));
            if next.Err? then whole == Err(next.error)
            else offset < next.value && whole == PcapFrom(data, little, next.value, recorder.frames)
  {
    if offset + 16 > |data| {
      return Err(CaptureError.Truncated);
    }
    var included, original := Read32(little, data, offset + 8), Read32(little, data, offset + 12);
    var start := offset + 16;
    if start + included > |data| {
      return Err(CaptureError.Truncated);
    }
    recorder.Add(Frame(original, true, data[start..start + included]));
    next := Ok(start + included);
  }

  method ReadPcapPackets(data: bytes, little: bool) returns (r: Result<Progress, CaptureError>)
    ensures r == Analysis(PcapFrom(data, little, 24, []))
  {
    var recorder := new Recorder();
    var offset: nat := 24;
    while offset < |data|
      invariant fresh(recorder) && recorder.Valid()
      invariant PcapFrom(data, little, offset, recorder.frames) == PcapFrom(data, little, 24, [])
      decreases |data| - offset
    {
      var next := ReadRecord(recorder, data, little, offset);
      if next.Err? {
        return Err(next.error);
      }
      offset := next.value;
    }
    r := Ok(recorder.State());
  }

  // ----- PCAPNG

  /** The loop state: the link types of the interfaces declared so far, and the frames. */
  datatype Scan = Scan(interfaces: seq<nat>, frames: seq<Frame>)

  /** The content of a packet block: which interface, its captured and original lengths, the data. */
  function FrameIn(little: bool, content: bytes, interfaces: seq<nat>): Option<Frame>
    requires |content| >= 20
  {
    var interface := Read32(little, content, 0);
    var captured, original := Read32(little, content, 12), Read32(little, content, 16);
    if 20 + captured > |content| then None
    else
      var ethernet := interface < |interfaces| && interfaces[interface] == ETHERNET;
      Some(Frame(original, ethernet, content[20..20 + captured]))
  }

  /** What a block of a type does, given its content: the block without type, lengths and padding. */
  function OneBlock(little: bool, kind: nat, content: bytes, at: Scan): Result<Scan, CaptureError>
  {
    if kind == INTERFACE_BLOCK && |content| >= 8 then
      Ok(at.(interfaces := at.interfaces + [Read16(little, content, 0)]))
    else if kind == PACKET_BLOCK && |content| >= 20 then
      match FrameIn(little, content, at.interfaces)
      case None => Err(CaptureError.Truncated)
      case Some(f) => Ok(at.(frames := at.frames + [f]))
    else Ok(at)
  }

  /** The type and the content of the block at `offset`. */
  function BlockAt(data: bytes, little: bool, offset: nat): Result<(nat, bytes), CaptureError>
  {
    if offset + 12 > |data| then Err(CaptureError.Truncated)
    else
      var kind, length := Read32(little, data, offset), Read32(little, data, offset + 4);
      if length < 12 || length % 4 != 0 || offset + length > |data| then Err(CaptureError.Truncated)
      else if Read32(little, data, offset + length - 4) != length then Err(CaptureError.Truncated)
      else Ok((kind, data[offset + 8..offset + length - 4]))
  }

  function PcapngFrom(data: bytes, little: bool, offset: nat, at: Scan): Result<seq<Frame>, CaptureError>
    decreases |data| - offset
  {
    if offset >= |data| then Ok(at.frames)
    else
      match BlockAt(data, little, offset)
      case Err(e) => Err(e)
      case Ok((kind, content)) =>
        match OneBlock(little, kind, content, at)
        case Err(e) => Err(e)
        case Ok(next) => PcapngFrom(data, little, offset + 12 + |content|, next)
  }

  const SECTION: bytes := [0x0a, 0x0d, 0x0d, 0x0a]
  const LITTLE_SECTION: bytes := [0x4d, 0x3c, 0x2b, 0x1a]
  const BIG_SECTION: bytes := [0x1a, 0x2b, 0x3c, 0x4d]

  function Pcapng(data: bytes): Result<seq<Frame>, CaptureError>
  {
    if |data| < 28 || !(SECTION <= data) then Err(UnsupportedFormat)
    else if data[8..12] == LITTLE_SECTION then PcapngFrom(data, true, 0, Scan([], []))
    else if data[8..12] == BIG_SECTION then PcapngFrom(data, false, 0, Scan([], []))
    else Err(UnsupportedFormat)
  }

  method AnalyzePcapng(data: bytes) returns (r: Result<Progress, CaptureError>)
    ensures r == Analysis(Pcapng(data))
  {
    if |data| < 28 || !(SECTION <= data) {
      return Err(UnsupportedFormat);
    }
    var magic := data[8..12];
    if magic != LITTLE_SECTION && magic != BIG_SECTION {
      return Err(UnsupportedFormat);
    }
    r := ReadPcapngBlocks(data, magic == LITTLE_SECTION);
  }

  method ReadPcapngBlocks(data: bytes, little: bool) returns (r: Result<Progress, CaptureError>)
    ensures r == Analysis(PcapngFrom(data, little, 0, Scan([], [])))
  {
    var recorder := new Recorder();
    var offset: nat := 0;
    var interfaces: seq<nat> := [];
    while offset < |data|
      invariant fresh(recorder) && recorder.Valid()
      invariant PcapngFrom(data, little, offset, Scan(interfaces, recorder.frames))
             == PcapngFrom(data, little, 0, Scan([], []))
      decreases |data| - offset
    {
      var next := ReadNext(recorder, data, little, offset, interfaces);
      if next.Err? {
        return Err(next.error);
      }
      interfaces, offset := next.value.0, next.value.1;
    }
    r := Ok(recorder.State());
  }

  /** The body of the loop: the interfaces known after the block at `offset`, and where the next one
      starts; the frame of the block is recorded. */
  method ReadNext(recorder: Recorder, data: bytes, little: bool, offset: nat, interfaces: seq<nat>)
    returns (next: Result<(seq<nat>, nat), CaptureError>)
    requires recorder.Valid() && offset < |data|
    modifies recorder
    ensures recorder.Valid()
    ensures var whole := PcapngFrom(data, little, offset, Scan(interfaces, old(recorder.frames)));
            if next.Err? then whole == Err(next.error)
            else offset < next.value.1
                 && whole == PcapngFrom(data, little, next.value.1, Scan(next.value.0, recorder.frames))
  {
    var block := BlockAt(data, little, offset);
    if block.Err? {
      return Err(block.error);
    }
    var (kind, content) := block.value;
    var known := ReadBlock(recorder, little, kind, content, interfaces);
    if known.Err? {
      return Err(known.error);
    }
    next := Ok((known.value, offset + 12 + |content|));
  }

  /** One block: the interfaces known after it; its frame is recorded. */
  method ReadBlock(recorder: Recorder, little: bool, kind: nat, content: bytes, interfaces: seq<nat>)
    returns (known: Result<seq<nat>, CaptureError>)
    requires recorder.Valid()
    modifies recorder
    ensures recorder.Valid()
    ensures var next := OneBlock(little, kind, content, Scan(interfaces, old(recorder.frames)));
            if next.Err? then known == Err(next.error)
            else known == Ok(next.value.interfaces) && recorder.frames == next.value.frames
  {
    known := Ok(interfaces);
    if kind == INTERFACE_BLOCK && |content| >= 8 {
      known := Ok(interfaces + [Read16(little, content, 0)]);
    } else if kind == PACKET_BLOCK && |content| >= 20 {
      var frame := FrameIn(little, content, interfaces);
      if frame.None? {
        return Err(CaptureError.Truncated);
      }
      recorder.Add(frame.value);
    }
  }
}
