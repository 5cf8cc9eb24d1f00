/** Taking an Ethernet frame apart down to its TCP segment. */
module Dissect {
  import opened Base
  import opened Conversation
  import opened FlowTable
  import Reassembly
  import Words

  /** Why a frame is not used. */
  datatype Reason = NonTcp | Fragmented | Truncated | UnsupportedLink

  datatype Dissected = Tcp(packet: Packet) | Excluded(reason: Reason)

  const ZEROS: bytes := [0, 0, 0, 0, 0, 0, 0, 0, 0, 0, 0, 0]

  function Word16(s: bytes, at: nat): nat
    requires at + 2 <= |s|
  {
    Words.BigEndian(0, 0, s[at], s[at + 1])
  }

  function Word32(s: bytes, at: nat): nat
    requires at + 4 <= |s|
  {
    Words.BigEndian(s[at], s[at + 1], s[at + 2], s[at + 3])
  }

  function ParseTcp(source: bytes, target: bytes, s: bytes): Dissected
  {
    if |s| < 20 then Excluded(Truncated)
    else
      var header: nat := s[12] / 16 * 4;
      if header < 20 || |s| < header then Excluded(Truncated)
      else Tcp(Packet(Endpoint(source, Word16(s, 0)), Endpoint(target, Word16(s, 2)), Word32(s, 4), s[header..]))
  }

  function ParseIpv4(s: bytes): Dissected
  {
    if |s| < 20 then Excluded(Truncated)
    else
      var header: nat := s[0] % 16 * 4;
      if header < 20 || |s| < header then Excluded(Truncated)
      else if Word16(s, 6) % 0x4000 != 0 then Excluded(Fragmented)
      else if s[9] != 6 then Excluded(NonTcp)
      else ParseTcp(ZEROS + s[12..16], ZEROS + s[16..20], s[header..])
  }

  function ParseIpv6(s: bytes): Dissected
  {
    if |s| < 40 then Excluded(Truncated)
    else if s[6] != 6 then Excluded(NonTcp)
    else ParseTcp(s[8..24], s[24..40], s[40..])
  }

  function DissectFrame(frame: bytes): Dissected
  {
    if |frame| < 14 then Excluded(Truncated)
    else if frame[12] == 8 && frame[13] == 0 then ParseIpv4(frame[14..])
    else if frame[12] == 0x86 && frame[13] == 0xdd then ParseIpv6(frame[14..])
    else Excluded(UnsupportedLink)
  }

  // ----- Counting

  datatype Exclusions = Exclusions(nonTcp: nat, fragmented: nat, truncated: nat, unsupportedLink: nat)

  const NOTHING_EXCLUDED: Exclusions := Exclusions(0, 0, 0, 0)

  function Exclude(e: Exclusions, r: Reason): Exclusions
  {
    match r
    case NonTcp => e.(nonTcp := e.nonTcp + 1)
    case Fragmented => e.(fragmented := e.fragmented + 1)
    case Truncated => e.(truncated := e.truncated + 1)
    case UnsupportedLink => e.(unsupportedLink := e.unsupportedLink + 1)
  }

  /** A captured frame: its length on the wire, whether its link is Ethernet, the bytes captured. */
  datatype Frame = Frame(original: nat, ethernet: bool, data: bytes)

  /** All that reading frames changes. */
  datatype Progress = Progress(packets: nat, captured: nat, table: Table, excluded: Exclusions)

  const NOTHING_READ: Progress := Progress(0, 0, Table([], map[]), NOTHING_EXCLUDED)

  function Outcome(f: Frame): Dissected
  {
    if f.ethernet then DissectFrame(f.data) else Excluded(UnsupportedLink)
  }

  function ReadFrame(r: Progress, f: Frame): Progress
  {
    var counted := r.(packets := r.packets + 1, captured := r.captured + f.original);
    match Outcome(f)
    case Tcp(p) => counted.(table := Take(r.table, p))
    case Excluded(reason) => counted.(excluded := Exclude(r.excluded, reason))
  }

  function ReadAll(frames: seq<Frame>): Progress
  {
    if frames == [] then NOTHING_READ else ReadFrame(ReadAll(frames[..|frames| - 1]), frames[|frames| - 1])
  }

  /** The tables that the packet loop updates in place. */
  class Recorder {
    var packets: nat
    var captured: nat
    var order: seq<FlowKey>
    var flows: map<FlowKey, Segments>
    var excluded: Exclusions
    ghost var frames: seq<Frame>

    function State(): Progress
      reads this
    {
      Progress(packets, captured, Table(order, flows), excluded)
    }

    ghost predicate Valid()
      reads this
    {
      State() == ReadAll(frames)
    }

    constructor ()
      ensures Valid() && frames == []
    {
      packets, captured := 0, 0;
      order := [];
      flows := map[];
      excluded := NOTHING_EXCLUDED;
      frames := [];
    }

    method Add(f: Frame)
      requires Valid()
      modifies this
      ensures Valid() && frames == old(frames) + [f]
    {
      ghost var before := State();
      packets := packets + 1;
      captured := captured + f.original;
      if f.ethernet {
        ParseEthernet(f.data);
      } else {
        excluded := Exclude(excluded, UnsupportedLink);
      }
      assert State() == ReadFrame(before, f);
      frames := frames + [f];
      assert frames[..|frames| - 1] == old(frames);
    }

    method ParseEthernet(frame: bytes)
      modifies this`order, this`flows, this`excluded
      ensures match DissectFrame(frame)
              case Tcp(p) => State() == old(State()).(table := Take(old(State()).table, p))
              case Excluded(reason) => State() == old(State()).(excluded := Exclude(old(State()).excluded, reason))
    {
      var dissected := DissectFrame(frame);
      if dissected.Excluded? {
        excluded := Exclude(excluded, dissected.reason);
        return;
      }
      Accept(dissected.packet);
    }

    method Accept(p: Packet)
      modifies this`order, this`flows
      ensures State() == old(State()).(table := Take(old(State()).table, p))
    {
      var key, direction := Direct(p), ClientToServer;
      if Direct(p) !in flows {
        if Flip(Direct(p)) in flows {
          key, direction := Flip(Direct(p)), ServerToClient;
        } else {
          order := order + [key];
          flows := flows[key := NO_SEGMENTS];
        }
      }
      if p.payload == [] {
        return;
      }
      var parts := flows[key].(events := flows[key].events + [Event(direction, p.start, p.payload)]);
      var stored := Side(parts, direction);
      if p.start in stored {
        parts := parts.(duplicate := parts.duplicate + Reassembly.Min(|stored[p.start]|, |p.payload|));
      } else {
        parts := WithSide(parts, direction, stored[p.start := p.payload]);
      }
      flows := flows[key := parts];
    }
  }

  // ----- Frames and packets

  function PacketsOf(frames: seq<Frame>): seq<Packet>
  {
    if frames == [] then []
    else
      var earlier, last := PacketsOf(frames[..|frames| - 1]), Outcome(frames[|frames| - 1]);
      if last.Tcp? then earlier + [last.packet] else earlier
  }

  function Sum(e: Exclusions): nat
  {
    e.nonTcp + e.fragmented + e.truncated + e.unsupportedLink
  }

  /** Every frame is either a packet of the flow table or counted as excluded, once. */
  lemma {:induction false} FramesAreAccountedFor(frames: seq<Frame>)
    ensures ReadAll(frames).packets == |frames|
    ensures ReadAll(frames).table == After(PacketsOf(frames))
    ensures |PacketsOf(frames)| + Sum(ReadAll(frames).excluded) == |frames|
  {
    if frames != [] {
      var init, last := frames[..|frames| - 1], frames[|frames| - 1];
      FramesAreAccountedFor(init);
      OneMoreFrame(ReadAll(init), last, PacketsOf(init));
      assert init + [last] == frames;
    }
  }

  lemma OneMoreFrame(r: Progress, f: Frame, packets: seq<Packet>)
    requires r.table == After(packets)
    ensures var next := ReadFrame(r, f);
            && next.packets == r.packets + 1
            && (Outcome(f).Tcp? ==> next.table == After(packets + [Outcome(f).packet]) && next.excluded == r.excluded)
            && (Outcome(f).Excluded? ==> next.table == r.table && Sum(next.excluded) == Sum(r.excluded) + 1)
  {
    if Outcome(f).Tcp? {
      var all := packets + [Outcome(f).packet];
      assert all[..|all| - 1] == packets;
    }
  }

  // ----- Writing frames

  function Bytes16(n: nat): (r: bytes)
    ensures |r| == 2
  {
    [Words.Digit(n, 1), Words.Digit(n, 0)]
  }

  /** A TCP segment with its options; `rest` is the part of the header the analysis does not look at. */
  datatype TcpHeader = TcpHeader(acknowledgement: bytes, low: nat, rest: bytes, options: bytes)

  predicate GoodTcp(h: TcpHeader)
  {
    |h.acknowledgement| == 4 && h.low < 16 && |h.rest| == 7 && |h.options| % 4 == 0 && |h.options| <= 40
  }

  predicate GoodPacket(p: Packet)
  {
    p.source.port < 0x1_0000 && p.target.port < 0x1_0000 && p.start < 0x1_0000_0000
  }

  function WriteTcp(p: Packet, h: TcpHeader): bytes
    requires GoodTcp(h)
  {
    var words: byte := (20 + |h.options|) / 4 * 16 + h.low;
    Bytes16(p.source.port) + Bytes16(p.target.port) + Words.BigBytes(p.start) + h.acknowledgement
    + ([words] + h.rest) + h.options + p.payload
  }

  lemma Bytes16Inverse(n: nat)
    requires n < 0x1_0000
    ensures Words.BigEndian(0, 0, Words.Digit(n, 1), Words.Digit(n, 0)) == n
  {
    Words.BigEndianInverse(n);
    assert Words.Digit(n, 2) == Words.Digit(n / 0x100, 1) == Words.Digit(n / 0x100 / 0x100, 0) == 0;
    assert Words.Digit(n, 3) == Words.Digit(n / 0x100, 2) == Words.Digit(n / 0x100 / 0x100, 1) == 0;
  }

  lemma TcpReadsBack(p: Packet, h: TcpHeader)
    requires GoodPacket(p) && GoodTcp(h)
    ensures ParseTcp(p.source.address, p.target.address, WriteTcp(p, h)) == Tcp(p)
  {
    var s := WriteTcp(p, h);
    var words := (20 + |h.options|) / 4 * 16 + h.low;
    Bytes16Inverse(p.source.port);
    Bytes16Inverse(p.target.port);
    Words.BigEndianInverse(p.start);
    assert s[12] == words;
    assert words / 16 == (20 + |h.options|) / 4;
    assert s[20 + |h.options|..] == p.payload;
  }

  /** The parts of an IP header the analysis does not look at, and the options. */
  datatype IpHeader =
    | Ipv4(version: nat, service: bytes, flags: nat, life: byte, checksum: bytes, options: bytes)
    | Ipv6(start: bytes, life: byte)

  /** An unfragmented packet: at most the two topmost flag bits are set, in any combination. */
  predicate GoodIp(p: Packet, h: IpHeader)
  {
    match h
    case Ipv4(version, service, flags, life, checksum, options) =>
      && version < 16 && |service| == 5 && flags < 4 && |checksum| == 2 && |options| % 4 == 0 && |options| <= 40
      && |p.source.address| == 16 && ZEROS <= p.source.address
      && |p.target.address| == 16 && ZEROS <= p.target.address
    case Ipv6(start, life) => |start| == 6 && |p.source.address| == 16 && |p.target.address| == 16
  }

  function WriteIpv4(p: Packet, h: IpHeader, segment: bytes): bytes
    requires h.Ipv4? && GoodIp(p, h)
  {
    var first: byte := h.version * 16 + (20 + |h.options|) / 4;
    var flags: byte := h.flags * 64;
    [first] + h.service + [flags, 0, h.life, 6] + h.checksum + p.source.address[12..] + p.target.address[12..]
    + h.options + segment
  }

  function WriteIpv6(p: Packet, h: IpHeader, segment: bytes): bytes
    requires h.Ipv6? && GoodIp(p, h)
  {
    h.start + [6, h.life] + p.source.address + p.target.address + segment
  }

  function WriteFrame(p: Packet, link: bytes, ip: IpHeader, tcp: TcpHeader): bytes
    requires |link| == 12 && GoodIp(p, ip) && GoodTcp(tcp)
  {
    var segment := WriteTcp(p, tcp);
    if ip.Ipv4? then link + [8, 0] + WriteIpv4(p, ip, segment) else link + [0x86, 0xdd] + WriteIpv6(p, ip, segment)
  }

  lemma Ipv4Addresses(p: Packet, h: IpHeader, segment: bytes)
    requires h.Ipv4? && GoodIp(p, h)
    ensures var s := WriteIpv4(p, h, segment);
            && |s| >= 20 + |h.options| && s[20 + |h.options|..] == segment
            && ZEROS + s[12..16] == p.source.address && ZEROS + s[16..20] == p.target.address
  {
    var s := WriteIpv4(p, h, segment);
    assert s[12..16] == p.source.address[12..] && s[16..20] == p.target.address[12..];
  }

  lemma Ipv4Decides(s: bytes, header: nat)
    requires 20 <= header <= |s| && s[0] % 16 * 4 == header && Word16(s, 6) % 0x4000 == 0 && s[9] == 6
    ensures ParseIpv4(s) == ParseTcp(ZEROS + s[12..16], ZEROS + s[16..20], s[header..])
  {
  }

  lemma {:induction false} HeaderWords(version: nat, n: nat)
    requires version < 16 && n % 4 == 0 && 20 <= n <= 60
    ensures (version * 16 + n / 4) % 16 * 4 == n
  {
    assert n / 4 < 16;
  }

  lemma {:induction false} Ipv4Fields(p: Packet, h: IpHeader, segment: bytes)
    requires h.Ipv4? && GoodIp(p, h)
    ensures var s := WriteIpv4(p, h, segment);
            |s| >= 20 && s[0] % 16 * 4 == 20 + |h.options| && Word16(s, 6) % 0x4000 == 0 && s[9] == 6
  {
    var s := WriteIpv4(p, h, segment);
    HeaderWords(h.version, 20 + |h.options|);
    assert s[0] == h.version * 16 + (20 + |h.options|) / 4 && s[9] == 6 && s[7] == 0 && s[6] == h.flags * 64;
    assert Word16(s, 6) == h.flags * 0x4000;
  }

  lemma Ipv4ReadsBack(p: Packet, h: IpHeader, tcp: TcpHeader)
    requires h.Ipv4? && GoodIp(p, h) && GoodPacket(p) && GoodTcp(tcp)
    ensures ParseIpv4(WriteIpv4(p, h, WriteTcp(p, tcp))) == Tcp(p)
  {
    var segment := WriteTcp(p, tcp);
    Ipv4Fields(p, h, segment);
    Ipv4Addresses(p, h, segment);
    Ipv4Decides(WriteIpv4(p, h, segment), 20 + |h.options|);
    TcpReadsBack(p, tcp);
  }

  lemma Ipv6ReadsBack(p: Packet, h: IpHeader, tcp: TcpHeader)
    requires h.Ipv6? && GoodIp(p, h) && GoodPacket(p) && GoodTcp(tcp)
    ensures ParseIpv6(WriteIpv6(p, h, WriteTcp(p, tcp))) == Tcp(p)
  {
    var segment := WriteTcp(p, tcp);
    var s := WriteIpv6(p, h, segment);
    assert s[6] == 6 && s[8..24] == p.source.address && s[24..40] == p.target.address && s[40..] == segment;
    TcpReadsBack(p, tcp);
  }

  /** A written TCP packet, with any options and over either IP version, is read back. */
  lemma FrameReadsBack(p: Packet, link: bytes, ip: IpHeader, tcp: TcpHeader)
    requires |link| == 12 && GoodIp(p, ip) && GoodPacket(p) && GoodTcp(tcp)
    ensures DissectFrame(WriteFrame(p, link, ip, tcp)) == Tcp(p)
  {
    var frame := WriteFrame(p, link, ip, tcp);
    var segment := WriteTcp(p, tcp);
    if ip.Ipv4? {
      Ipv4ReadsBack(p, ip, tcp);
      assert frame[14..] == WriteIpv4(p, ip, segment);
    } else {
      Ipv6ReadsBack(p, ip, tcp);
      assert frame[14..] == WriteIpv6(p, ip, segment);
    }
  }
}
