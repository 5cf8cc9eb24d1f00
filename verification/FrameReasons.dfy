/** Which frames are TCP packets, why the others are not, and what the counters count: said of the bytes
    of a frame. */
module FrameReasons {
  import opened Base
  import opened FlowTable
  import opened Dissect

  // ----- The bytes of a frame

  predicate IsIpv4(f: bytes)
  {
    |f| >= 14 && f[12] == 0x08 && f[13] == 0x00
  }

  predicate IsIpv6(f: bytes)
  {
    |f| >= 14 && f[12] == 0x86 && f[13] == 0xdd
  }

  /** The IPv4 header, of at least twenty bytes as its length field says, is complete. */
  predicate WholeIpv4(f: bytes)
  {
    IsIpv4(f) && |f| >= 34 && f[14] % 16 >= 5 && |f| >= 14 + 4 * (f[14] % 16)
  }

  predicate WholeIpv6(f: bytes)
  {
    IsIpv6(f) && |f| >= 54
  }

  /** More fragments follow, or this one does not start at 0. */
  predicate IsFragment(f: bytes)
  {
    WholeIpv4(f) && (f[20] % 64 != 0 || f[21] != 0)
  }

  const TCP_PROTOCOL: byte := 6

  predicate HasOtherProtocol(f: bytes)
  {
    (WholeIpv4(f) && !IsFragment(f) && f[23] != TCP_PROTOCOL) || (WholeIpv6(f) && f[20] != TCP_PROTOCOL)
  }

  /** The frame says that it carries TCP, from byte `TcpStart` on. */
  predicate SaysTcp(f: bytes)
  {
    (WholeIpv4(f) && !IsFragment(f) && f[23] == TCP_PROTOCOL) || (WholeIpv6(f) && f[20] == TCP_PROTOCOL)
  }

  function TcpStart(f: bytes): nat
    requires SaysTcp(f)
  {
    if IsIpv4(f) then 14 + 4 * (f[14] % 16) else 54
  }

  /** The TCP header, of at least twenty bytes as its length field says, is complete. */
  predicate WholeTcp(f: bytes)
  {
    SaysTcp(f)
    && var at := TcpStart(f);
    |f| >= at + 20 && f[at + 12] / 16 >= 5 && |f| >= at + 4 * (f[at + 12] / 16)
  }

  /** A frame that is too short for the headers it announces, or announces headers that are too short. */
  predicate IsCutShort(f: bytes)
  {
    || |f| < 14
    || (IsIpv4(f) && !WholeIpv4(f))
    || (IsIpv6(f) && !WholeIpv6(f))
    || (SaysTcp(f) && !WholeTcp(f))
  }

  predicate HasOtherLink(f: bytes)
  {
    |f| >= 14 && !IsIpv4(f) && !IsIpv6(f)
  }

  function Two(a: nat, b: nat): nat
  {
    a * 0x100 + b
  }

  function Four(a: nat, b: nat, c: nat, d: nat): nat
  {
    a * 0x100_0000 + b * 0x1_0000 + c * 0x100 + d
  }

  /** The packet in the bytes of a frame: IPv4 addresses are filled up with zeros in front. */
  ghost predicate IsPacketOf(p: Packet, f: bytes)
    requires WholeTcp(f)
  {
    var at := TcpStart(f);
    && (IsIpv4(f) ==> |p.source.address| == 16 && |p.target.address| == 16
                      && (forall i :: 0 <= i < 12 ==> p.source.address[i] == 0 && p.target.address[i] == 0)
                      && p.source.address[12..] == f[26..30] && p.target.address[12..] == f[30..34])
    && (IsIpv6(f) ==> p.source.address == f[22..38] && p.target.address == f[38..54])
    && p.source.port == Two(f[at], f[at + 1])
    && p.target.port == Two(f[at + 2], f[at + 3])
    && p.start == Four(f[at + 4], f[at + 5], f[at + 6], f[at + 7])
    && p.payload == f[at + 4 * (f[at + 12] / 16)..]
  }

  // ----- One frame

  lemma {:induction false} TcpPart(f: bytes, at: nat, source: bytes, target: bytes)
    requires at <= |f|
    ensures var whole := |f| >= at + 20 && f[at + 12] / 16 >= 5 && |f| >= at + 4 * (f[at + 12] / 16);
            match ParseTcp(source, target, f[at..])
            case Excluded(reason) => !whole && reason == Truncated
            case Tcp(p) =>
              && whole && p.source.address == source && p.target.address == target
              && p.source.port == Two(f[at], f[at + 1])
              && p.target.port == Two(f[at + 2], f[at + 3])
              && p.start == Four(f[at + 4], f[at + 5], f[at + 6], f[at + 7])
              && p.payload == f[at + 4 * (f[at + 12] / 16)..]
  {
    var s := f[at..];
    if |s| >= 20 {
      assert s[12] == f[at + 12];
    }
  }

  lemma {:induction false} Ipv4Part(f: bytes)
    requires IsIpv4(f)
    ensures var s, d := f[14..], ParseIpv4(f[14..]);
            if !WholeIpv4(f) then d == Excluded(Truncated)
            else if IsFragment(f) then d == Excluded(Fragmented)
            else if f[23] != TCP_PROTOCOL then d == Excluded(NonTcp)
            else d == ParseTcp(ZEROS + f[26..30], ZEROS + f[30..34], f[14 + 4 * (f[14] % 16)..])
  {
    var s := f[14..];
    if |s| >= 20 {
      assert s[0] == f[14] && s[6] == f[20] && s[7] == f[21] && s[9] == f[23];
      assert s[12..16] == f[26..30] && s[16..20] == f[30..34];
      FragmentBits(s[6], s[7]);
      if |s| >= 4 * (f[14] % 16) {
        assert s[4 * (f[14] % 16)..] == f[14 + 4 * (f[14] % 16)..];
      }
    }
  }

  lemma {:induction false} FragmentBits(high: byte, low: byte)
    ensures (high * 0x100 + low) % 0x4000 == 0 <==> high % 64 == 0 && low == 0
  {
    assert (high * 0x100 + low) % 0x4000 == high % 64 * 0x100 + low;
  }

  lemma {:induction false} Ipv6Part(f: bytes)
    requires IsIpv6(f)
    ensures var d := ParseIpv6(f[14..]);
            if !WholeIpv6(f) then d == Excluded(Truncated)
            else if f[20] != TCP_PROTOCOL then d == Excluded(NonTcp)
            else d == ParseTcp(f[22..38], f[38..54], f[54..])
  {
    var s := f[14..];
    if |s| >= 40 {
      assert s[6] == f[20] && s[8..24] == f[22..38] && s[24..40] == f[38..54] && s[40..] == f[54..];
    }
  }

  /** The outcome of a frame, exactly. */
  ghost predicate Explains(d: Dissected, f: bytes)
  {
    match d
    case Tcp(p) => WholeTcp(f) && IsPacketOf(p, f)
    case Excluded(NonTcp) => HasOtherProtocol(f)
    case Excluded(Fragmented) => IsFragment(f)
    case Excluded(Truncated) => IsCutShort(f)
    case Excluded(UnsupportedLink) => HasOtherLink(f)
  }

  lemma {:induction false} TcpMeans(f: bytes, source: bytes, target: bytes)
    requires SaysTcp(f) && TcpStart(f) <= |f|
    requires |source| == |target| == 16
    requires if IsIpv4(f) then source == ZEROS + f[26..30] && target == ZEROS + f[30..34]
             else source == f[22..38] && target == f[38..54]
    ensures Explains(ParseTcp(source, target, f[TcpStart(f)..]), f)
  {
    TcpPart(f, TcpStart(f), source, target);
    if IsIpv4(f) {
      assert source[12..] == f[26..30] && target[12..] == f[30..34];
    }
  }

  lemma {:induction false} Ipv4Means(f: bytes)
    requires IsIpv4(f)
    ensures Explains(ParseIpv4(f[14..]), f)
  {
    Ipv4Part(f);
    if SaysTcp(f) {
      TcpMeans(f, ZEROS + f[26..30], ZEROS + f[30..34]);
    }
  }

  lemma {:induction false} Ipv6Means(f: bytes)
    requires IsIpv6(f)
    ensures Explains(ParseIpv6(f[14..]), f)
  {
    Ipv6Part(f);
    if SaysTcp(f) {
      TcpMeans(f, f[22..38], f[38..54]);
    }
  }

  lemma {:induction false} FrameMeans(f: bytes)
    ensures Explains(DissectFrame(f), f)
  {
    if IsIpv4(f) {
      Ipv4Means(f);
    } else if IsIpv6(f) {
      Ipv6Means(f);
    }
  }

  /** No frame meets two of these conditions. */
  lemma {:induction false} ReasonsExclude(f: bytes)
    ensures WholeTcp(f) ==> !HasOtherProtocol(f) && !IsFragment(f) && !IsCutShort(f) && !HasOtherLink(f)
    ensures HasOtherProtocol(f) ==> !IsFragment(f) && !IsCutShort(f) && !HasOtherLink(f)
    ensures IsFragment(f) ==> !IsCutShort(f) && !HasOtherLink(f)
    ensures IsCutShort(f) ==> !HasOtherLink(f)
  {
  }

  /** A frame becomes a packet, or is excluded for a reason, exactly under the condition of that outcome. */
  lemma {:induction false} FrameOutcomeIff(f: bytes)
    ensures DissectFrame(f).Tcp? <==> WholeTcp(f)
    ensures DissectFrame(f).Tcp? ==> IsPacketOf(DissectFrame(f).packet, f)
    ensures DissectFrame(f) == Excluded(NonTcp) <==> HasOtherProtocol(f)
    ensures DissectFrame(f) == Excluded(Fragmented) <==> IsFragment(f)
    ensures DissectFrame(f) == Excluded(Truncated) <==> IsCutShort(f)
    ensures DissectFrame(f) == Excluded(UnsupportedLink) <==> HasOtherLink(f)
  {
    FrameMeans(f);
    ReasonsExclude(f);
  }

  // ----- All frames

  function CountIf(frames: seq<Frame>, p: Frame -> bool): nat
  {
    if frames == [] then 0
    else CountIf(frames[..|frames| - 1], p) + if p(frames[|frames| - 1]) then 1 else 0
  }

  function WireBytes(frames: seq<Frame>): nat
  {
    if frames == [] then 0 else WireBytes(frames[..|frames| - 1]) + frames[|frames| - 1].original
  }

  /** Every counter is the number of frames with its condition, and the byte count adds up the lengths on
      the wire of all frames. Frames of other links than Ethernet count as such whatever they hold. */
  lemma {:induction false} CountersCount(frames: seq<Frame>)
    ensures var r := ReadAll(frames);
            && r.packets == |frames|
            && r.captured == WireBytes(frames)
            && r.excluded.nonTcp == CountIf(frames, (f: Frame) => f.ethernet && HasOtherProtocol(f.data))
            && r.excluded.fragmented == CountIf(frames, (f: Frame) => f.ethernet && IsFragment(f.data))
            && r.excluded.truncated == CountIf(frames, (f: Frame) => f.ethernet && IsCutShort(f.data))
            && r.excluded.unsupportedLink == CountIf(frames, (f: Frame) => !f.ethernet || HasOtherLink(f.data))
            && |PacketsOf(frames)| == CountIf(frames, (f: Frame) => f.ethernet && WholeTcp(f.data))
  {
    if frames != [] {
      var last := frames[|frames| - 1];
      CountersCount(frames[..|frames| - 1]);
      if last.ethernet {
        FrameOutcomeIff(last.data);
      }
    }
  }
}
