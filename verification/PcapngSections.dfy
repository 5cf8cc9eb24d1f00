/** PCAPNG files of several sections: each section header starts a new list of interfaces. */
module PcapngSections {
  import opened Base
  import opened Dissect
  import opened Containers
  import opened ContainerFiles

  /** The link types of the interfaces declared in these blocks. */
  function Declared(blocks: seq<Block>): seq<nat>
  {
    if blocks == [] then []
    else
      var earlier, b := Declared(blocks[..|blocks| - 1]), blocks[|blocks| - 1];
      if b.Interface? then earlier + [b.link] else earlier
  }

  predicate StartsSection(b: Block)
  {
    b.Other? && b.kind == SECTION_BLOCK
  }

  /** The interfaces declared since the last section header. */
  function OwnInterfaces(blocks: seq<Block>): seq<nat>
  {
    if blocks == [] then []
    else
      var earlier, b := OwnInterfaces(blocks[..|blocks| - 1]), blocks[|blocks| - 1];
      if StartsSection(b) then [] else if b.Interface? then earlier + [b.link] else earlier
  }

  predicate OnEthernet(interfaces: seq<nat>, i: nat)
  {
    i < |interfaces| && interfaces[i] == ETHERNET
  }

  /** The frames of a file: a packet refers to an interface of its own section. */
  function SectionFrames(blocks: seq<Block>): seq<Frame>
  {
    if blocks == [] then []
    else
      var before, b := blocks[..|blocks| - 1], blocks[|blocks| - 1];
      if b.Packet? then
        SectionFrames(before) + [Frame(b.original, OnEthernet(OwnInterfaces(before), b.interface), b.data)]
      else SectionFrames(before)
  }

  /** The list of all interfaces says the same of this packet as the list of its own section. */
  predicate Agrees(blocks: seq<Block>, k: nat)
    requires k < |blocks|
  {
    blocks[k].Packet? ==>
      (OnEthernet(Declared(blocks[..k]), blocks[k].interface)
       <==> OnEthernet(OwnInterfaces(blocks[..k]), blocks[k].interface))
  }

  lemma {:induction false} TellAppend(blocks: seq<Block>, b: Block, at: Scan)
    ensures TellAll(blocks + [b], at) == Tell(b, TellAll(blocks, at))
    decreases |blocks|
  {
    if blocks == [] {
      assert ([] + [b])[1..] == [];
    } else {
      assert (blocks + [b])[1..] == blocks[1..] + [b];
      TellAppend(blocks[1..], b, Tell(blocks[0], at));
    }
  }

  lemma {:induction false} LastAgrees(blocks: seq<Block>, b: Block)
    ensures (forall k :: 0 <= k < |blocks| + 1 ==> Agrees(blocks + [b], k))
       <==> ((forall k :: 0 <= k < |blocks| ==> Agrees(blocks, k)) && Agrees(blocks + [b], |blocks|))
  {
    forall k | 0 <= k < |blocks|
      ensures Agrees(blocks + [b], k) <==> Agrees(blocks, k)
    {
      assert (blocks + [b])[..k] == blocks[..k];
    }
  }

  /** What the reader knows after some blocks, and when its frames are those of the file. */
  lemma {:induction false} ToldIff(blocks: seq<Block>)
    ensures var told := TellAll(blocks, Scan([], []));
            && told.interfaces == Declared(blocks) && |told.frames| == |SectionFrames(blocks)|
            && (told.frames == SectionFrames(blocks) <==> (forall k :: 0 <= k < |blocks| ==> Agrees(blocks, k)))
    decreases |blocks|
  {
    if blocks != [] {
      var before, b := blocks[..|blocks| - 1], blocks[|blocks| - 1];
      assert blocks == before + [b] && blocks[..|before|] == before;
      ToldIff(before);
      TellAppend(before, b, Scan([], []));
      LastAgrees(before, b);
      if b.Packet? {
        OneMoreFrame(TellAll(before, Scan([], [])).frames, SectionFrames(before),
                     Frame(b.original, OnEthernet(Declared(before), b.interface), b.data),
                     Frame(b.original, OnEthernet(OwnInterfaces(before), b.interface), b.data));
      }
    }
  }

  lemma {:induction false} OneMoreFrame(a: seq<Frame>, b: seq<Frame>, x: Frame, y: Frame)
    requires |a| == |b|
    ensures a + [x] == b + [y] <==> a == b && x == y
  {
    assert (a + [x])[..|a|] == a && (b + [y])[..|b|] == b;
    assert (a + [x])[|a|] == x && (b + [y])[|b|] == y;
  }

  /** A file of any number of sections in one byte order is read to its frames if and only if, for every
      packet, the interface with its number in the list of all interfaces is an Ethernet interface exactly
      if the one in its own section is. */
  lemma {:induction false} SectionsReadIff(little: bool, header: bytes, blocks: seq<Block>)
    requires |header| >= 12 && |header| % 4 == 0 && |header| + 64 < WORD_LIMIT
    requires forall k :: 0 <= k < |blocks| ==> GoodBlock(blocks[k])
    ensures Pcapng(PcapngFile(little, header, blocks)) == Ok(SectionFrames(blocks))
       <==> (forall k :: 0 <= k < |blocks| ==> Agrees(blocks, k))
  {
    PcapngReadsBack(little, header, blocks);
    ToldIff(blocks);
  }

  /** So it is with a single section. */
  lemma {:induction false} OneSectionIsOwn(blocks: seq<Block>)
    requires forall k :: 0 <= k < |blocks| ==> !StartsSection(blocks[k])
    ensures OwnInterfaces(blocks) == Declared(blocks)
    ensures forall k :: 0 <= k < |blocks| ==> Agrees(blocks, k)
    decreases |blocks|
  {
    if blocks != [] {
      var before, b := blocks[..|blocks| - 1], blocks[|blocks| - 1];
      assert blocks == before + [b] && blocks[..|before|] == before;
      OneSectionIsOwn(before);
      LastAgrees(before, b);
    }
  }

  /** A second section whose first interface is not an Ethernet interface: its packet is taken for one. */
  lemma {:induction false} SecondSectionIsMisread(section: Block, link: nat, rest: bytes, packet: Block)
    requires StartsSection(section) && packet.Packet? && packet.interface == 0 && link != ETHERNET
    ensures !Agrees([Interface(ETHERNET, rest), section, Interface(link, rest), packet], 3)
  {
    var first, second := Interface(ETHERNET, rest), Interface(link, rest);
    var blocks := [first, section, second, packet];
    assert blocks[..3] == [first, section, second] && blocks[..3][..2] == [first, section];
    assert blocks[..3][..2][..1] == [first] && blocks[..3][..2][..1][..0] == [];
    assert Declared([first]) == [ETHERNET] && OwnInterfaces([first, section]) == [];
    assert Declared([first, section]) == [ETHERNET];
    assert Declared(blocks[..3]) == [ETHERNET, link] && OwnInterfaces(blocks[..3]) == [link];
  }
}
