/** Sorting captured TCP packets into flows: which flow a packet belongs to, which side sent it,
    and what is kept of it. */
module FlowTable {
  import opened Base
  import opened Conversation
  import opened Reassembly

  datatype Endpoint = Endpoint(address: bytes, port: nat)

  datatype FlowKey = FlowKey(client: Endpoint, server: Endpoint)

  datatype Packet = Packet(source: Endpoint, target: Endpoint, start: nat, payload: bytes)

  datatype Event = Event(direction: Direction, start: nat, payload: bytes)

  /** What is kept of one flow. */
  datatype Segments = Segments(client: map<nat, bytes>, server: map<nat, bytes>, duplicate: nat, events: seq<Event>)

  /** The flows seen so far, in the order of their first packets. */
  datatype Table = Table(order: seq<FlowKey>, flows: map<FlowKey, Segments>)

  const NO_SEGMENTS: Segments := Segments(map[], map[], 0, [])

  function Flip(k: FlowKey): FlowKey
  {
    FlowKey(k.server, k.client)
  }

  function Direct(p: Packet): FlowKey
  {
    FlowKey(p.source, p.target)
  }

  function Side(s: Segments, d: Direction): map<nat, bytes>
  {
    if d == ClientToServer then s.client else s.server
  }

  function WithSide(s: Segments, d: Direction, m: map<nat, bytes>): Segments
  {
    if d == ClientToServer then s.(client := m) else s.(server := m)
  }

  /** Keep a packet of a flow: an empty one is ignored, the first with its number is stored, and a
      later one with the same number is counted as repeated as far as the stored one goes. */
  function Record(s: Segments, d: Direction, p: Packet): Segments
  {
    if p.payload == [] then s
    else
      var seen := s.(events := s.events + [Event(d, p.start, p.payload)]);
      var stored := Side(s, d);
      if p.start in stored then
        seen.(duplicate := s.duplicate + Min(|stored[p.start]|, |p.payload|))
      else
        WithSide(seen, d, stored[p.start := p.payload])
  }

  /** The flow a packet belongs to: the one of its own direction, else the opposite one, else a new
      one whose client is the sender. */
  function Take(t: Table, p: Packet): Table
  {
    var direct := Direct(p);
    if direct in t.flows then
      t.(flows := t.flows[direct := Record(t.flows[direct], ClientToServer, p)])
    else if Flip(direct) in t.flows then
      t.(flows := t.flows[Flip(direct) := Record(t.flows[Flip(direct)], ServerToClient, p)])
    else
      Table(t.order + [direct], t.flows[direct := Record(NO_SEGMENTS, ClientToServer, p)])
  }

  function After(list: seq<Packet>): Table
  {
    if list == [] then Table([], map[])
    else Take(After(list[..|list| - 1]), list[|list| - 1])
  }

  // ----- A flow on its own

  predicate Concerns(k: FlowKey, p: Packet)
  {
    Direct(p) == k || Direct(p) == Flip(k)
  }

  function DirectionOf(k: FlowKey, p: Packet): Direction
  {
    if Direct(p) == k then ClientToServer else ServerToClient
  }

  /** The direction of the first packet between the two endpoints of `k`. */
  function Opener(list: seq<Packet>, k: FlowKey): Option<FlowKey>
  {
    if list == [] then None
    else
      var earlier := Opener(list[..|list| - 1], k);
      if earlier.None? && Concerns(k, list[|list| - 1]) then Some(Direct(list[|list| - 1])) else earlier
  }

  /** The packets between the endpoints of `k`, taken as a flow whose client is `k.client`. */
  function Gather(k: FlowKey, list: seq<Packet>): Segments
  {
    if list == [] then NO_SEGMENTS
    else
      var earlier, p := Gather(k, list[..|list| - 1]), list[|list| - 1];
      if Concerns(k, p) then Record(earlier, DirectionOf(k, p), p) else earlier
  }

  lemma {:induction false} UnopenedIsEmpty(list: seq<Packet>, k: FlowKey)
    requires Opener(list, k).None?
    ensures Gather(k, list) == NO_SEGMENTS
  {
    if list != [] {
      UnopenedIsEmpty(list[..|list| - 1], k);
    }
  }

  lemma {:induction false} OpenerIgnoresOrientation(list: seq<Packet>, k: FlowKey)
    ensures Opener(list, k) == Opener(list, Flip(k))
    ensures Opener(list, k).Some? ==> Opener(list, k).value == k || Opener(list, k).value == Flip(k)
  {
    if list != [] {
      OpenerIgnoresOrientation(list[..|list| - 1], k);
    }
  }

  /** The table separates the flows: the entry of a key holds exactly the packets between its two
      endpoints, and there is an entry exactly for the key whose client sent the first of them. */
  lemma {:induction false} EachFlowIsGathered(list: seq<Packet>, k: FlowKey)
    ensures k in After(list).flows <==> Opener(list, k) == Some(k)
    ensures k in After(list).flows ==> After(list).flows[k] == Gather(k, list)
    decreases |list|
  {
    if list != [] {
      var init, p := list[..|list| - 1], list[|list| - 1];
      EachFlowIsGathered(init, k);
      EachFlowIsGathered(init, Flip(k));
      OpenerIgnoresOrientation(init, k);
      if Opener(init, k).None? {
        UnopenedIsEmpty(init, k);
      }
    }
  }

  /** No connection is split in two: a key and its reverse are never both in the table. */
  lemma NeverBothDirections(list: seq<Packet>, k: FlowKey)
    requires k in After(list).flows && Flip(k) in After(list).flows
    ensures k == Flip(k)
  {
    EachFlowIsGathered(list, k);
    EachFlowIsGathered(list, Flip(k));
    OpenerIgnoresOrientation(list, k);
  }

  /** The packets of a flow go from its client to its server or back. */
  lemma {:induction false} ConcernsMeans(k: FlowKey, p: Packet)
    ensures Concerns(k, p)
       <==> (p.source == k.client && p.target == k.server) || (p.source == k.server && p.target == k.client)
    ensures DirectionOf(k, p) == ClientToServer <==> p.source == k.client && p.target == k.server
  {
  }

  /** Both directions of a conversation share one entry, unless an endpoint talks to itself. */
  lemma {:induction false} ConversationHasOneFlow(list: seq<Packet>, p: Packet)
    requires p in list
    ensures var there, back := FlowKey(p.source, p.target), FlowKey(p.target, p.source);
            && (there in After(list).flows || back in After(list).flows)
            && (p.source != p.target ==> !(there in After(list).flows && back in After(list).flows))
  {
    var there, back := FlowKey(p.source, p.target), FlowKey(p.target, p.source);
    OpenedBy(list, there, p);
    EachFlowIsGathered(list, there);
    EachFlowIsGathered(list, back);
    OpenerIgnoresOrientation(list, there);
  }

  lemma {:induction false} OpenedBy(list: seq<Packet>, k: FlowKey, p: Packet)
    requires p in list && Concerns(k, p)
    ensures Opener(list, k).Some?
  {
    var init := list[..|list| - 1];
    if p != list[|list| - 1] {
      assert p in init;
      OpenedBy(init, k, p);
    }
  }

  ghost predicate Distinct(order: seq<FlowKey>)
  {
    forall i, j :: 0 <= i < j < |order| ==> order[i] != order[j]
  }

  /** The order lists every flow of the table once. */
  lemma {:induction false} OrderListsFlows(list: seq<Packet>)
    ensures Distinct(After(list).order)
    ensures forall k :: k in After(list).order <==> k in After(list).flows
  {
    if list != [] {
      OrderListsFlows(list[..|list| - 1]);
      var before, after := After(list[..|list| - 1]), After(list);
      var direct := Direct(list[|list| - 1]);
      if after.order != before.order {
        assert after.order == before.order + [direct];
        assert direct !in before.order;
      }
    }
  }

  // ----- What is stored

  predicate Carries(k: FlowKey, d: Direction, start: nat, p: Packet)
  {
    Concerns(k, p) && DirectionOf(k, p) == d && p.start == start && p.payload != []
  }

  /** The payload of the first packet of a direction with a given sequence number. */
  function FirstWith(list: seq<Packet>, k: FlowKey, d: Direction, start: nat): Option<bytes>
  {
    if list == [] then None
    else
      var earlier := FirstWith(list[..|list| - 1], k, d, start);
      if earlier.None? && Carries(k, d, start, list[|list| - 1]) then Some(list[|list| - 1].payload) else earlier
  }

  lemma {:induction false} SideStoresFirst(list: seq<Packet>, k: FlowKey, d: Direction, start: nat)
    ensures var stored := Side(Gather(k, list), d);
            && (start in stored <==> FirstWith(list, k, d, start).Some?)
            && (start in stored ==> FirstWith(list, k, d, start) == Some(stored[start]))
  {
    if list != [] {
      SideStoresFirst(list[..|list| - 1], k, d, start);
    }
  }

  lemma {:induction false} FirstWithIsAPacket(list: seq<Packet>, k: FlowKey, d: Direction, start: nat)
    ensures FirstWith(list, k, d, start).Some? <==> exists p :: p in list && Carries(k, d, start, p)
    ensures FirstWith(list, k, d, start).Some?
        ==> exists p :: p in list && Carries(k, d, start, p) && p.payload == FirstWith(list, k, d, start).value
  {
    if list != [] {
      var init, last := list[..|list| - 1], list[|list| - 1];
      FirstWithIsAPacket(init, k, d, start);
      assert list == init + [last];
      assert forall p :: p in list <==> p in init || p == last;
    }
  }

  // ----- Counting bytes

  /** The payload bytes exchanged between the two endpoints of a key. */
  function Carried(k: FlowKey, list: seq<Packet>): nat
  {
    if list == [] then 0
    else Carried(k, list[..|list| - 1]) + CarriedBy(k, list[|list| - 1])
  }

  function CarriedBy(k: FlowKey, p: Packet): nat
  {
    if Concerns(k, p) then |p.payload| else 0
  }

  /** The bytes by which a packet is longer than the stored one with its sequence number. */
  function Surplus(s: Segments, k: FlowKey, p: Packet): nat
  {
    if Concerns(k, p) && p.payload != [] && p.start in Side(s, DirectionOf(k, p)) then
      |p.payload| - Min(|Side(s, DirectionOf(k, p))[p.start]|, |p.payload|)
    else 0
  }

  function Excess(k: FlowKey, list: seq<Packet>): nat
  {
    if list == [] then 0
    else
      var init := list[..|list| - 1];
      Excess(k, init) + Surplus(Gather(k, init), k, list[|list| - 1])
  }

  function Weight(s: Segments): nat
  {
    Held(s.client) + Held(s.server) + s.duplicate
  }

  lemma RecordWeighs(s: Segments, k: FlowKey, p: Packet)
    requires Concerns(k, p)
    ensures Weight(Record(s, DirectionOf(k, p), p)) + Surplus(s, k, p) == Weight(s) + |p.payload|
  {
    var d := DirectionOf(k, p);
    if p.payload != [] && p.start !in Side(s, d) {
      HeldAfterInsert(Side(s, d), p.start, p.payload);
    }
  }

  lemma {:induction false} GatherWeighs(k: FlowKey, list: seq<Packet>)
    ensures Weight(Gather(k, list)) + Excess(k, list) == Carried(k, list)
  {
    if list == [] {
      NothingHeld();
    } else {
      var init, p := list[..|list| - 1], list[|list| - 1];
      GatherWeighs(k, init);
      if Concerns(k, p) {
        RecordWeighs(Gather(k, init), k, p);
      }
    }
  }

  lemma NothingHeld()
    ensures Held(map[]) == 0 && Assemble(map[]) == Stream([], 0, false)
  {
    var none: map<nat, bytes> := map[];
    assert none.Keys == {};
    assert InOrder(none) == [];
  }

  /** No packet is longer than the first one of its direction with its sequence number. */
  ghost predicate NoLongerRepeat(k: FlowKey, list: seq<Packet>)
  {
    forall p :: p in list && Concerns(k, p) && p.payload != [] ==> NotLonger(k, list, p)
  }

  ghost predicate NotLonger(k: FlowKey, list: seq<Packet>, p: Packet)
  {
    var first := FirstWith(list, k, DirectionOf(k, p), p.start);
    first.Some? ==> |p.payload| <= |first.value|
  }

  lemma {:induction false} ExcessMeansLongerRepeat(k: FlowKey, list: seq<Packet>)
    ensures Excess(k, list) == 0 <==> NoLongerRepeat(k, list)
  {
    if list != [] {
      var init, last := list[..|list| - 1], list[|list| - 1];
      ExcessMeansLongerRepeat(k, init);
      assert list == init + [last];
      assert forall p :: p in list <==> p in init || p == last;
      forall p | p in init && Concerns(k, p) && p.payload != []
        ensures NotLonger(k, list, p) <==> NotLonger(k, init, p)
      {
        FirstWithIsAPacket(init, k, DirectionOf(k, p), p.start);
        assert Carries(k, DirectionOf(k, p), p.start, p);
      }
      SurplusOfLast(k, init, last);
    }
  }

  lemma SurplusOfLast(k: FlowKey, init: seq<Packet>, last: Packet)
    ensures Surplus(Gather(k, init), k, last) == 0
       <==> (Concerns(k, last) && last.payload != [] ==> NotLonger(k, init + [last], last))
  {
    var list := init + [last];
    assert list[..|list| - 1] == init && list[|list| - 1] == last;
    SideStoresFirst(init, k, DirectionOf(k, last), last.start);
  }

  /** No segment runs past the end of the sequence space. */
  ghost predicate Unwrapped(k: FlowKey, list: seq<Packet>)
  {
    forall p :: p in list && Concerns(k, p) ==> p.start + |p.payload| < SEQUENCE_SPACE
  }

  lemma SidesDoNotWrap(k: FlowKey, list: seq<Packet>, d: Direction)
    requires Unwrapped(k, list)
    ensures NoWrap(Side(Gather(k, list), d))
  {
    var stored := Side(Gather(k, list), d);
    forall start | start in stored
      ensures 0 < |stored[start]| && start + |stored[start]| < SEQUENCE_SPACE
    {
      SideStoresFirst(list, k, d, start);
      FirstWithIsAPacket(list, k, d, start);
    }
  }

  /** What the analysis reports as repeated: while capturing and while reassembling. */
  function Retransmitted(s: Segments): nat
  {
    s.duplicate + Assemble(s.client).duplicate + Assemble(s.server).duplicate
  }

  lemma StreamWeighs(segments: map<nat, bytes>)
    requires NoWrap(segments)
    ensures |Assemble(segments).output| + Assemble(segments).duplicate == Held(segments)
  {
    if segments == map[] {
      NothingHeld();
    } else {
      ReassemblyMeans(segments);
    }
  }

  /** Conservation: what the two streams hold, what is reported as repeated, and the excess of
      longer repetitions together are all payload bytes of the flow. So the first two account for
      every byte exactly when no packet repeats a sequence number with more data. */
  lemma FlowConservesBytes(list: seq<Packet>, k: FlowKey)
    requires k in After(list).flows && Unwrapped(k, list)
    ensures var s := After(list).flows[k];
            var accounted := |Assemble(s.client).output| + |Assemble(s.server).output| + Retransmitted(s);
            && accounted + Excess(k, list) == Carried(k, list)
            && (accounted == Carried(k, list) <==> NoLongerRepeat(k, list))
  {
    EachFlowIsGathered(list, k);
    GatherWeighs(k, list);
    ExcessMeansLongerRepeat(k, list);
    SidesDoNotWrap(k, list, ClientToServer);
    SidesDoNotWrap(k, list, ServerToClient);
    var s := Gather(k, list);
    StreamWeighs(s.client);
    StreamWeighs(s.server);
  }

  /** A repetition that carries more data than the stored segment loses the difference. */
  lemma LongerRepeatIsLost(a: Endpoint, b: Endpoint)
    requires a != b
    ensures var k := FlowKey(a, b);
            var list := [Packet(a, b, 7, [1]), Packet(a, b, 7, [1, 2, 3])];
            && k in After(list).flows && !NoLongerRepeat(k, list)
            && Excess(k, list) == 2 && Carried(k, list) == 4
  {
    var k := FlowKey(a, b);
    var first, second := Packet(a, b, 7, [1]), Packet(a, b, 7, [1, 2, 3]);
    var list := [first, second];
    assert list[..1] == [first] && [first][..0] == [];
    assert Gather(k, [first]) == Record(NO_SEGMENTS, ClientToServer, first);
    assert After([first]).flows == map[k := Record(NO_SEGMENTS, ClientToServer, first)];
    assert Carried(k, [first]) == 1;
    assert Excess(k, [first]) == 0;
    ExcessMeansLongerRepeat(k, list);
  }

  // ----- Arrival order

  predicate SameSlot(p: Packet, q: Packet)
  {
    Direct(p) == Direct(q) && p.start == q.start && p.payload != [] && q.payload != []
  }

  /** Packets of one direction with the same sequence number carry the same data. */
  ghost predicate Agreeing(k: FlowKey, list: seq<Packet>)
  {
    forall p, q :: p in list && q in list && Concerns(k, p) && SameSlot(p, q) ==> p.payload == q.payload
  }

  lemma {:induction false} CarriedWithout(k: FlowKey, list: seq<Packet>, i: nat)
    requires i < |list|
    ensures Carried(k, list) == Carried(k, list[..i] + list[i + 1..]) + CarriedBy(k, list[i])
  {
    var init, last := list[..|list| - 1], list[|list| - 1];
    if i == |list| - 1 {
      assert list[..i] + list[i + 1..] == init;
    } else {
      CarriedWithout(k, init, i);
      var rest := list[..i] + list[i + 1..];
      assert rest[..|rest| - 1] == init[..i] + init[i + 1..];
    }
  }

  /** A sequence is one of its elements and the others. */
  lemma {:induction false} TakeOut(b: seq<Packet>, i: nat)
    requires i < |b|
    ensures multiset(b) == multiset(b[..i] + b[i + 1..]) + multiset{b[i]}
  {
    assert b == b[..i] + [b[i]] + b[i + 1..];
  }

  lemma {:induction false} WithoutOne(x: multiset<Packet>, y: multiset<Packet>, p: Packet)
    requires x + multiset{p} == y + multiset{p}
    ensures x == y
  {
    assert x == x + multiset{p} - multiset{p};
    assert y == y + multiset{p} - multiset{p};
  }

  lemma {:induction false} OtherPlace(a: seq<Packet>, b: seq<Packet>) returns (i: nat)
    requires multiset(a) == multiset(b) && a != []
    ensures i < |b| && b[i] == a[|a| - 1]
    ensures multiset(a[..|a| - 1]) == multiset(b[..i] + b[i + 1..])
  {
    var n := |a| - 1;
    assert a[n] in multiset(b);
    i :| 0 <= i < |b| && b[i] == a[n];
    TakeOut(a, n);
    TakeOut(b, i);
    assert a[..n] + a[n + 1..] == a[..n];
    WithoutOne(multiset(a[..n]), multiset(b[..i] + b[i + 1..]), a[n]);
  }

  lemma {:induction false} CarriedIgnoresOrder(k: FlowKey, a: seq<Packet>, b: seq<Packet>)
    requires multiset(a) == multiset(b)
    ensures Carried(k, a) == Carried(k, b)
    decreases |a|
  {
    if a == [] {
      assert |multiset(b)| == 0;
    } else {
      var i := OtherPlace(a, b);
      CarriedWithout(k, b, i);
      CarriedIgnoresOrder(k, a[..|a| - 1], b[..i] + b[i + 1..]);
    }
  }

  lemma AgreeingHasNoExcess(k: FlowKey, list: seq<Packet>)
    requires Agreeing(k, list)
    ensures Excess(k, list) == 0
  {
    forall p | p in list && Concerns(k, p) && p.payload != []
      ensures NotLonger(k, list, p)
    {
      FirstWithIsAPacket(list, k, DirectionOf(k, p), p.start);
    }
    ExcessMeansLongerRepeat(k, list);
  }

  lemma FirstIgnoresOrder(k: FlowKey, a: seq<Packet>, b: seq<Packet>, d: Direction, start: nat)
    requires multiset(a) == multiset(b) && Agreeing(k, a)
    ensures FirstWith(a, k, d, start) == FirstWith(b, k, d, start)
  {
    FirstWithIsAPacket(a, k, d, start);
    FirstWithIsAPacket(b, k, d, start);
    forall p
      ensures p in a <==> p in b
    {
      assert p in a <==> p in multiset(a);
      assert p in b <==> p in multiset(b);
    }
  }

  lemma SidesIgnoreOrder(k: FlowKey, a: seq<Packet>, b: seq<Packet>, d: Direction)
    requires multiset(a) == multiset(b) && Agreeing(k, a)
    ensures Side(Gather(k, a), d) == Side(Gather(k, b), d)
  {
    var x, y := Side(Gather(k, a), d), Side(Gather(k, b), d);
    forall start: nat
      ensures start in x <==> start in y
      ensures start in x ==> x[start] == y[start]
    {
      SideStoresFirst(a, k, d, start);
      SideStoresFirst(b, k, d, start);
      FirstIgnoresOrder(k, a, b, d, start);
    }
    assert x.Keys == y.Keys;
  }

  lemma AgreeingIgnoresOrder(k: FlowKey, a: seq<Packet>, b: seq<Packet>)
    requires multiset(a) == multiset(b) && Agreeing(k, a)
    ensures Agreeing(k, b)
  {
    forall p
      ensures p in a <==> p in b
    {
      assert p in a <==> p in multiset(a);
      assert p in b <==> p in multiset(b);
    }
  }

  /** Arrival order does not matter. When repeated segments agree, any reordering that keeps the
      direction of the flow's first packet keeps the flow, both of its streams and the number of
      bytes reported as repeated. */
  lemma ArrivalOrderDoesNotMatter(a: seq<Packet>, b: seq<Packet>, k: FlowKey)
    requires multiset(a) == multiset(b) && Agreeing(k, a) && Opener(a, k) == Opener(b, k)
    ensures k in After(a).flows <==> k in After(b).flows
    ensures k in After(a).flows ==>
              var s, t := After(a).flows[k], After(b).flows[k];
              && Assemble(s.client) == Assemble(t.client) && Assemble(s.server) == Assemble(t.server)
              && s.duplicate == t.duplicate && Retransmitted(s) == Retransmitted(t)
  {
    EachFlowIsGathered(a, k);
    EachFlowIsGathered(b, k);
    SidesIgnoreOrder(k, a, b, ClientToServer);
    SidesIgnoreOrder(k, a, b, ServerToClient);
    AgreeingIgnoresOrder(k, a, b);
    AgreeingHasNoExcess(k, a);
    AgreeingHasNoExcess(k, b);
    GatherWeighs(k, a);
    GatherWeighs(k, b);
    CarriedIgnoresOrder(k, a, b);
  }
}
