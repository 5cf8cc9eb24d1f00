/** Replaying captured flows: which flow sets are accepted, how the responder recognises a flow
    byte by byte, and the two peers as processes over bounded channels. */
module Replay {
  import opened Base
  import opened Conversation

  type Flow = seq<Turn>

  // ----- Accepted flow sets

  predicate Starts(flow: Flow)
  {
    flow != [] && flow[0].direction == ClientToServer && flow[0].payload != []
  }

  /** One of the two payloads is a prefix of the other. */
  predicate Ambiguous(a: bytes, b: bytes)
  {
    a <= b || b <= a
  }

  ghost predicate Valid(flows: seq<Flow>)
  {
    && (forall i :: 0 <= i < |flows| ==> Starts(flows[i]))
    && (forall i, j :: 0 <= i < |flows| && 0 <= j < |flows| && i != j ==>
          !Ambiguous(flows[i][0].payload, flows[j][0].payload))
  }

  datatype Verdict = Accepted | NoTurns(flow: nat) | BadFirstTurn(flow: nat) | AmbiguousPair(flow: nat, other: nat)

  /** Accepts exactly the valid flow sets; a refusal names a flow or a pair that breaks the rules. */
  method ValidateFlows(flows: seq<Flow>) returns (v: Verdict)
    ensures v.Accepted? <==> Valid(flows)
    ensures v.NoTurns? ==> v.flow < |flows| && flows[v.flow] == []
    ensures v.BadFirstTurn? ==> v.flow < |flows| && flows[v.flow] != [] && !Starts(flows[v.flow])
    ensures v.AmbiguousPair? ==> v.flow < |flows| && v.other < |flows| && v.flow != v.other
                                 && flows[v.flow] != [] && flows[v.other] != []
                                 && Ambiguous(flows[v.flow][0].payload, flows[v.other][0].payload)
  {
    for i := 0 to |flows|
      invariant forall k :: 0 <= k < i ==> Starts(flows[k])
      invariant forall k, j :: 0 <= k < i && 0 <= j < |flows| && k != j && flows[j] != [] ==>
                  !Ambiguous(flows[k][0].payload, flows[j][0].payload)
    {
      if flows[i] == [] {
        return NoTurns(i);
      }
      var first := flows[i][0];
      if first.direction != ClientToServer || first.payload == [] {
        return BadFirstTurn(i);
      }
      for j := 0 to |flows|
        invariant forall l :: 0 <= l < j && i != l && flows[l] != [] ==> !Ambiguous(first.payload, flows[l][0].payload)
      {
        if i != j && flows[j] != [] && (first.payload <= flows[j][0].payload || flows[j][0].payload <= first.payload) {
          return AmbiguousPair(i, j);
        }
      }
    }
    v := Accepted;
  }

  // ----- Recognising the flow

  function Range(n: nat): seq<nat>
  {
    seq(n, i => i)
  }

  predicate InBounds(list: seq<nat>, n: nat)
  {
    forall i :: 0 <= i < |list| ==> list[i] < n
  }

  predicate Begun(flows: seq<Flow>)
  {
    forall i :: 0 <= i < |flows| ==> flows[i] != []
  }

  /** The candidates whose first payload starts with `received`, in their order. */
  function Retain(flows: seq<Flow>, list: seq<nat>, received: bytes): (r: seq<nat>)
    requires Begun(flows) && InBounds(list, |flows|)
    ensures InBounds(r, |flows|)
    ensures forall k :: k in r <==> k in list && received <= flows[k][0].payload
  {
    if list == [] then []
    else (if received <= flows[list[0]][0].payload then [list[0]] else []) + Retain(flows, list[1..], received)
  }

  datatype Step = Continue(candidates: seq<nat>) | Chosen(flow: nat) | NoMatch

  /** The decision after one more byte. */
  function Narrow(flows: seq<Flow>, candidates: seq<nat>, received: bytes): (r: Step)
    requires Begun(flows) && InBounds(candidates, |flows|)
    ensures r.Continue? ==> InBounds(r.candidates, |flows|)
    ensures r.Chosen? ==> r.flow < |flows|
  {
    var left := Retain(flows, candidates, received);
    if left == [] then NoMatch
    else if |left| == 1 && |flows[left[0]][0].payload| == |received| then Chosen(left[0])
    else Continue(left)
  }

  lemma {:induction false} RetainTwice(flows: seq<Flow>, list: seq<nat>, shorter: bytes, longer: bytes)
    requires Begun(flows) && InBounds(list, |flows|) && shorter <= longer
    ensures Retain(flows, Retain(flows, list, shorter), longer) == Retain(flows, list, longer)
  {
    if list != [] {
      RetainTwice(flows, list[1..], shorter, longer);
      var rest := Retain(flows, list[1..], shorter);
      if shorter <= flows[list[0]][0].payload {
        assert ([list[0]] + rest)[1..] == rest;
      } else {
        assert [] + rest == rest;
      }
    }
  }

  /** A candidate list without repetitions in which only `k` matches narrows to `k`. */
  lemma {:induction false} RetainOnly(flows: seq<Flow>, list: seq<nat>, received: bytes, k: nat)
    requires Begun(flows) && InBounds(list, |flows|) && k < |flows|
    requires forall i, j :: 0 <= i < j < |list| ==> list[i] != list[j]
    requires forall i :: 0 <= i < |list| ==> (received <= flows[list[i]][0].payload <==> list[i] == k)
    ensures Retain(flows, list, received) == if k in list then [k] else []
  {
    if list != [] {
      RetainOnly(flows, list[1..], received, k);
      if list[0] == k {
        assert k !in list[1..];
      }
    }
  }

  datatype Detection = Detected(flow: nat, consumed: nat) | Unknown(consumed: nat) | Starved

  /** What has been read can still become the first payload of some flow. */
  ghost predicate Promising(flows: seq<Flow>, received: bytes)
    requires Begun(flows)
  {
    exists k :: 0 <= k < |flows| && received <= flows[k][0].payload
  }

  lemma {:induction false} RetainAll(flows: seq<Flow>, list: seq<nat>)
    requires Begun(flows) && InBounds(list, |flows|)
    ensures Retain(flows, list, []) == list
  {
    if list != [] {
      RetainAll(flows, list[1..]);
    }
  }

  /** Narrowing the candidates of a prefix is narrowing all flows. */
  lemma NarrowAfter(flows: seq<Flow>, received: bytes, b: byte)
    requires Begun(flows)
    ensures Narrow(flows, Retain(flows, Range(|flows|), received), received + [b])
         == Narrow(flows, Range(|flows|), received + [b])
  {
    RetainTwice(flows, Range(|flows|), received, received + [b]);
  }

  /** Once the whole first payload of `k` has arrived, `k` is the only candidate. */
  lemma WholePayloadDecides(flows: seq<Flow>, k: nat)
    requires Valid(flows) && k < |flows|
    ensures Retain(flows, Range(|flows|), flows[k][0].payload) == [k]
  {
    RetainOnly(flows, Range(|flows|), flows[k][0].payload, k);
    assert Range(|flows|)[k] == k;
  }

  /** A decision for `k` is only made on exactly the first payload of `k`. */
  lemma DecisionIsExact(flows: seq<Flow>, received: bytes)
    requires Valid(flows)
    ensures var step := Narrow(flows, Range(|flows|), received);
            && (step.NoMatch? <==> !Promising(flows, received))
            && (step.Chosen? ==> received == flows[step.flow][0].payload)
            && (step.Continue? ==> forall k :: 0 <= k < |flows| ==> received != flows[k][0].payload)
  {
    var left := Retain(flows, Range(|flows|), received);
    forall k | 0 <= k < |flows| && received <= flows[k][0].payload
      ensures k in left
    {
      assert Range(|flows|)[k] == k;
    }
    if left != [] {
      assert left[0] in left;
    }
    forall k | 0 <= k < |flows| && received == flows[k][0].payload
      ensures left == [k]
    {
      WholePayloadDecides(flows, k);
    }
  }

  /** The right outcome of detection on a byte stream. `k` is picked exactly when the stream starts
      with the first payload of `k`, and then exactly that payload is consumed; detection gives up
      exactly at the first byte after which no flow fits; otherwise the stream ends too early. */
  ghost predicate RightOutcome(flows: seq<Flow>, stream: bytes, d: Detection)
    requires Begun(flows)
  {
    match d
    case Detected(k, consumed) =>
      && k < |flows| && flows[k][0].payload <= stream && consumed == |flows[k][0].payload|
      && OnlyFit(flows, stream, k)
    case Unknown(consumed) =>
      && 0 < consumed <= |stream| && NoneComplete(flows, stream)
      && !Promising(flows, stream[..consumed])
      && (consumed > 1 ==> Promising(flows, stream[..consumed - 1]))
    case Starved => NoneComplete(flows, stream) && (stream == [] || Promising(flows, stream))
  }

  ghost predicate OnlyFit(flows: seq<Flow>, stream: bytes, k: nat)
    requires Begun(flows)
  {
    forall j :: 0 <= j < |flows| && flows[j][0].payload <= stream ==> j == k
  }

  lemma {:induction false} PromisingEarlier(flows: seq<Flow>, stream: bytes, at: nat, end: nat)
    requires Begun(flows) && at <= end <= |stream| && Promising(flows, stream[..end])
    ensures Promising(flows, stream[..at])
  {
    var k :| 0 <= k < |flows| && stream[..end] <= flows[k][0].payload;
    assert stream[..at] <= stream[..end];
    assert stream[..at] <= flows[k][0].payload;
  }

  lemma {:induction false} PromisingBefore(flows: seq<Flow>, stream: bytes, a: nat, b: nat)
    requires Begun(flows) && RightOutcome(flows, stream, Unknown(a)) && 0 < b < a
    ensures Promising(flows, stream[..b])
  {
    PromisingEarlier(flows, stream, b, a - 1);
  }

  lemma {:induction false} GivesUpOnce(flows: seq<Flow>, stream: bytes, a: nat, b: nat)
    requires Begun(flows) && RightOutcome(flows, stream, Unknown(a)) && RightOutcome(flows, stream, Unknown(b))
    ensures a <= b
  {
    if b < a {
      PromisingBefore(flows, stream, a, b);
    }
  }

  lemma {:induction false} GivesUpOrStarves(flows: seq<Flow>, stream: bytes, a: nat)
    requires Begun(flows) && RightOutcome(flows, stream, Unknown(a))
    ensures !RightOutcome(flows, stream, Starved)
  {
    if RightOutcome(flows, stream, Starved) {
      assert stream[..|stream|] == stream;
      PromisingEarlier(flows, stream, a, |stream|);
    }
  }

  /** Every byte stream has one right outcome. */
  lemma {:induction false} RightOutcomeIsOne(flows: seq<Flow>, stream: bytes, a: Detection, b: Detection)
    requires Begun(flows) && RightOutcome(flows, stream, a) && RightOutcome(flows, stream, b)
    ensures a == b
  {
    if a.Unknown? && b.Unknown? {
      GivesUpOnce(flows, stream, a.consumed, b.consumed);
      GivesUpOnce(flows, stream, b.consumed, a.consumed);
    } else if a.Unknown? {
      GivesUpOrStarves(flows, stream, a.consumed);
    } else if b.Unknown? {
      GivesUpOrStarves(flows, stream, b.consumed);
    }
  }

  /** The responder's detection on any incoming byte stream. */
  method ReplayServerDetect(flows: seq<Flow>, stream: bytes) returns (d: Detection)
    requires Valid(flows)
    ensures RightOutcome(flows, stream, d)
  {
    var received: bytes := [];
    var candidates := Range(|flows|);
    StartSearching(flows, stream);
    var at := 0;
    while at < |stream|
      invariant 0 <= at <= |stream| && received == stream[..at]
      invariant candidates == Retain(flows, Range(|flows|), stream[..at])
      invariant Searching(flows, stream, at)
    {
      received := received + [stream[at]];
      var step := Narrow(flows, candidates, received);
      DetectOne(flows, stream, at, candidates, received, step);
      at := at + 1;
      match step {
        case NoMatch => return Unknown(at);
        case Chosen(k) => return Detected(k, at);
        case Continue(left) => candidates := left;
      }
    }
    SearchEnds(flows, stream);
    d := Starved;
  }

  lemma StartSearching(flows: seq<Flow>, stream: bytes)
    requires Valid(flows)
    ensures Range(|flows|) == Retain(flows, Range(|flows|), stream[..0]) && Searching(flows, stream, 0)
  {
    assert stream[..0] == [];
    RetainAll(flows, Range(|flows|));
  }

  lemma SearchEnds(flows: seq<Flow>, stream: bytes)
    requires Valid(flows) && Searching(flows, stream, |stream|)
    ensures RightOutcome(flows, stream, Starved)
  {
    assert stream[..|stream|] == stream;
  }

  ghost predicate Searching(flows: seq<Flow>, stream: bytes, at: nat)
    requires Begun(flows) && at <= |stream|
  {
    NoneComplete(flows, stream[..at]) && (at > 0 ==> Promising(flows, stream[..at]))
  }

  lemma PrefixGrows(stream: bytes, at: nat)
    requires at < |stream|
    ensures stream[..at] + [stream[at]] == stream[..at + 1]
  {
  }

  lemma UnknownIsRight(flows: seq<Flow>, stream: bytes, at: nat)
    requires Valid(flows) && at < |stream| && Searching(flows, stream, at)
    requires Narrow(flows, Range(|flows|), stream[..at + 1]).NoMatch?
    ensures RightOutcome(flows, stream, Unknown(at + 1))
  {
    DecisionIsExact(flows, stream[..at + 1]);
    NothingFits(flows, stream, at + 1);
  }

  lemma DetectedIsRight(flows: seq<Flow>, stream: bytes, at: nat)
    requires Valid(flows) && at < |stream|
    requires Narrow(flows, Range(|flows|), stream[..at + 1]).Chosen?
    ensures RightOutcome(flows, stream, Detected(Narrow(flows, Range(|flows|), stream[..at + 1]).flow, at + 1))
  {
    DecisionIsExact(flows, stream[..at + 1]);
    OnlyOneFits(flows, stream, Narrow(flows, Range(|flows|), stream[..at + 1]).flow);
  }

  lemma ContinueIsRight(flows: seq<Flow>, stream: bytes, at: nat)
    requires Valid(flows) && at < |stream| && Searching(flows, stream, at)
    requires Narrow(flows, Range(|flows|), stream[..at + 1]).Continue?
    ensures Searching(flows, stream, at + 1)
  {
    DecisionIsExact(flows, stream[..at + 1]);
    StillNoneComplete(flows, stream, at + 1);
  }

  lemma {:induction false} StepIsRight(flows: seq<Flow>, stream: bytes, at: nat, step: Step)
    requires Valid(flows) && at < |stream| && Searching(flows, stream, at)
    requires step == Narrow(flows, Range(|flows|), stream[..at + 1])
    ensures step.NoMatch? ==> RightOutcome(flows, stream, Unknown(at + 1))
    ensures step.Chosen? ==> RightOutcome(flows, stream, Detected(step.flow, at + 1))
    ensures step.Continue? ==> Searching(flows, stream, at + 1)
  {
    match step
    case NoMatch => UnknownIsRight(flows, stream, at);
    case Chosen(_) => DetectedIsRight(flows, stream, at);
    case Continue(_) => ContinueIsRight(flows, stream, at);
  }

  /** What one more byte of the stream decides. */
  lemma {:induction false} DetectOne(flows: seq<Flow>, stream: bytes, at: nat, candidates: seq<nat>, received: bytes,
                                     step: Step)
    requires Valid(flows) && at < |stream| && Searching(flows, stream, at) && InBounds(candidates, |flows|)
    requires candidates == Retain(flows, Range(|flows|), stream[..at]) && received == stream[..at] + [stream[at]]
    requires step == Narrow(flows, candidates, received)
    ensures received == stream[..at + 1]
    ensures step.NoMatch? ==> RightOutcome(flows, stream, Unknown(at + 1))
    ensures step.Chosen? ==> RightOutcome(flows, stream, Detected(step.flow, at + 1))
    ensures step.Continue? ==>
              Searching(flows, stream, at + 1) && step.candidates == Retain(flows, Range(|flows|), stream[..at + 1])
  {
    PrefixGrows(stream, at);
    NarrowAfter(flows, stream[..at], stream[at]);
    StepIsRight(flows, stream, at, step);
  }

  ghost predicate NoneComplete(flows: seq<Flow>, received: bytes)
    requires Begun(flows)
  {
    forall k :: 0 <= k < |flows| ==> !(flows[k][0].payload <= received)
  }

  lemma PrefixOfPrefix(p: bytes, stream: bytes, at: nat)
    requires p <= stream && at <= |stream|
    ensures |p| <= at ==> p <= stream[..at]
    ensures |p| >= at ==> stream[..at] <= p
    ensures |p| == at ==> p == stream[..at]
  {
  }

  lemma StillNoneComplete(flows: seq<Flow>, stream: bytes, at: nat)
    requires Begun(flows) && 0 < at <= |stream| && NoneComplete(flows, stream[..at - 1])
    requires forall k :: 0 <= k < |flows| ==> stream[..at] != flows[k][0].payload
    ensures NoneComplete(flows, stream[..at])
  {
    forall k | 0 <= k < |flows|
      ensures !(flows[k][0].payload <= stream[..at])
    {
      var p := flows[k][0].payload;
      if p <= stream[..at] {
        PrefixOfPrefix(p, stream, at - 1);
        PrefixOfPrefix(p, stream, at);
      }
    }
  }

  lemma NothingFits(flows: seq<Flow>, stream: bytes, at: nat)
    requires Begun(flows) && 0 < at <= |stream| && !Promising(flows, stream[..at])
    requires NoneComplete(flows, stream[..at - 1])
    ensures NoneComplete(flows, stream)
  {
    forall k | 0 <= k < |flows|
      ensures !(flows[k][0].payload <= stream)
    {
      var p := flows[k][0].payload;
      if p <= stream {
        PrefixOfPrefix(p, stream, at - 1);
        PrefixOfPrefix(p, stream, at);
      }
    }
  }

  lemma OnlyOneFits(flows: seq<Flow>, stream: bytes, k: nat)
    requires Valid(flows) && k < |flows| && flows[k][0].payload <= stream
    ensures OnlyFit(flows, stream, k)
  {
    forall j | 0 <= j < |flows| && flows[j][0].payload <= stream
      ensures j == k
    {
      PrefixOfPrefix(flows[j][0].payload, stream, |flows[k][0].payload|);
      PrefixOfPrefix(flows[k][0].payload, stream, |flows[j][0].payload|);
    }
  }

  // ----- Two peers over bounded channels

  /** A peer walking a turn list: the current turn and how many of its bytes have moved. */
  datatype Peer = Peer(turn: nat, moved: nat, tx: nat, rx: nat)

  datatype Server =
    | Detecting(received: bytes, candidates: seq<nat>)
    | Serving(flow: nat, peer: Peer)
    | Rejected

  /** `up` carries bytes to the responder, `down` to the client. */
  datatype Link = Link(client: Peer, server: Server, up: bytes, down: bytes)

  datatype Action = ClientActs | ServerActs

  function Finish(p: Peer, length: nat, sent: bool): Peer
  {
    Peer(p.turn + 1, 0, if sent then p.tx + length else p.tx, if sent then p.rx else p.rx + length)
  }

  /** The channel after a peer took one byte step of its turn: (peer, outgoing, incoming), or None
      when the peer has to wait. Counters change only when a whole turn is done. */
  function PeerStep(turns: Flow, p: Peer, sends: Direction, outgoing: bytes, incoming: bytes, capacity: nat)
    : Option<(Peer, bytes, bytes)>
  {
    if p.turn >= |turns| then None
    else
      var t := turns[p.turn];
      if p.moved >= |t.payload| then Some((Finish(p, |t.payload|, t.direction == sends), outgoing, incoming))
      else if t.direction == sends then
        if |outgoing| < capacity then Some((p.(moved := p.moved + 1), outgoing + [t.payload[p.moved]], incoming))
        else None
      else if incoming != [] then Some((p.(moved := p.moved + 1), outgoing, incoming[1..]))
      else None
  }

  function ClientStep(flow: Flow, l: Link, capacity: nat): Option<Link>
  {
    match PeerStep(flow, l.client, ClientToServer, l.up, l.down, capacity)
    case None => None
    case Some((p, up, down)) => Some(Link(p, l.server, up, down))
  }

  function ServerStep(flows: seq<Flow>, l: Link, capacity: nat): Option<Link>
    requires Begun(flows)
    requires l.server.Detecting? ==> InBounds(l.server.candidates, |flows|)
  {
    match l.server
    case Rejected => None
    case Detecting(received, candidates) =>
      if l.up == [] then None
      else
        var more := received + [l.up[0]];
        var server :=
          match Narrow(flows, candidates, more)
          case NoMatch => Rejected
          case Chosen(k) => Serving(k, Peer(1, 0, 0, |more|))
          case Continue(left) => Detecting(more, left);
        Some(Link(l.client, server, l.up[1..], l.down))
    case Serving(k, peer) =>
      if k >= |flows| then None
      else
        match PeerStep(flows[k], peer, ServerToClient, l.down, l.up, capacity)
        case None => None
        case Some((p, down, up)) => Some(Link(l.client, Serving(k, p), up, down))
  }

  function Opening(flows: seq<Flow>): Link
  {
    Link(Peer(0, 0, 0, 0), Detecting([], Range(|flows|)), [], [])
  }

  // ----- The script of a flow

  function Labelled(t: Turn): seq<(Direction, byte)>
  {
    seq(|t.payload|, i requires 0 <= i < |t.payload| => (t.direction, t.payload[i]))
  }

  /** All bytes of a flow in order, each with its direction. */
  function Script(flow: Flow): seq<(Direction, byte)>
  {
    if flow == [] then [] else Labelled(flow[0]) + Script(flow[1..])
  }

  function Carried(script: seq<(Direction, byte)>): bytes
  {
    seq(|script|, i requires 0 <= i < |script| => script[i].1)
  }

  function Offset(flow: Flow, turn: nat): nat
    requires turn <= |flow|
  {
    |Script(flow[..turn])|
  }

  function Total(flow: Flow, direction: Direction): nat
  {
    if flow == [] then 0
    else (if flow[0].direction == direction then |flow[0].payload| else 0) + Total(flow[1..], direction)
  }

  lemma {:induction false} ScriptConcat(a: Flow, b: Flow)
    ensures Script(a + b) == Script(a) + Script(b)
  {
    if a == [] {
      assert a + b == b;
    } else {
      assert (a + b)[1..] == a[1..] + b;
      ScriptConcat(a[1..], b);
    }
  }

  lemma {:induction false} TotalConcat(a: Flow, b: Flow, d: Direction)
    ensures Total(a + b, d) == Total(a, d) + Total(b, d)
  {
    if a == [] {
      assert a + b == b;
    } else {
      assert (a + b)[1..] == a[1..] + b;
      TotalConcat(a[1..], b, d);
    }
  }

  lemma {:induction false} ScriptAround(flow: Flow, turn: nat)
    requires turn < |flow|
    ensures Script(flow[..turn + 1]) == Script(flow[..turn]) + Labelled(flow[turn])
    ensures Script(flow) == Script(flow[..turn + 1]) + Script(flow[turn + 1..])
  {
    var before, here, after := flow[..turn], [flow[turn]], flow[turn + 1..];
    assert flow[..turn + 1] == before + here && flow == before + here + after;
    ScriptConcat(before, here);
    ScriptConcat(before + here, after);
    assert here[1..] == [] && Script(here) == Labelled(flow[turn]) + Script([]) == Labelled(flow[turn]);
  }

  lemma {:induction false} InTheMiddle(all: seq<(Direction, byte)>, before: seq<(Direction, byte)>,
                                       here: seq<(Direction, byte)>, after: seq<(Direction, byte)>)
    requires all == before + here + after
    ensures |before + here| == |before| + |here| <= |all|
    ensures forall m :: 0 <= m < |here| ==> all[|before| + m] == here[m]
  {
  }

  /** The bytes of a turn stand between two places of a script. */
  ghost predicate TurnAt(all: seq<(Direction, byte)>, from: nat, to: nat, t: Turn)
  {
    && to == from + |t.payload| <= |all|
    && forall m :: 0 <= m < |t.payload| ==> all[from + m] == (t.direction, t.payload[m])
  }

  lemma {:induction false} TurnStands(all: seq<(Direction, byte)>, before: seq<(Direction, byte)>, t: Turn,
                                      after: seq<(Direction, byte)>)
    requires all == before + Labelled(t) + after
    ensures TurnAt(all, |before|, |before + Labelled(t)|, t)
  {
    InTheMiddle(all, before, Labelled(t), after);
  }

  lemma {:induction false} OffsetNext(flow: Flow, turn: nat)
    requires turn < |flow|
    ensures TurnAt(Script(flow), Offset(flow, turn), Offset(flow, turn + 1), flow[turn])
  {
    ScriptAround(flow, turn);
    TurnStands(Script(flow), Script(flow[..turn]), flow[turn], Script(flow[turn + 1..]));
  }

  lemma TotalNext(flow: Flow, turn: nat, d: Direction)
    requires turn < |flow|
    ensures Total(flow[..turn + 1], d)
         == Total(flow[..turn], d) + if flow[turn].direction == d then |flow[turn].payload| else 0
  {
    OneMoreTurn(flow, turn, d);
  }

  // ----- One peer on its own

  /** The payloads of one direction, in order. */
  function Payloads(flow: Flow, direction: Direction): bytes
  {
    if flow == [] then []
    else (if flow[0].direction == direction then flow[0].payload else []) + Payloads(flow[1..], direction)
  }

  /** The first `i` turns can be completed with `available` bytes of input, and the next one, if there
      is one, cannot: it is the other side's and has more bytes than are left. */
  predicate StopsAt(turns: Flow, sends: Direction, available: nat, i: nat)
  {
    i <= |turns|
    && var read := Total(turns[..i], Opposite(sends));
    read <= available && (i < |turns| ==> turns[i].direction != sends && available - read < |turns[i].payload|)
  }

  /** The loop of both peers, one sending each direction: turn by turn it writes its own payloads and
      reads as many bytes as the other side's payloads have, until the input ends early. */
  method ReplayTurns(turns: Flow, sends: Direction, input: bytes)
    returns (done: bool, output: bytes, consumed: nat, tx: nat, rx: nat)
    ensures done <==> Total(turns, Opposite(sends)) <= |input|
    ensures output <= Payloads(turns, sends)
    ensures exists i: nat :: StopsAt(turns, sends, |input|, i) && (done <==> i == |turns|)
              && output == Payloads(turns[..i], sends) && tx == |output| == Total(turns[..i], sends)
              && rx == consumed == Total(turns[..i], Opposite(sends))
  {
    done, output, consumed, tx, rx := true, [], 0, 0, 0;
    for i := 0 to |turns|
      invariant consumed == rx == Total(turns[..i], Opposite(sends)) <= |input|
      invariant tx == |output| == Total(turns[..i], sends)
      invariant output == Payloads(turns[..i], sends)
      invariant done
    {
      var turn := turns[i];
      OneMoreTurn(turns, i, sends);
      OneMoreTurn(turns, i, Opposite(sends));
      if turn.direction == sends {
        output := output + turn.payload;
        tx := tx + |turn.payload|;
      } else {
        if |input| - consumed < |turn.payload| {
          assert StopsAt(turns, sends, |input|, i);
          return false, output, consumed, tx, rx;
        }
        consumed := consumed + |turn.payload|;
        rx := rx + |turn.payload|;
      }
    }
    assert turns[..|turns|] == turns;
    assert StopsAt(turns, sends, |input|, |turns|);
  }

  lemma {:induction false} PayloadsConcat(a: Flow, b: Flow, d: Direction)
    ensures Payloads(a + b, d) == Payloads(a, d) + Payloads(b, d)
  {
    if a == [] {
      assert a + b == b;
    } else {
      assert (a + b)[1..] == a[1..] + b;
      PayloadsConcat(a[1..], b, d);
    }
  }

  lemma OneMoreTurn(turns: Flow, i: nat, d: Direction)
    requires i < |turns|
    ensures Total(turns[..i + 1], d) == Total(turns[..i], d) + if turns[i].direction == d then |turns[i].payload| else 0
    ensures Total(turns[..i + 1], d) <= Total(turns, d)
    ensures Payloads(turns[..i + 1], d) == Payloads(turns[..i], d)
            + if turns[i].direction == d then turns[i].payload else []
    ensures Payloads(turns[..i], d) <= Payloads(turns, d)
  {
    assert turns[..i + 1] == turns[..i] + [turns[i]];
    assert turns == turns[..i + 1] + turns[i + 1..] && turns == turns[..i] + turns[i..];
    TotalConcat(turns[..i], [turns[i]], d);
    TotalConcat(turns[..i + 1], turns[i + 1..], d);
    PayloadsConcat(turns[..i], [turns[i]], d);
    PayloadsConcat(turns[..i], turns[i..], d);
    OneTurn(turns[i], d);
  }

  lemma OneTurn(t: Turn, d: Direction)
    ensures Total([t], d) == if t.direction == d then |t.payload| else 0
    ensures Payloads([t], d) == if t.direction == d then t.payload else []
  {
    assert [t][1..] == [];
  }

  // ----- Where the peers are, and what is in flight between them

  ghost predicate PeerOk(flow: Flow, p: Peer, sends: Direction)
  {
    && p.turn <= |flow|
    && (if p.turn < |flow| then p.moved <= |flow[p.turn].payload| else p.moved == 0)
    && p.tx == Total(flow[..p.turn], sends)
    && p.rx == Total(flow[..p.turn], Opposite(sends))
  }

  /** How many bytes of the script a peer has behind it. */
  ghost function Position(flow: Flow, p: Peer): nat
    requires p.turn <= |flow|
  {
    Offset(flow, p.turn) + p.moved
  }

  /** The bytes of the script in [from, to) are all sent by one side and fill the channel. */
  ghost predicate InFlight(script: seq<(Direction, byte)>, from: nat, to: nat, sender: Direction, channel: bytes)
  {
    && from <= to <= |script|
    && (forall i :: from <= i < to ==> script[i].0 == sender)
    && channel == Carried(script[from..to])
  }

  lemma FlightGrows(script: seq<(Direction, byte)>, from: nat, to: nat, sender: Direction, channel: bytes)
    requires InFlight(script, from, to, sender, channel) && to < |script| && script[to].0 == sender
    ensures InFlight(script, from, to + 1, sender, channel + [script[to].1])
  {
    assert script[from..to + 1] == script[from..to] + [script[to]];
  }

  lemma FlightShrinks(script: seq<(Direction, byte)>, from: nat, to: nat, sender: Direction, channel: bytes)
    requires InFlight(script, from, to, sender, channel) && from < to
    ensures channel != [] && channel[0] == script[from].1
    ensures InFlight(script, from + 1, to, sender, channel[1..])
  {
    assert script[from..to][1..] == script[from + 1..to];
  }

  /** Where a peer stands in the script. */
  lemma PeerStands(flow: Flow, p: Peer, sends: Direction)
    requires PeerOk(flow, p, sends)
    ensures Position(flow, p) <= |Script(flow)|
    ensures p.turn == |flow| ==> Position(flow, p) == |Script(flow)|
    ensures p.turn < |flow| && p.moved < |flow[p.turn].payload| ==>
              Position(flow, p) < |Script(flow)|
              && Script(flow)[Position(flow, p)] == (flow[p.turn].direction, flow[p.turn].payload[p.moved])
    ensures p.turn < |flow| && p.moved == |flow[p.turn].payload| ==> Position(flow, p) == Offset(flow, p.turn + 1)
  {
    if p.turn < |flow| {
      OffsetNext(flow, p.turn);
    } else {
      assert flow[..p.turn] == flow;
    }
  }

  lemma TurnFinished(flow: Flow, p: Peer, sends: Direction)
    requires PeerOk(flow, p, sends) && p.turn < |flow| && p.moved == |flow[p.turn].payload|
    ensures var p1 := Finish(p, |flow[p.turn].payload|, flow[p.turn].direction == sends);
            PeerOk(flow, p1, sends) && p1.turn == p.turn + 1 && Position(flow, p1) == Position(flow, p)
  {
    OffsetNext(flow, p.turn);
    TotalNext(flow, p.turn, sends);
    TotalNext(flow, p.turn, Opposite(sends));
  }

  /** What one step of a peer does to its position and its channels. */
  lemma PeerMoves(flow: Flow, p: Peer, sends: Direction, outgoing: bytes, incoming: bytes, capacity: nat)
    requires PeerOk(flow, p, sends)
    ensures Position(flow, p) <= |Script(flow)|
    ensures var r := PeerStep(flow, p, sends, outgoing, incoming, capacity);
            var script, at := Script(flow), Position(flow, p);
            && (r.Some? ==>
                  var (p1, out1, in1) := r.value;
                  && PeerOk(flow, p1, sends) && p1.turn >= p.turn
                  && ((Position(flow, p1) == at && p1.turn == p.turn + 1 && out1 == outgoing && in1 == incoming)
                      || (Position(flow, p1) == at + 1 && at < |script| && p1.turn == p.turn
                          && if script[at].0 == sends then out1 == outgoing + [script[at].1] && in1 == incoming
                             else incoming != [] && in1 == incoming[1..] && out1 == outgoing)))
            && (r.None? ==>
                  if p.turn == |flow| then at == |script|
                  else at < |script|
                       && if script[at].0 == sends then |outgoing| >= capacity else incoming == [])
  {
    PeerStands(flow, p, sends);
    if p.turn < |flow| && p.moved == |flow[p.turn].payload| {
      TurnFinished(flow, p, sends);
    }
  }

  /** The responder is reading the first payload of flow `k`, or walks flow `k`. */
  ghost predicate ServerOk(flows: seq<Flow>, k: nat, server: Server)
    requires Valid(flows) && k < |flows|
  {
    match server
    case Rejected => false
    case Detecting(received, candidates) =>
      && |received| < |flows[k][0].payload| && received <= flows[k][0].payload
      && candidates == Retain(flows, Range(|flows|), received)
    case Serving(j, peer) => j == k && peer.turn >= 1 && PeerOk(flows[k], peer, ServerToClient)
  }

  ghost function ServerPosition(flows: seq<Flow>, k: nat, server: Server): nat
    requires Valid(flows) && k < |flows| && ServerOk(flows, k, server)
  {
    match server
    case Detecting(received, _) => |received|
    case Serving(_, peer) => Position(flows[k], peer)
  }

  /** One side is ahead, and exactly the bytes in between are in flight towards the other. */
  ghost predicate Balanced(script: seq<(Direction, byte)>, client: nat, server: nat, up: bytes, down: bytes)
  {
    || (server <= client && InFlight(script, server, client, ClientToServer, up) && down == [])
    || (client <= server && InFlight(script, client, server, ServerToClient, down) && up == [])
  }

  ghost predicate Together(flows: seq<Flow>, k: nat, l: Link)
    requires Valid(flows) && k < |flows|
  {
    && PeerOk(flows[k], l.client, ClientToServer)
    && ServerOk(flows, k, l.server)
    && Balanced(Script(flows[k]), Position(flows[k], l.client), ServerPosition(flows, k, l.server), l.up, l.down)
  }

  ghost predicate Finished(flows: seq<Flow>, k: nat, l: Link)
    requires k < |flows|
  {
    l.client.turn == |flows[k]| && l.server.Serving? && l.server.flow == k && l.server.peer.turn == |flows[k]|
  }

  lemma BalancedClient(script: seq<(Direction, byte)>, c: nat, s: nat, up: bytes, down: bytes, up1: bytes, down1: bytes)
    requires Balanced(script, c, s, up, down) && c < |script|
    requires if script[c].0 == ClientToServer then up1 == up + [script[c].1] && down1 == down
             else down != [] && down1 == down[1..] && up1 == up
    ensures Balanced(script, c + 1, s, up1, down1)
  {
    if script[c].0 == ClientToServer {
      if s <= c {
        assert script[c..c] == [];
        FlightGrows(script, s, c, ClientToServer, up);
      }
    } else {
      assert c < s;
      FlightShrinks(script, c, s, ServerToClient, down);
    }
  }

  lemma BalancedServer(script: seq<(Direction, byte)>, c: nat, s: nat, up: bytes, down: bytes, up1: bytes, down1: bytes)
    requires Balanced(script, c, s, up, down) && s < |script|
    requires if script[s].0 == ServerToClient then down1 == down + [script[s].1] && up1 == up
             else up != [] && up1 == up[1..] && down1 == down
    ensures Balanced(script, c, s + 1, up1, down1)
  {
    if script[s].0 == ServerToClient {
      if c <= s {
        assert script[s..s] == [];
        FlightGrows(script, c, s, ServerToClient, down);
      }
    } else {
      assert s < c;
      FlightShrinks(script, s, c, ClientToServer, up);
    }
  }

  lemma OpeningTogether(flows: seq<Flow>, k: nat)
    requires Valid(flows) && k < |flows|
    ensures Together(flows, k, Opening(flows))
  {
    RetainAll(flows, Range(|flows|));
    assert flows[k][..0] == [] && Script([]) == [];
    assert Script(flows[k])[0..0] == [];
    assert Carried([]) == [];
  }

  lemma ClientStepKeeps(flows: seq<Flow>, k: nat, l: Link, capacity: nat)
    requires Valid(flows) && k < |flows| && Together(flows, k, l)
    requires ClientStep(flows[k], l, capacity).Some?
    ensures Together(flows, k, ClientStep(flows[k], l, capacity).value)
  {
    var flow := flows[k];
    PeerMoves(flow, l.client, ClientToServer, l.up, l.down, capacity);
    var l1 := ClientStep(flow, l, capacity).value;
    if Position(flow, l1.client) == Position(flow, l.client) + 1 {
      BalancedClient(Script(flow), Position(flow, l.client), ServerPosition(flows, k, l.server),
                     l.up, l.down, l1.up, l1.down);
    }
  }

  /** The first payload of the flow opens the script. */
  lemma {:induction false} FirstBytes(flow: Flow, i: nat)
    requires Starts(flow) && i < |flow[0].payload|
    ensures i < |Script(flow)| && Script(flow)[i] == (ClientToServer, flow[0].payload[i])
  {
    OffsetNext(flow, 0);
    assert flow[..0] == [] && Script([]) == [];
    assert Script(flow)[Offset(flow, 0) + i] == (flow[0].direction, flow[0].payload[i]);
  }

  lemma StillACandidate(flows: seq<Flow>, k: nat, received: bytes)
    requires Begun(flows) && k < |flows|
    requires received <= flows[k][0].payload && |received| < |flows[k][0].payload|
    ensures Narrow(flows, Range(|flows|), received) == Continue(Retain(flows, Range(|flows|), received))
  {
    assert Range(|flows|)[k] == k;
    var left := Retain(flows, Range(|flows|), received);
    assert k in left;
    if |left| == 1 {
      assert left[0] == k;
    }
  }

  lemma PrefixExtends(p: bytes, whole: bytes)
    requires p <= whole && |p| < |whole|
    ensures p + [whole[|p|]] <= whole
    ensures |p| + 1 == |whole| ==> p + [whole[|p|]] == whole
  {
  }

  /** Detection of flow `k`: it goes on until the first payload is complete and then picks `k`. */
  lemma DetectionStep(flows: seq<Flow>, k: nat, received: bytes, b: byte)
    requires Valid(flows) && k < |flows|
    requires |received| < |flows[k][0].payload| && received <= flows[k][0].payload
    requires b == flows[k][0].payload[|received|]
    ensures received + [b] <= flows[k][0].payload
    ensures Narrow(flows, Retain(flows, Range(|flows|), received), received + [b])
         == if |received| + 1 == |flows[k][0].payload| then Chosen(k)
            else Continue(Retain(flows, Range(|flows|), received + [b]))
  {
    var first := flows[k][0].payload;
    PrefixExtends(received, first);
    NarrowAfter(flows, received, b);
    if |received| + 1 == |first| {
      WholePayloadDecides(flows, k);
    } else {
      StillACandidate(flows, k, received + [b]);
    }
  }

  lemma FirstTurnRead(flow: Flow)
    requires Starts(flow)
    ensures Offset(flow, 0) == 0 && Offset(flow, 1) == |flow[0].payload|
    ensures Total(flow[..1], ClientToServer) == |flow[0].payload| && Total(flow[..1], ServerToClient) == 0
  {
    OffsetNext(flow, 0);
    TotalNext(flow, 0, ClientToServer);
    TotalNext(flow, 0, ServerToClient);
    assert flow[..0] == [] && Script([]) == [];
  }

  /** The responder after one more byte of the first payload. */
  function Recognised(flows: seq<Flow>, k: nat, more: bytes): Server
    requires Begun(flows) && k < |flows|
  {
    if |more| == |flows[k][0].payload| then Serving(k, Peer(1, 0, 0, |more|))
    else Detecting(more, Retain(flows, Range(|flows|), more))
  }

  lemma RecognisedIsOk(flows: seq<Flow>, k: nat, more: bytes)
    requires Valid(flows) && k < |flows| && more <= flows[k][0].payload
    ensures ServerOk(flows, k, Recognised(flows, k, more))
    ensures ServerPosition(flows, k, Recognised(flows, k, more)) == |more|
  {
    FirstTurnRead(flows[k]);
  }

  lemma ByteRecognised(flows: seq<Flow>, k: nat, l: Link, capacity: nat)
    requires Valid(flows) && k < |flows| && ServerOk(flows, k, l.server) && l.server.Detecting?
    requires l.up != [] && l.up[0] == flows[k][0].payload[|l.server.received|]
    ensures l.server.received + [l.up[0]] <= flows[k][0].payload
    ensures ServerStep(flows, l, capacity)
         == Some(Link(l.client, Recognised(flows, k, l.server.received + [l.up[0]]), l.up[1..], l.down))
  {
    DetectionStep(flows, k, l.server.received, l.up[0]);
  }

  lemma DetectingStepKeeps(flows: seq<Flow>, k: nat, l: Link, capacity: nat)
    requires Valid(flows) && k < |flows| && Together(flows, k, l)
    requires l.server.Detecting? && l.up != []
    ensures ServerStep(flows, l, capacity).Some?
    ensures var l1 := ServerStep(flows, l, capacity).value;
            Together(flows, k, l1) && ServerPosition(flows, k, l1.server) == ServerPosition(flows, k, l.server) + 1
  {
    var flow := flows[k];
    var received, s, c := l.server.received, |l.server.received|, Position(flow, l.client);
    FirstBytes(flow, s);
    FlightShrinks(Script(flow), s, c, ClientToServer, l.up);
    BalancedServer(Script(flow), c, s, l.up, l.down, l.up[1..], l.down);
    ByteRecognised(flows, k, l, capacity);
    RecognisedIsOk(flows, k, received + [l.up[0]]);
  }

  lemma {:induction false} ServingStepKeeps(flows: seq<Flow>, k: nat, l: Link, capacity: nat)
    requires Valid(flows) && k < |flows| && Together(flows, k, l) && l.server.Serving?
    requires ServerStep(flows, l, capacity).Some?
    ensures Together(flows, k, ServerStep(flows, l, capacity).value)
  {
    var flow, peer := flows[k], l.server.peer;
    var l1 := ServerStep(flows, l, capacity).value;
    PeerMoves(flow, peer, ServerToClient, l.down, l.up, capacity);
    if Position(flow, l1.server.peer) == Position(flow, peer) + 1 {
      BalancedServer(Script(flow), Position(flow, l.client), Position(flow, peer), l.up, l.down, l1.up, l1.down);
    }
  }

  lemma {:induction false} ServerStepKeeps(flows: seq<Flow>, k: nat, l: Link, capacity: nat)
    requires Valid(flows) && k < |flows| && Together(flows, k, l)
    requires ServerStep(flows, l, capacity).Some?
    ensures Together(flows, k, ServerStep(flows, l, capacity).value)
  {
    match l.server
    case Detecting(_, _) => DetectingStepKeeps(flows, k, l, capacity);
    case Serving(_, _) => ServingStepKeeps(flows, k, l, capacity);
  }

  /** No deadlock: until both are finished, one of the peers can act, whatever the capacity. */
  lemma NeverStuck(flows: seq<Flow>, k: nat, l: Link, capacity: nat)
    requires Valid(flows) && k < |flows| && Together(flows, k, l) && capacity >= 1
    ensures Finished(flows, k, l) || ClientStep(flows[k], l, capacity).Some? || ServerStep(flows, l, capacity).Some?
  {
    var flow := flows[k];
    var script := Script(flow);
    var c, s := Position(flow, l.client), ServerPosition(flows, k, l.server);
    PeerMoves(flow, l.client, ClientToServer, l.up, l.down, capacity);
    match l.server
    case Detecting(received, _) =>
      FirstBytes(flow, s);
      if s < c {
        assert !(c <= s);
        FlightShrinks(script, s, c, ClientToServer, l.up);
      }
    case Serving(_, peer) =>
      PeerMoves(flow, peer, ServerToClient, l.down, l.up, capacity);
      if s < c {
        FlightShrinks(script, s, c, ClientToServer, l.up);
      } else if c < s {
        FlightShrinks(script, c, s, ServerToClient, l.down);
      }
  }

  /** What is left to do: bytes to move and turns to complete, on both sides. */
  ghost function Remaining(flows: seq<Flow>, k: nat, l: Link): int
    requires Valid(flows) && k < |flows| && Together(flows, k, l)
  {
    var flow := flows[k];
    var turn := if l.server.Serving? then l.server.peer.turn else 0;
    2 * |Script(flow)| - Position(flow, l.client) - ServerPosition(flows, k, l.server)
    + 2 * |flow| - l.client.turn - turn
  }

  /** Every step is progress, so no run goes on for ever. */
  lemma StepsProgress(flows: seq<Flow>, k: nat, l: Link, capacity: nat)
    requires Valid(flows) && k < |flows| && Together(flows, k, l)
    ensures Remaining(flows, k, l) >= 0
    ensures ClientStep(flows[k], l, capacity).Some? ==>
              var l1 := ClientStep(flows[k], l, capacity).value;
              Together(flows, k, l1) && Remaining(flows, k, l1) < Remaining(flows, k, l)
    ensures ServerStep(flows, l, capacity).Some? ==>
              var l1 := ServerStep(flows, l, capacity).value;
              Together(flows, k, l1) && Remaining(flows, k, l1) < Remaining(flows, k, l)
  {
    var flow := flows[k];
    PeerMoves(flow, l.client, ClientToServer, l.up, l.down, capacity);
    match l.server {
      case Detecting(received, _) => FirstBytes(flow, |received|);
      case Serving(_, peer) => PeerMoves(flow, peer, ServerToClient, l.down, l.up, capacity);
    }
    if ClientStep(flow, l, capacity).Some? {
      ClientStepKeeps(flows, k, l, capacity);
    }
    if ServerStep(flows, l, capacity).Some? {
      ServerStepKeeps(flows, k, l, capacity);
      ServerStepProgress(flows, k, l, capacity);
    }
  }

  lemma ServerStepProgress(flows: seq<Flow>, k: nat, l: Link, capacity: nat)
    requires Valid(flows) && k < |flows| && Together(flows, k, l)
    requires ServerStep(flows, l, capacity).Some?
    ensures var l1 := ServerStep(flows, l, capacity).value;
            Together(flows, k, l1) && Remaining(flows, k, l1) < Remaining(flows, k, l)
  {
    var flow := flows[k];
    ServerStepKeeps(flows, k, l, capacity);
    match l.server {
      case Detecting(_, _) => DetectingStepKeeps(flows, k, l, capacity);
      case Serving(_, peer) => PeerMoves(flow, peer, ServerToClient, l.down, l.up, capacity);
    }
  }

  /** Any schedule of the two peers; a peer that has to wait does nothing. */
  function Schedule(flows: seq<Flow>, k: nat, l: Link, actions: seq<Action>, capacity: nat): Link
    requires Valid(flows) && k < |flows| && Together(flows, k, l)
    decreases |actions|
  {
    if actions == [] then l
    else
      StepsProgress(flows, k, l, capacity);
      var next := if actions[0].ClientActs? then ClientStep(flows[k], l, capacity) else ServerStep(flows, l, capacity);
      Schedule(flows, k, if next.Some? then next.value else l, actions[1..], capacity)
  }

  /** Replay composition. For every accepted flow set, flow, capacity and schedule: the responder
      never picks another flow and never gives up; whenever neither peer can act, both have walked
      the whole flow, nothing is left in the channels, and each side has counted as sent what the
      other has counted as received. */
  lemma {:induction false} ReplayComposes(flows: seq<Flow>, k: nat, l: Link, actions: seq<Action>, capacity: nat)
    requires Valid(flows) && k < |flows| && Together(flows, k, l) && capacity >= 1
    ensures var l1 := Schedule(flows, k, l, actions, capacity);
            && Together(flows, k, l1)
            && !l1.server.Rejected?
            && (l1.server.Serving? ==> l1.server.flow == k)
            && (ClientStep(flows[k], l1, capacity).None? && ServerStep(flows, l1, capacity).None? ==>
                  && Finished(flows, k, l1)
                  && l1.up == [] && l1.down == []
                  && l1.client.tx == l1.server.peer.rx == Total(flows[k], ClientToServer)
                  && l1.client.rx == l1.server.peer.tx == Total(flows[k], ServerToClient))
    decreases |actions|
  {
    if actions == [] {
      NeverStuck(flows, k, l, capacity);
      if Finished(flows, k, l) {
        assert flows[k][..|flows[k]|] == flows[k];
        assert Script(flows[k])[|Script(flows[k])|..|Script(flows[k])|] == [];
      }
    } else {
      StepsProgress(flows, k, l, capacity);
      var next := if actions[0].ClientActs? then ClientStep(flows[k], l, capacity) else ServerStep(flows, l, capacity);
      ReplayComposes(flows, k, if next.Some? then next.value else l, actions[1..], capacity);
    }
  }

  /** From the start, with both channels empty and nothing received. */
  lemma ReplayFromStart(flows: seq<Flow>, k: nat, actions: seq<Action>, capacity: nat)
    requires Valid(flows) && k < |flows| && capacity >= 1
    ensures Together(flows, k, Opening(flows))
    ensures var l := Schedule(flows, k, Opening(flows), actions, capacity);
            && Together(flows, k, l)
            && !l.server.Rejected? && (l.server.Serving? ==> l.server.flow == k)
            && (ClientStep(flows[k], l, capacity).None? && ServerStep(flows, l, capacity).None? ==>
                  && l.server.Serving? && l.up == [] && l.down == []
                  && l.client.tx == l.server.peer.rx == Total(flows[k], ClientToServer)
                  && l.client.rx == l.server.peer.tx == Total(flows[k], ServerToClient))
  {
    OpeningTogether(flows, k);
    ReplayComposes(flows, k, Opening(flows), actions, capacity);
  }
}
