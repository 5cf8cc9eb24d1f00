/** The end of an analysis: which flows are reported, with what, and how the others are counted. */
module FlowReport {
  import opened Base
  import opened Reassembly
  import opened FlowTable
  import Dissect
  import Conversation
  import Turns
  import Http1
  import Http2

  datatype Flow = Flow(key: FlowKey, client: bytes, server: bytes, retransmitted: nat, turns: seq<Conversation.Turn>,
                       http: seq<Http1.Transaction>, http2: seq<Http2.Transaction>)

  datatype Counts = Counts(incomplete: nat, encrypted: nat, nonHttp: nat, unsupportedHttp: nat, upgrades: nat,
                           unsupportedHttp2: nat)

  datatype Report = Report(flows: seq<Flow>, counts: Counts)

  const EMPTY_REPORT: Report := Report([], Counts(0, 0, 0, 0, 0, 0))

  const HTTP_NAME: bytes := [72, 84, 84, 80, 47]                                        // HTTP/
  const HTTP_FIELD: bytes := [32, 72, 84, 84, 80, 47]                                   // blank, HTTP/
  const UPGRADE_FIELD: bytes := [117, 112, 103, 114, 97, 100, 101, 58]                  // upgrade:
  const CONNECTION_UPGRADE: bytes :=
    [99, 111, 110, 110, 101, 99, 116, 105, 111, 110, 58, 32, 117, 112, 103, 114, 97, 100, 101] // connection: upgrade

  predicate LooksLikeTls(s: bytes)
  {
    |s| >= 5 && 0x14 <= s[0] <= 0x17 && s[1] == 3 && s[2] <= 4
  }

  predicate Contains(s: bytes, part: bytes)
  {
    |part| <= |s| && (part <= s || (s != [] && Contains(s[1..], part)))
  }

  predicate ContainsIgnoringCase(s: bytes, part: bytes)
  {
    |part| <= |s| && (Http1.SameName(s[..|part|], part) || (s != [] && ContainsIgnoringCase(s[1..], part)))
  }

  predicate MentionsUpgrade(s: bytes)
  {
    ContainsIgnoringCase(s, UPGRADE_FIELD) || ContainsIgnoringCase(s, CONNECTION_UPGRADE)
  }

  /** What the HTTP/1.1 reading of two streams comes to. */
  datatype HttpReading = Transactions(list: seq<Http1.Transaction>) | NonHttp | UpgradeHttp | UnsupportedHttp

  function ReadHttp(client: bytes, server: bytes): HttpReading
  {
    match Http1.ExtractHttp(client, server)
    case Some(list) => Transactions(list)
    case None =>
      if !(HTTP_NAME <= client) && !Contains(client, HTTP_FIELD) then NonHttp
      else if MentionsUpgrade(client) || MentionsUpgrade(server) then UpgradeHttp
      else UnsupportedHttp
  }

  function CountHttp(c: Counts, r: HttpReading): Counts
  {
    match r
    case Transactions(_) => c
    case NonHttp => c.(nonHttp := c.nonHttp + 1)
    case UpgradeHttp => c.(upgrades := c.upgrades + 1)
    case UnsupportedHttp => c.(unsupportedHttp := c.unsupportedHttp + 1)
  }

  /** The HTTP/2 transactions of two streams, if the client announces them and they are supported. */
  function ReadHttp2<S>(h: Http2.Hpack<S>, client: bytes, server: bytes): Option<seq<Http2.Transaction>>
  {
    if Http2.PREFACE <= client then Http2.Extract(h, client, server) else Some([])
  }

  /** What reading two streams as HTTP/2 and as HTTP/1.1 comes to. */
  datatype Reading = Reading(http2: Option<seq<Http2.Transaction>>, http: HttpReading)

  type Reader = (bytes, bytes) -> Reading

  function Reads<S>(h: Http2.Hpack<S>): Reader
  {
    (client: bytes, server: bytes) => Reading(ReadHttp2(h, client, server), ReadHttp(client, server))
  }

  datatype Fate = Incomplete | Encrypted | Reported

  function FateOf(s: Segments): Fate
  {
    FateOfStreams(Assemble(s.client), Assemble(s.server))
  }

  function FateOfStreams(client: Stream, server: Stream): Fate
  {
    if client.output == [] || server.output == [] || client.gap || server.gap then Incomplete
    else if LooksLikeTls(client.output) || LooksLikeTls(server.output) then Encrypted
    else Reported
  }

  /** A flow with these streams, turns and repeated bytes. */
  function FlowWith(read: Reader, key: FlowKey, client: bytes, server: bytes, retransmitted: nat,
                    turns: seq<Conversation.Turn>): Flow
  {
    var found := read(client, server);
    var list := if found.http2.Some? then found.http2.value else [];
    Flow(key, client, server, retransmitted, turns,
         if list == [] && found.http.Transactions? then found.http.list else [], list)
  }

  function CountFlow(read: Reader, client: bytes, server: bytes, c: Counts): Counts
  {
    var found := read(client, server);
    var counts := if found.http2.None? then c.(unsupportedHttp2 := c.unsupportedHttp2 + 1) else c;
    if found.http2.Some? && found.http2.value != [] then counts else CountHttp(counts, found.http)
  }

  function FlowOf(read: Reader, key: FlowKey, s: Segments): Flow
  {
    FlowWith(read, key, Assemble(s.client).output, Assemble(s.server).output, Retransmitted(s),
             Turns.TurnsOf(Turns.Groups(s.events)))
  }

  /** The flows a pair of streams adds to the report: one or none. */
  function FlowsFor(read: Reader, key: FlowKey, client: Stream, server: Stream, duplicate: nat,
                       turns: seq<Conversation.Turn>): seq<Flow>
  {
    if FateOfStreams(client, server) == Reported then
      [FlowWith(read, key, client.output, server.output, duplicate + client.duplicate + server.duplicate, turns)]
    else []
  }

  function CountsFor(read: Reader, client: Stream, server: Stream, c: Counts): Counts
  {
    match FateOfStreams(client, server)
    case Incomplete => c.(incomplete := c.incomplete + 1)
    case Encrypted => c.(encrypted := c.encrypted + 1)
    case Reported => CountFlow(read, client.output, server.output, c)
  }

  function FlowsOf(read: Reader, key: FlowKey, s: Segments): seq<Flow>
  {
    FlowsFor(read, key, Assemble(s.client), Assemble(s.server), s.duplicate, Turns.TurnsOf(Turns.Groups(s.events)))
  }

  function FinishFlow(read: Reader, key: FlowKey, s: Segments, r: Report): Report
  {
    Report(r.flows + FlowsOf(read, key, s), CountsFor(read, Assemble(s.client), Assemble(s.server), r.counts))
  }

  /** The flows of a table, each taken out of it when its turn comes. */
  function FinishAll(read: Reader, order: seq<FlowKey>, flows: map<FlowKey, Segments>, r: Report): Report
    decreases |order|
  {
    if order == [] then r
    else
      var parts := if order[0] in flows then flows[order[0]] else NO_SEGMENTS;
      FinishAll(read, order[1..], flows - {order[0]}, FinishFlow(read, order[0], parts, r))
  }

  method FinishAnalysis(read: Reader, table: Table) returns (r: Report)
    ensures r == FinishAll(read, table.order, table.flows, EMPTY_REPORT)
  {
    r := EMPTY_REPORT;
    var segments := table.flows;
    assert table.order[0..] == table.order;
    for i := 0 to |table.order|
      invariant FinishAll(read, table.order[i..], segments, r)
             == FinishAll(read, table.order, table.flows, EMPTY_REPORT)
    {
      var key := table.order[i];
      FinishNext(read, table.order, i, segments, r);
      var parts := if key in segments then segments[key] else NO_SEGMENTS;
      segments := segments - {key};
      r := FinishOne(read, key, parts, r);
    }
    assert table.order[|table.order|..] == [];
  }

  /** The body of the loop. */
  method FinishOne(read: Reader, key: FlowKey, parts: Segments, before: Report) returns (r: Report)
    ensures r == FinishFlow(read, key, parts, before)
  {
    var client := Reassemble(parts.client);
    var server := Reassemble(parts.server);
    var turns := Turns.BuildTurns(parts.events);
    r := SortStreams(read, key, client, server, parts.duplicate, turns, before);
  }

  method SortStreams(read: Reader, key: FlowKey, client: Stream, server: Stream, duplicate: nat,
                        turns: seq<Conversation.Turn>, before: Report) returns (r: Report)
    ensures r == Report(before.flows + FlowsFor(read, key, client, server, duplicate, turns),
                        CountsFor(read, client, server, before.counts))
  {
    r := before;
    assert before.flows + [] == before.flows;
    if client.output == [] || server.output == [] || client.gap || server.gap {
      r := r.(counts := r.counts.(incomplete := r.counts.incomplete + 1));
      return;
    }
    if LooksLikeTls(client.output) || LooksLikeTls(server.output) {
      r := r.(counts := r.counts.(encrypted := r.counts.encrypted + 1));
      return;
    }
    var retransmitted := duplicate + client.duplicate + server.duplicate;
    var flow, counts := ReportFlow(read, key, client.output, server.output, retransmitted, turns, r.counts);
    r := Report(r.flows + [flow], counts);
  }

  method ReportFlow(read: Reader, key: FlowKey, client: bytes, server: bytes, retransmitted: nat,
                       turns: seq<Conversation.Turn>, before: Counts) returns (flow: Flow, counts: Counts)
    ensures flow == FlowWith(read, key, client, server, retransmitted, turns)
    ensures counts == CountFlow(read, client, server, before)
  {
    counts := before;
    var http2: seq<Http2.Transaction>, http: seq<Http1.Transaction> := [], [];
    var found := read(client, server);
    if found.http2.Some? {
      http2 := found.http2.value;
    } else {
      counts := counts.(unsupportedHttp2 := counts.unsupportedHttp2 + 1);
    }
    if http2 == [] {
      if found.http.Transactions? {
        http := found.http.list;
      }
      counts := CountHttp(counts, found.http);
    }
    flow := Flow(key, client, server, retransmitted, turns, http, http2);
  }

  lemma FinishNext(read: Reader, order: seq<FlowKey>, i: nat, flows: map<FlowKey, Segments>, r: Report)
    requires i < |order|
    ensures FinishAll(read, order[i..], flows, r)
         == FinishAll(read, order[i + 1..], flows - {order[i]},
                      FinishFlow(read, order[i], if order[i] in flows then flows[order[i]] else NO_SEGMENTS, r))
  {
    assert order[i..][1..] == order[i + 1..];
  }

  // ----- Every flow is accounted for

  /** The reported flows with HTTP/2 transactions, and those with HTTP/1.1 transactions. */
  function WithHttp2(flows: seq<Flow>): nat
  {
    if flows == [] then 0
    else WithHttp2(flows[..|flows| - 1]) + if flows[|flows| - 1].http2 != [] then 1 else 0
  }

  function WithHttp(flows: seq<Flow>): nat
  {
    if flows == [] then 0
    else WithHttp(flows[..|flows| - 1]) + if flows[|flows| - 1].http != [] then 1 else 0
  }

  function Finished(r: Report): nat
  {
    |r.flows| + r.counts.incomplete + r.counts.encrypted
  }

  ghost predicate Balanced(r: Report)
  {
    |r.flows| == WithHttp2(r.flows) + WithHttp(r.flows)
                 + r.counts.nonHttp + r.counts.upgrades + r.counts.unsupportedHttp
  }

  /** A reader never finds an empty list of HTTP/1.1 transactions. */
  ghost predicate FindsSome(read: Reader)
  {
    forall client, server :: read(client, server).http.Transactions? ==> read(client, server).http.list != []
  }

  lemma ReadsFindSome<S>(h: Http2.Hpack<S>)
    ensures FindsSome(Reads(h))
  {
    forall client, server | Reads(h)(client, server).http.Transactions?
      ensures Reads(h)(client, server).http.list != []
    {
      TransactionsAreNotEmpty(client, server);
    }
  }

  lemma TransactionsAreNotEmpty(client: bytes, server: bytes)
    ensures ReadHttp(client, server).Transactions? ==> ReadHttp(client, server).list != []
  {
    if Http1.ExtractHttp(client, server).Some? {
      Http1.TransactionsLoseNothing(client, server);
      Http1.PairSides(Http1.Split(client, Http1.Request).value, Http1.Split(server, Http1.Response).value);
    }
  }

  lemma FlowCounts(flows: seq<Flow>, f: Flow)
    ensures WithHttp2(flows + [f]) == WithHttp2(flows) + if f.http2 != [] then 1 else 0
    ensures WithHttp(flows + [f]) == WithHttp(flows) + if f.http != [] then 1 else 0
  {
    var all := flows + [f];
    assert all[..|all| - 1] == flows;
  }

  lemma OneFlowBalances(read: Reader, key: FlowKey, client: bytes, server: bytes, retransmitted: nat,
                           turns: seq<Conversation.Turn>, r: Report)
    requires FindsSome(read) && Balanced(r)
    ensures var next := Report(r.flows + [FlowWith(read, key, client, server, retransmitted, turns)],
                               CountFlow(read, client, server, r.counts));
            Balanced(next) && Finished(next) == Finished(r) + 1
  {
    FlowCounts(r.flows, FlowWith(read, key, client, server, retransmitted, turns));
  }

  lemma StreamsBalance(read: Reader, key: FlowKey, client: Stream, server: Stream, duplicate: nat,
                          turns: seq<Conversation.Turn>, r: Report)
    requires FindsSome(read) && Balanced(r)
    ensures var next := Report(r.flows + FlowsFor(read, key, client, server, duplicate, turns),
                               CountsFor(read, client, server, r.counts));
            Balanced(next) && Finished(next) == Finished(r) + 1
  {
    if FateOfStreams(client, server) == Reported {
      OneFlowBalances(read, key, client.output, server.output, duplicate + client.duplicate + server.duplicate,
                      turns, r);
    } else {
      assert r.flows + [] == r.flows;
    }
  }

  lemma FinishFlowCounts(read: Reader, key: FlowKey, s: Segments, r: Report)
    requires FindsSome(read) && Balanced(r)
    ensures Finished(FinishFlow(read, key, s, r)) == Finished(r) + 1 && Balanced(FinishFlow(read, key, s, r))
  {
    StreamsBalance(read, key, Assemble(s.client), Assemble(s.server), s.duplicate,
                   Turns.TurnsOf(Turns.Groups(s.events)), r);
  }

  /** Every flow of the table is reported or counted as incomplete or encrypted, once; and every
      reported flow has transactions of one version or is counted under one reason. */
  lemma {:induction false} FlowsAreAccountedFor(read: Reader, order: seq<FlowKey>, flows: map<FlowKey, Segments>,
                                                r: Report)
    requires FindsSome(read) && Balanced(r)
    ensures Finished(FinishAll(read, order, flows, r)) == Finished(r) + |order|
    ensures Balanced(FinishAll(read, order, flows, r))
    decreases |order|
  {
    if order != [] {
      var parts := if order[0] in flows then flows[order[0]] else NO_SEGMENTS;
      FinishFlowCounts(read, order[0], parts, r);
      FlowsAreAccountedFor(read, order[1..], flows - {order[0]}, FinishFlow(read, order[0], parts, r));
    }
  }

  // ----- What is reported

  /** The reported flows of a table, in order. */
  function ReportedFlows(read: Reader, order: seq<FlowKey>, flows: map<FlowKey, Segments>): seq<Flow>
    requires forall i :: 0 <= i < |order| ==> order[i] in flows
  {
    if order == [] then []
    else
      FlowsOf(read, order[0], flows[order[0]]) + ReportedFlows(read, order[1..], flows)
  }

  lemma FlowsForMeans(read: Reader, key: FlowKey, client: Stream, server: Stream, duplicate: nat,
                         turns: seq<Conversation.Turn>, f: Flow)
    ensures f in FlowsFor(read, key, client, server, duplicate, turns)
       <==> FateOfStreams(client, server) == Reported
            && f == FlowWith(read, key, client.output, server.output, duplicate + client.duplicate + server.duplicate,
                            turns)
  {
  }

  lemma {:induction false} TakingOutOthers(read: Reader, order: seq<FlowKey>, flows: map<FlowKey, Segments>,
                                           gone: FlowKey)
    requires forall i :: 0 <= i < |order| ==> order[i] in flows && order[i] != gone
    ensures ReportedFlows(read, order, flows - {gone}) == ReportedFlows(read, order, flows)
    decreases |order|
  {
    if order != [] {
      TakingOutOthers(read, order[1..], flows, gone);
    }
  }

  /** Taking flows out of the table loses none: the report lists, in the order of their first packets,
      exactly the flows that are complete in both directions and not encrypted. */
  lemma {:induction false} ReportListsFlows(read: Reader, order: seq<FlowKey>, flows: map<FlowKey, Segments>, r: Report)
    requires Distinct(order) && forall i :: 0 <= i < |order| ==> order[i] in flows
    ensures FinishAll(read, order, flows, r).flows == r.flows + ReportedFlows(read, order, flows)
    decreases |order|
  {
    if order == [] {
      assert r.flows + [] == r.flows;
    } else {
      var s, rest := flows[order[0]], order[1..];
      var next := FinishFlow(read, order[0], s, r);
      assert forall i :: 0 <= i < |rest| ==> rest[i] == order[i + 1];
      TakingOutOthers(read, rest, flows, order[0]);
      ReportListsFlows(read, rest, flows - {order[0]}, next);
      FlowsBetween(r.flows, FlowsOf(read, order[0], s), ReportedFlows(read, rest, flows));
    }
  }

  lemma FlowsBetween(a: seq<Flow>, b: seq<Flow>, c: seq<Flow>)
    ensures a + b + c == a + (b + c)
  {
  }

  lemma FlowsOfMeans(read: Reader, key: FlowKey, s: Segments, f: Flow)
    ensures f in FlowsOf(read, key, s) <==> FateOf(s) == Reported && f == FlowOf(read, key, s)
    ensures f in FlowsOf(read, key, s) ==> f.key == key
  {
    FlowsForMeans(read, key, Assemble(s.client), Assemble(s.server), s.duplicate,
                  Turns.TurnsOf(Turns.Groups(s.events)), f);
  }

  lemma {:induction false} ReportedMember(read: Reader, order: seq<FlowKey>, flows: map<FlowKey, Segments>, f: Flow)
    requires forall i :: 0 <= i < |order| ==> order[i] in flows
    ensures f in ReportedFlows(read, order, flows)
       <==> f.key in order && f.key in flows && FateOf(flows[f.key]) == Reported
            && f == FlowOf(read, f.key, flows[f.key])
  {
    if order != [] {
      ReportedMember(read, order[1..], flows, f);
      FlowsOfMeans(read, order[0], flows[order[0]], f);
      assert f.key in order <==> f.key == order[0] || f.key in order[1..];
    }
  }

  /** From frames to report: the reported flows are exactly the complete, unencrypted flows between
      two endpoints, and a reported flow's streams and repeated bytes, with the excess of longer
      repetitions, are all the payload bytes captured for it. */
  lemma ReportedFlowAccounts(read: Reader, frames: seq<Dissect.Frame>, f: Flow)
    requires var table := Dissect.ReadAll(frames).table;
             f in FinishAll(read, table.order, table.flows, EMPTY_REPORT).flows
    requires Unwrapped(f.key, Dissect.PacketsOf(frames))
    ensures var packets := Dissect.PacketsOf(frames);
            && f == FlowOf(read, f.key, Gather(f.key, packets)) && FateOf(Gather(f.key, packets)) == Reported
            && |f.client| + |f.server| + f.retransmitted + Excess(f.key, packets) == Carried(f.key, packets)
  {
    var packets := Dissect.PacketsOf(frames);
    Dissect.FramesAreAccountedFor(frames);
    var table := After(packets);
    OrderListsFlows(packets);
    assert forall i :: 0 <= i < |table.order| ==> table.order[i] in table.order;
    ReportListsFlows(read, table.order, table.flows, EMPTY_REPORT);
    assert EMPTY_REPORT.flows + ReportedFlows(read, table.order, table.flows)
           == ReportedFlows(read, table.order, table.flows);
    ReportedMember(read, table.order, table.flows, f);
    EachFlowIsGathered(packets, f.key);
    FlowConservesBytes(packets, f.key);
  }

  /** From frames to counts: every frame is a packet of a flow or excluded, every flow is reported or
      counted as incomplete or encrypted, every reported flow has transactions or a reason, each once. */
  lemma CaptureIsAccountedFor<S>(h: Http2.Hpack<S>, frames: seq<Dissect.Frame>)
    ensures var read := Dissect.ReadAll(frames);
            var report := FinishAll(Reads(h), read.table.order, read.table.flows, EMPTY_REPORT);
            && |Dissect.PacketsOf(frames)| + Dissect.Sum(read.excluded) == |frames| == read.packets
            && Distinct(read.table.order) && Finished(report) == |read.table.order| == |read.table.flows|
            && Balanced(report)
  {
    var read := Dissect.ReadAll(frames);
    Dissect.FramesAreAccountedFor(frames);
    OrderListsFlows(Dissect.PacketsOf(frames));
    ReadsFindSome(h);
    FlowsAreAccountedFor(Reads(h), read.table.order, read.table.flows, EMPTY_REPORT);
    DistinctIsCardinality(read.table.order, read.table.flows.Keys);
  }

  lemma {:induction false} DistinctIsCardinality(order: seq<FlowKey>, keys: set<FlowKey>)
    requires Distinct(order) && forall k :: k in order <==> k in keys
    ensures |order| == |keys|
  {
    if order == [] {
      assert keys == {};
    } else {
      var rest := order[1..];
      forall k
        ensures k in rest <==> k in keys - {order[0]}
      {
        assert k in order <==> k == order[0] || k in rest;
      }
      DistinctIsCardinality(rest, keys - {order[0]});
    }
  }
}
