/** What becomes of a flow, said of the bytes of its two streams; and what the counters of a report count. */
module FlowFates {
  import opened Base
  import opened Reassembly
  import opened FlowTable
  import opened FlowReport
  import Conversation
  import Dissect
  import Http1
  import Http1Heads
  import Http2

  // ----- Searching a stream

  predicate StandsAt(s: bytes, part: bytes, i: nat)
  {
    i + |part| <= |s| && s[i..i + |part|] == part
  }

  predicate StandsInAnyCase(s: bytes, part: bytes, i: nat)
  {
    i + |part| <= |s| && Http1Heads.SameLetters(s[i..i + |part|], part)
  }

  /** The bytes of `part` stand somewhere in `s`. */
  ghost predicate Occurs(s: bytes, part: bytes)
  {
    exists i :: StandsAt(s, part, i)
  }

  ghost predicate OccursInAnyCase(s: bytes, part: bytes)
  {
    exists i :: StandsInAnyCase(s, part, i)
  }

  lemma {:induction false} StandsLater(s: bytes, part: bytes, i: nat)
    requires s != []
    ensures StandsAt(s[1..], part, i) <==> StandsAt(s, part, i + 1)
    ensures StandsInAnyCase(s[1..], part, i) <==> StandsInAnyCase(s, part, i + 1)
  {
    if i + 1 + |part| <= |s| {
      assert s[1..][i..i + |part|] == s[i + 1..i + 1 + |part|];
    }
  }

  lemma {:induction false} StandsFirst(s: bytes, part: bytes)
    requires |part| <= |s|
    ensures StandsAt(s, part, 0) <==> part <= s
    ensures StandsInAnyCase(s, part, 0) <==> Http1Heads.SameLetters(s[..|part|], part)
  {
    assert s[0..0 + |part|] == s[..|part|];
  }

  lemma {:induction false} ContainsMeans(s: bytes, part: bytes)
    ensures Contains(s, part) <==> Occurs(s, part)
    decreases |s|
  {
    if |part| <= |s| {
      StandsFirst(s, part);
      if !(part <= s) && s != [] {
        ContainsMeans(s[1..], part);
        if i: nat :| StandsAt(s, part, i) {
          StandsLater(s, part, i - 1);
        }
        if i: nat :| StandsAt(s[1..], part, i) {
          StandsLater(s, part, i);
        }
      }
    }
  }

  lemma {:induction false} ContainsIgnoringCaseMeans(s: bytes, part: bytes)
    ensures ContainsIgnoringCase(s, part) <==> OccursInAnyCase(s, part)
    decreases |s|
  {
    if |part| <= |s| {
      StandsFirst(s, part);
      Http1Heads.SameNameMeans(s[..|part|], part);
      if !StandsInAnyCase(s, part, 0) && s != [] {
        ContainsIgnoringCaseMeans(s[1..], part);
        if i: nat :| StandsInAnyCase(s, part, i) {
          StandsLater(s, part, i - 1);
        }
        if i: nat :| StandsInAnyCase(s[1..], part, i) {
          StandsLater(s, part, i);
        }
      }
    }
  }

  lemma {:induction false} TextsAreSpelled()
    ensures HTTP_NAME == Text("HTTP/") && HTTP_FIELD == Text(" HTTP/")
    ensures UPGRADE_FIELD == Text("upgrade:") && CONNECTION_UPGRADE == Text("connection: upgrade")
    ensures Http2.PREFACE == Text("PRI * HTTP/2.0\r\n\r\nSM\r\n\r\n")
  {
  }

  // ----- One flow

  /** A direction without bytes or with a hole. */
  predicate LacksBytes(s: Stream)
  {
    s.output == [] || s.gap
  }

  /** A TLS record header of version 3.0 to 3.4. */
  predicate StartsTls(s: bytes)
  {
    |s| >= 5 && s[0] in {20, 21, 22, 23} && s[1] == 3 && s[2] in {0, 1, 2, 3, 4}
  }

  /** Each fate of a flow has an exact condition on its two streams. */
  lemma {:induction false} FateIff(client: Stream, server: Stream)
    ensures var fate := FateOfStreams(client, server);
            && (fate == Incomplete <==> LacksBytes(client) || LacksBytes(server))
            && (fate == Encrypted <==>
                  !LacksBytes(client) && !LacksBytes(server) && (StartsTls(client.output) || StartsTls(server.output)))
  {
  }

  /** The client's stream shows a version of HTTP. */
  ghost predicate ShowsHttp(client: bytes)
  {
    Text("HTTP/") <= client || Occurs(client, Text(" HTTP/"))
  }

  ghost predicate ShowsUpgrade(s: bytes)
  {
    OccursInAnyCase(s, Text("upgrade:")) || OccursInAnyCase(s, Text("connection: upgrade"))
  }

  /** Why a flow has no HTTP/1.1 transactions. */
  lemma {:induction false} ReadHttpIff(client: bytes, server: bytes)
    ensures var list, r := Http1.ExtractHttp(client, server), ReadHttp(client, server);
            && (list.Some? <==> r == Transactions(if list.Some? then list.value else []))
            && (list.Some? <==> r.Transactions?)
            && (r == NonHttp <==> list.None? && !ShowsHttp(client))
            && (r == UpgradeHttp <==> list.None? && ShowsHttp(client) && (ShowsUpgrade(client) || ShowsUpgrade(server)))
            && (r == UnsupportedHttp <==>
                  list.None? && ShowsHttp(client) && !ShowsUpgrade(client) && !ShowsUpgrade(server))
  {
    TextsAreSpelled();
    ContainsMeans(client, HTTP_FIELD);
    ContainsIgnoringCaseMeans(client, UPGRADE_FIELD);
    ContainsIgnoringCaseMeans(client, CONNECTION_UPGRADE);
    ContainsIgnoringCaseMeans(server, UPGRADE_FIELD);
    ContainsIgnoringCaseMeans(server, CONNECTION_UPGRADE);
  }

  /** The transactions of a flow of one version: HTTP/2 if the client announces it and has some, else
      HTTP/1.1 if the two streams split into as many messages. */
  ghost predicate Tells(f: Flow, http2: Option<seq<Http2.Transaction>>, http: Option<seq<Http1.Transaction>>)
  {
    && (f.http2 != [] <==> http2.Some? && http2.value != [])
    && (f.http2 != [] ==> f.http2 == http2.value && f.http == [])
    && (f.http2 == [] ==> f.http == if http.Some? then http.value else [])
  }

  lemma {:induction false} FlowWithTells(read: Reader, key: FlowKey, client: bytes, server: bytes, repeated: nat,
                                         turns: seq<Conversation.Turn>, http: Option<seq<Http1.Transaction>>)
    requires var found := read(client, server).http;
             (http.Some? <==> found.Transactions?) && (http.Some? ==> found.list == http.value)
    ensures var f := FlowWith(read, key, client, server, repeated, turns);
            && f.key == key && f.client == client && f.server == server && f.turns == turns
            && f.retransmitted == repeated
            && Tells(f, read(client, server).http2, http)
  {
  }

  /** The HTTP/2 transactions of a client that announces that version. */
  function Announced<S>(h: Http2.Hpack<S>, client: bytes, server: bytes): Option<seq<Http2.Transaction>>
  {
    if Text("PRI * HTTP/2.0\r\n\r\nSM\r\n\r\n") <= client then Http2.Extract(h, client, server) else Some([])
  }

  lemma {:induction false} AnnouncedMeans<S>(h: Http2.Hpack<S>, client: bytes, server: bytes)
    ensures ReadHttp2(h, client, server) == Announced(h, client, server)
  {
    TextsAreSpelled();
  }

  lemma {:induction false} ReadsMeans<S>(h: Http2.Hpack<S>, client: bytes, server: bytes)
    ensures Reads(h)(client, server).http == ReadHttp(client, server)
    ensures Reads(h)(client, server).http2 == Announced(h, client, server)
  {
    AnnouncedMeans(h, client, server);
  }

  /** What a reported flow holds. */
  lemma {:induction false} FlowTells<S>(h: Http2.Hpack<S>, key: FlowKey, client: bytes, server: bytes, repeated: nat,
                                        turns: seq<Conversation.Turn>)
    ensures var f := FlowWith(Reads(h), key, client, server, repeated, turns);
            && f.key == key && f.client == client && f.server == server && f.turns == turns
            && f.retransmitted == repeated
            && Tells(f, Announced(h, client, server), Http1.ExtractHttp(client, server))
  {
    ReadsMeans(h, client, server);
    ReadHttpIff(client, server);
    FlowWithTells(Reads(h), key, client, server, repeated, turns, Http1.ExtractHttp(client, server));
  }

  // ----- All flows

  /** The counters of a report. */
  datatype Counter = IncompleteFlows | EncryptedFlows | RefusedHttp2Flows | NonHttpFlows | UpgradeFlows
                   | UnsupportedHttpFlows

  function ValueOf(c: Counts, counter: Counter): nat
  {
    match counter
    case IncompleteFlows => c.incomplete
    case EncryptedFlows => c.encrypted
    case RefusedHttp2Flows => c.unsupportedHttp2
    case NonHttpFlows => c.nonHttp
    case UpgradeFlows => c.upgrades
    case UnsupportedHttpFlows => c.unsupportedHttp
  }

  /** Both directions are there and not encrypted, and there are no HTTP/2 transactions to report. */
  predicate TriesHttp(read: Reader, client: Stream, server: Stream)
  {
    FateOfStreams(client, server) == Reported
    && read(client.output, server.output).http2 in {None, Some([])}
  }

  /** The flow is one of those that this counter counts. */
  predicate Counted(read: Reader, client: Stream, server: Stream, counter: Counter)
  {
    match counter
    case IncompleteFlows => FateOfStreams(client, server) == Incomplete
    case EncryptedFlows => FateOfStreams(client, server) == Encrypted
    case RefusedHttp2Flows =>
      FateOfStreams(client, server) == Reported && read(client.output, server.output).http2 == None
    case NonHttpFlows => TriesHttp(read, client, server) && read(client.output, server.output).http == NonHttp
    case UpgradeFlows => TriesHttp(read, client, server) && read(client.output, server.output).http == UpgradeHttp
    case UnsupportedHttpFlows =>
      TriesHttp(read, client, server) && read(client.output, server.output).http == UnsupportedHttp
  }

  /** How many flows of a list this counter counts. */
  function Number(read: Reader, order: seq<FlowKey>, flows: map<FlowKey, Segments>, counter: Counter): nat
    requires forall i :: 0 <= i < |order| ==> order[i] in flows
  {
    if order == [] then 0
    else
      var s := flows[order[0]];
      (if Counted(read, Assemble(s.client), Assemble(s.server), counter) then 1 else 0)
      + Number(read, order[1..], flows, counter)
  }

  lemma {:induction false} OneCounts(read: Reader, client: Stream, server: Stream, c: Counts, counter: Counter)
    ensures ValueOf(CountsFor(read, client, server, c), counter)
         == ValueOf(c, counter) + if Counted(read, client, server, counter) then 1 else 0
  {
  }

  lemma {:induction false} NumberWithout(read: Reader, order: seq<FlowKey>, flows: map<FlowKey, Segments>,
                                         gone: FlowKey, counter: Counter)
    requires forall i :: 0 <= i < |order| ==> order[i] in flows && order[i] != gone
    ensures Number(read, order, flows - {gone}, counter) == Number(read, order, flows, counter)
    decreases |order|
  {
    if order != [] {
      NumberWithout(read, order[1..], flows, gone, counter);
    }
  }

  lemma {:induction false} AllCount(read: Reader, order: seq<FlowKey>, flows: map<FlowKey, Segments>, r: Report,
                                    counter: Counter)
    requires Distinct(order) && forall i :: 0 <= i < |order| ==> order[i] in flows
    ensures ValueOf(FinishAll(read, order, flows, r).counts, counter)
         == ValueOf(r.counts, counter) + Number(read, order, flows, counter)
    decreases |order|
  {
    if order != [] {
      var s, rest := flows[order[0]], order[1..];
      assert forall i :: 0 <= i < |rest| ==> rest[i] == order[i + 1];
      OneCounts(read, Assemble(s.client), Assemble(s.server), r.counts, counter);
      NumberWithout(read, rest, flows, order[0], counter);
      AllCount(read, rest, flows - {order[0]}, FinishFlow(read, order[0], s, r), counter);
    }
  }

  /** From frames to counters: every counter of a report is the number of flows with its condition. */
  lemma {:induction false} CountersTell<S>(h: Http2.Hpack<S>, frames: seq<Dissect.Frame>, counter: Counter)
    ensures var table := Dissect.ReadAll(frames).table;
            && (forall i :: 0 <= i < |table.order| ==> table.order[i] in table.flows)
            && ValueOf(FinishAll(Reads(h), table.order, table.flows, EMPTY_REPORT).counts, counter)
            == Number(Reads(h), table.order, table.flows, counter)
  {
    var table := Dissect.ReadAll(frames).table;
    Dissect.FramesAreAccountedFor(frames);
    OrderListsFlows(Dissect.PacketsOf(frames));
    assert forall i :: 0 <= i < |table.order| ==> table.order[i] in table.order;
    AllCount(Reads(h), table.order, table.flows, EMPTY_REPORT, counter);
  }
}
