/** What an extracted HTTP/2 transaction says, and when there is none: said of the decoded header lists. */
module Http2Transactions {
  import opened Base
  import opened Ordered
  import opened Http2
  import opened Words

  /** The first header with this name. */
  predicate FirstAt(list: Headers, name: bytes, i: nat)
  {
    i < |list| && list[i].0 == name && forall j :: 0 <= j < i ==> list[j].0 != name
  }

  /** The value of the first header with this name, or nothing if there is none. */
  ghost predicate Says(list: Headers, name: bytes, value: bytes)
  {
    if exists i: nat :: FirstAt(list, name, i) then exists i: nat :: FirstAt(list, name, i) && list[i].1 == value
    else value == []
  }

  /** The first header with this name has a value. */
  ghost predicate Gives(list: Headers, name: bytes)
  {
    exists i: nat :: FirstAt(list, name, i) && list[i].1 != []
  }

  lemma {:induction false} FirstIsUnique(list: Headers, name: bytes, i: nat, j: nat)
    requires FirstAt(list, name, i) && FirstAt(list, name, j)
    ensures i == j
  {
  }

  lemma {:induction false} HeaderIsFirst(list: Headers, name: bytes)
    ensures if Header(list, name) == [] then (forall i: nat :: FirstAt(list, name, i) ==> list[i].1 == [])
            else exists i: nat :: FirstAt(list, name, i) && list[i].1 == Header(list, name)
    decreases |list|
  {
    if list != [] {
      if list[0].0 == name {
        assert FirstAt(list, name, 0);
        forall i: nat | FirstAt(list, name, i)
          ensures i == 0
        {
          FirstIsUnique(list, name, i, 0);
        }
      } else {
        var rest := list[1..];
        HeaderIsFirst(rest, name);
        forall i: nat
          ensures FirstAt(list, name, i + 1) <==> FirstAt(rest, name, i)
        {
          FirstShifts(list, name, i);
        }
        if Header(list, name) != [] {
          var i: nat :| FirstAt(rest, name, i) && rest[i].1 == Header(rest, name);
          assert FirstAt(list, name, i + 1);
        } else {
          forall i: nat | FirstAt(list, name, i)
            ensures list[i].1 == []
          {
            assert i > 0 && FirstAt(rest, name, i - 1);
          }
        }
      }
    }
  }

  lemma {:induction false} FirstShifts(list: Headers, name: bytes, i: nat)
    requires list != [] && list[0].0 != name
    ensures FirstAt(list, name, i + 1) <==> FirstAt(list[1..], name, i)
  {
    var rest := list[1..];
    if FirstAt(rest, name, i) {
      forall j | 0 <= j < i + 1
        ensures list[j].0 != name
      {
        if j > 0 {
          assert rest[j - 1] == list[j];
        }
      }
    }
    if FirstAt(list, name, i + 1) {
      forall j | 0 <= j < i
        ensures rest[j].0 != name
      {
        assert rest[j] == list[j + 1];
      }
    }
  }

  lemma {:induction false} HeaderSays(list: Headers, name: bytes)
    ensures Says(list, name, Header(list, name))
    ensures Header(list, name) != [] <==> Gives(list, name)
  {
    HeaderIsFirst(list, name);
    if exists i: nat :: FirstAt(list, name, i) {
      var i: nat :| FirstAt(list, name, i);
      forall j: nat | FirstAt(list, name, j)
        ensures j == i
      {
        FirstIsUnique(list, name, i, j);
      }
    }
  }

  /** The names of the pseudo-headers (section 8.3 of RFC 9113), and the preface (section 3.4). */
  lemma {:induction false} NamesAreSpelled()
    ensures METHOD == Text(":method") && PATH == Text(":path")
    ensures AUTHORITY == Text(":authority") && STATUS == Text(":status")
    ensures PREFACE == Text("PRI * HTTP/2.0\r\n\r\nSM\r\n\r\n") && |PREFACE| == 24
  {
  }

  /** A request stream with all that a transaction needs. */
  ghost predicate Complete(requests: map<nat, Parts>, responses: map<nat, Parts>, id: nat)
    requires id in requests
  {
    && id in responses && requests[id].ended && responses[id].ended
    && Gives(requests[id].headers, Text(":method")) && Gives(requests[id].headers, Text(":path"))
    && Gives(responses[id].headers, Text(":status"))
  }

  /** A transaction tells what its two streams say. */
  ghost predicate Tells(t: Transaction, request: Parts, response: Parts)
  {
    && Says(request.headers, Text(":method"), t.verb)
    && Says(request.headers, Text(":path"), t.path)
    && Says(request.headers, Text(":authority"), t.authority)
    && Says(response.headers, Text(":status"), t.status)
    && t.requestBody == request.body && t.responseBody == response.body
  }

  lemma {:induction false} TransactionMeans(requests: map<nat, Parts>, responses: map<nat, Parts>, id: nat)
    requires id in requests
    ensures TransactionOf(requests, responses, id).Some? <==> Complete(requests, responses, id)
    ensures TransactionOf(requests, responses, id).Some? ==>
              Tells(TransactionOf(requests, responses, id).value, requests[id], responses[id])
  {
    NamesAreSpelled();
    HeaderSays(requests[id].headers, METHOD);
    HeaderSays(requests[id].headers, PATH);
    HeaderSays(requests[id].headers, AUTHORITY);
    if id in responses {
      HeaderSays(responses[id].headers, STATUS);
    }
  }

  /** One transaction for each odd stream id, in ascending order. */
  ghost predicate TellsAll(output: seq<Transaction>, ids: seq<nat>, requests: map<nat, Parts>,
                           responses: map<nat, Parts>)
  {
    && Ascending(ids) && |output| == |ids| > 0
    && (forall id :: id in ids <==> id in requests && id % 2 == 1)
    && (forall i :: 0 <= i < |ids| ==> ids[i] in requests && ids[i] in responses)
    && (forall i :: 0 <= i < |ids| ==> Tells(output[i], requests[ids[i]], responses[ids[i]]))
  }

  lemma {:induction false} CollectedTell(requests: map<nat, Parts>, responses: map<nat, Parts>)
    requires var ids := RequestIds(requests); Collect(requests, responses, ids).Some? && ids != []
    ensures TellsAll(Collect(requests, responses, RequestIds(requests)).value, RequestIds(requests), requests,
                     responses)
  {
    var ids := RequestIds(requests);
    RequestIdsMeans(requests);
    var output := Collect(requests, responses, ids).value;
    forall i | 0 <= i < |ids|
      ensures ids[i] in requests && ids[i] in responses
      ensures Tells(output[i], requests[ids[i]], responses[ids[i]])
    {
      assert TransactionOf(requests, responses, ids[i]) == Some(output[i]);
      TransactionMeans(requests, responses, ids[i]);
    }
  }

  /** Extracted transactions come in ascending order of the odd stream ids, one for each, and each tells
      method, path, authority, status and bodies of its stream. */
  lemma {:induction false} TransactionsTell<S>(h: Hpack<S>, client: bytes, server: bytes)
    requires Extract(h, client, server).Some?
    ensures ParseDirection(h, client, true).Some? && ParseDirection(h, server, false).Some?
    ensures exists ids: seq<nat> ::
              TellsAll(Extract(h, client, server).value, ids, ParseDirection(h, client, true).value,
                       ParseDirection(h, server, false).value)
  {
    var requests, responses := ParseDirection(h, client, true), ParseDirection(h, server, false);
    CollectedTell(requests.value, responses.value);
  }

  /** Frame types and flags by their numbers (sections 6.1, 6.2 and 6.10 of RFC 9113). */
  lemma {:induction false} NumbersOfFrames(flags: byte)
    ensures DATA == 0x00 && HEADERS == 0x01 && CONTINUATION == 0x09
    ensures EndStream(flags) <==> (flags as bv8) & 0x01 != 0
    ensures EndHeaders(flags) <==> (flags as bv8) & 0x04 != 0
  {
  }

  function Three(a: nat, b: nat, c: nat): nat
  {
    a * 0x1_0000 + b * 0x100 + c
  }

  lemma {:induction false} LowBits(high: byte, low: nat)
    requires low < 0x100_0000
    ensures (high * 0x100_0000 + low) % 0x8000_0000 == high % 128 * 0x100_0000 + low
  {
  }

  lemma {:induction false} FourBytes(a: byte, b: byte, c: byte, d: byte)
    ensures BigEndian(0, a, b, c) == Three(a, b, c)
    ensures BigEndian(a, b, c, d) % ID_LIMIT == a % 128 * 0x100_0000 + Three(b, c, d)
  {
    assert BigEndian(a, b, c, d) == a * 0x100_0000 + Three(b, c, d);
    LowBits(a, Three(b, c, d));
  }

  /** A frame header: a length of three bytes, the type, the flags, a reserved bit and a stream id of 31 bits
      (section 4.1 of RFC 9113). */
  lemma {:induction false} FrameSays(s: bytes, at: nat)
    requires at + 9 <= |s| && at + 9 + FrameLength(s, at) <= |s|
    ensures FrameLength(s, at) == Three(s[at], s[at + 1], s[at + 2])
    ensures var f := FrameAt(s, at);
            && f.kind == s[at + 3] && f.flags == s[at + 4]
            && f.id == s[at + 5] % 128 * 0x100_0000 + Three(s[at + 6], s[at + 7], s[at + 8])
            && f.payload == s[at + 9..at + 9 + FrameLength(s, at)]
  {
    FourBytes(s[at], s[at + 1], s[at + 2], 0);
    FourBytes(s[at + 5], s[at + 6], s[at + 7], s[at + 8]);
  }

  /** There are no transactions exactly if the preface is missing, a direction is refused, no stream has an
      odd id, or the transaction of one that has is not complete. */
  lemma {:induction false} NothingExtractedIff<S>(h: Hpack<S>, client: bytes, server: bytes)
    ensures Extract(h, client, server).None?
       <==> (!(Text("PRI * HTTP/2.0\r\n\r\nSM\r\n\r\n") <= client)
             || ParseDirection(h, client, true).None? || ParseDirection(h, server, false).None?
             || (forall id :: id in ParseDirection(h, client, true).value ==> id % 2 == 0)
             || (exists id :: id in ParseDirection(h, client, true).value && id % 2 == 1
                              && !Complete(ParseDirection(h, client, true).value,
                                           ParseDirection(h, server, false).value, id)))
  {
    NamesAreSpelled();
    if ParseDirection(h, client, true).Some? && ParseDirection(h, server, false).Some? {
      CollectedIff(ParseDirection(h, client, true).value, ParseDirection(h, server, false).value);
    }
  }

  lemma {:induction false} NoOddId(requests: map<nat, Parts>)
    ensures RequestIds(requests) == [] <==> (forall id :: id in requests ==> id % 2 == 0)
  {
    var ids := RequestIds(requests);
    RequestIdsMeans(requests);
    if ids != [] {
      assert ids[0] in ids;
    } else {
      forall id | id in requests
        ensures id % 2 == 0
      {
        assert id !in ids;
      }
    }
  }

  /** Collecting stops at the first stream whose transaction is not complete. */
  lemma {:induction false} CollectStops(requests: map<nat, Parts>, responses: map<nat, Parts>, ids: seq<nat>)
    requires forall i :: 0 <= i < |ids| ==> ids[i] in requests
    ensures Collect(requests, responses, ids).None?
       <==> exists i :: 0 <= i < |ids| && !Complete(requests, responses, ids[i])
    decreases |ids|
  {
    if ids != [] {
      TransactionMeans(requests, responses, ids[0]);
      assert forall i :: 0 < i < |ids| ==> ids[i] == ids[1..][i - 1];
      CollectStops(requests, responses, ids[1..]);
      assert forall i :: 0 <= i < |ids| - 1 ==> ids[1..][i] == ids[i + 1];
    }
  }

  lemma {:induction false} CollectedIff(requests: map<nat, Parts>, responses: map<nat, Parts>)
    ensures Collect(requests, responses, RequestIds(requests)).None?
       <==> (exists id :: id in requests && id % 2 == 1 && !Complete(requests, responses, id))
    ensures RequestIds(requests) == [] <==> (forall id :: id in requests ==> id % 2 == 0)
  {
    var ids := RequestIds(requests);
    RequestIdsMeans(requests);
    NoOddId(requests);
    assert forall i :: 0 <= i < |ids| ==> ids[i] in ids;
    CollectStops(requests, responses, ids);
    if exists id :: id in requests && id % 2 == 1 && !Complete(requests, responses, id) {
      var id :| id in requests && id % 2 == 1 && !Complete(requests, responses, id);
      assert id in ids;
    }
  }
}
