/** Cutting the captured events of a flow into the turns of a conversation. */
module Turns {
  import opened Base
  import opened Conversation
  import opened Ordered
  import opened Reassembly
  import opened FlowTable

  /** A run of events in one direction, keyed by sequence number. */
  datatype Group = Group(direction: Direction, segments: map<nat, bytes>)

  function Enter(segments: map<nat, bytes>, start: nat, payload: bytes): map<nat, bytes>
  {
    if start in segments then segments else segments[start := payload]
  }

  function PutEvent(groups: seq<Group>, e: Event): seq<Group>
  {
    if e.payload == [] then groups
    else if groups == [] || groups[|groups| - 1].direction != e.direction then
      groups + [Group(e.direction, map[e.start := e.payload])]
    else
      var last := groups[|groups| - 1];
      groups[|groups| - 1 := last.(segments := Enter(last.segments, e.start, e.payload))]
  }

  function Groups(events: seq<Event>): seq<Group>
  {
    if events == [] then [] else PutEvent(Groups(events[..|events| - 1]), events[|events| - 1])
  }

  /** A run is a turn unless nothing of it is left or a part of it was not captured. */
  function TurnOf(g: Group): seq<Turn>
  {
    var stream := Assemble(g.segments);
    if stream.output != [] && !stream.gap then [Turn(g.direction, stream.output)] else []
  }

  function TurnsOf(groups: seq<Group>): seq<Turn>
  {
    if groups == [] then [] else TurnsOf(groups[..|groups| - 1]) + TurnOf(groups[|groups| - 1])
  }

  method BuildTurns(events: seq<Event>) returns (turns: seq<Turn>)
    ensures turns == TurnsOf(Groups(events))
  {
    var groups: seq<Group> := [];
    for i := 0 to |events|
      invariant groups == Groups(events[..i])
    {
      var e := events[i];
      assert events[..i + 1][..i] == events[..i];
      if e.payload == [] {
        continue;
      }
      if groups == [] || groups[|groups| - 1].direction != e.direction {
        groups := groups + [Group(e.direction, map[])];
      }
      var last := groups[|groups| - 1];
      if e.start !in last.segments {
        groups := groups[|groups| - 1 := last.(segments := last.segments[e.start := e.payload])];
      }
    }
    assert events[..|events|] == events;
    turns := TakeTurns(groups);
  }

  lemma TurnsGrow(groups: seq<Group>, i: nat)
    requires i < |groups|
    ensures TurnsOf(groups[..i + 1]) == TurnsOf(groups[..i]) + TurnOf(groups[i])
  {
    assert groups[..i + 1][..i] == groups[..i];
  }

  method TakeTurns(groups: seq<Group>) returns (turns: seq<Turn>)
    ensures turns == TurnsOf(groups)
  {
    turns := [];
    for i := 0 to |groups|
      invariant turns == TurnsOf(groups[..i])
    {
      TurnsGrow(groups, i);
      var stream := Reassemble(groups[i].segments);
      if stream.output != [] && !stream.gap {
        turns := turns + [Turn(groups[i].direction, stream.output)];
      }
    }
    assert groups[..|groups|] == groups;
  }

  // ----- What the turns say

  ghost predicate Alternate(turns: seq<Turn>)
  {
    forall i :: 0 < i < |turns| ==> turns[i].direction != turns[i - 1].direction
  }

  function Said(turns: seq<Turn>, d: Direction): bytes
  {
    if turns == [] then []
    else
      var last := turns[|turns| - 1];
      Said(turns[..|turns| - 1], d) + if last.direction == d then last.payload else []
  }

  /** All events of a direction, the first of each sequence number. */
  function Sent(events: seq<Event>, d: Direction): map<nat, bytes>
  {
    if events == [] then map[]
    else
      var earlier, e := Sent(events[..|events| - 1], d), events[|events| - 1];
      if e.direction == d && e.payload != [] then Enter(earlier, e.start, e.payload) else earlier
  }

  /** The latest run of a direction. */
  function Latest(groups: seq<Group>, d: Direction): Option<map<nat, bytes>>
  {
    if groups == [] then None
    else if groups[|groups| - 1].direction == d then Some(groups[|groups| - 1].segments)
    else Latest(groups[..|groups| - 1], d)
  }

  /** Each run is captured without a gap and starts where the previous run of its direction ended. */
  ghost predicate Continuous(groups: seq<Group>)
  {
    groups != [] ==>
      var init, last := groups[..|groups| - 1], groups[|groups| - 1];
      && Continuous(init)
      && NoWrap(last.segments) && last.segments.Keys != {} && !Assemble(last.segments).gap
      && var before := Latest(init, last.direction);
         before.Some? ==> Minimum(last.segments.Keys) == StreamEnd(before.value)
  }

  lemma {:induction false} GroupsAlternate(events: seq<Event>)
    ensures forall i :: 0 < i < |Groups(events)| ==> Groups(events)[i].direction != Groups(events)[i - 1].direction
  {
    if events != [] {
      GroupsAlternate(events[..|events| - 1]);
    }
  }

  lemma RunIsATurn(g: Group)
    requires NoWrap(g.segments) && g.segments.Keys != {} && !Assemble(g.segments).gap
    ensures |TurnOf(g)| == 1 && TurnOf(g)[0] == Turn(g.direction, Assemble(g.segments).output)
  {
    OutputIsNotEmpty(g.segments);
  }

  ghost predicate SameDirections(turns: seq<Turn>, groups: seq<Group>)
  {
    |turns| == |groups| && forall i :: 0 <= i < |groups| ==> turns[i].direction == groups[i].direction
  }

  lemma SameDirectionsGrow(turns: seq<Turn>, groups: seq<Group>, t: Turn)
    requires groups != [] && SameDirections(turns, groups[..|groups| - 1])
    requires t.direction == groups[|groups| - 1].direction
    ensures SameDirections(turns + [t], groups)
  {
  }

  /** Every run of a continuous conversation becomes a turn. */
  lemma {:induction false} EachRunIsATurn(groups: seq<Group>)
    requires Continuous(groups)
    ensures SameDirections(TurnsOf(groups), groups)
  {
    if groups != [] {
      var init, last := groups[..|groups| - 1], groups[|groups| - 1];
      EachRunIsATurn(init);
      RunIsATurn(last);
      SameDirectionsGrow(TurnsOf(init), groups, TurnOf(last)[0]);
      assert TurnsOf(groups) == TurnsOf(init) + [TurnOf(last)[0]];
    }
  }

  // ----- Joining runs

  /** A state reached behind another one. */
  function Behind(o: bytes, d: nat, p: Progress): Progress
  {
    Progress(o + p.output, p.next, d + p.duplicate, p.gap)
  }

  lemma {:induction false} AbsorbShift(o: bytes, d: nat, p: Progress, list: seq<Segment>)
    ensures AbsorbAll(Behind(o, d, p), list) == Behind(o, d, AbsorbAll(p, list))
    decreases |list|
  {
    if list != [] {
      AbsorbShift(o, d, Absorb(p, list[0]), list[1..]);
      AbsorbShiftOnce(o, d, p, list[0]);
    }
  }

  lemma AbsorbShiftOnce(o: bytes, d: nat, p: Progress, s: Segment)
    ensures Absorb(Behind(o, d, p), s) == Behind(o, d, Absorb(p, s))
  {
    Associate(o, p.output, Kept(s, if s.start > p.next then s.start else p.next));
  }

  lemma {:induction false} AbsorbConcat(p: Progress, a: seq<Segment>, b: seq<Segment>)
    ensures AbsorbAll(p, a + b) == AbsorbAll(AbsorbAll(p, a), b)
    decreases |a|
  {
    if a == [] {
      assert a + b == b;
    } else {
      assert (a + b)[0] == a[0] && (a + b)[1..] == a[1..] + b;
      AbsorbConcat(Absorb(p, a[0]), a[1..], b);
    }
  }

  /** Every key of the first map comes before every key of the second. */
  ghost predicate Before(x: map<nat, bytes>, y: map<nat, bytes>)
  {
    forall j, k :: j in x && k in y ==> j < k
  }

  lemma SortedJoin(a: set<nat>, b: set<nat>)
    requires forall j, k :: j in a && k in b ==> j < k
    ensures Sorted(a + b) == Sorted(a) + Sorted(b)
  {
    SortedMeans(a);
    SortedMeans(b);
    AscendingJoin(Sorted(a), Sorted(b));
    SortedIs(a + b, Sorted(a) + Sorted(b));
  }

  lemma AscendingJoin(x: seq<nat>, y: seq<nat>)
    requires Ascending(x) && Ascending(y)
    requires forall i, j :: 0 <= i < |x| && 0 <= j < |y| ==> x[i] < y[j]
    ensures Ascending(x + y)
  {
  }

  lemma ListedJoin(x: map<nat, bytes>, y: map<nat, bytes>, a: seq<nat>, b: seq<nat>)
    requires forall i :: 0 <= i < |a| ==> a[i] in x && a[i] !in y
    requires forall i :: 0 <= i < |b| ==> b[i] in y
    ensures forall i :: 0 <= i < |a + b| ==> (a + b)[i] in x + y
    ensures Listed(x + y, a + b) == Listed(x, a) + Listed(y, b)
  {
  }

  lemma KeysJoin(x: map<nat, bytes>, y: map<nat, bytes>, a: seq<nat>, b: seq<nat>)
    requires Before(x, y) && a == Sorted(x.Keys) && b == Sorted(y.Keys)
    ensures Sorted((x + y).Keys) == a + b
    ensures forall i :: 0 <= i < |a| ==> a[i] in x && a[i] !in y
    ensures forall i :: 0 <= i < |b| ==> b[i] in y
  {
    assert (x + y).Keys == x.Keys + y.Keys;
    SortedJoin(x.Keys, y.Keys);
    SortedMeans(x.Keys);
    SortedMeans(y.Keys);
  }

  lemma InOrderJoin(x: map<nat, bytes>, y: map<nat, bytes>)
    requires Before(x, y)
    ensures InOrder(x + y) == InOrder(x) + InOrder(y)
  {
    var a, b := Sorted(x.Keys), Sorted(y.Keys);
    KeysJoin(x, y, a, b);
    ListedJoin(x, y, a, b);
  }

  lemma FirstIsMinimum(segments: map<nat, bytes>)
    requires segments.Keys != {}
    ensures InOrder(segments) != [] && InOrder(segments)[0].start == Minimum(segments.Keys)
  {
    InOrderStep(segments);
  }

  /** All of a stream lies before its end. */
  lemma KeysBeforeEnd(segments: map<nat, bytes>, k: nat)
    requires NoWrap(segments) && k in segments
    ensures k < StreamEnd(segments)
  {
    ReassemblyMeans(segments);
    PositionMeans(segments, k);
  }

  /** The gap flag never influences the rest of the walk. */
  lemma {:induction false} GapIsPassive(p: Progress, list: seq<Segment>)
    ensures AbsorbAll(p.(gap := true), list) == AbsorbAll(p, list).(gap := true)
    decreases |list|
  {
    if list != [] {
      GapIsPassive(Absorb(p, list[0]), list[1..]);
      GapIsPassiveOnce(p, list[0]);
    }
  }

  lemma GapIsPassiveOnce(p: Progress, s: Segment)
    ensures Absorb(p.(gap := true), s) == Absorb(p, s).(gap := true)
  {
  }

  lemma Resume(p: Progress, b: seq<Segment>)
    requires b != [] && p.next == b[0].start
    ensures var q := AbsorbAll(p, b);
            && q.output == p.output + Walk(b).output && q.next == Walk(b).next
            && (!p.gap && !Walk(b).gap ==> !q.gap)
  {
    var start := Progress([], b[0].start, 0, false);
    AbsorbShift(p.output, p.duplicate, start, b);
    assert p.output + [] == p.output;
    assert Behind(p.output, p.duplicate, start) == p.(gap := false);
    if p.gap {
      GapIsPassive(p.(gap := false), b);
      assert p.(gap := false).(gap := true) == p;
    }
  }

  lemma WalkJoin(a: seq<Segment>, b: seq<Segment>)
    requires a != [] && b != [] && Walk(a).next == b[0].start
    ensures var p := Walk(a + b);
            && p.output == Walk(a).output + Walk(b).output && p.next == Walk(b).next
            && (!Walk(a).gap && !Walk(b).gap ==> !p.gap)
  {
    assert (a + b)[0] == a[0];
    AbsorbConcat(Progress([], a[0].start, 0, false), a, b);
    Resume(Walk(a), b);
  }

  lemma StartsAtEnd(x: map<nat, bytes>, y: map<nat, bytes>)
    requires NoWrap(x) && y.Keys != {} && Minimum(y.Keys) == StreamEnd(x)
    ensures Before(x, y)
  {
    forall j, k | j in x && k in y
      ensures j < k
    {
      KeysBeforeEnd(x, j);
      assert k in y.Keys;
    }
  }

  lemma NoWrapJoin(x: map<nat, bytes>, y: map<nat, bytes>)
    requires NoWrap(x) && NoWrap(y)
    ensures NoWrap(x + y)
  {
  }

  /** Two streams of which the second starts at the end of the first form one stream. */
  lemma StreamsJoin(x: map<nat, bytes>, y: map<nat, bytes>)
    requires NoWrap(x) && NoWrap(y) && x.Keys != {} && y.Keys != {}
    requires Minimum(y.Keys) == StreamEnd(x)
    ensures NoWrap(x + y) && StreamEnd(x + y) == StreamEnd(y)
    ensures Assemble(x + y).output == Assemble(x).output + Assemble(y).output
    ensures !Assemble(x).gap && !Assemble(y).gap ==> !Assemble(x + y).gap
  {
    StartsAtEnd(x, y);
    NoWrapJoin(x, y);
    InOrderJoin(x, y);
    FirstIsMinimum(x);
    FirstIsMinimum(y);
    WalkJoin(InOrder(x), InOrder(y));
  }

  /** The runs of a direction, joined. */
  function Joined(groups: seq<Group>, d: Direction): map<nat, bytes>
  {
    if groups == [] then map[]
    else
      var earlier, last := Joined(groups[..|groups| - 1], d), groups[|groups| - 1];
      if last.direction == d then earlier + last.segments else earlier
  }

  ghost predicate NoGap(segments: map<nat, bytes>)
  {
    NoWrap(segments) && !Assemble(segments).gap
  }

  /** What the invariant of joining says of a direction: the joined runs form a stream without a
      gap that ends where the latest run ends. */
  ghost predicate JoinsTo(m: map<nat, bytes>, before: Option<map<nat, bytes>>, said: bytes)
  {
    && NoGap(m) && said == Assemble(m).output
    && (before.None? <==> m.Keys == {})
    && (before.Some? ==> StreamEnd(m) == StreamEnd(before.value))
  }

  lemma JoinsFirst(m: map<nat, bytes>, said: bytes, next: map<nat, bytes>)
    requires JoinsTo(m, None, said)
    ensures m + next == next && said == []
  {
    assert m == map[];
    NothingHeld();
  }

  lemma JoinsNext(m: map<nat, bytes>, before: Option<map<nat, bytes>>, said: bytes, next: map<nat, bytes>)
    requires JoinsTo(m, before, said) && NoGap(next) && next.Keys != {}
    requires before.Some? ==> Minimum(next.Keys) == StreamEnd(before.value)
    ensures JoinsTo(m + next, Some(next), said + Assemble(next).output)
  {
    if before.None? {
      JoinsFirst(m, said, next);
      assert [] + Assemble(next).output == Assemble(next).output;
    } else {
      StreamsJoin(m, next);
    }
  }

  /** The turns of a direction, joined, are the stream of its joined runs. */
  lemma {:induction false} TurnsAreJoined(groups: seq<Group>, d: Direction)
    requires Continuous(groups)
    ensures JoinsTo(Joined(groups, d), Latest(groups, d), Said(TurnsOf(groups), d))
  {
    if groups == [] {
      NothingHeld();
    } else {
      var init, last := groups[..|groups| - 1], groups[|groups| - 1];
      TurnsAreJoined(init, d);
      OutputIsNotEmpty(last.segments);
      SaidNext(TurnsOf(init), Turn(last.direction, Assemble(last.segments).output), d);
      if last.direction == d {
        JoinsNext(Joined(init, d), Latest(init, d), Said(TurnsOf(init), d), last.segments);
      }
    }
  }

  lemma SaidNext(turns: seq<Turn>, next: Turn, d: Direction)
    ensures Said(turns + [next], d) == if next.direction == d then Said(turns, d) + next.payload else Said(turns, d)
  {
    var all := turns + [next];
    assert all[..|all| - 1] == turns;
    assert Said(turns, d) + [] == Said(turns, d);
  }

  /** No two runs of a direction share a sequence number. */
  ghost predicate Apart(groups: seq<Group>)
  {
    groups != [] ==>
      var init, last := groups[..|groups| - 1], groups[|groups| - 1];
      Apart(init) && Joined(init, last.direction).Keys !! last.segments.Keys
  }

  lemma {:induction false} ContinuousIsApart(groups: seq<Group>)
    requires Continuous(groups)
    ensures Apart(groups)
  {
    if groups != [] {
      var init, last := groups[..|groups| - 1], groups[|groups| - 1];
      ContinuousIsApart(init);
      TurnsAreJoined(init, last.direction);
      if Latest(init, last.direction).Some? {
        StartsAtEnd(Joined(init, last.direction), last.segments);
      }
    }
  }

  lemma {:induction false} SentIsJoined(events: seq<Event>, d: Direction)
    requires Apart(Groups(events))
    ensures Sent(events, d) == Joined(Groups(events), d)
  {
    if events != [] {
      var init, e := events[..|events| - 1], events[|events| - 1];
      EarlierApart(Groups(init), e);
      SentIsJoined(init, d);
      JoinedPut(Groups(init), e, d);
    }
  }

  lemma EarlierApart(groups: seq<Group>, e: Event)
    requires Apart(PutEvent(groups, e))
    ensures Apart(groups)
  {
    var later := PutEvent(groups, e);
    if |later| > |groups| {
      assert later[..|later| - 1] == groups;
    } else if groups != [] {
      assert later[..|later| - 1] == groups[..|groups| - 1];
    }
  }

  lemma EnterBehind(earlier: map<nat, bytes>, last: map<nat, bytes>, start: nat, payload: bytes)
    requires start !in earlier
    ensures earlier + Enter(last, start, payload) == Enter(earlier + last, start, payload)
  {
  }

  lemma JoinedPut(groups: seq<Group>, e: Event, d: Direction)
    requires Apart(PutEvent(groups, e))
    ensures Joined(PutEvent(groups, e), d)
         == if e.direction == d && e.payload != [] then Enter(Joined(groups, d), e.start, e.payload)
            else Joined(groups, d)
  {
    var later := PutEvent(groups, e);
    if e.payload != [] {
      var n := |later| - 1;
      assert e.start in later[n].segments;
      var init := if n == |groups| then groups else groups[..n];
      assert later[..n] == init;
      if e.direction == d {
        EnterBehind(Joined(init, d), if n == |groups| then map[] else groups[n].segments, e.start, e.payload);
        assert Joined(init, d) + map[] == Joined(init, d);
      }
    }
  }

  lemma TurnsAreStreams(events: seq<Event>, d: Direction)
    requires Continuous(Groups(events))
    ensures Said(TurnsOf(Groups(events)), d) == Assemble(Sent(events, d)).output && !Assemble(Sent(events, d)).gap
  {
    TurnsAreJoined(Groups(events), d);
    ContinuousIsApart(Groups(events));
    SentIsJoined(events, d);
  }

  /** Turns agree with whole-stream reassembly. When every run of events in one direction is
      captured without a gap and starts where the previous run of that direction ended, the turns
      strictly alternate, and what they say in each direction is the reassembled stream. */
  lemma TurnsMatchStreams(events: seq<Event>, d: Direction)
    requires Continuous(Groups(events))
    ensures Alternate(TurnsOf(Groups(events)))
    ensures Said(TurnsOf(Groups(events)), d) == Assemble(Sent(events, d)).output && !Assemble(Sent(events, d)).gap
  {
    GroupsAlternate(events);
    EachRunIsATurn(Groups(events));
    TurnsAreStreams(events, d);
  }

  lemma {:induction false} OneMoreEvent(s: Segments, of: Direction, p: Packet, d: Direction)
    requires Sent(s.events, d) == Side(s, d)
    ensures Sent(Record(s, of, p).events, d) == Side(Record(s, of, p), d)
  {
    if p.payload != [] {
      var e := Event(of, p.start, p.payload);
      assert Record(s, of, p).events == s.events + [e] && (s.events + [e])[..|s.events|] == s.events;
    }
  }

  /** The events of a flow and its two sides are kept together. */
  lemma {:induction false} SidesFollowEvents(k: FlowKey, list: seq<Packet>, d: Direction)
    ensures Sent(Gather(k, list).events, d) == Side(Gather(k, list), d)
  {
    if list != [] {
      var p, earlier := list[|list| - 1], Gather(k, list[..|list| - 1]);
      SidesFollowEvents(k, list[..|list| - 1], d);
      OneMoreEvent(earlier, DirectionOf(k, p), p, d);
    }
  }

  /** In the analysis: the turns reported for a flow spell out its two reported streams. */
  lemma FlowTurnsMatchStreams(list: seq<Packet>, k: FlowKey, d: Direction)
    requires k in After(list).flows && Continuous(Groups(After(list).flows[k].events))
    ensures var s := After(list).flows[k];
            && Alternate(TurnsOf(Groups(s.events)))
            && Said(TurnsOf(Groups(s.events)), d) == Assemble(Side(s, d)).output && !Assemble(Side(s, d)).gap
  {
    EachFlowIsGathered(list, k);
    SidesFollowEvents(k, list, d);
    TurnsMatchStreams(After(list).flows[k].events, d);
  }
}
