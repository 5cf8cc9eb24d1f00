/** Putting a direction of a TCP connection back together from its segments, keyed by sequence number. */
module Reassembly {
  import opened Base
  import opened Ordered

  const SEQUENCE_SPACE: nat := 0x1_0000_0000

  datatype Segment = Segment(start: nat, data: bytes)

  /** The loop state: what was written, the next expected sequence number, the bytes that were
      dropped as repetitions, and whether a number was skipped. */
  datatype Progress = Progress(output: bytes, next: nat, duplicate: nat, gap: bool)

  datatype Stream = Stream(output: bytes, duplicate: nat, gap: bool)

  function Min(a: nat, b: nat): nat
  {
    if a <= b then a else b
  }

  /** Sequence numbers are unsigned 32-bit numbers. */
  function Wrapped(n: nat): nat
  {
    if n < SEQUENCE_SPACE then n else Wrapped(n - SEQUENCE_SPACE)
  }

  /** What a segment adds when everything before `from` is already written. */
  function Kept(s: Segment, from: nat): bytes
    requires s.start <= from
  {
    if from - s.start < |s.data| then s.data[from - s.start..] else []
  }

  function Absorb(p: Progress, s: Segment): Progress
  {
    var from := if s.start > p.next then s.start else p.next;
    var next := if from - s.start < |s.data| then Wrapped(s.start + |s.data|) else from;
    Progress(p.output + Kept(s, from), next, p.duplicate + Min(from - s.start, |s.data|), p.gap || s.start > p.next)
  }

  function AbsorbAll(p: Progress, list: seq<Segment>): Progress
    decreases |list|
  {
    if list == [] then p else AbsorbAll(Absorb(p, list[0]), list[1..])
  }

  function Listed(segments: map<nat, bytes>, keys: seq<nat>): seq<Segment>
    requires forall i :: 0 <= i < |keys| ==> keys[i] in segments
  {
    seq(|keys|, i requires 0 <= i < |keys| => Segment(keys[i], segments[keys[i]]))
  }

  /** The segments in ascending order of their sequence numbers. */
  function InOrder(segments: map<nat, bytes>): seq<Segment>
  {
    SortedMeans(segments.Keys);
    Listed(segments, Sorted(segments.Keys))
  }

  /** The whole walk over a list, which starts at its first sequence number. */
  function Walk(list: seq<Segment>): Progress
  {
    if list == [] then Progress([], 0, 0, false)
    else AbsorbAll(Progress([], list[0].start, 0, false), list)
  }

  function Assemble(segments: map<nat, bytes>): Stream
  {
    var p := Walk(InOrder(segments));
    Stream(p.output, p.duplicate, p.gap)
  }

  lemma AbsorbNext(p: Progress, list: seq<Segment>, i: nat)
    requires i < |list|
    ensures AbsorbAll(p, list[i..]) == AbsorbAll(Absorb(p, list[i]), list[i + 1..])
  {
    assert list[i..][0] == list[i] && list[i..][1..] == list[i + 1..];
  }

  method AbsorbSegments(list: seq<Segment>, low: nat) returns (p: Progress)
    ensures p == AbsorbAll(Progress([], low, 0, false), list)
  {
    p := Progress([], low, 0, false);
    ghost var start := p;
    assert list[0..] == list;
    for i := 0 to |list|
      invariant AbsorbAll(p, list[i..]) == AbsorbAll(start, list)
    {
      AbsorbNext(p, list, i);
      p := AbsorbOne(p, list[i]);
    }
  }

  /** The body of the loop. */
  method AbsorbOne(p: Progress, s: Segment) returns (q: Progress)
    ensures q == Absorb(p, s)
  {
    var output, next, duplicate, gap := p.output, p.next, p.duplicate, p.gap;
    if s.start > next {
      gap := true;
      next := s.start;
    }
    var overlap := next - s.start;
    duplicate := duplicate + Min(overlap, |s.data|);
    if overlap < |s.data| {
      output := output + s.data[overlap..];
      next := Wrapped(s.start + |s.data|);
    }
    assert p.output + [] == p.output;
    q := Progress(output, next, duplicate, gap);
  }

  method Reassemble(segments: map<nat, bytes>) returns (r: Stream)
    ensures r == Assemble(segments)
  {
    var list := InOrder(segments);
    if list == [] {
      return Stream([], 0, false);
    }
    var p := AbsorbSegments(list, list[0].start);
    r := Stream(p.output, p.duplicate, p.gap);
  }

  // ----- What a stream is

  predicate Covers(s: Segment, p: nat)
  {
    s.start <= p < s.start + |s.data|
  }

  /** The byte at position `p`: that of the first segment of the list that covers it. */
  function ByteAt(list: seq<Segment>, p: nat): Option<byte>
  {
    if list == [] then None
    else if Covers(list[0], p) then Some(list[0].data[p - list[0].start])
    else ByteAt(list[1..], p)
  }

  /** The covered positions of [from, to), ascending, each with its byte. */
  function Render(list: seq<Segment>, from: nat, to: nat): bytes
    decreases to - from
  {
    if from >= to then []
    else (match ByteAt(list, from) case Some(b) => [b] case None => []) + Render(list, from + 1, to)
  }

  /** A position of [from, to) that no segment covers. */
  ghost predicate Hole(list: seq<Segment>, from: nat, to: nat)
  {
    exists p :: from <= p < to && ByteAt(list, p).None?
  }

  function Total(list: seq<Segment>): nat
  {
    if list == [] then 0 else |list[0].data| + Total(list[1..])
  }

  /** Ascending, non-empty, and below the wrap of the sequence space. */
  ghost predicate Tidy(list: seq<Segment>)
  {
    && (forall i, j :: 0 <= i < j < |list| ==> list[i].start < list[j].start)
    && (forall i :: 0 <= i < |list| ==> 0 < |list[i].data| && list[i].start + |list[i].data| < SEQUENCE_SPACE)
  }

  lemma {:induction false} ByteAtAppend(list: seq<Segment>, s: Segment, p: nat)
    ensures ByteAt(list + [s], p)
         == if ByteAt(list, p).Some? then ByteAt(list, p)
            else if Covers(s, p) then Some(s.data[p - s.start]) else None
  {
    if list == [] {
      assert list + [s] == [s] && [s][1..] == [];
    } else {
      assert (list + [s])[1..] == list[1..] + [s];
      ByteAtAppend(list[1..], s, p);
    }
  }

  lemma {:induction false} CoveredMember(list: seq<Segment>, i: nat, p: nat)
    requires i < |list| && Covers(list[i], p)
    ensures ByteAt(list, p).Some?
  {
    if i > 0 && !Covers(list[0], p) {
      CoveredMember(list[1..], i - 1, p);
    }
  }

  lemma {:induction false} RenderSplit(list: seq<Segment>, a: nat, b: nat, c: nat)
    requires a <= b <= c
    ensures Render(list, a, c) == Render(list, a, b) + Render(list, b, c)
    decreases b - a
  {
    if a < b {
      RenderSplit(list, a + 1, b, c);
    }
  }

  lemma {:induction false} RenderAgrees(x: seq<Segment>, y: seq<Segment>, a: nat, b: nat)
    requires forall p :: a <= p < b ==> ByteAt(x, p) == ByteAt(y, p)
    ensures Render(x, a, b) == Render(y, a, b)
    decreases b - a
  {
    if a < b {
      RenderAgrees(x, y, a + 1, b);
    }
  }

  lemma {:induction false} RenderUncovered(list: seq<Segment>, a: nat, b: nat)
    requires forall p :: a <= p < b ==> ByteAt(list, p).None?
    ensures Render(list, a, b) == []
    decreases b - a
  {
    if a < b {
      RenderUncovered(list, a + 1, b);
    }
  }

  lemma {:induction false} RenderData(list: seq<Segment>, s: Segment, a: nat)
    requires s.start <= a <= s.start + |s.data|
    requires forall p :: a <= p < s.start + |s.data| ==> ByteAt(list, p) == Some(s.data[p - s.start])
    ensures Render(list, a, s.start + |s.data|) == s.data[a - s.start..]
    decreases s.start + |s.data| - a
  {
    if a < s.start + |s.data| {
      RenderData(list, s, a + 1);
      assert [s.data[a - s.start]] + s.data[a + 1 - s.start..] == s.data[a - s.start..];
    } else {
      assert s.data[a - s.start..] == [];
    }
  }

  /** The loop invariant: everything before `next` is rendered, and the segment that ends at
      `next` starts no later than any segment to come. */
  ghost predicate Reached(done: seq<Segment>, low: nat, p: Progress)
  {
    && low <= p.next
    && p.output == Render(done, low, p.next)
    && (p.gap <==> Hole(done, low, p.next))
    && |p.output| + p.duplicate == Total(done)
    && (forall q :: q >= p.next ==> ByteAt(done, q).None?)
    && EndsIn(done, low, p.next)
  }

  lemma {:induction false} TotalAppend(list: seq<Segment>, s: Segment)
    ensures Total(list + [s]) == Total(list) + |s.data|
  {
    if list == [] {
      assert list + [s] == [s] && [s][1..] == [];
    } else {
      assert (list + [s])[1..] == list[1..] + [s];
      TotalAppend(list[1..], s);
    }
  }

  /** Positions between the new segment and `next` were covered before. */
  lemma OverlapIsCovered(done: seq<Segment>, low: nat, p: Progress, s: Segment)
    requires Reached(done, low, p) && (done == [] ==> low == s.start)
    requires forall i :: 0 <= i < |done| ==> done[i].start < s.start
    ensures Settled(done, s, p.next)
  {
    if done != [] {
      var i :| 0 <= i < |done| && done[i].start + |done[i].data| == p.next;
      forall q | s.start <= q < p.next
        ensures ByteAt(done, q).Some?
      {
        CoveredMember(done, i, q);
      }
    }
  }

  ghost predicate Extends(all: seq<Segment>, done: seq<Segment>, s: Segment)
  {
    forall q: nat ::
      ByteAt(all, q) == if ByteAt(done, q).Some? then ByteAt(done, q)
                        else if Covers(s, q) then Some(s.data[q - s.start]) else None
  }

  lemma AppendExtends(done: seq<Segment>, s: Segment)
    ensures Extends(done + [s], done, s)
  {
    forall q: nat
      ensures ByteAt(done + [s], q) == if ByteAt(done, q).Some? then ByteAt(done, q)
                                       else if Covers(s, q) then Some(s.data[q - s.start]) else None
    {
      ByteAtAppend(done, s, q);
    }
  }

  /** Past everything rendered so far, only the new segment's remaining data is rendered. */
  lemma RenderTail(all: seq<Segment>, done: seq<Segment>, s: Segment, next: nat, from: nat)
    requires Extends(all, done, s) && next <= from <= s.start + |s.data| && s.start <= from
    requires from == s.start || from == next
    requires forall q :: q >= next ==> ByteAt(done, q).None?
    ensures Render(all, next, s.start + |s.data|) == s.data[from - s.start..]
  {
    var end := s.start + |s.data|;
    RenderSplit(all, next, from, end);
    RenderUncovered(all, next, from);
    RenderData(all, s, from);
    assert [] + s.data[from - s.start..] == s.data[from - s.start..];
  }

  /** Before `next` the new segment adds nothing: what it covers there was covered. */
  ghost predicate Settled(done: seq<Segment>, s: Segment, next: nat)
  {
    forall q :: s.start <= q < next ==> ByteAt(done, q).Some?
  }

  lemma SettledAgrees(all: seq<Segment>, done: seq<Segment>, s: Segment, low: nat, next: nat)
    requires Extends(all, done, s) && Settled(done, s, next)
    ensures forall p :: low <= p < next ==> ByteAt(all, p) == ByteAt(done, p)
    ensures Render(all, low, next) == Render(done, low, next)
    ensures Hole(all, low, next) <==> Hole(done, low, next)
  {
    forall p | low <= p < next
      ensures ByteAt(all, p) == ByteAt(done, p)
    {
    }
    RenderAgrees(all, done, low, next);
  }

  lemma HoleExtended(all: seq<Segment>, done: seq<Segment>, s: Segment, low: nat, next: nat)
    requires Extends(all, done, s) && Settled(done, s, next) && low <= next < s.start + |s.data|
    requires forall q :: q >= next ==> ByteAt(done, q).None?
    ensures Hole(all, low, s.start + |s.data|) <==> Hole(done, low, next) || s.start > next
  {
    SettledAgrees(all, done, s, low, next);
    if s.start > next {
      assert ByteAt(all, next).None?;
    } else {
      assert forall p :: next <= p < s.start + |s.data| ==> ByteAt(all, p).Some?;
    }
  }

  ghost predicate EndsIn(done: seq<Segment>, low: nat, next: nat)
  {
    if done == [] then next == low
    else exists i :: 0 <= i < |done| && done[i].start + |done[i].data| == next
  }

  /** A segment that reaches past `next` adds the part of it that lies there. */
  lemma AbsorbGoesOn(p: Progress, s: Segment)
    requires p.next < s.start + |s.data| < SEQUENCE_SPACE
    ensures var from, next := if s.start > p.next then s.start else p.next, Absorb(p, s);
            && s.start <= from
            && next.output == p.output + s.data[from - s.start..]
            && next.next == s.start + |s.data|
            && (next.gap <==> p.gap || s.start > p.next)
  {
  }

  lemma AbsorbCounts(p: Progress, s: Segment)
    ensures |Absorb(p, s).output| + Absorb(p, s).duplicate == |p.output| + p.duplicate + |s.data|
  {
    var from := if s.start > p.next then s.start else p.next;
    assert |Kept(s, from)| + Min(from - s.start, |s.data|) == |s.data|;
  }

  lemma {:induction false} RenderExtendsAs(all: seq<Segment>, done: seq<Segment>, s: Segment, low: nat, next: nat,
                                           from: nat)
    requires Extends(all, done, s) && low <= next <= from <= s.start + |s.data| && s.start <= from
    requires from == s.start || from == next
    requires Settled(done, s, next) && forall q :: q >= next ==> ByteAt(done, q).None?
    ensures Render(all, low, s.start + |s.data|) == Render(done, low, next) + s.data[from - s.start..]
  {
    SettledAgrees(all, done, s, low, next);
    RenderTail(all, done, s, next, from);
    RenderSplit(all, low, next, s.start + |s.data|);
  }

  lemma {:induction false} RenderExtends(done: seq<Segment>, low: nat, next: nat, s: Segment)
    requires low <= next < s.start + |s.data| && Settled(done, s, next)
    requires forall q :: q >= next ==> ByteAt(done, q).None?
    ensures var from := if s.start > next then s.start else next;
            s.start <= from
            && Render(done + [s], low, s.start + |s.data|) == Render(done, low, next) + s.data[from - s.start..]
  {
    AppendExtends(done, s);
    RenderExtendsAs(done + [s], done, s, low, next, if s.start > next then s.start else next);
  }

  lemma HolesExtend(done: seq<Segment>, low: nat, next: nat, s: Segment)
    requires low <= next < s.start + |s.data| && Settled(done, s, next)
    requires forall q :: q >= next ==> ByteAt(done, q).None?
    ensures Hole(done + [s], low, s.start + |s.data|) <==> Hole(done, low, next) || s.start > next
    ensures forall q :: q >= s.start + |s.data| ==> ByteAt(done + [s], q).None?
  {
    AppendExtends(done, s);
    HoleExtended(done + [s], done, s, low, next);
  }

  lemma ReachedFurther(done: seq<Segment>, low: nat, p: Progress, s: Segment, q: Progress)
    requires Reached(done, low, p) && q.next == s.start + |s.data| && low <= q.next
    requires q.output == Render(done + [s], low, q.next)
    requires q.gap <==> Hole(done + [s], low, q.next)
    requires |q.output| + q.duplicate == Total(done + [s])
    requires forall i :: i >= q.next ==> ByteAt(done + [s], i).None?
    ensures Reached(done + [s], low, q)
  {
    assert (done + [s])[|done|] == s;
  }

  lemma {:induction false} AbsorbExtends(done: seq<Segment>, low: nat, p: Progress, s: Segment)
    requires Reached(done, low, p) && low <= s.start && Settled(done, s, p.next)
    requires p.next < s.start + |s.data| < SEQUENCE_SPACE
    ensures Reached(done + [s], low, Absorb(p, s))
  {
    AbsorbGoesOn(p, s);
    AbsorbCounts(p, s);
    ExtendsTo(done, low, p, s, Absorb(p, s));
  }

  lemma {:induction false} ExtendsTo(done: seq<Segment>, low: nat, p: Progress, s: Segment, q: Progress)
    requires Reached(done, low, p) && low <= s.start && Settled(done, s, p.next)
    requires p.next < s.start + |s.data| == q.next
    requires var from := if s.start > p.next then s.start else p.next; q.output == p.output + s.data[from - s.start..]
    requires q.gap <==> p.gap || s.start > p.next
    requires |q.output| + q.duplicate == |p.output| + p.duplicate + |s.data|
    ensures Reached(done + [s], low, q)
  {
    TotalAppend(done, s);
    RenderExtends(done, low, p.next, s);
    HolesExtend(done, low, p.next, s);
    ReachedFurther(done, low, p, s, q);
  }

  lemma AbsorbRepeats(done: seq<Segment>, low: nat, p: Progress, s: Segment)
    requires Reached(done, low, p) && Settled(done, s, p.next) && s.start + |s.data| <= p.next && 0 < |s.data|
    requires done != []
    ensures Reached(done + [s], low, Absorb(p, s))
  {
    var all := done + [s];
    assert p.output + [] == p.output;
    AbsorbCounts(p, s);
    TotalAppend(done, s);
    AppendExtends(done, s);
    SettledAgrees(all, done, s, low, p.next);
    var i :| 0 <= i < |done| && done[i].start + |done[i].data| == p.next;
    assert all[i] == done[i];
    assert EndsIn(all, low, p.next);
  }

  lemma AbsorbReaches(done: seq<Segment>, low: nat, p: Progress, s: Segment)
    requires Reached(done, low, p) && low <= s.start && (done == [] ==> low == s.start)
    requires forall i :: 0 <= i < |done| ==> done[i].start < s.start
    requires 0 < |s.data| && s.start + |s.data| < SEQUENCE_SPACE
    ensures Reached(done + [s], low, Absorb(p, s))
  {
    OverlapIsCovered(done, low, p, s);
    if s.start + |s.data| > p.next {
      AbsorbExtends(done, low, p, s);
    } else {
      AbsorbRepeats(done, low, p, s);
    }
  }

  lemma {:induction false} AbsorbAllReaches(done: seq<Segment>, rest: seq<Segment>, low: nat, p: Progress)
    requires Tidy(done + rest) && Reached(done, low, p)
    requires forall i :: 0 <= i < |rest| ==> low <= rest[i].start
    requires done == [] && rest != [] ==> low == rest[0].start
    ensures Reached(done + rest, low, AbsorbAll(p, rest))
    decreases |rest|
  {
    var all := done + rest;
    if rest == [] {
      assert all == done;
    } else {
      var s := rest[0];
      assert all[|done|] == s;
      forall i | 0 <= i < |done|
        ensures done[i].start < s.start
      {
        assert all[i] == done[i];
      }
      AbsorbReaches(done, low, p, s);
      assert done + [s] + rest[1..] == all;
      AbsorbAllReaches(done + [s], rest[1..], low, Absorb(p, s));
    }
  }

  // ----- The stream of a segment map

  ghost predicate NoWrap(segments: map<nat, bytes>)
  {
    forall k :: k in segments ==> 0 < |segments[k]| && k + |segments[k]| < SEQUENCE_SPACE
  }

  lemma InOrderIsTidy(segments: map<nat, bytes>)
    requires NoWrap(segments)
    ensures Tidy(InOrder(segments))
  {
    SortedMeans(segments.Keys);
  }

  /** `k` is the segment with the lowest sequence number that covers position `p`. */
  ghost predicate LowestAt(segments: map<nat, bytes>, p: nat, k: nat)
  {
    && k in segments && k <= p < k + |segments[k]|
    && forall j :: j in segments && j <= p < j + |segments[j]| ==> k <= j
  }

  lemma {:induction false} ByteAtIsLowest(segments: map<nat, bytes>, keys: seq<nat>, p: nat)
    requires Ascending(keys) && forall i :: 0 <= i < |keys| ==> keys[i] in segments
    ensures var b := ByteAt(Listed(segments, keys), p);
            && (b.None? ==> forall k :: k in keys ==> !(k <= p < k + |segments[k]|))
            && (b.Some? ==> exists k :: k in keys && k <= p < k + |segments[k]|
                              && (forall j :: j in keys && j <= p < j + |segments[j]| ==> k <= j)
                              && b.value == segments[k][p - k])
  {
    if keys != [] {
      var list := Listed(segments, keys);
      assert list[1..] == Listed(segments, keys[1..]);
      if Covers(list[0], p) {
        assert keys[0] in keys;
      } else {
        ByteAtIsLowest(segments, keys[1..], p);
        assert forall k :: k in keys <==> k == keys[0] || k in keys[1..];
      }
    }
  }

  /** All bytes held by a segment map. */
  function Held(segments: map<nat, bytes>): nat
  {
    Total(InOrder(segments))
  }

  /** The position after the last covered one. */
  function StreamEnd(segments: map<nat, bytes>): nat
  {
    Walk(InOrder(segments)).next
  }

  lemma InOrderIsNotEmpty(segments: map<nat, bytes>)
    requires segments != map[]
    ensures InOrder(segments) != []
  {
    var k :| k in segments;
    SortedMeans(segments.Keys);
    assert k in Sorted(segments.Keys);
  }

  /** Walking a tidy list from its first segment reaches the end of the stream. */
  lemma WalkReaches(list: seq<Segment>)
    requires list != [] && Tidy(list)
    ensures Reached(list, list[0].start, Walk(list))
  {
    var low := list[0].start;
    StartIsReached(low);
    assert [] + list == list;
    assert forall i :: 0 <= i < |list| ==> low <= list[i].start;
    AbsorbAllReaches([], list, low, Progress([], low, 0, false));
  }

  lemma EndIsCovered(list: seq<Segment>, low: nat, p: Progress)
    requires Reached(list, low, p) && list != []
    requires forall i :: 0 <= i < |list| ==> 0 < |list[i].data| && low <= list[i].start
    ensures low < p.next && ByteAt(list, p.next - 1).Some?
  {
    LastIsCovered(list, low, p.next);
  }

  lemma RenderIsNotEmpty(list: seq<Segment>, low: nat, end: nat)
    requires low < end && ByteAt(list, end - 1).Some?
    ensures Render(list, low, end) != []
  {
    RenderSplit(list, low, end - 1, end);
    assert Render(list, end - 1, end) == [ByteAt(list, end - 1).value] + Render(list, end, end);
  }

  lemma ReachedIsNotEmpty(list: seq<Segment>, low: nat, p: Progress)
    requires Reached(list, low, p) && list != []
    requires forall i :: 0 <= i < |list| ==> 0 < |list[i].data| && low <= list[i].start
    ensures low < p.next && ByteAt(list, p.next - 1).Some? && p.output != []
  {
    EndIsCovered(list, low, p);
    RenderIsNotEmpty(list, low, p.next);
  }

  lemma WalkEndsCovered(list: seq<Segment>, p: Progress)
    requires list != [] && Tidy(list) && p == Walk(list)
    ensures list[0].start < p.next && ByteAt(list, p.next - 1).Some? && p.output != []
  {
    WalkReaches(list);
    assert forall i :: 0 <= i < |list| ==> list[0].start <= list[i].start;
    ReachedIsNotEmpty(list, list[0].start, p);
  }

  lemma OutputIsNotEmpty(segments: map<nat, bytes>)
    requires NoWrap(segments) && segments.Keys != {}
    ensures Assemble(segments).output != []
  {
    InOrderIsNotEmpty(segments);
    InOrderIsTidy(segments);
    WalkEndsCovered(InOrder(segments), Walk(InOrder(segments)));
  }

  /** Reassembly meets its meaning. For non-empty segments below the wrap, the output lists the
      covered positions in ascending order, each with its byte; a gap is reported exactly when a
      position in between is missing; and no byte is lost or invented. */
  lemma ReassemblyMeans(segments: map<nat, bytes>)
    requires NoWrap(segments) && segments != map[]
    ensures InOrder(segments) != []
    ensures var list, stream := InOrder(segments), Assemble(segments);
            var low, end := list[0].start, StreamEnd(segments);
            && low < end
            && stream.output == Render(list, low, end)
            && (stream.gap <==> Hole(list, low, end))
            && |stream.output| + stream.duplicate == Held(segments)
            && (forall p: nat :: p < low || p >= end ==> ByteAt(list, p).None?)
            && ByteAt(list, end - 1).Some?
  {
    var list := InOrder(segments);
    InOrderIsNotEmpty(segments);
    InOrderIsTidy(segments);
    WalkReaches(list);
    WalkEndsCovered(list, Walk(list));
    forall q: nat | q < list[0].start
      ensures ByteAt(list, q).None?
    {
      NothingBefore(list, q);
    }
  }

  lemma StartIsReached(low: nat)
    ensures Reached([], low, Progress([], low, 0, false))
  {
  }

  lemma LastIsCovered(list: seq<Segment>, low: nat, next: nat)
    requires list != [] && EndsIn(list, low, next)
    requires forall i :: 0 <= i < |list| ==> 0 < |list[i].data| && low <= list[i].start
    ensures low < next && ByteAt(list, next - 1).Some?
  {
    var i :| 0 <= i < |list| && list[i].start + |list[i].data| == next;
    CoveredMember(list, i, next - 1);
  }

  lemma {:induction false} NothingBefore(list: seq<Segment>, p: nat)
    requires Tidy(list) && forall i :: 0 <= i < |list| ==> p < list[i].start
    ensures ByteAt(list, p).None?
  {
    if list != [] {
      NothingBefore(list[1..], p);
    }
  }

  /** The byte of a position is the one of the lowest-sequence segment that covers it. */
  lemma PositionMeans(segments: map<nat, bytes>, p: nat)
    ensures ByteAt(InOrder(segments), p).None? <==> forall k :: k in segments ==> !(k <= p < k + |segments[k]|)
    ensures forall k :: LowestAt(segments, p, k) ==> ByteAt(InOrder(segments), p) == Some(segments[k][p - k])
  {
    SortedMeans(segments.Keys);
    ByteAtIsLowest(segments, Sorted(segments.Keys), p);
    forall k | LowestAt(segments, p, k)
      ensures ByteAt(InOrder(segments), p) == Some(segments[k][p - k])
    {
      LowestIsByte(segments, p, k);
    }
  }

  lemma LowestIsByte(segments: map<nat, bytes>, p: nat, k: nat)
    requires LowestAt(segments, p, k)
    ensures ByteAt(InOrder(segments), p) == Some(segments[k][p - k])
  {
    SortedMeans(segments.Keys);
    var keys := Sorted(segments.Keys);
    assert k in keys;
    LowestOfKeys(segments, keys, p, k);
  }

  lemma LowestOfKeys(segments: map<nat, bytes>, keys: seq<nat>, p: nat, k: nat)
    requires Ascending(keys) && k in keys && forall i :: 0 <= i < |keys| ==> keys[i] in segments
    requires LowestAt(segments, p, k)
    ensures ByteAt(Listed(segments, keys), p) == Some(segments[k][p - k])
  {
    ByteAtIsLowest(segments, keys, p);
  }

  // ----- Adding up

  lemma ListedCons(segments: map<nat, bytes>, a: nat, rest: seq<nat>)
    requires a in segments && forall i :: 0 <= i < |rest| ==> rest[i] in segments && rest[i] != a
    ensures Listed(segments, [a] + rest) == [Segment(a, segments[a])] + Listed(segments - {a}, rest)
  {
  }

  lemma InOrderStep(segments: map<nat, bytes>)
    requires segments.Keys != {}
    ensures var a := Minimum(segments.Keys);
            InOrder(segments) == [Segment(a, segments[a])] + InOrder(segments - {a})
  {
    var a := Minimum(segments.Keys);
    var rest := Sorted(segments.Keys - {a});
    assert (segments - {a}).Keys == segments.Keys - {a};
    SortedMeans(segments.Keys - {a});
    ListedCons(segments, a, rest);
  }

  lemma HeldStep(segments: map<nat, bytes>)
    requires segments.Keys != {}
    ensures var a := Minimum(segments.Keys); Held(segments) == |segments[a]| + Held(segments - {a})
  {
    InOrderStep(segments);
    var a := Minimum(segments.Keys);
    assert InOrder(segments)[1..] == InOrder(segments - {a});
  }

  lemma TakenOut(segments: map<nat, bytes>, k: nat, data: bytes)
    requires k !in segments
    ensures segments[k := data] - {k} == segments
  {
  }

  lemma {:induction false} HeldAfterInsert(segments: map<nat, bytes>, k: nat, data: bytes)
    requires k !in segments
    ensures Held(segments[k := data]) == Held(segments) + |data|
    decreases |segments|, 1
  {
    var more := segments[k := data];
    assert k in more.Keys;
    HeldStep(more);
    if Minimum(more.Keys) == k {
      TakenOut(segments, k, data);
    } else {
      HeldBehindSmallest(segments, k, data);
    }
  }

  lemma {:induction false} HeldBehindSmallest(segments: map<nat, bytes>, k: nat, data: bytes)
    requires k !in segments && k in segments[k := data].Keys && Minimum(segments[k := data].Keys) != k
    ensures Held(segments[k := data]) == Held(segments) + |data|
    decreases |segments|, 0
  {
    SmallestStays(segments, k, data);
    var a := Minimum(segments.Keys);
    HeldStep(segments[k := data]);
    HeldStep(segments);
    HeldAfterInsert(segments - {a}, k, data);
  }

  lemma SmallestStays(segments: map<nat, bytes>, k: nat, data: bytes)
    requires k !in segments && k in segments[k := data].Keys && Minimum(segments[k := data].Keys) != k
    ensures var a := Minimum(segments[k := data].Keys);
            && segments.Keys != {} && a == Minimum(segments.Keys) && a in segments
            && segments[k := data] - {a} == (segments - {a})[k := data]
            && segments[k := data][a] == segments[a] && |segments - {a}| < |segments| && k !in segments - {a}
  {
    var more := segments[k := data];
    var a := Minimum(more.Keys);
    assert a in segments;
    forall x | x in segments.Keys
      ensures a <= x
    {
      assert x in more.Keys;
    }
    MinimumIs(segments.Keys, a);
    assert (segments - {a}).Keys == segments.Keys - {a};
    assert |(segments - {a}).Keys| < |segments.Keys|;
    assert |segments - {a}| == |(segments - {a}).Keys| && |segments| == |segments.Keys|;
  }
}
