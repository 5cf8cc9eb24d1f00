/** Streams that pass the end of the sequence space: when they are put back together right. */
module SequenceWrap {
  import opened Base
  import opened Ordered
  import opened Reassembly

  lemma {:induction false} WrappedMeans(n: nat)
    ensures Wrapped(n) == n % 4294967296
  {
    if n >= 4294967296 {
      WrappedMeans(n - 4294967296);
    }
  }

  // ----- A stream in pieces

  function Joined(pieces: seq<bytes>): bytes
  {
    if pieces == [] then [] else pieces[0] + Joined(pieces[1..])
  }

  ghost predicate NonEmpty(pieces: seq<bytes>)
  {
    forall i :: 0 <= i < |pieces| ==> pieces[i] != []
  }

  /** The segments of a stream whose first byte has the number `start`. */
  function Numbered(start: nat, pieces: seq<bytes>): seq<Segment>
    decreases |pieces|
  {
    if pieces == [] then []
    else [Segment(start % 0x1_0000_0000, pieces[0])] + Numbered(start + |pieces[0]|, pieces[1..])
  }

  /** The segments of a flow by their sequence numbers. */
  ghost predicate Holds(segments: map<nat, bytes>, list: seq<Segment>)
  {
    && (forall s :: s in list ==> s.start in segments && segments[s.start] == s.data)
    && (forall k :: k in segments ==> Segment(k, segments[k]) in list)
  }

  // ----- Segments in ascending order

  ghost predicate InAscent(list: seq<Segment>)
  {
    forall i, j :: 0 <= i < j < |list| ==> list[i].start < list[j].start
  }

  lemma {:induction false} InOrderIs(segments: map<nat, bytes>, list: seq<Segment>)
    requires Holds(segments, list) && InAscent(list)
    ensures InOrder(segments) == list
  {
    var keys := seq(|list|, i requires 0 <= i < |list| => list[i].start);
    forall k
      ensures k in keys <==> k in segments.Keys
    {
      if k in keys {
        var i :| 0 <= i < |keys| && keys[i] == k;
        assert list[i] in list;
      }
      if k in segments {
        var i :| 0 <= i < |list| && list[i] == Segment(k, segments[k]);
        assert keys[i] == k;
      }
    }
    SortedIs(segments.Keys, keys);
    forall i | 0 <= i < |list|
      ensures Segment(keys[i], segments[keys[i]]) == list[i]
    {
      assert list[i] in list;
    }
  }

  /** From this number on the segments of a stream follow each other and do not pass the end, except perhaps
      the last one. */
  lemma {:induction false} NumberedAscend(start: nat, pieces: seq<bytes>)
    requires NonEmpty(pieces) && pieces != [] && start + |Joined(pieces[..|pieces| - 1])| < 0x1_0000_0000
    ensures InAscent(Numbered(start, pieces))
    ensures forall i :: 0 <= i < |Numbered(start, pieces)| ==> start <= Numbered(start, pieces)[i].start
    decreases |pieces|
  {
    if |pieces| > 1 {
      var rest := pieces[1..];
      assert pieces[..|pieces| - 1][1..] == rest[..|rest| - 1];
      NumberedAscend(start + |pieces[0]|, rest);
    }
  }

  lemma {:induction false} AbsorbAdjacent(p: Progress, s: Segment)
    requires s.start == p.next && s.data != []
    ensures Absorb(p, s) == Progress(p.output + s.data, Wrapped(s.start + |s.data|), p.duplicate, p.gap)
  {
    assert s.data[0..] == s.data;
  }

  lemma {:induction false} PiecesNext(start: nat, pieces: seq<bytes>)
    requires pieces != [] && start < 0x1_0000_0000
    ensures Numbered(start, pieces) == [Segment(start, pieces[0])] + Numbered(start + |pieces[0]|, pieces[1..])
    ensures Joined(pieces) == pieces[0] + Joined(pieces[1..])
    ensures |pieces| > 1 ==>
              Joined(pieces[..|pieces| - 1]) == pieces[0] + Joined(pieces[1..][..|pieces[1..]| - 1])
  {
    if |pieces| > 1 {
      var front := pieces[..|pieces| - 1];
      assert front[0] == pieces[0] && front[1..] == pieces[1..][..|pieces[1..]| - 1];
    }
  }

  lemma {:induction false} AbsorbFirst(p: Progress, s: Segment, rest: seq<Segment>)
    ensures AbsorbAll(p, [s] + rest) == AbsorbAll(Absorb(p, s), rest)
  {
    assert ([s] + rest)[1..] == rest;
  }

  lemma {:induction false} OutputGrows(a: bytes, b: bytes, c: bytes)
    ensures a + b + c == a + (b + c) && a + [] == a
  {
  }

  /** From `p` to `q` these bytes were written; the next number is known unless the end was passed. */
  ghost predicate Wrote(p: Progress, q: Progress, text: bytes)
  {
    && q.output == p.output + text && q.duplicate == p.duplicate && q.gap == p.gap
    && (p.next + |text| < 0x1_0000_0000 ==> q.next == p.next + |text|)
  }

  lemma {:induction false} WroteMore(p: Progress, q: Progress, r: Progress, a: bytes, b: bytes)
    requires Wrote(p, q, a) && q.next == p.next + |a| && Wrote(q, r, b)
    ensures Wrote(p, r, a + b)
  {
    OutputGrows(p.output, a, b);
  }

  lemma {:induction false} OneIsWritten(p: Progress, piece: bytes)
    requires piece != []
    ensures Wrote(p, Absorb(p, Segment(p.next, piece)), piece)
  {
    AbsorbAdjacent(p, Segment(p.next, piece));
  }

  /** A piece is written, and then `text` by the segments behind it. */
  lemma {:induction false} FirstIsWritten(p: Progress, piece: bytes, tail: seq<Segment>, text: bytes)
    requires piece != []
    ensures var q := Absorb(p, Segment(p.next, piece));
            q.next == p.next + |piece| && Wrote(q, AbsorbAll(q, tail), text)
            ==> Wrote(p, AbsorbAll(p, [Segment(p.next, piece)] + tail), piece + text)
  {
    var q := Absorb(p, Segment(p.next, piece));
    OneIsWritten(p, piece);
    AbsorbFirst(p, Segment(p.next, piece), tail);
    if q.next == p.next + |piece| && Wrote(q, AbsorbAll(q, tail), text) {
      WroteMore(p, q, AbsorbAll(q, tail), piece, text);
    }
  }

  lemma {:induction false} NextIsWritten(p: Progress, piece: bytes)
    requires piece != [] && p.next + |piece| < 0x1_0000_0000
    ensures Absorb(p, Segment(p.next, piece)).next == p.next + |piece|
  {
    OneIsWritten(p, piece);
  }

  lemma {:induction false} LastIsWritten(p: Progress, piece: bytes)
    requires piece != []
    ensures Wrote(p, AbsorbAll(p, [Segment(p.next, piece)] + []), piece + [])
  {
    OneIsWritten(p, piece);
    AbsorbFirst(p, Segment(p.next, piece), []);
    OutputGrows(piece, [], []);
  }

  /** Pieces that follow each other are written one behind the other. */
  lemma {:induction false} PiecesAreWritten(p: Progress, pieces: seq<bytes>)
    requires NonEmpty(pieces) && pieces != [] && p.next + |Joined(pieces[..|pieces| - 1])| < 0x1_0000_0000
    ensures Wrote(p, AbsorbAll(p, Numbered(p.next, pieces)), Joined(pieces))
    decreases |pieces|
  {
    var piece, rest := pieces[0], pieces[1..];
    PiecesNext(p.next, pieces);
    if rest == [] {
      LastIsWritten(p, piece);
    } else {
      NextIsWritten(p, piece);
      PiecesAreWritten(Absorb(p, Segment(p.next, piece)), rest);
      FirstIsWritten(p, piece, Numbered(p.next + |piece|, rest), Joined(rest));
    }
  }

  /** If no segment starts behind the end of the sequence space, the stream is put back together. */
  lemma {:induction false} UnwrappedIsRight(segments: map<nat, bytes>, start: nat, pieces: seq<bytes>)
    requires NonEmpty(pieces) && pieces != [] && start + |Joined(pieces[..|pieces| - 1])| < 0x1_0000_0000
    requires Holds(segments, Numbered(start, pieces))
    ensures Assemble(segments) == Stream(Joined(pieces), 0, false)
  {
    var list := Numbered(start, pieces);
    NumberedAscend(start, pieces);
    InOrderIs(segments, list);
    assert list[0].start == start;
    PiecesAreWritten(Progress([], start, 0, false), pieces);
    assert [] + Joined(pieces) == Joined(pieces);
  }

  // ----- Segments behind the end

  lemma {:induction false} AbsorbTwice(p: Progress, a: seq<Segment>, b: seq<Segment>)
    ensures AbsorbAll(p, a + b) == AbsorbAll(AbsorbAll(p, a), b)
    decreases |a|
  {
    if a == [] {
      assert a + b == b;
    } else {
      assert (a + b)[1..] == a[1..] + b;
      AbsorbTwice(Absorb(p, a[0]), a[1..], b);
    }
  }

  lemma {:induction false} GapStays(p: Progress, list: seq<Segment>)
    requires p.gap
    ensures AbsorbAll(p, list).gap
    decreases |list|
  {
    if list != [] {
      GapStays(Absorb(p, list[0]), list[1..]);
    }
  }

  lemma {:induction false} JoinedAppend(a: seq<bytes>, b: seq<bytes>)
    ensures Joined(a + b) == Joined(a) + Joined(b)
  {
    if a == [] {
      assert a + b == b;
    } else {
      assert (a + b)[1..] == a[1..] + b;
      JoinedAppend(a[1..], b);
    }
  }

  lemma {:induction false} NumberedAppend(start: nat, a: seq<bytes>, b: seq<bytes>)
    ensures Numbered(start, a + b) == Numbered(start, a) + Numbered(start + |Joined(a)|, b)
    decreases |a|
  {
    if a == [] {
      assert a + b == b;
    } else {
      assert (a + b)[1..] == a[1..] + b;
      NumberedAppend(start + |a[0]|, a[1..], b);
    }
  }

  lemma {:induction false} NumberedWraps(start: nat, pieces: seq<bytes>)
    ensures Numbered(start + 0x1_0000_0000, pieces) == Numbered(start, pieces)
    decreases |pieces|
  {
    if pieces != [] {
      assert (start + 0x1_0000_0000) % 0x1_0000_0000 == start % 0x1_0000_0000;
      NumberedWraps(start + |pieces[0]|, pieces[1..]);
    }
  }

  lemma {:induction false} NumbersBelow(start: nat, pieces: seq<bytes>)
    requires start + |Joined(pieces)| <= 0x1_0000_0000 && NonEmpty(pieces)
    ensures InAscent(Numbered(start, pieces))
    ensures forall s :: s in Numbered(start, pieces) ==> start <= s.start < start + |Joined(pieces)|
    decreases |pieces|
  {
    if pieces != [] {
      var first, rest := Segment(start, pieces[0]), Numbered(start + |pieces[0]|, pieces[1..]);
      NumbersBelow(start + |pieces[0]|, pieces[1..]);
      PiecesNext(start, pieces);
      FirstIsLowest(first, rest);
    }
  }

  lemma {:induction false} FirstIsLowest(first: Segment, rest: seq<Segment>)
    requires InAscent(rest) && forall s :: s in rest ==> first.start < s.start
    ensures InAscent([first] + rest)
  {
    assert forall i :: 0 <= i < |rest| ==> rest[i] in rest;
  }

  /** `behind` starts where the space ends, and `front` starts further up: in ascending order `behind` comes
      first, and there is a hole before `front`. */
  lemma {:induction false} HoleBeforeFront(start: nat, high: seq<Segment>, behind: seq<bytes>, from: nat)
    requires NonEmpty(behind) && behind != [] && high != [] && high[0].start == start
    requires from + |Joined(behind)| < start < 0x1_0000_0000
    ensures AbsorbAll(Progress([], from, 0, false), Numbered(from, behind) + high).gap
  {
    var p := Progress([], from, 0, false);
    AbsorbTwice(p, Numbered(from, behind), high);
    LastIsPart(behind);
    PiecesAreWritten(p, behind);
    GapBefore(AbsorbAll(p, Numbered(from, behind)), high);
  }

  lemma {:induction false} AscentTogether(low: seq<Segment>, high: seq<Segment>, limit: nat)
    requires InAscent(low) && InAscent(high)
    requires forall s :: s in low ==> s.start < limit
    requires forall i :: 0 <= i < |high| ==> limit <= high[i].start
    ensures InAscent(low + high)
  {
    assert forall i :: 0 <= i < |low| ==> low[i] in low;
  }

  lemma {:induction false} FrontComesLast(start: nat, front: seq<bytes>, behind: seq<bytes>, from: nat)
    requires NonEmpty(front) && NonEmpty(behind) && front != [] && behind != []
    requires start + |Joined(front[..|front| - 1])| < 0x1_0000_0000
    requires from + |Joined(behind)| < start
    ensures InAscent(Numbered(from, behind) + Numbered(start, front))
    ensures var list := Numbered(from, behind) + Numbered(start, front);
            list[0].start == from && AbsorbAll(Progress([], from, 0, false), list).gap
  {
    NumbersBelow(from, behind);
    NumberedAscend(start, front);
    PiecesNext(start, front);
    PiecesNext(from, behind);
    AscentTogether(Numbered(from, behind), Numbered(start, front), start);
    HoleBeforeFront(start, Numbered(start, front), behind, from);
  }

  lemma {:induction false} LastIsPart(pieces: seq<bytes>)
    requires pieces != []
    ensures |Joined(pieces[..|pieces| - 1])| <= |Joined(pieces)|
  {
    JoinedAppend(pieces[..|pieces| - 1], [pieces[|pieces| - 1]]);
    assert pieces[..|pieces| - 1] + [pieces[|pieces| - 1]] == pieces;
  }

  lemma {:induction false} GapBefore(p: Progress, list: seq<Segment>)
    requires list != [] && p.next < list[0].start
    ensures AbsorbAll(p, list).gap
  {
    GapStays(Absorb(p, list[0]), list[1..]);
  }

  lemma {:induction false} GapIsSeen(segments: map<nat, bytes>, list: seq<Segment>)
    requires Holds(segments, list) && InAscent(list) && list != []
    requires AbsorbAll(Progress([], list[0].start, 0, false), list).gap
    ensures Assemble(segments).gap
  {
    InOrderIs(segments, list);
  }

  lemma {:induction false} OtherOrder(segments: map<nat, bytes>, a: seq<Segment>, b: seq<Segment>)
    requires Holds(segments, a + b)
    ensures Holds(segments, b + a)
  {
    assert forall s :: s in b + a <==> s in a + b;
  }

  /** If a segment starts behind the end, a gap is reported. */
  lemma {:induction false} WrappedHasGap(segments: map<nat, bytes>, start: nat, front: seq<bytes>, behind: seq<bytes>)
    requires NonEmpty(front) && NonEmpty(behind) && front != [] && behind != []
    requires start + |Joined(front[..|front| - 1])| < 0x1_0000_0000 <= start + |Joined(front)|
    requires |Joined(front)| + |Joined(behind)| < 0x1_0000_0000
    requires Holds(segments, Numbered(start, front + behind))
    ensures Assemble(segments).gap
  {
    var from := start + |Joined(front)| - 0x1_0000_0000;
    BehindIsLow(segments, start, front, behind, from);
    FrontComesLast(start, front, behind, from);
    GapIsSeen(segments, Numbered(from, behind) + Numbered(start, front));
  }

  lemma {:induction false} BehindIsLow(segments: map<nat, bytes>, start: nat, front: seq<bytes>, behind: seq<bytes>,
                                       from: nat)
    requires Holds(segments, Numbered(start, front + behind)) && from + 0x1_0000_0000 == start + |Joined(front)|
    ensures Holds(segments, Numbered(from, behind) + Numbered(start, front))
  {
    NumberedAppend(start, front, behind);
    NumberedWraps(from, behind);
    OtherOrder(segments, Numbered(start, front), Numbered(from, behind));
  }

  // ----- Where the end is passed

  /** The pieces up to the one that reaches the end. */
  lemma {:induction false} Reaching(start: nat, pieces: seq<bytes>) returns (n: nat)
    requires pieces != [] && start < 0x1_0000_0000 <= start + |Joined(pieces[..|pieces| - 1])|
    ensures 0 < n < |pieces|
    ensures start + |Joined(pieces[..n - 1])| < 0x1_0000_0000 <= start + |Joined(pieces[..n])|
  {
    n := |pieces| - 1;
    while start + |Joined(pieces[..n - 1])| >= 0x1_0000_0000
      invariant 0 < n < |pieces| && 0x1_0000_0000 <= start + |Joined(pieces[..n])|
      decreases n
    {
      n := n - 1;
    }
  }

  /** A stream of less than 2^32 bytes, in any pieces and with any first number, is put back together if and
      only if no piece starts behind the end of the sequence space; otherwise a gap is reported. */
  lemma {:induction false} WrapIff(segments: map<nat, bytes>, start: nat, pieces: seq<bytes>)
    requires NonEmpty(pieces) && pieces != [] && start < 0x1_0000_0000 && |Joined(pieces)| < 0x1_0000_0000
    requires Holds(segments, Numbered(start, pieces))
    ensures Assemble(segments) == Stream(Joined(pieces), 0, false)
       <==> start + |Joined(pieces[..|pieces| - 1])| < 0x1_0000_0000
    ensures Assemble(segments).gap <==> start + |Joined(pieces[..|pieces| - 1])| >= 0x1_0000_0000
  {
    if start + |Joined(pieces[..|pieces| - 1])| < 0x1_0000_0000 {
      UnwrappedIsRight(segments, start, pieces);
    } else {
      var n := Reaching(start, pieces);
      var front, behind := pieces[..n], pieces[n..];
      assert front + behind == pieces && front[..|front| - 1] == pieces[..n - 1];
      JoinedAppend(front, behind);
      WrappedHasGap(segments, start, front, behind);
    }
  }
}
