/** Exactly when one direction of an HTTP/2 connection is refused. */
module Http2Refusals {
  import opened Base
  import opened Http2

  /** RST_STREAM, PUSH_PROMISE or GOAWAY. */
  predicate Forbidden(f: Frame)
  {
    f.kind == 3 || f.kind == 5 || f.kind == 7
  }

  /** The frame opens a header block that it does not finish, or continues one. */
  predicate Extends(f: Frame)
  {
    f.kind == CONTINUATION || (f.kind == HEADERS && f.id > 0 && !EndHeaders(f.flags))
  }

  /** At number `k`, frame `i` is the one that has left a header block open. */
  predicate LeavesOpen(frames: seq<Frame>, i: nat, k: nat)
    requires k <= |frames|
  {
    i < k && Extends(frames[i]) && !EndHeaders(frames[i].flags) && forall j :: i < j < k ==> !Extends(frames[j])
  }

  /** Frame `k`, if it is a CONTINUATION, goes on with a block that is open on its stream. */
  ghost predicate Follows(frames: seq<Frame>, k: nat)
    requires k < |frames|
  {
    frames[k].kind == CONTINUATION ==> exists i: nat :: LeavesOpen(frames, i, k) && frames[i].id == frames[k].id
  }

  ghost predicate Chained(frames: seq<Frame>)
  {
    forall k: nat :: k < |frames| ==> Follows(frames, k)
  }

  ghost predicate Unfinished(frames: seq<Frame>)
  {
    exists i: nat :: LeavesOpen(frames, i, |frames|)
  }

  predicate AnyForbidden(frames: seq<Frame>)
  {
    exists i :: 0 <= i < |frames| && Forbidden(frames[i])
  }

  /** The header blocks that the frames finish, in the order in which they do. */
  function Finished(frames: seq<Frame>, open: Option<Pending>): seq<(nat, bytes)>
    decreases |frames|
  {
    if frames == [] then []
    else
      var f, rest := frames[0], frames[1..];
      if f.kind == HEADERS && f.id > 0 then
        if EndHeaders(f.flags) then [(f.id, f.payload)] + Finished(rest, open)
        else Finished(rest, Some(Pending(f.id, f.flags, f.payload)))
      else if f.kind == CONTINUATION && open.Some? then
        var block := open.value.block + f.payload;
        if EndHeaders(f.flags) then [(open.value.id, block)] + Finished(rest, None)
        else Finished(rest, Some(open.value.(block := block)))
      else Finished(rest, open)
  }

  // ----- The stream on which a block is open, frame by frame

  /** None when a CONTINUATION does not fit; otherwise the stream of the open block, if any. */
  function Next(open: Option<nat>, f: Frame): Option<Option<nat>>
  {
    if !Extends(f) then Some(open)
    else if f.kind == CONTINUATION && open != Some(f.id) then None
    else Some(if EndHeaders(f.flags) then None else Some(f.id))
  }

  function Scan(open: Option<nat>, frames: seq<Frame>): Option<Option<nat>>
    decreases |frames|
  {
    if frames == [] then Some(open)
    else match Next(open, frames[0]) case None => None case Some(next) => Scan(next, frames[1..])
  }

  lemma {:induction false} ScanAppend(open: Option<nat>, frames: seq<Frame>, f: Frame)
    ensures Scan(open, frames + [f])
         == match Scan(open, frames) case None => None case Some(now) => Next(now, f)
    decreases |frames|
  {
    if frames == [] {
      assert ([] + [f])[1..] == [];
    } else {
      assert (frames + [f])[1..] == frames[1..] + [f];
      match Next(open, frames[0])
      case None =>
      case Some(next) => ScanAppend(next, frames[1..], f);
    }
  }

  /** Where the scan of the frames ends, said of the frames. */
  ghost predicate EndsAt(frames: seq<Frame>, now: Option<nat>)
  {
    match now
    case None => !Unfinished(frames)
    case Some(id) => exists i: nat :: LeavesOpen(frames, i, |frames|) && frames[i].id == id
  }

  lemma OpenLonger(frames: seq<Frame>, f: Frame, i: nat, k: nat)
    requires k <= |frames|
    ensures LeavesOpen(frames, i, k) <==> LeavesOpen(frames + [f], i, k)
  {
    var all := frames + [f];
    assert forall j :: 0 <= j < k ==> all[j] == frames[j];
  }

  lemma FollowsLonger(frames: seq<Frame>, f: Frame, k: nat)
    requires k < |frames|
    ensures Follows(frames, k) <==> Follows(frames + [f], k)
  {
    var all := frames + [f];
    assert all[k] == frames[k];
    forall i: nat | i < k
      ensures LeavesOpen(frames, i, k) <==> LeavesOpen(all, i, k)
      ensures all[i] == frames[i]
    {
      OpenLonger(frames, f, i, k);
    }
  }

  lemma ChainedLonger(frames: seq<Frame>, f: Frame)
    ensures Chained(frames + [f]) <==> Chained(frames) && Follows(frames + [f], |frames|)
  {
    forall k: nat | k < |frames|
      ensures Follows(frames, k) <==> Follows(frames + [f], k)
    {
      FollowsLonger(frames, f, k);
    }
  }

  /** The last frame fits exactly if the scan goes on, and the scan stays right. */
  lemma NextMeans(frames: seq<Frame>, f: Frame, now: Option<nat>)
    requires EndsAt(frames, now)
    ensures Next(now, f).Some? <==> Follows(frames + [f], |frames|)
    ensures Next(now, f).Some? ==> EndsAt(frames + [f], Next(now, f).value)
  {
    var all, n := frames + [f], |frames|;
    forall i: nat | i < n
      ensures LeavesOpen(frames, i, n) <==> LeavesOpen(all, i, n)
      ensures all[i] == frames[i]
    {
      OpenLonger(frames, f, i, n);
    }
    assert all[n] == f;
    LastFrame(all, n);
  }

  /** What the last frame does to the open block. */
  lemma LastFrame(all: seq<Frame>, n: nat)
    requires |all| == n + 1
    ensures Extends(all[n]) ==> (LeavesOpen(all, n, n + 1) <==> !EndHeaders(all[n].flags))
    ensures forall i: nat :: i < n ==>
              (LeavesOpen(all, i, n + 1) <==> LeavesOpen(all, i, n) && !Extends(all[n]))
    ensures !Extends(all[n]) ==> !LeavesOpen(all, n, n + 1)
  {
    forall i: nat | i < n
      ensures LeavesOpen(all, i, n + 1) <==> LeavesOpen(all, i, n) && !Extends(all[n])
    {
      if LeavesOpen(all, i, n) && !Extends(all[n]) {
        assert forall j :: i < j < n + 1 ==> !Extends(all[j]);
      }
    }
  }

  lemma {:induction false} ScanMeans(frames: seq<Frame>)
    ensures Scan(None, frames).Some? <==> Chained(frames)
    ensures Scan(None, frames).Some? ==> EndsAt(frames, Scan(None, frames).value)
    decreases |frames|
  {
    if frames != [] {
      var init, last := frames[..|frames| - 1], frames[|frames| - 1];
      assert frames == init + [last];
      ScanMeans(init);
      ScanAppend(None, init, last);
      ChainedLonger(init, last);
      if Scan(None, init).Some? {
        NextMeans(init, last, Scan(None, init).value);
      }
    }
  }

  // ----- The parser

  function OpenId(pending: Option<Pending>): Option<nat>
  {
    match pending case None => None case Some(p) => Some(p.id)
  }

  /** None of the three reasons to refuse the frames. */
  ghost predicate Passes<S>(h: Hpack<S>, st: State<S>, frames: seq<Frame>)
  {
    !AnyForbidden(frames) && Scan(OpenId(st.pending), frames).Some?
    && DecodeBlocks(h, st.decoder, Finished(frames, st.pending)).Some?
  }

  /** One frame: what it adds to the finished blocks, and what it leaves to the rest. */
  lemma FrameStep<S>(h: Hpack<S>, st: State<S>, f: Frame, rest: seq<Frame>)
    ensures Accept(h, st, f).None? ==> !Passes(h, st, [f] + rest)
    ensures Accept(h, st, f).Some? ==>
              var st1 := Accept(h, st, f).value;
              (Passes(h, st, [f] + rest) <==> Passes(h, st1, rest))
              && Next(OpenId(st.pending), f) == Some(OpenId(st1.pending))
  {
  }

  lemma {:induction false} AcceptedIff<S>(h: Hpack<S>, st: State<S>, frames: seq<Frame>)
    ensures AcceptAll(h, st, frames).Some? <==> Passes(h, st, frames)
    ensures AcceptAll(h, st, frames).Some? ==>
              Scan(OpenId(st.pending), frames) == Some(OpenId(AcceptAll(h, st, frames).value.pending))
    decreases |frames|
  {
    if frames != [] {
      assert frames == [frames[0]] + frames[1..];
      FrameStep(h, st, frames[0], frames[1..]);
      match Accept(h, st, frames[0])
      case None =>
      case Some(st1) => AcceptedIff(h, st1, frames[1..]);
    }
  }

  /** A direction made of any frames is refused exactly if a RST_STREAM, PUSH_PROMISE or GOAWAY frame
      occurs in it, or a CONTINUATION does not go on with the block that is open, or a block is left
      open at the end, or one of the finished blocks does not decode. */
  lemma RefusedIff<S(!new)>(h: Hpack<S>, frames: seq<Frame>, client: bool)
    requires AllValid(frames)
    ensures ParseDirection(h, (if client then PREFACE else []) + EncodeAll(frames), client).None?
       <==> (AnyForbidden(frames) || !Chained(frames) || Unfinished(frames)
             || DecodeBlocks(h, h.init, Finished(frames, None)).None?)
  {
    var at := if client then 24 else 0;
    var s := (if client then PREFACE else []) + EncodeAll(frames);
    assert s[at..] == EncodeAll(frames);
    ParsingReadsFrames(h, s, at, frames);
    assert ParseFrom(h, s, at, Initial(h)) == AcceptAll(h, Initial(h), frames);
    AcceptedIff(h, Initial(h), frames);
    ScanMeans(frames);
  }
}
