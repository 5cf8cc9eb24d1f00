/** Sending an artifact in chunks, and putting chunks together and checking them on the agent. */
module Artifacts {
  import opened Base

  type Id = nat

  datatype Kind = Pcap | Payload | OtherKind(name: string)

  /** A received chunk; the identifier may be unreadable. */
  datatype Chunk = Chunk(id: Option<Id>, offset: nat, data: bytes, total: nat, sha: string, eof: bool, kind: Kind)

  /** A transfer under way: how much arrived, what was digested, and what was declared. */
  datatype Transfer = Transfer(received: nat, digested: bytes, total: nat, sha: string, kind: Kind)

  /** A verified artifact: a capture stays in its part file, a payload is kept in memory. */
  datatype Completed = InFile | InMemory(data: bytes)

  /** What the agent holds: the two tables of a session, and the part files on its disk. */
  datatype State = State(incoming: map<Id, Transfer>, completed: map<Id, Completed>, files: map<Id, bytes>)

  datatype Outcome = Fine | UnreadableId | OverLimit | OffsetNotZero | FileExists | MetadataChanged | OffsetMismatch
                   | TooLong | TooShort | DigestMismatch

  type Digest = bytes -> string

  const CAPTURE_LIMIT: nat := 512 * 1024 * 1024
  const PAYLOAD_LIMIT: nat := 64 * 1024 * 1024
  const CHUNK_BYTES: nat := 256 * 1024

  function Limit(kind: Kind): nat
  {
    if kind == Pcap then CAPTURE_LIMIT else PAYLOAD_LIMIT
  }

  function Finish(sha256: Digest, s: State, id: Id): (State, Outcome)
    requires id in s.incoming
  {
    var t := s.incoming[id];
    if t.received != t.total then (s, TooShort)
    else
      var rest := s.(incoming := s.incoming - {id});
      if sha256(t.digested) != t.sha then (rest.(files := s.files - {id}), DigestMismatch)
      else if t.kind == Pcap then (rest.(completed := s.completed[id := InFile]), Fine)
      else
        var data := if id in s.files then s.files[id] else [];
        (rest.(completed := s.completed[id := InMemory(data)], files := s.files - {id}), Fine)
  }

  /** A chunk for a transfer that is under way. */
  function Append(sha256: Digest, s: State, id: Id, c: Chunk): (State, Outcome)
    requires id in s.incoming
  {
    var t := s.incoming[id];
    if t.total != c.total || t.sha != c.sha || t.kind != c.kind then (s, MetadataChanged)
    else if c.offset != t.received then (s, OffsetMismatch)
    else if t.received + |c.data| > t.total then (s, TooLong)
    else
      var written := (if id in s.files then s.files[id] else []) + c.data;
      var next := t.(received := t.received + |c.data|, digested := t.digested + c.data);
      var kept := s.(incoming := s.incoming[id := next], files := s.files[id := written]);
      if c.eof then Finish(sha256, kept, id) else (kept, Fine)
  }

  function Accept(sha256: Digest, s: State, c: Chunk): (State, Outcome)
  {
    if c.id.None? then (s, UnreadableId)
    else
      var id := c.id.value;
      if c.total > Limit(c.kind) then (s, OverLimit)
      else if id in s.completed then (s, Fine)
      else if id in s.incoming then Append(sha256, s, id, c)
      else if c.offset != 0 then (s, OffsetNotZero)
      else if id in s.files then (s, FileExists)
      else
        var begun := s.(incoming := s.incoming[id := Transfer(0, [], c.total, c.sha, c.kind)],
                         files := s.files[id := []]);
        Append(sha256, begun, id, c)
  }

  /** The agent's tables, updated chunk by chunk; the part files are on disk. */
  class Receiver {
    const sha256: Digest
    var incoming: map<Id, Transfer>
    var completed: map<Id, Completed>
    var files: map<Id, bytes>

    function Now(): State
      reads this
    {
      State(incoming, completed, files)
    }

    /** A new session finds the part files that earlier sessions left. */
    constructor (sha256: Digest, left: map<Id, bytes>)
      ensures this.sha256 == sha256 && Now() == State(map[], map[], left)
    {
      this.sha256 := sha256;
      incoming := map[];
      completed := map[];
      files := left;
    }

    method AcceptChunk(c: Chunk) returns (r: Outcome)
      modifies this
      ensures (Now(), r) == Accept(sha256, old(Now()), c)
    {
      if c.id.None? {
        return UnreadableId;
      }
      var id := c.id.value;
      if c.total > Limit(c.kind) {
        return OverLimit;
      }
      if id in completed {
        return Fine;
      }
      if id !in incoming && c.offset != 0 {
        return OffsetNotZero;
      }
      if id !in incoming {
        if id in files {
          return FileExists;
        }
        files := files[id := []];
        incoming := incoming[id := Transfer(0, [], c.total, c.sha, c.kind)];
      }
      var t := incoming[id];
      if t.total != c.total || t.sha != c.sha || t.kind != c.kind {
        return MetadataChanged;
      }
      if c.offset != t.received {
        return OffsetMismatch;
      }
      if t.received + |c.data| > t.total {
        return TooLong;
      }
      files := files[id := (if id in files then files[id] else []) + c.data];
      incoming := incoming[id := t.(received := t.received + |c.data|, digested := t.digested + c.data)];
      r := Fine;
      if c.eof {
        r := FinishTransfer(id);
      }
    }

    method FinishTransfer(id: Id) returns (r: Outcome)
      requires id in incoming
      modifies this
      ensures (Now(), r) == Finish(sha256, old(Now()), id)
    {
      var t := incoming[id];
      if t.received != t.total {
        return TooShort;
      }
      incoming := incoming - {id};
      if sha256(t.digested) != t.sha {
        files := files - {id};
        return DigestMismatch;
      }
      if t.kind == Pcap {
        completed := completed[id := InFile];
      } else {
        var data := if id in files then files[id] else [];
        files := files - {id};
        completed := completed[id := InMemory(data)];
      }
      r := Fine;
    }
  }

  // ----- The sender

  /** How many bytes a read returns when `remaining` are left: none at the end, else at least one and at
      most a chunk; `wish` is how many the system has at hand. */
  function Read(wish: nat, remaining: nat): (n: nat)
    ensures n <= remaining && (n == 0 <==> remaining == 0)
  {
    var most := if remaining < CHUNK_BYTES then remaining else CHUNK_BYTES;
    if wish > most then most else if wish == 0 && remaining > 0 then 1 else wish
  }

  /** An artifact as the database describes it. */
  datatype Source = Source(id: Id, content: bytes, total: nat, sha: string, kind: Kind)

  /** The chunks sent from `offset` on, and whether the end was announced; `wishes(k)` governs read k. */
  function Send(a: Source, offset: nat, wishes: nat -> nat, k: nat): (r: (seq<Chunk>, bool))
    requires offset <= |a.content|
    decreases |a.content| - offset
  {
    var n := Read(wishes(k), |a.content| - offset);
    var eof := offset + n == a.total;
    var c := Chunk(Some(a.id), offset, a.content[offset..offset + n], a.total, a.sha, eof, a.kind);
    if eof then ([c], true)
    else if n == 0 then ([c], false)
    else
      var rest := Send(a, offset + n, wishes, k + 1);
      ([c] + rest.0, rest.1)
  }

  lemma ChunksBetween(a: seq<Chunk>, c: Chunk, b: seq<Chunk>)
    ensures a + [c] + b == a + ([c] + b)
  {
  }

  method SendArtifact(a: Source, wishes: nat -> nat) returns (sent: seq<Chunk>, ok: bool)
    ensures (sent, ok) == Send(a, 0, wishes, 0)
  {
    sent := [];
    var offset: nat, k: nat := 0, 0;
    assert sent + Send(a, 0, wishes, 0).0 == Send(a, 0, wishes, 0).0;
    ghost var whole := Send(a, 0, wishes, 0);
    while true
      invariant offset <= |a.content|
      invariant whole == (sent + Send(a, offset, wishes, k).0, Send(a, offset, wishes, k).1)
      decreases |a.content| - offset
    {
      var n := Read(wishes(k), |a.content| - offset);
      var eof := offset + n == a.total;
      ghost var before := sent;
      sent := sent + [Chunk(Some(a.id), offset, a.content[offset..offset + n], a.total, a.sha, eof, a.kind)];
      if eof {
        return sent, true;
      }
      if n == 0 {
        return sent, false;
      }
      ChunksBetween(before, sent[|sent| - 1], Send(a, offset + n, wishes, k + 1).0);
      offset := offset + n;
      k := k + 1;
    }
  }

  // ----- Runs

  function RunAll(sha256: Digest, s: State, chunks: seq<Chunk>): State
    decreases |chunks|
  {
    if chunks == [] then s else RunAll(sha256, Accept(sha256, s, chunks[0]).0, chunks[1..])
  }

  /** Every chunk of a run is accepted. */
  ghost predicate AllFine(sha256: Digest, s: State, chunks: seq<Chunk>)
    decreases |chunks|
  {
    chunks == [] || (Accept(sha256, s, chunks[0]).1 == Fine
        && AllFine(sha256, Accept(sha256, s, chunks[0]).0, chunks[1..]))
  }

  /** Every chunk for this artifact is accepted when its turn comes. */
  ghost predicate OwnFine(sha256: Digest, s: State, chunks: seq<Chunk>, id: Id)
    decreases |chunks|
  {
    chunks == []
    || ((chunks[0].id == Some(id) ==> Accept(sha256, s, chunks[0]).1 == Fine)
        && OwnFine(sha256, Accept(sha256, s, chunks[0]).0, chunks[1..], id))
  }

  /** The bytes of a verified artifact. */
  function ContentOf(s: State, id: Id): Option<bytes>
  {
    if id !in s.completed then None
    else
      match s.completed[id]
      case InMemory(data) => Some(data)
      case InFile => if id in s.files then Some(s.files[id]) else None
  }

  // ----- What always holds

  /** The part file of a transfer holds what was digested and counted; the two tables do not overlap;
      a capture that is complete is in its part file. */
  ghost predicate ConsistentAt(s: State, id: Id)
  {
    && (id in s.incoming ==>
          var t := s.incoming[id];
          && id in s.files && s.files[id] == t.digested
          && |t.digested| == t.received <= t.total <= Limit(t.kind))
    && (id in s.completed ==> id !in s.incoming && ContentOf(s, id).Some?)
  }

  ghost predicate Consistent(s: State)
  {
    forall id: Id :: ConsistentAt(s, id)
  }

  lemma FinishKeepsConsistent(sha256: Digest, s: State, at: Id, id: Id)
    requires ConsistentAt(s, id) && at in s.incoming
    ensures ConsistentAt(Finish(sha256, s, at).0, id)
  {
  }

  lemma AppendKeepsConsistent(sha256: Digest, s: State, at: Id, c: Chunk, id: Id)
    requires ConsistentAt(s, id) && at in s.incoming && at !in s.completed
    ensures ConsistentAt(Append(sha256, s, at, c).0, id)
  {
    var t := s.incoming[at];
    if t.total == c.total && t.sha == c.sha && t.kind == c.kind
       && c.offset == t.received && t.received + |c.data| <= t.total {
      var written := (if at in s.files then s.files[at] else []) + c.data;
      var next := t.(received := t.received + |c.data|, digested := t.digested + c.data);
      var kept := s.(incoming := s.incoming[at := next], files := s.files[at := written]);
      FinishKeepsConsistent(sha256, kept, at, id);
    }
  }

  lemma AcceptKeepsConsistentAt(sha256: Digest, s: State, c: Chunk, id: Id)
    requires ConsistentAt(s, id)
    ensures ConsistentAt(Accept(sha256, s, c).0, id)
  {
    if c.id.Some? && c.total <= Limit(c.kind) && c.id.value !in s.completed {
      var at := c.id.value;
      if at in s.incoming {
        AppendKeepsConsistent(sha256, s, at, c, id);
      } else if c.offset == 0 && at !in s.files {
        var begun := s.(incoming := s.incoming[at := Transfer(0, [], c.total, c.sha, c.kind)],
                         files := s.files[at := []]);
        AppendKeepsConsistent(sha256, begun, at, c, id);
      }
    }
  }

  lemma AcceptKeepsConsistent(sha256: Digest, s: State, c: Chunk)
    requires Consistent(s)
    ensures Consistent(Accept(sha256, s, c).0)
  {
    forall id: Id
      ensures ConsistentAt(Accept(sha256, s, c).0, id)
    {
      AcceptKeepsConsistentAt(sha256, s, c, id);
    }
  }

  /** What an artifact was declared to be. */
  ghost predicate Verified(sha256: Digest, s: State, id: Id, total: nat, sha: string)
  {
    var content := ContentOf(s, id);
    content.Some? && |content.value| == total && sha256(content.value) == sha
  }

  /** Only a last chunk completes an artifact, and then it has the length and digest this chunk declares. */
  lemma CompletionIsVerified(sha256: Digest, s: State, c: Chunk, id: Id)
    requires ConsistentAt(s, id) && id !in s.completed && id in Accept(sha256, s, c).0.completed
    ensures c.id == Some(id) && c.eof && Verified(sha256, Accept(sha256, s, c).0, id, c.total, c.sha)
    ensures c.total <= Limit(c.kind) && Accept(sha256, s, c).1 == Fine
  {
  }

  /** What is complete stays, byte for byte, whatever chunk arrives; and chunks for it change nothing. */
  lemma CompletedStays(sha256: Digest, s: State, c: Chunk, id: Id)
    requires ConsistentAt(s, id) && id in s.completed
    ensures ContentOf(Accept(sha256, s, c).0, id) == ContentOf(s, id)
    ensures c.id == Some(id) ==> Accept(sha256, s, c).0 == s
  {
  }

  /** Over any run of chunks for any artifacts: whatever is complete at the end has the length and
      digest that one of the chunks, a last one for it, declared. */
  lemma {:induction false} RunVerifies(sha256: Digest, s: State, chunks: seq<Chunk>, id: Id)
    requires Consistent(s) && id !in s.completed && id in RunAll(sha256, s, chunks).completed
    ensures exists i :: 0 <= i < |chunks| && chunks[i].id == Some(id) && chunks[i].eof
                        && Verified(sha256, RunAll(sha256, s, chunks), id, chunks[i].total, chunks[i].sha)
    decreases |chunks|
  {
    var next := Accept(sha256, s, chunks[0]).0;
    AcceptKeepsConsistent(sha256, s, chunks[0]);
    if id in next.completed {
      CompletionIsVerified(sha256, s, chunks[0], id);
      RunKeepsCompleted(sha256, next, chunks[1..], id);
    } else {
      RunVerifies(sha256, next, chunks[1..], id);
      var i :| 0 <= i < |chunks[1..]| && chunks[1..][i].id == Some(id) && chunks[1..][i].eof
               && Verified(sha256, RunAll(sha256, s, chunks), id, chunks[1..][i].total, chunks[1..][i].sha);
      assert chunks[i + 1] == chunks[1..][i];
    }
  }

  lemma {:induction false} RunKeepsCompleted(sha256: Digest, s: State, chunks: seq<Chunk>, id: Id)
    requires Consistent(s) && id in s.completed
    ensures ContentOf(RunAll(sha256, s, chunks), id) == ContentOf(s, id)
    decreases |chunks|
  {
    if chunks != [] {
      AcceptKeepsConsistent(sha256, s, chunks[0]);
      CompletedStays(sha256, s, chunks[0], id);
      RunKeepsCompleted(sha256, Accept(sha256, s, chunks[0]).0, chunks[1..], id);
    }
  }

  // ----- Interleaving

  /** All that a state holds of one artifact. */
  datatype View = View(incoming: Option<Transfer>, completed: Option<Completed>, file: Option<bytes>)

  function ViewOf(s: State, id: Id): View
  {
    View(if id in s.incoming then Some(s.incoming[id]) else None,
         if id in s.completed then Some(s.completed[id]) else None,
         if id in s.files then Some(s.files[id]) else None)
  }

  function Only(chunks: seq<Chunk>, id: Id): seq<Chunk>
  {
    if chunks == [] then []
    else (if chunks[0].id == Some(id) then [chunks[0]] else []) + Only(chunks[1..], id)
  }

  lemma AppendIsLocal(sha256: Digest, s: State, t: State, at: Id, c: Chunk)
    requires at in s.incoming && ViewOf(s, at) == ViewOf(t, at)
    ensures ViewOf(Append(sha256, s, at, c).0, at) == ViewOf(Append(sha256, t, at, c).0, at)
    ensures Append(sha256, s, at, c).1 == Append(sha256, t, at, c).1
  {
  }

  lemma AppendKeepsOthers(sha256: Digest, s: State, at: Id, c: Chunk, id: Id)
    requires at in s.incoming && at != id
    ensures ViewOf(Append(sha256, s, at, c).0, id) == ViewOf(s, id)
  {
  }

  /** A chunk acts on its own artifact only. */
  lemma AcceptKeepsOthers(sha256: Digest, s: State, c: Chunk, id: Id)
    requires c.id != Some(id)
    ensures ViewOf(Accept(sha256, s, c).0, id) == ViewOf(s, id)
  {
    if c.id.Some? && c.total <= Limit(c.kind) && c.id.value !in s.completed {
      var at := c.id.value;
      if at in s.incoming {
        AppendKeepsOthers(sha256, s, at, c, id);
      } else if c.offset == 0 && at !in s.files {
        var begun := s.(incoming := s.incoming[at := Transfer(0, [], c.total, c.sha, c.kind)],
                         files := s.files[at := []]);
        AppendKeepsOthers(sha256, begun, at, c, id);
      }
    }
  }

  /** And by what is held of that artifact. */
  lemma AcceptIsLocal(sha256: Digest, s: State, t: State, c: Chunk, id: Id)
    requires c.id == Some(id) && ViewOf(s, id) == ViewOf(t, id)
    ensures ViewOf(Accept(sha256, s, c).0, id) == ViewOf(Accept(sha256, t, c).0, id)
    ensures Accept(sha256, s, c).1 == Accept(sha256, t, c).1
  {
    if c.total <= Limit(c.kind) && id !in s.completed {
      if id in s.incoming {
        AppendIsLocal(sha256, s, t, id, c);
      } else if c.offset == 0 && id !in s.files {
        var first := Transfer(0, [], c.total, c.sha, c.kind);
        AppendIsLocal(sha256, s.(incoming := s.incoming[id := first], files := s.files[id := []]),
                      t.(incoming := t.incoming[id := first], files := t.files[id := []]), id, c);
      }
    }
  }

  /** Transfers do not disturb each other: what becomes of an artifact in any interleaving, and whether
      each of its chunks is accepted, is as when its own chunks come alone. */
  lemma {:induction false} InterleavingDoesNotMatter(sha256: Digest, s: State, t: State, chunks: seq<Chunk>, id: Id)
    requires ViewOf(s, id) == ViewOf(t, id)
    ensures ViewOf(RunAll(sha256, s, chunks), id) == ViewOf(RunAll(sha256, t, Only(chunks, id)), id)
    ensures OwnFine(sha256, s, chunks, id) <==> AllFine(sha256, t, Only(chunks, id))
    decreases |chunks|
  {
    if chunks != [] {
      var c := chunks[0];
      if c.id == Some(id) {
        AcceptIsLocal(sha256, s, t, c, id);
        assert Only(chunks, id)[1..] == Only(chunks[1..], id);
        InterleavingDoesNotMatter(sha256, Accept(sha256, s, c).0, Accept(sha256, t, c).0, chunks[1..], id);
      } else {
        AcceptKeepsOthers(sha256, s, c, id);
        assert [] + Only(chunks[1..], id) == Only(chunks[1..], id);
        InterleavingDoesNotMatter(sha256, Accept(sha256, s, c).0, t, chunks[1..], id);
      }
    }
  }

  // ----- The transfer is the identity

  /** The first `offset` bytes of the artifact have arrived. */
  ghost predicate Arrived(s: State, a: Source, offset: nat)
  {
    && offset <= |a.content| && a.id !in s.completed
    && a.id in s.incoming && a.id in s.files && s.files[a.id] == a.content[..offset]
    && s.incoming[a.id] == Transfer(offset, a.content[..offset], a.total, a.sha, a.kind)
  }

  /** Nothing is held of the artifact: neither a transfer nor a left part file. */
  ghost predicate Untouched(s: State, id: Id)
  {
    ViewOf(s, id) == View(None, None, None)
  }

  /** The description of the artifact is right. */
  ghost predicate Described(sha256: Digest, a: Source)
  {
    a.total == |a.content| && a.sha == sha256(a.content) && a.total <= Limit(a.kind)
  }

  lemma PieceGrows(content: bytes, offset: nat, n: nat)
    requires offset + n <= |content|
    ensures content[..offset] + content[offset..offset + n] == content[..offset + n]
  {
  }

  lemma ChunkArrives(sha256: Digest, s: State, a: Source, offset: nat, n: nat, c: Chunk) returns (next: State)
    requires Described(sha256, a) && offset + n <= |a.content|
    requires Arrived(s, a, offset) || (offset == 0 && Untouched(s, a.id))
    requires c == Chunk(Some(a.id), offset, a.content[offset..offset + n], a.total, a.sha,
                        offset + n == a.total, a.kind)
    ensures Accept(sha256, s, c) == (next, Fine)
    ensures offset + n < a.total ==> Arrived(next, a, offset + n)
    ensures offset + n == a.total ==> ContentOf(next, a.id) == Some(a.content)
  {
    next := Accept(sha256, s, c).0;
    PieceGrows(a.content, offset, n);
    assert a.content[..0] == [];
    assert [] + a.content[offset..offset + n] == a.content[offset..offset + n];
    assert a.content[..|a.content|] == a.content;
  }

  /** Every chunk of this run is accepted, and at its end the artifact has arrived. */
  ghost predicate Delivers(sha256: Digest, s: State, chunks: seq<Chunk>, a: Source)
  {
    AllFine(sha256, s, chunks) && ContentOf(RunAll(sha256, s, chunks), a.id) == Some(a.content)
  }

  lemma DeliversFirst(sha256: Digest, s: State, c: Chunk, rest: seq<Chunk>, next: State, a: Source)
    requires Accept(sha256, s, c) == (next, Fine) && Delivers(sha256, next, rest, a)
    ensures Delivers(sha256, s, [c] + rest, a)
  {
    assert ([c] + rest)[1..] == rest;
  }

  /** The first chunk of the rest of an artifact. */
  function FirstPiece(a: Source, offset: nat, n: nat): Chunk
    requires offset + n <= |a.content|
  {
    Chunk(Some(a.id), offset, a.content[offset..offset + n], a.total, a.sha, offset + n == a.total, a.kind)
  }

  lemma SendNext(a: Source, offset: nat, wishes: nat -> nat, k: nat)
    requires offset <= |a.content| == a.total
    ensures var n := Read(wishes(k), |a.content| - offset);
            var rest := if offset + n == a.total then ([], true) else Send(a, offset + n, wishes, k + 1);
            Send(a, offset, wishes, k) == ([FirstPiece(a, offset, n)] + rest.0, rest.1)
  {
    var n := Read(wishes(k), |a.content| - offset);
    assert [FirstPiece(a, offset, n)] + [] == [FirstPiece(a, offset, n)];
  }

  lemma {:induction false} RestArrives(sha256: Digest, s: State, a: Source, offset: nat, wishes: nat -> nat, k: nat)
    requires Described(sha256, a) && offset <= |a.content|
    requires Arrived(s, a, offset) || (offset == 0 && Untouched(s, a.id))
    ensures Send(a, offset, wishes, k).1 && Delivers(sha256, s, Send(a, offset, wishes, k).0, a)
    decreases |a.content| - offset
  {
    var n := Read(wishes(k), |a.content| - offset);
    var c := FirstPiece(a, offset, n);
    var next := ChunkArrives(sha256, s, a, offset, n, c);
    SendNext(a, offset, wishes, k);
    if offset + n < a.total {
      RestArrives(sha256, next, a, offset + n, wishes, k + 1);
      DeliversFirst(sha256, s, c, Send(a, offset + n, wishes, k + 1).0, next, a);
    } else {
      NothingLeft(sha256, next, a);
      DeliversFirst(sha256, s, c, [], next, a);
    }
  }

  lemma NothingLeft(sha256: Digest, s: State, a: Source)
    requires ContentOf(s, a.id) == Some(a.content)
    ensures Delivers(sha256, s, [], a)
  {
  }

  /** The end is announced by the last chunk and by no other. */
  lemma {:induction false} EofIsLast(a: Source, offset: nat, wishes: nat -> nat, k: nat)
    requires offset <= |a.content| && a.total == |a.content|
    ensures var sent := Send(a, offset, wishes, k).0;
            |sent| > 0 && forall i :: 0 <= i < |sent| ==> (sent[i].eof <==> i == |sent| - 1)
    decreases |a.content| - offset
  {
    var n := Read(wishes(k), |a.content| - offset);
    if offset + n < a.total {
      EofIsLast(a, offset + n, wishes, k + 1);
    }
  }

  /** The transfer is the identity: any artifact within the limits, empty or not, read in any pieces,
      arrives byte for byte, each of its chunks accepted, whatever other chunks come in between. */
  lemma TransferIsIdentity(sha256: Digest, s: State, a: Source, wishes: nat -> nat, chunks: seq<Chunk>)
    requires Described(sha256, a) && Untouched(s, a.id)
    requires Only(chunks, a.id) == Send(a, 0, wishes, 0).0
    ensures Send(a, 0, wishes, 0).1 && OwnFine(sha256, s, chunks, a.id)
    ensures ContentOf(RunAll(sha256, s, chunks), a.id) == Some(a.content)
  {
    RestArrives(sha256, s, a, 0, wishes, 0);
    InterleavingDoesNotMatter(sha256, s, s, chunks, a.id);
    ContentIsLocal(RunAll(sha256, s, chunks), RunAll(sha256, s, Only(chunks, a.id)), a.id);
  }

  lemma ContentIsLocal(s: State, t: State, id: Id)
    requires ViewOf(s, id) == ViewOf(t, id)
    ensures ContentOf(s, id) == ContentOf(t, id)
  {
  }

  // ----- Left part files

  /** Part files outlive the session that wrote them. While one is left, no chunk of a new session is
      accepted for its artifact, and it never completes. */
  lemma {:induction false} LeftFileBlocks(sha256: Digest, s: State, chunks: seq<Chunk>, id: Id)
    requires id in s.files && id !in s.incoming && id !in s.completed
    ensures ViewOf(RunAll(sha256, s, chunks), id) == ViewOf(s, id)
    ensures (exists i :: 0 <= i < |chunks| && chunks[i].id == Some(id)) ==> !AllFine(sha256, s, chunks)
    decreases |chunks|
  {
    if chunks != [] {
      var c := chunks[0];
      if c.id != Some(id) {
        AcceptKeepsOthers(sha256, s, c, id);
      }
      LeftFileBlocks(sha256, Accept(sha256, s, c).0, chunks[1..], id);
      assert forall i :: 0 < i < |chunks| ==> chunks[i] == chunks[1..][i - 1];
    }
  }

  /** So a described artifact that this session holds nothing of is transferred exactly when no part file
      of it is left. */
  lemma TransferSucceedsIffNoFileLeft(sha256: Digest, s: State, a: Source, wishes: nat -> nat)
    requires Described(sha256, a) && a.id !in s.incoming && a.id !in s.completed
    ensures ContentOf(RunAll(sha256, s, Send(a, 0, wishes, 0).0), a.id) == Some(a.content) <==> a.id !in s.files
  {
    if a.id !in s.files {
      RestArrives(sha256, s, a, 0, wishes, 0);
    } else {
      LeftFileBlocks(sha256, s, Send(a, 0, wishes, 0).0, a.id);
    }
  }
}
