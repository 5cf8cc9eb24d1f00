/** What becomes of one chunk: the exact condition of every refusal, and what the agent holds afterwards;
    and how large the sent chunks are. */
module ChunkOutcomes {
  import opened Base
  import opened Artifacts

  // ----- The conditions, said of the chunk and the transfer under way

  /** At most 512 MiB for a capture, and at most 64 MiB for anything else. */
  predicate WithinLimit(c: Chunk)
  {
    c.total <= if c.kind.Pcap? then 536870912 else 67108864
  }

  predicate Readable(c: Chunk)
  {
    c.id.Some? && WithinLimit(c)
  }

  predicate AlreadyComplete(s: State, c: Chunk)
  {
    Readable(c) && c.id.value in s.completed
  }

  predicate Continues(s: State, c: Chunk)
  {
    Readable(c) && c.id.value !in s.completed && c.id.value in s.incoming
  }

  predicate Begins(s: State, c: Chunk)
  {
    Readable(c) && c.id.value !in s.completed && c.id.value !in s.incoming
  }

  /** A chunk that may open its transfer. */
  predicate Opens(s: State, c: Chunk)
  {
    Begins(s, c) && c.offset == 0 && c.id.value !in s.files
  }

  predicate SameMetadata(s: State, c: Chunk)
    requires Continues(s, c)
  {
    var t := s.incoming[c.id.value];
    c.total == t.total && c.sha == t.sha && c.kind == t.kind
  }

  /** What arrived before this chunk. */
  function Earlier(s: State, c: Chunk): bytes
    requires Continues(s, c) || Opens(s, c)
  {
    if Continues(s, c) then s.incoming[c.id.value].digested else []
  }

  function FileBefore(s: State, c: Chunk): bytes
    requires Continues(s, c) || Opens(s, c)
  {
    if Continues(s, c) && c.id.value in s.files then s.files[c.id.value] else []
  }

  function Received(s: State, c: Chunk): nat
    requires Continues(s, c) || Opens(s, c)
  {
    if Continues(s, c) then s.incoming[c.id.value].received else 0
  }

  /** The chunk is the next one of its transfer. */
  predicate Follows(s: State, c: Chunk)
  {
    Opens(s, c) || (Continues(s, c) && SameMetadata(s, c) && c.offset == Received(s, c))
  }

  predicate Fits(s: State, c: Chunk)
  {
    Follows(s, c) && Received(s, c) + |c.data| <= c.total
  }

  /** The last chunk of a transfer that has its full length. */
  predicate Ends(s: State, c: Chunk)
  {
    Fits(s, c) && c.eof && Received(s, c) + |c.data| == c.total
  }

  predicate Matches(sha256: Digest, s: State, c: Chunk)
    requires Ends(s, c)
  {
    sha256(Earlier(s, c) + c.data) == c.sha
  }

  // ----- The outcome

  /** Every outcome has an exact condition, whatever the agent holds. */
  lemma {:induction false} ChunkOutcomeIff(sha256: Digest, s: State, c: Chunk)
    ensures var r := Accept(sha256, s, c).1;
            && (r == UnreadableId <==> c.id.None?)
            && (r == OverLimit <==> c.id.Some? && !WithinLimit(c))
            && (r == OffsetNotZero <==> Begins(s, c) && c.offset != 0)
            && (r == FileExists <==> Begins(s, c) && c.offset == 0 && c.id.value in s.files)
            && (r == MetadataChanged <==> Continues(s, c) && !SameMetadata(s, c))
            && (r == OffsetMismatch <==>
                  Continues(s, c) && SameMetadata(s, c) && c.offset != s.incoming[c.id.value].received)
            && (r == TooLong <==> Follows(s, c) && !Fits(s, c))
            && (r == TooShort <==> Fits(s, c) && c.eof && !Ends(s, c))
            && (r == DigestMismatch <==> Ends(s, c) && !Matches(sha256, s, c))
            && (r == Fine <==>
                  AlreadyComplete(s, c) || (Fits(s, c) && (c.eof ==> Ends(s, c) && Matches(sha256, s, c))))
  {
  }

  /** A transfer of which nothing has arrived. */
  function Opened(s: State, c: Chunk): State
    requires Opens(s, c)
  {
    var id := c.id.value;
    State(s.incoming[id := Transfer(0, [], c.total, c.sha, c.kind)], s.completed, s.files[id := []])
  }

  /** What becomes of a transfer whose next chunk this is. */
  ghost predicate Moves(sha256: Digest, s: State, c: Chunk, after: State)
    requires Follows(s, c)
  {
    var id, file := c.id.value, FileBefore(s, c) + c.data;
    var next := Transfer(Received(s, c) + |c.data|, Earlier(s, c) + c.data, c.total, c.sha, c.kind);
    if !Fits(s, c) then after == if Continues(s, c) then s else Opened(s, c)
    else if !Ends(s, c) then after == State(s.incoming[id := next], s.completed, s.files[id := file])
    else if !Matches(sha256, s, c) then after == State(s.incoming - {id}, s.completed, s.files - {id})
    else if c.kind.Pcap? then after == State(s.incoming - {id}, s.completed[id := InFile], s.files[id := file])
    else after == State(s.incoming - {id}, s.completed[id := InMemory(file)], s.files - {id})
  }

  lemma {:induction false} AppendMoves(sha256: Digest, s: State, c: Chunk)
    requires Continues(s, c) && Follows(s, c)
    ensures Moves(sha256, s, c, Append(sha256, s, c.id.value, c).0)
  {
  }

  lemma {:induction false} OpenedMoves(sha256: Digest, s: State, c: Chunk)
    requires Opens(s, c)
    ensures Moves(sha256, s, c, Append(sha256, Opened(s, c), c.id.value, c).0)
  {
  }

  /** What the agent holds after a chunk. A chunk that does not come next changes nothing; one that
      exceeds its total changes nothing either, except that a transfer it opens stays, with an empty part
      file; one that fits is appended to both the digested bytes and the part file; and the last one closes
      the transfer: a failed digest removes the part file, a capture stays in it, a payload is taken out. */
  lemma {:induction false} ChunkEffect(sha256: Digest, s: State, c: Chunk)
    ensures var after := Accept(sha256, s, c).0;
            if Follows(s, c) then Moves(sha256, s, c, after) else after == s
  {
    if Opens(s, c) {
      OpenedMoves(sha256, s, c);
    } else if Continues(s, c) && Follows(s, c) {
      AppendMoves(sha256, s, c);
    }
  }

  // ----- The sender

  /** A read returns all that the system has at hand, up to a quarter of a megabyte. */
  lemma {:induction false} ReadMeans(wish: nat, remaining: nat)
    ensures Read(wish, remaining) <= 262144
    ensures wish > 0 && wish <= remaining && wish <= 262144 ==> Read(wish, remaining) == wish
    ensures wish >= remaining && remaining <= 262144 ==> Read(wish, remaining) == remaining
    ensures wish >= 262144 && remaining >= 262144 ==> Read(wish, remaining) == 262144
    ensures wish == 0 && remaining > 0 ==> Read(wish, remaining) == 1
  {
  }

  /** A chunk holds at most 256 KiB; while the file system always has that much at hand, every chunk
      holds exactly so much, except the one that reaches the end. */
  lemma {:induction false} ChunkSizes(a: Source, offset: nat, wishes: nat -> nat, k: nat, i: nat)
    requires offset <= |a.content| && i < |Send(a, offset, wishes, k).0|
    ensures var sent := Send(a, offset, wishes, k).0;
            |sent[i].data| <= 262144
            && ((forall j: nat :: wishes(j) >= 262144) ==>
                  |sent[i].data| == 262144 || sent[i].offset + |sent[i].data| == |a.content|)
    decreases |a.content| - offset
  {
    var n := Read(wishes(k), |a.content| - offset);
    ReadMeans(wishes(k), |a.content| - offset);
    if i > 0 {
      ChunkSizes(a, offset + n, wishes, k + 1, i - 1);
    }
  }
}
