/** Splitting is framing: a stream is split into exactly those pieces that are messages on their own. */
module Http1Parts {
  import opened Base
  import opened Walk
  import opened Http1

  // ----- Readers that look no further than the item they find

  /** What is found at the front of `s` is found in front of anything that begins with the same item. */
  ghost predicate Settled(read: bytes -> Item)
  {
    forall s, t :: Fixed(read, s, t)
  }

  predicate Fixed(read: bytes -> Item, s: bytes, t: bytes)
  {
    read(s) != Unreadable && read(s).length <= |s| && s[..read(s).length] <= t ==> read(t) == read(s)
  }

  lemma RestBegins(s: bytes, t: bytes, a: nat, n: nat, e: nat)
    requires a + n <= e <= |s| && s[..e] <= t
    ensures a + n <= |t| && s[a..][..n] <= t[a..]
  {
    assert s[a..][..n] == t[a..][..n];
  }

  lemma {:induction false} EndSettles(read: bytes -> Item, s: bytes, a: nat, t: bytes)
    requires Bounded(read) && Settled(read) && a <= |s| && EndOf(read, s, a).Some?
    requires s[..EndOf(read, s, a).value] <= t
    ensures a <= |t| && EndOf(read, t, a) == EndOf(read, s, a)
    decreases |s| - a
  {
    var item := read(s[a..]);
    RestBegins(s, t, a, item.length, EndOf(read, s, a).value);
    assert Fixed(read, s[a..], t[a..]);
    if item.More? {
      EndSettles(read, s, a + item.length, t);
    }
  }

  lemma PartIsRecognised(read: bytes -> Item, s: bytes, n: nat)
    requires Bounded(read) && Settled(read) && read(s) == More(n)
    ensures 0 < n <= |s| && Recognises(read, s[..n])
  {
    forall more: bytes
      ensures read(s[..n] + more) == More(n)
    {
      assert Fixed(read, s, s[..n] + more);
    }
  }

  lemma {:induction false} PartsAreRecognised(read: bytes -> Item, s: bytes, offset: nat)
    requires Bounded(read) && Settled(read) && offset <= |s| && PartsOf(read, s, offset).Some?
    requires forall t :: !read(t).Last?
    ensures RecognisesAll(read, PartsOf(read, s, offset).value)
    decreases |s| - offset
  {
    if offset < |s| {
      var n := read(s[offset..]).length;
      PartIsRecognised(read, s[offset..], n);
      assert s[offset..][..n] == s[offset..offset + n];
      PartsAreRecognised(read, s, offset + n);
    }
  }

  // ----- Searching

  lemma {:induction false} CrlfSettles(s: bytes, t: bytes)
    requires FindCrlf(s).Some? && FindCrlf(s).value + 2 <= |s| && s[..FindCrlf(s).value + 2] <= t
    ensures FindCrlf(t) == FindCrlf(s)
  {
    var e := FindCrlf(s).value + 2;
    assert forall i :: 0 <= i < e ==> t[i] == s[i];
    if !(s[0] == CR && s[1] == LF) {
      assert s[1..][..e - 1] == s[..e][1..] == t[1..][..e - 1];
      CrlfSettles(s[1..], t[1..]);
    }
  }

  lemma {:induction false} BlankSettles(s: bytes, t: bytes)
    requires FindBlank(s).Some? && FindBlank(s).value + 4 <= |s| && s[..FindBlank(s).value + 4] <= t
    ensures FindBlank(t) == FindBlank(s)
  {
    var e := FindBlank(s).value + 4;
    assert forall i :: 0 <= i < e ==> t[i] == s[i];
    if !(s[0] == CR && s[1] == LF && s[2] == CR && s[3] == LF) {
      assert s[1..][..e - 1] == s[..e][1..] == t[1..][..e - 1];
      BlankSettles(s[1..], t[1..]);
    }
  }

  // ----- Chunks

  lemma SameStart(s: bytes, t: bytes, at: nat, e: nat)
    requires at + 2 <= e <= |s| && s[..e] <= t
    ensures StartsLine(s, at) <==> StartsLine(t, at)
  {
    assert t[..e] == s[..e];
    assert t[at] == t[..e][at] == s[at] && t[at + 1] == t[..e][at + 1] == s[at + 1];
  }

  lemma LastChunkSettles(s: bytes, t: bytes, n: nat)
    requires n <= |s| && LastChunk(s, n) != Unreadable && s[..LastChunk(s, n).length] <= t
    ensures n <= |t| && LastChunk(t, n) == LastChunk(s, n)
  {
    var e := LastChunk(s, n).length;
    FindBlankInside(s[n..]);
    SameStart(s, t, n, e);
    if !StartsLine(s, n) {
      RestBegins(s, t, n, e - n, e);
      BlankSettles(s[n..], t[n..]);
    }
  }

  lemma {:induction false} ChunkSettles(s: bytes, t: bytes)
    requires FirstChunk(s) != Unreadable && s[..FirstChunk(s).length] <= t
    ensures FirstChunk(t) == FirstChunk(s)
  {
    FindCrlfInside(s);
    var at, e := FindCrlf(s).value, FirstChunk(s).length;
    assert s[..at + 2] == s[..e][..at + 2] <= t;
    CrlfSettles(s, t);
    assert t[..at] == t[..e][..at] == s[..at];
    var size := ChunkSize(s[..at]).value;
    if size == 0 {
      LastChunkSettles(s, t, at + 2);
    } else {
      SameStart(s, t, at + 2 + size, e);
    }
  }

  lemma ChunksSettle()
    ensures Settled(FirstChunk)
  {
    forall s, t
      ensures Fixed(FirstChunk, s, t)
    {
      if FirstChunk(s) != Unreadable && s[..FirstChunk(s).length] <= t {
        ChunkSettles(s, t);
      }
    }
  }

  // ----- Messages

  lemma BodySettles(headers: bytes, line: bytes, kind: Kind, s: bytes, offset: nat, t: bytes)
    requires offset <= |s| && BodyEnd(headers, line, kind, s, offset).Some?
    requires s[..BodyEnd(headers, line, kind, s, offset).value] <= t
    ensures offset <= |t| && BodyEnd(headers, line, kind, t, offset) == BodyEnd(headers, line, kind, s, offset)
  {
    if HasToken(headers, TRANSFER_ENCODING, CHUNKED) {
      ChunksSettle();
      EndSettles(FirstChunk, s, offset, t);
    }
  }

  lemma HeadersSettle(s: bytes, t: bytes)
    requires HeadersOf(s).Some? && HeadersOf(s).value <= t
    ensures HeadersOf(t) == HeadersOf(s)
  {
    FindBlankInside(s);
    BlankSettles(s, t);
    var n := |HeadersOf(s).value|;
    assert t[..n] == s[..n];
  }

  lemma MessageSettles(kind: Kind, s: bytes, t: bytes)
    requires FirstMessage(kind, s) != Unreadable && s[..FirstMessage(kind, s).length] <= t
    ensures FirstMessage(kind, t) == FirstMessage(kind, s)
  {
    var headers, e := HeadersOf(s).value, FirstMessage(kind, s).length;
    assert headers == s[..|headers|] == s[..e][..|headers|] <= t;
    HeadersSettle(s, t);
    BodySettles(headers, StartLine(headers).value, kind, s, |headers|, t);
  }

  lemma MessagesSettle(kind: Kind)
    ensures Settled(Messages(kind))
  {
    var read := Messages(kind);
    forall s, t
      ensures Fixed(read, s, t)
    {
      if FirstMessage(kind, s) != Unreadable && s[..FirstMessage(kind, s).length] <= t {
        MessageSettles(kind, s, t);
      }
    }
  }

  // ----- Splitting

  /** Split on its own, `m` is one message and nothing else. */
  predicate Whole(kind: Kind, m: bytes)
  {
    Split(m, kind) == Some([m])
  }

  lemma RecognisedIsWhole(kind: Kind, m: bytes)
    ensures Whole(kind, m) <==> Recognises(Messages(kind), m)
  {
    var read := Messages(kind);
    if m == [] {
      assert Split(m, kind) == Some([]);
    } else {
      OnePart(read, m);
      assert m + [] == m && m[..|m|] == m;
      if read(m) == More(|m|) {
        MessagesSettle(kind);
        PartIsRecognised(read, m, |m|);
      }
    }
  }

  predicate AllWhole(kind: Kind, parts: seq<bytes>)
  {
    forall i :: 0 <= i < |parts| ==> Whole(kind, parts[i])
  }

  lemma AllRecognised(kind: Kind, parts: seq<bytes>)
    ensures AllWhole(kind, parts) <==> RecognisesAll(Messages(kind), parts)
  {
    forall i | 0 <= i < |parts|
      ensures Whole(kind, parts[i]) <==> Recognises(Messages(kind), parts[i])
    {
      RecognisedIsWhole(kind, parts[i]);
    }
  }

  lemma NoMessageIsLast(kind: Kind)
    ensures forall t :: !Messages(kind)(t).Last?
  {
  }

  lemma PiecesAreWhole(s: bytes, kind: Kind)
    requires Split(s, kind).Some?
    ensures AllWhole(kind, Split(s, kind).value)
  {
    MessagesSettle(kind);
    NoMessageIsLast(kind);
    PartsAreRecognised(Messages(kind), s, 0);
    AllRecognised(kind, Split(s, kind).value);
  }

  lemma WholePiecesSplit(parts: seq<bytes>, kind: Kind)
    requires AllWhole(kind, parts)
    ensures Split(Concat(parts), kind) == Some(parts)
  {
    AllRecognised(kind, parts);
    assert Concat(parts)[0..] == Concat(parts);
    TextsAreParts(Messages(kind), Concat(parts), 0, parts);
  }

  /** A stream splits into certain pieces exactly if they make it up and each of them is one message on
      its own: each piece of a successful split, split alone, is itself; and messages from anywhere,
      put one behind the other, split into themselves. */
  lemma SplitIff(s: bytes, kind: Kind, parts: seq<bytes>)
    ensures Split(s, kind) == Some(parts) <==> Concat(parts) == s && AllWhole(kind, parts)
  {
    if Split(s, kind) == Some(parts) {
      SplitLosesNothing(s, kind);
      PiecesAreWhole(s, kind);
    }
    if Concat(parts) == s && AllWhole(kind, parts) {
      WholePiecesSplit(parts, kind);
    }
  }
}
