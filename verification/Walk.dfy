/** Walking over a byte string with a reader that looks at the front of the rest: what the loops
    over chunks and over messages have in common. */
module Walk {
  import opened Base

  /** What a reader finds at the front of the rest: nothing readable, the last item, or an item with
      more to follow; with its length. */
  datatype Item = Unreadable | Last(length: nat) | More(length: nat)

  ghost predicate Bounded(read: bytes -> Item)
  {
    forall s :: read(s) != Unreadable ==> 0 < read(s).length <= |s|
  }

  /** Where the walk from `offset` ends: behind the last item. */
  function EndOf(read: bytes -> Item, s: bytes, offset: nat): (end: Option<nat>)
    requires Bounded(read) && offset <= |s|
    ensures end.Some? ==> offset < end.value <= |s|
    decreases |s| - offset
  {
    match read(s[offset..])
    case Unreadable => None
    case Last(n) => Some(offset + n)
    case More(n) => EndOf(read, s, offset + n)
  }

  function Prepend(parts: seq<bytes>, rest: Option<seq<bytes>>): Option<seq<bytes>>
  {
    if rest.Some? then Some(parts + rest.value) else None
  }

  /** The items from `offset` to the end of `s`. */
  function PartsOf(read: bytes -> Item, s: bytes, offset: nat): Option<seq<bytes>>
    requires Bounded(read) && offset <= |s|
    decreases |s| - offset
  {
    if offset == |s| then Some([])
    else
      var item := read(s[offset..]);
      if item == Unreadable then None
      else Prepend([s[offset..offset + item.length]], PartsOf(read, s, offset + item.length))
  }

  function Concat(parts: seq<bytes>): bytes
  {
    if parts == [] then [] else parts[0] + Concat(parts[1..])
  }

  lemma PrependNothing(rest: Option<seq<bytes>>)
    ensures Prepend([], rest) == rest
  {
    if rest.Some? {
      assert [] + rest.value == rest.value;
    }
  }

  lemma PrependOne(parts: seq<bytes>, next: bytes, rest: Option<seq<bytes>>)
    ensures Prepend(parts, Prepend([next], rest)) == Prepend(parts + [next], rest)
  {
    if rest.Some? {
      assert parts + ([next] + rest.value) == parts + [next] + rest.value;
    }
  }

  lemma PartsStep(read: bytes -> Item, parts: seq<bytes>, s: bytes, offset: nat, n: nat)
    requires Bounded(read) && offset < |s| && (read(s[offset..]) == More(n) || read(s[offset..]) == Last(n))
    ensures offset < offset + n <= |s|
    ensures Prepend(parts, PartsOf(read, s, offset))
         == Prepend(parts + [s[offset..offset + n]], PartsOf(read, s, offset + n))
  {
    PrependOne(parts, s[offset..offset + n], PartsOf(read, s, offset + n));
  }

  // ----- The loops

  method WalkToEnd(read: bytes -> Item, s: bytes, start: nat) returns (end: Option<nat>)
    requires Bounded(read) && start <= |s|
    ensures end == EndOf(read, s, start)
  {
    var offset := start;
    while true
      invariant start <= offset <= |s|
      invariant EndOf(read, s, offset) == EndOf(read, s, start)
      decreases |s| - offset
    {
      match read(s[offset..]) {
        case Unreadable => return None;
        case Last(n) => return Some(offset + n);
        case More(n) => offset := offset + n;
      }
    }
  }

  method CollectParts(read: bytes -> Item, s: bytes) returns (r: Option<seq<bytes>>)
    requires Bounded(read)
    ensures r == PartsOf(read, s, 0)
  {
    var parts: seq<bytes> := [];
    var offset: nat := 0;
    PrependNothing(PartsOf(read, s, 0));
    while offset < |s|
      invariant offset <= |s|
      invariant PartsOf(read, s, 0) == Prepend(parts, PartsOf(read, s, offset))
    {
      var item := read(s[offset..]);
      if item == Unreadable {
        return None;
      }
      PartsStep(read, parts, s, offset, item.length);
      parts := parts + [s[offset..offset + item.length]];
      offset := offset + item.length;
    }
    r := Some(parts);
    assert parts + [] == parts;
  }

  // ----- Nothing is lost

  /** These parts, none of them empty, make up `s`. */
  ghost predicate Makes(parts: seq<bytes>, s: bytes)
  {
    Concat(parts) == s && forall i :: 0 <= i < |parts| ==> parts[i] != []
  }

  lemma MakesOne(s: bytes, offset: nat, end: nat, rest: seq<bytes>)
    requires offset < end <= |s| && Makes(rest, s[end..])
    ensures Makes([s[offset..end]] + rest, s[offset..])
  {
    var parts := [s[offset..end]] + rest;
    assert parts[1..] == rest;
    assert s[offset..end] + s[end..] == s[offset..];
  }

  lemma {:induction false} PartsLoseNothing(read: bytes -> Item, s: bytes, offset: nat)
    requires Bounded(read) && offset <= |s| && PartsOf(read, s, offset).Some?
    ensures Makes(PartsOf(read, s, offset).value, s[offset..])
    decreases |s| - offset
  {
    if offset < |s| {
      var end := offset + read(s[offset..]).length;
      PartsLoseNothing(read, s, end);
      MakesOne(s, offset, end, PartsOf(read, s, end).value);
    }
  }

  // ----- Recognised texts

  /** From `offset` on, `s` is `text`. */
  ghost predicate Stands(s: bytes, offset: nat, text: bytes)
  {
    offset <= |s| && s[offset..] == text
  }

  lemma StandsNext(s: bytes, offset: nat, a: bytes, b: bytes)
    requires Stands(s, offset, a + b)
    ensures offset + |a| <= |s| && s[offset..offset + |a|] == a && Stands(s, offset + |a|, b)
  {
    assert s[offset..][..|a|] == a;
    assert s[offset..][|a|..] == b;
  }

  /** The reader recognises this text, whatever follows it. */
  ghost predicate Recognises(read: bytes -> Item, text: bytes)
  {
    text != [] && forall more: bytes {:trigger read(text + more)} :: read(text + more) == More(|text|)
  }

  ghost predicate RecognisesAll(read: bytes -> Item, texts: seq<bytes>)
  {
    forall i :: 0 <= i < |texts| ==> Recognises(read, texts[i])
  }

  lemma RecognisedNext(read: bytes -> Item, s: bytes, offset: nat, text: bytes, more: bytes)
    requires Recognises(read, text) && Stands(s, offset, text + more)
    ensures read(s[offset..]) == More(|text|)
    ensures offset + |text| <= |s| && s[offset..offset + |text|] == text && Stands(s, offset + |text|, more)
  {
    StandsNext(s, offset, text, more);
    assert read(text + more) == More(|text|);
  }

  /** A reader that recognises each of some texts finds them in their concatenation. */
  lemma {:induction false} TextsAreParts(read: bytes -> Item, s: bytes, offset: nat, texts: seq<bytes>)
    requires Bounded(read) && Stands(s, offset, Concat(texts))
    requires RecognisesAll(read, texts)
    ensures PartsOf(read, s, offset) == Some(texts)
    decreases |texts|
  {
    if texts != [] {
      RecognisedNext(read, s, offset, texts[0], Concat(texts[1..]));
      TextsAreParts(read, s, offset + |texts[0]|, texts[1..]);
      assert [texts[0]] + texts[1..] == texts;
    }
  }

  /** It walks over them to what follows. */
  lemma {:induction false} TextsArePassed(read: bytes -> Item, s: bytes, offset: nat, texts: seq<bytes>, more: bytes)
    requires Bounded(read) && Stands(s, offset, Concat(texts) + more)
    requires RecognisesAll(read, texts)
    ensures Stands(s, offset + |Concat(texts)|, more)
    ensures EndOf(read, s, offset) == EndOf(read, s, offset + |Concat(texts)|)
    decreases |texts|
  {
    if texts == [] {
      assert Concat(texts) + more == more;
    } else {
      var first, rest := texts[0], Concat(texts[1..]) + more;
      FirstOfTexts(texts, more);
      RecognisedNext(read, s, offset, first, rest);
      EndAfterItem(read, s, offset, |first|);
      TextsArePassed(read, s, offset + |first|, texts[1..], more);
    }
  }

  lemma {:induction false} FirstOfTexts(texts: seq<bytes>, more: bytes)
    requires texts != []
    ensures Concat(texts) + more == texts[0] + (Concat(texts[1..]) + more)
    ensures |Concat(texts)| == |texts[0]| + |Concat(texts[1..])|
  {
  }

  lemma {:induction false} EndAfterItem(read: bytes -> Item, s: bytes, offset: nat, n: nat)
    requires Bounded(read) && offset <= |s| && read(s[offset..]) == More(n)
    ensures offset + n <= |s| && EndOf(read, s, offset) == EndOf(read, s, offset + n)
  {
  }

  /** And stops behind a last item. */
  lemma TextsHaveEnd(read: bytes -> Item, s: bytes, offset: nat, texts: seq<bytes>, last: bytes, rest: bytes)
    requires Bounded(read) && Stands(s, offset, Concat(texts) + last + rest)
    requires RecognisesAll(read, texts)
    requires read(last + rest) == Last(|last|)
    ensures EndOf(read, s, offset) == Some(offset + |Concat(texts) + last|)
  {
    assert Concat(texts) + last + rest == Concat(texts) + (last + rest);
    TextsArePassed(read, s, offset, texts, last + rest);
  }

  /** Where a walk ends depends only on the rest it walks over. */
  lemma {:induction false} EndDependsOnRest(read: bytes -> Item, s: bytes, a: nat, t: bytes, b: nat)
    requires Bounded(read) && a <= |s| && b <= |t| && s[a..] == t[b..]
    ensures EndOf(read, t, b) == if EndOf(read, s, a).Some? then Some(EndOf(read, s, a).value - a + b) else None
    decreases |s| - a
  {
    var item := read(s[a..]);
    if item.More? {
      assert s[a..][item.length..] == s[a + item.length..];
      assert t[b..][item.length..] == t[b + item.length..];
      EndDependsOnRest(read, s, a + item.length, t, b + item.length);
    }
  }

  lemma EndMoves(read: bytes -> Item, s: bytes, a: nat, t: bytes, b: nat)
    requires Bounded(read) && a <= |s| && b <= |t| && s[a..] == t[b..] && EndOf(read, s, a) == Some(|s|)
    ensures EndOf(read, t, b) == Some(|t|)
  {
    assert |s[a..]| == |t[b..]|;
    EndDependsOnRest(read, s, a, t, b);
  }

  lemma OnePart(read: bytes -> Item, s: bytes)
    requires Bounded(read) && s != []
    ensures PartsOf(read, s, 0) == Some([s]) <==> read(s) == More(|s|) || read(s) == Last(|s|)
  {
    assert s[0..] == s && s[0..|s|] == s;
    var item := read(s);
    if item != Unreadable {
      var rest := PartsOf(read, s, 0 + item.length);
      if rest.Some? {
        assert ([s[0..item.length]] + rest.value)[0] == s[0..item.length];
        if item.length == |s| {
          assert [s] + rest.value == [s];
        }
      }
    }
  }
}
