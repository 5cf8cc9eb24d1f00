/** Which header sections the splitter accepts, said of the start line and the lines behind it; and what its
    searching, splitting and comparing of texts means. */
module Http1Heads {
  import opened Base
  import opened Walk
  import opened Http1
  import opened Http1Messages
  import opened Http1Parts
  import opened RewriteSound
  import opened Numbers

  // ----- Texts

  lemma {:induction false} NamesAreSpelled()
    ensures UPGRADE == Text("upgrade") && CONNECTION == Text("connection")
    ensures CONTENT_LENGTH == Text("content-length") && TRANSFER_ENCODING == Text("transfer-encoding")
    ensures CHUNKED == Text("chunked") && VERSION == Text("HTTP/1.1") && CRLF == Text("\r\n")
    ensures [CR, LF, SPACE, COMMA, COLON, SEMICOLON] == Text("\r\n ,:;")
  {
  }

  /** The letter in lower case. */
  function Folded(b: byte): byte
  {
    if 'A' as int <= b <= 'Z' as int then b - 'A' as int + 'a' as int else b
  }

  /** The same text but for the case of its letters. */
  predicate SameLetters(a: bytes, b: bytes)
  {
    |a| == |b| && forall i :: 0 <= i < |a| ==> Folded(a[i]) == Folded(b[i])
  }

  lemma {:induction false} SameNameMeans(a: bytes, b: bytes)
    ensures SameName(a, b) <==> SameLetters(a, b)
    decreases |a|
  {
    if a != [] && |a| == |b| {
      SameNameMeans(a[1..], b[1..]);
      assert forall i :: 0 < i < |a| ==> a[i] == a[1..][i - 1] && b[i] == b[1..][i - 1];
      if SameLetters(a, b) {
        assert forall i :: 0 <= i < |a| - 1 ==> a[1..][i] == a[i + 1] && b[1..][i] == b[i + 1];
      }
    }
  }

  predicate IsSpace(b: byte)
  {
    b == ' ' as int || b == '\t' as int || b == '\n' as int || b == '\r' as int || b == 0x0c
  }

  predicate AllSpace(s: bytes)
  {
    forall i :: 0 <= i < |s| ==> IsSpace(s[i])
  }

  /** `core` without space at its ends, and space around it. */
  predicate SpacedOut(s: bytes, front: bytes, core: bytes, back: bytes)
  {
    s == front + core + back && AllSpace(front) && AllSpace(back)
    && (core != [] ==> !IsSpace(core[0]) && !IsSpace(core[|core| - 1]))
  }

  ghost predicate IsTrimmed(s: bytes, core: bytes)
  {
    exists front, back :: SpacedOut(s, front, core, back)
  }

  lemma {:induction false} TrimIsTrimmed(s: bytes)
    ensures IsTrimmed(s, Trim(s))
  {
    TrimMeans(s);
    var front, back :| s == front + Trim(s) + back && AllWhite(front) && AllWhite(back);
    assert SpacedOut(s, front, Trim(s), back);
  }

  // ----- Splitting

  function Joined(parts: seq<bytes>, separator: byte): bytes
    requires parts != []
  {
    if |parts| == 1 then parts[0] else parts[0] + [separator] + Joined(parts[1..], separator)
  }

  /** Splitting cuts at every separator and nowhere else. */
  lemma {:induction false} SplitOnMeans(s: bytes, separator: byte)
    ensures Joined(SplitOn(s, separator), separator) == s
    ensures forall i :: 0 <= i < |SplitOn(s, separator)| ==> separator !in SplitOn(s, separator)[i]
  {
    PartsAreClean(s, separator);
    if s != [] {
      SplitOnMeans(s[1..], separator);
      var rest := SplitOn(s[1..], separator);
      var parts := SplitOn(s, separator);
      if s[0] == separator {
        assert parts == [[]] + rest && parts[1..] == rest;
        assert [] + [separator] + s[1..] == s;
      } else {
        assert parts == [[s[0]] + rest[0]] + rest[1..];
        assert [s[0]] + s[1..] == s;
        if |rest| > 1 {
          assert parts[1..] == rest[1..];
          assert [s[0]] + rest[0] + [separator] + Joined(rest[1..], separator)
              == [s[0]] + (rest[0] + [separator] + Joined(rest[1..], separator));
        }
      }
    }
  }

  /** One of the elements between commas is this token. */
  ghost predicate HasElement(value: bytes, token: bytes)
  {
    exists parts: seq<bytes>, i: nat :: ElementAt(value, parts, i, token)
  }

  ghost predicate ElementAt(value: bytes, parts: seq<bytes>, i: nat, token: bytes)
  {
    && i < |parts| && Joined(parts, COMMA) == value && (forall k :: 0 <= k < |parts| ==> COMMA !in parts[k])
    && exists core :: IsTrimmed(parts[i], core) && SameLetters(core, token)
  }

  lemma {:induction false} SplitIsUnique(parts: seq<bytes>, separator: byte)
    requires parts != [] && forall k :: 0 <= k < |parts| ==> separator !in parts[k]
    ensures SplitOn(Joined(parts, separator), separator) == parts
  {
    if |parts| == 1 {
      SplitOnNothing(parts[0], separator);
    } else {
      SplitIsUnique(parts[1..], separator);
      SplitOnPart(parts[0], separator, Joined(parts[1..], separator));
      assert [parts[0]] + parts[1..] == parts;
    }
  }

  lemma {:induction false} TrimOfSpace(s: bytes)
    requires AllWhite(s)
    ensures Trim(s) == []
  {
    TrimStartOfSpace(s);
  }

  lemma {:induction false} TrimStartOfSpace(s: bytes)
    requires AllWhite(s)
    ensures TrimStart(s) == []
  {
    if s != [] {
      TrimStartOfSpace(s[1..]);
    }
  }

  lemma {:induction false} TrimmedIsTrim(s: bytes, core: bytes)
    requires IsTrimmed(s, core)
    ensures core == Trim(s)
  {
    var front, back :| SpacedOut(s, front, core, back);
    if core == [] {
      TrimOfSpace(s);
    } else {
      TrimBoth(front, core, back);
    }
  }

  lemma {:induction false} AnyIsMeans(parts: seq<bytes>, token: bytes)
    ensures AnyIs(parts, token) <==> exists i: nat :: i < |parts| && SameName(Trim(parts[i]), token)
  {
    if parts != [] {
      AnyIsMeans(parts[1..], token);
      if AnyIs(parts[1..], token) {
        var i: nat :| i < |parts[1..]| && SameName(Trim(parts[1..][i]), token);
        assert SameName(Trim(parts[i + 1]), token);
      }
      if exists i: nat :: i < |parts| && SameName(Trim(parts[i]), token) {
        var i: nat :| i < |parts| && SameName(Trim(parts[i]), token);
        if i > 0 {
          assert parts[1..][i - 1] == parts[i];
        }
      }
    }
  }

  /** A value lists a token exactly if one of its elements between commas, trimmed, is this token. */
  lemma {:induction false} ListsIff(value: bytes, token: bytes)
    ensures Lists(Some(value), token) <==> HasElement(value, token)
  {
    var parts := SplitOn(value, COMMA);
    SplitOnMeans(value, COMMA);
    AnyIsMeans(parts, token);
    if Lists(Some(value), token) {
      var i: nat :| i < |parts| && SameName(Trim(parts[i]), token);
      TrimIsTrimmed(parts[i]);
      SameNameMeans(Trim(parts[i]), token);
      assert ElementAt(value, parts, i, token);
    }
    if HasElement(value, token) {
      var list: seq<bytes>, i: nat :| ElementAt(value, list, i, token);
      SplitIsUnique(list, COMMA);
      var core :| IsTrimmed(list[i], core) && SameLetters(core, token);
      TrimmedIsTrim(list[i], core);
      SameNameMeans(core, token);
    }
  }

  // ----- Lines

  /** The line is a field with this name, up to its first colon; its value stands behind the colon. */
  predicate NamesField(line: bytes, name: bytes, colon: nat)
  {
    colon < |line| && line[colon] == ':' as int && ':' as int !in line[..colon] && SameLetters(line[..colon], name)
  }

  ghost predicate IsField(line: bytes, name: bytes)
  {
    exists colon: nat :: NamesField(line, name, colon)
  }

  /** The first line that is a field with this name. */
  ghost predicate FirstFieldAt(lines: seq<bytes>, name: bytes, i: nat, colon: nat)
  {
    && i < |lines| && NamesField(lines[i], name, colon)
    && forall j :: 0 <= j < i ==> !IsField(lines[j], name)
  }

  lemma {:induction false} ColonIsOne(line: bytes, name: bytes, other: bytes, a: nat, b: nat)
    requires NamesField(line, name, a) && NamesField(line, other, b)
    ensures a == b
  {
    ColonIsFirst(line, a, b);
  }

  lemma {:induction false} FieldInMeans(line: bytes, name: bytes)
    requires OneLine(line)
    ensures match FieldIn(line + [CR], name)
            case Some(v) => exists colon: nat :: NamesField(line, name, colon) && v == Trim(line[colon + 1..])
            case None => !IsField(line, name)
  {
    assert StripCr(line + [CR]) == line;
    IndexOfMeans(line, COLON);
    match IndexOf(line, COLON)
    case None =>
    case Some(k) =>
      SameNameMeans(line[..k], name);
      if IsField(line, name) {
        var colon: nat :| NamesField(line, name, colon);
        ColonIsFirst(line, colon, k);
      }
      if FieldIn(line + [CR], name).Some? {
        assert NamesField(line, name, k);
      }
  }

  lemma {:induction false} ColonIsFirst(line: bytes, a: nat, k: nat)
    requires a < |line| && line[a] == COLON && COLON !in line[..a]
    requires k < |line| && line[k] == COLON && COLON !in line[..k]
    ensures a == k
  {
    assert forall i :: 0 <= i < a ==> line[..a][i] == line[i];
    assert forall i :: 0 <= i < k ==> line[..k][i] == line[i];
  }

  /** What is found for a name is the trimmed value of the first field with that name. */
  lemma {:induction false} FirstFieldMeans(lines: seq<bytes>, name: bytes)
    requires forall i :: 0 <= i < |lines| ==> OneLine(lines[i])
    ensures match FirstField(WithCr(lines), name)
            case Some(v) =>
              exists i: nat, colon: nat :: FirstFieldAt(lines, name, i, colon) && v == Trim(lines[i][colon + 1..])
            case None => forall i :: 0 <= i < |lines| ==> !IsField(lines[i], name)
    decreases |lines|
  {
    if lines != [] {
      var rest := lines[1..];
      FieldInMeans(lines[0], name);
      assert WithCr(lines)[1..] == WithCr(rest);
      match FieldIn(lines[0] + [CR], name)
      case Some(v) =>
        var colon: nat :| NamesField(lines[0], name, colon) && v == Trim(lines[0][colon + 1..]);
        assert FirstFieldAt(lines, name, 0, colon);
      case None =>
        FirstFieldMeans(rest, name);
        match FirstField(WithCr(rest), name)
        case Some(v) =>
          var i: nat, colon: nat :| FirstFieldAt(rest, name, i, colon) && v == Trim(rest[i][colon + 1..]);
          LaterField(lines, name, i, colon);
        case None =>
          assert forall i :: 0 < i < |lines| ==> lines[i] == rest[i - 1];
    }
  }

  lemma {:induction false} LaterField(lines: seq<bytes>, name: bytes, i: nat, colon: nat)
    requires lines != [] && !IsField(lines[0], name) && FirstFieldAt(lines[1..], name, i, colon)
    ensures FirstFieldAt(lines, name, i + 1, colon)
  {
    assert forall j :: 0 < j < |lines| ==> lines[j] == lines[1..][j - 1];
  }

  // ----- Start lines

  predicate IsDigit(b: byte)
  {
    '0' as int <= b <= '9' as int
  }

  predicate IsVerbByte(b: byte)
  {
    'A' as int <= b <= 'Z' as int || b == '-' as int
  }

  /** Three fields: a verb, a target, and the version. */
  predicate RequestParts(line: bytes, verb: bytes, target: bytes)
  {
    && line == verb + Text(" ") + target + Text(" HTTP/1.1")
    && verb != [] && (forall i :: 0 <= i < |verb| ==> IsVerbByte(verb[i]))
    && target != [] && ' ' as int !in target
  }

  /** The version, a blank, and three digits; anything may follow. */
  predicate IsStatusLine(line: bytes)
  {
    |line| >= 12 && line[..9] == Text("HTTP/1.1 ") && IsDigit(line[9]) && IsDigit(line[10]) && IsDigit(line[11])
  }

  ghost predicate IsStart(kind: Kind, line: bytes)
  {
    match kind
    case Request => exists verb, target :: RequestParts(line, verb, target)
    case Response => IsStatusLine(line)
  }

  lemma {:induction false} StatusLineMeans(line: bytes)
    ensures ValidStatusLine(line) <==> IsStatusLine(line)
  {
    NamesAreSpelled();
    if |line| >= 12 {
      assert line[..9] == line[..8] + [line[8]];
      assert Text("HTTP/1.1 ") == Text("HTTP/1.1") + [SPACE];
      assert line[..9] == Text("HTTP/1.1 ") <==> line[..8] == VERSION && line[8] == SPACE by {
        if line[..9] == Text("HTTP/1.1 ") {
          assert line[..8] == line[..9][..8] == VERSION;
          assert line[8] == line[..9][8];
        }
      }
    }
  }

  lemma {:induction false} RequestLineMeans(line: bytes)
    ensures ValidRequestLine(line) <==> IsStart(Request, line)
  {
    NamesAreSpelled();
    assert Text(" HTTP/1.1") == [SPACE] + VERSION && Text(" ") == [SPACE];
    if ValidRequestLine(line) {
      var f := SplitOn(line, SPACE);
      SplitOnMeans(line, SPACE);
      JoinOfThree(f[0], f[1], f[2]);
      assert f == [f[0], f[1], f[2]];
      assert RequestParts(line, f[0], f[1]);
    }
    if IsStart(Request, line) {
      var verb, target :| RequestParts(line, verb, target);
      JoinOfThree(verb, target, VERSION);
      SplitIsUnique([verb, target, VERSION], SPACE);
    }
  }

  lemma {:induction false} JoinOfThree(a: bytes, b: bytes, c: bytes)
    ensures Joined([a, b, c], SPACE) == a + [SPACE] + b + ([SPACE] + c)
  {
    assert [a, b, c][1..] == [b, c] && [b, c][1..] == [c];
    assert Joined([c], SPACE) == c;
    assert Joined([b, c], SPACE) == b + [SPACE] + c;
    assert a + [SPACE] + (b + [SPACE] + c) == a + [SPACE] + b + ([SPACE] + c);
  }

  lemma {:induction false} StartMeans(kind: Kind, line: bytes)
    ensures ValidStart(kind, line) <==> IsStart(kind, line)
  {
    if kind == Request {
      RequestLineMeans(line);
    } else {
      StatusLineMeans(line);
    }
  }

  // ----- Header sections

  /** One of the lines is an Upgrade field, or the first Connection field lists "upgrade". */
  ghost predicate AsksUpgrade(lines: seq<bytes>)
  {
    || (exists i :: 0 <= i < |lines| && IsField(lines[i], Text("upgrade")))
    || FirstLists(lines, Text("connection"), Text("upgrade"))
  }

  /** The first field with this name lists this token. */
  ghost predicate FirstLists(lines: seq<bytes>, name: bytes, token: bytes)
  {
    exists i: nat, colon: nat :: FirstFieldAt(lines, name, i, colon) && ValueHas(lines[i][colon + 1..], token)
  }

  ghost predicate ValueHas(value: bytes, token: bytes)
  {
    exists core :: IsTrimmed(value, core) && HasElement(core, token)
  }

  lemma {:induction false} ValueHasMeans(value: bytes, token: bytes)
    ensures ValueHas(value, token) <==> Lists(Some(Trim(value)), token)
  {
    ListsIff(Trim(value), token);
    TrimIsTrimmed(value);
    if ValueHas(value, token) {
      var core :| IsTrimmed(value, core) && HasElement(core, token);
      TrimmedIsTrim(value, core);
    }
  }

  lemma {:induction false} UpgradeMeans(start: bytes, lines: seq<bytes>)
    requires OneLine(start) && GoodLines(lines)
    ensures var head := PrintHead(start, lines);
            HeaderValue(head, UPGRADE).Some? || HasToken(head, CONNECTION, UPGRADE) <==> AsksUpgrade(lines)
  {
    NamesAreSpelled();
    HeaderReadsBack(start, lines, UPGRADE);
    HeaderReadsBack(start, lines, CONNECTION);
    FirstFieldMeans(lines, UPGRADE);
    FirstListsMeans(lines, CONNECTION, UPGRADE);
    if exists i :: 0 <= i < |lines| && IsField(lines[i], UPGRADE) {
      assert FirstField(WithCr(lines), UPGRADE).Some?;
    }
  }

  lemma {:induction false} FirstListsAt(lines: seq<bytes>, name: bytes, token: bytes, i: nat, colon: nat)
    requires FirstFieldAt(lines, name, i, colon)
    ensures FirstLists(lines, name, token) <==> ValueHas(lines[i][colon + 1..], token)
  {
    forall j: nat, c: nat | FirstFieldAt(lines, name, j, c)
      ensures j == i && c == colon
    {
      FirstFieldIsOne(lines, name, i, colon, j, c);
    }
  }

  lemma {:induction false} NoFieldLists(lines: seq<bytes>, name: bytes, token: bytes)
    requires forall i :: 0 <= i < |lines| ==> !IsField(lines[i], name)
    ensures !FirstLists(lines, name, token)
  {
    forall i: nat, colon: nat
      ensures !FirstFieldAt(lines, name, i, colon)
    {
    }
  }

  lemma {:induction false} FirstListsMeans(lines: seq<bytes>, name: bytes, token: bytes)
    requires GoodLines(lines)
    ensures Lists(FirstField(WithCr(lines), name), token) <==> FirstLists(lines, name, token)
  {
    FirstFieldMeans(lines, name);
    match FirstField(WithCr(lines), name)
    case None =>
      NoFieldLists(lines, name, token);
    case Some(v) =>
      var i: nat, colon: nat :| FirstFieldAt(lines, name, i, colon) && v == Trim(lines[i][colon + 1..]);
      FirstListsAt(lines, name, token, i, colon);
      ValueHasMeans(lines[i][colon + 1..], token);
  }

  lemma {:induction false} FirstFieldIsOne(lines: seq<bytes>, name: bytes, i: nat, a: nat, j: nat, b: nat)
    requires FirstFieldAt(lines, name, i, a) && FirstFieldAt(lines, name, j, b)
    ensures i == j && a == b
  {
    if i == j {
      ColonIsOne(lines[i], name, name, a, b);
    }
  }

  /** A header section of any lines is accepted exactly if its first line is a request line with the version
      HTTP/1.1, or a status line, as the direction has it, and the lines do not ask for an upgrade. */
  lemma {:induction false} HeadAcceptedIff(kind: Kind, start: bytes, lines: seq<bytes>)
    requires OneLine(start) && GoodLines(lines)
    ensures Supported(kind, PrintHead(start, lines)) <==> IsStart(kind, start) && !AsksUpgrade(lines)
  {
    OneLineHasNoEnd(start);
    HeadReadsBack(start, lines, []);
    StartMeans(kind, start);
    UpgradeMeans(start, lines);
  }

  /** A text that begins with a header section begins with a message exactly if the section is accepted and
      the end of the body is found, which is the end of the message. */
  lemma {:induction false} MessageFoundIff(kind: Kind, start: bytes, lines: seq<bytes>, rest: bytes)
    requires OneLine(start) && GoodLines(lines)
    ensures var head := PrintHead(start, lines);
            |head| <= |head + rest|
            && var end := BodyEnd(head, start, kind, head + rest, |head|);
            FirstMessage(kind, head + rest)
            == if IsStart(kind, start) && !AsksUpgrade(lines) && end.Some? then More(end.value) else Unreadable
  {
    OneLineHasNoEnd(start);
    HeadReadsBack(start, lines, rest);
    HeadAcceptedIff(kind, start, lines);
  }

  /** Behind any messages, a header section that asks for an upgrade, or whose first line is none, makes the
      splitting of the whole stream fail, whatever follows. */
  lemma {:induction false} RefusedHeadRefusesAll(kind: Kind, before: seq<bytes>, start: bytes, lines: seq<bytes>,
                                                 rest: bytes)
    requires AllWhole(kind, before) && OneLine(start) && GoodLines(lines)
    requires !IsStart(kind, start) || AsksUpgrade(lines)
    ensures Split(Concat(before) + (PrintHead(start, lines) + rest), kind).None?
  {
    var s := Concat(before) + (PrintHead(start, lines) + rest);
    MessageFoundIff(kind, start, lines, rest);
    AllRecognised(kind, before);
    assert s[0..] == s && |PrintHead(start, lines)| >= 2;
    NothingBehind(Messages(kind), s, 0, before, PrintHead(start, lines) + rest);
  }

  lemma {:induction false} NothingBehind(read: bytes -> Item, s: bytes, offset: nat, texts: seq<bytes>, more: bytes)
    requires Bounded(read) && Stands(s, offset, Concat(texts) + more) && RecognisesAll(read, texts)
    requires more != [] && read(more) == Unreadable
    ensures PartsOf(read, s, offset).None?
    decreases |texts|
  {
    if texts == [] {
      assert Concat(texts) + more == more;
      assert s[offset..] == more;
    } else {
      FirstOfTexts(texts, more);
      RecognisedNext(read, s, offset, texts[0], Concat(texts[1..]) + more);
      NothingBehind(read, s, offset + |texts[0]|, texts[1..], more);
    }
  }
}
