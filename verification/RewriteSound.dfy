/** What rewriting a request keeps. */
module RewriteSound {
  import opened Base
  import opened Http1
  import opened Http1Messages
  import opened Rewrite

  // ----- Searching and splitting

  lemma {:induction false} IndexOfMeans(s: bytes, b: byte)
    ensures IndexOf(s, b).Some? ==>
              IndexOf(s, b).value < |s| && s[IndexOf(s, b).value] == b && b !in s[..IndexOf(s, b).value]
    ensures IndexOf(s, b).None? ==> b !in s
  {
    if s != [] && s[0] != b {
      IndexOfMeans(s[1..], b);
      if IndexOf(s, b).Some? {
        var i := IndexOf(s, b).value;
        assert s[..i] == [s[0]] + s[1..][..i - 1];
      }
    }
  }

  lemma CutAt(s: bytes, b: byte)
    requires IndexOf(s, b).Some?
    ensures var i := IndexOf(s, b).value; i < |s| && b !in s[..i] && s == s[..i] + [b] + s[i + 1..]
  {
    IndexOfMeans(s, b);
  }

  lemma FieldsMean(line: bytes)
    requires Fields(line).Some?
    ensures PrintLine(Fields(line).value) == line
    ensures SPACE !in Fields(line).value.verb && SPACE !in Fields(line).value.target
  {
    CutAt(line, SPACE);
    var rest := line[IndexOf(line, SPACE).value + 1..];
    CutAt(rest, SPACE);
    var f := Fields(line).value;
    assert rest == f.target + [SPACE] + f.version;
    assert line == f.verb + [SPACE] + rest;
  }

  lemma PrintedFields(f: RequestLine)
    requires SPACE !in f.verb && SPACE !in f.target
    ensures Fields(PrintLine(f)) == Some(f)
  {
    var rest := f.target + [SPACE] + f.version;
    IndexOfFirst(f.verb, SPACE, rest);
    assert PrintLine(f) == f.verb + [SPACE] + rest;
    assert PrintLine(f)[..|f.verb|] == f.verb && PrintLine(f)[|f.verb| + 1..] == rest;
    IndexOfFirst(f.target, SPACE, f.version);
    assert rest[..|f.target|] == f.target && rest[|f.target| + 1..] == f.version;
  }

  lemma FirstPart(s: bytes, b: byte)
    ensures SplitOn(s, b)[0] ==
               if IndexOf(s, b).Some? && IndexOf(s, b).value <= |s| then s[..IndexOf(s, b).value] else s
    ensures IndexOf(s, b).Some? ==> IndexOf(s, b).value < |s|
  {
    IndexOfMeans(s, b);
    if IndexOf(s, b).Some? {
      CutAt(s, b);
      var i := IndexOf(s, b).value;
      SplitOnPart(s[..i], b, s[i + 1..]);
    } else {
      SplitOnNothing(s, b);
    }
  }

  lemma {:induction false} PartsAreClean(s: bytes, b: byte)
    ensures forall i :: 0 <= i < |SplitOn(s, b)| ==> b !in SplitOn(s, b)[i]
  {
    if s != [] {
      PartsAreClean(s[1..], b);
    }
  }

  lemma {:induction false} ThreeFields(line: bytes)
    requires |SplitOn(line, SPACE)| == 3
    ensures var f := SplitOn(line, SPACE); Fields(line) == Some(RequestLine(f[0], f[1], f[2]))
  {
    FirstPart(line, SPACE);
    if IndexOf(line, SPACE).None? {
      IndexOfMeans(line, SPACE);
      SplitOnNothing(line, SPACE);
    } else {
      CutAt(line, SPACE);
      var a := IndexOf(line, SPACE).value;
      var rest := line[a + 1..];
      SplitOnPart(line[..a], SPACE, rest);
      assert SplitOn(line, SPACE)[1..] == SplitOn(rest, SPACE);
      FirstPart(rest, SPACE);
      if IndexOf(rest, SPACE).None? {
        IndexOfMeans(rest, SPACE);
        SplitOnNothing(rest, SPACE);
      } else {
        LastField(rest);
      }
    }
  }

  lemma LastField(rest: bytes)
    requires |SplitOn(rest, SPACE)| == 2 && IndexOf(rest, SPACE).Some?
    ensures IndexOf(rest, SPACE).value < |rest|
    ensures SplitOn(rest, SPACE) == [rest[..IndexOf(rest, SPACE).value], rest[IndexOf(rest, SPACE).value + 1..]]
  {
    CutAt(rest, SPACE);
    var b := IndexOf(rest, SPACE).value;
    var last := rest[b + 1..];
    SplitOnPart(rest[..b], SPACE, last);
    assert SplitOn(rest, SPACE)[1..] == SplitOn(last, SPACE);
    FirstPart(last, SPACE);
    IndexOfMeans(last, SPACE);
    if IndexOf(last, SPACE).Some? {
      CutAt(last, SPACE);
      SplitOnPart(last[..IndexOf(last, SPACE).value], SPACE, last[IndexOf(last, SPACE).value + 1..]);
    }
  }

  // ----- Line ends

  lemma {:induction false} NoEndBeforeFirst(s: bytes)
    requires FindCrlf(s).Some?
    ensures FindCrlf(s).value + 2 <= |s| && NoEnd(s[..FindCrlf(s).value])
    ensures s == s[..FindCrlf(s).value] + CRLF + s[FindCrlf(s).value + 2..]
  {
    if s[0] != CR || s[1] != LF {
      NoEndBeforeFirst(s[1..]);
      var n := FindCrlf(s).value;
      assert s[..n][1..] == s[1..][..n - 1];
      assert s[1..][n - 1 + 2..] == s[n + 2..];
    }
  }

  lemma {:induction false} NoEndOfParts(a: bytes, b: bytes)
    requires NoEnd(a + b)
    ensures NoEnd(a) && NoEnd(b)
  {
    if a == [] {
      assert a + b == b;
    } else {
      assert (a + b)[1..] == a[1..] + b;
      if |a + b| >= 2 {
        NoEndOfParts(a[1..], b);
      }
    }
  }

  lemma {:induction false} NoEndJoin(a: bytes, c: byte, b: bytes)
    requires NoEnd(a) && NoEnd(b) && c != CR && c != LF
    ensures NoEnd(a + [c] + b)
  {
    var s := a + [c] + b;
    if a == [] {
      assert s[1..] == b;
    } else {
      assert s[1..] == a[1..] + [c] + b;
      NoEndJoin(a[1..], c, b);
    }
  }

  lemma PrintLineParts(f: RequestLine)
    ensures NoEnd(PrintLine(f)) <==> NoEnd(f.verb) && NoEnd(f.target) && NoEnd(f.version)
    ensures OneLine(PrintLine(f)) <==> OneLine(f.verb) && OneLine(f.target) && OneLine(f.version)
  {
    var rest := f.target + [SPACE] + f.version;
    assert PrintLine(f) == f.verb + [SPACE] + rest;
    if NoEnd(PrintLine(f)) {
      NoEndOfParts(f.verb + [SPACE], rest);
      NoEndOfParts(f.verb, [SPACE]);
      NoEndOfParts(f.target + [SPACE], f.version);
      NoEndOfParts(f.target, [SPACE]);
    }
    if NoEnd(f.verb) && NoEnd(f.target) && NoEnd(f.version) {
      NoEndJoin(f.target, SPACE, f.version);
      NoEndJoin(f.verb, SPACE, rest);
    }
  }

  // ----- Targets

  lemma PathMeans(target: bytes)
    ensures PathOf(target) == [SLASH]
            || (|PathOf(target)| <= |target| && PathOf(target) == target[|target| - |PathOf(target)|..])
    ensures SCHEME <= target ==> PathOf(target) != [] && PathOf(target)[0] == SLASH
    ensures PathOf(PathOf(target)) == PathOf(target)
  {
    if SCHEME <= target {
      IndexOfMeans(target[7..], SLASH);
    }
  }

  lemma PathKeeps(target: bytes)
    ensures target != [] ==> PathOf(target) != []
    ensures SPACE !in target ==> SPACE !in PathOf(target)
    ensures OneLine(target) ==> OneLine(PathOf(target))
    ensures NoEnd(target) ==> NoEnd(PathOf(target))
  {
    PathMeans(target);
    var path := PathOf(target);
    if path != [SLASH] {
      assert target == target[..|target| - |path|] + path;
      if NoEnd(target) {
        NoEndOfParts(target[..|target| - |path|], path);
      }
    }
  }

  predicate Ascii(s: bytes)
  {
    forall i :: 0 <= i < |s| ==> s[i] < 128
  }

  /** The replacement of ill-formed text leaves ASCII text alone. */
  ghost predicate KeepsAscii(lossy: bytes -> bytes)
  {
    forall s :: Ascii(s) ==> lossy(s) == s
  }

  /** A host name and port: no blank, no line end, no slash. */
  predicate GoodAddress(address: bytes)
  {
    SPACE !in address && CR !in address && LF !in address && SLASH !in address
  }

  /** What the setting and the target must satisfy: a proxied target is written from ASCII text. */
  ghost predicate GoodSetting(g: Setting, target: bytes)
  {
    && OneLine(g.host)
    && (g.proxied.Some? ==> GoodAddress(g.proxied.value) && KeepsAscii(g.lossy) && Ascii(PathOf(target)))
  }

  lemma {:induction false} NoEndAfterPlain(a: bytes, b: bytes)
    requires CR !in a && NoEnd(b)
    ensures NoEnd(a + b)
  {
    if a == [] {
      assert a + b == b;
    } else {
      assert (a + b)[1..] == a[1..] + b;
      NoEndAfterPlain(a[1..], b);
    }
  }

  lemma NewTargetKeeps(target: bytes, g: Setting)
    requires GoodSetting(g, target)
    ensures target != [] ==> NewTarget(target, g) != []
    ensures SPACE !in target ==> SPACE !in NewTarget(target, g)
    ensures OneLine(target) ==> OneLine(NewTarget(target, g))
    ensures NoEnd(target) ==> NoEnd(NewTarget(target, g))
  {
    PathKeeps(target);
    if g.proxied.Some? && NoEnd(target) {
      NoEndAfterPlain(SCHEME + g.proxied.value, PathOf(target));
    }
  }

  // ----- Lines

  ghost predicate HostsAre(lines: seq<bytes>, host: bytes)
  {
    forall i :: 0 <= i < |lines| && IsHost(lines[i]) ==> lines[i] == HostLine(host)
  }

  /** The lines other than Host lines. */
  function OtherLines(lines: seq<bytes>): seq<bytes>
  {
    if lines == [] then [] else (if IsHost(lines[0]) then [] else [lines[0]]) + OtherLines(lines[1..])
  }

  lemma HostLineIsHost(host: bytes)
    requires OneLine(host)
    ensures IsHost(HostLine(host)) && HostLine(host) != [] && OneLine(HostLine(host))
  {
    SplitOnPart(HOST_NAME, COLON, [SPACE] + host);
    assert HostLine(host) == HOST_NAME + [COLON] + ([SPACE] + host);
  }

  lemma {:induction false} ContentsAreLines(parts: seq<bytes>)
    requires forall i :: 0 <= i < |parts| ==> LF !in parts[i]
    ensures GoodLines(Contents(parts))
  {
    if parts != [] {
      ContentsAreLines(parts[1..]);
      assert LF !in StripCr(parts[0]);
    }
  }

  lemma {:induction false} ReplacedMeans(lines: seq<bytes>, host: bytes)
    requires GoodLines(lines) && OneLine(host)
    ensures GoodLines(ReplaceHosts(lines, host)) && HostsAre(ReplaceHosts(lines, host), host)
    ensures HasHost(ReplaceHosts(lines, host)) <==> HasHost(lines)
    ensures OtherLines(ReplaceHosts(lines, host)) == OtherLines(lines)
  {
    if lines != [] {
      ReplacedMeans(lines[1..], host);
      HostLineIsHost(host);
      var all := ReplaceHosts(lines, host);
      assert all[1..] == ReplaceHosts(lines[1..], host);
    }
  }

  lemma {:induction false} OtherConcat(a: seq<bytes>, b: seq<bytes>)
    ensures OtherLines(a + b) == OtherLines(a) + OtherLines(b)
  {
    if a == [] {
      assert a + b == b;
    } else {
      assert (a + b)[1..] == a[1..] + b;
      OtherConcat(a[1..], b);
    }
  }

  /** The new lines: the other lines as they were, in order; and Host lines, at least one of them,
      that all say the new host. */
  lemma NewLinesMean(lines: seq<bytes>, host: bytes)
    requires GoodLines(lines) && OneLine(host)
    ensures var after := NewLines(lines, host);
            && GoodLines(after) && HostsAre(after, host) && HasHost(after)
            && OtherLines(after) == OtherLines(lines)
  {
    ReplacedMeans(lines, host);
    HostLineIsHost(host);
    if !HasHost(lines) {
      HostsConcat(ReplaceHosts(lines, host), [HostLine(host)], host);
      HostsOne(HostLine(host), host);
      OtherConcat(ReplaceHosts(lines, host), [HostLine(host)]);
      assert [HostLine(host)][1..] == [];
      assert OtherLines([HostLine(host)]) == [];
    } else {
      assert ReplaceHosts(lines, host) + [] == ReplaceHosts(lines, host);
    }
  }

  lemma {:induction false} ReplacingAgain(lines: seq<bytes>, host: bytes)
    requires HostsAre(lines, host)
    ensures ReplaceHosts(lines, host) == lines
  {
    if lines != [] {
      ReplacingAgain(lines[1..], host);
    }
  }

  lemma NewLinesAgain(lines: seq<bytes>, host: bytes)
    requires HostsAre(lines, host) && HasHost(lines)
    ensures NewLines(lines, host) == lines
  {
    ReplacingAgain(lines, host);
    assert lines + [] == lines;
  }

  // ----- The header section of a request

  lemma {:induction false} SplitOnJoin(a: bytes, tail: bytes)
    ensures SplitOn(a + [LF] + tail, LF) == SplitOn(a, LF) + SplitOn(tail, LF)
  {
    var s := a + [LF] + tail;
    if a == [] {
      assert s[1..] == tail;
    } else {
      assert s[1..] == a[1..] + [LF] + tail;
      SplitOnJoin(a[1..], tail);
    }
  }

  lemma {:induction false} FirstFieldConcat(a: seq<bytes>, b: seq<bytes>, name: bytes)
    ensures FirstField(a + b, name) == if FirstField(a, name).Some? then FirstField(a, name) else FirstField(b, name)
  {
    if a == [] {
      assert a + b == b;
    } else {
      assert (a + b)[1..] == a[1..] + b;
      FirstFieldConcat(a[1..], b, name);
    }
  }

  lemma BlankLinesHoldNothing(name: bytes)
    ensures FirstField(SplitOn(CRLF, LF), name).None? && FirstField(SplitOn([], LF), name).None?
  {
    assert CRLF == [CR] + [LF] + [];
    SplitOnPart([CR], LF, []);
    NoFieldInEmptyLines(name);
    EmptyLineIsNoField(name);
    var one: seq<bytes> := [[]];
    assert one[1..] == [];
  }

  lemma EndingHoldsNothing(m: bytes, name: bytes)
    requires m == [] || m[|m| - 1] == LF
    ensures FirstField(SplitOn(m + CRLF, LF), name) == FirstField(SplitOn(m, LF), name)
  {
    BlankLinesHoldNothing(name);
    if m == [] {
      assert m + CRLF == CRLF;
    } else {
      var a := m[..|m| - 1];
      assert m == a + [LF] + [] && m + CRLF == a + [LF] + CRLF;
      SplitOnJoin(a, []);
      SplitOnJoin(a, CRLF);
      FirstFieldConcat(SplitOn(a, LF), SplitOn([], LF), name);
      FirstFieldConcat(SplitOn(a, LF), SplitOn(CRLF, LF), name);
    }
  }

  lemma {:induction false} SameNameTransitive(a: bytes, b: bytes, c: bytes)
    requires SameName(a, b) && SameName(a, c)
    ensures SameName(b, c)
    decreases |a|
  {
    if a != [] {
      SameNameTransitive(a[1..], b[1..], c[1..]);
    }
  }

  lemma HostLineHidesNothing(part: bytes, host: bytes, name: bytes)
    requires IsHost(StripCr(part)) && OneLine(host) && !SameName(HOST, name) && !SameName(HOST_NAME, name)
    ensures FieldIn(part, name).None? && FieldIn(HostLine(host) + [CR], name).None?
  {
    var line := StripCr(part);
    FirstPart(line, COLON);
    if FieldIn(part, name).Some? {
      SameNameTransitive(line[..IndexOf(line, COLON).value], HOST, name);
    }
    FieldReadsBack(Field(HOST_NAME, [SPACE] + host), name);
  }

  lemma PlainLineIsKept(part: bytes, name: bytes)
    ensures FieldIn(StripCr(part) + [CR], name) == FieldIn(part, name)
  {
    assert StripCr(StripCr(part) + [CR]) == StripCr(part);
  }

  lemma {:induction false} ReplacedFields(parts: seq<bytes>, host: bytes, name: bytes)
    requires OneLine(host) && !SameName(HOST, name) && !SameName(HOST_NAME, name)
    ensures FirstField(WithCr(ReplaceHosts(Contents(parts), host)), name) == FirstField(parts, name)
  {
    if parts != [] {
      var line := StripCr(parts[0]);
      ReplacedFields(parts[1..], host, name);
      if line == [] {
        assert [] + Contents(parts[1..]) == Contents(parts[1..]);
        EmptyLineIsNoField(name);
        assert FieldIn(parts[0], name).None?;
      } else {
        assert Contents(parts)[1..] == Contents(parts[1..]);
        var all := ReplaceHosts(Contents(parts), host);
        assert all[1..] == ReplaceHosts(Contents(parts[1..]), host);
        assert WithCr(all)[1..] == WithCr(all[1..]);
        if IsHost(line) {
          HostLineHidesNothing(parts[0], host, name);
        } else {
          PlainLineIsKept(parts[0], name);
        }
      }
    }
  }

  lemma {:induction false} WithCrConcat(a: seq<bytes>, b: seq<bytes>)
    ensures WithCr(a + b) == WithCr(a) + WithCr(b)
  {
    if a == [] {
      assert a + b == b;
    } else {
      assert (a + b)[1..] == a[1..] + b;
      WithCrConcat(a[1..], b);
    }
  }

  lemma WithCrOne(line: bytes)
    ensures WithCr([line]) == [line + [CR]]
  {
    var lines: seq<bytes> := [line];
    assert lines[1..] == [];
  }

  /** Every field but Host has the value it had. */
  lemma NewLinesFields(parts: seq<bytes>, host: bytes, name: bytes)
    requires OneLine(host) && !SameName(HOST, name) && !SameName(HOST_NAME, name)
    ensures FirstField(WithCr(NewLines(Contents(parts), host)), name) == FirstField(parts, name)
  {
    var replaced := ReplaceHosts(Contents(parts), host);
    ReplacedFields(parts, host, name);
    if HasHost(Contents(parts)) {
      assert replaced + [] == replaced;
    } else {
      var added := HostLine(host);
      WithCrConcat(replaced, [added]);
      WithCrOne(added);
      FirstFieldConcat(WithCr(replaced), [added + [CR]], name);
      HostLineIsHost(host);
      assert StripCr(added + [CR]) == added;
      HostLineHidesNothing(added + [CR], host, name);
    }
  }

  // ----- A request in parts

  /** A request that is rewritten: its start line, the text of its header lines, its body. */
  ghost predicate InParts(request: bytes, line: bytes, middle: bytes, body: bytes)
  {
    && request == line + CRLF + middle + CRLF + body
    && HeadersOf(request) == Some(line + CRLF + middle + CRLF)
    && StartLine(line + CRLF + middle + CRLF) == Some(line)
    && NoEnd(line) && (middle == [] || middle[|middle| - 1] == LF)
  }

  lemma {:induction false} BlankMeans(s: bytes)
    requires FindBlank(s).Some?
    ensures var n := FindBlank(s).value;
            n + 4 <= |s| && s[n] == CR && s[n + 1] == LF && s[n + 2] == CR && s[n + 3] == LF
  {
    if s[0] != CR || s[1] != LF || s[2] != CR || s[3] != LF {
      BlankMeans(s[1..]);
    }
  }

  /** The header section ends with the blank line, and has a start line. */
  lemma HeadersEndBlank(request: bytes)
    requires HeadersOf(request).Some?
    ensures var headers := HeadersOf(request).value;
            && |headers| >= 4 && headers <= request
            && headers[|headers| - 4] == CR && headers[|headers| - 3] == LF
            && headers[|headers| - 2] == CR && headers[|headers| - 1] == LF
  {
    BlankMeans(request);
  }

  lemma {:induction false} CrlfIsBefore(s: bytes, at: nat)
    requires at + 2 <= |s| && s[at] == CR && s[at + 1] == LF
    ensures FindCrlf(s).Some? && FindCrlf(s).value <= at
  {
    if at > 0 && (s[0] != CR || s[1] != LF) {
      CrlfIsBefore(s[1..], at - 1);
    }
  }

  lemma Framed(headers: bytes, n: nat)
    requires n + 4 <= |headers| && headers[n] == CR && headers[n + 1] == LF
    requires headers[|headers| - 2] == CR && headers[|headers| - 1] == LF
    ensures headers == headers[..n] + CRLF + headers[n + 2..|headers| - 2] + CRLF
  {
    assert headers == headers[..n] + headers[n..n + 2] + headers[n + 2..|headers| - 2] + headers[|headers| - 2..];
    assert headers[n..n + 2] == CRLF && headers[|headers| - 2..] == CRLF;
  }

  lemma HeadersHaveLine(headers: bytes)
    requires |headers| >= 4 && headers[|headers| - 4] == CR && headers[|headers| - 3] == LF
    requires headers[|headers| - 2] == CR && headers[|headers| - 1] == LF
    ensures StartLine(headers).Some?
    ensures var line := StartLine(headers).value;
            && |line| + 4 <= |headers| && NoEnd(line)
            && headers == line + CRLF + headers[|line| + 2..|headers| - 2] + CRLF
  {
    CrlfIsBefore(headers, |headers| - 4);
    NoEndBeforeFirst(headers);
    var n := FindCrlf(headers).value;
    assert headers[n..n + 2] == CRLF && headers[n] == headers[n..n + 2][0] && headers[n + 1] == headers[n..n + 2][1];
    Framed(headers, n);
  }

  lemma PartsExist(request: bytes) returns (line: bytes, middle: bytes, body: bytes)
    requires HeadersOf(request).Some?
    ensures InParts(request, line, middle, body)
  {
    HeadersEndBlank(request);
    var headers := HeadersOf(request).value;
    HeadersHaveLine(headers);
    line := StartLine(headers).value;
    middle := headers[|line| + 2..|headers| - 2];
    body := request[|headers|..];
    if middle != [] {
      assert middle[|middle| - 1] == headers[|headers| - 3];
    }
    assert request == headers + body;
  }

  lemma LinesInParts(line: bytes, middle: bytes)
    ensures LinesOf(line + CRLF + middle + CRLF, line) == Contents(SplitOn(middle, LF))
  {
    var headers := line + CRLF + middle + CRLF;
    assert headers[|line| + 2..|headers| - 2] == middle;
  }

  lemma HeaderInParts(line: bytes, middle: bytes, name: bytes)
    requires OneLine(line) && (middle == [] || middle[|middle| - 1] == LF)
    ensures HeaderValue(line + CRLF + middle + CRLF, name) == FirstField(SplitOn(middle, LF), name)
  {
    var headers := line + CRLF + middle + CRLF;
    assert headers == (line + [CR]) + [LF] + (middle + CRLF);
    SplitOnPart(line + [CR], LF, middle + CRLF);
    assert SplitOn(headers, LF)[1..] == SplitOn(middle + CRLF, LF);
    EndingHoldsNothing(middle, name);
  }

  /** The start line after rewriting. */
  function NewStart(line: bytes, g: Setting): bytes
    requires Fields(line).Some?
  {
    var f := Fields(line).value;
    PrintLine(f.(target := NewTarget(f.target, g)))
  }

  /** The rewritten request, in parts. */
  lemma RewrittenInParts(request: bytes, line: bytes, middle: bytes, body: bytes, g: Setting)
    requires InParts(request, line, middle, body) && Fields(line).Some?
    ensures RewriteRequest(request, g)
         == PrintHead(NewStart(line, g), NewLines(Contents(SplitOn(middle, LF)), g.host)) + body
  {
    var headers := line + CRLF + middle + CRLF;
    LinesInParts(line, middle);
    assert request[|headers|..] == body;
  }
}
