/** Rewriting for replay is sound, idempotent, and a server undoes what a proxied client adds. */
module RewriteLaws {
  import opened Base
  import opened Http1
  import opened Http1Messages
  import opened Walk
  import opened Rewrite
  import opened RewriteSound

  // ----- Rewriting what is already normal

  lemma {:induction false} LinesSplit(lines: seq<bytes>)
    requires GoodLines(lines)
    ensures Contents(SplitOn(Lines(lines), LF)) == lines
  {
    if lines == [] {
      EmptyContents();
    } else {
      var rest := Lines(lines[1..]);
      assert Lines(lines) == (lines[0] + [CR]) + [LF] + rest;
      SplitOnPart(lines[0] + [CR], LF, rest);
      LinesSplit(lines[1..]);
      assert StripCr(lines[0] + [CR]) == lines[0];
      ContentsCons(lines[0] + [CR], SplitOn(rest, LF));
    }
  }

  lemma EmptyContents()
    ensures Contents(SplitOn([], LF)) == []
  {
    var none: bytes := [];
    ContentsOne(none);
    assert SplitOn([], LF) == [none];
  }

  lemma ContentsCons(part: bytes, rest: seq<bytes>)
    requires StripCr(part) != []
    ensures Contents([part] + rest) == [StripCr(part)] + Contents(rest)
  {
    assert ([part] + rest)[1..] == rest;
  }

  lemma PrintedHeadInParts(start: bytes, lines: seq<bytes>)
    ensures PrintHead(start, lines) == start + CRLF + Lines(lines) + CRLF
  {
    assert ([start] + lines)[1..] == lines;
  }

  /** Rewriting a request whose lines are normal changes only its target. */
  lemma RewritePrinted(f: RequestLine, lines: seq<bytes>, body: bytes, g: Setting)
    requires SPACE !in f.verb && SPACE !in f.target && NoEnd(PrintLine(f))
    requires GoodLines(lines) && HostsAre(lines, g.host) && HasHost(lines)
    ensures RewriteRequest(PrintHead(PrintLine(f), lines) + body, g)
         == PrintHead(PrintLine(f.(target := NewTarget(f.target, g))), lines) + body
  {
    var start := PrintLine(f);
    var head := PrintHead(start, lines);
    HeadReadsBack(start, lines, body);
    PrintedFields(f);
    PrintedHeadInParts(start, lines);
    LinesInParts(start, Lines(lines));
    LinesSplit(lines);
    NewLinesAgain(lines, g.host);
    assert (head + body)[|head|..] == body;
  }

  predicate IsRewritten(request: bytes)
  {
    HeadersOf(request).Some? && StartLine(HeadersOf(request).value).Some?
    && Fields(StartLine(HeadersOf(request).value).value).Some?
  }

  /** A request that is rewritten has normal lines afterwards. */
  lemma RewrittenIsNormal(request: bytes, g: Setting) returns (f: RequestLine, lines: seq<bytes>, body: bytes)
    requires IsRewritten(request) && OneLine(g.host)
    ensures f == Fields(StartLine(HeadersOf(request).value).value).value
    ensures SPACE !in f.verb && SPACE !in f.target && NoEnd(PrintLine(f))
    ensures GoodLines(lines) && HostsAre(lines, g.host) && HasHost(lines)
    ensures forall h: Setting :: h.host == g.host ==>
              RewriteRequest(request, h) == PrintHead(PrintLine(f.(target := NewTarget(f.target, h))), lines) + body
  {
    var line, middle;
    line, middle, body := PartsExist(request);
    f := Fields(line).value;
    FieldsMean(line);
    PartsAreClean(middle, LF);
    ContentsAreLines(SplitOn(middle, LF));
    NewLinesMean(Contents(SplitOn(middle, LF)), g.host);
    lines := NewLines(Contents(SplitOn(middle, LF)), g.host);
    forall h: Setting | h.host == g.host
      ensures RewriteRequest(request, h) == PrintHead(PrintLine(f.(target := NewTarget(f.target, h))), lines) + body
    {
      RewrittenInParts(request, line, middle, body, h);
    }
  }

  /** Rewriting for a server is idempotent, on every byte string. */
  lemma ServerRewritingIsIdempotent(request: bytes, g: Setting)
    requires g.proxied.None? && OneLine(g.host)
    ensures RewriteRequest(RewriteRequest(request, g), g) == RewriteRequest(request, g)
  {
    if IsRewritten(request) {
      var f, lines, body := RewrittenIsNormal(request, g);
      var target := PathOf(f.target);
      PathKeeps(f.target);
      PathMeans(f.target);
      PrintLineParts(f);
      PrintLineParts(f.(target := target));
      RewritePrinted(f.(target := target), lines, body, g);
    }
  }

  // ----- A client behind a proxy, then a server

  predicate StartsWithSlash(path: bytes)
  {
    path != [] && path[0] == SLASH
  }

  lemma ProxiedPath(address: bytes, path: bytes)
    requires SLASH !in address
    ensures PathOf(SCHEME + address + path) == path <==> StartsWithSlash(path)
  {
    var target := SCHEME + address + path;
    assert target[7..] == address + path;
    SearchPast(address, path);
    IndexOfMeans(path, SLASH);
    if IndexOf(path, SLASH).Some? {
      assert target[7 + |address| + IndexOf(path, SLASH).value..] == path[IndexOf(path, SLASH).value..];
    }
  }

  lemma {:induction false} SearchPast(a: bytes, b: bytes)
    requires SLASH !in a
    ensures IndexOf(a + b, SLASH) == Shift(IndexOf(b, SLASH), |a|)
  {
    if a == [] {
      assert a + b == b;
    } else {
      assert (a + b)[1..] == a[1..] + b;
      SearchPast(a[1..], b);
    }
  }

  lemma TargetsDecide(f: RequestLine, x: bytes, y: bytes, lines: seq<bytes>, body: bytes)
    requires SPACE !in f.verb && SPACE !in x && SPACE !in y
    requires NoEnd(PrintLine(f.(target := x))) && NoEnd(PrintLine(f.(target := y))) && GoodLines(lines)
    ensures PrintHead(PrintLine(f.(target := x)), lines) + body == PrintHead(PrintLine(f.(target := y)), lines) + body
       <==> x == y
  {
    var a, b := PrintLine(f.(target := x)), PrintLine(f.(target := y));
    if PrintHead(a, lines) + body == PrintHead(b, lines) + body {
      HeadReadsBack(a, lines, body);
      HeadReadsBack(b, lines, body);
      PrintedFields(f.(target := x));
      PrintedFields(f.(target := y));
    }
  }

  /** Rewriting for a client behind a proxy and then for a server is rewriting for the server alone,
      exactly when the path of the request starts with a slash. */
  lemma ProxyThenServer(request: bytes, client: Setting, server: Setting)
    requires IsRewritten(request) && server.proxied.None? && client.proxied.Some? && client.host == server.host
    requires GoodSetting(client, Fields(StartLine(HeadersOf(request).value).value).value.target)
    ensures RewriteRequest(RewriteRequest(request, client), server) == RewriteRequest(request, server)
       <==> StartsWithSlash(PathOf(Fields(StartLine(HeadersOf(request).value).value).value.target))
  {
    var f, lines, body := RewrittenIsNormal(request, client);
    var path, target := PathOf(f.target), NewTarget(f.target, client);
    PathKeeps(f.target);
    PathKeeps(target);
    NewTargetKeeps(f.target, client);
    PrintLineParts(f);
    PrintLineParts(f.(target := target));
    PrintLineParts(f.(target := path));
    PrintLineParts(f.(target := PathOf(target)));
    RewritePrinted(f.(target := target), lines, body, server);
    TargetsDecide(f, PathOf(target), path, lines, body);
    ProxiedPath(client.proxied.value, path);
  }

  // ----- Soundness

  lemma OneMessage(s: bytes, kind: Kind)
    requires s != []
    ensures Split(s, kind) == Some([s]) <==> FirstMessage(kind, s) == More(|s|)
  {
    OnePart(Messages(kind), s);
  }

  lemma ChunksMove(s: bytes, a: nat, t: bytes, b: nat)
    requires a <= |s| && b <= |t| && s[a..] == t[b..] && ChunkedEnd(s, a) == Some(|s|)
    ensures ChunkedEnd(t, b) == Some(|t|)
  {
    EndMoves(FirstChunk, s, a, t, b);
  }

  /** The end of a body depends only on the length and coding that are announced, and on what follows. */
  lemma BodyMoves(h: bytes, s: bytes, a: nat, k: bytes, t: bytes, b: nat, line: bytes, start: bytes)
    requires a <= |s| && b <= |t| && s[a..] == t[b..] && |s| - a == |t| - b
    requires HeaderValue(h, TRANSFER_ENCODING) == HeaderValue(k, TRANSFER_ENCODING)
    requires HeaderValue(h, CONTENT_LENGTH) == HeaderValue(k, CONTENT_LENGTH)
    requires BodyEnd(h, line, Request, s, a) == Some(|s|)
    ensures BodyEnd(k, start, Request, t, b) == Some(|t|)
  {
    if HasToken(h, TRANSFER_ENCODING, CHUNKED) {
      ChunksMove(s, a, t, b);
    }
  }

  lemma NotHost()
    ensures forall host :: host == HOST || host == HOST_NAME ==>
              !SameName(host, UPGRADE) && !SameName(host, CONNECTION)
              && !SameName(host, TRANSFER_ENCODING) && !SameName(host, CONTENT_LENGTH)
  {
  }

  lemma FieldsSurvive(line: bytes, middle: bytes, start: bytes, host: bytes, name: bytes)
    requires OneLine(line) && OneLine(start) && OneLine(host) && (middle == [] || middle[|middle| - 1] == LF)
    requires !SameName(HOST, name) && !SameName(HOST_NAME, name)
    ensures HeaderValue(PrintHead(start, NewLines(Contents(SplitOn(middle, LF)), host)), name)
         == HeaderValue(line + CRLF + middle + CRLF, name)
  {
    PartsAreClean(middle, LF);
    ContentsAreLines(SplitOn(middle, LF));
    NewLinesMean(Contents(SplitOn(middle, LF)), host);
    HeaderReadsBack(start, NewLines(Contents(SplitOn(middle, LF)), host), name);
    NewLinesFields(SplitOn(middle, LF), host, name);
    HeaderInParts(line, middle, name);
  }

  lemma NewStartIsValid(line: bytes, g: Setting)
    requires ValidRequestLine(line) && OneLine(line)
    requires Fields(line).Some? ==> GoodSetting(g, Fields(line).value.target)
    ensures Fields(line).Some?
    ensures ValidRequestLine(NewStart(line, g)) && OneLine(NewStart(line, g))
  {
    ThreeFields(line);
    FieldsMean(line);
    var f := Fields(line).value;
    NewTargetKeeps(f.target, g);
    PrintLineParts(f);
    PrintLineParts(f.(target := NewTarget(f.target, g)));
    RequestStartIsValid(f.verb, NewTarget(f.target, g));
  }

  /** What rewriting promises about the header section: the method and version are kept, the target
      is the new one, all lines but the Host lines are kept in order, and every Host line, of which
      there is at least one, names the new host. */
  ghost predicate HeadRewritten(before: bytes, after: bytes, g: Setting)
  {
    && StartLine(before).Some? && StartLine(after).Some?
    && Fields(StartLine(before).value).Some? && Fields(StartLine(after).value).Some?
    && (var f, n := Fields(StartLine(before).value).value, Fields(StartLine(after).value).value;
        n == f.(target := NewTarget(f.target, g)))
    && (var x, y := LinesOf(before, StartLine(before).value), LinesOf(after, StartLine(after).value);
        OtherLines(x) == OtherLines(y) && HostsAre(y, g.host) && HasHost(y))
  }

  lemma HeadIsRewritten(line: bytes, middle: bytes, g: Setting)
    requires Fields(line).Some? && GoodSetting(g, Fields(line).value.target)
    requires StartLine(line + CRLF + middle + CRLF) == Some(line) && NoEnd(line)
    ensures HeadRewritten(line + CRLF + middle + CRLF,
                          PrintHead(NewStart(line, g), NewLines(Contents(SplitOn(middle, LF)), g.host)), g)
  {
    FieldsMean(line);
    var f := Fields(line).value;
    var start, lines := NewStart(line, g), NewLines(Contents(SplitOn(middle, LF)), g.host);
    NewTargetKeeps(f.target, g);
    PrintLineParts(f);
    PrintLineParts(f.(target := NewTarget(f.target, g)));
    PartsAreClean(middle, LF);
    ContentsAreLines(SplitOn(middle, LF));
    NewLinesMean(Contents(SplitOn(middle, LF)), g.host);
    HeadReadsBack(start, lines, []);
    PrintedFields(f.(target := NewTarget(f.target, g)));
    PrintedHeadInParts(start, lines);
    LinesInParts(start, Lines(lines));
    LinesSplit(lines);
    LinesInParts(line, middle);
  }

  /** Rewriting is sound: a request accepted as one message becomes one message with the same body,
      the same other header lines in order, and the new target and host. */
  lemma RewritingIsSound(request: bytes, g: Setting)
    requires request != [] && Split(request, Request) == Some([request])
    requires HeadersOf(request).Some? && StartLine(HeadersOf(request).value).Some? ==>
               var line := StartLine(HeadersOf(request).value).value;
               OneLine(line) && (Fields(line).Some? ==> GoodSetting(g, Fields(line).value.target))
    ensures var r := RewriteRequest(request, g);
            && HeadersOf(request).Some? && HeadersOf(r).Some?
            && Split(r, Request) == Some([r])
            && r[|HeadersOf(r).value|..] == request[|HeadersOf(request).value|..]
            && HeadRewritten(HeadersOf(request).value, HeadersOf(r).value, g)
  {
    OneMessage(request, Request);
    var line, middle, body := PartsExist(request);
    var headers := line + CRLF + middle + CRLF;
    NewStartIsValid(line, g);
    RewrittenInParts(request, line, middle, body, g);
    HeadIsRewritten(line, middle, g);
    RewrittenStands(request, line, middle, body, g);
    OneMessage(RewriteRequest(request, g), Request);
  }

  lemma RewrittenStands(request: bytes, line: bytes, middle: bytes, body: bytes, g: Setting)
    requires InParts(request, line, middle, body) && FirstMessage(Request, request) == More(|request|)
    requires OneLine(line) && Fields(line).Some? && GoodSetting(g, Fields(line).value.target)
    requires ValidRequestLine(NewStart(line, g)) && OneLine(NewStart(line, g))
    ensures var head := PrintHead(NewStart(line, g), NewLines(Contents(SplitOn(middle, LF)), g.host));
            && RewriteRequest(request, g) == head + body
            && HeadersOf(head + body) == Some(head)
            && FirstMessage(Request, head + body) == More(|head + body|)
  {
    var headers := line + CRLF + middle + CRLF;
    var start, lines := NewStart(line, g), NewLines(Contents(SplitOn(middle, LF)), g.host);
    var head := PrintHead(start, lines);
    RewrittenInParts(request, line, middle, body, g);
    PartsAreClean(middle, LF);
    ContentsAreLines(SplitOn(middle, LF));
    NewLinesMean(Contents(SplitOn(middle, LF)), g.host);
    OneLineHasNoEnd(start);
    HeadReadsBack(start, lines, body);
    NotHost();
    FieldsSurvive(line, middle, start, g.host, UPGRADE);
    FieldsSurvive(line, middle, start, g.host, CONNECTION);
    FieldsSurvive(line, middle, start, g.host, TRANSFER_ENCODING);
    FieldsSurvive(line, middle, start, g.host, CONTENT_LENGTH);
    assert request[|headers|..] == body && (head + body)[|head|..] == body;
    BodyMoves(headers, request, |headers|, head, head + body, |head|, line, start);
    MessageOfParts(Request, head + body, head, start, |head + body|);
  }
}
