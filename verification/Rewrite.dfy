/** Rewriting a captured request for replay: its target, and its Host field. */
module Rewrite {
  import opened Base
  import opened Http1
  import opened Http1Messages

  const SLASH: byte := 47
  const SCHEME: bytes := [104, 116, 116, 112, 58, 47, 47] // http://
  const HOST: bytes := [104, 111, 115, 116]               // host
  const HOST_NAME: bytes := [72, 111, 115, 116]           // Host

  datatype RequestLine = RequestLine(verb: bytes, target: bytes, version: bytes)

  /** What replay asks for: the value of the Host field and, for a client that talks to a proxy in
      the clear, the address to put in front of the path. `lossy` replaces ill-formed text. */
  datatype Setting = Setting(host: bytes, proxied: Option<bytes>, lossy: bytes -> bytes)

  /** The three fields of a request line; the last one is all the rest. */
  function Fields(line: bytes): Option<RequestLine>
  {
    var a := IndexOf(line, SPACE);
    if a.None? || a.value >= |line| then None
    else
      var rest := line[a.value + 1..];
      var b := IndexOf(rest, SPACE);
      if b.None? || b.value >= |rest| then None
      else Some(RequestLine(line[..a.value], rest[..b.value], rest[b.value + 1..]))
  }

  function PathOf(target: bytes): bytes
  {
    if SCHEME <= target then
      var at := IndexOf(target[7..], SLASH);
      if at.Some? && at.value <= |target| - 7 then target[7 + at.value..] else [SLASH]
    else target
  }

  function NewTarget(target: bytes, g: Setting): bytes
  {
    match g.proxied
    case None => PathOf(target)
    case Some(address) => SCHEME + address + g.lossy(PathOf(target))
  }

  function PrintLine(l: RequestLine): bytes
  {
    l.verb + [SPACE] + (l.target + [SPACE] + l.version)
  }

  predicate IsHost(line: bytes)
  {
    SameName(SplitOn(line, COLON)[0], HOST)
  }

  function HostLine(host: bytes): bytes
  {
    HOST_NAME + [COLON] + ([SPACE] + host)
  }

  /** The header lines, without line ends and without empty lines. */
  function Contents(parts: seq<bytes>): seq<bytes>
  {
    if parts == [] then []
    else
      var line := StripCr(parts[0]);
      (if line == [] then [] else [line]) + Contents(parts[1..])
  }

  function ReplaceHosts(lines: seq<bytes>, host: bytes): seq<bytes>
  {
    if lines == [] then []
    else [if IsHost(lines[0]) then HostLine(host) else lines[0]] + ReplaceHosts(lines[1..], host)
  }

  predicate HasHost(lines: seq<bytes>)
  {
    lines != [] && (IsHost(lines[0]) || HasHost(lines[1..]))
  }

  /** Every Host line replaced, or one added at the end. */
  function NewLines(lines: seq<bytes>, host: bytes): seq<bytes>
  {
    ReplaceHosts(lines, host) + if HasHost(lines) then [] else [HostLine(host)]
  }

  /** The lines between the request line and the blank line. */
  function LinesOf(headers: bytes, line: bytes): seq<bytes>
  {
    if |line| + 4 <= |headers| then Contents(SplitOn(headers[|line| + 2..|headers| - 2], LF)) else []
  }

  function RewriteRequest(request: bytes, g: Setting): bytes
  {
    var headers := HeadersOf(request);
    if headers.None? || StartLine(headers.value).None? then request
    else
      var line := StartLine(headers.value).value;
      var fields := Fields(line);
      if fields.None? then request
      else
        var first := PrintLine(fields.value.(target := NewTarget(fields.value.target, g)));
        PrintHead(first, NewLines(LinesOf(headers.value, line), g.host)) + request[|headers.value|..]
  }

  // ----- The loop

  method RewriteHttpRequest(request: bytes, g: Setting) returns (output: bytes)
    ensures output == RewriteRequest(request, g)
  {
    var headers := HeadersOf(request);
    if headers.None? || StartLine(headers.value).None? {
      return request;
    }
    var line := StartLine(headers.value).value;
    var fields := Fields(line);
    if fields.None? {
      return request;
    }
    output := PrintLine(fields.value.(target := NewTarget(fields.value.target, g))) + CRLF;
    var parts := if |line| + 4 <= |headers.value| then SplitOn(headers.value[|line| + 2..|headers.value| - 2], LF)
                 else [];
    var lines := AppendLines(parts, g.host);
    ghost var first := PrintLine(fields.value.(target := NewTarget(fields.value.target, g)));
    assert ([first] + NewLines(Contents(parts), g.host))[1..] == NewLines(Contents(parts), g.host);
    output := output + lines + CRLF + request[|headers.value|..];
  }

  method AppendLines(parts: seq<bytes>, host: bytes) returns (output: bytes)
    ensures output == Lines(NewLines(Contents(parts), host))
  {
    output := [];
    var replaced := false;
    assert parts[..0] == [];
    for i := 0 to |parts|
      invariant output == Lines(ReplaceHosts(Contents(parts[..i]), host))
      invariant replaced == HasHost(Contents(parts[..i]))
    {
      OneMorePart(parts, i, host);
      var line := StripCr(parts[i]);
      if line == [] {
        continue;
      }
      if IsHost(line) {
        output := output + HostLine(host) + CRLF;
        replaced := true;
      } else {
        output := output + line + CRLF;
      }
    }
    assert parts[..|parts|] == parts;
    LinesConcat(ReplaceHosts(Contents(parts), host), if replaced then [] else [HostLine(host)]);
    if !replaced {
      output := output + HostLine(host) + CRLF;
      LinesOne(HostLine(host));
    } else {
      assert output + Lines([]) == output;
    }
  }

  lemma LinesOne(line: bytes)
    ensures Lines([line]) == line + CRLF
  {
    assert [line][1..] == [];
    assert line + CRLF + [] == line + CRLF;
  }

  lemma {:induction false} LinesConcat(a: seq<bytes>, b: seq<bytes>)
    ensures Lines(a + b) == Lines(a) + Lines(b)
  {
    if a == [] {
      assert a + b == b;
    } else {
      assert (a + b)[1..] == a[1..] + b;
      LinesConcat(a[1..], b);
      assert a[0] + CRLF + (Lines(a[1..]) + Lines(b)) == a[0] + CRLF + Lines(a[1..]) + Lines(b);
    }
  }

  lemma {:induction false} ContentsConcat(a: seq<bytes>, b: seq<bytes>)
    ensures Contents(a + b) == Contents(a) + Contents(b)
  {
    if a == [] {
      assert a + b == b;
    } else {
      assert (a + b)[1..] == a[1..] + b;
      ContentsConcat(a[1..], b);
    }
  }

  lemma {:induction false} HostsConcat(a: seq<bytes>, b: seq<bytes>, host: bytes)
    ensures ReplaceHosts(a + b, host) == ReplaceHosts(a, host) + ReplaceHosts(b, host)
    ensures HasHost(a + b) <==> HasHost(a) || HasHost(b)
  {
    if a == [] {
      assert a + b == b;
    } else {
      assert (a + b)[1..] == a[1..] + b;
      HostsConcat(a[1..], b, host);
    }
  }

  lemma OneMorePart(parts: seq<bytes>, i: nat, host: bytes)
    requires i < |parts|
    ensures var before, after := Contents(parts[..i]), Contents(parts[..i + 1]);
            var line := StripCr(parts[i]);
            if line == [] then after == before
            else
              var written := if IsHost(line) then HostLine(host) else line;
              && Lines(ReplaceHosts(after, host)) == Lines(ReplaceHosts(before, host)) + written + CRLF
              && (HasHost(after) <==> HasHost(before) || IsHost(line))
  {
    var line := StripCr(parts[i]);
    assert parts[..i + 1] == parts[..i] + [parts[i]];
    ContentsConcat(parts[..i], [parts[i]]);
    ContentsOne(parts[i]);
    if line != [] {
      HostsConcat(Contents(parts[..i]), [line], host);
      HostsOne(line, host);
      var written := if IsHost(line) then HostLine(host) else line;
      LinesConcat(ReplaceHosts(Contents(parts[..i]), host), [written]);
      LinesOne(written);
    }
  }

  lemma ContentsOne(part: bytes)
    ensures Contents([part]) == if StripCr(part) == [] then [] else [StripCr(part)]
  {
    assert [part][1..] == [];
  }

  lemma HostsOne(line: bytes, host: bytes)
    ensures ReplaceHosts([line], host) == [if IsHost(line) then HostLine(host) else line]
    ensures HasHost([line]) <==> IsHost(line)
  {
    assert [line][1..] == [];
  }
}
