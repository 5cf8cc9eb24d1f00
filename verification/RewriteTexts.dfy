/** What rewriting makes of a target and of a header line, said of their bytes. */
module RewriteTexts {
  import opened Base
  import opened Http1
  import opened Http1Messages
  import opened Http1Heads
  import opened Rewrite
  import opened RewriteSound

  lemma {:induction false} TextsAreSpelled()
    ensures SCHEME == Text("http://") && HOST == Text("host") && HOST_NAME == Text("Host") && [SLASH] == Text("/")
  {
  }

  /** A target with scheme: an authority without a slash, and a path, which is a slash if nothing is there. */
  predicate IsAbsolute(target: bytes, authority: bytes, rest: bytes, path: bytes)
  {
    && target == Text("http://") + authority + rest && '/' as int !in authority
    && (rest == [] || rest[0] == '/' as int)
    && path == if rest == [] then Text("/") else rest
  }

  ghost predicate IsPath(target: bytes, path: bytes)
  {
    if Text("http://") <= target then exists authority, rest :: IsAbsolute(target, authority, rest, path)
    else path == target
  }

  lemma {:induction false} PathBehind(authority: bytes, rest: bytes, path: bytes)
    requires '/' as int !in authority && (rest == [] || rest[0] == '/' as int)
    requires path == if rest == [] then Text("/") else rest
    ensures IsPath(Text("http://") + authority + rest, path)
  {
    var target := Text("http://") + authority + rest;
    assert Text("http://") <= target;
    assert IsAbsolute(target, authority, rest, path);
  }

  lemma {:induction false} PathIsAbsolute(target: bytes)
    requires SCHEME <= target
    ensures IsPath(target, PathOf(target))
  {
    TextsAreSpelled();
    var tail := target[7..];
    assert target == SCHEME + tail;
    IndexOfMeans(tail, SLASH);
    var at := IndexOf(tail, SLASH);
    if at.Some? && at.value <= |tail| {
      var a, x := tail[..at.value], tail[at.value..];
      assert target == SCHEME + a + x;
      assert target[7 + at.value..] == x;
      PathBehind(a, x, PathOf(target));
    } else {
      assert target == SCHEME + tail + [];
      PathBehind(tail, [], PathOf(target));
    }
  }

  lemma {:induction false} NoSlashBefore(front: bytes, back: bytes, k: nat)
    requires '/' as int !in front && k < |front + back| && (front + back)[k] == '/' as int
    ensures |front| <= k
  {
    assert forall i :: 0 <= i < |front| ==> (front + back)[i] == front[i] && front[i] in front;
  }

  lemma {:induction false} SplitOnce(a: bytes, x: bytes, b: bytes, y: bytes)
    requires a + x == b + y && '/' as int !in a && '/' as int !in b
    requires (x == [] || x[0] == '/' as int) && (y == [] || y[0] == '/' as int)
    ensures x == y
  {
    if x != [] {
      NoSlashBefore(b, y, |a|);
    }
    if y != [] {
      NoSlashBefore(a, x, |b|);
    }
    assert (a + x)[|a|..] == x && (b + y)[|b|..] == y;
  }

  lemma {:induction false} OnePath(target: bytes, a: bytes, x: bytes, p: bytes, b: bytes, y: bytes, q: bytes)
    requires IsAbsolute(target, a, x, p) && IsAbsolute(target, b, y, q)
    ensures p == q
  {
    var n := |Text("http://")|;
    assert target[n..] == a + x && target[n..] == b + y;
    SplitOnce(a, x, b, y);
  }

  /** Rewriting keeps the path of a target, whether or not a scheme and an authority stand before it. */
  lemma {:induction false} PathMeans(target: bytes, path: bytes)
    ensures path == PathOf(target) <==> IsPath(target, path)
  {
    TextsAreSpelled();
    if SCHEME <= target {
      PathIsAbsolute(target);
      var a, x :| IsAbsolute(target, a, x, PathOf(target));
      forall b, y | IsAbsolute(target, b, y, path)
        ensures path == PathOf(target)
      {
        OnePath(target, a, x, PathOf(target), b, y, path);
      }
    }
  }

  /** For a proxy the scheme and the address stand before the path. */
  lemma {:induction false} TargetMeans(target: bytes, g: Setting)
    ensures g.proxied.None? ==> NewTarget(target, g) == PathOf(target)
    ensures g.proxied.Some? ==> NewTarget(target, g) == Text("http://") + g.proxied.value + g.lossy(PathOf(target))
  {
    TextsAreSpelled();
  }

  /** The line up to its first colon, or all of it. */
  predicate IsName(line: bytes, name: bytes)
  {
    name <= line && ':' as int !in name && (|name| == |line| || line[|name|] == ':' as int)
  }

  lemma {:induction false} FirstPartIsName(line: bytes)
    ensures IsName(line, SplitOn(line, COLON)[0])
  {
    if line != [] && line[0] != COLON {
      FirstPartIsName(line[1..]);
      var name := SplitOn(line[1..], COLON)[0];
      assert SplitOn(line, COLON)[0] == [line[0]] + name;
      assert line == [line[0]] + line[1..];
    }
  }

  lemma {:induction false} OneName(line: bytes, a: bytes, b: bytes)
    requires IsName(line, a) && IsName(line, b)
    ensures a == b
  {
  }

  /** Which lines are replaced, and by what. */
  lemma {:induction false} HostMeans(line: bytes, host: bytes)
    ensures IsHost(line) <==> exists name :: IsName(line, name) && SameLetters(name, Text("host"))
    ensures HostLine(host) == Text("Host: ") + host
  {
    TextsAreSpelled();
    FirstPartIsName(line);
    SameNameMeans(SplitOn(line, COLON)[0], HOST);
    forall name | IsName(line, name)
      ensures name == SplitOn(line, COLON)[0]
    {
      OneName(line, name, SplitOn(line, COLON)[0]);
    }
    assert HOST_NAME + [COLON] + [SPACE] == Text("Host: ");
  }
}
