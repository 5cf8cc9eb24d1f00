/** When a rollback succeeds: said of the events that its tries meet, one after the other. */
module NetworkRetries {
  import opened Base
  import opened HostModel
  import opened NetworkPlan
  import opened NetworkOps
  import opened NetworkSafety
  import opened NetworkRuns

  // ----- What the events say

  /** A try that fails, with or without its effect. */
  predicate Fails(e: Event)
  {
    e == Error || e == LateError
  }

  /** The events behind one command that works at its first, second or third try; None if its process dies
      or three tries fail. */
  function AfterOne(tape: seq<Event>): Option<seq<Event>>
  {
    var first, second, third := Head(tape), Head(Tail(tape)), Head(Tail(Tail(tape)));
    if first == Go then Some(Tail(tape))
    else if Fails(first) && second == Go then Some(Tail(Tail(tape)))
    else if Fails(first) && Fails(second) && third == Go then Some(Tail(Tail(Tail(tape))))
    else None
  }

  /** The events behind `n` such commands. */
  function AfterAll(tape: seq<Event>, n: nat): Option<seq<Event>>
  {
    if n == 0 then Some(tape)
    else match AfterOne(tape) case None => None case Some(rest) => AfterAll(rest, n - 1)
  }

  /** Success, with the events behind `n` commands left, exactly if each of them works in time. */
  predicate GoesBy(r: (Env, Verdict), tape: seq<Event>, n: nat)
  {
    match AfterAll(tape, n)
    case None => !r.1.Fine?
    case Some(rest) => r.1.Fine? && r.0.tape == rest
  }

  predicate GoesOnce(r: (Env, Verdict), tape: seq<Event>)
  {
    match AfterOne(tape)
    case None => !r.1.Fine?
    case Some(rest) => r.1.Fine? && r.0.tape == rest
  }

  lemma {:induction false} AfterSum(tape: seq<Event>, a: nat, b: nat)
    ensures AfterAll(tape, a + b) == match AfterAll(tape, a) case None => None case Some(rest) => AfterAll(rest, b)
    decreases a
  {
    if a > 0 {
      match AfterOne(tape)
      case None =>
      case Some(rest) => AfterSum(rest, a - 1, b);
    }
  }

  // ----- One command

  /** Wherever `p` holds the command is not refused, and `p` holds after it. */
  ghost predicate Accepted(p: Host -> bool, c: Command)
  {
    forall h: Host :: AcceptedOn(p, c, h)
  }

  ghost predicate AcceptedOn(p: Host -> bool, c: Command, h: Host)
  {
    p(h) ==> !Run(c, h).Refused? && p(After(c, h))
  }

  lemma {:induction false} TryGoes(p: Host -> bool, c: Command, e: Env)
    requires Accepted(p, c) && p(e.host)
    ensures var (e1, v) := Try(c, e, true);
            && p(e1.host) && e1.tape == Tail(e.tape)
            && v == if Head(e.tape) == Go then Fine else if Head(e.tape) == Crash then Died else Failed
  {
    assert AcceptedOn(p, c, e.host);
  }

  lemma {:induction false} AttemptGoes(p: Host -> bool, c: Command, e: Env)
    requires Accepted(p, c) && p(e.host)
    ensures GoesOnce(Attempt(c, e, ATTEMPTS), e.tape)
  {
    TryGoes(p, c, e);
    var (e1, v1) := Try(c, e, true);
    AttemptNext(c, e, 3);
    if v1.Failed? {
      TryGoes(p, c, e1);
      var (e2, v2) := Try(c, e1, true);
      AttemptNext(c, e1, 2);
      if v2.Failed? {
        TryGoes(p, c, e2);
        AttemptNext(c, e2, 1);
      }
    }
    ThreeTries(e.tape);
  }

  lemma {:induction false} AttemptNext(c: Command, e: Env, left: nat)
    requires left > 0
    ensures var (e1, v) := Try(c, e, true);
            && Attempt(c, e, left) == (if v.Failed? then Attempt(c, e1, left - 1) else (e1, v))
            && (v.Failed? && left == 1 ==> Attempt(c, e, left) == (e1, Failed))
  {
  }

  lemma {:induction false} ThreeTries(tape: seq<Event>)
    ensures var second, third := Tail(tape), Tail(Tail(tape));
            AfterOne(tape) == (if Head(tape) == Go then Some(second)
                               else if Head(tape) == Crash then None
                               else if Head(second) == Go then Some(third)
                               else if Head(second) == Crash then None
                               else if Head(third) == Go then Some(Tail(third)) else None)
  {
  }

  lemma {:induction false} NeverRefused(c: Command)
    requires c.DeleteAddress? || c.MoveOut? || c.SetMtu? || c.SetLink? || c.DeleteNamespace?
    ensures Accepted(h => true, c)
  {
  }

  lemma {:induction false} PlainGoes(c: Command, e: Env)
    requires c.DeleteAddress? || c.MoveOut? || c.SetMtu? || c.SetLink? || c.DeleteNamespace?
    ensures GoesOnce(Attempt(c, e, ATTEMPTS), e.tape)
  {
    NeverRefused(c);
    AttemptGoes(h => true, c, e);
  }

  // ----- Passes

  lemma {:induction false} ConcatGoes(a: seq<Command>, b: seq<Command>, e: Env, m: nat, n: nat)
    requires GoesBy(RestorePass(a, e, true), e.tape, m)
    requires RestorePass(a, e, true).1.Fine? ==>
               var e1 := RestorePass(a, e, true).0; GoesBy(RestorePass(b, e1, true), e1.tape, n)
    ensures GoesBy(RestorePass(a + b, e, true), e.tape, m + n)
  {
    PassConcat(a, b, e, true);
    AfterSum(e.tape, m, n);
    var (e1, v) := RestorePass(a, e, true);
    if v.Failed? {
      FailedPassStaysFailed(b, e1);
    }
  }

  /** One command in front. */
  lemma {:induction false} ConsGoes(c: Command, rest: seq<Command>, e: Env, n: nat)
    requires !c.DeleteNamespace? && GoesOnce(Attempt(c, e, ATTEMPTS), e.tape)
    requires Attempt(c, e, ATTEMPTS).1.Fine? ==>
               var e1 := Attempt(c, e, ATTEMPTS).0; GoesBy(RestorePass(rest, e1, true), e1.tape, n)
    ensures GoesBy(RestorePass([c] + rest, e, true), e.tape, n + 1)
  {
    assert ([c] + rest)[1..] == rest;
    var (e1, v) := Attempt(c, e, ATTEMPTS);
    if v.Failed? {
      FailedPassStaysFailed(rest, e1);
    }
    assert AfterAll(e.tape, n + 1) == match AfterOne(e.tape) case None => None case Some(t) => AfterAll(t, n);
  }

  lemma {:induction false} DeletionsGo(list: seq<Command>, e: Env)
    requires forall i :: 0 <= i < |list| ==> list[i].DeleteAddress?
    ensures GoesBy(RestorePass(list, e, true), e.tape, |list|)
  {
    if list != [] {
      PlainGoes(list[0], e);
      DeletionsGo(list[1..], Attempt(list[0], e, ATTEMPTS).0);
      ConsGoes(list[0], list[1..], e, |list| - 1);
      assert [list[0]] + list[1..] == list;
    }
  }

  /** A feature that is not blocked stays so while its command is tried. */
  lemma {:induction false} FeatureGoes(b: Borrow, ethtool: bool, base: Link, c: Command, e: Env)
    requires Known(b, ethtool, base) && Held(b, ethtool, base, e.host)
    requires c.SetFeature? && Belongs(c, b, ethtool) && !Blocked(c, e.host.links[b.dev])
    ensures GoesOnce(Attempt(c, e, ATTEMPTS), e.tape)
  {
    var p := (h: Host) => b.dev in h.links && HeldBy(b, ethtool, base, h) && !Blocked(c, h.links[b.dev]);
    forall h: Host
      ensures AcceptedOn(p, c, h)
    {
      if p(h) {
        RunRestores(b, ethtool, base, c, h);
      }
    }
    AttemptGoes(p, c, e);
  }

  predicate HeldBy(b: Borrow, ethtool: bool, base: Link, h: Host)
    ensures HeldBy(b, ethtool, base, h) <==> Held(b, ethtool, base, h)
  {
    b.dev in h.links
    && var now := h.links[b.dev];
    && (now.place == Root || (now.place == Inside(b.ns) && b.ns in h.namespaces))
    && (now.place == Root ==> now.addresses == [])
    && Consistent(now.enabled)
    && (!ethtool ==> now.enabled == base.enabled)
  }

  lemma {:induction false} FeaturesGo(b: Borrow, ethtool: bool, base: Link, at: nat, e: Env)
    requires Known(b, ethtool, base) && Held(b, ethtool, base, e.host) && at <= 6
    requires e.host.links[b.dev].place == Root
    requires Recovered(b.saved, e.host.links[b.dev], RESTORE_ORDER[..at])
    ensures var list := Restores(b.dev, b.saved.offloads, RESTORE_ORDER[at..]);
            GoesBy(RestorePass(list, e, true), e.tape, |list|)
    decreases 6 - at
  {
    if at == 6 {
      assert RESTORE_ORDER[at..] == [];
    } else if RESTORE_ORDER[at] !in b.saved.offloads {
      assert RESTORE_ORDER[at..][1..] == RESTORE_ORDER[at + 1..];
      assert RESTORE_ORDER[..at + 1] == RESTORE_ORDER[..at] + [RESTORE_ORDER[at]];
      assert Restores(b.dev, b.saved.offloads, RESTORE_ORDER[at..])
          == Restores(b.dev, b.saved.offloads, RESTORE_ORDER[at + 1..]);
      FeaturesGo(b, ethtool, base, at + 1, e);
    } else {
      var c := SetFeature(b.dev, RESTORE_ORDER[at], b.saved.offloads[RESTORE_ORDER[at]]);
      FeatureGoesOn(b, ethtool, base, at, e, c);
      var (e1, v) := Attempt(c, e, ATTEMPTS);
      if v.Fine? {
        FeaturesGo(b, ethtool, base, at + 1, e1);
      }
      RestoresCons(b, at);
      ConsGoes(c, Restores(b.dev, b.saved.offloads, RESTORE_ORDER[at + 1..]), e,
               |Restores(b.dev, b.saved.offloads, RESTORE_ORDER[at + 1..])|);
    }
  }

  lemma {:induction false} RestoresCons(b: Borrow, at: nat)
    requires at < 6 && RESTORE_ORDER[at] in b.saved.offloads
    ensures Restores(b.dev, b.saved.offloads, RESTORE_ORDER[at..])
         == [SetFeature(b.dev, RESTORE_ORDER[at], b.saved.offloads[RESTORE_ORDER[at]])]
            + Restores(b.dev, b.saved.offloads, RESTORE_ORDER[at + 1..])
  {
    assert RESTORE_ORDER[at..][1..] == RESTORE_ORDER[at + 1..];
  }

  /** One feature, and what the next ones rely on. */
  lemma {:induction false} FeatureGoesOn(b: Borrow, ethtool: bool, base: Link, at: nat, e: Env, c: Command)
    requires Known(b, ethtool, base) && Held(b, ethtool, base, e.host) && at < 6
    requires e.host.links[b.dev].place == Root
    requires Recovered(b.saved, e.host.links[b.dev], RESTORE_ORDER[..at])
    requires RESTORE_ORDER[at] in b.saved.offloads
    requires c == SetFeature(b.dev, RESTORE_ORDER[at], b.saved.offloads[RESTORE_ORDER[at]])
    ensures GoesOnce(Attempt(c, e, ATTEMPTS), e.tape)
    ensures var (e1, v) := Attempt(c, e, ATTEMPTS);
            v.Fine? ==> Held(b, ethtool, base, e1.host) && e1.host.links[b.dev].place == Root
                        && Recovered(b.saved, e1.host.links[b.dev], RESTORE_ORDER[..at + 1])
  {
    ChecksumComesFirst(b, ethtool, base, at, e.host);
    FeatureGoes(b, ethtool, base, c, e);
    AttemptRestores(b, ethtool, base, c, e, ATTEMPTS);
    var (e1, v) := Attempt(c, e, ATTEMPTS);
    if v.Fine? {
      EarlierFeaturesStay(b.saved, at, e.host.links[b.dev], e1.host.links[b.dev]);
    }
  }

  lemma {:induction false} TailingGoes(b: Borrow, e: Env)
    requires b.saved.mtu.Some?
    ensures GoesBy(RestorePass(Tailing(b), e, true), e.tape, TAILING)
  {
    var mtu, up, ns := SetMtu(b.dev, b.saved.mtu.value), SetLink(b.dev, b.saved.linkUp), DeleteNamespace(b.ns);
    assert Tailing(b) == [mtu] + ([up] + [ns]);
    PlainGoes(mtu, e);
    LinkGoes(up, ns, Attempt(mtu, e, ATTEMPTS).0);
    ConsGoes(mtu, [up] + [ns], e, 1);
  }

  lemma {:induction false} LinkGoes(up: Command, ns: Command, e: Env)
    requires up.SetLink? && ns.DeleteNamespace?
    ensures GoesBy(RestorePass([up] + [ns], e, true), e.tape, 1)
  {
    PlainGoes(up, e);
    NamespaceIsSkipped(ns, Attempt(up, e, ATTEMPTS).0);
    ConsGoes(up, [ns], e, 0);
  }

  /** MTU and link state. */
  const TAILING: nat := 2

  lemma {:induction false} NamespaceIsSkipped(c: Command, e: Env)
    requires c.DeleteNamespace?
    ensures GoesBy(RestorePass([c], e, true), e.tape, 0)
  {
    assert [c][1..] == [];
    assert RestorePass([c], e, true) == RestorePass([], e, true);
  }

  /** The restorations of one interface. */
  function RestoringOne(b: Borrow): nat
  {
    |b.pool| + (|Restores(b.dev, b.saved.offloads, RESTORE_ORDER)| + TAILING + 1)
  }

  lemma {:induction false} UndoLength(b: Borrow)
    requires b.saved.mtu.Some?
    ensures |Undo(b)| == RestoringOne(b) + 1
  {
  }

  /** What follows the deletions. */
  function Homeward(b: Borrow): seq<Command>
  {
    [MoveOut(b.ns, b.dev)] + (Restores(b.dev, b.saved.offloads, RESTORE_ORDER) + Tailing(b))
  }

  lemma {:induction false} HomewardGoes(b: Borrow, ethtool: bool, base: Link, rest: seq<Command>)
    requires Known(b, ethtool, base) && base.place == Root && base.addresses == [] && rest == Homeward(b)
    ensures forall e1: Env {:trigger RestorePass(rest, e1, true)} ::
              Held(b, ethtool, base, e1.host) ==>
                GoesBy(RestorePass(rest, e1, true), e1.tape, RestoringOne(b) - |b.pool|)
  {
    forall e1: Env | Held(b, ethtool, base, e1.host)
      ensures GoesBy(RestorePass(rest, e1, true), e1.tape, RestoringOne(b) - |b.pool|)
    {
      HomeGoes(b, ethtool, base, e1);
    }
  }

  lemma {:induction false} UndoOneGoes(b: Borrow, ethtool: bool, base: Link, e: Env, deletions: seq<Command>,
                                       rest: seq<Command>)
    requires Known(b, ethtool, base) && Held(b, ethtool, base, e.host) && base.place == Root && base.addresses == []
    requires deletions == Deletions(b.ns, b.dev, b.pool) && rest == Homeward(b)
    ensures GoesBy(RestorePass(deletions + rest, e, true), e.tape, RestoringOne(b))
  {
    HomewardGoes(b, ethtool, base, rest);
    UndoPartsGo(b, ethtool, base, e, deletions, rest, |b.pool|, RestoringOne(b) - |b.pool|);
  }

  lemma {:induction false} UndoPartsGo(b: Borrow, ethtool: bool, base: Link, e: Env, deletions: seq<Command>,
                                       rest: seq<Command>, m: nat, n: nat)
    requires Known(b, ethtool, base) && Held(b, ethtool, base, e.host) && base.place == Root && base.addresses == []
    requires deletions == Deletions(b.ns, b.dev, b.pool) && m == |b.pool|
    requires forall e1: Env {:trigger RestorePass(rest, e1, true)} ::
               Held(b, ethtool, base, e1.host) ==> GoesBy(RestorePass(rest, e1, true), e1.tape, n)
    ensures GoesBy(RestorePass(deletions + rest, e, true), e.tape, m + n)
  {
    DeletionsGo(deletions, e);
    DeletionsHold(b, ethtool, base, e);
    ConcatGoes(deletions, rest, e, m, n);
  }

  lemma {:induction false} DeletionsHold(b: Borrow, ethtool: bool, base: Link, e: Env)
    requires Known(b, ethtool, base) && Held(b, ethtool, base, e.host)
    ensures Held(b, ethtool, base, RestorePass(Deletions(b.ns, b.dev, b.pool), e, true).0.host)
  {
    PassTouchesOne(b, ethtool, base, Deletions(b.ns, b.dev, b.pool), e, true);
  }

  /** From the move home on. */
  lemma {:induction false} HomeGoes(b: Borrow, ethtool: bool, base: Link, e: Env)
    requires Known(b, ethtool, base) && Held(b, ethtool, base, e.host) && base.place == Root && base.addresses == []
    ensures var features := Restores(b.dev, b.saved.offloads, RESTORE_ORDER);
            GoesBy(RestorePass([MoveOut(b.ns, b.dev)] + (features + Tailing(b)), e, true), e.tape,
                   |features| + TAILING + 1)
  {
    var out, features := MoveOut(b.ns, b.dev), Restores(b.dev, b.saved.offloads, RESTORE_ORDER);
    PlainGoes(out, e);
    AttemptRestores(b, ethtool, base, out, e, ATTEMPTS);
    var (e1, v1) := Attempt(out, e, ATTEMPTS);
    if v1.Fine? {
      RootGoes(b, ethtool, base, e1);
    }
    ConsGoes(out, features + Tailing(b), e, |features| + TAILING);
  }

  /** From the root namespace on. */
  lemma {:induction false} RootGoes(b: Borrow, ethtool: bool, base: Link, e: Env)
    requires Known(b, ethtool, base) && Held(b, ethtool, base, e.host) && e.host.links[b.dev].place == Root
    ensures var features := Restores(b.dev, b.saved.offloads, RESTORE_ORDER);
            GoesBy(RestorePass(features + Tailing(b), e, true), e.tape, |features| + TAILING)
  {
    var features := Restores(b.dev, b.saved.offloads, RESTORE_ORDER);
    assert RESTORE_ORDER[0..] == RESTORE_ORDER;
    FeaturesGo(b, ethtool, base, 0, e);
    TailingGoes(b, RestorePass(features, e, true).0);
    ConcatGoes(features, Tailing(b), e, |features|, TAILING);
  }

  // ----- The whole rollback

  function RestoringAll(borrows: seq<Borrow>): nat
  {
    if borrows == [] then 0 else RestoringOne(borrows[0]) + RestoringAll(borrows[1..])
  }

  lemma {:induction false} AllLengths(job: Job, base: Host, at: nat)
    requires Fits(job, base) && at <= |job.borrows|
    ensures |UndoAll(job.borrows[at..])| == RestoringAll(job.borrows[at..]) + (|job.borrows| - at)
    decreases |job.borrows| - at
  {
    if at < |job.borrows| {
      assert job.borrows[at..][1..] == job.borrows[at + 1..];
      assert FitsOne(job.borrows[at], job.ethtool, base);
      UndoLength(job.borrows[at]);
      AllLengths(job, base, at + 1);
    }
  }

  /** Lists of restorations, one after the other. */
  function Flat(lists: seq<seq<Command>>): seq<Command>
  {
    if lists == [] then [] else lists[0] + Flat(lists[1..])
  }

  function Sum(counts: seq<nat>): nat
  {
    if counts == [] then 0 else counts[0] + Sum(counts[1..])
  }

  /** Wherever `p` holds, the list goes by with so many commands, and `p` holds after it. */
  ghost predicate Steady(p: Host -> bool, list: seq<Command>, count: nat)
  {
    forall e: Env :: SteadyOn(p, list, count, e)
  }

  ghost predicate SteadyOn(p: Host -> bool, list: seq<Command>, count: nat, e: Env)
  {
    p(e.host) ==> GoesBy(RestorePass(list, e, true), e.tape, count) && p(RestorePass(list, e, true).0.host)
  }

  lemma {:induction false} FlatGoes(p: Host -> bool, lists: seq<seq<Command>>, counts: seq<nat>, e: Env)
    requires |lists| == |counts| && p(e.host)
    requires forall i :: 0 <= i < |lists| ==> Steady(p, lists[i], counts[i])
    ensures GoesBy(RestorePass(Flat(lists), e, true), e.tape, Sum(counts))
    decreases |lists|
  {
    if lists != [] {
      assert Steady(p, lists[0], counts[0]) && SteadyOn(p, lists[0], counts[0], e);
      FlatGoes(p, lists[1..], counts[1..], RestorePass(lists[0], e, true).0);
      ConcatGoes(lists[0], Flat(lists[1..]), e, counts[0], Sum(counts[1..]));
    }
  }

  lemma {:induction false} UndoIsFlat(borrows: seq<Borrow>)
    ensures Flat(seq(|borrows|, i requires 0 <= i < |borrows| => Undo(borrows[i]))) == UndoAll(borrows)
    ensures Sum(seq(|borrows|, i requires 0 <= i < |borrows| => RestoringOne(borrows[i]))) == RestoringAll(borrows)
  {
    if borrows != [] {
      var rest := borrows[1..];
      UndoIsFlat(rest);
      assert seq(|borrows|, i requires 0 <= i < |borrows| => Undo(borrows[i]))[1..]
          == seq(|rest|, i requires 0 <= i < |rest| => Undo(rest[i]));
      assert seq(|borrows|, i requires 0 <= i < |borrows| => RestoringOne(borrows[i]))[1..]
          == seq(|rest|, i requires 0 <= i < |rest| => RestoringOne(rest[i]));
    }
  }

  lemma {:induction false} RestorationGoes(job: Job, base: Host, e: Env)
    requires Fits(job, base) && Undoable(job, base, e.host)
    ensures GoesBy(RestorePass(UndoAll(job.borrows), e, true), e.tape, RestoringAll(job.borrows))
  {
    var n := |job.borrows|;
    var lists := seq(n, i requires 0 <= i < n => Undo(job.borrows[i]));
    var counts := seq(n, i requires 0 <= i < n => RestoringOne(job.borrows[i]));
    forall i | 0 <= i < n
      ensures Steady(h => Undoable(job, base, h), lists[i], counts[i])
    {
      UndoIsSteady(job, base, i);
    }
    FlatGoes(h => Undoable(job, base, h), lists, counts, e);
    UndoIsFlat(job.borrows);
  }

  lemma {:induction false} UndoIsSteady(job: Job, base: Host, at: nat)
    requires Fits(job, base) && at < |job.borrows|
    ensures Steady(h => Undoable(job, base, h), Undo(job.borrows[at]), RestoringOne(job.borrows[at]))
  {
    var p: Host -> bool := h => Undoable(job, base, h);
    var list, count := Undo(job.borrows[at]), RestoringOne(job.borrows[at]);
    forall e: Env
      ensures SteadyOn(p, list, count, e)
    {
      if Undoable(job, base, e.host) {
        FirstUndoGoes(job, base, at, e, list);
      }
    }
  }

  lemma {:induction false} FirstUndoGoes(job: Job, base: Host, at: nat, e: Env, undo: seq<Command>)
    requires Fits(job, base) && Undoable(job, base, e.host) && at < |job.borrows|
    requires undo == Undo(job.borrows[at])
    ensures GoesBy(RestorePass(undo, e, true), e.tape, RestoringOne(job.borrows[at]))
    ensures Undoable(job, base, RestorePass(undo, e, true).0.host)
  {
    var b := job.borrows[at];
    assert FitsOne(b, job.ethtool, base);
    UndoInParts(b);
    assert undo == Deletions(b.ns, b.dev, b.pool) + Homeward(b);
    UndoOneGoes(b, job.ethtool, base.links[b.dev], e, Deletions(b.ns, b.dev, b.pool), Homeward(b));
    UndoIsRestorations(b, job.ethtool);
    PassTouchesOne(b, job.ethtool, base.links[b.dev], undo, e, true);
    OneLinkKeepsUndoable(job, base, at, e.host, RestorePass(undo, e, true).0.host);
  }

  lemma {:induction false} CleanupGoes(borrows: seq<Borrow>, e: Env)
    ensures GoesBy(CleanupPass(UndoAll(borrows), e, true), e.tape, |borrows|)
  {
    if borrows != [] {
      var c := DeleteNamespace(borrows[0].ns);
      var (e1, v) := Attempt(c, e, ATTEMPTS);
      FirstCleanup(borrows, e);
      PlainGoes(c, e);
      CleanupGoes(borrows[1..], e1);
      OneMoreGoes(e.tape, (e1, v), CleanupPass(UndoAll(borrows[1..]), e1, true),
                  CleanupPass(UndoAll(borrows), e, true), |borrows| - 1);
    }
  }

  lemma {:induction false} FirstCleanup(borrows: seq<Borrow>, e: Env)
    requires borrows != []
    ensures var (e1, v) := Attempt(DeleteNamespace(borrows[0].ns), e, ATTEMPTS);
            var all := CleanupPass(UndoAll(borrows), e, true);
            if v.Fine? then all == CleanupPass(UndoAll(borrows[1..]), e1, true) else !all.1.Fine?
  {
    var b, rest := borrows[0], UndoAll(borrows[1..]);
    UndoEndsWithDelete(b);
    CleanupSkipsTo(Undo(b)[..|Undo(b)| - 1], b.ns, rest, e, true);
    var (e1, v) := Attempt(DeleteNamespace(b.ns), e, ATTEMPTS);
    if v.Failed? {
      CleanupStaysFailed(rest, e1);
    }
  }

  lemma {:induction false} OneMoreGoes(tape: seq<Event>, one: (Env, Verdict), rest: (Env, Verdict),
                                       all: (Env, Verdict), n: nat)
    requires GoesOnce(one, tape) && GoesBy(rest, one.0.tape, n)
    requires if one.1.Fine? then all == rest else !all.1.Fine?
    ensures GoesBy(all, tape, n + 1)
  {
    assert AfterAll(tape, n + 1) == match AfterOne(tape) case None => None case Some(t) => AfterAll(t, n);
  }

  lemma {:induction false} CleanupStaysFailed(list: seq<Command>, e: Env)
    ensures !CleanupPass(list, e, false).1.Fine?
  {
    if list != [] {
      if list[0].DeleteNamespace? {
        CleanupStaysFailed(list[1..], Attempt(list[0], e, ATTEMPTS).0);
      } else {
        CleanupStaysFailed(list[1..], e);
      }
    }
  }

  lemma {:induction false} PassesInTwo(undo: seq<Command>, e: Env, m: nat, n: nat)
    requires GoesBy(RestorePass(undo, e, true), e.tape, m)
    requires var e1 := RestorePass(undo, e, true).0; GoesBy(CleanupPass(undo, e1, true), e1.tape, n)
    ensures GoesBy(Passes(undo, e), e.tape, m + n)
  {
    AfterSum(e.tape, m, n);
  }

  lemma {:induction false} LengthsAdd(job: Job, base: Host)
    requires Fits(job, base)
    ensures |UndoAll(job.borrows)| == RestoringAll(job.borrows) + |job.borrows|
  {
    assert job.borrows[0..] == job.borrows;
    AllLengths(job, base, 0);
  }

  lemma {:induction false} PassesGo(job: Job, base: Host, e: Env)
    requires Fits(job, base) && Undoable(job, base, e.host)
    ensures GoesBy(Passes(UndoAll(job.borrows), e), e.tape, RestoringAll(job.borrows) + |job.borrows|)
  {
    RestorationGoes(job, base, e);
    CleanupGoes(job.borrows, RestorePass(UndoAll(job.borrows), e, true).0);
    PassesInTwo(UndoAll(job.borrows), e, RestoringAll(job.borrows), |job.borrows|);
  }

  lemma {:induction false} JournalGoes(n: Node, undo: seq<Command>, e: Env, v: Verdict)
    requires Passes(undo, Env(n.host, n.tape)) == (e, v)
    ensures var (n1, w) := RollbackNode(n, undo);
            && n1.host == e.host
            && (!v.Fine? ==> !w.Fine? && n1.journal == n.journal)
            && (v.Fine? ==>
                  && n1.tape == Tail(e.tape) && (w.Fine? <==> Head(e.tape) == Go)
                  && n1.journal == if Head(e.tape) == Go || Head(e.tape) == LateError then None else n.journal)
  {
  }

  /** A rollback succeeds exactly if each of its commands works within three tries, no process dies, and
      the removal of the journal is not disturbed; then the host is as before the job, the journal is gone,
      and just these events are used up. */
  lemma {:induction false} RollbackSucceedsIff(job: Job, base: Host, n: Node)
    requires Fits(job, base) && Undoable(job, base, n.host)
    ensures var (n1, v) := RollbackNode(n, UndoAll(job.borrows));
            match AfterAll(n.tape, |UndoAll(job.borrows)|)
            case None => !v.Fine? && n1.journal == n.journal
            case Some(rest) =>
              && n1.host == base && n1.tape == Tail(rest) && (v.Fine? <==> Head(rest) == Go)
              && n1.journal == if Head(rest) == Go || Head(rest) == LateError then None else n.journal
  {
    var (e, v) := Passes(UndoAll(job.borrows), Env(n.host, n.tape));
    LengthsAdd(job, base);
    PassesGo(job, base, Env(n.host, n.tape));
    RollbackRestores(job, base, Env(n.host, n.tape));
    JournalGoes(n, UndoAll(job.borrows), e, v);
  }

  // ----- Tapes without three failures in a row

  /** No process dies, and of three events in a row one is no failure. */
  predicate Patient(tape: seq<Event>)
  {
    && (forall i :: 0 <= i < |tape| ==> tape[i] != Crash)
    && (forall i {:trigger tape[i]} :: 0 <= i && i + 2 < |tape| ==>
          tape[i] == Go || tape[i + 1] == Go || tape[i + 2] == Go)
  }

  lemma {:induction false} PatientTail(tape: seq<Event>)
    requires Patient(tape)
    ensures Patient(Tail(tape)) && Head(tape) != Crash
  {
  }

  lemma {:induction false} PatientTapeSuffices(tape: seq<Event>, n: nat)
    requires Patient(tape)
    ensures AfterAll(tape, n).Some? && Patient(AfterAll(tape, n).value)
    decreases n
  {
    if n > 0 {
      PatientTail(tape);
      PatientTail(Tail(tape));
      PatientTail(Tail(Tail(tape)));
      assert AfterOne(tape).Some?;
      PatientTapeSuffices(AfterOne(tape).value, n - 1);
    }
  }

  lemma {:induction false} RetriesHelp(job: Job, base: Host, n: Node)
    requires Fits(job, base) && Undoable(job, base, n.host) && Patient(n.tape)
    ensures var (n1, v) := RollbackNode(n, UndoAll(job.borrows));
            var rest := AfterAll(n.tape, |UndoAll(job.borrows)|);
            && n1.host == base && (v.Fine? ==> n1.journal.None?)
            && rest.Some? && (v.Fine? <==> Head(rest.value) == Go)
  {
    PatientTapeSuffices(n.tape, |UndoAll(job.borrows)|);
    RollbackSucceedsIff(job, base, n);
  }
}
