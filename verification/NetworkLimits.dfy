/** Where the network agent's promises end: the exact condition under which a prepared operation is
    still configured, and what staging over a staged operation loses. */
module NetworkLimits {
  import opened Base
  import opened HostModel
  import opened NetworkPlan
  import opened NetworkOps
  import opened NetworkSafety
  import opened NetworkRuns
  import opened NetworkOutcome

  // ----- Rollbacks that fail after they have done some of their work

  /** The command deletes an address that is there, or moves the interface out. */
  predicate Hurts(c: Command, h: Host)
  {
    (c.DeleteAddress? || c.MoveOut?) && Run(c, h).Done?
  }

  /** One of the attempts at `c` takes effect, whatever it reports, and that effect hurts. */
  predicate AttemptHurts(c: Command, e: Env, left: nat)
    decreases left
  {
    left > 0
    && (((Head(e.tape).Go? || Head(e.tape).LateError?) && Hurts(c, e.host))
        || (Try(c, e, true).1.Failed? && AttemptHurts(c, Try(c, e, true).0, left - 1)))
  }

  /** The restoration pass takes an address from an interface or moves an interface home. */
  predicate PassHurts(undo: seq<Command>, e: Env)
  {
    undo != []
    && if undo[0].DeleteNamespace? then PassHurts(undo[1..], e)
       else
         var (e1, v) := Attempt(undo[0], e, ATTEMPTS);
         AttemptHurts(undo[0], e, ATTEMPTS) || (!v.Died? && PassHurts(undo[1..], e1))
  }

  /** Whether this input makes the agent roll back. */
  predicate RollsBack(w: World, i: Input)
  {
    && (w.alive || i.call.Start?) && w.journal.Some?
    && match i.call
       case Recover => true
       case Start => !w.journal.value.phase.Prepared?
       case Lease(operation) =>
         w.journal.value.operation == operation
         && (w.journal.value.phase.Applying? || w.journal.value.phase.Staged?)
       case _ => false
  }

  predicate InputHurts(w: World, i: Input)
  {
    RollsBack(w, i) && PassHurts(w.journal.value.undo, Env(w.host, i.tape))
  }

  /** Since the last stage, some rollback took an address or moved an interface home. */
  predicate HurtSinceStage(w: World, inputs: seq<Input>, before: bool)
    decreases |inputs|
  {
    if inputs == [] then before
    else HurtSinceStage(Perform(w, inputs[0]), inputs[1..],
                        !Begins(w, inputs[0].call) && (before || InputHurts(w, inputs[0])))
  }

  /** Some borrowed interface is at home again or has lost an address. */
  ghost predicate Damaged(borrows: seq<Borrow>, h: Host)
  {
    exists i :: 0 <= i < |borrows| && LinkDamaged(borrows[i], h)
  }

  predicate LinkDamaged(b: Borrow, h: Host)
  {
    b.dev in h.links && (h.links[b.dev].place == Root || |h.links[b.dev].addresses| < |b.pool|)
  }

  /** `h` is exactly as a successful stage leaves its borrowed interfaces. */
  ghost predicate Filled(borrows: seq<Borrow>, h: Host)
  {
    forall i :: 0 <= i < |borrows| ==> LinkFilled(borrows[i], h)
  }

  predicate LinkFilled(b: Borrow, h: Host)
  {
    b.dev in h.links && h.links[b.dev].place == Inside(b.ns) && h.links[b.dev].addresses == b.pool
  }

  lemma ConfiguredIsFilled(job: Job, base: Host, h: Host)
    requires AllConfigured(job, base, h)
    ensures Filled(job.borrows, h) && !Damaged(job.borrows, h)
  {
  }

  // ----- One command of a rollback

  lemma {:induction false} WithoutShrinks(list: seq<Address>, a: Address)
    ensures |Without(list, a)| <= |list| && (a in list ==> |Without(list, a)| < |list|)
  {
    if list != [] {
      WithoutShrinks(list[1..], a);
    }
  }

  lemma {:induction false} WithoutSubnetShrinks(list: seq<Address>, a: Address)
    ensures |WithoutSubnet(list, a)| <= |list|
  {
    if list != [] {
      WithoutSubnetShrinks(list[1..], a);
    }
  }

  lemma {:induction false} ForgetShrinks(list: seq<Address>, a: Address)
    ensures |Forget(list, a)| <= |list| && (a in list ==> |Forget(list, a)| < |list|)
  {
    if list != [] {
      WithoutShrinks(list, a);
      WithoutSubnetShrinks(list[1..], a);
      if list[0] == a {
        assert WithoutSubnet(list, a) == WithoutSubnet(list[1..], a);
      } else if !SameSubnet(list[0], a) {
        ForgetShrinks(list[1..], a);
      }
    }
  }

  /** A restoration command leaves damage damaged. */
  lemma RestorationKeepsDamage(c: Command, b: Borrow, h: Host)
    requires Restoration(c) && LinkDamaged(b, h)
    ensures LinkDamaged(b, After(c, h))
  {
    if c.DeleteAddress? && c.dev in h.links {
      ForgetShrinks(h.links[c.dev].addresses, c.address);
    }
  }

  /** On a configured interface a restoration of that interface hurts or does nothing. */
  lemma RestorationHurtsOrNothing(c: Command, b: Borrow, ethtool: bool, h: Host)
    requires Restoration(c) && Belongs(c, b, ethtool) && LinkFilled(b, h)
    ensures if Hurts(c, h) then LinkDamaged(b, After(c, h)) else After(c, h) == h
  {
    if c.DeleteAddress? {
      ForgetShrinks(h.links[c.dev].addresses, c.address);
    }
  }

  // ----- A whole rollback

  /** Every command of the list restores a borrowed interface or deletes a namespace. */
  ghost predicate Restorations(list: seq<Command>, borrows: seq<Borrow>, ethtool: bool)
  {
    forall i :: 0 <= i < |list| ==> list[i].DeleteNamespace? || OneRestoration(list[i], borrows, ethtool)
  }

  ghost predicate OneRestoration(c: Command, borrows: seq<Borrow>, ethtool: bool)
  {
    Restoration(c) && exists k :: 0 <= k < |borrows| && Belongs(c, borrows[k], ethtool)
  }

  lemma {:induction false} UndoAllRestores(job: Job, at: nat)
    requires at <= |job.borrows|
    ensures Restorations(UndoAll(job.borrows[at..]), job.borrows, job.ethtool)
    decreases |job.borrows| - at
  {
    if at < |job.borrows| {
      assert job.borrows[at..][1..] == job.borrows[at + 1..];
      var here := Undo(job.borrows[at]);
      UndoIsRestorations(job.borrows[at], job.ethtool);
      UndoAllRestores(job, at + 1);
      forall i | 0 <= i < |here|
        ensures here[i].DeleteNamespace? || OneRestoration(here[i], job.borrows, job.ethtool)
      {
        assert Belongs(here[i], job.borrows[at], job.ethtool);
      }
    }
  }

  /** Either nothing has happened to the configured host, or it is damaged. */
  ghost predicate Marked(borrows: seq<Borrow>, before: Host, after: Host, hurt: bool)
  {
    if hurt then Damaged(borrows, after) else after == before
  }

  lemma {:induction false} AttemptKeepsDamage(c: Command, b: Borrow, e: Env, left: nat)
    requires Restoration(c) && LinkDamaged(b, e.host)
    ensures LinkDamaged(b, Attempt(c, e, left).0.host)
    decreases left
  {
    if left > 0 {
      RestorationKeepsDamage(c, b, e.host);
      var (e1, v) := Try(c, e, true);
      if v.Failed? {
        AttemptKeepsDamage(c, b, e1, left - 1);
      }
    }
  }

  lemma {:induction false} AttemptMarks(c: Command, b: Borrow, ethtool: bool, e: Env, left: nat)
    requires Restoration(c) && Belongs(c, b, ethtool) && LinkFilled(b, e.host)
    ensures var h := Attempt(c, e, left).0.host;
            if AttemptHurts(c, e, left) then LinkDamaged(b, h) else h == e.host
    decreases left
  {
    if left > 0 {
      RestorationHurtsOrNothing(c, b, ethtool, e.host);
      var (e1, v) := Try(c, e, true);
      if v.Failed? {
        if e1.host == e.host && !((Head(e.tape).Go? || Head(e.tape).LateError?) && Hurts(c, e.host)) {
          AttemptMarks(c, b, ethtool, e1, left - 1);
        } else {
          AttemptKeepsDamage(c, b, e1, left - 1);
        }
      }
    }
  }

  lemma {:induction false} PassKeepsDamage(list: seq<Command>, borrows: seq<Borrow>, ethtool: bool, e: Env, ok: bool)
    requires Restorations(list, borrows, ethtool) && Damaged(borrows, e.host)
    ensures Damaged(borrows, RestorePass(list, e, ok).0.host)
  {
    if list != [] {
      if list[0].DeleteNamespace? {
        PassKeepsDamage(list[1..], borrows, ethtool, e, ok);
      } else {
        var i :| 0 <= i < |borrows| && LinkDamaged(borrows[i], e.host);
        AttemptKeepsDamage(list[0], borrows[i], e, ATTEMPTS);
        var (e1, v) := Attempt(list[0], e, ATTEMPTS);
        assert Damaged(borrows, e1.host);
        if !v.Died? {
          PassKeepsDamage(list[1..], borrows, ethtool, e1, ok && v.Fine?);
        }
      }
    }
  }

  lemma {:induction false} PassMarks(list: seq<Command>, borrows: seq<Borrow>, ethtool: bool, e: Env, ok: bool)
    requires Restorations(list, borrows, ethtool) && Filled(borrows, e.host)
    ensures Marked(borrows, e.host, RestorePass(list, e, ok).0.host, PassHurts(list, e))
  {
    if list != [] {
      if list[0].DeleteNamespace? {
        PassMarks(list[1..], borrows, ethtool, e, ok);
      } else {
        assert OneRestoration(list[0], borrows, ethtool);
        var k :| 0 <= k < |borrows| && Belongs(list[0], borrows[k], ethtool);
        AttemptMarks(list[0], borrows[k], ethtool, e, ATTEMPTS);
        var (e1, v) := Attempt(list[0], e, ATTEMPTS);
        if !v.Died? {
          if AttemptHurts(list[0], e, ATTEMPTS) {
            assert Damaged(borrows, e1.host);
            PassKeepsDamage(list[1..], borrows, ethtool, e1, ok && v.Fine?);
          } else {
            PassMarks(list[1..], borrows, ethtool, e1, ok && v.Fine?);
          }
        }
      }
    }
  }

  /** A restoration pass that succeeds has moved every interface home, and there they stay. */
  lemma CleanupKeepsHome(job: Job, base: Host, e: Env)
    requires Fits(job, base) && Undoable(job, base, e.host)
    requires RestorePass(UndoAll(job.borrows), e, true).1.Fine?
    ensures Passes(UndoAll(job.borrows), e).0.host.links == base.links
    ensures RestorePass(UndoAll(job.borrows), e, true).0.host.links == base.links
  {
    assert job.borrows[0..] == job.borrows;
    PassRestoresAll(job, base, 0, e);
    CleanupRestoresAll(job, base, 0, RestorePass(UndoAll(job.borrows), e, true).0, true);
  }

  lemma HomeIsDamaged(job: Job, base: Host, h: Host)
    requires Fits(job, base) && h.links == base.links && job.borrows != []
    ensures Damaged(job.borrows, h) && !Filled(job.borrows, h)
  {
    assert FitsOne(job.borrows[0], job.ethtool, base);
    assert LinkDamaged(job.borrows[0], h);
  }

  lemma RollbackMarks(job: Job, base: Host, e: Env)
    requires Fits(job, base) && Undoable(job, base, e.host) && Filled(job.borrows, e.host)
    ensures Marked(job.borrows, e.host, Passes(UndoAll(job.borrows), e).0.host, PassHurts(UndoAll(job.borrows), e))
  {
    var undo := UndoAll(job.borrows);
    assert job.borrows[0..] == job.borrows;
    UndoAllRestores(job, 0);
    PassMarks(undo, job.borrows, job.ethtool, e, true);
    if job.borrows != [] && RestorePass(undo, e, true).1.Fine? {
      CleanupKeepsHome(job, base, e);
      HomeIsDamaged(job, base, RestorePass(undo, e, true).0.host);
      HomeIsDamaged(job, base, Passes(undo, e).0.host);
    }
  }

  lemma RollbackKeepsDamage(job: Job, base: Host, e: Env)
    requires Fits(job, base) && Undoable(job, base, e.host) && Damaged(job.borrows, e.host)
    ensures Damaged(job.borrows, Passes(UndoAll(job.borrows), e).0.host)
  {
    var undo := UndoAll(job.borrows);
    assert job.borrows[0..] == job.borrows;
    UndoAllRestores(job, 0);
    PassKeepsDamage(undo, job.borrows, job.ethtool, e, true);
    if RestorePass(undo, e, true).1.Fine? {
      CleanupKeepsHome(job, base, e);
      HomeIsDamaged(job, base, Passes(undo, e).0.host);
    }
  }

  // ----- Prepared and configured

  predicate Past(journal: Option<Journal>)
  {
    journal.Some? && (journal.value.phase.Staged? || journal.value.phase.Prepared?)
  }

  /** What is known of a staged or prepared operation. */
  ghost predicate Charted(w: World, hurt: bool)
  {
    Safe(w) && (Past(w.journal) ==>
                  if hurt then Damaged(w.job.borrows, w.host) else AllConfigured(w.job, w.origin, w.host))
  }

  lemma RollbackShape(w: World, i: Input)
    requires w.alive || i.call.Start?
    ensures var w1 := Perform(w, i);
            && (RollsBack(w, i) ==>
                  && w1.host == Passes(w.journal.value.undo, Env(w.host, i.tape)).0.host
                  && (w1.journal.None? || w1.journal == w.journal))
            && (!RollsBack(w, i) && !i.call.Stage? ==>
                  w1.host == w.host && (w1.journal == w.journal || (i.call.Commit? && Past(w.journal))))
  {
  }

  lemma RollbackKeepsCharted(w: World, i: Input, hurt: bool)
    requires Charted(w, hurt) && RollsBack(w, i)
    ensures Charted(Perform(w, i), hurt || InputHurts(w, i))
  {
    var w1 := Perform(w, i);
    StepKeepsSafe(w, i);
    RollbackShape(w, i);
    if Past(w1.journal) {
      if hurt {
        RollbackKeepsDamage(w.job, w.origin, Env(w.host, i.tape));
      } else {
        ConfiguredIsFilled(w.job, w.origin, w.host);
        RollbackMarks(w.job, w.origin, Env(w.host, i.tape));
      }
    }
  }

  lemma StepKeepsCharted(w: World, i: Input, hurt: bool)
    requires Charted(w, hurt) && Clear(w, i)
    ensures Charted(Perform(w, i), !Begins(w, i.call) && (hurt || InputHurts(w, i)))
  {
    StepKeepsSafe(w, i);
    if Begins(w, i.call) {
      StageStepIsSound(w, i);
    } else if RollsBack(w, i) {
      RollbackKeepsCharted(w, i, hurt);
    } else if w.alive || i.call.Start? {
      RollbackShape(w, i);
    }
  }

  lemma {:induction false} RunKeepsCharted(w: World, inputs: seq<Input>, hurt: bool)
    requires Charted(w, hurt) && AllClear(w, inputs)
    ensures Charted(PerformAll(w, inputs), HurtSinceStage(w, inputs, hurt))
    decreases |inputs|
  {
    if inputs != [] {
      var i := inputs[0];
      StepKeepsCharted(w, i, hurt);
      RunKeepsCharted(Perform(w, i), inputs[1..], !Begins(w, i.call) && (hurt || InputHurts(w, i)));
    }
  }

  /** Over every run with clear stages, whatever fails: a staged or prepared operation is configured
      exactly as planned if and only if no rollback since its stage has deleted an address that was
      there or moved an interface home. */
  lemma PreparedConfiguredIff(w: World, inputs: seq<Input>)
    requires Sound(w) && AllClear(w, inputs)
    ensures var w1 := PerformAll(w, inputs);
            Past(w1.journal) ==> (AllConfigured(w1.job, w1.origin, w1.host) <==> !HurtSinceStage(w, inputs, false))
  {
    RunKeepsCharted(w, inputs, false);
    var w1 := PerformAll(w, inputs);
    if Past(w1.journal) && AllConfigured(w1.job, w1.origin, w1.host) {
      ConfiguredIsFilled(w1.job, w1.origin, w1.host);
    }
  }

  // ----- A prepared operation that is not configured

  lemma {:induction false} QuietPassLives(list: seq<Command>, h: Host, ok: bool)
    ensures !RestorePass(list, Env(h, []), ok).1.Died?
  {
    if list != [] {
      if list[0].DeleteNamespace? {
        QuietPassLives(list[1..], h, ok);
      } else {
        QuietAttemptLives(list[0], h, ATTEMPTS);
        var (e1, v) := Attempt(list[0], Env(h, []), ATTEMPTS);
        QuietPassLives(list[1..], e1.host, ok && v.Fine?);
      }
    }
  }

  lemma {:induction false} QuietAttemptLives(c: Command, h: Host, left: nat)
    ensures var (e1, v) := Attempt(c, Env(h, []), left); e1.tape == [] && !v.Died?
    decreases left
  {
    if left > 0 {
      QuietAttemptLives(c, After(c, h), left - 1);
    }
  }

  /** The deletion happens, its success is not seen, and the two other attempts fail. */
  const UNSEEN := [LateError, Error, Error]

  lemma UnseenAttempt(c: Command, h: Host)
    ensures Attempt(c, Env(h, UNSEEN), ATTEMPTS) == (Env(After(c, h), []), Failed)
    ensures Hurts(c, h) ==> AttemptHurts(c, Env(h, UNSEEN), ATTEMPTS)
  {
    var h1 := After(c, h);
    assert UNSEEN[1..] == [Error, Error] && [Error, Error][1..] == [Error] && [Error][1..] == [];
    assert Attempt(c, Env(h1, []), 0) == (Env(h1, []), Failed);
    assert Attempt(c, Env(h1, [Error]), 1) == (Env(h1, []), Failed);
    assert Attempt(c, Env(h1, [Error, Error]), 2) == (Env(h1, []), Failed);
  }

  /** A rollback whose first command is not seen to succeed fails, and the journal stays. */
  lemma UnseenRollbackFails(h: Host, journal: Option<Journal>, undo: seq<Command>)
    requires undo != [] && !undo[0].DeleteNamespace? && Hurts(undo[0], h)
    ensures var (n1, v) := RollbackNode(Node(h, journal, UNSEEN), undo); v.Failed? && n1.journal == journal
    ensures PassHurts(undo, Env(h, UNSEEN))
  {
    UnseenAttempt(undo[0], h);
    var h1 := After(undo[0], h);
    QuietPassLives(undo[1..], h1, false);
    FailedPassStaysFailed(undo[1..], Env(h1, []));
  }

  lemma FirstUndoHurts(job: Job, base: Host, h: Host)
    requires job.borrows != [] && job.borrows[0].pool != [] && AllConfigured(job, base, h)
    ensures var undo := UndoAll(job.borrows); undo != [] && undo[0].DeleteAddress? && Hurts(undo[0], h)
  {
    var b := job.borrows[0];
    assert Undo(b)[0] == DeleteAddress(b.ns, b.dev, b.pool[|b.pool| - 1]);
    assert UndoAll(job.borrows)[0] == Undo(b)[0];
  }

  /** The shortest of these runs: a stage, a lease whose rollback fails, a commit. */
  function LateCommit(operation: string, job: Job, h: Host): seq<Input>
  {
    [Input(Stage(operation, Visible(h), job), []), Input(Lease(operation), UNSEEN), Input(Commit, [])]
  }

  lemma FirstInput(w: World, i: Input, rest: seq<Input>, before: bool)
    ensures PerformAll(w, [i] + rest) == PerformAll(Perform(w, i), rest)
    ensures AllClear(w, [i] + rest) <==> Clear(w, i) && AllClear(Perform(w, i), rest)
    ensures HurtSinceStage(w, [i] + rest, before)
         == HurtSinceStage(Perform(w, i), rest, !Begins(w, i.call) && (before || InputHurts(w, i)))
  {
    assert ([i] + rest)[1..] == rest;
  }

  lemma RunOfThree(w: World, a: Input, b: Input, c: Input)
    requires Clear(w, a) && !b.call.Stage? && !c.call.Stage?
    ensures PerformAll(w, [a, b, c]) == Perform(Perform(Perform(w, a), b), c)
    ensures AllClear(w, [a, b, c])
    ensures InputHurts(Perform(w, a), b) ==> HurtSinceStage(w, [a, b, c], false)
  {
    var w1 := Perform(w, a);
    var w2 := Perform(w1, b);
    var hurt := !Begins(w, a.call) && InputHurts(w, a);
    var hurt1 := hurt || InputHurts(w1, b);
    assert [a, b, c] == [a] + ([b] + ([c] + []));
    FirstInput(w, a, [b] + ([c] + []), false);
    FirstInput(w1, b, [c] + [], hurt);
    FirstInput(w2, c, [], hurt1);
  }

  lemma LeaseThenCommit(w: World, operation: string)
    requires w.alive && w.journal.Some? && w.journal.value.operation == operation && w.journal.value.phase.Staged?
    requires var undo := w.journal.value.undo; undo != [] && undo[0].DeleteAddress? && Hurts(undo[0], w.host)
    ensures InputHurts(w, Input(Lease(operation), UNSEEN))
    ensures var w1 := Perform(w, Input(Lease(operation), UNSEEN));
            Perform(w1, Input(Commit, [])).journal == Some(w.journal.value.(phase := Prepared))
  {
    UnseenRollbackFails(w.host, w.journal, w.journal.value.undo);
  }

  /** Every planned operation that gives an interface an address can end up prepared without being
      configured: a failed rollback leaves the journal staged, and the commit is accepted. */
  lemma PreparedButNotConfigured(w: World, operation: string, job: Job)
    requires w.alive && w.journal.None? && w.host == w.origin && Fits(job, w.host)
    requires PoolsDiffer(job.borrows) && job.borrows != [] && job.borrows[0].pool != []
    ensures var inputs := LateCommit(operation, job, w.host);
            var w1 := PerformAll(w, inputs);
            && AllClear(w, inputs) && HurtSinceStage(w, inputs, false)
            && w1.journal.Some? && w1.journal.value.phase.Prepared?
            && !AllConfigured(w1.job, w1.origin, w1.host)
  {
    var inputs := LateCommit(operation, job, w.host);
    StagedWorld(w, operation, job);
    var w1 := Perform(w, inputs[0]);
    FirstUndoHurts(job, w.host, w1.host);
    LeaseThenCommit(w1, operation);
    RunOfThree(w, inputs[0], inputs[1], inputs[2]);
    PreparedConfiguredIff(w, inputs);
  }

  // ----- Two operations on one node

  ghost predicate Disjoint(a: Job, b: Job)
  {
    forall i, k :: 0 <= i < |a.borrows| && 0 <= k < |b.borrows| ==>
      a.borrows[i].dev != b.borrows[k].dev && a.borrows[i].ns != b.borrows[k].ns
  }

  /** A plan for other interfaces and other namespaces still fits the configured host. */
  lemma OtherJobStillFits(a: Job, b: Job, base: Host, h: Host)
    requires Fits(a, base) && Fits(b, base) && Disjoint(a, b)
    requires AllConfigured(a, base, h) && Undoable(a, base, h)
    ensures Fits(b, h)
  {
    forall d | d in h.links
      ensures Consistent(h.links[d].enabled) && (h.links[d].place.Inside? ==> h.links[d].place.ns in h.namespaces)
    {
      if Borrows(a, d) {
        var i :| 0 <= i < |a.borrows| && a.borrows[i].dev == d;
        assert Bounded(a.borrows[i], a.ethtool, base.links[d], h.links[d], h.namespaces);
      }
    }
    forall k | 0 <= k < |b.borrows|
      ensures FitsOne(b.borrows[k], b.ethtool, h)
    {
      assert FitsOne(b.borrows[k], b.ethtool, base);
      assert !Borrows(a, b.borrows[k].dev) && !Names(a, b.borrows[k].ns);
    }
  }

  /** Staging a second plan while a first one is staged is not refused, and it takes away every way
      back to the host before the first: no run without another stage recovers it. */
  lemma SecondStageLosesOrigin(w: World, first: string, a: Job, second: string, b: Job)
    requires w.alive && w.journal.None? && w.host == w.origin
    requires Fits(a, w.host) && Fits(b, w.host) && Disjoint(a, b) && PoolsDiffer(a.borrows) && a.borrows != []
    ensures var w1 := Perform(w, Input(Stage(first, Visible(w.host), a), []));
            var w2 := Perform(w1, Input(Stage(second, Visible(w1.host), b), []));
            && w1.journal.Some? && w1.journal.value.phase.Staged?
            && CanReturnTo(w1, w.host) && !CanReturnTo(w2, w.host)
  {
    var w1 := Perform(w, Input(Stage(first, Visible(w.host), a), []));
    StagedWorld(w, first, a);
    OtherJobStillFits(a, b, w.host, w1.host);
    SafeRecovers(w1);
    assert Unstaged([]) && RecoveredHost(PerformAll(w1, [])) == w.host;
    StagingKeepsOriginIff(w1, Input(Stage(second, Visible(w1.host), b), []));
  }

  lemma StagedWorld(w: World, operation: string, job: Job)
    requires w.alive && w.journal.None? && w.host == w.origin && Fits(job, w.host) && PoolsDiffer(job.borrows)
    ensures var w1 := Perform(w, Input(Stage(operation, Visible(w.host), job), []));
            && w1.alive && w1.origin == w.host && w1.job == job && Safe(w1)
            && w1.journal == Some(Journal(operation, Staged, UndoAll(job.borrows), |Commands(job)|))
            && AllConfigured(job, w.host, w1.host) && Undoable(job, w.host, w1.host)
            && (job.borrows != [] ==> w1.host != w.host)
  {
    UndisturbedStageIff(job, w.host, None, operation);
    StepKeepsSafe(w, Input(Stage(operation, Visible(w.host), job), []));
    if job.borrows != [] {
      assert FitsOne(job.borrows[0], job.ethtool, w.host);
    }
  }

  // ----- A host on which all this happens

  const SPARE := Link(Root, [], 1500, false, {})

  function SpareHost(): Host
  {
    Host({}, map["eth1" := SPARE, "eth2" := SPARE])
  }

  /** One interface with a pool of one address. */
  function OneAddress(dev: string, ns: string): Job
  {
    Job([Borrow(dev, ns, ExpandPool(Address(0x0A00_0001, 24), 1),
                Interface(dev, None, Some(1500), None, [], false, map[]))],
        1370, false, false)
  }

  /** The hypotheses of the two losses are met by an ordinary host. */
  lemma LossesAreReal()
    ensures var h, a, b := SpareHost(), OneAddress("eth1", "pt-1-client"), OneAddress("eth2", "pt-1-server");
            && Fits(a, h) && Fits(b, h) && Disjoint(a, b)
            && PoolsDiffer(a.borrows) && a.borrows[0].pool != []
  {
  }
}
