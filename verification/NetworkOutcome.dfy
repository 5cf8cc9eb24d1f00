/** What a staged and a prepared operation mean for the host, and which plans the recovery
    theorems apply to. */
module NetworkOutcome {
  import opened Base
  import opened HostModel
  import opened NetworkPlan
  import opened NetworkOps
  import opened NetworkSafety
  import opened NetworkRuns

  // ----- Accepted plans

  /** The inventory describes the host, and records the MTU and every offload a plan changes. */
  ghost predicate Accurate(inv: Inventory, h: Host)
  {
    && WellFormed(h)
    && forall k :: 0 <= k < |inv.interfaces| ==>
         var i := inv.interfaces[k];
         IsRoot(h, i.name) && Describes(i, h.links[i.name], inv.ethtool)
  }

  lemma RoleNamesDiffer(revision: string)
    ensures NamespaceName(revision, "client") != NamespaceName(revision, "server")
  {
    var c, s := NamespaceName(revision, "client"), NamespaceName(revision, "server");
    assert c[|c| - 1] == 't' && s[|s| - 1] == 'r';
  }

  lemma TakenFits(node: string, revision: string, role: string, e: Endpoint, draft: Draft, inv: Inventory, h: Host)
    requires Accurate(inv, h) && NamespaceName(revision, role) !in h.namespaces
    ensures var d := Decide(node, revision, role, e, draft, inv);
            d.Take? ==> FitsOne(d.borrow, inv.ethtool, h)
                        && d.borrow.ns == NamespaceName(revision, role)
                        && d.borrow.dev == e.interfaceName && e.node == node
  {
    var d := Decide(node, revision, role, e, draft, inv);
    if d.Take? {
      var k :| 0 <= k < |inv.interfaces| && inv.interfaces[k] == d.borrow.saved;
    }
  }

  /** Every accepted plan of a validated profile fits the host it was planned on, provided that the
      two namespace names are unused. */
  lemma AcceptedPlanFits(node: string, revision: string, draft: Draft, inv: Inventory, h: Host)
    requires Accurate(inv, h)
    requires draft.client.node == draft.server.node ==> draft.client.interfaceName != draft.server.interfaceName
    requires NamespaceName(revision, "client") !in h.namespaces && NamespaceName(revision, "server") !in h.namespaces
    requires PlanOf(node, revision, draft, inv).Accepted?
    ensures var job := JobOf(node, revision, draft, inv);
            var plan := PlanOf(node, revision, draft, inv).value;
            Fits(job, h) && plan.commands == Commands(job) && plan.undo == UndoAll(job.borrows)
  {
    RoleNamesDiffer(revision);
    TakenFits(node, revision, "client", draft.client, draft, inv, h);
    TakenFits(node, revision, "server", draft.server, draft, inv, h);
    var client := Decide(node, revision, "client", draft.client, draft, inv);
    var server := Decide(node, revision, "server", draft.server, draft, inv);
    PairFits(client, server, Job(BorrowOf(client) + BorrowOf(server), draft.mtu, inv.arping, inv.ethtool), h);
  }

  lemma PairFits(client: Decision, server: Decision, job: Job, h: Host)
    requires WellFormed(h) && job.borrows == BorrowOf(client) + BorrowOf(server)
    requires client.Take? ==> FitsOne(client.borrow, job.ethtool, h)
    requires server.Take? ==> FitsOne(server.borrow, job.ethtool, h)
    requires client.Take? && server.Take? ==>
               client.borrow.dev != server.borrow.dev && client.borrow.ns != server.borrow.ns
    ensures Fits(job, h)
  {
  }

  // ----- The configured host

  function ExecuteAll(commands: seq<Command>, h: Host): Option<Host>
  {
    if commands == [] then Some(h)
    else
      match Run(commands[0], h)
      case Done(h') => ExecuteAll(commands[1..], h')
      case _ => None
  }

  lemma {:induction false} ExecuteConcat(a: seq<Command>, b: seq<Command>, h: Host)
    ensures ExecuteAll(a + b, h)
         == match ExecuteAll(a, h) case Some(h') => ExecuteAll(b, h') case None => None
  {
    if a == [] {
      assert a + b == b;
    } else {
      assert (a + b)[1..] == a[1..] + b;
      match Run(a[0], h)
      case Done(h') => ExecuteConcat(a[1..], b, h');
      case _ =>
    }
  }

  /** A successful application executed every command of the plan. */
  lemma {:induction false} FineMeansExecuted(n: Node, j: Journal, commands: seq<Command>)
    requires j.completed <= |commands|
    ensures var (n1, v) := ApplyFrom(n, j, commands);
            v.Fine? ==> ExecuteAll(commands[j.completed..], n.host) == Some(n1.host)
    decreases |commands| - j.completed
  {
    if j.completed == |commands| {
      assert commands[j.completed..] == [];
    } else {
      assert commands[j.completed..][1..] == commands[j.completed + 1..];
      var (e, v) := Try(commands[j.completed], Env(n.host, n.tape), false);
      if v.Fine? {
        var j1 := j.(completed := j.completed + 1);
        var (n2, w) := WriteJournal(Node(e.host, n.journal, e.tape), Some(j1));
        if w.Fine? {
          FineMeansExecuted(n2, j1, commands);
        }
      }
    }
  }

  ghost predicate NoRepeats(pool: seq<Address>)
  {
    forall i, j :: 0 <= i < j < |pool| ==> pool[i] != pool[j]
  }

  /** No interface is given one address twice. */
  ghost predicate PoolsDiffer(borrows: seq<Borrow>)
  {
    forall i :: 0 <= i < |borrows| ==> NoRepeats(borrows[i].pool)
  }

  lemma {:induction false} SumsDiffer(x: nat, i: nat, j: nat)
    requires i < j < ADDRESS_SPACE
    ensures (x + i) % ADDRESS_SPACE != (x + j) % ADDRESS_SPACE
  {
    var low, high := (x + i) / ADDRESS_SPACE, (x + j) / ADDRESS_SPACE;
    assert high == low || high == low + 1;
    assert (x + j) % ADDRESS_SPACE == (x + i) % ADDRESS_SPACE + (j - i) - (high - low) * ADDRESS_SPACE;
  }

  /** The addresses of a planned pool differ: a pool wraps around, but never as far as its start. */
  lemma {:induction false} PlannedPoolDiffers(start: Address, count: nat)
    requires count <= ADDRESS_SPACE
    ensures NoRepeats(ExpandPool(start, count))
  {
    var pool := ExpandPool(start, count);
    forall i, j | 0 <= i < j < |pool|
      ensures pool[i] != pool[j]
    {
      SumsDiffer(start.ip, i, j);
      assert pool[i].ip == (start.ip + i) % ADDRESS_SPACE && pool[j].ip == (start.ip + j) % ADDRESS_SPACE;
    }
  }

  /** The interface is in its namespace, up, with exactly the pool, the MTU and, where ethtool is
      available, no offload left. */
  ghost predicate Configured(b: Borrow, job: Job, base: Link, now: Link)
  {
    now == Link(Inside(b.ns), b.pool, job.mtu, true, if job.ethtool then {} else base.enabled)
  }

  lemma {:induction false} ProbesChangeNothing(dev: string, pool: seq<Address>, at: nat, h: Host)
    requires at <= |pool| && IsRoot(h, dev)
    ensures ExecuteAll(Probes(dev, pool)[at..], h) == Some(h)
    decreases |pool| - at
  {
    if at < |pool| {
      assert Probes(dev, pool)[at..][1..] == Probes(dev, pool)[at + 1..];
      ProbesChangeNothing(dev, pool, at + 1, h);
    }
  }

  lemma {:induction false} AdditionsFillPool(ns: string, dev: string, pool: seq<Address>, at: nat, h: Host)
    requires at <= |pool| && IsInside(h, dev, ns) && h.links[dev].addresses == pool[..at] && NoRepeats(pool[..at])
    ensures var r := ExecuteAll(Additions(ns, dev, pool)[at..], h);
            && (r.Some? <==> NoRepeats(pool))
            && (r.Some? ==> OnlyLink(h, r.value, dev) && r.value.links[dev] == h.links[dev].(addresses := pool))
    decreases |pool| - at
  {
    if at == |pool| {
      assert pool[..at] == pool;
    } else {
      assert Additions(ns, dev, pool)[at..][1..] == Additions(ns, dev, pool)[at + 1..];
      assert pool[..at + 1] == pool[..at] + [pool[at]];
      if pool[at] in pool[..at] {
        var k :| 0 <= k < at && pool[..at][k] == pool[at];
        assert pool[k] == pool[at];
      } else {
        AdditionsFillPool(ns, dev, pool, at + 1, After(AddAddress(ns, dev, pool[at]), h));
      }
    }
  }

  lemma {:induction false} DisablesClear(ns: string, dev: string, at: nat, h: Host)
    requires at <= 6 && IsInside(h, dev, ns)
    requires forall i :: 0 <= i < at ==> DISABLE_ORDER[i] !in h.links[dev].enabled
    ensures var r := ExecuteAll(Disables(ns, dev)[at..], h);
            r.Some? && OnlyLink(h, r.value, dev) && r.value.links[dev] == h.links[dev].(enabled := {})
    decreases 6 - at
  {
    if at == 6 {
      forall f: Feature
        ensures f !in h.links[dev].enabled
      {
        var i :| 0 <= i < 6 && DISABLE_ORDER[i] == f by {
          assert DISABLE_ORDER[0] == Gro && DISABLE_ORDER[1] == Gso && DISABLE_ORDER[2] == Tso;
          assert DISABLE_ORDER[3] == Lro && DISABLE_ORDER[4] == Rx && DISABLE_ORDER[5] == Tx;
        }
      }
      assert h.links[dev].enabled == {};
    } else {
      assert Disables(ns, dev)[at..][1..] == Disables(ns, dev)[at + 1..];
      var h' := After(DisableFeature(ns, dev, DISABLE_ORDER[at]), h);
      DisablesClear(ns, dev, at + 1, h');
    }
  }

  lemma SetupConfigures(b: Borrow, mtu: nat, h: Host)
    requires IsRoot(h, b.dev)
    ensures var r := ExecuteAll([AddNamespace(b.ns), MoveIn(b.dev, b.ns), LoopbackUp(b.ns),
                                 ConfigureLink(b.ns, b.dev, mtu)], h);
            && (r.Some? <==> b.ns !in h.namespaces)
            && (r.Some? ==>
              && r.value.namespaces == h.namespaces + {b.ns}
              && OnlyLink(h.(namespaces := r.value.namespaces), r.value, b.dev)
              && r.value.links[b.dev] == Link(Inside(b.ns), [], mtu, true, h.links[b.dev].enabled))
  {
    var list := [AddNamespace(b.ns), MoveIn(b.dev, b.ns), LoopbackUp(b.ns), ConfigureLink(b.ns, b.dev, mtu)];
    assert list[1..] == [MoveIn(b.dev, b.ns), LoopbackUp(b.ns), ConfigureLink(b.ns, b.dev, mtu)];
    assert list[1..][1..] == [LoopbackUp(b.ns), ConfigureLink(b.ns, b.dev, mtu)];
    assert list[1..][1..][1..] == [ConfigureLink(b.ns, b.dev, mtu)];
    assert list[1..][1..][1..][1..] == [];
    if b.ns !in h.namespaces {
      var h1 := After(list[0], h);
      var h2 := After(list[1], h1);
      var h3 := After(list[3], h2);
      assert ExecuteAll(list[1..][1..][1..], h2) == ExecuteAll([], h3);
      assert ExecuteAll(list[1..][1..], h2) == ExecuteAll(list[1..][1..][1..], h2);
    }
  }

  lemma ForwardConfigures(job: Job, b: Borrow, h: Host)
    requires IsRoot(h, b.dev) && b.ns !in h.namespaces
    ensures var r := ExecuteAll(Forward(b, job.mtu, job.arping, job.ethtool), h);
            && (r.Some? <==> NoRepeats(b.pool))
            && (r.Some? ==>
              && r.value.namespaces == h.namespaces + {b.ns}
              && OnlyLink(h.(namespaces := r.value.namespaces), r.value, b.dev)
              && Configured(b, job, h.links[b.dev], r.value.links[b.dev]))
  {
    var probes := if job.arping then Probes(b.dev, b.pool) else [];
    var setup := [AddNamespace(b.ns), MoveIn(b.dev, b.ns), LoopbackUp(b.ns), ConfigureLink(b.ns, b.dev, job.mtu)];
    var additions := Additions(b.ns, b.dev, b.pool);
    var disables := if job.ethtool then Disables(b.ns, b.dev) else [];
    ExecuteConcat(probes + setup + additions, disables, h);
    ExecuteConcat(probes + setup, additions, h);
    ExecuteConcat(probes, setup, h);
    ProbesChangeNothing(b.dev, b.pool, 0, h);
    assert Probes(b.dev, b.pool)[0..] == Probes(b.dev, b.pool);
    SetupConfigures(b, job.mtu, h);
    var r1 := ExecuteAll(setup, h);
    if r1.Some? {
      assert additions[0..] == additions;
      AdditionsFillPool(b.ns, b.dev, b.pool, 0, r1.value);
      var r2 := ExecuteAll(additions, r1.value);
      if r2.Some? && job.ethtool {
        assert disables[0..] == disables;
        DisablesClear(b.ns, b.dev, 0, r2.value);
      }
    }
  }

  ghost predicate AllConfigured(job: Job, base: Host, h: Host)
  {
    && h.links.Keys == base.links.Keys
    && (forall i :: 0 <= i < |job.borrows| ==>
          var b := job.borrows[i];
          b.dev in base.links && b.dev in h.links && b.ns in h.namespaces
          && Configured(b, job, base.links[b.dev], h.links[b.dev]))
    && (forall d :: d in h.links && !Borrows(job, d) ==> h.links[d] == base.links[d])
  }

  /** The first `at` interfaces are configured, the others are untouched. */
  ghost predicate PartlyConfigured(job: Job, base: Host, at: nat, h: Host)
  {
    && h.links.Keys == base.links.Keys
    && (forall i :: 0 <= i < |job.borrows| ==>
          var b := job.borrows[i];
          && b.dev in base.links
          && (b.ns in h.namespaces <==> i < at)
          && if i < at then Configured(b, job, base.links[b.dev], h.links[b.dev])
             else h.links[b.dev] == base.links[b.dev])
    && (forall d :: d in h.links && !Borrows(job, d) ==> h.links[d] == base.links[d])
  }

  lemma OneMoreConfigured(job: Job, base: Host, at: nat, h: Host, h': Host)
    requires Fits(job, base) && at < |job.borrows| && PartlyConfigured(job, base, at, h)
    requires var b := job.borrows[at];
             && h'.namespaces == h.namespaces + {b.ns}
             && OnlyLink(h.(namespaces := h'.namespaces), h', b.dev)
             && Configured(b, job, base.links[b.dev], h'.links[b.dev])
    ensures PartlyConfigured(job, base, at + 1, h')
  {
    var b := job.borrows[at];
    assert Borrows(job, b.dev);
    forall i | 0 <= i < |job.borrows| && i != at
      ensures job.borrows[i].dev != b.dev && job.borrows[i].ns != b.ns
    {
    }
  }

  lemma {:induction false} CommandsConfigure(job: Job, base: Host, at: nat, h: Host)
    requires Fits(job, base) && at <= |job.borrows| && PartlyConfigured(job, base, at, h)
    ensures var r := ExecuteAll(ForwardAll(job.borrows[at..], job.mtu, job.arping, job.ethtool), h);
            && (r.Some? <==> PoolsDiffer(job.borrows[at..]))
            && (r.Some? ==> PartlyConfigured(job, base, |job.borrows|, r.value))
    decreases |job.borrows| - at
  {
    if at < |job.borrows| {
      var b := job.borrows[at];
      assert FitsOne(b, job.ethtool, base);
      FirstInterfaceThenRest(job, at, h);
      ForwardConfigures(job, b, h);
      var r := ExecuteAll(Forward(b, job.mtu, job.arping, job.ethtool), h);
      if r.Some? {
        OneMoreConfigured(job, base, at, h, r.value);
        CommandsConfigure(job, base, at + 1, r.value);
      }
    }
  }

  lemma FirstInterfaceThenRest(job: Job, at: nat, h: Host)
    requires at < |job.borrows|
    ensures ExecuteAll(ForwardAll(job.borrows[at..], job.mtu, job.arping, job.ethtool), h)
         == match ExecuteAll(Forward(job.borrows[at], job.mtu, job.arping, job.ethtool), h)
            case Some(h') => ExecuteAll(ForwardAll(job.borrows[at + 1..], job.mtu, job.arping, job.ethtool), h')
            case None => None
    ensures PoolsDiffer(job.borrows[at..]) <==> NoRepeats(job.borrows[at].pool) && PoolsDiffer(job.borrows[at + 1..])
  {
    var b, rest := job.borrows[at], job.borrows[at + 1..];
    assert job.borrows[at..][1..] == rest && job.borrows[at..] == [b] + rest;
    ExecuteConcat(Forward(b, job.mtu, job.arping, job.ethtool), ForwardAll(rest, job.mtu, job.arping, job.ethtool), h);
    PoolsDifferNext(b, rest);
  }

  lemma PoolsDifferNext(b: Borrow, rest: seq<Borrow>)
    ensures PoolsDiffer([b] + rest) <==> NoRepeats(b.pool) && PoolsDiffer(rest)
  {
    if PoolsDiffer([b] + rest) {
      assert ([b] + rest)[0] == b;
      forall i | 0 <= i < |rest|
        ensures NoRepeats(rest[i].pool)
      {
        assert ([b] + rest)[i + 1] == rest[i];
      }
    }
  }

  lemma AllCommandsConfigure(job: Job, base: Host)
    requires Fits(job, base)
    ensures var r := ExecuteAll(Commands(job), base);
            (r.Some? <==> PoolsDiffer(job.borrows)) && (r.Some? ==> AllConfigured(job, base, r.value))
  {
    assert job.borrows[0..] == job.borrows;
    forall i | 0 <= i < |job.borrows|
      ensures job.borrows[i].ns !in base.namespaces && job.borrows[i].dev in base.links
    {
      assert FitsOne(job.borrows[i], job.ethtool, base);
    }
    CommandsConfigure(job, base, 0, base);
  }

  lemma AppliedConfigures(job: Job, n: Node, j: Journal)
    requires Fits(job, n.host) && n.journal == Some(j) && j.undo == UndoAll(job.borrows)
    requires j.phase.Applying? && j.completed == 0
    ensures var (n1, v) := ApplyFrom(n, j, Commands(job));
            v.Fine? ==> AllConfigured(job, n.host, n1.host) && n1.journal.Some? && n1.journal.value.phase.Staged?
  {
    FineMeansExecuted(n, j, Commands(job));
    assert Commands(job)[0..] == Commands(job);
    AllCommandsConfigure(job, n.host);
    PlanningLeavesNothingUndone(job, n.host);
    ApplyKeepsSecured(job, n.host, n, j);
  }

  /** A stage that reports success has configured every borrowed interface and nothing else. */
  lemma StageConfigures(job: Job, n: Node, operation: string)
    requires Fits(job, n.host)
    ensures var (n1, v) := ApplyNode(n, operation, PlanFor(Visible(n.host), job));
            v.Fine? ==> AllConfigured(job, n.host, n1.host) && n1.journal.Some? && n1.journal.value.phase.Staged?
  {
    var j := Journal(operation, Applying, UndoAll(job.borrows), 0);
    var (n1, v) := WriteJournal(n, Some(j));
    if v.Fine? {
      AppliedConfigures(job, n1, j);
    }
  }

  lemma {:induction false} QuietExecution(n: Node, j: Journal, commands: seq<Command>)
    requires j.completed <= |commands| && n.tape == []
    requires ExecuteAll(commands[j.completed..], n.host).Some?
    ensures var h := ExecuteAll(commands[j.completed..], n.host).value;
            ApplyFrom(n, j, commands) == (Node(h, Some(j.(phase := Staged, completed := |commands|)), []), Fine)
    decreases |commands| - j.completed
  {
    if j.completed == |commands| {
      assert commands[j.completed..] == [];
    } else {
      assert commands[j.completed..][1..] == commands[j.completed + 1..];
      var h := After(commands[j.completed], n.host);
      var j1 := j.(completed := j.completed + 1);
      QuietExecution(Node(h, Some(j1), []), j1, commands);
    }
  }

  /** An undisturbed stage succeeds, and then leaves every borrowed interface configured, exactly if
      no pool repeats an address; otherwise it leaves nothing behind. */
  lemma UndisturbedStageIff(job: Job, host: Host, journal: Option<Journal>, operation: string)
    requires Fits(job, host)
    ensures var (n1, v) := ApplyNode(Node(host, journal, []), operation, PlanFor(Visible(host), job));
            && (v.Fine? <==> PoolsDiffer(job.borrows))
            && (v.Fine? ==> AllConfigured(job, host, n1.host) && n1.tape == [] && n1.journal
                            == Some(Journal(operation, Staged, UndoAll(job.borrows), |Commands(job)|)))
            && (!v.Fine? ==> v.Failed? && n1 == Node(host, None, []))
  {
    var j := Journal(operation, Applying, UndoAll(job.borrows), 0);
    var n := Node(host, Some(j), []);
    assert Commands(job)[0..] == Commands(job);
    AllCommandsConfigure(job, host);
    UndisturbedStage(job, host, journal, operation);
    if PoolsDiffer(job.borrows) {
      QuietExecution(n, j, Commands(job));
    } else {
      FineMeansExecuted(n, j, Commands(job));
    }
  }

  // ----- Prepared means configured, unless a rollback failed in between

  ghost predicate Sound(w: World)
  {
    && Safe(w)
    && (w.journal.Some? && (w.journal.value.phase.Staged? || w.journal.value.phase.Prepared?) ==>
          AllConfigured(w.job, w.origin, w.host))
  }

  /** No rollback failed and no rollback was cut short by a crash. */
  ghost predicate Undisturbed(w: World, i: Input)
  {
    (i.call.Lease? || i.call.Recover? || i.call.Start?) && (w.alive || i.call.Start?) ==> Answer(w, i).1.Fine?
  }

  ghost predicate AllUndisturbed(w: World, inputs: seq<Input>)
    decreases |inputs|
  {
    inputs == [] || (Undisturbed(w, inputs[0]) && AllUndisturbed(Perform(w, inputs[0]), inputs[1..]))
  }

  /** A stage that did not report success leaves no staged journal, except when the report itself
      was lost. */
  lemma UnfinishedStageIsSound(job: Job, n: Node, operation: string)
    requires Fits(job, n.host) && n.journal.None?
    ensures var (n1, v) := ApplyNode(n, operation, PlanFor(Visible(n.host), job));
            n1.journal.Some? && (n1.journal.value.phase.Staged? || n1.journal.value.phase.Prepared?) ==>
              AllConfigured(job, n.host, n1.host)
  {
    var j := Journal(operation, Applying, UndoAll(job.borrows), 0);
    var (n1, v) := WriteJournal(n, Some(j));
    if v.Fine? {
      StagedMeansExecuted(n1, j, Commands(job));
      assert Commands(job)[0..] == Commands(job);
      AllCommandsConfigure(job, n.host);
    }
  }

  lemma {:induction false} StagedMeansExecuted(n: Node, j: Journal, commands: seq<Command>)
    requires j.completed <= |commands| && n.journal.Some? && n.journal.value.phase.Applying? && j.phase.Applying?
    ensures var (n1, v) := ApplyFrom(n, j, commands);
            && (n1.journal.Some? && n1.journal.value.phase.Staged? ==>
                  ExecuteAll(commands[j.completed..], n.host) == Some(n1.host))
            && (n1.journal.Some? ==> !n1.journal.value.phase.Prepared?)
    decreases |commands| - j.completed
  {
    if j.completed == |commands| {
      assert commands[j.completed..] == [];
    } else {
      assert commands[j.completed..][1..] == commands[j.completed + 1..];
      var (e, v) := Try(commands[j.completed], Env(n.host, n.tape), false);
      if v.Fine? {
        var j1 := j.(completed := j.completed + 1);
        var (n2, w) := WriteJournal(Node(e.host, n.journal, e.tape), Some(j1));
        if w.Fine? {
          StagedMeansExecuted(n2, j1, commands);
        }
      } else if v.Failed? {
        var (n2, w) := WriteJournal(Node(e.host, n.journal, e.tape), Some(j.(phase := RollingBack)));
      }
    }
  }

  /** An undisturbed rollback forgets the journal. */
  lemma FineRollbackForgets(n: Node, undo: seq<Command>)
    ensures var (n1, v) := RollbackNode(n, undo); v.Fine? ==> n1.journal.None?
  {
  }

  lemma UndoStepKeepsSound(w: World, i: Input)
    requires Sound(w) && Undisturbed(w, i) && (w.alive || i.call.Start?)
    requires i.call.Lease? || i.call.Recover? || i.call.Start?
    ensures var w1 := Perform(w, i); w1.journal.None? || (w1.journal == w.journal && w1.host == w.host)
  {
    if w.journal.Some? {
      FineRollbackForgets(Node(w.host, w.journal, i.tape), w.journal.value.undo);
    }
  }

  lemma StageStepIsSound(w: World, i: Input)
    requires Begins(w, i.call) && w.journal.None? && Fits(i.call.job, w.host)
    ensures var w1 := Perform(w, i);
            && w1.job == i.call.job && w1.origin == w.host
            && (w1.journal.Some? && (w1.journal.value.phase.Staged? || w1.journal.value.phase.Prepared?) ==>
                  AllConfigured(i.call.job, w.host, w1.host))
  {
    UnfinishedStageIsSound(i.call.job, Node(w.host, w.journal, i.tape), i.call.operation);
  }

  lemma OtherStepIsSound(w: World, i: Input)
    requires Sound(w) && Undisturbed(w, i) && !Begins(w, i.call)
    ensures var w1 := Perform(w, i);
            && w1.job == w.job && w1.origin == w.origin
            && (w1.journal.None?
                || (w1.host == w.host && w.journal.Some?
                    && (w1.journal == w.journal || w.journal.value.phase.Staged?)))
  {
    if (w.alive || i.call.Start?) && (i.call.Lease? || i.call.Recover? || i.call.Start?) {
      UndoStepKeepsSound(w, i);
    }
  }

  lemma StepKeepsSound(w: World, i: Input)
    requires Sound(w) && Clear(w, i) && Undisturbed(w, i)
    ensures Sound(Perform(w, i))
  {
    StepKeepsSafe(w, i);
    var w1 := Perform(w, i);
    assert Safe(w1);
    if Begins(w, i.call) {
      StageStepIsSound(w, i);
    } else {
      OtherStepIsSound(w, i);
    }
  }

  /** Over every run with clear stages and undisturbed rollbacks, a prepared (or staged) journal
      means that the host is configured exactly as planned. */
  lemma {:induction false} PreparedMeansConfigured(w: World, inputs: seq<Input>)
    requires Sound(w) && AllClear(w, inputs) && AllUndisturbed(w, inputs)
    ensures var w1 := PerformAll(w, inputs);
            w1.journal.Some? && w1.journal.value.phase.Prepared? ==> AllConfigured(w1.job, w1.origin, w1.host)
    decreases |inputs|
  {
    if inputs != [] {
      StepKeepsSound(w, inputs[0]);
      PreparedMeansConfigured(Perform(w, inputs[0]), inputs[1..]);
    }
  }

  // ----- Deleting the pool in reverse

  /** Forgetting the last address of a pool removes that address and no other. */
  lemma {:induction false} ForgetLast(pool: seq<Address>)
    requires pool != [] && NoRepeats(pool)
    ensures Forget(pool, pool[|pool| - 1]) == pool[..|pool| - 1]
  {
    var a := pool[|pool| - 1];
    if |pool| == 1 {
      assert WithoutSubnet(pool[1..], a) == [];
    } else if SameSubnet(pool[0], a) {
      WithoutLast(pool);
    } else {
      assert pool[1..][|pool[1..]| - 1] == a;
      ForgetLast(pool[1..]);
      assert [pool[0]] + pool[1..][..|pool| - 2] == pool[..|pool| - 1];
    }
  }

  lemma {:induction false} WithoutLast(pool: seq<Address>)
    requires pool != [] && NoRepeats(pool)
    ensures Without(pool, pool[|pool| - 1]) == pool[..|pool| - 1]
  {
    if |pool| > 1 {
      WithoutLast(pool[1..]);
      assert pool[1..][|pool[1..]| - 1] == pool[|pool| - 1];
      assert [pool[0]] + pool[1..][..|pool| - 2] == pool[..|pool| - 1];
    }
  }

  lemma {:induction false} DeletionsFindTheirAddresses(ns: string, dev: string, pool: seq<Address>, at: nat, h: Host)
    requires at <= |pool| && NoRepeats(pool)
    requires IsInside(h, dev, ns) && h.links[dev].addresses == pool[..|pool| - at]
    ensures var r := ExecuteAll(Deletions(ns, dev, pool)[at..], h);
            r.Some? && IsInside(r.value, dev, ns) && r.value.links[dev].addresses == []
    decreases |pool| - at
  {
    if at < |pool| {
      assert Deletions(ns, dev, pool)[at..][1..] == Deletions(ns, dev, pool)[at + 1..];
      var left := pool[..|pool| - at];
      ForgetLast(left);
      assert left[..|left| - 1] == pool[..|pool| - at - 1];
      DeletionsFindTheirAddresses(ns, dev, pool, at + 1, After(Deletions(ns, dev, pool)[at], h));
    }
  }

  /** In rollback order every deletion of a planned pool finds its address: no primary is deleted
      before its secondaries, so nothing is deleted by cascade. */
  lemma ReverseDeletionFindsEveryAddress(ns: string, dev: string, start: Address, count: nat, h: Host)
    requires count <= ADDRESS_SPACE && IsInside(h, dev, ns) && h.links[dev].addresses == ExpandPool(start, count)
    ensures var r := ExecuteAll(Deletions(ns, dev, ExpandPool(start, count)), h);
            r.Some? && IsInside(r.value, dev, ns) && r.value.links[dev].addresses == []
  {
    var pool := ExpandPool(start, count);
    PlannedPoolDiffers(start, count);
    assert Deletions(ns, dev, pool)[0..] == Deletions(ns, dev, pool) && pool[..|pool|] == pool;
    DeletionsFindTheirAddresses(ns, dev, pool, 0, h);
  }
}
